/**
 * The nodes of a document: children are kept in a doubly linked list threaded through the nodes
 * themselves, and some of the pointers mean nothing while certain others are null.
 */
module Dom {

  datatype NodeType = Document | Element | Data | CData | Comment | Declaration | Doctype | Pi

  class XmlAttribute {
    var name: string
    var value: string
    var parent: XmlNode?
    var prevAttribute: XmlAttribute?
    var nextAttribute: XmlAttribute?

    constructor (name: string, value: string)
      ensures this.name == name && this.value == value && parent == null
    {
      this.name, this.value, parent := name, value, null;
    }
  }

  class XmlNode {
    var kind: NodeType
    var name: string
    var value: string
    var parent: XmlNode?
    var firstNode: XmlNode?
    var lastNode: XmlNode?
    var prevSibling: XmlNode?
    var nextSibling: XmlNode?
    var firstAttribute: XmlAttribute?
    var lastAttribute: XmlAttribute?
    ghost var children: seq<XmlNode>
    ghost var attributes: seq<XmlAttribute>

    /** A node without children or parent; the last child and the siblings are left as they are. */
    constructor (kind: NodeType)
      ensures this.kind == kind && name == "" && value == "" && parent == null
      ensures children == [] && Linked() && attributes == [] && AttributesLinked()
    {
      this.kind := kind;
      name, value, parent, firstNode, children := "", "", null, null, [];
      firstAttribute, attributes := null, [];
    }

    /** The first child is always valid, the last one only if there is a child. */
    ghost predicate Linked()
      reads this`firstNode, this`lastNode, this`children, children`parent, children`prevSibling, children`nextSibling
    {
      && (firstNode == null <==> children == [])
      && (children != [] ==> firstNode == children[0] && lastNode == children[|children| - 1])
      && Chain(children, this)
    }

    /** The siblings of a node are valid as long as it has a parent. */
    static ghost predicate Chain(cs: seq<XmlNode>, owner: XmlNode)
      reads cs`parent, cs`prevSibling, cs`nextSibling
    {
      && (forall i :: 0 <= i < |cs| ==> cs[i].parent == owner)
      && (forall i, j :: 0 <= i < j < |cs| ==> cs[i] != cs[j])
      && (cs != [] ==> cs[0].prevSibling == null && cs[|cs| - 1].nextSibling == null)
      && (forall i, j :: 0 <= i < j < |cs| && j == i + 1 ==> cs[i].nextSibling == cs[j] && cs[j].prevSibling == cs[i])
    }

    static ghost function Front(cs: seq<XmlNode>): set<XmlNode> {
      if cs == [] then {} else {cs[0]}
    }

    static ghost function Back(cs: seq<XmlNode>): set<XmlNode> {
      if cs == [] then {} else {cs[|cs| - 1]}
    }

    method PrependNode(child: XmlNode)
      requires Linked() && child.parent == null && child.kind != Document
      modifies `firstNode, `lastNode, `children, child`parent, child`prevSibling, child`nextSibling
      modifies Front(children)`prevSibling
      ensures Linked() && children == [child] + old(children)
      ensures forall q: XmlNode :: old(allocated(q)) && q != this && old(q.Linked()) ==> q.Linked()
    {
      if firstNode != null {
        child.nextSibling := firstNode;
        firstNode.prevSibling := child;
      } else {
        child.nextSibling := null;
        lastNode := child;
      }
      firstNode := child;
      child.parent := this;
      child.prevSibling := null;
      children := [child] + children;
    }

    method AppendNode(child: XmlNode)
      requires Linked() && child.parent == null && child.kind != Document
      modifies `firstNode, `lastNode, `children, child`parent, child`prevSibling, child`nextSibling
      modifies Back(children)`nextSibling
      ensures Linked() && children == old(children) + [child]
      ensures forall q: XmlNode :: old(allocated(q)) && q != this && old(q.Linked()) ==> q.Linked()
    {
      if firstNode != null {
        child.prevSibling := lastNode;
        lastNode.nextSibling := child;
      } else {
        child.prevSibling := null;
        firstNode := child;
      }
      lastNode := child;
      child.parent := this;
      child.nextSibling := null;
      children := children + [child];
    }

    /** `child` at position `k`, and everything from there on one place further. */
    static ghost function Inserted(cs: seq<XmlNode>, child: XmlNode, k: nat): (r: seq<XmlNode>)
      requires k <= |cs|
      ensures |r| == |cs| + 1 && r[k] == child
      ensures forall i :: 0 <= i < k ==> r[i] == cs[i]
      ensures forall i :: k < i < |r| ==> r[i] == cs[i - 1]
    {
      cs[..k] + [child] + cs[k..]
    }

    /** `k` is where `before` stands among the children, or their number if there is no `before`. */
    method InsertNode(before: XmlNode?, child: XmlNode, ghost k: nat)
      requires Linked() && child.parent == null && child.kind != Document
      requires k <= |children| && before == (if k < |children| then children[k] else null)
      modifies `firstNode, `lastNode, `children, child`parent, child`prevSibling, child`nextSibling
      modifies Back(children[..k])`nextSibling, Front(children[k..])`prevSibling
      ensures Linked() && children == Inserted(old(children), child, k)
      ensures forall q: XmlNode :: old(allocated(q)) && q != this && old(q.Linked()) ==> q.Linked()
    {
      if before == firstNode {
        assert k == 0;
        assert children[..k] == [] && children[k..] == children;
        PrependNode(child);
        assert children == Inserted(old(children), child, k);
      } else if before == null {
        assert children[..k] == children && children[k..] == [];
        AppendNode(child);
        assert children == Inserted(old(children), child, k);
      } else {
        InsertBetween(before, child, k);
      }
    }

    /** The case of `InsertNode` in which there is a sibling on either side. */
    method InsertBetween(before: XmlNode, child: XmlNode, ghost k: nat)
      requires Linked() && child.parent == null && child.kind != Document
      requires 0 < k < |children| && before == children[k]
      modifies `children, child`parent, child`prevSibling, child`nextSibling
      modifies Back(children[..k])`nextSibling, Front(children[k..])`prevSibling
      ensures Linked() && children == Inserted(old(children), child, k)
      ensures forall q: XmlNode :: old(allocated(q)) && q != this && old(q.Linked()) ==> q.Linked()
    {
      ghost var cs := children;
      assert cs[k - 1].nextSibling == cs[k] && before.prevSibling == cs[k - 1];
      assert child !in cs;
      hide Inserted;
      LinkBetween(before, child);
      children := Inserted(cs, child, k);
      Spliced(cs, child, k);
    }

    /** The pointers alone. */
    method LinkBetween(before: XmlNode, child: XmlNode)
      requires before.prevSibling != null && before.prevSibling != before
      requires child != before && child != before.prevSibling
      modifies before`prevSibling, before.prevSibling`nextSibling
      modifies child`parent, child`prevSibling, child`nextSibling
      ensures child.parent == this && child.prevSibling == old(before.prevSibling) && child.nextSibling == before
      ensures before.prevSibling == child && old(before.prevSibling).nextSibling == child
    {
      child.prevSibling := before.prevSibling;
      child.nextSibling := before;
      before.prevSibling.nextSibling := child;
      before.prevSibling := child;
      child.parent := this;
    }

    /** Two neighbours that have been led to the child between them make a chain with it. */
    lemma Spliced(cs: seq<XmlNode>, child: XmlNode, k: nat)
      requires 0 < k < |cs| && child !in cs
      requires forall i :: 0 <= i < |cs| ==> cs[i].parent == this
      requires forall i, j :: 0 <= i < j < |cs| ==> cs[i] != cs[j]
      requires cs[0].prevSibling == null && cs[|cs| - 1].nextSibling == null
      requires forall i, j :: 0 <= i < j < |cs| && j == i + 1 && j != k
                         ==> cs[i].nextSibling == cs[j] && cs[j].prevSibling == cs[i]
      requires child.parent == this && child.prevSibling == cs[k - 1] && child.nextSibling == cs[k]
      requires cs[k - 1].nextSibling == child && cs[k].prevSibling == child
      ensures Chain(Inserted(cs, child, k), this)
    {
      hide Inserted;
      var r := Inserted(cs, child, k);
      forall i, j | 0 <= i < j < |r| && j == i + 1 ensures r[i].nextSibling == r[j] && r[j].prevSibling == r[i] {
        if j < k {
          assert cs[i].nextSibling == cs[j];
        } else if j > k + 1 {
          assert cs[i - 1].nextSibling == cs[j - 1];
        }
      }
    }

    method RemoveFirstNode()
      requires Linked() && firstNode != null
      modifies `firstNode, `lastNode, `children, firstNode`parent, Front(children[1..])`prevSibling
      ensures Linked() && children == old(children)[1..] && old(firstNode).parent == null
      ensures forall q: XmlNode :: old(allocated(q)) && q != this && old(q.Linked()) ==> q.Linked()
    {
      var child := firstNode;
      assert |children| > 1 ==> children[0].nextSibling == children[1];
      firstNode := child.nextSibling;
      if child.nextSibling != null {
        child.nextSibling.prevSibling := null;
      } else {
        lastNode := null;
      }
      child.parent := null;
      children := children[1..];
    }

    method RemoveLastNode()
      requires Linked() && firstNode != null
      modifies `firstNode, `lastNode, `children, lastNode`parent, Back(children[..|children| - 1])`nextSibling
      ensures Linked() && children == old(children)[..old(|children|) - 1] && old(lastNode).parent == null
      ensures forall q: XmlNode :: old(allocated(q)) && q != this && old(q.Linked()) ==> q.Linked()
    {
      var child := lastNode;
      ghost var n := |children| - 1;
      assert n > 0 ==> children[n - 1].nextSibling == children[n];
      if child.prevSibling != null {
        lastNode := child.prevSibling;
        child.prevSibling.nextSibling := null;
      } else {
        firstNode := null;
      }
      child.parent := null;
      children := children[..n];
    }

    /** `k` is where `node` stands among the children. */
    method RemoveNode(node: XmlNode, ghost k: nat)
      requires Linked() && k < |children| && children[k] == node
      modifies `firstNode, `lastNode, `children, node`parent
      modifies Back(children[..k])`nextSibling, Front(children[k + 1..])`prevSibling
      ensures Linked() && children == old(children)[..k] + old(children)[k + 1..] && node.parent == null
      ensures forall q: XmlNode :: old(allocated(q)) && q != this && old(q.Linked()) ==> q.Linked()
    {
      if node == firstNode {
        RemoveFirstNode();
      } else if node == lastNode {
        RemoveLastNode();
      } else {
        RemoveBetween(node, k);
      }
    }

    /** The case of `RemoveNode` in which there is a sibling on either side. */
    method RemoveBetween(node: XmlNode, ghost k: nat)
      requires Linked() && 0 < k < |children| - 1 && children[k] == node
      modifies `children, node`parent, Back(children[..k])`nextSibling, Front(children[k + 1..])`prevSibling
      ensures Linked() && children == old(children)[..k] + old(children)[k + 1..] && node.parent == null
      ensures forall q: XmlNode :: old(allocated(q)) && q != this && old(q.Linked()) ==> q.Linked()
    {
      ghost var cs := children;
      assert cs[k - 1].nextSibling == cs[k] && cs[k].nextSibling == cs[k + 1];
      Unlink(node);
      children := cs[..k] + cs[k + 1..];
      assert cs[k - 1].nextSibling == cs[k + 1] && cs[k + 1].prevSibling == cs[k - 1];
      Closed(cs, k);
    }

    /** The pointers alone. */
    static method Unlink(node: XmlNode)
      requires node.prevSibling != null && node.nextSibling != null
      requires node.prevSibling != node && node.nextSibling != node && node.prevSibling != node.nextSibling
      modifies node`parent, node.prevSibling`nextSibling, node.nextSibling`prevSibling
      ensures node.parent == null
      ensures node.prevSibling == old(node.prevSibling) && node.nextSibling == old(node.nextSibling)
      ensures node.prevSibling.nextSibling == node.nextSibling && node.nextSibling.prevSibling == node.prevSibling
    {
      node.prevSibling.nextSibling := node.nextSibling;
      node.nextSibling.prevSibling := node.prevSibling;
      node.parent := null;
    }

    /** Two siblings that have been led past the node between them make a chain without it. */
    lemma Closed(cs: seq<XmlNode>, k: nat)
      requires 0 < k < |cs| - 1
      requires forall i :: 0 <= i < |cs| && i != k ==> cs[i].parent == this
      requires forall i, j :: 0 <= i < j < |cs| ==> cs[i] != cs[j]
      requires cs[0].prevSibling == null && cs[|cs| - 1].nextSibling == null
      requires forall i, j :: 0 <= i < j < |cs| && j == i + 1 && i != k && j != k
                         ==> cs[i].nextSibling == cs[j] && cs[j].prevSibling == cs[i]
      requires cs[k - 1].nextSibling == cs[k + 1] && cs[k + 1].prevSibling == cs[k - 1]
      ensures Chain(cs[..k] + cs[k + 1..], this)
    {
      var r := cs[..k] + cs[k + 1..];
      forall i, j | 0 <= i < j < |r| && j == i + 1 ensures r[i].nextSibling == r[j] && r[j].prevSibling == r[i] {
        if j < k {
          assert cs[i].nextSibling == cs[j];
        } else if j > k {
          assert cs[i + 1].nextSibling == cs[j + 1];
        }
      }
    }

    method RemoveAllNodes()
      requires Linked()
      modifies `firstNode, `children, children`parent
      ensures Linked() && children == [] && forall c :: c in old(children) ==> c.parent == null
      ensures forall q: XmlNode :: old(allocated(q)) && q != this && old(q.Linked()) ==> q.Linked()
    {
      var node := firstNode;
      ghost var k := 0;
      while node != null
        invariant 0 <= k <= |children|
        invariant children == old(children) && firstNode == old(firstNode)
        invariant node == if k < |children| then children[k] else null
        invariant forall i :: 0 <= i < k ==> children[i].parent == null
        invariant forall i :: k <= i < |children| ==> children[i].parent == this
        decreases |children| - k
      {
        node.parent := null;
        assert k + 1 < |children| ==> children[k].nextSibling == children[k + 1];
        node := node.nextSibling;
        k := k + 1;
      }
      firstNode := null;
      children := [];
    }

    /** The children as a walk over `nextSibling` meets them. */
    method Forward() returns (met: seq<XmlNode>)
      requires Linked()
      ensures met == children
    {
      met := [];
      var node := firstNode;
      while node != null
        invariant |met| <= |children| && met == children[..|met|]
        invariant node == if |met| < |children| then children[|met|] else null
        decreases |children| - |met|
      {
        met := met + [node];
        assert |met| < |children| ==> children[|met| - 1].nextSibling == children[|met|];
        node := node.nextSibling;
      }
    }

    /** The children as a walk over `prevSibling` meets them; a node without children is not asked. */
    method Backward() returns (met: seq<XmlNode>)
      requires Linked() && firstNode != null
      ensures met == Reversed(children)
    {
      met := [];
      var node := lastNode;
      ghost var k := |children|;
      assert children[..k] == children;
      while node != null
        invariant 0 <= k <= |children|
        invariant node == if k > 0 then children[k - 1] else null
        invariant met + Reversed(children[..k]) == Reversed(children)
        decreases k
      {
        met := met + [node];
        assert k > 1 ==> children[k - 2].nextSibling == children[k - 1];
        assert children[..k][..k - 1] == children[..k - 1];
        node := node.prevSibling;
        k := k - 1;
      }
    }

    static ghost function Reversed(cs: seq<XmlNode>): seq<XmlNode> {
      if cs == [] then [] else [cs[|cs| - 1]] + Reversed(cs[..|cs| - 1])
    }

    // ---- Attributes ----

    ghost predicate AttributesLinked()
      reads this`firstAttribute, this`lastAttribute, this`attributes
      reads attributes`parent, attributes`prevAttribute, attributes`nextAttribute
    {
      && (firstAttribute == null <==> attributes == [])
      && (attributes != [] ==> firstAttribute == attributes[0] && lastAttribute == attributes[|attributes| - 1])
      && AttributeChain(attributes, this)
    }

    static ghost predicate AttributeChain(cs: seq<XmlAttribute>, owner: XmlNode)
      reads cs`parent, cs`prevAttribute, cs`nextAttribute
    {
      && (forall i :: 0 <= i < |cs| ==> cs[i].parent == owner)
      && (forall i, j :: 0 <= i < j < |cs| ==> cs[i] != cs[j])
      && (cs != [] ==> cs[0].prevAttribute == null && cs[|cs| - 1].nextAttribute == null)
      && (forall i, j :: 0 <= i < j < |cs| && j == i + 1
                    ==> cs[i].nextAttribute == cs[j] && cs[j].prevAttribute == cs[i])
    }

    static ghost function LastOf(list: seq<XmlAttribute>): set<XmlAttribute> {
      if list == [] then {} else {list[|list| - 1]}
    }

    method AppendAttribute(attribute: XmlAttribute)
      requires AttributesLinked() && attribute.parent == null
      modifies `firstAttribute, `lastAttribute, `attributes
      modifies attribute`parent, attribute`prevAttribute, attribute`nextAttribute
      modifies LastOf(attributes)`nextAttribute
      ensures AttributesLinked() && attributes == old(attributes) + [attribute]
      ensures forall q: XmlNode :: old(allocated(q)) && q != this && old(q.AttributesLinked()) ==> q.AttributesLinked()
    {
      if firstAttribute != null {
        attribute.prevAttribute := lastAttribute;
        lastAttribute.nextAttribute := attribute;
      } else {
        attribute.prevAttribute := null;
        firstAttribute := attribute;
      }
      lastAttribute := attribute;
      attribute.parent := this;
      attribute.nextAttribute := null;
      attributes := attributes + [attribute];
    }

    method RemoveAllAttributes()
      requires AttributesLinked()
      modifies `firstAttribute, `attributes, attributes`parent
      ensures AttributesLinked() && attributes == [] && forall a :: a in old(attributes) ==> a.parent == null
      ensures forall q: XmlNode :: old(allocated(q)) && q != this && old(q.AttributesLinked()) ==> q.AttributesLinked()
    {
      var attribute := firstAttribute;
      ghost var k := 0;
      while attribute != null
        invariant 0 <= k <= |attributes|
        invariant attributes == old(attributes) && firstAttribute == old(firstAttribute)
        invariant attribute == if k < |attributes| then attributes[k] else null
        invariant forall i :: 0 <= i < k ==> attributes[i].parent == null
        invariant forall i :: k <= i < |attributes| ==> attributes[i].parent == this
        decreases |attributes| - k
      {
        attribute.parent := null;
        assert k + 1 < |attributes| ==> attributes[k].nextAttribute == attributes[k + 1];
        attribute := attribute.nextAttribute;
        k := k + 1;
      }
      firstAttribute := null;
      attributes := [];
    }
  }

  // ---- Cloning ----

  /** A node with everything below it, as a value. */
  datatype Tree = Tree(kind: NodeType, name: string, value: string, attributes: seq<(string, string)>, children: seq<Tree>)

  /** What one node says. */
  datatype Info = Info(kind: NodeType, name: string, value: string, pairs: seq<(string, string)>,
                       attributes: seq<XmlAttribute>, children: seq<XmlNode>)

  ghost predicate AttributesDenote(attributes: seq<XmlAttribute>, pairs: seq<(string, string)>)
    reads attributes`name, attributes`value
  {
    && |attributes| == |pairs|
    && (forall i :: 0 <= i < |pairs| ==> attributes[i].name == pairs[i].0)
    && (forall i :: 0 <= i < |pairs| ==> attributes[i].value == pairs[i].1)
  }

  /** Every node of the map has both lists in order and says what the map says. */
  ghost predicate Shown(m: map<XmlNode, Info>)
    reads *
  {
    && (forall n :: n in m ==> n.Linked() && n.children == m[n].children)
    && (forall n :: n in m ==> n.AttributesLinked() && n.attributes == m[n].attributes)
    && (forall n :: n in m ==> AttributesDenote(n.attributes, m[n].pairs))
    && (forall n :: n in m ==> n.kind == m[n].kind && n.name == m[n].name && n.value == m[n].value)
  }

  /** According to the map, the node stands for the tree. */
  ghost predicate Denotes(node: XmlNode, t: Tree, m: map<XmlNode, Info>)
    decreases t
  {
    && node in m && m[node].kind == t.kind && m[node].name == t.name && m[node].value == t.value
    && m[node].pairs == t.attributes && Copied(m[node].children, t.children, m)
    && forall i :: 0 <= i < |t.children| ==> t.children[i].kind != Document
  }

  ghost predicate Copied(cs: seq<XmlNode>, trees: seq<Tree>, m: map<XmlNode, Info>)
    decreases trees
  {
    |cs| == |trees| && forall i :: 0 <= i < |cs| ==> Denotes(cs[i], trees[i], m)
  }

  ghost predicate Within(m: map<XmlNode, Info>, m': map<XmlNode, Info>) {
    forall n :: n in m ==> n in m' && m'[n] == m[n]
  }

  lemma {:induction false} DenotesMore(node: XmlNode, t: Tree, m: map<XmlNode, Info>, m': map<XmlNode, Info>)
    requires Denotes(node, t, m) && Within(m, m')
    ensures Denotes(node, t, m')
    decreases t
  {
    CopiedMore(m[node].children, t.children, m, m');
  }

  lemma {:induction false} CopiedMore(cs: seq<XmlNode>, trees: seq<Tree>, m: map<XmlNode, Info>, m': map<XmlNode, Info>)
    requires Copied(cs, trees, m) && Within(m, m')
    ensures Copied(cs, trees, m')
    decreases trees
  {
    forall i | 0 <= i < |cs| ensures Denotes(cs[i], trees[i], m') {
      DenotesMore(cs[i], trees[i], m, m');
    }
  }

  // Each step of the cloning, with the nodes it must not disturb.

  method DropAttributes(node: XmlNode, ghost keep: map<XmlNode, Info>)
    requires Shown(keep) && node !in keep && node.AttributesLinked()
    modifies node`firstAttribute, node`attributes, node.attributes`parent
    ensures Shown(keep) && node.AttributesLinked() && node.attributes == []
  {
    hide XmlNode.Linked, XmlNode.AttributesLinked, AttributesDenote;
    node.RemoveAllAttributes();
  }

  method DropNodes(node: XmlNode, ghost keep: map<XmlNode, Info>)
    requires Shown(keep) && node !in keep && node.Linked()
    modifies node`firstNode, node`children, node.children`parent
    ensures Shown(keep) && node.Linked() && node.children == []
  {
    hide XmlNode.Linked, XmlNode.AttributesLinked, AttributesDenote;
    node.RemoveAllNodes();
  }

  method DropAll(node: XmlNode, ghost keep: map<XmlNode, Info>)
    requires Shown(keep) && node !in keep && node.Linked() && node.AttributesLinked()
    modifies node`firstAttribute, node`attributes, node.attributes`parent
    modifies node`firstNode, node`children, node.children`parent
    ensures Shown(keep)
    ensures node.Linked() && node.children == [] && node.AttributesLinked() && node.attributes == []
  {
    hide Shown;
    DropAttributes(node, keep);
    DropNodes(node, keep);
  }

  method CopyTexts(source: XmlNode, node: XmlNode, ghost keep: map<XmlNode, Info>)
    requires Shown(keep) && node !in keep && source in keep
    modifies node`kind, node`name, node`value
    ensures Shown(keep)
    ensures node.kind == source.kind && node.name == source.name && node.value == source.value
  {
    hide XmlNode.Linked, XmlNode.AttributesLinked, AttributesDenote;
    node.kind := source.kind;
    node.name, node.value := source.name, source.value;
  }

  method NewNode(kind: NodeType, ghost keep: map<XmlNode, Info>) returns (node: XmlNode)
    requires Shown(keep)
    ensures Shown(keep) && fresh(node) && node.parent == null
    ensures node.Linked() && node.children == [] && node.AttributesLinked() && node.attributes == []
  {
    node := new XmlNode(kind);
  }

  method AttachNode(result: XmlNode, clone: XmlNode, ghost keep: map<XmlNode, Info>)
    requires Shown(keep) && result !in keep && result.Linked()
    requires clone.parent == null && clone.kind != Document
    modifies result`firstNode, result`lastNode, result`children, XmlNode.Back(result.children)`nextSibling
    modifies clone`parent, clone`prevSibling, clone`nextSibling
    ensures Shown(keep) && result.Linked() && result.children == old(result.children) + [clone]
  {
    hide XmlNode.Linked, XmlNode.AttributesLinked, AttributesDenote;
    result.AppendNode(clone);
  }

  method AttachAttribute(result: XmlNode, source: XmlAttribute, ghost keep: map<XmlNode, Info>) returns (copy: XmlAttribute)
    requires Shown(keep) && result !in keep && result.AttributesLinked()
    modifies result`firstAttribute, result`lastAttribute, result`attributes
    modifies XmlNode.LastOf(result.attributes)`nextAttribute
    ensures Shown(keep) && result.AttributesLinked() && result.attributes == old(result.attributes) + [copy]
    ensures copy.name == source.name && copy.value == source.value && fresh(copy)
  {
    hide Shown, XmlNode.AttributesLinked;
    copy := NewAttribute(source.name, source.value, keep);
    LinkAttribute(result, copy, keep);
  }

  method NewAttribute(name: string, value: string, ghost keep: map<XmlNode, Info>) returns (attribute: XmlAttribute)
    requires Shown(keep)
    ensures Shown(keep) && fresh(attribute) && attribute.parent == null
    ensures attribute.name == name && attribute.value == value
  {
    hide XmlNode.Linked, XmlNode.AttributesLinked, AttributesDenote;
    attribute := new XmlAttribute(name, value);
  }

  method LinkAttribute(result: XmlNode, attribute: XmlAttribute, ghost keep: map<XmlNode, Info>)
    requires Shown(keep) && result !in keep && result.AttributesLinked() && attribute.parent == null
    modifies result`firstAttribute, result`lastAttribute, result`attributes
    modifies XmlNode.LastOf(result.attributes)`nextAttribute
    modifies attribute`parent, attribute`prevAttribute, attribute`nextAttribute
    ensures Shown(keep) && result.AttributesLinked() && result.attributes == old(result.attributes) + [attribute]
  {
    hide XmlNode.Linked, XmlNode.AttributesLinked, AttributesDenote;
    result.AppendAttribute(attribute);
  }

  /** The node that takes the copy, with the texts of the source and with empty lists. */
  method Prepare(source: XmlNode, into: XmlNode?, ghost keep: map<XmlNode, Info>) returns (result: XmlNode)
    requires Shown(keep) && source in keep
    requires into != null ==> into !in keep && into.Linked() && into.AttributesLinked()
    modifies Given(into)`kind, Given(into)`name, Given(into)`value, Given(into)`firstNode, Given(into)`children
    modifies Given(into)`firstAttribute, Given(into)`attributes
    modifies (if into == null then [] else into.children)`parent
    modifies (if into == null then [] else into.attributes)`parent
    ensures Shown(keep) && result !in keep
    ensures result.kind == keep[source].kind && result.name == keep[source].name && result.value == keep[source].value
    ensures result.Linked() && result.children == [] && result.AttributesLinked() && result.attributes == []
    ensures if into == null then fresh(result) && result.parent == null else result == into
  {
    ShownNode(source, keep);
    hide Shown, XmlNode.Linked, XmlNode.AttributesLinked;
    if into != null {
      DropAll(into, keep);
      result := into;
    } else {
      result := NewNode(source.kind, keep);
    }
    CopyTexts(source, result, keep);
  }

  lemma ShownNode(node: XmlNode, m: map<XmlNode, Info>)
    requires Shown(m) && node in m
    ensures node.Linked() && node.children == m[node].children
    ensures node.kind == m[node].kind && node.name == m[node].name && node.value == m[node].value
    ensures node.firstNode == if node.children == [] then null else node.children[0]
  {
  }

  /** The nodes of `all` that `keep` does not have, and their attributes. */
  ghost function News(keep: map<XmlNode, Info>, all: map<XmlNode, Info>): set<object> {
    (set n: object | n in all.Keys - keep.Keys) + (set n, a | n in all.Keys - keep.Keys && a in all[n].attributes :: a as object)
  }

  /**
   * Copies a node and everything below it, into `into` or into a node of its own. `keep` covers the source
   * and whatever else is to stay as it is; `all` has the copy as well. What the copy has below it, attributes
   * included, did not exist before, and a given node keeps its own place.
   */
  method CloneNode(source: XmlNode, into: XmlNode?, ghost t: Tree, ghost keep: map<XmlNode, Info>)
    returns (result: XmlNode, ghost all: map<XmlNode, Info>)
    requires Shown(keep) && Denotes(source, t, keep)
    requires into != null ==> into !in keep && into.Linked() && into.AttributesLinked()
    modifies Given(into)`kind, Given(into)`name, Given(into)`value, Given(into)`firstNode, Given(into)`lastNode
    modifies Given(into)`children, Given(into)`firstAttribute, Given(into)`lastAttribute, Given(into)`attributes
    modifies (if into == null then [] else into.children)`parent
    modifies (if into == null then [] else into.attributes)`parent
    ensures Shown(all) && Within(keep, all) && result !in keep && result in all
    ensures Denotes(result, t, all - keep.Keys) && Copied(result.children, t.children, all - keep.Keys - {result})
    ensures fresh(News(keep, all - {result}))
    ensures (forall c :: c in result.children ==> fresh(c)) && forall a :: a in result.attributes ==> fresh(a)
    ensures into != null && into !in old(into.children) ==> into.parent == old(into.parent)
    ensures into != null ==> into.prevSibling == old(into.prevSibling) && into.nextSibling == old(into.nextSibling)
    ensures result.kind == t.kind && all[result].attributes == result.attributes
    ensures if into == null then fresh(result) && result.parent == null else result == into
    decreases t, 4
  {
    hide Shown, Denotes, Copied, XmlNode.Linked, XmlNode.AttributesLinked, AttributesDenote;
    Texts(source, t, keep);
    result := Prepare(source, into, keep);
    all := CloneLists(source, result, t, keep);
  }

  /** The children and the attributes, once the texts have been copied. */
  method CloneLists(source: XmlNode, result: XmlNode, ghost t: Tree, ghost keep: map<XmlNode, Info>)
    returns (ghost all: map<XmlNode, Info>)
    requires Shown(keep) && Denotes(source, t, keep) && result !in keep
    requires result.kind == t.kind && result.name == t.name && result.value == t.value
    requires result.Linked() && result.children == [] && result.AttributesLinked() && result.attributes == []
    modifies result`firstNode, result`lastNode, result`children
    modifies result`firstAttribute, result`lastAttribute, result`attributes
    ensures Shown(all) && Within(keep, all) && result in all && all[result].attributes == result.attributes
    ensures Denotes(result, t, all - keep.Keys) && Copied(result.children, t.children, all - keep.Keys - {result})
    ensures fresh(News(keep, all - {result}))
    ensures (forall c :: c in result.children ==> fresh(c)) && forall a :: a in result.attributes ==> fresh(a)
    decreases t, 3
  {
    hide Shown, Denotes, Copied, XmlNode.Linked, XmlNode.AttributesLinked, AttributesDenote;
    Texts(source, t, keep);
    all := CloneChildren(source, result, t, keep);
    CloneAttributes(source, result, t.attributes, all);
    all := Include(result, t, keep, all);
  }

  lemma Texts(node: XmlNode, t: Tree, m: map<XmlNode, Info>)
    requires Denotes(node, t, m)
    ensures node in m && m[node].kind == t.kind && m[node].name == t.name && m[node].value == t.value
    ensures m[node].pairs == t.attributes && forall i :: 0 <= i < |t.children| ==> t.children[i].kind != Document
  {
  }

  ghost function Given(into: XmlNode?): set<XmlNode> {
    if into == null then {} else {into}
  }

  /** The copy itself joins the nodes under it. */
  ghost method Include(result: XmlNode, t: Tree, keep: map<XmlNode, Info>, all: map<XmlNode, Info>)
    returns (all': map<XmlNode, Info>)
    requires Shown(all) && Within(keep, all) && result !in all && result.Linked() && result.AttributesLinked()
    requires result.kind == t.kind && result.name == t.name && result.value == t.value
    requires AttributesDenote(result.attributes, t.attributes) && Copied(result.children, t.children, all - keep.Keys)
    requires forall i :: 0 <= i < |t.children| ==> t.children[i].kind != Document
    ensures Shown(all') && Within(keep, all') && result in all' && all' - {result} == all
    ensures all'[result].attributes == result.attributes
    ensures Denotes(result, t, all' - keep.Keys) && Copied(result.children, t.children, all' - keep.Keys - {result})
  {
    var info := Info(t.kind, t.name, t.value, t.attributes, result.attributes, result.children);
    IncludeDenotes(result, t, keep, all, info);
    all' := all[result := info];
    hide Copied, Denotes, XmlNode.Linked, XmlNode.AttributesLinked, AttributesDenote;
  }

  lemma IncludeDenotes(result: XmlNode, t: Tree, keep: map<XmlNode, Info>, all: map<XmlNode, Info>, info: Info)
    requires Within(keep, all) && result !in all && Copied(info.children, t.children, all - keep.Keys)
    requires info.kind == t.kind && info.name == t.name && info.value == t.value && info.pairs == t.attributes
    requires forall i :: 0 <= i < |t.children| ==> t.children[i].kind != Document
    ensures var all' := all[result := info];
            && Within(keep, all') && all' - {result} == all && all' - keep.Keys - {result} == all - keep.Keys
            && Denotes(result, t, all' - keep.Keys) && Copied(info.children, t.children, all' - keep.Keys - {result})
  {
    var all' := all[result := info];
    assert all' - keep.Keys - {result} == all - keep.Keys;
    CopiedMore(info.children, t.children, all - keep.Keys, all' - keep.Keys);
    hide Copied;
  }

  method CloneChildren(source: XmlNode, result: XmlNode, ghost t: Tree, ghost keep: map<XmlNode, Info>)
    returns (ghost all: map<XmlNode, Info>)
    requires Shown(keep) && Denotes(source, t, keep) && result !in keep
    requires result.Linked() && result.children == []
    modifies result`firstNode, result`lastNode, result`children
    ensures Shown(all) && Within(keep, all) && Copied(result.children, t.children, all - keep.Keys)
    ensures result !in all && result.Linked() && fresh(News(keep, all))
    ensures forall c :: c in result.children ==> fresh(c)
    decreases t, 2
  {
    hide Shown, Denotes, Copied, XmlNode.Linked, Within, News;
    StartChildren(source, result, t, keep);
    ghost var k;
    all, k := CloneEach(source, result, t, keep);
    NoneLeft(source, t, k, keep, all, result.children);
  }

  /** The loop; `k` counts its rounds. */
  method CloneEach(source: XmlNode, result: XmlNode, ghost t: Tree, ghost keep: map<XmlNode, Info>)
    returns (ghost all: map<XmlNode, Info>, ghost k: nat)
    requires Shown(keep) && Denotes(source, t, keep) && Within(keep, keep) && result !in keep
    requires source in keep && source.firstNode == Next(keep[source].children, 0)
    requires result.Linked() && result.children == [] && Copied(result.children, t.children[..0], keep - keep.Keys)
    modifies result`firstNode, result`lastNode, result`children
    ensures k <= |t.children| && Next(keep[source].children, k) == null
    ensures Shown(all) && Within(keep, all) && Copied(result.children, t.children[..k], all - keep.Keys)
    ensures result !in all && result.Linked() && fresh(News(keep, all))
    decreases t, 1
  {
    all, k := keep, 0;
    assert News(keep, keep) == {};
    var child := source.firstNode;
    hide Shown, Denotes, Copied, XmlNode.Linked, Within, News;
    while child != null
      invariant k <= |t.children| && child == Next(keep[source].children, k)
      invariant Shown(all) && Within(keep, all) && result.Linked() && result !in all
      invariant Copied(result.children, t.children[..k], all - keep.Keys)
      invariant fresh(News(keep, all)) && fresh(XmlNode.Back(result.children))
      decreases |t.children| - k
    {
      ghost var before := all;
      child, all := CloneChild(source, child, result, t, k, keep, all);
      WithinMore(keep, before, all);
      StillNew(News(keep, before), News(before, all), News(keep, all));
      k := k + 1;
    }
  }

  twostate lemma StillNew(new a: set<object>, new b: set<object>, new c: set<object>)
    requires fresh(a) && fresh(b) && c <= a + b
    ensures fresh(c)
  {
  }

  lemma WithinMore(m: map<XmlNode, Info>, m': map<XmlNode, Info>, m'': map<XmlNode, Info>)
    requires Within(m, m') && Within(m', m'')
    ensures Within(m, m'') && News(m, m'') <= News(m, m') + News(m', m'')
  {
  }

  lemma StartChildren(source: XmlNode, result: XmlNode, t: Tree, keep: map<XmlNode, Info>)
    requires Shown(keep) && Denotes(source, t, keep) && result.children == []
    ensures source in keep && source.firstNode == Next(keep[source].children, 0)
    ensures Copied(result.children, t.children[..0], keep - keep.Keys) && Within(keep, keep)
  {
    ShownNode(source, keep);
  }

  ghost function Next(cs: seq<XmlNode>, k: nat): XmlNode? {
    if k < |cs| then cs[k] else null
  }

  /** One child: its copy becomes the last child of `result`; then its sibling is next. */
  method CloneChild(source: XmlNode, child: XmlNode, result: XmlNode, ghost t: Tree, ghost k: nat,
                    ghost base: map<XmlNode, Info>, ghost keep: map<XmlNode, Info>)
    returns (next: XmlNode?, ghost all: map<XmlNode, Info>)
    requires k < |t.children| && source in base && child == Next(base[source].children, k)
    requires Denotes(source, t, base) && Within(base, keep) && Shown(keep) && result.Linked() && result !in keep
    requires Copied(result.children, t.children[..k], keep - base.Keys)
    modifies result`firstNode, result`lastNode, result`children, XmlNode.Back(result.children)`nextSibling
    ensures Shown(all) && Within(keep, all) && result.Linked() && result !in all
    ensures Copied(result.children, t.children[..k + 1], all - base.Keys)
    ensures next == Next(base[source].children, k + 1)
    ensures fresh(News(keep, all)) && fresh(XmlNode.Back(result.children))
    decreases t, 0
  {
    hide Shown, Denotes, Copied, XmlNode.Linked, News, Within;
    ChildDenotes(source, t, k, base, keep);
    all := CopyChild(child, result, t.children[k], t.children[..k], base, keep);
    TakeMore(t.children, k);
    NextChild(source, k, base, keep, all);
    next := child.nextSibling;
  }

  lemma TakeMore<T>(s: seq<T>, k: nat)
    requires k < |s|
    ensures s[..k] + [s[k]] == s[..k + 1]
  {
  }

  lemma NoneLeft(node: XmlNode, t: Tree, k: nat, keep: map<XmlNode, Info>, all: map<XmlNode, Info>, cs: seq<XmlNode>)
    requires Denotes(node, t, keep) && k <= |t.children| && Next(keep[node].children, k) == null
    requires Copied(cs, t.children[..k], all - keep.Keys)
    ensures Copied(cs, t.children, all - keep.Keys) && forall c :: c in cs ==> c in News(keep, all)
  {
    assert t.children[..k] == t.children;
    forall i | 0 <= i < |cs| ensures cs[i] in News(keep, all) {
      assert Denotes(cs[i], t.children[i], all - keep.Keys);
    }
  }

  /** A copy in a node of its own leaves everything that was there before as it was. */
  method CloneNew(source: XmlNode, ghost t: Tree, ghost keep: map<XmlNode, Info>)
    returns (clone: XmlNode, ghost all: map<XmlNode, Info>)
    requires Shown(keep) && Denotes(source, t, keep)
    ensures Shown(all) && Within(keep, all) && Denotes(clone, t, all - keep.Keys) && fresh(News(keep, all))
    ensures fresh(clone) && clone.parent == null && clone.kind == t.kind
    decreases t, 5
  {
    hide Shown, Copied, Within, Denotes;
    clone, all := CloneNode(source, null, t, keep);
    NewsOf(clone, keep, all);
  }

  /** The copy of one child becomes the last child of `result`. */
  method CopyChild(child: XmlNode, result: XmlNode, ghost t: Tree, ghost trees: seq<Tree>,
                   ghost base: map<XmlNode, Info>, ghost keep: map<XmlNode, Info>)
    returns (ghost all: map<XmlNode, Info>)
    requires Shown(keep) && Within(base, keep) && Denotes(child, t, keep) && t.kind != Document
    requires result !in keep && result.Linked() && Copied(result.children, trees, keep - base.Keys)
    modifies result`firstNode, result`lastNode, result`children, XmlNode.Back(result.children)`nextSibling
    ensures Shown(all) && Within(keep, all) && Copied(result.children, trees + [t], all - base.Keys)
    ensures result !in all && result.Linked() && fresh(News(keep, all))
    ensures |result.children| == |trees| + 1 && fresh(XmlNode.Back(result.children))
    decreases t, 6
  {
    hide Denotes, Copied, Shown, Within, XmlNode.Linked, News;
    CopiedLength(result.children, trees, keep - base.Keys);
    ghost var cs := result.children;
    var clone;
    clone, all := CloneNew(child, t, keep);
    if result in all {
      InNews(result, keep, all);
    }
    AttachNode(result, clone, all);
    OneMore(cs, clone, trees, t, base, keep, all);
  }

  lemma NewsOf(n: XmlNode, keep: map<XmlNode, Info>, all: map<XmlNode, Info>)
    requires n in all && n !in keep
    ensures forall o :: o in News(keep, all) ==> o in News(keep, all - {n}) || o == n || o in all[n].attributes
  {
    var under := all - {n};
    forall o | o in News(keep, all) ensures o in News(keep, under) || o == n || o in all[n].attributes {
      if o !in all.Keys - keep.Keys {
        var m, a :| m in all.Keys - keep.Keys && a in all[m].attributes && o == a;
        assert m != n ==> m in under.Keys - keep.Keys && a in under[m].attributes;
      } else {
        assert o != n ==> o in under.Keys - keep.Keys;
      }
    }
  }

  lemma InNews(n: XmlNode, keep: map<XmlNode, Info>, all: map<XmlNode, Info>)
    requires n in all && n !in keep
    ensures n in News(keep, all)
  {
    assert n in all.Keys - keep.Keys;
  }

  lemma CopiedLength(cs: seq<XmlNode>, trees: seq<Tree>, m: map<XmlNode, Info>)
    requires Copied(cs, trees, m)
    ensures |cs| == |trees|
  {
  }

  lemma OneMore(cs: seq<XmlNode>, clone: XmlNode, trees: seq<Tree>, t: Tree,
                base: map<XmlNode, Info>, keep: map<XmlNode, Info>, all: map<XmlNode, Info>)
    requires Within(base, keep) && Within(keep, all)
    requires Copied(cs, trees, keep - base.Keys) && Denotes(clone, t, all - keep.Keys)
    ensures Copied(cs + [clone], trees + [t], all - base.Keys)
  {
    CopiedMore(cs, trees, keep - base.Keys, all - base.Keys);
    DenotesMore(clone, t, all - keep.Keys, all - base.Keys);
    hide Denotes;
  }

  lemma ChildDenotes(node: XmlNode, t: Tree, k: nat, m: map<XmlNode, Info>, m': map<XmlNode, Info>)
    requires Denotes(node, t, m) && k < |t.children| && Within(m, m')
    ensures |m[node].children| == |t.children| && Denotes(m[node].children[k], t.children[k], m')
    ensures t.children[k].kind != Document
  {
    DenotesMore(m[node].children[k], t.children[k], m, m');
  }

  lemma NextChild(node: XmlNode, k: nat, base: map<XmlNode, Info>, keep: map<XmlNode, Info>, all: map<XmlNode, Info>)
    requires Within(base, keep) && Within(keep, all) && Shown(all) && node in base && k < |base[node].children|
    ensures base[node].children[k].nextSibling == Next(base[node].children, k + 1)
  {
    assert node.Linked() && node.children == base[node].children;
    assert k + 1 < |node.children| ==> node.children[k].nextSibling == node.children[k + 1];
  }

  method CloneAttributes(source: XmlNode, result: XmlNode, ghost pairs: seq<(string, string)>, ghost keep: map<XmlNode, Info>)
    requires Shown(keep) && source in keep && keep[source].pairs == pairs && result !in keep
    requires result.AttributesLinked() && result.attributes == []
    modifies result`firstAttribute, result`lastAttribute, result`attributes
    ensures Shown(keep) && result.AttributesLinked() && AttributesDenote(result.attributes, pairs)
    ensures forall a :: a in result.attributes ==> fresh(a)
  {
    FirstAttribute(source, keep);
    assert AttributesDenote(result.attributes, pairs[..0]);
    var attribute := source.firstAttribute;
    ghost var k := 0;
    hide Shown, AttributesDenote, XmlNode.AttributesLinked;
    while attribute != null
      invariant 0 <= k <= |pairs| && Shown(keep) && attribute == NextOf(keep[source].attributes, k)
      invariant result.AttributesLinked() && AttributesDenote(result.attributes, pairs[..k])
      invariant fresh(XmlNode.LastOf(result.attributes)) && forall a :: a in result.attributes ==> fresh(a)
      decreases |pairs| - k
    {
      attribute := CloneAttribute(source, attribute, result, pairs, k, keep);
      k := k + 1;
    }
    assert k == |pairs| && pairs[..k] == pairs;
  }

  /** One attribute: its copy becomes the last one of `result`; then the one behind it is next. */
  method CloneAttribute(source: XmlNode, attribute: XmlAttribute, result: XmlNode, ghost pairs: seq<(string, string)>,
                        ghost k: nat, ghost keep: map<XmlNode, Info>)
    returns (next: XmlAttribute?)
    requires Shown(keep) && source in keep && keep[source].pairs == pairs && result !in keep && result.AttributesLinked()
    requires k < |keep[source].attributes| == |pairs| && attribute == keep[source].attributes[k]
    requires AttributesDenote(result.attributes, pairs[..k])
    modifies result`firstAttribute, result`lastAttribute, result`attributes
    modifies XmlNode.LastOf(result.attributes)`nextAttribute
    ensures Shown(keep) && result.AttributesLinked() && AttributesDenote(result.attributes, pairs[..k + 1])
    ensures forall a :: a in result.attributes ==> a in old(result.attributes) || fresh(a)
    ensures fresh(XmlNode.LastOf(result.attributes))
    ensures next == NextOf(keep[source].attributes, k + 1)
  {
    hide Shown, AttributesDenote, XmlNode.AttributesLinked;
    ghost var before := result.attributes;
    NextAttribute(source, k, keep);
    var copy := AttachAttribute(result, attribute, keep);
    MorePairs(before, copy, pairs, k);
    NextAttribute(source, k, keep);
    next := attribute.nextAttribute;
  }

  ghost function NextOf(list: seq<XmlAttribute>, k: nat): XmlAttribute? {
    if k < |list| then list[k] else null
  }

  lemma FirstAttribute(node: XmlNode, m: map<XmlNode, Info>)
    requires Shown(m) && node in m
    ensures |m[node].attributes| == |m[node].pairs|
    ensures node.firstAttribute == NextOf(m[node].attributes, 0)
  {
    assert node.AttributesLinked() && node.attributes == m[node].attributes;
    assert AttributesDenote(node.attributes, m[node].pairs);
  }

  lemma NextAttribute(node: XmlNode, k: nat, m: map<XmlNode, Info>)
    requires Shown(m) && node in m && k < |m[node].attributes|
    ensures |m[node].attributes| == |m[node].pairs|
    ensures m[node].attributes[k].nextAttribute == NextOf(m[node].attributes, k + 1)
    ensures m[node].attributes[k].name == m[node].pairs[k].0 && m[node].attributes[k].value == m[node].pairs[k].1
  {
    assert node.AttributesLinked() && node.attributes == m[node].attributes;
    assert AttributesDenote(node.attributes, m[node].pairs);
    assert k + 1 < |node.attributes| ==> node.attributes[k].nextAttribute == node.attributes[k + 1];
  }

  lemma MorePairs(list: seq<XmlAttribute>, a: XmlAttribute, pairs: seq<(string, string)>, k: nat)
    requires k < |pairs| && AttributesDenote(list, pairs[..k]) && a.name == pairs[k].0 && a.value == pairs[k].1
    ensures AttributesDenote(list + [a], pairs[..k + 1])
  {
  }
}

/** Trees whose names and values are slices of the parsed buffer. */
module Layout {
  import opened Text
  import opened Parser

  datatype Slice = Slice(begin: nat, size: nat) {
    function End(): nat {
      begin + size
    }
  }

  datatype SlicedAttribute = SlicedAttribute(name: Slice, value: Slice)

  /** An element without data has no value pointer; otherwise it points at the text of a data child. */
  datatype SlicedNode =
    | SlicedElement(name: Slice, value: Option<Slice>, attributes: seq<SlicedAttribute>, children: seq<SlicedNode>)
    | SlicedData(text: Slice)
    | SlicedCData(text: Slice)

  // ---- What the slices hold ----

  /** `s` reads as `text`, and a terminator follows unless the parse left the buffer alone. */
  ghost predicate Holds(b: string, s: Slice, text: string, fl: Flags) {
    && s.End() < |b| && s.size == |text| && b[s.begin..s.End()] == text
    && (!fl.nonDestructive ==> b[s.End()] == '\0')
  }

  ghost predicate AttributesDenote(b: string, sliced: seq<SlicedAttribute>, attributes: seq<Attribute>, fl: Flags) {
    if sliced == [] || attributes == [] then sliced == [] && attributes == []
    else
      var k, m := |sliced| - 1, |attributes| - 1;
      && AttributesDenote(b, sliced[..k], attributes[..m], fl)
      && Holds(b, sliced[k].name, attributes[m].name, fl) && Holds(b, sliced[k].value, attributes[m].value, fl)
  }

  ghost predicate NodeDenotes(b: string, sliced: SlicedNode, n: Node, fl: Flags)
    decreases sliced, 0
  {
    match (sliced, n)
    case (SlicedData(s), Data(text)) => Holds(b, s, text, fl)
    case (SlicedCData(s), CData(text)) => Holds(b, s, text, fl)
    case (SlicedElement(sname, svalue, sattributes, schildren), Element(name, value, attributes, children)) =>
      && Holds(b, sname, name, fl) && AttributesDenote(b, sattributes, attributes, fl)
      && ChildrenDenote(b, schildren, children, fl) && ValueFrom(svalue, value, schildren, children)
    case _ => false
  }

  ghost predicate ChildrenDenote(b: string, sliced: seq<SlicedNode>, children: seq<Node>, fl: Flags)
    decreases sliced, 1
  {
    if sliced == [] || children == [] then sliced == [] && children == []
    else
      var k, m := |sliced| - 1, |children| - 1;
      ChildrenDenote(b, sliced[..k], children[..m], fl) && NodeDenotes(b, sliced[k], children[m], fl)
  }

  /** The element's value is nothing, or shares the slice of one of its data children. */
  ghost predicate ValueFrom(svalue: Option<Slice>, value: string, sliced: seq<SlicedNode>, children: seq<Node>) {
    match svalue
    case None => value == []
    case Some(s) =>
      |sliced| == |children|
      && exists k :: 0 <= k < |sliced| && sliced[k] == SlicedData(s) && children[k] == Data(value)
  }

  // ---- Where the slices lie ----

  function AttributeSlices(attributes: seq<SlicedAttribute>): seq<Slice> {
    if attributes == [] then []
    else
      var k := |attributes| - 1;
      AttributeSlices(attributes[..k]) + [attributes[k].name, attributes[k].value]
  }

  /** The slices of a node in document order; an element's value owns none of its own. */
  function NodeSlices(n: SlicedNode): seq<Slice>
    decreases n, 0
  {
    match n
    case SlicedData(s) => [s]
    case SlicedCData(s) => [s]
    case SlicedElement(name, _, attributes, children) => [name] + AttributeSlices(attributes) + ChildSlices(children)
  }

  function ChildSlices(children: seq<SlicedNode>): seq<Slice>
    decreases children, 1
  {
    if children == [] then []
    else
      var k := |children| - 1;
      ChildSlices(children[..k]) + NodeSlices(children[k])
  }

  /**
   * The slices lie in `[lo, hi)` one behind the other, each with room for the terminator behind it
   * that belongs to no other slice.
   */
  ghost predicate Ordered(slices: seq<Slice>, lo: nat, hi: nat) {
    && lo <= hi
    && (forall k :: 0 <= k < |slices| ==> lo <= slices[k].begin && slices[k].End() < hi)
    && (forall j, k :: 0 <= j < k < |slices| ==> slices[j].End() < slices[k].begin)
  }

  lemma OrderedConcat(a: seq<Slice>, b: seq<Slice>, lo: nat, mid: nat, hi: nat)
    requires Ordered(a, lo, mid) && Ordered(b, mid, hi)
    ensures Ordered(a + b, lo, hi)
  {
  }

  lemma OrderedParts(a: seq<Slice>, b: seq<Slice>, lo: nat, hi: nat)
    requires Ordered(a + b, lo, hi)
    ensures Ordered(a, lo, hi) && Ordered(b, lo, hi)
  {
    forall k | 0 <= k < |a| ensures lo <= a[k].begin && a[k].End() < hi {
      assert (a + b)[k] == a[k];
    }
    forall k | 0 <= k < |b| ensures lo <= b[k].begin && b[k].End() < hi {
      assert (a + b)[|a| + k] == b[k];
    }
    forall j, k | 0 <= j < k < |a| ensures a[j].End() < a[k].begin {
      assert (a + b)[j] == a[j] && (a + b)[k] == a[k];
    }
    forall j, k | 0 <= j < k < |b| ensures b[j].End() < b[k].begin {
      assert (a + b)[|a| + j] == b[j] && (a + b)[|a| + k] == b[k];
    }
  }

  // ---- Storage: contents and place together ----

  ghost predicate AttributesStored(b: string, sliced: seq<SlicedAttribute>, attributes: seq<Attribute>, lo: nat, hi: nat, fl: Flags) {
    AttributesDenote(b, sliced, attributes, fl) && Ordered(AttributeSlices(sliced), lo, hi)
  }

  ghost predicate NodeStored(b: string, sliced: SlicedNode, n: Node, lo: nat, hi: nat, fl: Flags) {
    NodeDenotes(b, sliced, n, fl) && Ordered(NodeSlices(sliced), lo, hi)
  }

  ghost predicate ChildrenStored(b: string, sliced: seq<SlicedNode>, children: seq<Node>, lo: nat, hi: nat, fl: Flags) {
    ChildrenDenote(b, sliced, children, fl) && Ordered(ChildSlices(sliced), lo, hi)
  }

  lemma HoldsElsewhere(b: string, b': string, s: Slice, text: string, lo: nat, hi: nat, fl: Flags)
    requires Holds(b, s, text, fl) && Agree(b, b', lo, hi) && lo <= s.begin && s.End() < hi
    ensures Holds(b', s, text, fl)
  {
    assert b'[s.begin..s.End()] == b[s.begin..s.End()];
  }

  /** What is stored in a part of the buffer survives writes to the other parts. */
  lemma {:induction false} AttributesSurvive(b: string, b': string, sliced: seq<SlicedAttribute>, attributes: seq<Attribute>,
                                             lo: nat, hi: nat, fl: Flags)
    requires AttributesStored(b, sliced, attributes, lo, hi, fl) && Agree(b, b', lo, hi)
    ensures AttributesStored(b', sliced, attributes, lo, hi, fl)
    decreases |sliced|
  {
    if sliced != [] {
      var k, m := |sliced| - 1, |attributes| - 1;
      var last := [sliced[k].name, sliced[k].value];
      OrderedParts(AttributeSlices(sliced[..k]), last, lo, hi);
      AttributesSurvive(b, b', sliced[..k], attributes[..m], lo, hi, fl);
      assert last[0] == sliced[k].name && last[1] == sliced[k].value;
      HoldsElsewhere(b, b', last[0], attributes[m].name, lo, hi, fl);
      HoldsElsewhere(b, b', last[1], attributes[m].value, lo, hi, fl);
    }
  }

  lemma {:induction false} NodeSurvives(b: string, b': string, sliced: SlicedNode, n: Node, lo: nat, hi: nat, fl: Flags)
    requires NodeStored(b, sliced, n, lo, hi, fl) && Agree(b, b', lo, hi)
    ensures NodeStored(b', sliced, n, lo, hi, fl)
    decreases sliced, 0
  {
    var slices := NodeSlices(sliced);
    match sliced {
      case SlicedData(s) =>
        assert slices[0] == s;
        HoldsElsewhere(b, b', s, n.text, lo, hi, fl);
      case SlicedCData(s) =>
        assert slices[0] == s;
        HoldsElsewhere(b, b', s, n.text, lo, hi, fl);
      case SlicedElement(name, value, attributes, children) =>
        OrderedParts([name] + AttributeSlices(attributes), ChildSlices(children), lo, hi);
        OrderedParts([name], AttributeSlices(attributes), lo, hi);
        assert [name][0] == name;
        HoldsElsewhere(b, b', name, n.name, lo, hi, fl);
        AttributesSurvive(b, b', attributes, n.attributes, lo, hi, fl);
        ChildrenSurvive(b, b', children, n.children, lo, hi, fl);
    }
  }

  lemma {:induction false} ChildrenSurvive(b: string, b': string, sliced: seq<SlicedNode>, children: seq<Node>, lo: nat, hi: nat, fl: Flags)
    requires ChildrenStored(b, sliced, children, lo, hi, fl) && Agree(b, b', lo, hi)
    ensures ChildrenStored(b', sliced, children, lo, hi, fl)
    decreases sliced, 1
  {
    if sliced != [] {
      var k, m := |sliced| - 1, |children| - 1;
      OrderedParts(ChildSlices(sliced[..k]), NodeSlices(sliced[k]), lo, hi);
      ChildrenSurvive(b, b', sliced[..k], children[..m], lo, hi, fl);
      NodeSurvives(b, b', sliced[k], children[m], lo, hi, fl);
    }
  }

  lemma AttributeAppended(b: string, sliced: seq<SlicedAttribute>, attributes: seq<Attribute>, s: SlicedAttribute, a: Attribute,
                          lo: nat, mid: nat, hi: nat, fl: Flags)
    requires AttributesStored(b, sliced, attributes, lo, mid, fl)
    requires Holds(b, s.name, a.name, fl) && Holds(b, s.value, a.value, fl) && Ordered([s.name, s.value], mid, hi)
    ensures AttributesStored(b, sliced + [s], attributes + [a], lo, hi, fl)
  {
    assert (sliced + [s])[..|sliced|] == sliced && (attributes + [a])[..|attributes|] == attributes;
    OrderedConcat(AttributeSlices(sliced), [s.name, s.value], lo, mid, hi);
  }

  lemma ChildAppended(b: string, sliced: seq<SlicedNode>, children: seq<Node>, s: SlicedNode, n: Node,
                      lo: nat, mid: nat, hi: nat, fl: Flags)
    requires ChildrenStored(b, sliced, children, lo, mid, fl) && NodeStored(b, s, n, mid, hi, fl)
    ensures ChildrenStored(b, sliced + [s], children + [n], lo, hi, fl)
  {
    assert (sliced + [s])[..|sliced|] == sliced && (children + [n])[..|children|] == children;
    OrderedConcat(ChildSlices(sliced), NodeSlices(s), lo, mid, hi);
  }

  lemma {:induction false} ChildAt(b: string, sliced: seq<SlicedNode>, children: seq<Node>, k: nat, fl: Flags)
    requires ChildrenDenote(b, sliced, children, fl) && k < |sliced|
    ensures |sliced| == |children| && NodeDenotes(b, sliced[k], children[k], fl)
    decreases |sliced|
  {
    var last, m := |sliced| - 1, |children| - 1;
    if k < last {
      ChildAt(b, sliced[..last], children[..m], k, fl);
    } else {
      SameLength(b, sliced, children, fl);
    }
  }

  lemma {:induction false} SameLength(b: string, sliced: seq<SlicedNode>, children: seq<Node>, fl: Flags)
    requires ChildrenDenote(b, sliced, children, fl)
    ensures |sliced| == |children|
    decreases |sliced|
  {
    if sliced != [] {
      SameLength(b, sliced[..|sliced| - 1], children[..|children| - 1], fl);
    }
  }
}

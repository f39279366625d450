/** What becomes of a tree that is printed and parsed, and which trees survive it. */
module NormalForm {
  import opened Text
  import opened Parser
  import opened Printer

  // ---- Trees that can be written down ----

  predicate Named(a: Attribute) {
    a.name != [] && All(a.name, AttributeName)
  }

  predicate AllNamed(attributes: seq<Attribute>) {
    forall k :: 0 <= k < |attributes| ==> Named(attributes[k])
  }

  /** Names that are read as names, and sections that end where they should. */
  predicate Writable(n: Node)
    decreases n, 0
  {
    match n
    case Data(_) => true
    case CData(text) => NulFree(text) && forall k :: 0 <= k <= |text| ==> !Has(text, k, "]]>")
    case Element(name, _, attributes, children) =>
      name != [] && All(name, NodeName) && name[0] != '!' && AllNamed(attributes) && WritableList(children)
  }

  predicate WritableList(children: seq<Node>)
    decreases children, 1
  {
    forall k :: 0 <= k < |children| ==> Writable(children[k])
  }

  predicate NoData(children: seq<Node>) {
    forall k :: 0 <= k < |children| ==> !children[k].Data?
  }

  // ---- What is read back ----

  predicate White(s: string) {
    forall k :: 0 <= k < |s| ==> IsSpace(s[k])
  }

  predicate NulFreeValues(attributes: seq<Attribute>) {
    forall k :: 0 <= k < |attributes| ==> NulFree(attributes[k].value)
  }

  /** What the text between two tags leaves behind: an error if it holds a NUL, nothing if it is all white space. */
  function Kept(text: string): Option<seq<Node>> {
    if !NulFree(text) then None else if White(text) then Some([]) else Some([Data(text)])
  }

  /** The text of the first data child. */
  function ElementValue(children: seq<Node>): string {
    if children == [] then [] else if children[0].Data? then children[0].text else ElementValue(children[1..])
  }

  /** Line breaks surround nested children, but not text that stands alone. */
  predicate Nested(n: Node, indenting: bool)
    requires n.Element?
  {
    indenting && n.children != [] && !SoleData(n.children)
  }

  /** The text in front of the first child. */
  function Start(n: Node, indenting: bool): string
    requires n.Element?
  {
    if n.children == [] then n.value else LineBreak(Nested(n, indenting))
  }

  /** The node that is read where `n` was printed, if the parser accepts it. */
  function Reread(n: Node, indenting: bool, indent: nat): Option<Node>
    requires !n.Data?
    decreases n, 0
  {
    if n.CData? then Some(n)
    else if !NulFreeValues(n.attributes) then None
    else if n.value == [] && n.children == [] then Some(n)
    else
      match RereadAll(n.children, Nested(n, indenting), indent, Start(n, indenting))
      case None => None
      case Some(list) => Some(Element(n.name, ElementValue(list), n.attributes, list))
  }

  /**
   * The children that are read where `children` were printed behind the text `pending`. Text gathers up to the
   * next tag, with all indentation in it.
   */
  function RereadAll(children: seq<Node>, indenting: bool, indent: nat, pending: string): Option<seq<Node>>
    decreases children, 0
  {
    if children == [] then Kept(pending + Lead(indenting, indent))
    else
      var text := pending + Lead(indenting, indent + 1);
      if children[0].Data? then
        RereadAll(children[1..], indenting, indent, text + children[0].text + LineBreak(indenting))
      else
        match (Kept(text), Reread(children[0], indenting, indent + 1),
               RereadAll(children[1..], indenting, indent, LineBreak(indenting)))
        case (Some(before), Some(n), Some(rest)) => Some(before + [n] + rest)
        case _ => None
  }

  function RereadDocument(children: seq<Node>, indenting: bool): Option<seq<Node>>
    requires NoData(children)
  {
    if children == [] then Some([])
    else
      match (Reread(children[0], indenting, 0), RereadDocument(children[1..], indenting))
      case (Some(n), Some(rest)) => Some([n] + rest)
      case _ => None
  }

  // ---- Trees that survive ----

  /** Text that the parser keeps: something other than white space in it. */
  predicate NormalText(text: string) {
    NulFree(text) && !White(text)
  }

  predicate Normal(n: Node)
    decreases n, 0
  {
    match n
    case Data(text) => NormalText(text)
    case CData(_) => true
    case Element(_, value, attributes, children) =>
      NulFreeValues(attributes) && NormalChildren(children) && value == ElementValue(children)
  }

  predicate NormalChildren(children: seq<Node>)
    decreases children, 1
  {
    && (forall k :: 0 <= k < |children| ==> Normal(children[k]))
    && (forall k :: 0 < k < |children| ==> !(children[k - 1].Data? && children[k].Data?))
  }

  /** Data only where it is the one child, so that line breaks never touch it. */
  predicate Tidy(n: Node) {
    n.Element? ==> SoleData(n.children) || TidyChildren(n.children)
  }

  predicate TidyChildren(children: seq<Node>) {
    forall k :: 0 <= k < |children| ==> !children[k].Data? && Tidy(children[k])
  }

  /** The documents that are read back as they were printed. */
  predicate NormalDocument(children: seq<Node>, indenting: bool) {
    NormalChildren(children) && (indenting ==> TidyChildren(children))
  }

  // ---- The two fit ----

  /** What is read back is in normal form. */
  lemma {:induction false} RereadIsNormal(n: Node, indenting: bool, indent: nat)
    requires !n.Data?
    ensures var r := Reread(n, indenting, indent); r.Some? ==> Normal(r.value) && !r.value.Data?
    decreases n, 0
  {
    if n.Element? && n.children != [] {
      RereadAllIsNormal(n.children, Nested(n, indenting), indent, Start(n, indenting));
    }
  }

  lemma {:induction false} RereadAllIsNormal(children: seq<Node>, indenting: bool, indent: nat, pending: string)
    ensures var r := RereadAll(children, indenting, indent, pending); r.Some? ==> NormalChildren(r.value)
    decreases children, 0
  {
    hide Normal, NormalChildren, Kept, Lead, LineBreak, Reread;
    if children == [] {
      KeptIsNormal(pending + Lead(indenting, indent));
    } else {
      var text := pending + Lead(indenting, indent + 1);
      if children[0].Data? {
        RereadAllIsNormal(children[1..], indenting, indent, text + children[0].text + LineBreak(indenting));
      } else {
        RereadIsNormal(children[0], indenting, indent + 1);
        RereadAllIsNormal(children[1..], indenting, indent, LineBreak(indenting));
        match (Kept(text), Reread(children[0], indenting, indent + 1),
               RereadAll(children[1..], indenting, indent, LineBreak(indenting)))
        case (Some(before), Some(n), Some(rest)) =>
          KeptIsNormal(text);
          JoinedNormal(before, n, rest);
        case _ =>
      }
    }
  }

  lemma KeptIsNormal(text: string)
    ensures var r := Kept(text); r.Some? ==> NormalChildren(r.value)
  {
  }

  lemma JoinedNormal(before: seq<Node>, n: Node, rest: seq<Node>)
    requires NormalChildren(before) && Normal(n) && !n.Data? && NormalChildren(rest)
    ensures NormalChildren(before + [n] + rest)
  {
    var all, b := before + [n] + rest, |before|;
    assert forall k :: 0 <= k < b ==> all[k] == before[k];
    assert forall k :: b < k < |all| ==> all[k] == rest[k - b - 1];
    forall k | 0 < k < |all| ensures !(all[k - 1].Data? && all[k].Data?) {
      if k < b {
        assert all[k - 1] == before[k - 1];
      } else if k > b + 1 {
        assert all[k - 1] == rest[k - b - 2];
      }
    }
  }

  lemma {:induction false} TabsAreWhite(n: nat)
    ensures White(Tabs(n))
  {
    if n > 0 {
      TabsAreWhite(n - 1);
    }
  }

  lemma IndentationIsWhite(indenting: bool, indent: nat)
    ensures White(Lead(indenting, indent)) && White(LineBreak(indenting)) && (!indenting ==> LineBreak(indenting) == [])
    ensures !indenting ==> Lead(indenting, indent) == []
  {
    TabsAreWhite(indent);
  }

  lemma WhiteJoin(a: string, b: string)
    ensures White(a + b) <==> White(a) && White(b)
    ensures NulFree(a + b) <==> NulFree(a) && NulFree(b)
  {
    var s := a + b;
    assert forall k :: 0 <= k < |a| ==> s[k] == a[k];
    assert forall k :: 0 <= k < |b| ==> s[|a| + k] == b[k];
  }

  lemma NormalTail(children: seq<Node>)
    requires children != [] && NormalChildren(children)
    ensures NormalChildren(children[1..]) && Normal(children[0])
    ensures children[0].Data? && |children| > 1 ==> !children[1].Data?
  {
    var rest := children[1..];
    assert forall k :: 0 <= k < |rest| ==> rest[k] == children[k + 1];
    forall k | 0 < k < |rest| ensures !(rest[k - 1].Data? && rest[k].Data?) {
      assert rest[k - 1] == children[k];
    }
  }

  lemma TidyTail(children: seq<Node>)
    requires children != [] && TidyChildren(children)
    ensures TidyChildren(children[1..]) && !children[0].Data? && Tidy(children[0])
  {
    assert forall k :: 0 <= k < |children| - 1 ==> children[1..][k] == children[k + 1];
  }

  /** A node is read back as it is just when it is in normal form, and tidy if there is indentation. */
  lemma {:induction false} RereadSame(n: Node, indenting: bool, indent: nat)
    requires !n.Data?
    ensures Reread(n, indenting, indent) == Some(n) <==> Normal(n) && (indenting ==> Tidy(n))
    decreases n, 0
  {
    if n.Element? && n.children != [] {
      var nested := Nested(n, indenting);
      if NormalChildren(n.children) && (nested ==> TidyChildren(n.children)) {
        NormalStays(n.children, nested, indent);
      }
      if RereadAll(n.children, nested, indent, LineBreak(nested)) == Some(n.children) {
        StaysNormal(n.children, nested, indent);
      }
    }
  }

  lemma {:induction false} NormalStays(children: seq<Node>, indenting: bool, indent: nat)
    requires NormalChildren(children) && (indenting ==> TidyChildren(children))
    ensures RereadAll(children, indenting, indent, LineBreak(indenting)) == Some(children)
    decreases children, 1
  {
    var brk := LineBreak(indenting);
    if children == [] {
      IndentationIsWhite(indenting, indent);
      WhiteJoin(brk, Lead(indenting, indent));
    } else {
      IndentationIsWhite(indenting, indent + 1);
      WhiteJoin(brk, Lead(indenting, indent + 1));
      NormalTail(children);
      if children[0].Data? {
        TextStays(children, indent);
      } else {
        TidyRest(children, indenting);
        RereadSame(children[0], indenting, indent + 1);
        NormalStays(children[1..], indenting, indent);
        hide Reread, Normal, NormalChildren, TidyChildren, Tidy;
        assert [] + [children[0]] + children[1..] == children;
      }
    }
  }

  lemma TidyRest(children: seq<Node>, indenting: bool)
    requires children != [] && (indenting ==> TidyChildren(children))
    ensures indenting ==> TidyChildren(children[1..]) && !children[0].Data? && Tidy(children[0])
  {
    if indenting {
      TidyTail(children);
    }
  }

  /** Without indentation a text is kept, and then comes a node that is none. */
  lemma {:induction false} TextStays(children: seq<Node>, indent: nat)
    requires children != [] && children[0].Data? && NormalChildren(children)
    ensures RereadAll(children, false, indent, []) == Some(children)
    decreases children, 0
  {
    var text, rest := children[0].text, children[1..];
    NormalTail(children);
    assert [] + Lead(false, indent + 1) + text + LineBreak(false) == text;
    assert RereadAll(children, false, indent, []) == RereadAll(rest, false, indent, text);
    assert text + Lead(false, indent) == text && text + Lead(false, indent + 1) == text;
    if rest == [] {
      assert children == [Data(text)];
    } else {
      NormalTail(rest);
      RereadSame(rest[0], false, indent + 1);
      NormalStays(rest[1..], false, indent);
      hide Reread, Normal, NormalChildren;
      assert [Data(text)] + [rest[0]] + rest[1..] == children;
    }
  }

  /** What is read back as it is, is in normal form, and tidy if there is indentation. */
  lemma {:induction false} StaysNormal(children: seq<Node>, indenting: bool, indent: nat)
    requires RereadAll(children, indenting, indent, LineBreak(indenting)) == Some(children)
    ensures NormalChildren(children) && (indenting ==> TidyChildren(children))
    decreases children, 1
  {
    RereadAllIsNormal(children, indenting, indent, LineBreak(indenting));
    if indenting && children != [] {
      if children[0].Data? {
        TextGrows(children, indent);
      } else {
        IndentationIsWhite(true, indent + 1);
        WhiteJoin("\n", Lead(true, indent + 1));
        NormalTail(children);
        var n, rest := Reread(children[0], true, indent + 1), RereadAll(children[1..], true, indent, "\n");
        OneInFront(children, n.value, rest.value);
        RereadSame(children[0], true, indent + 1);
        StaysNormal(children[1..], true, indent);
      }
    }
  }

  lemma OneInFront(children: seq<Node>, n: Node, rest: seq<Node>)
    requires [] + [n] + rest == children
    ensures children != [] && n == children[0] && rest == children[1..]
  {
  }

  /** Text between indented tags comes back longer. */
  lemma TextGrows(children: seq<Node>, indent: nat)
    requires children != [] && children[0].Data? && NormalChildren(children)
    ensures RereadAll(children, true, indent, "\n") != Some(children)
  {
    var text := children[0].text;
    var pending := "\n" + Lead(true, indent + 1) + text + "\n";
    WhiteJoin("\n" + Lead(true, indent + 1), text);
    WhiteJoin("\n" + Lead(true, indent + 1) + text, "\n");
    PendingLeads(children[1..], true, indent, pending);
  }

  /** Text that is not all white space leads what is read next. */
  lemma {:induction false} PendingLeads(children: seq<Node>, indenting: bool, indent: nat, pending: string)
    requires !White(pending)
    ensures var r := RereadAll(children, indenting, indent, pending);
            r.Some? ==> r.value != [] && r.value[0].Data? && |r.value[0].text| >= |pending|
    decreases children
  {
    WhiteJoin(pending, Lead(indenting, indent));
    WhiteJoin(pending, Lead(indenting, indent + 1));
    if children != [] && children[0].Data? {
      var text := pending + Lead(indenting, indent + 1);
      WhiteJoin(text, children[0].text);
      WhiteJoin(text + children[0].text, LineBreak(indenting));
      PendingLeads(children[1..], indenting, indent, text + children[0].text + LineBreak(indenting));
    }
  }

  /** A document is read back as it is if and only if it is in normal form. */
  lemma {:induction false} DocumentSame(children: seq<Node>, indenting: bool)
    requires NoData(children)
    ensures RereadDocument(children, indenting) == Some(children) <==> NormalDocument(children, indenting)
  {
    if children != [] {
      RereadSame(children[0], indenting, 0);
      DocumentSame(children[1..], indenting);
      DocumentParts(children, indenting);
      hide Reread, Normal, NormalDocument, Tidy;
      match (Reread(children[0], indenting, 0), RereadDocument(children[1..], indenting))
      case (Some(n), Some(rest)) => SameParts(children, n, rest);
      case _ =>
    }
  }

  lemma SameParts<T>(s: seq<T>, x: T, rest: seq<T>)
    requires s != []
    ensures [x] + rest == s <==> x == s[0] && rest == s[1..]
  {
    assert [s[0]] + s[1..] == s;
  }

  lemma DocumentParts(children: seq<Node>, indenting: bool)
    requires children != [] && NoData(children)
    ensures NormalDocument(children, indenting)
            <==> Normal(children[0]) && (indenting ==> Tidy(children[0])) && NormalDocument(children[1..], indenting)
  {
    var rest := children[1..];
    assert forall k :: 0 <= k < |rest| ==> rest[k] == children[k + 1];
    assert forall k :: 0 < k < |children| ==> children[k] == rest[k - 1];
    hide Normal, Tidy;
  }
}

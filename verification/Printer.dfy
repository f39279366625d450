/** The printer: what it writes for a tree, and the loops that write it. */
module Printer {
  import opened References
  import opened Parser

  // ---- The printed text ----

  function Tabs(n: nat): string {
    if n == 0 then [] else ['\t'] + Tabs(n - 1)
  }

  function Lead(indenting: bool, indent: nat): string {
    if indenting then Tabs(indent) else []
  }

  function LineBreak(indenting: bool): string {
    if indenting then "\n" else []
  }

  /** The quote around an attribute value: apostrophes when the value contains a double quote. */
  function Quote(value: string): char {
    if '"' in value then '\'' else '"'
  }

  /** The quote that needs no escaping inside the one chosen. */
  function OtherQuote(value: string): char {
    if '"' in value then '"' else '\''
  }

  /** The value contains its quote only if it contains both, and then just its own quote needs escaping. */
  lemma QuoteFits(value: string)
    ensures {Quote(value), OtherQuote(value)} == {'"', '\''} && Quote(value) != OtherQuote(value)
    ensures Quote(value) in value ==> '"' in value && '\'' in value
  {
  }

  function PrintedAttribute(a: Attribute): string {
    [' '] + a.name + ['='] + [Quote(a.value)] + Escape(a.value, OtherQuote(a.value)) + [Quote(a.value)]
  }

  function PrintedAttributes(attributes: seq<Attribute>): string {
    if attributes == [] then [] else PrintedAttribute(attributes[0]) + PrintedAttributes(attributes[1..])
  }

  predicate SoleData(children: seq<Node>) {
    |children| == 1 && children[0].Data?
  }

  /** What stands between the opening and the closing tag. */
  function PrintedInside(value: string, children: seq<Node>, indenting: bool, indent: nat): string
    decreases children, 1
  {
    if children == [] then Escape(value, '\0')
    else if SoleData(children) then Escape(children[0].text, '\0')
    else LineBreak(indenting) + (PrintedChildren(children, indenting, indent + 1) + Lead(indenting, indent))
  }

  function ClosingTag(name: string): string {
    "</" + name + ">"
  }

  /** A node without its indentation and line break. */
  function PrintedBody(n: Node, indenting: bool, indent: nat): string
    decreases n, 0
  {
    match n
    case Data(text) => Escape(text, '\0')
    case CData(text) => "<![CDATA[" + text + "]]>"
    case Element(name, value, attributes, children) =>
      "<" + name + PrintedAttributes(attributes) +
      (if value == [] && children == [] then "/>"
       else ">" + (PrintedInside(value, children, indenting, indent) + ClosingTag(name)))
  }

  function PrintedNode(n: Node, indenting: bool, indent: nat): string
    decreases n, 1
  {
    Lead(indenting, indent) + PrintedBody(n, indenting, indent) + LineBreak(indenting)
  }

  function PrintedChildren(children: seq<Node>, indenting: bool, indent: nat): string
    decreases children, 0
  {
    if children == [] then []
    else PrintedNode(children[0], indenting, indent) + PrintedChildren(children[1..], indenting, indent)
  }

  function PrintedDocument(children: seq<Node>, indenting: bool): string {
    PrintedChildren(children, indenting, 0) + LineBreak(indenting)
  }

  // ---- The loops ----

  method CopyChars(s: string, out: string) returns (r: string)
    ensures r == out + s
  {
    r := out;
    var k := 0;
    while k != |s|
      invariant 0 <= k <= |s|
      invariant r == out + s[..k]
    {
      r := r + [s[k]];
      k := k + 1;
    }
    assert s[..|s|] == s;
  }

  method CopyAndExpandChars(s: string, noexpand: char, out: string) returns (r: string)
    ensures r == out + Escape(s, noexpand)
  {
    r := out;
    var k := 0;
    while k != |s|
      invariant 0 <= k <= |s|
      invariant r + Escape(s[k..], noexpand) == out + Escape(s, noexpand)
    {
      var c := s[k];
      var piece := [c];
      if c != noexpand {
        match c {
          case '<' => piece := "&lt;";
          case '>' => piece := "&gt;";
          case '\'' => piece := "&apos;";
          case '"' => piece := "&quot;";
          case '&' => piece := "&amp;";
          case _ =>
        }
      }
      EscapeFrom(s, k, noexpand, r, piece);
      r := r + piece;
      k := k + 1;
    }
    assert s[|s|..] == [];
  }

  lemma EscapeFrom(s: string, k: nat, keep: char, out: string, piece: string)
    requires k < |s| && piece == EscapeChar(s[k], keep)
    ensures out + piece + Escape(s[k + 1..], keep) == out + Escape(s[k..], keep)
  {
    assert s[k..][1..] == s[k + 1..];
    ConcatAssoc(out, piece, Escape(s[k + 1..], keep));
  }

  method FillChars(out: string, n: nat) returns (r: string)
    ensures r == out + Tabs(n)
  {
    r := out;
    var i := 0;
    while i < n
      invariant 0 <= i <= n
      invariant r + Tabs(n - i) == out + Tabs(n)
    {
      assert r + (['\t'] + Tabs(n - i - 1)) == r + ['\t'] + Tabs(n - i - 1);
      r := r + ['\t'];
      i := i + 1;
    }
  }

  method FindChar(s: string, ch: char) returns (found: bool)
    ensures found <==> ch in s
  {
    var k := 0;
    while k != |s|
      invariant 0 <= k <= |s|
      invariant ch !in s[..k]
    {
      if s[k] == ch {
        return true;
      }
      k := k + 1;
    }
    return false;
  }

  method PrintAttributes(attributes: seq<Attribute>, out: string) returns (r: string)
    ensures r == out + PrintedAttributes(attributes)
  {
    r := out;
    var k := 0;
    while k != |attributes|
      invariant 0 <= k <= |attributes|
      invariant r + PrintedAttributes(attributes[k..]) == out + PrintedAttributes(attributes)
    {
      AttributesFrom(attributes, k, r);
      r := PrintAttribute(attributes[k], r);
      k := k + 1;
    }
    assert attributes[|attributes|..] == [];
  }

  lemma AttributesFrom(attributes: seq<Attribute>, k: nat, out: string)
    requires k < |attributes|
    ensures out + PrintedAttribute(attributes[k]) + PrintedAttributes(attributes[k + 1..])
         == out + PrintedAttributes(attributes[k..])
  {
    assert attributes[k..][1..] == attributes[k + 1..];
    ConcatAssoc(out, PrintedAttribute(attributes[k]), PrintedAttributes(attributes[k + 1..]));
  }

  /** The body of the attribute loop. */
  method PrintAttribute(a: Attribute, out: string) returns (r: string)
    ensures r == out + PrintedAttribute(a)
  {
    r := out + [' '];
    r := CopyChars(a.name, r);
    r := r + ['='];
    var found := FindChar(a.value, '"');
    if found {
      r := r + ['\''];
      r := CopyAndExpandChars(a.value, '"', r);
      r := r + ['\''];
    } else {
      r := r + ['"'];
      r := CopyAndExpandChars(a.value, '\'', r);
      r := r + ['"'];
    }
    AttributePieces(a, out);
  }

  lemma AttributePieces(a: Attribute, out: string)
    ensures out + [' '] + a.name + ['='] + [Quote(a.value)] + Escape(a.value, OtherQuote(a.value)) + [Quote(a.value)]
         == out + PrintedAttribute(a)
  {
  }

  method PrintDataNode(text: string, out: string, indenting: bool, indent: nat) returns (r: string)
    ensures r == out + Lead(indenting, indent) + Escape(text, '\0')
  {
    r := out;
    if indenting {
      r := FillChars(r, indent);
    }
    r := CopyAndExpandChars(text, '\0', r);
  }

  method PrintCDataNode(text: string, out: string, indenting: bool, indent: nat) returns (r: string)
    ensures r == out + Lead(indenting, indent) + ("<![CDATA[" + text + "]]>")
  {
    r := out;
    if indenting {
      r := FillChars(r, indent);
    }
    ghost var led := r;
    r := r + "<![CDATA[";
    r := CopyChars(text, r);
    r := r + "]]>";
    ConcatAssoc(led, "<![CDATA[", text);
    ConcatAssoc(led, "<![CDATA[" + text, "]]>");
  }

  method PrintElementNode(n: Node, out: string, indenting: bool, indent: nat) returns (r: string)
    requires n.Element?
    ensures r == out + Lead(indenting, indent) + PrintedBody(n, indenting, indent)
    decreases n, 2
  {
    hide PrintedBody, PrintedAttributes, Escape, OpenPart, Tabs;
    r := out;
    if indenting {
      r := FillChars(r, indent);
    }
    ghost var led := r;
    r := r + ['<'];
    r := CopyChars(n.name, r);
    r := PrintAttributes(n.attributes, r);
    OpenPieces(n, led);
    if |n.value| == 0 && |n.children| == 0 {
      r := r + "/>";
      EmptyPieces(n, led, indenting, indent);
    } else {
      r := r + ['>'];
      ghost var start := r;
      if |n.children| == 0 {
        r := CopyAndExpandChars(n.value, '\0', r);
      } else if |n.children| == 1 && n.children[0].Data? {
        r := CopyAndExpandChars(n.children[0].text, '\0', r);
      } else {
        r := PrintNested(n, r, indenting, indent);
      }
      r := r + "</";
      r := CopyChars(n.name, r);
      r := r + ['>'];
      ClosePieces(n, led, start, indenting, indent);
    }
  }

  /** `<`, the name and the attributes. */
  function OpenPart(n: Node): string
    requires n.Element?
  {
    "<" + n.name + PrintedAttributes(n.attributes)
  }

  lemma OpenPieces(n: Node, led: string)
    requires n.Element?
    ensures led + ['<'] + n.name + PrintedAttributes(n.attributes) == led + OpenPart(n)
  {
    ConcatAssoc(led, "<", n.name);
    ConcatAssoc(led, "<" + n.name, PrintedAttributes(n.attributes));
  }

  lemma EmptyPieces(n: Node, led: string, indenting: bool, indent: nat)
    requires n.Element? && n.value == [] && n.children == []
    ensures led + OpenPart(n) + "/>" == led + PrintedBody(n, indenting, indent)
  {
    ConcatAssoc(led, OpenPart(n), "/>");
  }

  lemma ClosePieces(n: Node, led: string, start: string, indenting: bool, indent: nat)
    requires n.Element? && !(n.value == [] && n.children == []) && start == led + OpenPart(n) + ['>']
    ensures start + PrintedInside(n.value, n.children, indenting, indent) + "</" + n.name + ['>']
         == led + PrintedBody(n, indenting, indent)
  {
    hide PrintedInside;
    var inside := PrintedInside(n.value, n.children, indenting, indent);
    ConcatAssoc(led, OpenPart(n), ">");
    ConcatAssoc(led, OpenPart(n), ">" + (inside + ClosingTag(n.name)));
    assert start + inside + "</" + n.name + ['>'] == start + (inside + ClosingTag(n.name));
    ConcatAssoc(led + OpenPart(n), ">", inside + ClosingTag(n.name));
  }

  /** The children on lines of their own. */
  method PrintNested(n: Node, out: string, indenting: bool, indent: nat) returns (r: string)
    requires n.Element? && n.children != [] && !SoleData(n.children)
    ensures r == out + PrintedInside(n.value, n.children, indenting, indent)
    decreases n, 1
  {
    r := out;
    if indenting {
      r := r + ['\n'];
    }
    r := PrintChildren(n.children, r, indenting, indent + 1);
    if indenting {
      r := FillChars(r, indent);
    }
    NestedPieces(n, out, indenting, indent);
  }

  lemma NestedPieces(n: Node, out: string, indenting: bool, indent: nat)
    requires n.Element? && n.children != [] && !SoleData(n.children)
    ensures out + LineBreak(indenting) + PrintedChildren(n.children, indenting, indent + 1) + Lead(indenting, indent)
         == out + PrintedInside(n.value, n.children, indenting, indent)
  {
    hide PrintedChildren;
    var middle := PrintedChildren(n.children, indenting, indent + 1);
    ConcatAssoc(out + LineBreak(indenting), middle, Lead(indenting, indent));
    ConcatAssoc(out, LineBreak(indenting), middle + Lead(indenting, indent));
  }

  method PrintNode(n: Node, out: string, indenting: bool, indent: nat) returns (r: string)
    ensures r == out + PrintedNode(n, indenting, indent)
    decreases n, 3
  {
    match n {
      case Element(_, _, _, _) => r := PrintElementNode(n, out, indenting, indent);
      case Data(text) => r := PrintDataNode(text, out, indenting, indent);
      case CData(text) => r := PrintCDataNode(text, out, indenting, indent);
    }
    ghost var body := PrintedBody(n, indenting, indent);
    ConcatAssoc(out, Lead(indenting, indent), body);
    ConcatAssoc(out, Lead(indenting, indent) + body, LineBreak(indenting));
    if indenting {
      r := r + ['\n'];
    } else {
      assert r == r + LineBreak(indenting);
    }
  }

  method PrintChildren(children: seq<Node>, out: string, indenting: bool, indent: nat) returns (r: string)
    ensures r == out + PrintedChildren(children, indenting, indent)
    decreases children, 0
  {
    r := out;
    var k := 0;
    while k != |children|
      invariant 0 <= k <= |children|
      invariant r + PrintedChildren(children[k..], indenting, indent) == out + PrintedChildren(children, indenting, indent)
    {
      ChildrenFrom(children, k, r, indenting, indent);
      r := PrintNode(children[k], r, indenting, indent);
      k := k + 1;
    }
    assert children[|children|..] == [];
  }

  lemma ChildrenFrom(children: seq<Node>, k: nat, out: string, indenting: bool, indent: nat)
    requires k < |children|
    ensures out + PrintedNode(children[k], indenting, indent) + PrintedChildren(children[k + 1..], indenting, indent)
         == out + PrintedChildren(children[k..], indenting, indent)
  {
    assert children[k..][1..] == children[k + 1..];
    hide PrintedNode;
    ConcatAssoc(out, PrintedNode(children[k], indenting, indent), PrintedChildren(children[k + 1..], indenting, indent));
  }

  /** Prints a whole document, the entry point of the printer. */
  method Print(children: seq<Node>, indenting: bool) returns (r: string)
    ensures r == PrintedDocument(children, indenting)
  {
    r := PrintChildren(children, [], indenting, 0);
    assert [] + PrintedChildren(children, indenting, 0) == PrintedChildren(children, indenting, 0);
    if indenting {
      r := r + ['\n'];
    } else {
      assert r == r + LineBreak(indenting);
    }
  }
}

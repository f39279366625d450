/** How a printed document is laid out: the same lines, with or without their tabs and line breaks. */
module Lines {
  import opened References
  import opened Parser
  import opened Printer

  /** A line of the indented document, and how deep it stands. */
  datatype Line = Line(depth: nat, text: string)

  /** An element with children other than one text opens and closes on lines of its own. */
  predicate OnLines(n: Node) {
    n.Element? && n.children != [] && !SoleData(n.children)
  }

  function LinesOf(n: Node, depth: nat): seq<Line>
    decreases n, 1
  {
    if OnLines(n) then
      [Line(depth, OpenPart(n) + ">")] + LinesOfAll(n.children, depth + 1) + [Line(depth, "</" + n.name + ">")]
    else [Line(depth, Inline(n))]
  }

  function LinesOfAll(children: seq<Node>, depth: nat): seq<Line>
    decreases children, 0
  {
    if children == [] then [] else LinesOf(children[0], depth) + LinesOfAll(children[1..], depth)
  }

  /** What is written on one line: text, a section, an empty element, or one with text only. */
  function Inline(n: Node): string
    requires !OnLines(n)
  {
    match n
    case Data(text) => Escape(text, '\0')
    case CData(text) => "<![CDATA[" + text + "]]>"
    case Element(name, value, _, children) =>
      if value == [] && children == [] then OpenPart(n) + "/>"
      else OpenPart(n) + (">" + (Escape(if children == [] then value else children[0].text, '\0') + ("</" + name + ">")))
  }

  /** A line with as many tabs as it stands deep and a line break, or without either. */
  function Laid(l: Line, indenting: bool): string {
    if indenting then seq(l.depth, _ => '\t') + l.text + "\n" else l.text
  }

  function LaidAll(lines: seq<Line>, indenting: bool): string {
    if lines == [] then [] else Laid(lines[0], indenting) + LaidAll(lines[1..], indenting)
  }

  lemma {:induction false} TabsAre(n: nat)
    ensures Tabs(n) == seq(n, _ => '\t')
  {
    if n > 0 {
      TabsAre(n - 1);
    }
  }

  lemma {:induction false} LaidConcat(a: seq<Line>, b: seq<Line>, indenting: bool)
    ensures LaidAll(a + b, indenting) == LaidAll(a, indenting) + LaidAll(b, indenting)
    decreases a
  {
    if a == [] {
      assert a + b == b;
    } else {
      assert (a + b)[1..] == a[1..] + b;
      LaidConcat(a[1..], b, indenting);
      hide Laid;
      ConcatAssoc(Laid(a[0], indenting), LaidAll(a[1..], indenting), LaidAll(b, indenting));
    }
  }

  lemma OneLaid(l: Line, indenting: bool)
    ensures LaidAll([l], indenting) == Lead(indenting, l.depth) + l.text + LineBreak(indenting)
  {
    TabsAre(l.depth);
    assert [l][1..] == [];
  }

  lemma InlineIsBody(n: Node, indenting: bool, indent: nat)
    requires !OnLines(n)
    ensures PrintedBody(n, indenting, indent) == Inline(n)
  {
  }

  lemma {:induction false} NodeIsLaid(n: Node, indenting: bool, indent: nat)
    ensures PrintedNode(n, indenting, indent) == LaidAll(LinesOf(n, indent), indenting)
    decreases n, 1
  {
    if OnLines(n) {
      NestedIsLaid(n, indenting, indent);
    } else {
      InlineIsBody(n, indenting, indent);
      OneLaid(Line(indent, Inline(n)), indenting);
    }
  }

  lemma {:induction false} NestedIsLaid(n: Node, indenting: bool, indent: nat)
    requires OnLines(n)
    ensures PrintedNode(n, indenting, indent) == LaidAll(LinesOf(n, indent), indenting)
    decreases n, 0
  {
    var first, last := Line(indent, OpenPart(n) + ">"), Line(indent, "</" + n.name + ">");
    var inner := LinesOfAll(n.children, indent + 1);
    ChildrenAreLaid(n.children, indenting, indent + 1);
    assert LinesOf(n, indent) == [first] + inner + [last];
    assert PrintedBody(n, indenting, indent)
        == OpenPart(n) + (">" + (LineBreak(indenting) + (PrintedChildren(n.children, indenting, indent + 1) + Lead(indenting, indent))
                                 + ClosingTag(n.name)));
    hide LinesOf, LinesOfAll, PrintedBody, PrintedChildren, OpenPart, Laid, LaidAll, Lead, LineBreak;
    LaidConcat([first] + inner, [last], indenting);
    LaidConcat([first], inner, indenting);
    OneLaid(first, indenting);
    OneLaid(last, indenting);
    NestedPiecesAre(Lead(indenting, indent), OpenPart(n), LineBreak(indenting), LaidAll(inner, indenting), "</" + n.name + ">");
  }

  lemma NestedPiecesAre(lead: string, open: string, brk: string, inner: string, close: string)
    ensures lead + (open + (">" + (brk + (inner + lead) + close))) + brk
         == (lead + (open + ">") + brk) + inner + (lead + close + brk)
  {
  }

  lemma {:induction false} ChildrenAreLaid(children: seq<Node>, indenting: bool, indent: nat)
    ensures PrintedChildren(children, indenting, indent) == LaidAll(LinesOfAll(children, indent), indenting)
    decreases children, 2
  {
    if children != [] {
      NodeIsLaid(children[0], indenting, indent);
      ChildrenAreLaid(children[1..], indenting, indent);
      LaidConcat(LinesOf(children[0], indent), LinesOfAll(children[1..], indent), indenting);
      hide PrintedNode, LinesOf, Laid;
    }
  }

  /**
   * The printer writes the lines of the document, and a line break behind them: indented, each line stands
   * behind one tab for every element around it; otherwise the same lines follow one another.
   */
  lemma DocumentIsLaid(children: seq<Node>, indenting: bool)
    ensures PrintedDocument(children, indenting)
         == LaidAll(LinesOfAll(children, 0), indenting) + (if indenting then "\n" else "")
  {
    ChildrenAreLaid(children, indenting, 0);
  }
}

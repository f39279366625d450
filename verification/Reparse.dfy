/** Which parsed documents are in normal form, so that printing and parsing them again changes nothing. */
module Reparse {
  import opened Text
  import opened CharRefs
  import opened Parser
  import opened Printer
  import opened NormalForm
  import opened RoundTrip
  import opened Translation

  // ---- What every default parse yields ----

  ghost predicate Parsed(n: Node)
    decreases n, 0
  {
    match n
    case Data(_) => true
    case CData(text) => NulFree(text) && forall k :: 0 <= k <= |text| ==> !Has(text, k, "]]>")
    case Element(name, value, attributes, children) =>
      && name != [] && All(name, NodeName) && name[0] != '!'
      && AllNamed(attributes) && ParsedList(children) && value == ValueOf(children)
  }

  ghost predicate ParsedList(children: seq<Node>)
    decreases children, 1
  {
    forall k :: 0 <= k < |children| ==> Parsed(children[k])
  }

  lemma ParsedAppend(done: seq<Node>, n: Node)
    requires ParsedList(done) && Parsed(n)
    ensures ParsedList(done + [n])
  {
  }

  lemma {:induction false} AttributesNamed(t: string, i: nat, fl: Flags, done: seq<Attribute>)
    requires i <= |t| && AllNamed(done)
    ensures var r := ParseAttributes(t, i, fl, done); r.ParsedAttributes? ==> AllNamed(r.attributes)
    decreases |t| - i
  {
    if AttributeName.Test(At(t, i)) {
      match ParseAttribute(t, i, fl)
      case BadAttribute(_) =>
      case ParsedAttribute(a, next) =>
        AttributeNamed(t, i, fl);
        AttributesNamed(t, next, fl, done + [a]);
    }
  }

  lemma AttributeNamed(t: string, i: nat, fl: Flags)
    requires i < |t| && AttributeName.Test(t[i]) && ParseAttribute(t, i, fl).ParsedAttribute?
    ensures Named(ParseAttribute(t, i, fl).attribute)
  {
    var nameEnd := Skip(t, i + 1, AttributeName);
    assert forall k :: 0 <= k < nameEnd - i ==> t[i..nameEnd][k] == t[i + k];
  }

  lemma HasInside(t: string, i: nat, j: nat, k: nat, mark: string)
    requires i <= j <= |t| && Has(t[i..j], k, mark)
    ensures Has(t, i + k, mark) && i + k + |mark| <= j
  {
    var inner, outer := t[i..j][k..k + |mark|], t[i + k..i + k + |mark|];
    assert forall x :: 0 <= x < |mark| ==> inner[x] == t[i..j][k + x] == t[i + k + x] == outer[x];
    assert inner == outer;
  }

  lemma CDataParsed(t: string, i: nat)
    requires i <= |t|
    ensures var r := ParseCData(t, i); r.ParsedNode? ==> r.node.Some? && Parsed(r.node.value)
  {
    var r := FindMark(t, i, "]]>");
    if r.Ok? {
      var text := t[i..r.value];
      forall k | 0 <= k <= |text| ensures !Has(text, k, "]]>") {
        if Has(text, k, "]]>") {
          HasInside(t, i, r.value, k, "]]>");
        }
      }
    }
  }

  lemma {:induction false} NodeParsed(t: string, i: nat, fl: Flags)
    requires i <= |t|
    ensures var r := ParseNode(t, i, fl); r.ParsedNode? && r.node.Some? ==> Parsed(r.node.value) && !r.node.value.Data?
    decreases |t| - i, 1
  {
    NotData(t, i, fl);
    if At(t, i) == '!' {
      if Has(t, i + 1, "[CDATA[") {
        CDataParsed(t, i + 8);
      }
    } else if At(t, i) != '?' {
      ElementParsed(t, i, fl);
    }
  }

  lemma {:induction false} ElementParsed(t: string, i: nat, fl: Flags)
    requires i <= |t| && At(t, i) != '!'
    ensures var r := ParseElement(t, i, fl); r.ParsedNode? && r.node.Some? ==> Parsed(r.node.value)
    decreases |t| - i, 0
  {
    hide ParseOpening, ParseContents, ParsedList, ValueOf, AllNamed, All;
    ParsedNothing();
    var opening := ParseOpening(t, i, fl);
    if opening.Opening? {
      OpeningNamed(t, i, fl);
      if At(t, opening.next) == '>' {
        ContentsParsed(t, opening.next + 1, fl, t[i..opening.nameEnd], [], []);
      }
    }
  }

  lemma ParsedNothing()
    ensures ParsedList([]) && ValueOf([]) == []
  {
  }

  lemma OpeningNamed(t: string, i: nat, fl: Flags)
    requires i <= |t| && At(t, i) != '!' && ParseOpening(t, i, fl).Opening?
    ensures var r := ParseOpening(t, i, fl);
            t[i..r.nameEnd] != [] && All(t[i..r.nameEnd], NodeName) && t[i] != '!' && AllNamed(r.attributes)
  {
    var nameEnd := Skip(t, i, NodeName);
    assert forall k :: 0 <= k < nameEnd - i ==> t[i..nameEnd][k] == t[i + k];
    AttributesNamed(t, Skip(t, nameEnd, Whitespace), fl, []);
    hide AllNamed, ParseAttributes;
  }

  ghost predicate ContentsAre(r: ContentsResult) {
    r.ParsedContents? ==> ParsedList(r.children) && r.value == ValueOf(r.children)
  }

  lemma {:induction false} ContentsParsed(t: string, i: nat, fl: Flags, name: string, value: string, done: seq<Node>)
    requires i <= |t| && ParsedList(done) && value == ValueOf(done)
    ensures ContentsAre(ParseContents(t, i, fl, name, value, done))
    decreases |t| - i, 1
  {
    hide Parsed, ParsedList, ValueOf, ParseNode;
    var j := Skip(t, i, Whitespace);
    if At(t, j) == '<' {
      MarkupParsed(t, j, fl, name, value, done);
    } else if At(t, j) != '\0' {
      match ScanValue(t, i, CharData, fl)
      case BadRef(_) =>
      case Expanded(text, k) =>
        DataParsed(text);
        ParsedAppend(done, Data(text));
        AppendChild(done, Data(text));
        if At(t, k) == '<' {
          MarkupParsed(t, k, fl, name, Adopt(value, text), done + [Data(text)]);
        }
    }
  }

  lemma DataParsed(text: string)
    ensures Parsed(Data(text))
  {
  }

  lemma {:induction false} MarkupParsed(t: string, i: nat, fl: Flags, name: string, value: string, done: seq<Node>)
    requires i < |t| && ParsedList(done) && value == ValueOf(done)
    ensures ContentsAre(ParseMarkup(t, i, fl, name, value, done))
    decreases |t| - i, 0
  {
    hide Parsed, ParsedList, ValueOf, ParseNode;
    if At(t, i + 1) != '/' {
      NodeParsed(t, i + 1, fl);
      match ParseNode(t, i + 1, fl)
      case BadNode(_) =>
      case ParsedNode(None, next) => ContentsParsed(t, next, fl, name, value, done);
      case ParsedNode(Some(n), next) =>
        ParsedAppend(done, n);
        AppendChild(done, n);
        ContentsParsed(t, next, fl, name, value, done + [n]);
    }
  }

  lemma {:induction false} TopLevelParsed(t: string, i: nat, fl: Flags, done: seq<Node>)
    requires i <= |t| && ParsedList(done) && NoData(done)
    ensures var r := ParseTopLevel(t, i, fl, done); r.ParsedDocument? ==> ParsedList(r.children) && NoData(r.children)
    decreases |t| - i
  {
    hide Parsed, ParsedList, ParseNode;
    var j := Skip(t, i, Whitespace);
    if At(t, j) == '<' {
      NodeParsed(t, j + 1, fl);
      match ParseNode(t, j + 1, fl)
      case BadNode(_) =>
      case ParsedNode(None, next) => TopLevelParsed(t, next, fl, done);
      case ParsedNode(Some(n), next) =>
        ParsedAppend(done, n);
        TopLevelParsed(t, next, fl, done + [n]);
    }
  }

  // ---- What may be missing ----

  /** No NUL in a text or value, no text of nothing but white space, no text right behind another. */
  predicate Plain(n: Node)
    decreases n, 0
  {
    match n
    case Data(text) => NormalText(text)
    case CData(_) => true
    case Element(_, _, attributes, children) =>
      (forall k :: 0 <= k < |attributes| ==> NulFree(attributes[k].value)) && PlainList(children)
  }

  predicate PlainList(children: seq<Node>)
    decreases children, 1
  {
    && (forall k :: 0 <= k < |children| ==> Plain(children[k]))
    && (forall k :: 0 < k < |children| ==> !(children[k - 1].Data? && children[k].Data?))
  }

  lemma {:induction false} NormalIfPlain(n: Node)
    requires Parsed(n)
    ensures Normal(n) <==> Plain(n)
    decreases n, 0
  {
    if n.Element? {
      NormalListIfPlain(n.children);
      assert NulFreeValues(n.attributes) <==> forall k :: 0 <= k < |n.attributes| ==> NulFree(n.attributes[k].value);
      if PlainList(n.children) {
        FirstTextCounts(n.children);
      }
    }
  }

  lemma {:induction false} NormalListIfPlain(children: seq<Node>)
    requires ParsedList(children)
    ensures NormalChildren(children) <==> PlainList(children)
    decreases children, 1
  {
    forall k | 0 <= k < |children| ensures Normal(children[k]) <==> Plain(children[k]) {
      NormalIfPlain(children[k]);
    }
  }

  /** Among texts that do not read as empty it is the first that the element adopts. */
  lemma {:induction false} FirstTextCounts(children: seq<Node>)
    requires forall k :: 0 <= k < |children| && children[k].Data? ==> !Unset(children[k].text)
    ensures ValueOf(children) == ElementValue(children)
    ensures ValueOf(children) == [] || !Unset(ValueOf(children))
    decreases |children|
  {
    if children != [] {
      var k := |children| - 1;
      FirstTextCounts(children[..k]);
      ElementValueAppend(children[..k], children[k]);
      assert children[..k] + [children[k]] == children;
    }
  }

  lemma {:induction false} ElementValueAppend(children: seq<Node>, n: Node)
    requires forall k :: 0 <= k < |children| && children[k].Data? ==> !Unset(children[k].text)
    ensures ElementValue(children + [n])
         == if ElementValue(children) != [] then ElementValue(children) else if n.Data? then n.text else []
    decreases |children|
  {
    if children != [] {
      assert (children + [n])[1..] == children[1..] + [n];
      ElementValueAppend(children[1..], n);
    }
  }

  lemma {:induction false} ParsedIsWritable(n: Node)
    requires Parsed(n)
    ensures Writable(n)
    decreases n
  {
    if n.Element? {
      forall k | 0 <= k < |n.children| ensures Writable(n.children[k]) {
        ParsedIsWritable(n.children[k]);
      }
    }
  }

  /** What every default parse yields can be written down. */
  lemma ParsedDocumentIsWritable(t: string, fl: Flags)
    requires ParseDocument(t, fl).ParsedDocument?
    ensures var children := ParseDocument(t, fl).children; ParsedList(children) && WritableList(children) && NoData(children)
  {
    TopLevelParsed(t, SkipBom(t), fl, []);
    var children := ParseDocument(t, fl).children;
    forall k | 0 <= k < |children| ensures Writable(children[k]) {
      ParsedIsWritable(children[k]);
    }
  }

  /**
   * A document that the parser accepts is in normal form if and only if no text and no attribute value holds
   * a NUL, no text is all white space, and no two texts stand side by side.
   */
  lemma ParsedIsNormal(t: string, fl: Flags)
    requires ParseDocument(t, fl).ParsedDocument?
    ensures NormalDocument(ParseDocument(t, fl).children, false) <==> PlainList(ParseDocument(t, fl).children)
  {
    ParsedDocumentIsWritable(t, fl);
    NormalListIfPlain(ParseDocument(t, fl).children);
  }

  /**
   * Printing what a parse gave and parsing the print gives the same again if and only if the document is of
   * that kind and, where the print is indented, all its text stands alone.
   */
  lemma ReparseIsParse(t: string, fl: Flags, indenting: bool)
    requires !fl.nonDestructive && ParseDocument(t, fl).ParsedDocument?
    ensures var children := ParseDocument(t, fl).children;
            ParseDocument(PrintedDocument(children, indenting), fl) == ParseDocument(t, fl)
            <==> PlainList(children) && (indenting ==> TidyChildren(children))
  {
    ParsedDocumentIsWritable(t, fl);
    ParsedIsNormal(t, fl);
    PrintThenParse(ParseDocument(t, fl).children, fl, indenting);
    hide ParseDocument, PrintedDocument, NormalChildren, PlainList, WritableList, ParsedList, TidyChildren;
  }

  // ---- A text that does not come back ----

  const BLANK := "<a>&#32;</a>"

  const BLANK_TREE := [Element("a", " ", [], [Data(" ")])]

  /** White space written as a reference is kept the first time and lost the second time. */
  lemma BlankIsLost(v: bool)
    ensures ParseDocument(BLANK, Flags(false, v)) == ParsedDocument(BLANK_TREE)
    ensures ParseDocument(PrintedDocument(BLANK_TREE, false), Flags(false, v)) != ParsedDocument(BLANK_TREE)
  {
    BlankParses(BLANK, Flags(false, v));
    ReparseIsParse(BLANK, Flags(false, v), false);
    var text := BLANK_TREE[0].children[0];
    assert text == Data(" ") && !Plain(text) && !Plain(BLANK_TREE[0]);
    hide ParseDocument, PrintedDocument;
  }

  /** `BLANK`, character by character. */
  predicate Spelled(t: string) {
    && |t| == 12 && t[0] == '<' && t[1] == 'a' && t[2] == '>' && t[3] == '&' && t[4] == '#' && t[5] == '3'
    && t[6] == '2' && t[7] == ';' && t[8] == '<' && t[9] == '/' && t[10] == 'a' && t[11] == '>'
  }

  lemma BlankParses(t: string, fl: Flags)
    requires Spelled(t) && !fl.nonDestructive
    ensures ParseDocument(t, fl) == ParsedDocument(BLANK_TREE)
  {
    BlankContents(t, fl);
    BlankElement(t, fl);
    hide ParseNode, ParseContents;
    SkipRun(t, 0, 0, Whitespace);
    SkipRun(t, 12, 12, Whitespace);
    assert [] + BLANK_TREE == BLANK_TREE;
    assert ParseTopLevel(t, 12, fl, BLANK_TREE) == ParsedDocument(BLANK_TREE);
    assert ParseTopLevel(t, 0, fl, []) == ParseTopLevel(t, 12, fl, BLANK_TREE);
  }

  lemma BlankElement(t: string, fl: Flags)
    requires Spelled(t) && ParseContents(t, 3, fl, "a", [], []) == ParsedContents(" ", [Data(" ")], 12)
    ensures ParseNode(t, 1, fl) == ParsedNode(Some(BLANK_TREE[0]), 12)
  {
    SkipRun(t, 1, 2, NodeName);
    assert t[1..2] == "a";
    assert ParseOpening(t, 1, fl) == Opening(2, [], 2);
    hide ParseOpening, ParseContents;
    assert ParseBody(t, 2, fl, "a") == ParsedContents(" ", [Data(" ")], 12);
    assert ParseElement(t, 1, fl) == ParsedNode(Some(BLANK_TREE[0]), 12);
  }

  lemma BlankContents(t: string, fl: Flags)
    requires Spelled(t) && !fl.nonDestructive
    ensures ParseContents(t, 3, fl, "a", [], []) == ParsedContents(" ", [Data(" ")], 12)
  {
    SpaceReference(t);
    SkipRun(t, 3, 3, Whitespace);
    SkipRun(t, 10, 11, NodeName);
    assert t[10..11] == "a";
    assert ParseClosingTag(t, 10, fl, "a") == Closed(12);
    hide Expand, Skip, ParseClosingTag;
    assert ScanValue(t, 3, CharData, fl) == Expanded(" ", 8);
    assert [] + [Data(" ")] == [Data(" ")];
    assert ParseMarkup(t, 8, fl, "a", " ", [Data(" ")]) == ParsedContents(" ", [Data(" ")], 12);
  }

  lemma SpaceReference(t: string)
    requires Spelled(t)
    ensures Expand(t, 3, CharData, 3, []) == Expanded(" ", 8)
  {
    assert NamedRef(t, 3).None?;
    assert ReadNumeral(t, 7, 10, 32) == (32, 7);
    assert ReadNumeral(t, 6, 10, 3) == (32, 7);
    assert ReadNumeral(t, 5, 10, 0) == (32, 7);
    assert NumericRef(t, 3, 3) == Expanded(" ", 8);
    assert Expand(t, 8, CharData, 3, " ") == Expanded(" ", 8);
    assert [] + " " == " ";
  }
}

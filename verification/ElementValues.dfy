/**
 * An element takes its value from its data children. The raw value is the raw form of the default value
 * exactly when no reference to NUL gets in the way.
 */
module ElementValues {
  import opened Text
  import opened CharRefs
  import opened Parser
  import opened Translation

  // ---- The value as a function of the texts ----

  /** The texts of the data children, in order. */
  function DataTexts(children: seq<Node>): seq<string> {
    if children == [] then []
    else
      var k := |children| - 1;
      if children[k].Data? then DataTexts(children[..k]) + [children[k].text] else DataTexts(children[..k])
  }

  function Adopted(texts: seq<string>): string {
    if texts == [] then [] else Adopt(Adopted(texts[..|texts| - 1]), texts[|texts| - 1])
  }

  lemma {:induction false} ValueIsAdopted(children: seq<Node>)
    ensures ValueOf(children) == Adopted(DataTexts(children))
  {
    if children != [] {
      var k := |children| - 1;
      ValueIsAdopted(children[..k]);
      if children[k].Data? {
        assert DataTexts(children)[..|DataTexts(children)| - 1] == DataTexts(children[..k]);
      }
    }
  }

  /** The first text that does not read as empty is adopted, and the last one if they all do. */
  lemma {:induction false} AdoptedIs(texts: seq<string>)
    requires texts != []
    ensures Unset(Adopted(texts)) <==> forall k :: 0 <= k < |texts| ==> Unset(texts[k])
    ensures Unset(Adopted(texts)) ==> Adopted(texts) == texts[|texts| - 1]
    ensures !Unset(texts[0]) ==> Adopted(texts) == texts[0]
  {
    var k := |texts| - 1;
    if k > 0 {
      AdoptedIs(texts[..k]);
      assert forall j :: 0 <= j < k ==> texts[..k][j] == texts[j];
    } else {
      assert texts[..0] == [];
    }
  }

  /** The first text counts: it does not start with a NUL, or they all do and the last one equals it. */
  predicate FirstCounts(texts: seq<string>) {
    || texts == []
    || !Unset(texts[0])
    || ((forall k :: 0 <= k < |texts| ==> Unset(texts[k])) && texts[|texts| - 1] == texts[0])
  }

  lemma FirstIsAdopted(texts: seq<string>)
    ensures Adopted(texts) == (if texts == [] then [] else texts[0]) <==> FirstCounts(texts)
  {
    if texts != [] {
      AdoptedIs(texts);
    }
  }

  // ---- Raw trees ----

  /** In a raw tree no text starts with a NUL, and every element has the value of its children. */
  ghost predicate Raw(n: Node)
    decreases n, 0
  {
    match n
    case Data(text) => !Unset(text)
    case CData(_) => true
    case Element(_, value, _, children) => RawList(children) && value == ValueOf(children)
  }

  ghost predicate RawList(children: seq<Node>)
    decreases children, 1
  {
    forall k :: 0 <= k < |children| ==> Raw(children[k])
  }

  lemma RawAppend(done: seq<Node>, n: Node)
    requires RawList(done) && Raw(n)
    ensures RawList(done + [n])
  {
  }

  lemma {:induction false} RawNode(t: string, i: nat, v: bool)
    requires i <= |t|
    ensures var r := ParseNode(t, i, Flags(true, v)); r.ParsedNode? && r.node.Some? ==> Raw(r.node.value)
    decreases |t| - i, 1
  {
    if At(t, i) != '?' && At(t, i) != '!' {
      RawElement(t, i, v);
    }
  }

  lemma {:induction false} RawElement(t: string, i: nat, v: bool)
    requires i <= |t|
    ensures var r := ParseElement(t, i, Flags(true, v)); r.ParsedNode? && r.node.Some? ==> Raw(r.node.value)
    decreases |t| - i, 0
  {
    var opening := ParseOpening(t, i, Flags(true, v));
    if opening.Opening? && At(t, opening.next) == '>' {
      RawContents(t, opening.next + 1, v, t[i..opening.nameEnd], [], []);
    }
  }

  ghost predicate RawResult(r: ContentsResult) {
    r.ParsedContents? ==> RawList(r.children) && r.value == ValueOf(r.children)
  }

  lemma {:induction false} RawContents(t: string, i: nat, v: bool, name: string, value: string, done: seq<Node>)
    requires i <= |t| && RawList(done) && value == ValueOf(done)
    ensures RawResult(ParseContents(t, i, Flags(true, v), name, value, done))
    decreases |t| - i, 1
  {
    hide Raw, RawList, RawResult, ValueOf, ParseNode;
    var j := Skip(t, i, Whitespace);
    if At(t, j) == '<' {
      RawMarkup(t, j, v, name, value, done);
    } else if At(t, j) != '\0' {
      var Expanded(text, k) := ScanValue(t, i, CharData, Flags(true, v));
      RawText(t, i, v);
      RawAppend(done, Data(text));
      AppendChild(done, Data(text));
      if At(t, k) == '<' {
        RawMarkup(t, k, v, name, Adopt(value, text), done + [Data(text)]);
      } else {
        NoContents(BadContents(ParseError("unexpected end of data", k)));
      }
    } else {
      NoContents(BadContents(ParseError("unexpected end of data", j)));
    }
  }

  lemma NoContents(r: ContentsResult)
    requires r.BadContents?
    ensures RawResult(r)
  {
  }

  /** A raw text starts with a character of the text, and that is no terminator. */
  lemma RawText(t: string, i: nat, v: bool)
    requires i <= |t| && At(t, Skip(t, i, Whitespace)) != '<' && At(t, Skip(t, i, Whitespace)) != '\0'
    ensures var r := ScanValue(t, i, CharData, Flags(true, v)); r.Expanded? && Raw(Data(r.text))
  {
    var j := Skip(t, i, Whitespace);
    assert j > i ==> Whitespace.Test(t[i]);
    assert CharData.Test(At(t, i));
    assert i < Skip(t, i, CharData);
  }

  lemma {:induction false} RawMarkup(t: string, i: nat, v: bool, name: string, value: string, done: seq<Node>)
    requires i < |t| && RawList(done) && value == ValueOf(done)
    ensures RawResult(ParseMarkup(t, i, Flags(true, v), name, value, done))
    decreases |t| - i, 0
  {
    if At(t, i + 1) != '/' {
      RawNode(t, i + 1, v);
      match ParseNode(t, i + 1, Flags(true, v))
      case BadNode(_) =>
      case ParsedNode(None, next) => RawContents(t, next, v, name, value, done);
      case ParsedNode(Some(n), next) =>
        NotData(t, i + 1, Flags(true, v));
        RawAppend(done, n);
        AppendChild(done, n);
        RawContents(t, next, v, name, value, done + [n]);
    }
  }

  lemma {:induction false} RawTopLevel(t: string, i: nat, v: bool, done: seq<Node>)
    requires i <= |t| && RawList(done)
    ensures var r := ParseTopLevel(t, i, Flags(true, v), done); r.ParsedDocument? ==> RawList(r.children)
    decreases |t| - i
  {
    hide Raw, RawList, ParseNode;
    var j := Skip(t, i, Whitespace);
    if At(t, j) == '<' {
      RawNode(t, j + 1, v);
      match ParseNode(t, j + 1, Flags(true, v))
      case BadNode(_) =>
      case ParsedNode(None, next) => RawTopLevel(t, next, v, done);
      case ParsedNode(Some(n), next) =>
        RawAppend(done, n);
        RawTopLevel(t, next, v, done + [n]);
    }
  }

  // ---- Raw and default values ----

  lemma {:induction false} ChildTranslates(children: seq<Node>, nodes: seq<Node>, k: nat)
    requires TranslateChildren(children) == Some(nodes) && k < |children|
    ensures |nodes| == |children| && TranslateNode(children[k]) == Some(nodes[k])
    decreases |children|
  {
    hide TranslateNode, TranslateChildren;
    var n := |children| - 1;
    LastTranslates(children, nodes);
    if n > 0 {
      ChildTranslates(children[..n], nodes[..|nodes| - 1], if k < n then k else 0);
    }
  }

  lemma LastTranslates(children: seq<Node>, nodes: seq<Node>)
    requires TranslateChildren(children) == Some(nodes) && children != []
    ensures nodes != [] && TranslateNode(children[|children| - 1]) == Some(nodes[|nodes| - 1])
    ensures TranslateChildren(children[..|children| - 1]) == Some(nodes[..|nodes| - 1])
    ensures |children| == 1 ==> |nodes| == 1
  {
    hide TranslateNode;
  }

  lemma {:induction false} TextsTranslate(children: seq<Node>, nodes: seq<Node>)
    requires TranslateChildren(children) == Some(nodes)
    ensures |DataTexts(nodes)| == |DataTexts(children)|
    ensures forall k :: 0 <= k < |DataTexts(nodes)| ==> Translated(DataTexts(children)[k]) == Some(DataTexts(nodes)[k])
    decreases |children|
  {
    if children != [] {
      TextsTranslate(children[..|children| - 1], nodes[..|nodes| - 1]);
    }
  }

  lemma {:induction false} RawTextsSet(children: seq<Node>)
    requires RawList(children)
    ensures forall k :: 0 <= k < |DataTexts(children)| ==> !Unset(DataTexts(children)[k])
  {
    if children != [] {
      RawTextsSet(children[..|children| - 1]);
    }
  }

  /** A raw text that starts with a reference to NUL. */
  predicate StartsWithNul(raw: string) {
    Translated(raw).Some? && Unset(Translated(raw).value)
  }

  /** No raw text, or the first does not start with a reference to NUL, or all do and the last one expands like it. */
  predicate FirstRawCounts(raws: seq<string>) {
    || raws == []
    || !StartsWithNul(raws[0])
    || ((forall k :: 0 <= k < |raws| ==> StartsWithNul(raws[k])) && Translated(raws[|raws| - 1]) == Translated(raws[0]))
  }

  lemma RawTextsDecide(children: seq<Node>, nodes: seq<Node>)
    requires TranslateChildren(children) == Some(nodes)
    ensures FirstRawCounts(DataTexts(children)) <==> FirstCounts(DataTexts(nodes))
  {
    TextsTranslate(children, nodes);
    var raws, texts := DataTexts(children), DataTexts(nodes);
    hide DataTexts, Translated, TranslateChildren;
    assert forall k :: 0 <= k < |raws| ==> (StartsWithNul(raws[k]) <==> Unset(texts[k]));
  }

  /** What becomes of the value of one element. */
  lemma ValueTranslates(children: seq<Node>, nodes: seq<Node>)
    requires RawList(children) && TranslateChildren(children) == Some(nodes)
    ensures Translated(ValueOf(children)) == Some(ValueOf(nodes)) <==> FirstRawCounts(DataTexts(children))
  {
    ValueIsAdopted(children);
    ValueIsAdopted(nodes);
    RawTextsSet(children);
    TextsTranslate(children, nodes);
    RawTextsDecide(children, nodes);
    FirstIsAdopted(DataTexts(children));
    FirstIsAdopted(DataTexts(nodes));
    assert Translated([]) == Some([]);
  }

  /**
   * Of an element and of all below it: the raw value translates to the default one just when the first of the
   * element's raw texts counts.
   */
  ghost predicate ValuesTranslate(raw: Node, n: Node)
    decreases raw
  {
    raw.Element? ==>
      && n.Element? && |raw.children| == |n.children|
      && (Translated(raw.value) == Some(n.value) <==> FirstRawCounts(DataTexts(raw.children)))
      && forall k :: 0 <= k < |raw.children| ==> ValuesTranslate(raw.children[k], n.children[k])
  }

  lemma {:induction false} RawTranslates(raw: Node, n: Node)
    requires Raw(raw) && TranslateNode(raw) == Some(n)
    ensures ValuesTranslate(raw, n)
    decreases raw
  {
    if raw.Element? {
      ValueTranslates(raw.children, n.children);
      if raw.children != [] {
        ChildTranslates(raw.children, n.children, 0);
      }
      forall k | 0 <= k < |raw.children|
        ensures k < |n.children| && ValuesTranslate(raw.children[k], n.children[k])
      {
        ChildTranslates(raw.children, n.children, k);
        RawTranslates(raw.children[k], n.children[k]);
      }
    }
  }

  /**
   * Whenever both parses accept a text, the default value of an element anywhere in the tree is the
   * translation of its raw value if and only if its first raw text does not start with a reference to NUL, or
   * all its raw texts do and the last expands to the same text as the first.
   */
  lemma ElementValueTranslates(t: string, v: bool)
    requires ParseDocument(t, Flags(true, v)).ParsedDocument? && ParseDocument(t, Flags(false, v)).ParsedDocument?
    ensures var raw, nodes := ParseDocument(t, Flags(true, v)).children, ParseDocument(t, Flags(false, v)).children;
            && |raw| == |nodes|
            && forall k :: 0 <= k < |raw| ==> ValuesTranslate(raw[k], nodes[k])
  {
    DefaultParseTranslates(t, v);
    RawTopLevel(t, SkipBom(t), v, []);
    var raw, nodes := ParseDocument(t, Flags(true, v)).children, ParseDocument(t, Flags(false, v)).children;
    assert TranslateChildren(raw) == Some(nodes);
    if raw != [] {
      ChildTranslates(raw, nodes, 0);
    }
    forall k | 0 <= k < |raw| ensures k < |nodes| && ValuesTranslate(raw[k], nodes[k]) {
      ChildTranslates(raw, nodes, k);
      RawTranslates(raw[k], nodes[k]);
    }
  }

  // ---- The condition is needed ----

  const STOLEN := "<a>&#0;<![CDATA[]]>y</a>"

  /** The raw parse of `STOLEN` gives the element the text in front as its value, the default parse the one behind. */
  lemma NulStealsElementValue(v: bool)
    ensures ParseDocument(STOLEN, Flags(true, v))
         == ParsedDocument([Element("a", "&#0;", [], [Data("&#0;"), CData(""), Data("y")])])
    ensures ParseDocument(STOLEN, Flags(false, v))
         == ParsedDocument([Element("a", "y", [], [Data("\0"), CData(""), Data("y")])])
  {
    assert Spelled(STOLEN);
    StolenRaw(STOLEN, v);
    DefaultParseTranslates(STOLEN, v);
    StolenTranslates();
  }

  lemma StolenTranslates()
    ensures var children, nodes := [Data("&#0;"), CData(""), Data("y")], [Data("\0"), CData(""), Data("y")];
            TranslateChildren([Element("a", "&#0;", [], children)]) == Some([Element("a", "y", [], nodes)])
  {
    hide *;
    var children, nodes := [Data("&#0;"), CData(""), Data("y")], [Data("\0"), CData(""), Data("y")];
    var raw, n := Element("a", "&#0;", [], children), Element("a", "y", [], nodes);
    StolenChildren();
    StolenValue();
    ElementOf("a", "&#0;", children, nodes);
    NoChildren();
    AppendChild([], raw);
    assert [] + [raw] == [raw] && [] + [n] == [n];
  }

  lemma NoChildren()
    ensures TranslateChildren([]) == Some([])
  {
  }

  lemma ElementOf(name: string, value: string, children: seq<Node>, nodes: seq<Node>)
    requires TranslateChildren(children) == Some(nodes)
    ensures TranslateNode(Element(name, value, [], children)) == Some(Element(name, ValueOf(nodes), [], nodes))
  {
    hide TranslateChildren, ValueOf;
    assert TranslateAttributes([]) == Some([]);
  }

  lemma StolenChildren()
    ensures TranslateChildren([Data("&#0;"), CData(""), Data("y")]) == Some([Data("\0"), CData(""), Data("y")])
  {
    var first, middle, last, none := Data("&#0;"), CData(""), Data("y"), Data("\0");
    NulReference();
    PlainY();
    hide Translated, ValueOf;
    AppendChild([], first);
    AppendChild([first], middle);
    AppendChild([first, middle], last);
    assert [] + [first] == [first] && [first] + [middle] == [first, middle] && [first, middle] + [last] == [first, middle, last];
    assert [] + [none] == [none] && [none] + [middle] == [none, middle] && [none, middle] + [last] == [none, middle, last];
  }

  lemma StolenValue()
    ensures ValueOf([Data("\0"), CData(""), Data("y")]) == "y"
  {
    var nodes := [Data("\0"), CData(""), Data("y")];
    hide TranslateChildren, TranslateNode;
    assert nodes[..2] == [Data("\0"), CData("")] && nodes[..2][..1] == [Data("\0")] && nodes[..1][..0] == [];
    assert ValueOf([Data("\0")]) == "\0";
    assert ValueOf(nodes[..2]) == "\0";
  }

  lemma NulReference()
    ensures Translated("&#0;") == Some("\0")
  {
    var t := "&#0;";
    assert NamedRef(t, 0).None?;
    assert ReadNumeral(t, 3, 10, 0) == (0, 3);
    assert ReadNumeral(t, 2, 10, 0) == (0, 3);
    assert NumericRef(t, 0, 0) == Expanded("\0", 4);
    assert Expand(t, 4, NO_STOP, 0, "\0") == Expanded("\0", 4);
    assert [] + "\0" == "\0";
  }

  lemma PlainY()
    ensures Translated("y") == Some("y")
  {
    assert Step("y", 0, 0) == Expanded("y", 1);
    assert [] + "y" == "y";
    assert Expand("y", 1, NO_STOP, 0, "y") == Expanded("y", 1);
  }

  /** `STOLEN`, character by character. */
  predicate Spelled(t: string) {
    && |t| == 24 && t[0] == '<' && t[1] == 'a' && t[2] == '>' && t[3] == '&' && t[4] == '#' && t[5] == '0' && t[6] == ';'
    && t[7] == '<' && t[8] == '!' && t[9] == '[' && t[10] == 'C' && t[11] == 'D' && t[12] == 'A' && t[13] == 'T'
    && t[14] == 'A' && t[15] == '[' && t[16] == ']' && t[17] == ']' && t[18] == '>' && t[19] == 'y'
    && t[20] == '<' && t[21] == '/' && t[22] == 'a' && t[23] == '>'
  }

  /** The raw parse, from the last piece of the text to the first. */
  lemma StolenRaw(t: string, v: bool)
    requires Spelled(t)
    ensures ParseDocument(t, Flags(true, v))
         == ParsedDocument([Element("a", "&#0;", [], [Data("&#0;"), CData(""), Data("y")])])
  {
    var fl := Flags(true, v);
    var n := Element("a", "&#0;", [], [Data("&#0;"), CData(""), Data("y")]);
    StolenTail(t, fl);
    StolenMiddle(t, fl);
    StolenFront(t, fl);
    hide ParseNode, ParseContents;
    SkipRun(t, 0, 0, Whitespace);
    SkipRun(t, 24, 24, Whitespace);
    assert [] + [n] == [n];
    assert ParseTopLevel(t, 24, fl, [n]) == ParsedDocument([n]);
    assert ParseTopLevel(t, 0, fl, []) == ParseTopLevel(t, 24, fl, [n]);
  }

  lemma StolenTail(t: string, fl: Flags)
    requires Spelled(t) && fl.nonDestructive
    ensures ParseContents(t, 19, fl, "a", "&#0;", [Data("&#0;"), CData("")])
         == ParsedContents("&#0;", [Data("&#0;"), CData(""), Data("y")], 24)
  {
    SkipRun(t, 19, 20, CharData);
    SkipRun(t, 22, 23, NodeName);
    assert t[19..20] == "y" && t[22..23] == "a";
    assert ParseClosingTag(t, 22, fl, "a") == Closed(24);
    assert [Data("&#0;"), CData("")] + [Data("y")] == [Data("&#0;"), CData(""), Data("y")];
  }

  lemma StolenMiddle(t: string, fl: Flags)
    requires Spelled(t) && fl.nonDestructive
    ensures ParseNode(t, 8, fl) == ParsedNode(Some(CData("")), 19)
  {
    assert t[9..16] == "[CDATA[" && t[16..19] == "]]>" && t[16..16] == "";
    assert t[9] == '[' && !Has(t, 9, "--");
    assert FindMark(t, 16, "]]>") == Ok(16);
  }

  lemma StolenFront(t: string, fl: Flags)
    requires Spelled(t) && fl.nonDestructive
    requires ParseNode(t, 8, fl) == ParsedNode(Some(CData("")), 19)
    requires ParseContents(t, 19, fl, "a", "&#0;", [Data("&#0;"), CData("")])
          == ParsedContents("&#0;", [Data("&#0;"), CData(""), Data("y")], 24)
    ensures ParseNode(t, 1, fl)
         == ParsedNode(Some(Element("a", "&#0;", [], [Data("&#0;"), CData(""), Data("y")])), 24)
  {
    SkipRun(t, 1, 2, NodeName);
    assert t[1..2] == "a" && t[2] == '>';
    assert ParseOpening(t, 1, fl) == Opening(2, [], 2);
    hide ParseOpening, ParseContents;
    StolenContents(t, fl);
    assert ParseBody(t, 2, fl, "a") == ParsedContents("&#0;", [Data("&#0;"), CData(""), Data("y")], 24);
    assert ParseElement(t, 1, fl) == ParsedNode(Some(Element("a", "&#0;", [], [Data("&#0;"), CData(""), Data("y")])), 24);
  }

  lemma StolenContents(t: string, fl: Flags)
    requires Spelled(t) && fl.nonDestructive
    requires ParseNode(t, 8, fl) == ParsedNode(Some(CData("")), 19)
    requires ParseContents(t, 19, fl, "a", "&#0;", [Data("&#0;"), CData("")])
          == ParsedContents("&#0;", [Data("&#0;"), CData(""), Data("y")], 24)
    ensures ParseContents(t, 3, fl, "a", [], []) == ParsedContents("&#0;", [Data("&#0;"), CData(""), Data("y")], 24)
  {
    SkipRun(t, 3, 7, CharData);
    assert t[3..7] == "&#0;" && t[8] == '!';
    hide ParseNode;
    assert [] + [Data("&#0;")] == [Data("&#0;")] && [Data("&#0;")] + [CData("")] == [Data("&#0;"), CData("")];
    assert ParseMarkup(t, 7, fl, "a", "&#0;", [Data("&#0;")])
        == ParsedContents("&#0;", [Data("&#0;"), CData(""), Data("y")], 24);
  }
}

/**
 * The default parse is the non-destructive parse followed by the translation of references,
 * and validating closing tags only filters.
 */
module Translation {
  import opened Text
  import opened CharRefs
  import opened References
  import opened Parser

  // ---- Translating a raw slice on its own ----

  /** Accepts every character of a slice. */
  const NO_STOP := AttributeValue('\0')

  /** The slice with its references expanded, if they all can be. */
  function Translated(raw: string): Option<string> {
    match Expand(raw, 0, NO_STOP, 0, [])
    case BadRef(_) => None
    case Expanded(text, _) => Some(text)
  }

  /** A reference is recognised inside the slice exactly as inside the text. */
  lemma NamedLocal(t: string, i: nat, j: nat, k: nat, p: Pred)
    requires Run(t, i, j, p) && i <= k < j && t[k] == '&'
    ensures At(t[i..j], k - i) == '&'
    ensures NamedRef(t[i..j], k - i) == NamedRef(t, k)
  {
    var raw := t[i..j];
    forall x | i <= x ensures At(raw, x - i) == if x < j then At(t, x) else '\0' {
    }
    assert At(raw, k - i) == At(t, k);
    assert At(raw, k - i + 1) == if k + 1 < j then At(t, k + 1) else '\0';
    assert At(raw, k - i + 2) == if k + 2 < j then At(t, k + 2) else '\0';
    assert At(raw, k - i + 3) == if k + 3 < j then At(t, k + 3) else '\0';
    assert At(raw, k - i + 4) == if k + 4 < j then At(t, k + 4) else '\0';
    assert At(raw, k - i + 5) == if k + 5 < j then At(t, k + 5) else '\0';
    StopNoLetter(t, j, p);
  }

  lemma StopNoLetter(t: string, j: nat, p: Pred)
    requires Scans(p) && !p.Test(At(t, j))
    ensures var c := At(t, j);
            c != 'a' && c != 'm' && c != 'p' && c != 'o' && c != 's' && c != 'q' && c != 'u' && c != 't' && c != 'g' && c != 'l'
            && c != ';' && c != '#' && c != 'x' && Digit(c) == 255
  {
  }

  lemma {:induction false} NumeralLocal(t: string, i: nat, j: nat, k: nat, p: Pred, base: nat, code: nat)
    requires Run(t, i, j, p) && i <= k <= j
    ensures var (c, e) := ReadNumeral(t, k, base, code);
            e <= j && ReadNumeral(t[i..j], k - i, base, code) == (c, e - i)
    decreases j - k
  {
    StopNoLetter(t, j, p);
    if k < j {
      assert At(t[i..j], k - i) == At(t, k);
      if Digit(At(t, k)) != 255 {
        NumeralLocal(t, i, j, k + 1, p, base, (code * base + Digit(At(t, k))) % ULONG_RANGE);
      }
    }
  }

  lemma NumericLocal(t: string, i: nat, j: nat, k: nat, p: Pred, dest: nat, dest': nat)
    requires Run(t, i, j, p) && i <= k < j && At(t, k + 1) == '#' && k + 1 < j
    ensures At(t[i..j], k - i + 1) == '#'
    ensures SameStep(NumericRef(t, k, dest), NumericRef(t[i..j], k - i, dest'), i)
  {
    hide ReadNumeral, Utf8;
    var raw := t[i..j];
    StopNoLetter(t, j, p);
    assert At(raw, k - i + 1) == At(t, k + 1);
    assert At(raw, k - i + 2) == if k + 2 < j then At(t, k + 2) else '\0';
    var (start, base) := NumeralStart(t, k);
    assert NumeralStart(raw, k - i) == (start - i, base);
    NumeralLocal(t, i, j, start, p, base, 0);
    var e := ReadNumeral(t, start, base, 0).1;
    assert At(raw, e - i) == if e < j then At(t, e) else '\0';
  }

  lemma StepLocal(t: string, i: nat, j: nat, k: nat, p: Pred, dest: nat, dest': nat)
    requires Run(t, i, j, p) && i <= k < j
    ensures SameStep(Step(t, k, dest), Step(t[i..j], k - i, dest'), i)
  {
    assert t[i..j][k - i] == t[k];
    if t[k] == '&' {
      NamedLocal(t, i, j, k, p);
      StopNoLetter(t, j, p);
      assert At(t[i..j], k - i + 1) == if k + 1 < j then At(t, k + 1) else '\0';
      if NamedRef(t, k).None? && At(t, k + 1) == '#' {
        NumericLocal(t, i, j, k, p, dest, dest');
      }
    }
  }

  /** Expansion inside the text equals expansion of the raw slice on its own. */
  lemma ExpandLocal(t: string, i: nat, j: nat, k: nat, p: Pred, start: nat, start': nat, done: string)
    requires Run(t, i, j, p) && i <= k <= j
    ensures SameStep(Expand(t, k, p, start, done), Expand(t[i..j], k - i, NO_STOP, start', done), i)
    ensures Expand(t, k, p, start, done).Expanded? ==> Expand(t, k, p, start, done).next == j
  {
    ExpandSlice(t, t[i..j], i, j, k, p, start, start', done);
    hide *;
  }

  lemma {:induction false} ExpandSlice(t: string, raw: string, i: nat, j: nat, k: nat, p: Pred,
                                       start: nat, start': nat, done: string)
    requires Cut(t, i, j, p, raw) && i <= k <= j <= |t|
    ensures SameStep(Expand(t, k, p, start, done), Expand(raw, k - i, NO_STOP, start', done), i)
    ensures Expand(t, k, p, start, done).Expanded? ==> Expand(t, k, p, start, done).next == j
    decreases j - k
  {
    hide *;
    if k == j {
      SliceEnds(t, raw, i, j, p, start, start', done);
      return;
    }
    var r := Step(t, k, start + |done|);
    if r.BadRef? {
      SliceFails(t, raw, i, j, k, p, start, start', done);
      return;
    }
    SliceStep(t, raw, i, j, k, p, start, start', done);
    ExpandSlice(t, raw, i, j, r.next, p, start, start', done + r.text);
  }

  lemma SliceEnds(t: string, raw: string, i: nat, j: nat, p: Pred, start: nat, start': nat, done: string)
    requires Cut(t, i, j, p, raw) && i <= j <= |t|
    ensures SameStep(Expand(t, j, p, start, done), Expand(raw, j - i, NO_STOP, start', done), i)
    ensures Expand(t, j, p, start, done).Expanded? ==> Expand(t, j, p, start, done).next == j
  {
    RunAt(t, i, j, j, p);
    hide Run, Expand, At, Pred.Test;
    ExpandStops(t, j, p, start, done);
    ExpandStops(raw, j - i, NO_STOP, start', done);
  }

  /** One step, in the text and in the slice. */
  lemma SliceStep(t: string, raw: string, i: nat, j: nat, k: nat, p: Pred, start: nat, start': nat, done: string)
    requires Cut(t, i, j, p, raw) && i <= k < j <= |t| && Step(t, k, start + |done|).Expanded?
    ensures var r := Step(t, k, start + |done|);
            && k < r.next <= j && Expand(t, k, p, start, done) == Expand(t, r.next, p, start, done + r.text)
            && Expand(raw, k - i, NO_STOP, start', done) == Expand(raw, r.next - i, NO_STOP, start', done + r.text)
  {
    hide *;
    StepMatches(t, raw, i, j, k, p, start + |done|, start' + |done|);
    var Expanded(out, next) := Step(t, k, start + |done|);
    ExpandStep(t, k, p, start, done, out, next);
    ExpandStep(raw, k - i, NO_STOP, start', done, out, next - i);
  }

  lemma SliceFails(t: string, raw: string, i: nat, j: nat, k: nat, p: Pred, start: nat, start': nat, done: string)
    requires Cut(t, i, j, p, raw) && i <= k < j <= |t| && Step(t, k, start + |done|).BadRef?
    ensures SameStep(Expand(t, k, p, start, done), Expand(raw, k - i, NO_STOP, start', done), i)
    ensures Expand(t, k, p, start, done).BadRef?
  {
    hide Run, Cut, Step, Expand, At, Pred.Test;
    StepMatches(t, raw, i, j, k, p, start + |done|, start' + |done|);
    ExpandFails(t, k, p, start, done);
    ExpandFails(raw, k - i, NO_STOP, start', done);
  }

  lemma StepMatches(t: string, raw: string, i: nat, j: nat, k: nat, p: Pred, dest: nat, dest': nat)
    requires Cut(t, i, j, p, raw) && i <= k < j <= |t|
    ensures |raw| == j - i && p.Test(t[k]) && NO_STOP.Test(raw[k - i])
    ensures Step(t, k, dest).BadRef? ==> Step(raw, k - i, dest').BadRef?
    ensures var r := Step(t, k, dest);
            r.Expanded? ==> k < r.next <= j && Step(raw, k - i, dest') == Expanded(r.text, r.next - i)
  {
    RunAt(t, i, j, k, p);
    StepLocal(t, i, j, k, p, dest, dest');
    StepStaysInside(t, i, j, k, p, dest);
    hide Run, Step, Pred.Test, At;
  }

  lemma ExpandFails(t: string, i: nat, p: Pred, start: nat, done: string)
    requires i < |t| && p.Test(t[i]) && Step(t, i, start + |done|).BadRef?
    ensures Expand(t, i, p, start, done).BadRef?
  {
  }

  lemma RunAt(t: string, i: nat, j: nat, k: nat, p: Pred)
    requires Run(t, i, j, p) && i <= k <= j
    ensures i <= j <= |t| && |t[i..j]| == j - i
    ensures p.Test(At(t, k)) <==> k < j
    ensures NO_STOP.Test(At(t[i..j], k - i)) <==> k < j
    ensures k < j ==> p.Test(t[k]) && NO_STOP.Test(t[i..j][k - i])
  {
    if k < j {
      assert t[i..j][k - i] == t[k];
    }
  }

  lemma StepStaysInside(t: string, i: nat, j: nat, k: nat, p: Pred, dest: nat)
    requires Run(t, i, j, p) && i <= k < j
    ensures Step(t, k, dest).Expanded? ==> Step(t, k, dest).next <= j
  {
    if Step(t, k, dest).Expanded? {
      StepStopsShort(t, k, dest, p);
    }
  }

  /** What the two parses make of the same value. */
  lemma ScanTranslates(t: string, i: nat, p: Pred, v: bool)
    requires i <= |t| && Scans(p)
    ensures var raw := ScanValue(t, i, p, Flags(true, v));
            && raw.Expanded?
            && match Translated(raw.text)
               case None => ScanValue(t, i, p, Flags(false, v)).BadRef?
               case Some(text) => ScanValue(t, i, p, Flags(false, v)) == Expanded(text, raw.next)
  {
    var j := Skip(t, i, p);
    ExpandLocal(t, i, j, i, p, i, 0, []);
  }

  // ---- Translating a tree ----

  function TranslateAttribute(a: Attribute): Option<Attribute> {
    match Translated(a.value)
    case None => None
    case Some(value) => Some(Attribute(a.name, value))
  }

  function TranslateAttributes(attributes: seq<Attribute>): Option<seq<Attribute>> {
    if attributes == [] then Some([])
    else
      var k := |attributes| - 1;
      match (TranslateAttributes(attributes[..k]), TranslateAttribute(attributes[k]))
      case (Some(list), Some(a)) => Some(list + [a])
      case _ => None
  }

  /** The element value that a sequence of children gives. */
  function ValueOf(children: seq<Node>): string {
    if children == [] then []
    else
      var k := |children| - 1;
      if children[k].Data? then Adopt(ValueOf(children[..k]), children[k].text) else ValueOf(children[..k])
  }

  function TranslateNode(n: Node): Option<Node>
    decreases n, 0
  {
    match n
    case Data(raw) => (match Translated(raw) case None => None case Some(text) => Some(Data(text)))
    case CData(text) => Some(n)
    case Element(name, _, attributes, children) =>
      match (TranslateAttributes(attributes), TranslateChildren(children))
      case (Some(list), Some(nodes)) => Some(Element(name, ValueOf(nodes), list, nodes))
      case _ => None
  }

  function TranslateChildren(children: seq<Node>): Option<seq<Node>>
    decreases children, 1
  {
    if children == [] then Some([])
    else
      var k := |children| - 1;
      match (TranslateChildren(children[..k]), TranslateNode(children[k]))
      case (Some(nodes), Some(n)) => Some(nodes + [n])
      case _ => None
  }

  lemma AppendAttribute(attributes: seq<Attribute>, a: Attribute)
    ensures TranslateAttributes(attributes + [a])
         == match (TranslateAttributes(attributes), TranslateAttribute(a))
            case (Some(list), Some(b)) => Some(list + [b])
            case _ => None
  {
    assert (attributes + [a])[..|attributes|] == attributes;
  }

  lemma AppendChild(children: seq<Node>, n: Node)
    ensures TranslateChildren(children + [n])
         == match (TranslateChildren(children), TranslateNode(n))
            case (Some(nodes), Some(m)) => Some(nodes + [m])
            case _ => None
    ensures ValueOf(children + [n]) == if n.Data? then Adopt(ValueOf(children), n.text) else ValueOf(children)
  {
    assert (children + [n])[..|children|] == children;
  }

  // ---- What the default parse must be, given the raw one ----

  function TranslatedAttributes(r: AttributesResult): Option<AttributesResult> {
    match r
    case BadAttributes(_) => None
    case ParsedAttributes(attributes, next) =>
      match TranslateAttributes(attributes)
      case None => None
      case Some(list) => Some(ParsedAttributes(list, next))
  }

  function TranslatedNode(r: NodeResult): Option<NodeResult> {
    match r
    case BadNode(_) => None
    case ParsedNode(None, next) => Some(r)
    case ParsedNode(Some(n), next) =>
      match TranslateNode(n)
      case None => None
      case Some(m) => Some(ParsedNode(Some(m), next))
  }

  function TranslatedContents(r: ContentsResult): Option<ContentsResult> {
    match r
    case BadContents(_) => None
    case ParsedContents(_, children, next) =>
      match TranslateChildren(children)
      case None => None
      case Some(nodes) => Some(ParsedContents(ValueOf(nodes), nodes, next))
  }

  function TranslatedDocument(r: DocumentResult): Option<DocumentResult> {
    match r
    case BadDocument(_) => None
    case ParsedDocument(children) =>
      match TranslateChildren(children)
      case None => None
      case Some(nodes) => Some(ParsedDocument(nodes))
  }

  ghost predicate AttributesMatch(raw: AttributesResult, r: AttributesResult) {
    match TranslatedAttributes(raw)
    case None => r.BadAttributes?
    case Some(expected) => r == expected
  }

  ghost predicate NodeMatches(raw: NodeResult, r: NodeResult) {
    match TranslatedNode(raw)
    case None => r.BadNode?
    case Some(expected) => r == expected
  }

  ghost predicate ContentsMatch(raw: ContentsResult, r: ContentsResult) {
    match TranslatedContents(raw)
    case None => r.BadContents?
    case Some(expected) => r == expected
  }

  ghost predicate DocumentMatches(raw: DocumentResult, r: DocumentResult) {
    match TranslatedDocument(raw)
    case None => r.BadDocument?
    case Some(expected) => r == expected
  }

  lemma AttributeTranslates(t: string, i: nat, v: bool)
    requires i < |t|
    ensures match ParseAttribute(t, i, Flags(true, v))
            case BadAttribute(_) => ParseAttribute(t, i, Flags(false, v)).BadAttribute?
            case ParsedAttribute(a, next) =>
              match TranslateAttribute(a)
              case None => ParseAttribute(t, i, Flags(false, v)).BadAttribute?
              case Some(b) => ParseAttribute(t, i, Flags(false, v)) == ParsedAttribute(b, next)
  {
    hide ScanValue, Translated, ParseAttributeHead, Skip;
    var head := ParseAttributeHead(t, i);
    if head.Head? {
      QuoteScans(t[head.open]);
      ScanTranslates(t, head.open + 1, AttributeValue(t[head.open]), v);
    }
  }

  lemma QuoteScans(quote: char)
    requires IsQuote(quote)
    ensures Scans(AttributeValue(quote))
  {
  }

  /** Once a value cannot be translated, no continuation of the raw parse can. */
  lemma {:induction false} BadAttributeStays(t: string, i: nat, fl: Flags, done: seq<Attribute>)
    requires i <= |t| && TranslateAttributes(done) == None
    ensures TranslatedAttributes(ParseAttributes(t, i, fl, done)) == None
    decreases |t| - i
  {
    if AttributeName.Test(At(t, i)) {
      match ParseAttribute(t, i, fl)
      case BadAttribute(_) =>
      case ParsedAttribute(a, next) =>
        AppendAttribute(done, a);
        BadAttributeStays(t, next, fl, done + [a]);
    }
  }

  lemma {:induction false} AttributesTranslate(t: string, i: nat, v: bool, done: seq<Attribute>, list: seq<Attribute>)
    requires i <= |t| && TranslateAttributes(done) == Some(list)
    ensures AttributesMatch(ParseAttributes(t, i, Flags(true, v), done), ParseAttributes(t, i, Flags(false, v), list))
    decreases |t| - i
  {
    if AttributeName.Test(At(t, i)) {
      AttributeTranslates(t, i, v);
      match ParseAttribute(t, i, Flags(true, v))
      case BadAttribute(_) =>
      case ParsedAttribute(a, next) =>
        AppendAttribute(done, a);
        match TranslateAttribute(a)
        case None => BadAttributeStays(t, next, Flags(true, v), done + [a]);
        case Some(b) => AttributesTranslate(t, next, v, done + [a], list + [b]);
    }
  }

  lemma {:induction false} BadChildStays(t: string, i: nat, fl: Flags, name: string, value: string, done: seq<Node>)
    requires i <= |t| && TranslateChildren(done) == None
    ensures TranslatedContents(ParseContents(t, i, fl, name, value, done)) == None
    decreases |t| - i, 1
  {
    var j := Skip(t, i, Whitespace);
    if At(t, j) == '<' {
      BadChildStaysMarkup(t, j, fl, name, value, done);
    } else if At(t, j) != '\0' {
      match ScanValue(t, i, CharData, fl)
      case BadRef(_) =>
      case Expanded(text, k) =>
        AppendChild(done, Data(text));
        if At(t, k) == '<' {
          BadChildStaysMarkup(t, k, fl, name, Adopt(value, text), done + [Data(text)]);
        }
    }
  }

  lemma {:induction false} BadChildStaysMarkup(t: string, i: nat, fl: Flags, name: string, value: string, done: seq<Node>)
    requires i < |t| && TranslateChildren(done) == None
    ensures TranslatedContents(ParseMarkup(t, i, fl, name, value, done)) == None
    decreases |t| - i, 0
  {
    if At(t, i + 1) != '/' {
      match ParseNode(t, i + 1, fl)
      case BadNode(_) =>
      case ParsedNode(None, next) => BadChildStays(t, next, fl, name, value, done);
      case ParsedNode(Some(n), next) =>
        AppendChild(done, n);
        BadChildStays(t, next, fl, name, value, done + [n]);
    }
  }

  // ---- The two parses in step ----

  lemma {:induction false} NodeTranslates(t: string, i: nat, v: bool)
    requires i <= |t|
    ensures NodeMatches(ParseNode(t, i, Flags(true, v)), ParseNode(t, i, Flags(false, v)))
    decreases |t| - i, 1
  {
    if At(t, i) != '?' && At(t, i) != '!' {
      ElementTranslates(t, i, v);
    }
  }

  lemma {:induction false} ElementTranslates(t: string, i: nat, v: bool)
    requires i <= |t|
    ensures NodeMatches(ParseElement(t, i, Flags(true, v)), ParseElement(t, i, Flags(false, v)))
    decreases |t| - i, 0
  {
    var nameEnd := Skip(t, i, NodeName);
    if nameEnd > i {
      AttributesTranslate(t, Skip(t, nameEnd, Whitespace), v, [], []);
      var raw := ParseOpening(t, i, Flags(true, v));
      if raw.Opening? {
        BodyTranslates(t, raw.next, v, t[i..nameEnd]);
      }
    }
  }

  lemma {:induction false} BodyTranslates(t: string, i: nat, v: bool, name: string)
    requires i <= |t|
    ensures ContentsMatch(ParseBody(t, i, Flags(true, v), name), ParseBody(t, i, Flags(false, v), name))
    decreases |t| - i, 2
  {
    if At(t, i) == '>' {
      ContentsTranslate(t, i + 1, v, name, [], [], []);
    }
  }

  lemma {:induction false} ContentsTranslate(t: string, i: nat, v: bool, name: string, value: string, done: seq<Node>, nodes: seq<Node>)
    requires i <= |t| && TranslateChildren(done) == Some(nodes)
    ensures ContentsMatch(ParseContents(t, i, Flags(true, v), name, value, done),
                          ParseContents(t, i, Flags(false, v), name, ValueOf(nodes), nodes))
    decreases |t| - i, 1
  {
    var j := Skip(t, i, Whitespace);
    if At(t, j) == '<' {
      MarkupTranslates(t, j, v, name, value, done, nodes);
    } else if At(t, j) != '\0' {
      ScanTranslates(t, i, CharData, v);
      var Expanded(raw, k) := ScanValue(t, i, CharData, Flags(true, v));
      AppendChild(done, Data(raw));
      if At(t, k) == '<' {
        match Translated(raw)
        case None => BadChildStaysMarkup(t, k, Flags(true, v), name, Adopt(value, raw), done + [Data(raw)]);
        case Some(text) =>
          AppendChild(nodes, Data(text));
          MarkupTranslates(t, k, v, name, Adopt(value, raw), done + [Data(raw)], nodes + [Data(text)]);
      }
    }
  }

  lemma {:induction false} MarkupTranslates(t: string, i: nat, v: bool, name: string, value: string, done: seq<Node>, nodes: seq<Node>)
    requires i < |t| && TranslateChildren(done) == Some(nodes)
    ensures ContentsMatch(ParseMarkup(t, i, Flags(true, v), name, value, done),
                          ParseMarkup(t, i, Flags(false, v), name, ValueOf(nodes), nodes))
    decreases |t| - i, 0
  {
    hide ParseNode, ParseContents, ParseClosingTag, TranslateChildren, TranslateNode, ValueOf;
    ClosingTranslates(t, i, v, name);
    if At(t, i + 1) != '/' {
      NodeTranslates(t, i + 1, v);
      match ParseNode(t, i + 1, Flags(true, v))
      case BadNode(_) =>
      case ParsedNode(None, next) => ContentsTranslate(t, next, v, name, value, done, nodes);
      case ParsedNode(Some(n), next) =>
        AppendChild(done, n);
        match TranslateNode(n)
        case None => BadChildStays(t, next, Flags(true, v), name, value, done + [n]);
        case Some(m) =>
          AppendChild(nodes, m);
          NotData(t, i + 1, Flags(true, v));
          KindStays(n);
          ContentsTranslate(t, next, v, name, value, done + [n], nodes + [m]);
    }
  }

  lemma ClosingTranslates(t: string, i: nat, v: bool, name: string)
    requires i < |t|
    ensures At(t, i + 1) == '/' ==>
              ParseClosingTag(t, i + 2, Flags(true, v), name) == ParseClosingTag(t, i + 2, Flags(false, v), name)
  {
  }

  lemma KindStays(n: Node)
    ensures TranslateNode(n).Some? ==> (TranslateNode(n).value.Data? <==> n.Data?)
  {
    hide TranslateChildren, ValueOf;
  }

  lemma NotData(t: string, i: nat, fl: Flags)
    requires i <= |t|
    ensures ParseNode(t, i, fl).ParsedNode? && ParseNode(t, i, fl).node.Some? ==> !ParseNode(t, i, fl).node.value.Data?
  {
  }

  lemma {:induction false} BadTopLevelStays(t: string, i: nat, fl: Flags, done: seq<Node>)
    requires i <= |t| && TranslateChildren(done) == None
    ensures TranslatedDocument(ParseTopLevel(t, i, fl, done)) == None
    decreases |t| - i
  {
    hide ParseNode, TranslateChildren, TranslateNode;
    var j := Skip(t, i, Whitespace);
    if At(t, j) == '<' {
      match ParseNode(t, j + 1, fl)
      case BadNode(_) =>
      case ParsedNode(None, next) => BadTopLevelStays(t, next, fl, done);
      case ParsedNode(Some(n), next) =>
        AppendChild(done, n);
        BadTopLevelStays(t, next, fl, done + [n]);
    }
  }

  lemma {:induction false} TopLevelTranslates(t: string, i: nat, v: bool, done: seq<Node>, nodes: seq<Node>)
    requires i <= |t| && TranslateChildren(done) == Some(nodes)
    ensures DocumentMatches(ParseTopLevel(t, i, Flags(true, v), done), ParseTopLevel(t, i, Flags(false, v), nodes))
    decreases |t| - i
  {
    hide ParseNode, TranslateChildren, TranslateNode;
    var j := Skip(t, i, Whitespace);
    if At(t, j) == '<' {
      NodeTranslates(t, j + 1, v);
      match ParseNode(t, j + 1, Flags(true, v))
      case BadNode(_) =>
      case ParsedNode(None, next) => TopLevelTranslates(t, next, v, done, nodes);
      case ParsedNode(Some(n), next) =>
        AppendChild(done, n);
        match TranslateNode(n)
        case None => BadTopLevelStays(t, next, Flags(true, v), done + [n]);
        case Some(m) => TopLevelTranslates(t, next, v, done + [n], nodes + [m]);
    }
  }

  /**
   * The default parse accepts a text exactly when the non-destructive one does and every reference in
   * the raw tree can be translated; its tree is then the translated one, with the same shape.
   */
  lemma DefaultParseTranslates(t: string, v: bool)
    ensures DocumentMatches(ParseDocument(t, Flags(true, v)), ParseDocument(t, Flags(false, v)))
  {
    TopLevelTranslates(t, SkipBom(t), v, [], []);
  }

  // ---- Validation ----

  /** Everything accepted with closing tags validated is accepted without, as the same tree. */
  lemma {:induction false} ValidNode(t: string, i: nat, raw: bool)
    requires i <= |t| && ParseNode(t, i, Flags(raw, true)).ParsedNode?
    ensures ParseNode(t, i, Flags(raw, false)) == ParseNode(t, i, Flags(raw, true))
    decreases |t| - i, 1
  {
    if At(t, i) != '?' && At(t, i) != '!' {
      ValidElement(t, i, raw);
    }
  }

  lemma {:induction false} ValidAttributes(t: string, i: nat, raw: bool, done: seq<Attribute>)
    requires i <= |t|
    ensures ParseAttributes(t, i, Flags(raw, false), done) == ParseAttributes(t, i, Flags(raw, true), done)
    decreases |t| - i
  {
    if AttributeName.Test(At(t, i)) {
      assert ParseAttribute(t, i, Flags(raw, false)) == ParseAttribute(t, i, Flags(raw, true));
      match ParseAttribute(t, i, Flags(raw, true))
      case BadAttribute(_) =>
      case ParsedAttribute(a, next) => ValidAttributes(t, next, raw, done + [a]);
    }
  }

  lemma {:induction false} ValidElement(t: string, i: nat, raw: bool)
    requires i <= |t| && ParseElement(t, i, Flags(raw, true)).ParsedNode?
    ensures ParseElement(t, i, Flags(raw, false)) == ParseElement(t, i, Flags(raw, true))
    decreases |t| - i, 0
  {
    var nameEnd := Skip(t, i, NodeName);
    ValidAttributes(t, Skip(t, nameEnd, Whitespace), raw, []);
    var k := ParseOpening(t, i, Flags(raw, true)).next;
    if At(t, k) == '>' {
      ValidContents(t, k + 1, raw, t[i..nameEnd], [], []);
    }
  }

  lemma {:induction false} ValidContents(t: string, i: nat, raw: bool, name: string, value: string, done: seq<Node>)
    requires i <= |t| && ParseContents(t, i, Flags(raw, true), name, value, done).ParsedContents?
    ensures ParseContents(t, i, Flags(raw, false), name, value, done) == ParseContents(t, i, Flags(raw, true), name, value, done)
    decreases |t| - i, 1
  {
    var j := Skip(t, i, Whitespace);
    if At(t, j) == '<' {
      ValidMarkup(t, j, raw, name, value, done);
    } else {
      var Expanded(text, k) := ScanValue(t, i, CharData, Flags(raw, true));
      assert ScanValue(t, i, CharData, Flags(raw, false)) == Expanded(text, k);
      ValidMarkup(t, k, raw, name, Adopt(value, text), done + [Data(text)]);
    }
  }

  lemma {:induction false} ValidMarkup(t: string, i: nat, raw: bool, name: string, value: string, done: seq<Node>)
    requires i < |t| && ParseMarkup(t, i, Flags(raw, true), name, value, done).ParsedContents?
    ensures ParseMarkup(t, i, Flags(raw, false), name, value, done) == ParseMarkup(t, i, Flags(raw, true), name, value, done)
    decreases |t| - i, 0
  {
    if At(t, i + 1) != '/' {
      ValidNode(t, i + 1, raw);
      var ParsedNode(node, next) := ParseNode(t, i + 1, Flags(raw, true));
      ValidContents(t, next, raw, name, value, if node.None? then done else done + [node.value]);
    }
  }

  lemma {:induction false} ValidTopLevel(t: string, i: nat, raw: bool, done: seq<Node>)
    requires i <= |t| && ParseTopLevel(t, i, Flags(raw, true), done).ParsedDocument?
    ensures ParseTopLevel(t, i, Flags(raw, false), done) == ParseTopLevel(t, i, Flags(raw, true), done)
    decreases |t| - i
  {
    hide ParseNode;
    var j := Skip(t, i, Whitespace);
    if At(t, j) != '\0' {
      ValidNode(t, j + 1, raw);
      var ParsedNode(node, next) := ParseNode(t, j + 1, Flags(raw, true));
      ValidTopLevel(t, next, raw, if node.None? then done else done + [node.value]);
    }
  }

  lemma ValidationOnlyFilters(t: string, raw: bool)
    requires ParseDocument(t, Flags(raw, true)).ParsedDocument?
    ensures ParseDocument(t, Flags(raw, false)) == ParseDocument(t, Flags(raw, true))
  {
    ValidTopLevel(t, SkipBom(t), raw, []);
  }
}

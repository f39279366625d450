/**
 * Parsing what the printer wrote: what comes back for any tree, and that it is the printed tree for those in
 * normal form.
 */
module RoundTrip {
  import opened Text
  import opened CharRefs
  import opened References
  import opened Parser
  import opened Printer
  import opened NormalForm
  import opened Translation

  // ---- Attributes ----

  lemma ScanEscaped(t: string, i: nat, s: string, p: Pred, keep: char, fl: Flags)
    requires !fl.nonDestructive && NulFree(s) && Compatible(p, keep)
    requires Has(t, i, Escape(s, keep)) && !p.Test(At(t, i + |Escape(s, keep)|))
    ensures ScanValue(t, i, p, fl) == Expanded(s, i + |Escape(s, keep)|)
  {
    ExpandUndoesEscape(t, i, s, p, keep, i, []);
    assert [] + s == s;
  }

  lemma PrintedPieces(a: Attribute)
    ensures PrintedAttribute(a)
         == [' '] + a.name + ['='] + [Quote(a.value)] + Escape(a.value, OtherQuote(a.value)) + [Quote(a.value)]
  {
  }

  lemma SixPieces(t: string, i: nat, a: string, b: string, c: string, d: string, e: string, f: string)
    requires Has(t, i, a + b + c + d + e + f)
    ensures Has(t, i, a) && Has(t, i + |a|, b) && Has(t, i + |a| + |b|, c) && Has(t, i + |a| + |b| + |c|, d)
    ensures Has(t, i + |a| + |b| + |c| + |d|, e) && Has(t, i + |a| + |b| + |c| + |d| + |e|, f)
  {
    hide *;
    HasConcat(t, i, a + b + c + d + e, f);
    HasConcat(t, i, a + b + c + d, e);
    HasConcat(t, i, a + b + c, d);
    HasConcat(t, i, a + b, c);
    HasConcat(t, i, a, b);
  }

  lemma AttributeParts(t: string, i: nat, a: Attribute)
    requires Has(t, i, PrintedAttribute(a))
    ensures At(t, i) == ' ' && Has(t, i + 1, a.name)
    ensures At(t, i + 1 + |a.name|) == '=' && At(t, i + 2 + |a.name|) == Quote(a.value)
    ensures Has(t, i + 3 + |a.name|, Escape(a.value, OtherQuote(a.value)))
    ensures var close := i + 3 + |a.name| + |Escape(a.value, OtherQuote(a.value))|;
            At(t, close) == Quote(a.value) && close + 1 == i + |PrintedAttribute(a)|
  {
    hide *;
    var q, e := Quote(a.value), Escape(a.value, OtherQuote(a.value));
    PrintedPieces(a);
    SixPieces(t, i, [' '], a.name, ['='], [q], e, [q]);
    HasAt(t, i, [' '], 0);
    HasAt(t, i + 1 + |a.name|, ['='], 0);
    HasAt(t, i + 2 + |a.name|, [q], 0);
    HasAt(t, i + 3 + |a.name| + |e|, [q], 0);
  }

  lemma AttributeParses(t: string, i: nat, a: Attribute, fl: Flags)
    requires !fl.nonDestructive && Named(a) && NulFree(a.value) && Has(t, i, PrintedAttribute(a))
    ensures i + 1 < |t| && IsSpace(At(t, i)) && AttributeName.Test(At(t, i + 1))
    ensures ParseAttribute(t, i + 1, fl)
         == ParsedAttribute(a, Skip(t, i + |PrintedAttribute(a)|, Whitespace))
  {
    hide *;
    AttributeParts(t, i, a);
    AttributeChars(a);
    NameRun(t, i + 1, a.name, AttributeName);
    ScanEscaped(t, i + 3 + |a.name|, a.value, AttributeValue(Quote(a.value)), OtherQuote(a.value), fl);
    AttributeFromParts(t, i + 1, a, fl, i + |PrintedAttribute(a)| - 1);
  }

  lemma AttributeChars(a: Attribute)
    requires Named(a)
    ensures a.name != [] && All(a.name, AttributeName)
    ensures IsSpace(' ') && !AttributeName.Test('=')
    ensures IsQuote(Quote(a.value)) && !AttributeValue(Quote(a.value)).Test(Quote(a.value))
    ensures Compatible(AttributeValue(Quote(a.value)), OtherQuote(a.value))
  {
  }

  lemma AttributeFromParts(t: string, i: nat, a: Attribute, fl: Flags, close: nat)
    requires i < |t| && i + |a.name| + 2 <= close <= |t| && a.name != []
    requires Skip(t, i + 1, AttributeName) == i + |a.name| && t[i..i + |a.name|] == a.name
    requires At(t, i + |a.name|) == '=' && At(t, i + |a.name| + 1) == Quote(a.value)
    requires ScanValue(t, i + |a.name| + 2, AttributeValue(Quote(a.value)), fl) == Expanded(a.value, close)
    requires At(t, close) == Quote(a.value)
    ensures close < |t| && ParseAttribute(t, i, fl) == ParsedAttribute(a, Skip(t, close + 1, Whitespace))
  {
    hide Quote, ScanValue, ParseAttributeHead, Skip;
    QuoteQuotes(a.value);
    HeadFromParts(t, i, a);
  }

  lemma QuoteQuotes(value: string)
    ensures IsQuote(Quote(value))
  {
  }

  lemma HeadFromParts(t: string, i: nat, a: Attribute)
    requires i < |t| && i + |a.name| + 1 <= |t| && IsQuote(Quote(a.value))
    requires Skip(t, i + 1, AttributeName) == i + |a.name|
    requires At(t, i + |a.name|) == '=' && At(t, i + |a.name| + 1) == Quote(a.value)
    ensures i + |a.name| + 1 < |t| && ParseAttributeHead(t, i) == Head(i + |a.name|, i + |a.name| + 1)
  {
    SkipRun(t, i + |a.name|, i + |a.name|, Whitespace);
    SkipRun(t, i + |a.name| + 1, i + |a.name| + 1, Whitespace);
    hide Skip, Quote;
  }

  /** A name is read up to the character that ends it. */
  lemma NameRun(t: string, i: nat, name: string, p: Pred)
    requires name != [] && All(name, p) && Has(t, i, name) && !p.Test(At(t, i + |name|))
    ensures Skip(t, i, p) == Skip(t, i + 1, p) == i + |name|
    ensures p.Test(At(t, i)) && At(t, i) == name[0] && i + |name| <= |t| && t[i..i + |name|] == name
  {
    SkipWord(t, i, name, p);
    HasAt(t, i, name, 0);
  }

  // ---- Values that hold a NUL ----

  lemma {:induction false} EscapeConcat(a: string, b: string, keep: char)
    ensures Escape(a + b, keep) == Escape(a, keep) + Escape(b, keep)
    decreases a
  {
    hide *;
    if a == [] {
      EscapeNothing(keep);
      assert a + b == b && [] + Escape(b, keep) == Escape(b, keep);
    } else {
      EscapeHead(a, keep);
      EscapeHead(a + b, keep);
      EscapeConcat(a[1..], b, keep);
      assert (a + b)[0] == a[0] && (a + b)[1..] == a[1..] + b;
      ConcatAssoc(EscapeChar(a[0], keep), Escape(a[1..], keep), Escape(b, keep));
    }
  }

  /** The scan stops at the first NUL, which escaping leaves as it is. */
  lemma NulStops(t: string, i: nat, s: string, p: Pred, keep: char)
    requires Has(t, i, Escape(s, keep)) && !NulFree(s) && Compatible(p, keep)
    ensures i <= |t| && At(t, Skip(t, i, p)) == '\0'
  {
    var z := FirstNul(s);
    var front, back := s[..z], s[z..];
    NulStands(t, i, s, z, keep);
    EscapeHidesStop(front, p, keep);
    SkipWord(t, i, Escape(front, keep), p);
    hide *;
  }

  lemma FirstNul(s: string) returns (z: nat)
    requires !NulFree(s)
    ensures z < |s| && s[z] == '\0' && NulFree(s[..z])
  {
    z := 0;
    while s[z] != '\0'
      invariant z < |s| && NulFree(s[..z]) && exists k :: z <= k < |s| && s[k] == '\0'
      decreases |s| - z
    {
      z := z + 1;
    }
  }

  lemma NulStands(t: string, i: nat, s: string, z: nat, keep: char)
    requires z < |s| && s[z] == '\0' && Has(t, i, Escape(s, keep))
    ensures Has(t, i, Escape(s[..z], keep)) && At(t, i + |Escape(s[..z], keep)|) == '\0'
  {
    var front, back := Escape(s[..z], keep), Escape(s[z..], keep);
    EscapeConcat(s[..z], s[z..], keep);
    assert s[..z] + s[z..] == s;
    HasConcat(t, i, front, back);
    EscapeHead(s[z..], keep);
    HasAt(t, i + |front|, back, 0);
  }

  /** A default scan ends where the raw one does. */
  lemma ScanEnds(t: string, i: nat, p: Pred, fl: Flags)
    requires i <= |t| && Scans(p)
    ensures var r := ScanValue(t, i, p, fl); r.Expanded? ==> r.next == Skip(t, i, p)
  {
    ScanTranslates(t, i, p, fl.validateClosingTags);
  }

  lemma AttributeFails(t: string, i: nat, a: Attribute, fl: Flags)
    requires Named(a) && !NulFree(a.value) && Has(t, i, PrintedAttribute(a))
    ensures i + 1 < |t| && IsSpace(At(t, i)) && AttributeName.Test(At(t, i + 1)) && ParseAttribute(t, i + 1, fl).BadAttribute?
  {
    hide *;
    AttributeParts(t, i, a);
    AttributeChars(a);
    NameRun(t, i + 1, a.name, AttributeName);
    var open := i + 2 + |a.name|;
    QuoteQuotes(a.value);
    HasEnds(t, i, PrintedAttribute(a));
    HeadFromParts(t, i + 1, a);
    NulStops(t, open + 1, a.value, AttributeValue(Quote(a.value)), OtherQuote(a.value));
    UnclosedFails(t, i + 1, a, open, fl);
  }

  lemma UnclosedFails(t: string, i: nat, a: Attribute, open: nat, fl: Flags)
    requires i < open < |t| && ParseAttributeHead(t, i) == Head(open - 1, open) && At(t, open) == Quote(a.value)
    requires At(t, Skip(t, open + 1, AttributeValue(Quote(a.value)))) == '\0'
    ensures ParseAttribute(t, i, fl).BadAttribute?
  {
    hide ParseAttributeHead, Skip, ScanValue;
    QuoteScans(Quote(a.value));
    ScanEnds(t, open + 1, AttributeValue(Quote(a.value)), fl);
  }

  /** The printed attributes are read back unless a value holds a NUL. */
  lemma {:induction false} AttributesReread(t: string, i: nat, attributes: seq<Attribute>, fl: Flags, done: seq<Attribute>)
    requires !fl.nonDestructive && AllNamed(attributes)
    requires Has(t, i, PrintedAttributes(attributes))
    requires var after := At(t, i + |PrintedAttributes(attributes)|); after == '>' || after == '/'
    ensures i <= |t|
    ensures AttributesGive(ParseAttributes(t, Skip(t, i, Whitespace), fl, done), attributes, done,
                           i + |PrintedAttributes(attributes)|)
    decreases |attributes|
  {
    hide *;
    HasEnds(t, i, PrintedAttributes(attributes));
    if attributes == [] {
      NoAttributes();
      AttributesEnd(t, i, fl, done);
      AttributesGiven(done, i);
    } else {
      var a, next := attributes[0], i + |PrintedAttribute(attributes[0])|;
      AttributesHead(attributes);
      HasConcat(t, i, PrintedAttribute(a), PrintedAttributes(attributes[1..]));
      if NulFree(a.value) {
        AttributesStep(t, i, a, fl, done);
        AttributesReread(t, next, attributes[1..], fl, done + [a]);
      } else {
        AttributesStop(t, i, a, fl, done);
      }
      AttributesJoin(ParseAttributes(t, Skip(t, i, Whitespace), fl, done), attributes, done, i + |PrintedAttributes(attributes)|);
    }
  }

  ghost predicate AttributesGive(r: AttributesResult, attributes: seq<Attribute>, done: seq<Attribute>, end: nat) {
    if NulFreeValues(attributes) then r == ParsedAttributes(done + attributes, end) else r.BadAttributes?
  }

  lemma NoAttributes()
    ensures PrintedAttributes([]) == []
  {
  }

  lemma AttributesGiven(done: seq<Attribute>, end: nat)
    ensures AttributesGive(ParsedAttributes(done, end), [], done, end)
  {
    assert done + [] == done;
  }

  lemma AttributesJoin(r: AttributesResult, attributes: seq<Attribute>, done: seq<Attribute>, end: nat)
    requires attributes != []
    requires if NulFree(attributes[0].value) then AttributesGive(r, attributes[1..], done + [attributes[0]], end) else r.BadAttributes?
    ensures AttributesGive(r, attributes, done, end)
  {
    DoneHead(done, attributes);
    assert forall k :: 0 <= k < |attributes| - 1 ==> attributes[1..][k] == attributes[k + 1];
  }

  lemma AttributesEnd(t: string, i: nat, fl: Flags, done: seq<Attribute>)
    requires i <= |t| && (At(t, i) == '>' || At(t, i) == '/')
    ensures ParseAttributes(t, Skip(t, i, Whitespace), fl, done) == ParsedAttributes(done, i)
  {
    SkipRun(t, i, i, Whitespace);
  }

  lemma DoneHead<T>(done: seq<T>, todo: seq<T>)
    requires todo != []
    ensures done + [todo[0]] + todo[1..] == done + todo
  {
  }

  lemma AttributesHead(attributes: seq<Attribute>)
    requires attributes != [] && AllNamed(attributes)
    ensures Named(attributes[0]) && AllNamed(attributes[1..])
    ensures PrintedAttributes(attributes) == PrintedAttribute(attributes[0]) + PrintedAttributes(attributes[1..])
  {
  }

  lemma AttributesStep(t: string, i: nat, a: Attribute, fl: Flags, done: seq<Attribute>)
    requires !fl.nonDestructive && Named(a) && NulFree(a.value) && Has(t, i, PrintedAttribute(a))
    ensures i + |PrintedAttribute(a)| <= |t|
    ensures ParseAttributes(t, Skip(t, i, Whitespace), fl, done)
         == ParseAttributes(t, Skip(t, i + |PrintedAttribute(a)|, Whitespace), fl, done + [a])
  {
    AttributeParses(t, i, a, fl);
    hide NulFree, Named, PrintedAttribute;
    SkipRun(t, i, i + 1, Whitespace);
  }

  lemma AttributesStop(t: string, i: nat, a: Attribute, fl: Flags, done: seq<Attribute>)
    requires Named(a) && !NulFree(a.value) && Has(t, i, PrintedAttribute(a))
    ensures i <= |t| && ParseAttributes(t, Skip(t, i, Whitespace), fl, done).BadAttributes?
  {
    AttributeFails(t, i, a, fl);
    hide NulFree, Named, PrintedAttribute;
    SkipRun(t, i, i + 1, Whitespace);
  }

  // ---- Single nodes ----

  lemma CDataParses(t: string, i: nat, n: Node, fl: Flags, indenting: bool, indent: nat)
    requires n.CData? && Writable(n) && Has(t, i, PrintedBody(n, indenting, indent))
    ensures At(t, i) == '<' && At(t, i + 1) == '!'
    ensures ParseNode(t, i + 1, fl) == ParsedNode(Some(n), i + |PrintedBody(n, indenting, indent)|)
  {
    HasConcat(t, i, "<![CDATA[" + n.text, "]]>");
    HasConcat(t, i, "<![CDATA[", n.text);
    CDataOpens(t, i);
    CDataEnds(t, i + 9, n.text);
  }

  lemma CDataOpens(t: string, i: nat)
    requires Has(t, i, "<![CDATA[")
    ensures At(t, i) == '<' && At(t, i + 1) == '!' && Has(t, i + 2, "[CDATA[") && !Has(t, i + 2, "--")
  {
    assert "<![CDATA[" == "<!" + "[CDATA[";
    HasConcat(t, i, "<!", "[CDATA[");
    HasAt(t, i, "<!", 0);
    HasAt(t, i, "<!", 1);
    HasAt(t, i + 2, "[CDATA[", 0);
    assert i + 4 <= |t| ==> t[i + 2..i + 4][0] == t[i + 2];
  }

  /** The end mark is found behind the text even when the text ends in brackets. */
  lemma CDataEnds(t: string, i: nat, text: string)
    requires NulFree(text) && forall k :: 0 <= k <= |text| ==> !Has(text, k, "]]>")
    requires Has(t, i, text) && Has(t, i + |text|, "]]>")
    ensures ParseCData(t, i) == ParsedNode(Some(CData(text)), i + |text| + 3)
  {
    var end := i + |text|;
    HasAt(t, end, "]]>", 0);
    HasAt(t, end, "]]>", 1);
    forall k | i <= k < end ensures !Has(t, k, "]]>") && t[k] != '\0' {
      HasAt(t, i, text, k - i);
      if k + 3 <= end {
        assert t[i..end][k - i..k - i + 3] == t[k..k + 3];
        assert !Has(text, k - i, "]]>");
      } else {
        assert k + 2 < |t| && t[k + 2] == ']' && t[k..k + 3][2] == t[k + 2];
      }
    }
    FindFirst(t, i, end, "]]>");
  }

  /** From offset `i` of its name on, the parser reads the opening of `n` and stops at `k`. */
  ghost predicate Opens(t: string, i: nat, n: Node, k: nat, fl: Flags) {
    && n.Element? && i + |n.name| <= |t| && n.name != []
    && NodeName.Test(n.name[0]) && n.name[0] != '!' && n.name[0] != '/' && At(t, i) == n.name[0]
    && Skip(t, i, NodeName) == i + |n.name| && t[i..i + |n.name|] == n.name
    && AttributesGive(ParseAttributes(t, Skip(t, i + |n.name|, Whitespace), fl, []), n.attributes, [], k)
  }

  lemma ElementOpens(t: string, i: nat, n: Node, fl: Flags)
    requires !fl.nonDestructive && n.Element? && Writable(n) && Has(t, i, OpenPart(n))
    requires At(t, i + |OpenPart(n)|) == '>' || At(t, i + |OpenPart(n)|) == '/'
    ensures At(t, i) == '<' && Opens(t, i + 1, n, i + |OpenPart(n)|, fl)
  {
    hide *;
    OpenParts(t, i, n);
    NameRun(t, i + 1, n.name, NodeName);
    AttributesReread(t, i + 1 + |n.name|, n.attributes, fl, []);
    OpensFromParts(t, i + 1, n, i + |OpenPart(n)|, fl);
  }

  lemma OpensFromParts(t: string, i: nat, n: Node, k: nat, fl: Flags)
    requires n.Element? && n.name != [] && All(n.name, NodeName) && n.name[0] != '!'
    requires i + |n.name| <= |t| && At(t, i) == n.name[0] && t[i..i + |n.name|] == n.name
    requires Skip(t, i, NodeName) == i + |n.name|
    requires AttributesGive(ParseAttributes(t, Skip(t, i + |n.name|, Whitespace), fl, []), n.attributes, [], k)
    ensures Opens(t, i, n, k, fl)
  {
    hide AttributesGive, Skip, ParseAttributes;
  }

  lemma OpenParts(t: string, i: nat, n: Node)
    requires n.Element? && Writable(n) && Has(t, i, OpenPart(n))
    requires var after := At(t, i + |OpenPart(n)|); after == '>' || after == '/'
    ensures At(t, i) == '<' && Has(t, i + 1, n.name) && i + 1 + |n.name| <= |t|
    ensures n.name != [] && All(n.name, NodeName) && n.name[0] != '!' && AllNamed(n.attributes)
    ensures Has(t, i + 1 + |n.name|, PrintedAttributes(n.attributes))
    ensures |OpenPart(n)| == 1 + |n.name| + |PrintedAttributes(n.attributes)|
    ensures !NodeName.Test(At(t, i + 1 + |n.name|))
  {
    hide WritableList, Has, PrintedAttributes, AllNamed, All;
    HasConcat(t, i, "<" + n.name, PrintedAttributes(n.attributes));
    HasConcat(t, i, "<", n.name);
    HasAt(t, i, "<", 0);
    HasEnds(t, i + 1, n.name);
    if n.attributes == [] {
      NoAttributes();
    } else {
      AfterName(t, i + 1 + |n.name|, n.attributes);
    }
  }

  lemma AfterName(t: string, i: nat, attributes: seq<Attribute>)
    requires attributes != [] && Has(t, i, PrintedAttributes(attributes))
    ensures At(t, i) == ' '
  {
    HasConcat(t, i, PrintedAttribute(attributes[0]), PrintedAttributes(attributes[1..]));
    AttributeParts(t, i, attributes[0]);
  }

  /** What parsing a node must give. */
  ghost predicate NodeGives(r: NodeResult, n: Option<Node>, end: nat) {
    match n
    case None => r.BadNode?
    case Some(_) => r == ParsedNode(n, end)
  }

  lemma ElementFails(t: string, i: nat, n: Node, k: nat, fl: Flags)
    requires Opens(t, i, n, k, fl) && !NulFreeValues(n.attributes)
    ensures ParseNode(t, i, fl).BadNode? && At(t, i) != '/'
  {
    hide ParseAttributes, NulFreeValues;
    assert ParseOpening(t, i, fl).BadOpening?;
  }

  lemma ElementClosedAtOnce(t: string, i: nat, n: Node, k: nat, fl: Flags)
    requires Opens(t, i, n, k, fl) && NulFreeValues(n.attributes) && n.children == [] && n.value == []
    requires At(t, k) == '/' && At(t, k + 1) == '>'
    ensures ParseNode(t, i, fl) == ParsedNode(Some(n), k + 2) && At(t, i) != '/'
  {
    hide ParseAttributes, NulFreeValues;
    assert [] + n.attributes == n.attributes;
    assert ParseBody(t, k, fl, n.name) == ParsedContents([], [], k + 2);
    assert ParseElement(t, i, fl) == ParsedNode(Some(n), k + 2);
  }

  lemma ElementWithContents(t: string, i: nat, n: Node, k: nat, fl: Flags)
    requires Opens(t, i, n, k, fl) && NulFreeValues(n.attributes) && At(t, k) == '>'
    ensures At(t, i) != '/' && k < |t|
    ensures ParseNode(t, i, fl)
         == match ParseContents(t, k + 1, fl, n.name, [], [])
            case BadContents(e) => BadNode(e)
            case ParsedContents(value, children, next) => ParsedNode(Some(Element(n.name, value, n.attributes, children)), next)
  {
    hide ParseAttributes, NulFreeValues, ParseContents;
    assert [] + n.attributes == n.attributes;
    assert ParseOpening(t, i, fl) == Opening(i + |n.name|, n.attributes, k);
    hide ParseOpening;
    assert ParseBody(t, k, fl, n.name) == ParseContents(t, k + 1, fl, n.name, [], []);
    hide ParseBody;
    assert ParseNode(t, i, fl) == ParseElement(t, i, fl);
  }

  // ---- Text between tags ----

  /** The element value after all of `children` have been seen. */
  function AdoptAll(value: string, children: seq<Node>): string
    decreases children
  {
    if children == [] then value
    else AdoptAll(if children[0].Data? then Adopt(value, children[0].text) else value, children[1..])
  }

  lemma {:induction false} AdoptKeeps(value: string, children: seq<Node>)
    requires !Unset(value)
    ensures AdoptAll(value, children) == value
  {
    if children != [] {
      AdoptKeeps(value, children[1..]);
    }
  }

  lemma {:induction false} AdoptsFirst(children: seq<Node>)
    requires NormalChildren(children)
    ensures AdoptAll([], children) == ElementValue(children)
  {
    if children != [] {
      NormalTail(children);
      if children[0].Data? {
        assert Normal(children[0]);
        AdoptKeeps(children[0].text, children[1..]);
      } else {
        AdoptsFirst(children[1..]);
      }
    }
  }

  lemma {:induction false} AdoptConcat(value: string, a: seq<Node>, b: seq<Node>)
    ensures AdoptAll(value, a + b) == AdoptAll(AdoptAll(value, a), b)
    decreases a
  {
    if a == [] {
      assert a + b == b;
    } else {
      assert (a + b)[1..] == a[1..] + b;
      AdoptConcat(if a[0].Data? then Adopt(value, a[0].text) else value, a[1..], b);
    }
  }

  lemma WhiteSkips(t: string, h: nat, s: string)
    requires Has(t, h, s) && White(s) && !IsSpace(At(t, h + |s|))
    ensures h <= |t| && Skip(t, h, Whitespace) == h + |s|
  {
    assert All(s, Whitespace);
    SkipWord(t, h, s, Whitespace);
  }

  lemma {:induction false} EscapeWhite(s: string)
    requires White(s)
    ensures Escape(s, '\0') == s
  {
    if s != [] {
      assert IsSpace(s[0]);
      EscapeWhite(s[1..]);
      EscapeHead(s, '\0');
    }
  }

  /** Escaped text up to a tag, and the markup behind it. */
  lemma TextParses(t: string, h: nat, text: string, fl: Flags, name: string, value: string, done: seq<Node>)
    requires !fl.nonDestructive && Has(t, h, Escape(text, '\0')) && At(t, h + |Escape(text, '\0')|) == '<'
    ensures h <= |t| && h + |Escape(text, '\0')| < |t|
    ensures match Kept(text)
            case None => ParseContents(t, h, fl, name, value, done).BadContents?
            case Some(kept) =>
              ParseContents(t, h, fl, name, value, done)
              == ParseMarkup(t, h + |Escape(text, '\0')|, fl, name, AdoptAll(value, kept), done + kept)
  {
    if !NulFree(text) {
      NulTextFails(t, h, text, fl, name, value, done);
    } else if White(text) {
      EscapeWhite(text);
      WhiteSkips(t, h, text);
      assert done + [] == done;
    } else {
      DataParses(t, h, fl, name, value, done, text);
      assert AdoptAll(value, [Data(text)]) == Adopt(value, text);
    }
    hide *;
  }

  lemma NulTextFails(t: string, h: nat, text: string, fl: Flags, name: string, value: string, done: seq<Node>)
    requires !NulFree(text) && Has(t, h, Escape(text, '\0'))
    ensures h <= |t| && ParseContents(t, h, fl, name, value, done).BadContents?
  {
    NulStops(t, h, text, CharData, '\0');
    ScanEnds(t, h, CharData, fl);
    var j, k := Skip(t, h, Whitespace), Skip(t, h, CharData);
    assert !Whitespace.Test(At(t, k)) && j <= k;
    assert At(t, j) != '<' by {
      if j < k {
        assert CharData.Test(t[j]);
      }
    }
    hide Skip, ScanValue, Escape, NulFree;
  }

  /** Data up to the next tag. */
  lemma DataParses(t: string, i: nat, fl: Flags, name: string, value: string, children: seq<Node>, text: string)
    requires !fl.nonDestructive && NormalText(text)
    requires Has(t, i, Escape(text, '\0')) && At(t, i + |Escape(text, '\0')|) == '<'
    ensures i + |Escape(text, '\0')| < |t|
    ensures ParseContents(t, i, fl, name, value, children)
         == ParseMarkup(t, i + |Escape(text, '\0')|, fl, name, Adopt(value, text), children + [Data(text)])
  {
    hide Escape, White, Has, ScanValue, ParseMarkup, Skip;
    ScanEscaped(t, i, text, CharData, '\0', fl);
    DataStarts(t, i, text);
  }

  /** Behind leading white space, escaped text shows neither a tag nor the end of the input. */
  lemma DataStarts(t: string, i: nat, text: string)
    requires NormalText(text) && Has(t, i, Escape(text, '\0'))
    ensures var c := At(t, Skip(t, i, Whitespace)); c != '<' && c != '\0'
  {
    var e := Escape(text, '\0');
    EscapeHidesStop(text, CharData, '\0');
    var k :| 0 <= k < |text| && !IsSpace(text[k]);
    var m := EscapeShowsInk(text, k);
    HasAt(t, i, e, m);
    var j := Skip(t, i, Whitespace);
    assert j <= i + m;
    HasAt(t, i, e, j - i);
  }

  /** Escaping leaves some character that is no white space. */
  lemma {:induction false} EscapeShowsInk(text: string, k: nat) returns (m: nat)
    requires k < |text| && !IsSpace(text[k])
    ensures m < |Escape(text, '\0')| && !IsSpace(Escape(text, '\0')[m])
    decreases k
  {
    if k == 0 {
      m := 0;
    } else {
      m := EscapeShowsInk(text[1..], k - 1);
      m := |EscapeChar(text[0], '\0')| + m;
    }
  }

  lemma ClosingParts(t: string, i: nat, name: string)
    requires Has(t, i, ClosingTag(name))
    ensures |ClosingTag(name)| == |name| + 3 && i + |name| + 3 <= |t|
    ensures At(t, i) == '<' && At(t, i + 1) == '/' && Has(t, i + 2, name) && At(t, i + 2 + |name|) == '>'
  {
    HasConcat(t, i, "</" + name, ">");
    HasConcat(t, i, "</", name);
    HasAt(t, i, "</", 0);
    HasAt(t, i, "</", 1);
    HasAt(t, i + 2 + |name|, ">", 0);
    HasEnds(t, i, ClosingTag(name));
  }

  lemma ClosingTagParses(t: string, i: nat, fl: Flags, name: string)
    requires name != [] && All(name, NodeName) && Has(t, i, name) && At(t, i + |name|) == '>' && i + |name| < |t|
    ensures ParseClosingTag(t, i, fl, name) == Closed(i + |name| + 1)
  {
    var nameEnd := i + |name|;
    SkipWord(t, i, name, NodeName);
    SkipRun(t, nameEnd, nameEnd, Whitespace);
    hide All, Skip;
  }

  lemma ClosingMarkup(t: string, i: nat, fl: Flags, name: string, value: string, children: seq<Node>)
    requires name != [] && All(name, NodeName) && Has(t, i, ClosingTag(name))
    ensures At(t, i) == '<' && i < |t|
    ensures ParseMarkup(t, i, fl, name, value, children) == ParsedContents(value, children, i + |ClosingTag(name)|)
  {
    ClosingParts(t, i, name);
    ClosingTagParses(t, i + 2, fl, name);
    hide Has, ClosingTag, ParseClosingTag, All, Skip;
  }

  // ---- Whole trees ----

  /** The printed children with the closing tag behind them. */
  function ContentsText(children: seq<Node>, name: string, indenting: bool, indent: nat): string {
    PrintedChildren(children, indenting, indent + 1) + (Lead(indenting, indent) + ClosingTag(name))
  }

  /** At `h` stands the escaped text `pending`, and then the printed children with the closing tag. */
  ghost predicate Stands(t: string, h: nat, pending: string, children: seq<Node>, name: string, indenting: bool, indent: nat) {
    Has(t, h, Escape(pending, '\0')) && Has(t, h + |Escape(pending, '\0')|, ContentsText(children, name, indenting, indent))
  }

  /** Where the closing tag ends. */
  ghost function End(h: nat, pending: string, children: seq<Node>, name: string, indenting: bool, indent: nat): nat {
    h + |Escape(pending, '\0')| + |ContentsText(children, name, indenting, indent)|
  }

  /** What parsing contents must give. */
  ghost predicate ContentsGive(r: ContentsResult, children: Option<seq<Node>>, value: string, done: seq<Node>, end: nat) {
    match children
    case None => r.BadContents?
    case Some(list) => r == ParsedContents(AdoptAll(value, list), done + list, end)
  }

  /** White space behind escaped text is escaped text, too. */
  lemma PendingGrows(t: string, h: nat, pending: string, white: string)
    requires White(white)
    ensures Escape(pending + white, '\0') == Escape(pending, '\0') + white
    ensures Has(t, h, Escape(pending + white, '\0'))
            <==> Has(t, h, Escape(pending, '\0')) && Has(t, h + |Escape(pending, '\0')|, white)
  {
    EscapeConcat(pending, white, '\0');
    EscapeWhite(white);
    HasConcat(t, h, Escape(pending, '\0'), white);
  }

  lemma ContentsEnd(t: string, h: nat, pending: string, fl: Flags, name: string, value: string, done: seq<Node>,
                    indenting: bool, indent: nat)
    requires !fl.nonDestructive && name != [] && All(name, NodeName)
    requires Stands(t, h, pending, [], name, indenting, indent)
    ensures h <= |t| && ContentsGive(ParseContents(t, h, fl, name, value, done), RereadAll([], indenting, indent, pending),
                                     value, done, End(h, pending, [], name, indenting, indent))
  {
    hide *;
    var text := pending + Lead(indenting, indent);
    var m := h + |Escape(text, '\0')|;
    EndStands(t, h, pending, name, indenting, indent);
    ClosingMarkup(t, m, fl, name, value, done);
    TextParses(t, h, text, fl, name, value, done);
    if Kept(text).Some? {
      ClosingMarkup(t, m, fl, name, AdoptAll(value, Kept(text).value), done + Kept(text).value);
    }
    EndGives(ParseContents(t, h, fl, name, value, done), pending, value, done, indenting, indent,
             End(h, pending, [], name, indenting, indent));
  }

  lemma EndStands(t: string, h: nat, pending: string, name: string, indenting: bool, indent: nat)
    requires Stands(t, h, pending, [], name, indenting, indent)
    ensures var text := pending + Lead(indenting, indent);
            && Has(t, h, Escape(text, '\0')) && Has(t, h + |Escape(text, '\0')|, ClosingTag(name))
            && End(h, pending, [], name, indenting, indent) == h + |Escape(text, '\0')| + |ClosingTag(name)|
  {
    hide Escape, Has, ClosingTag, White;
    var lead, close := Lead(indenting, indent), ClosingTag(name);
    IndentationIsWhite(indenting, indent);
    PendingGrows(t, h, pending, lead);
    assert ContentsText([], name, indenting, indent) == lead + close;
    HasConcat(t, h + |Escape(pending, '\0')|, lead, close);
  }

  lemma EndGives(r: ContentsResult, pending: string, value: string, done: seq<Node>, indenting: bool, indent: nat, end: nat)
    requires match Kept(pending + Lead(indenting, indent))
             case None => r.BadContents?
             case Some(kept) => r == ParsedContents(AdoptAll(value, kept), done + kept, end)
    ensures ContentsGive(r, RereadAll([], indenting, indent, pending), value, done, end)
  {
  }

  /** A printed text, with its indentation, only adds to what is pending. */
  lemma DataPends(t: string, h: nat, pending: string, children: seq<Node>, name: string, indenting: bool, indent: nat)
    returns (pending': string)
    requires children != [] && children[0].Data? && Stands(t, h, pending, children, name, indenting, indent)
    ensures Stands(t, h, pending', children[1..], name, indenting, indent)
    ensures End(h, pending', children[1..], name, indenting, indent) == End(h, pending, children, name, indenting, indent)
    ensures RereadAll(children, indenting, indent, pending) == RereadAll(children[1..], indenting, indent, pending')
  {
    var lead, text, brk := Lead(indenting, indent + 1), children[0].text, LineBreak(indenting);
    pending' := pending + lead + text + brk;
    assert PrintedBody(children[0], indenting, indent + 1) == Escape(text, '\0');
    FirstChildSplit(children, name, indenting, indent);
    hide *;
    IndentationIsWhite(indenting, indent + 1);
    TextStands(t, h, pending, lead, text, brk, ContentsText(children[1..], name, indenting, indent));
    DataStands(t, h, pending, pending', children, name, indenting, indent);
    DataReread(pending, children, indenting, indent);
  }

  lemma DataReread(pending: string, children: seq<Node>, indenting: bool, indent: nat)
    requires children != [] && children[0].Data?
    ensures RereadAll(children, indenting, indent, pending)
         == RereadAll(children[1..], indenting, indent,
                      pending + Lead(indenting, indent + 1) + children[0].text + LineBreak(indenting))
  {
  }

  lemma DataStands(t: string, h: nat, pending: string, pending': string, children: seq<Node>, name: string,
                   indenting: bool, indent: nat)
    requires children != [] && Stands(t, h, pending, children, name, indenting, indent)
    requires Has(t, h, Escape(pending, '\0') + ContentsText(children, name, indenting, indent)) ==>
               Has(t, h, Escape(pending', '\0')) &&
               Has(t, h + |Escape(pending', '\0')|, ContentsText(children[1..], name, indenting, indent))
    requires |Escape(pending', '\0')| + |ContentsText(children[1..], name, indenting, indent)|
          == |Escape(pending, '\0')| + |ContentsText(children, name, indenting, indent)|
    ensures Stands(t, h, pending', children[1..], name, indenting, indent)
    ensures End(h, pending', children[1..], name, indenting, indent) == End(h, pending, children, name, indenting, indent)
  {
    hide Escape, ContentsText, Has;
    HasConcat(t, h, Escape(pending, '\0'), ContentsText(children, name, indenting, indent));
  }

  lemma TextStands(t: string, h: nat, pending: string, lead: string, text: string, brk: string, rest: string)
    requires White(lead) && White(brk)
    ensures var e, e' := Escape(pending, '\0'), Escape(pending + lead + text + brk, '\0');
            && e + (lead + Escape(text, '\0') + brk + rest) == e' + rest
            && (Has(t, h, e + (lead + Escape(text, '\0') + brk + rest)) ==> Has(t, h, e') && Has(t, h + |e'|, rest))
  {
    hide Escape, Has, White;
    EscapeConcat(pending + lead + text, brk, '\0');
    EscapeConcat(pending + lead, text, '\0');
    EscapeConcat(pending, lead, '\0');
    EscapeWhite(lead);
    EscapeWhite(brk);
    Regroup(Escape(pending, '\0'), lead, Escape(text, '\0'), brk, rest);
    HasConcat(t, h, Escape(pending + lead + text + brk, '\0'), rest);
  }

  lemma Regroup(a: string, b: string, c: string, d: string, e: string)
    ensures a + (b + c + d + e) == a + b + c + d + e
  {
  }

  lemma FirstChildSplit(children: seq<Node>, name: string, indenting: bool, indent: nat)
    requires children != []
    ensures ContentsText(children, name, indenting, indent)
         == Lead(indenting, indent + 1) + PrintedBody(children[0], indenting, indent + 1) + LineBreak(indenting)
            + ContentsText(children[1..], name, indenting, indent)
  {
    var first, rest := PrintedNode(children[0], indenting, indent + 1), PrintedChildren(children[1..], indenting, indent + 1);
    assert PrintedChildren(children, indenting, indent + 1) == first + rest;
    hide PrintedBody, PrintedChildren;
    ConcatAssoc(first, rest, Lead(indenting, indent) + ClosingTag(name));
  }

  /** Where the first child stands, if it is not text, with the text in front of it and the others behind. */
  lemma ChildStands(t: string, h: nat, pending: string, children: seq<Node>, name: string, indenting: bool, indent: nat)
    requires children != [] && Stands(t, h, pending, children, name, indenting, indent)
    ensures var text := pending + Lead(indenting, indent + 1);
            var m := h + |Escape(text, '\0')|;
            var b := m + |PrintedBody(children[0], indenting, indent + 1)|;
            && Has(t, h, Escape(text, '\0')) && Has(t, m, PrintedBody(children[0], indenting, indent + 1)) && b <= |t|
            && Stands(t, b, LineBreak(indenting), children[1..], name, indenting, indent)
            && End(b, LineBreak(indenting), children[1..], name, indenting, indent) == End(h, pending, children, name, indenting, indent)
  {
    hide *;
    var lead, body, brk := Lead(indenting, indent + 1), PrintedBody(children[0], indenting, indent + 1), LineBreak(indenting);
    var rest := ContentsText(children[1..], name, indenting, indent);
    var m := h + |Escape(pending, '\0')|;
    StandsHas(t, h, pending, children, name, indenting, indent);
    IndentationIsWhite(indenting, indent + 1);
    FirstChildSplit(children, name, indenting, indent);
    FourPieces(t, m, lead, body, brk, rest);
    PendingGrows(t, h, pending, lead);
    EscapeWhite(brk);
    StandsThere(t, m + |lead| + |body|, brk, children[1..], name, indenting, indent);
  }

  lemma FourPieces(t: string, i: nat, a: string, b: string, c: string, d: string)
    requires Has(t, i, a + b + c + d)
    ensures Has(t, i, a) && Has(t, i + |a|, b) && Has(t, i + |a| + |b|, c) && Has(t, i + |a| + |b| + |c|, d)
    ensures i + |a| + |b| <= |t|
  {
    hide *;
    HasConcat(t, i, a + b + c, d);
    HasConcat(t, i, a + b, c);
    HasConcat(t, i, a, b);
    HasEnds(t, i + |a|, b);
  }

  lemma StandsHas(t: string, h: nat, pending: string, children: seq<Node>, name: string, indenting: bool, indent: nat)
    requires Stands(t, h, pending, children, name, indenting, indent)
    ensures Has(t, h, Escape(pending, '\0'))
    ensures Has(t, h + |Escape(pending, '\0')|, ContentsText(children, name, indenting, indent))
    ensures End(h, pending, children, name, indenting, indent)
         == h + |Escape(pending, '\0')| + |ContentsText(children, name, indenting, indent)|
  {
  }

  lemma StandsThere(t: string, h: nat, pending: string, children: seq<Node>, name: string, indenting: bool, indent: nat)
    requires Has(t, h, Escape(pending, '\0'))
    requires Has(t, h + |Escape(pending, '\0')|, ContentsText(children, name, indenting, indent))
    ensures Stands(t, h, pending, children, name, indenting, indent)
    ensures End(h, pending, children, name, indenting, indent)
         == h + |Escape(pending, '\0')| + |ContentsText(children, name, indenting, indent)|
  {
  }

  /** A printed node that is not text, read from behind its `<`. */
  lemma {:induction false} NodeRereads(t: string, i: nat, n: Node, fl: Flags, indenting: bool, indent: nat)
    requires !fl.nonDestructive && Writable(n) && !n.Data?
    requires Has(t, i, PrintedBody(n, indenting, indent))
    ensures At(t, i) == '<' && At(t, i + 1) != '/' && i + 1 <= |t|
    ensures NodeGives(ParseNode(t, i + 1, fl), Reread(n, indenting, indent), i + |PrintedBody(n, indenting, indent)|)
    decreases n, 1
  {
    if n.CData? {
      CDataParses(t, i, n, fl, indenting, indent);
    } else if n.value == [] && n.children == [] {
      ChildlessRereads(t, i, n, fl, indenting, indent);
    } else {
      ElementRereads(t, i, n, fl, indenting, indent);
    }
  }

  lemma ChildlessRereads(t: string, i: nat, n: Node, fl: Flags, indenting: bool, indent: nat)
    requires !fl.nonDestructive && n.Element? && Writable(n) && n.children == [] && n.value == []
    requires Has(t, i, PrintedBody(n, indenting, indent))
    ensures At(t, i) == '<' && At(t, i + 1) != '/' && i + 1 <= |t|
    ensures NodeGives(ParseNode(t, i + 1, fl), Reread(n, indenting, indent), i + |PrintedBody(n, indenting, indent)|)
  {
    hide *;
    var k := i + |OpenPart(n)|;
    ChildlessStands(t, i, n, indenting, indent);
    ElementOpens(t, i, n, fl);
    if NulFreeValues(n.attributes) {
      ElementClosedAtOnce(t, i + 1, n, k, fl);
      ChildlessReread(n, indenting, indent);
      SuccessGives(n, k + 2);
    } else {
      ElementFails(t, i + 1, n, k, fl);
      NulRereads(n, indenting, indent);
      FailureGives(ParseNode(t, i + 1, fl), i + |PrintedBody(n, indenting, indent)|);
    }
  }

  lemma ChildlessStands(t: string, i: nat, n: Node, indenting: bool, indent: nat)
    requires n.Element? && n.children == [] && n.value == [] && Has(t, i, PrintedBody(n, indenting, indent))
    ensures var k := i + |OpenPart(n)|;
            && Has(t, i, OpenPart(n)) && At(t, k) == '/' && At(t, k + 1) == '>' && i + 1 <= |t|
            && i + |PrintedBody(n, indenting, indent)| == k + 2
  {
    var k := i + |OpenPart(n)|;
    assert PrintedBody(n, indenting, indent) == OpenPart(n) + "/>";
    hide PrintedBody, OpenPart, Has;
    HasConcat(t, i, OpenPart(n), "/>");
    HasEnds(t, k, "/>");
    HasAt(t, k, "/>", 0);
    HasAt(t, k, "/>", 1);
  }

  lemma ChildlessReread(n: Node, indenting: bool, indent: nat)
    requires n.Element? && n.children == [] && n.value == [] && NulFreeValues(n.attributes)
    ensures Reread(n, indenting, indent) == Some(n)
  {
  }

  lemma SuccessGives(n: Node, end: nat)
    ensures NodeGives(ParsedNode(Some(n), end), Some(n), end)
  {
  }

  lemma {:induction false} ElementRereads(t: string, i: nat, n: Node, fl: Flags, indenting: bool, indent: nat)
    requires !fl.nonDestructive && n.Element? && Writable(n) && (n.value != [] || n.children != [])
    requires Has(t, i, PrintedBody(n, indenting, indent))
    ensures At(t, i) == '<' && At(t, i + 1) != '/' && i + 1 <= |t|
    ensures NodeGives(ParseNode(t, i + 1, fl), Reread(n, indenting, indent), i + |PrintedBody(n, indenting, indent)|)
    decreases n, 0
  {
    hide *;
    var k, nested, start := i + |OpenPart(n)|, Nested(n, indenting), Start(n, indenting);
    InsideStands(t, i, n, indenting, indent);
    ElementOpens(t, i, n, fl);
    if NulFreeValues(n.attributes) {
      WritableParts(n);
      ElementWithContents(t, i + 1, n, k, fl);
      ContentsReread(t, k + 1, start, n.children, fl, n.name, [], [], nested, indent);
      RereadAllIsNormal(n.children, nested, indent, start);
      ElementGives(t, i + 1, n, k, fl, indenting, indent, End(k + 1, start, n.children, n.name, nested, indent));
    } else {
      ElementFails(t, i + 1, n, k, fl);
      NulRereads(n, indenting, indent);
      FailureGives(ParseNode(t, i + 1, fl), i + |PrintedBody(n, indenting, indent)|);
    }
  }

  lemma WritableParts(n: Node)
    requires n.Element? && Writable(n)
    ensures n.name != [] && All(n.name, NodeName) && WritableList(n.children)
  {
  }

  lemma NulRereads(n: Node, indenting: bool, indent: nat)
    requires n.Element? && !NulFreeValues(n.attributes)
    ensures Reread(n, indenting, indent) == None
  {
  }

  lemma FailureGives(r: NodeResult, end: nat)
    requires r.BadNode?
    ensures NodeGives(r, None, end)
  {
  }

  lemma ElementGives(t: string, i: nat, n: Node, k: nat, fl: Flags, indenting: bool, indent: nat, end: nat)
    requires i <= |t| && k < |t| && n.Element? && NulFreeValues(n.attributes) && (n.value != [] || n.children != [])
    requires ParseNode(t, i, fl)
          == match ParseContents(t, k + 1, fl, n.name, [], [])
             case BadContents(e) => BadNode(e)
             case ParsedContents(value, children, next) => ParsedNode(Some(Element(n.name, value, n.attributes, children)), next)
    requires var list := RereadAll(n.children, Nested(n, indenting), indent, Start(n, indenting));
             && ContentsGive(ParseContents(t, k + 1, fl, n.name, [], []), list, [], [], end)
             && (list.Some? ==> NormalChildren(list.value))
    ensures NodeGives(ParseNode(t, i, fl), Reread(n, indenting, indent), end)
  {
    hide ParseNode, ParseContents, RereadAll, NormalChildren, NulFreeValues;
    var list := RereadAll(n.children, Nested(n, indenting), indent, Start(n, indenting));
    if list.Some? {
      AdoptsFirst(list.value);
      assert [] + list.value == list.value;
    }
  }

  /** Where the contents of a printed element stand. */
  lemma InsideStands(t: string, i: nat, n: Node, indenting: bool, indent: nat)
    requires n.Element? && (n.value != [] || n.children != []) && Has(t, i, PrintedBody(n, indenting, indent))
    ensures var k, nested, start := i + |OpenPart(n)|, Nested(n, indenting), Start(n, indenting);
            && Has(t, i, OpenPart(n)) && At(t, k) == '>' && Stands(t, k + 1, start, n.children, n.name, nested, indent)
            && End(k + 1, start, n.children, n.name, nested, indent) == i + |PrintedBody(n, indenting, indent)|
            && i + 1 <= |t|
  {
    hide *;
    var k, nested, start := i + |OpenPart(n)|, Nested(n, indenting), Start(n, indenting);
    InsideText(n, indenting, indent);
    BehindBracket(t, i, OpenPart(n), Escape(start, '\0'), ContentsText(n.children, n.name, nested, indent));
    StandsThere(t, k + 1, start, n.children, n.name, nested, indent);
  }

  lemma BehindBracket(t: string, i: nat, a: string, b: string, c: string)
    requires Has(t, i, a + (">" + (b + c)))
    ensures Has(t, i, a) && At(t, i + |a|) == '>' && Has(t, i + |a| + 1, b) && Has(t, i + |a| + 1 + |b|, c) && i + 1 <= |t|
  {
    hide *;
    var k := i + |a|;
    HasConcat(t, i, a, ">" + (b + c));
    HasConcat(t, k, ">", b + c);
    HasConcat(t, k + 1, b, c);
    HasAt(t, k, ">", 0);
    HasEnds(t, k, ">");
  }

  lemma InsideText(n: Node, indenting: bool, indent: nat)
    requires n.Element? && (n.value != [] || n.children != [])
    ensures PrintedBody(n, indenting, indent)
         == OpenPart(n) + (">" + (Escape(Start(n, indenting), '\0')
                                  + ContentsText(n.children, n.name, Nested(n, indenting), indent)))
  {
    var nested := Nested(n, indenting);
    if n.children == [] {
      NoContents(n.name, indent);
    } else if SoleData(n.children) {
      SoleContents(n.children, n.name, indent);
    } else {
      NestedContents(n, indenting, indent);
    }
    hide ContentsText, Escape, PrintedNode, PrintedChildren, ClosingTag;
    if n.children != [] {
      StartsPlainly(n, indenting);
    }
    NothingBefore(ContentsText(n.children, n.name, nested, indent));
  }

  lemma StartsPlainly(n: Node, indenting: bool)
    requires n.Element? && n.children != []
    ensures Escape(Start(n, indenting), '\0') == LineBreak(Nested(n, indenting))
  {
    IndentationIsWhite(Nested(n, indenting), 0);
    EscapeWhite(LineBreak(Nested(n, indenting)));
  }

  lemma NoContents(name: string, indent: nat)
    ensures ContentsText([], name, false, indent) == ClosingTag(name)
  {
    assert [] + ([] + ClosingTag(name)) == ClosingTag(name);
  }

  lemma SoleContents(children: seq<Node>, name: string, indent: nat)
    requires SoleData(children)
    ensures ContentsText(children, name, false, indent) == Escape(children[0].text, '\0') + ClosingTag(name)
  {
    hide PrintedNode, Escape;
    SoleDataText(children[0], indent);
    NothingBefore(ClosingTag(name));
    NothingBehind(PrintedNode(children[0], false, indent + 1));
    assert PrintedChildren(children, false, indent + 1) == PrintedNode(children[0], false, indent + 1) + [];
  }

  lemma NothingBefore(s: string)
    ensures [] + s == s
  {
  }

  lemma NothingBehind(s: string)
    ensures s + [] == s
  {
  }

  lemma NestedContents(n: Node, indenting: bool, indent: nat)
    requires n.Element? && n.children != [] && !SoleData(n.children)
    ensures PrintedInside(n.value, n.children, indenting, indent) + ClosingTag(n.name)
         == LineBreak(indenting) + ContentsText(n.children, n.name, indenting, indent)
  {
    hide PrintedChildren;
    NestedText(LineBreak(indenting), PrintedChildren(n.children, indenting, indent + 1), Lead(indenting, indent), ClosingTag(n.name));
  }

  lemma SoleDataText(n: Node, indent: nat)
    requires n.Data?
    ensures PrintedNode(n, false, indent + 1) == Escape(n.text, '\0')
  {
    assert [] + Escape(n.text, '\0') + [] == Escape(n.text, '\0');
  }

  lemma NestedText(a: string, b: string, c: string, d: string)
    ensures a + (b + c) + d == a + (b + (c + d))
  {
  }

  /** The printed children and the closing tag, behind text that has not been read yet. */
  lemma {:induction false} ContentsReread(t: string, h: nat, pending: string, children: seq<Node>, fl: Flags,
                                          name: string, value: string, done: seq<Node>, indenting: bool, indent: nat)
    requires !fl.nonDestructive && WritableList(children) && name != [] && All(name, NodeName)
    requires Stands(t, h, pending, children, name, indenting, indent)
    ensures h <= |t|
    ensures ContentsGive(ParseContents(t, h, fl, name, value, done), RereadAll(children, indenting, indent, pending),
                         value, done, End(h, pending, children, name, indenting, indent))
    decreases children, 1
  {
    hide *;
    if children == [] {
      ContentsEnd(t, h, pending, fl, name, value, done, indenting, indent);
    } else if children[0].Data? {
      var pending' := DataPends(t, h, pending, children, name, indenting, indent);
      WritableTail(children);
      ContentsReread(t, h, pending', children[1..], fl, name, value, done, indenting, indent);
    } else {
      WritableTail(children);
      ChildStands(t, h, pending, children, name, indenting, indent);
      var text := pending + Lead(indenting, indent + 1);
      var m := h + |Escape(text, '\0')|;
      var b := m + |PrintedBody(children[0], indenting, indent + 1)|;
      NodeRereads(t, m, children[0], fl, indenting, indent + 1);
      TextParses(t, h, text, fl, name, value, done);
      var n := Reread(children[0], indenting, indent + 1);
      if Kept(text).Some? && n.Some? {
        ContentsReread(t, b, LineBreak(indenting), children[1..], fl, name, AdoptAll(value, Kept(text).value),
                       done + Kept(text).value + [n.value], indenting, indent);
      }
      RereadChild(n, children, indenting, indent);
      ChildGives(t, h, m, b, pending, children, fl, name, value, done, indenting, indent,
                 End(h, pending, children, name, indenting, indent));
    }
  }

  lemma WritableTail(children: seq<Node>)
    requires children != [] && WritableList(children)
    ensures Writable(children[0]) && WritableList(children[1..])
  {
  }

  lemma RereadChild(n: Option<Node>, children: seq<Node>, indenting: bool, indent: nat)
    requires children != [] && !children[0].Data? && n == Reread(children[0], indenting, indent + 1)
    ensures n.Some? ==> !n.value.Data?
  {
  }

  /** Text, a child and the rest make up the contents. */
  lemma ChildGives(t: string, h: nat, m: nat, b: nat, pending: string, children: seq<Node>, fl: Flags, name: string,
                   value: string, done: seq<Node>, indenting: bool, indent: nat, end: nat)
    requires children != [] && !children[0].Data? && h <= |t| && m < |t| && b <= |t| && At(t, m + 1) != '/'
    requires match Kept(pending + Lead(indenting, indent + 1))
             case None => ParseContents(t, h, fl, name, value, done).BadContents?
             case Some(kept) =>
               ParseContents(t, h, fl, name, value, done) == ParseMarkup(t, m, fl, name, AdoptAll(value, kept), done + kept)
    requires NodeGives(ParseNode(t, m + 1, fl), Reread(children[0], indenting, indent + 1), b)
    requires var kept, n := Kept(pending + Lead(indenting, indent + 1)), Reread(children[0], indenting, indent + 1);
             && (n.Some? ==> !n.value.Data?)
             && (kept.Some? && n.Some? ==>
                   ContentsGive(ParseContents(t, b, fl, name, AdoptAll(value, kept.value), done + kept.value + [n.value]),
                                RereadAll(children[1..], indenting, indent, LineBreak(indenting)),
                                AdoptAll(value, kept.value), done + kept.value + [n.value], end))
    ensures ContentsGive(ParseContents(t, h, fl, name, value, done), RereadAll(children, indenting, indent, pending), value, done, end)
  {
    hide ParseContents, ParseNode, Reread, Kept, Lead, LineBreak;
    var kept, n := Kept(pending + Lead(indenting, indent + 1)), Reread(children[0], indenting, indent + 1);
    var rest := RereadAll(children[1..], indenting, indent, LineBreak(indenting));
    if kept.Some? && n.Some? && rest.Some? {
      AdoptThrough(value, kept.value, n.value, rest.value);
      Regrouped(done, kept.value, [n.value], rest.value);
    }
  }

  lemma AdoptThrough(value: string, a: seq<Node>, n: Node, b: seq<Node>)
    requires !n.Data?
    ensures AdoptAll(value, a + [n] + b) == AdoptAll(AdoptAll(value, a), b)
  {
    AdoptConcat(value, a + [n], b);
    AdoptConcat(value, a, [n]);
  }

  lemma Regrouped<T>(a: seq<T>, b: seq<T>, c: seq<T>, d: seq<T>)
    ensures a + b + c + d == a + (b + c + d)
  {
  }

  // ---- Documents ----

  /** At `h` stands white space, and then the rest of a printed document. */
  ghost predicate DocumentStands(t: string, h: nat, white: string, children: seq<Node>, indenting: bool) {
    && White(white) && Has(t, h, white)
    && Has(t, h + |white|, PrintedDocument(children, indenting))
    && h + |white| + |PrintedDocument(children, indenting)| == |t|
  }

  /** What parsing a document must give. */
  ghost predicate DocumentGives(r: DocumentResult, children: Option<seq<Node>>, done: seq<Node>) {
    match children
    case None => r.BadDocument?
    case Some(list) => r == ParsedDocument(done + list)
  }

  lemma {:induction false} TopLevelRereads(t: string, h: nat, white: string, children: seq<Node>, fl: Flags, done: seq<Node>, indenting: bool)
    requires !fl.nonDestructive && WritableList(children) && NoData(children)
    requires DocumentStands(t, h, white, children, indenting)
    ensures h <= |t| && DocumentGives(ParseTopLevel(t, h, fl, done), RereadDocument(children, indenting), done)
    decreases |children|
  {
    hide *;
    if children == [] {
      DocumentEnds(t, h, white, fl, done, indenting);
    } else {
      WritableTail(children);
      NoDataTail(children);
      var m := h + |white|;
      var b := m + |PrintedBody(children[0], indenting, 0)|;
      FirstStands(t, h, white, children, indenting);
      NodeRereads(t, m, children[0], fl, indenting, 0);
      TopLevelStep(t, h, m, b, white, Reread(children[0], indenting, 0), fl, done);
      var n := Reread(children[0], indenting, 0);
      if n.Some? {
        TopLevelRereads(t, b, LineBreak(indenting), children[1..], fl, done + [n.value], indenting);
      }
      FirstGives(ParseTopLevel(t, h, fl, done), children, done, indenting);
    }
  }

  lemma NoDataTail(children: seq<Node>)
    requires children != [] && NoData(children)
    ensures !children[0].Data? && NoData(children[1..])
  {
  }

  lemma DocumentEnds(t: string, h: nat, white: string, fl: Flags, done: seq<Node>, indenting: bool)
    requires DocumentStands(t, h, white, [], indenting)
    ensures h <= |t| && DocumentGives(ParseTopLevel(t, h, fl, done), RereadDocument([], indenting), done)
  {
    var brk := LineBreak(indenting);
    IndentationIsWhite(indenting, 0);
    assert PrintedDocument([], indenting) == brk;
    hide White, Has, LineBreak;
    HasConcat(t, h, white, brk);
    WhiteJoin(white, brk);
    WhiteSkips(t, h, white + brk);
    assert done + [] == done;
  }

  lemma FirstStands(t: string, h: nat, white: string, children: seq<Node>, indenting: bool)
    requires children != [] && DocumentStands(t, h, white, children, indenting)
    ensures var m := h + |white|;
            var b := m + |PrintedBody(children[0], indenting, 0)|;
            && White(white) && Has(t, h, white) && Has(t, m, PrintedBody(children[0], indenting, 0)) && b <= |t|
            && DocumentStands(t, b, LineBreak(indenting), children[1..], indenting)
  {
    hide White, Has, LineBreak, PrintedBody;
    var body, brk, rest := PrintedBody(children[0], indenting, 0), LineBreak(indenting), PrintedDocument(children[1..], indenting);
    var m := h + |white|;
    IndentationIsWhite(indenting, 0);
    FirstPrinted(children, indenting);
    hide PrintedDocument;
    HasConcat(t, m, body, brk + rest);
    HasConcat(t, m + |body|, brk, rest);
    HasEnds(t, m, body);
  }

  lemma FirstPrinted(children: seq<Node>, indenting: bool)
    requires children != []
    ensures PrintedDocument(children, indenting)
         == PrintedBody(children[0], indenting, 0) + (LineBreak(indenting) + PrintedDocument(children[1..], indenting))
  {
    var body, brk, rest := PrintedBody(children[0], indenting, 0), LineBreak(indenting), PrintedChildren(children[1..], indenting, 0);
    assert Lead(indenting, 0) == [];
    assert PrintedChildren(children, indenting, 0) == [] + body + brk + rest;
    hide PrintedBody, PrintedChildren, LineBreak;
    assert [] + body == body;
    DocumentPieces(body, brk, rest);
  }

  lemma DocumentPieces(a: string, b: string, c: string)
    ensures a + b + c + b == a + (b + (c + b))
  {
  }

  lemma TopLevelStep(t: string, h: nat, m: nat, b: nat, white: string, n: Option<Node>, fl: Flags, done: seq<Node>)
    requires White(white) && Has(t, h, white) && m == h + |white| && At(t, m) == '<' && m + 1 <= |t| && b <= |t|
    requires NodeGives(ParseNode(t, m + 1, fl), n, b)
    ensures h <= |t|
    ensures if n.None? then ParseTopLevel(t, h, fl, done).BadDocument?
            else ParseTopLevel(t, h, fl, done) == ParseTopLevel(t, b, fl, done + [n.value])
  {
    hide ParseNode, White, Has, Skip;
    WhiteSkips(t, h, white);
  }

  lemma FirstGives(r: DocumentResult, children: seq<Node>, done: seq<Node>, indenting: bool)
    requires children != [] && NoData(children)
    requires var n := Reread(children[0], indenting, 0);
             if n.None? then r.BadDocument?
             else DocumentGives(r, RereadDocument(children[1..], indenting), done + [n.value])
    ensures DocumentGives(r, RereadDocument(children, indenting), done)
  {
    hide Reread;
    var n, rest := Reread(children[0], indenting, 0), RereadDocument(children[1..], indenting);
    if n.Some? && rest.Some? {
      assert done + [n.value] + rest.value == done + ([n.value] + rest.value);
    }
  }

  lemma NoBom(t: string)
    requires t == [] || IsSpace(t[0]) || t[0] == '<'
    ensures SkipBom(t) == 0
  {
  }

  lemma PrintedStarts(children: seq<Node>, indenting: bool)
    requires WritableList(children) && NoData(children)
    ensures var t := PrintedDocument(children, indenting); t == [] || IsSpace(t[0]) || t[0] == '<'
  {
    if children != [] {
      FirstPrinted(children, indenting);
      var body := PrintedBody(children[0], indenting, 0);
      assert body != [] && body[0] == '<' by {
        hide PrintedInside;
      }
      hide PrintedBody;
    }
  }

  lemma WholeDocumentStands(children: seq<Node>, indenting: bool)
    ensures DocumentStands(PrintedDocument(children, indenting), 0, [], children, indenting)
  {
    var t := PrintedDocument(children, indenting);
    assert t[0..|t|] == t;
  }

  /** What comes back for any document that can be written down, with or without indentation. */
  lemma PrintedReread(children: seq<Node>, fl: Flags, indenting: bool)
    requires !fl.nonDestructive && WritableList(children) && NoData(children)
    ensures match RereadDocument(children, indenting)
            case None => ParseDocument(PrintedDocument(children, indenting), fl).BadDocument?
            case Some(list) => ParseDocument(PrintedDocument(children, indenting), fl) == ParsedDocument(list)
  {
    var t := PrintedDocument(children, indenting);
    PrintedStarts(children, indenting);
    NoBom(t);
    WholeDocumentStands(children, indenting);
    hide PrintedDocument, RereadDocument, DocumentStands, WritableList, SkipBom;
    TopLevelRereads(t, 0, [], children, fl, [], indenting);
    match RereadDocument(children, indenting)
    case None =>
    case Some(list) => assert [] + list == list;
  }

  /**
   * Parsing the print gives the printed document back if and only if it is in normal form, with or without
   * indentation and with closing tags validated or not.
   */
  lemma PrintThenParse(children: seq<Node>, fl: Flags, indenting: bool)
    requires !fl.nonDestructive && WritableList(children) && NoData(children)
    ensures ParseDocument(PrintedDocument(children, indenting), fl) == ParsedDocument(children)
            <==> NormalDocument(children, indenting)
  {
    PrintedReread(children, fl, indenting);
    DocumentSame(children, indenting);
    hide *;
  }

  /**
   * Line breaks and tabs make no difference to the reader of a document that survives without them if and only
   * if all its text stands alone.
   */
  lemma IndentationIsInvisible(children: seq<Node>, fl: Flags)
    requires !fl.nonDestructive && WritableList(children) && NoData(children) && NormalDocument(children, false)
    ensures ParseDocument(PrintedDocument(children, true), fl) == ParseDocument(PrintedDocument(children, false), fl)
            <==> TidyChildren(children)
  {
    PrintThenParse(children, fl, true);
    PrintThenParse(children, fl, false);
    hide ParseDocument, PrintedDocument, NormalChildren, TidyChildren, WritableList;
  }

  /** Text beside an element, as in `<a>x<b/></a>`. */
  const MIXED := [Element("a", "x", [], [Data("x"), Element("b", [], [], [])])]

  lemma MixedIsNormal()
    ensures WritableList(MIXED) && NoData(MIXED) && NormalDocument(MIXED, false) && !NormalDocument(MIXED, true)
  {
    var inner := MIXED[0].children;
    assert inner[0].Data? && |inner| == 2 && inner[0].text[0] == 'x' && !White(inner[0].text);
    assert All("a", NodeName) && All("b", NodeName);
    assert Writable(inner[0]) && Writable(inner[1]) && Writable(MIXED[0]);
    assert Normal(inner[0]) && Normal(inner[1]) && Normal(MIXED[0]);
    assert !Tidy(MIXED[0]);
  }

  lemma IndentationShows(fl: Flags)
    requires !fl.nonDestructive
    ensures ParseDocument(PrintedDocument(MIXED, false), fl) == ParsedDocument(MIXED)
    ensures ParseDocument(PrintedDocument(MIXED, true), fl) != ParsedDocument(MIXED)
  {
    hide *;
    MixedIsNormal();
    PrintThenParse(MIXED, fl, false);
    PrintThenParse(MIXED, fl, true);
  }
}

/** Whatever is written by the grammar is parsed to what it denotes. */
module GrammarParse {
  import opened Text
  import opened CharRefs
  import opened References
  import opened Parser
  import opened NormalForm
  import opened RoundTrip
  import opened Translation
  import opened Grammar

  // ---- Marks ----

  lemma MarkFound(t: string, i: nat, text: string, mark: string)
    requires EndsWith(text, mark) && Has(t, i, text + mark)
    ensures i <= |t| && FindMark(t, i, mark) == Ok(i + |text|)
  {
    HasConcat(t, i, text, mark);
    forall k | i <= k < i + |text| ensures !Has(t, k, mark) && t[k] != '\0' {
      HasAt(t, i, text, k - i);
      MarkInside(t, i, text + mark, k - i, mark);
    }
    FindFirst(t, i, i + |text|, mark);
  }

  /** A mark that stands inside a stretch of the text stands in it as it does on its own. */
  lemma MarkInside(t: string, i: nat, s: string, k: nat, mark: string)
    requires Has(t, i, s) && k + |mark| <= |s|
    ensures Has(t, i + k, mark) <==> Has(s, k, mark)
  {
    SubSlice(t, i, |s|, k, |mark|);
  }

  lemma SubSlice(t: string, i: nat, n: nat, k: nat, m: nat)
    requires i + n <= |t| && k + m <= n
    ensures t[i..i + n][k..k + m] == t[i + k..i + k + m]
  {
    var u, v := t[i..i + n][k..k + m], t[i + k..i + k + m];
    assert |u| == |v| && forall x :: 0 <= x < m ==> u[x] == v[x];
  }

  // ---- Raw values ----

  /** A value up to the character that ends it. */
  lemma ValueParses(t: string, i: nat, raw: string, p: Pred, fl: Flags)
    requires Scans(p) && Has(t, i, raw) && All(raw, p) && !p.Test(At(t, i + |raw|))
    ensures i <= |t|
    ensures match Value(raw, fl)
            case None => ScanValue(t, i, p, fl).BadRef?
            case Some(text) => ScanValue(t, i, p, fl) == Expanded(text, i + |raw|)
  {
    SkipWord(t, i, raw, p);
    ScanTranslates(t, i, p, fl.validateClosingTags);
    assert t[i..i + |raw|] == raw;
  }

  // ---- Attributes ----

  /** Where the parts of a written attribute stand. */
  lemma AttributeStands(t: string, i: nat, a: WAttribute)
    requires Has(t, i, RenderAttribute(a))
    ensures var n := i + |a.before|; var e := n + |a.name| + |a.beforeEquals|; var q := e + 1 + |a.afterEquals|;
            && Has(t, i, a.before) && Has(t, n, a.name) && Has(t, n + |a.name|, a.beforeEquals) && At(t, e) == '='
            && Has(t, e + 1, a.afterEquals) && At(t, q) == a.quote && Has(t, q + 1, a.raw)
            && At(t, q + 1 + |a.raw|) == a.quote && q + 2 + |a.raw| == i + |RenderAttribute(a)| <= |t|
  {
    var close := [a.quote];
    var value := [a.quote] + (a.raw + close);
    var n := i + |a.before|;
    var e := n + |a.name| + |a.beforeEquals|;
    var q := e + 1 + |a.afterEquals|;
    hide Has;
    HasEnds(t, i, RenderAttribute(a));
    HasConcat(t, i, a.before, a.name + (a.beforeEquals + ("=" + (a.afterEquals + value))));
    HasConcat(t, n, a.name, a.beforeEquals + ("=" + (a.afterEquals + value)));
    HasConcat(t, n + |a.name|, a.beforeEquals, "=" + (a.afterEquals + value));
    HasConcat(t, e, "=", a.afterEquals + value);
    HasConcat(t, e + 1, a.afterEquals, value);
    HasConcat(t, q, [a.quote], a.raw + close);
    HasConcat(t, q + 1, a.raw, close);
    HasAt(t, e, "=", 0);
    HasAt(t, q, [a.quote], 0);
    HasAt(t, q + 1 + |a.raw|, close, 0);
  }

  lemma GoodParts(a: WAttribute)
    requires GoodAttribute(a)
    ensures White(a.before) && White(a.beforeEquals) && White(a.afterEquals) && All(a.name, AttributeName)
    ensures a.name != [] && AttributeName.Test(a.name[0]) && !IsSpace(a.name[0]) && !IsSpace('=') && !IsSpace(a.quote)
    ensures Scans(AttributeValue(a.quote)) && All(a.raw, AttributeValue(a.quote)) && IsQuote(a.quote)
    ensures !AttributeValue(a.quote).Test(a.quote)
  {
  }

  /** The name ends at white space or at the equals sign. */
  lemma NameStops(t: string, i: nat, space: string)
    requires Has(t, i, space) && White(space) && At(t, i + |space|) == '='
    ensures !AttributeName.Test(At(t, i))
  {
    if space != [] {
      HasAt(t, i, space, 0);
    }
  }

  lemma HeadRead(t: string, n: nat, a: WAttribute)
    requires GoodAttribute(a) && Has(t, n, a.name) && Has(t, n + |a.name|, a.beforeEquals)
    requires var e := n + |a.name| + |a.beforeEquals|;
             At(t, e) == '=' && Has(t, e + 1, a.afterEquals) && At(t, e + 1 + |a.afterEquals|) == a.quote
    ensures n < |t| && ParseAttributeHead(t, n) == Head(n + |a.name|, n + |a.name| + |a.beforeEquals| + 1 + |a.afterEquals|)
  {
    hide Has, White, All, Skip, IsSpace, Pred.Test;
    GoodParts(a);
    var m := n + |a.name|;
    var e := m + |a.beforeEquals|;
    NameStops(t, m, a.beforeEquals);
    NameRun(t, n, a.name, AttributeName);
    WhiteSkips(t, m, a.beforeEquals);
    WhiteSkips(t, e + 1, a.afterEquals);
  }

  lemma AttributeRead(t: string, i: nat, a: WAttribute, fl: Flags)
    requires GoodAttribute(a) && Has(t, i, RenderAttribute(a))
    ensures var n, end := i + |a.before|, i + |RenderAttribute(a)|;
            && i <= n < |t| && end <= |t| && Skip(t, i, Whitespace) == n && AttributeName.Test(At(t, n))
            && match Value(a.raw, fl)
               case None => ParseAttribute(t, n, fl).BadAttribute?
               case Some(value) => ParseAttribute(t, n, fl) == ParsedAttribute(Attribute(a.name, value), Skip(t, end, Whitespace))
  {
    hide *;
    var n := i + |a.before|;
    var m := n + |a.name|;
    var q := m + |a.beforeEquals| + 1 + |a.afterEquals|;
    AttributeStands(t, i, a);
    GoodParts(a);
    HeadRead(t, n, a);
    NameAt(t, n, a.name);
    WhiteSkips(t, i, a.before);
    ValueParses(t, q + 1, a.raw, AttributeValue(a.quote), fl);
    AttributeFrom(t, n, a, fl, q);
  }

  lemma NameAt(t: string, n: nat, name: string)
    requires Has(t, n, name) && name != []
    ensures At(t, n) == name[0] && n + |name| <= |t| && t[n..n + |name|] == name
  {
    HasAt(t, n, name, 0);
  }

  lemma AttributeFrom(t: string, n: nat, a: WAttribute, fl: Flags, q: nat)
    requires n < |t| && ParseAttributeHead(t, n) == Head(n + |a.name|, q) && n + |a.name| < q < |t|
    requires t[n..n + |a.name|] == a.name && At(t, q) == a.quote && q + 1 <= |t|
    requires match Value(a.raw, fl)
             case None => ScanValue(t, q + 1, AttributeValue(a.quote), fl).BadRef?
             case Some(text) => ScanValue(t, q + 1, AttributeValue(a.quote), fl) == Expanded(text, q + 1 + |a.raw|)
    requires At(t, q + 1 + |a.raw|) == a.quote && q + 2 + |a.raw| <= |t|
    ensures match Value(a.raw, fl)
            case None => ParseAttribute(t, n, fl).BadAttribute?
            case Some(value) =>
              ParseAttribute(t, n, fl) == ParsedAttribute(Attribute(a.name, value), Skip(t, q + 2 + |a.raw|, Whitespace))
  {
    hide ParseAttributeHead, ScanValue, Value, Skip;
  }

  /** What parsing attributes must give. */
  ghost predicate AttributesDenote(r: AttributesResult, list: Option<seq<Attribute>>, done: seq<Attribute>, end: nat) {
    match list
    case None => r.BadAttributes?
    case Some(attributes) => r == ParsedAttributes(done + attributes, end)
  }

  lemma {:induction false} AttributesRead(t: string, i: nat, attributes: seq<WAttribute>, space: string, fl: Flags, done: seq<Attribute>)
    requires forall k :: 0 <= k < |attributes| ==> GoodAttribute(attributes[k])
    requires Has(t, i, RenderAttributes(attributes) + space) && White(space)
    requires var after := At(t, i + |RenderAttributes(attributes) + space|); after == '>' || after == '/'
    ensures i <= |t|
    ensures AttributesDenote(ParseAttributes(t, Skip(t, i, Whitespace), fl, done), DenotedAttributes(attributes, fl), done,
                             i + |RenderAttributes(attributes) + space|)
    decreases |attributes|
  {
    hide *;
    if attributes == [] {
      NoAttributesRead(t, i, space, fl, done);
    } else {
      var a, rest := attributes[0], RenderAttributes(attributes[1..]) + space;
      AttributesSplit(attributes, space);
      HasConcat(t, i, RenderAttribute(a), rest);
      AttributeRead(t, i, a, fl);
      var value := Value(a.raw, fl);
      if value.Some? {
        AttributesRead(t, i + |RenderAttribute(a)|, attributes[1..], space, fl, done + [Attribute(a.name, value.value)]);
      }
      AttributesJoined(t, i + |a.before|, attributes, fl, done, i + |RenderAttribute(a)|, i + |RenderAttributes(attributes) + space|);
    }
  }

  lemma NoAttributesRead(t: string, i: nat, space: string, fl: Flags, done: seq<Attribute>)
    requires Has(t, i, RenderAttributes([]) + space) && White(space)
    requires var after := At(t, i + |RenderAttributes([]) + space|); after == '>' || after == '/'
    ensures i <= |t|
    ensures AttributesDenote(ParseAttributes(t, Skip(t, i, Whitespace), fl, done), DenotedAttributes([], fl), done,
                             i + |RenderAttributes([]) + space|)
  {
    assert RenderAttributes([]) + space == space;
    hide Has, White, RenderAttributes;
    WhiteSkips(t, i, space);
    assert done + [] == done;
  }

  lemma AttributesSplit(attributes: seq<WAttribute>, space: string)
    requires attributes != []
    ensures RenderAttributes(attributes) + space == RenderAttribute(attributes[0]) + (RenderAttributes(attributes[1..]) + space)
  {
    hide RenderAttribute;
    ConcatAssoc(RenderAttribute(attributes[0]), RenderAttributes(attributes[1..]), space);
  }

  lemma AttributesJoined(t: string, n: nat, attributes: seq<WAttribute>, fl: Flags, done: seq<Attribute>, next: nat, end: nat)
    requires attributes != [] && n < |t| && next <= |t| && AttributeName.Test(At(t, n))
    requires match Value(attributes[0].raw, fl)
             case None => ParseAttribute(t, n, fl).BadAttribute?
             case Some(value) =>
               && ParseAttribute(t, n, fl) == ParsedAttribute(Attribute(attributes[0].name, value), Skip(t, next, Whitespace))
               && AttributesDenote(ParseAttributes(t, Skip(t, next, Whitespace), fl, done + [Attribute(attributes[0].name, value)]),
                                   DenotedAttributes(attributes[1..], fl), done + [Attribute(attributes[0].name, value)], end)
    ensures AttributesDenote(ParseAttributes(t, n, fl, done), DenotedAttributes(attributes, fl), done, end)
  {
    hide ParseAttribute, Value, Skip, Pred.Test, At;
    var value, rest := Value(attributes[0].raw, fl), DenotedAttributes(attributes[1..], fl);
    if value.Some? && rest.Some? {
      DoneMore(done, Attribute(attributes[0].name, value.value), rest.value);
    }
  }

  lemma DoneMore<T>(done: seq<T>, x: T, rest: seq<T>)
    ensures done + [x] + rest == done + ([x] + rest)
  {
  }

  // ---- Constructs without children ----

  /** What parsing behind a `<` must give. */
  ghost predicate NodesGive(r: NodeResult, nodes: Option<seq<Node>>, end: nat) {
    match nodes
    case None => r.BadNode?
    case Some(list) => |list| <= 1 && r == ParsedNode(if list == [] then None else Some(list[0]), end)
  }

  /** What behind a `<` is no closing tag. */
  ghost predicate Starts(t: string, i: nat) {
    i + 1 <= |t| && At(t, i) == '<' && At(t, i + 1) != '/'
  }

  lemma TwoPieces(t: string, i: nat, a: string, b: string, c: string)
    requires Has(t, i, a + (b + c))
    ensures Has(t, i, a) && Has(t, i + |a|, b + c) && Has(t, i + |a|, b) && Has(t, i + |a| + |b|, c)
    ensures i + |a| <= |t| && |a + (b + c)| == |a| + |b| + |c|
  {
    hide Has;
    HasConcat(t, i, a, b + c);
    HasConcat(t, i + |a|, b, c);
    HasEnds(t, i, a);
  }

  /** The characters of a literal. */
  lemma Letters(t: string, i: nat, s: string)
    requires Has(t, i, s)
    ensures i + |s| <= |t| && forall k :: 0 <= k < |s| ==> At(t, i + k) == s[k]
  {
    forall k | 0 <= k < |s| ensures At(t, i + k) == s[k] {
      HasAt(t, i, s, k);
    }
  }

  lemma CommentRead(t: string, i: nat, text: string, fl: Flags)
    requires EndsWith(text, "-->") && Has(t, i, RenderNode(WComment(text)))
    ensures Starts(t, i) && ParseNode(t, i + 1, fl) == ParsedNode(None, i + |RenderNode(WComment(text))|)
  {
    hide Has, FindMark, EndsWith;
    var mark := "<!--";
    TwoPieces(t, i, mark, text, "-->");
    Letters(t, i, mark);
    MarkFound(t, i + 4, text, "-->");
    assert mark[0] == At(t, i + 0) == '<' && mark[1] == At(t, i + 1) == '!';
    assert "<!" + "--" == mark;
    HasConcat(t, i, "<!", "--");
  }

  lemma InstructionRead(t: string, i: nat, text: string, fl: Flags)
    requires EndsWith(text, "?>") && Has(t, i, RenderNode(WInstruction(text)))
    ensures Starts(t, i) && ParseNode(t, i + 1, fl) == ParsedNode(None, i + |RenderNode(WInstruction(text))|)
  {
    hide IsXmlDeclaration, Has, FindMark;
    TwoPieces(t, i, "<?", text, "?>");
    Letters(t, i, "<?");
    MarkFound(t, i + 2, text, "?>");
    assert "<?"[0] == At(t, i + 0) == '<' && "<?"[1] == At(t, i + 1) == '?';
    if IsXmlDeclaration(t, i + 2) {
      DeclarationRead(t, i + 2, i + 2 + |text|);
    }
  }

  /** Looking for the end of a declaration behind its name makes no difference. */
  lemma DeclarationRead(t: string, i: nat, end: nat)
    requires i <= |t| && IsXmlDeclaration(t, i) && FindMark(t, i, "?>") == Ok(end)
    ensures i + 4 <= |t| && FindMark(t, i + 4, "?>") == Ok(end)
  {
    hide FindMark;
    HasAt(t, end, "?>", 0);
    assert At(t, end) == '?';
    assert At(t, i) != '?' && At(t, i + 1) != '?' && At(t, i + 2) != '?' && At(t, i + 3) != '?';
    FindFirst(t, i + 4, end, "?>");
  }

  lemma CDataRead(t: string, i: nat, text: string, fl: Flags)
    requires EndsWith(text, "]]>") && Has(t, i, RenderNode(WCData(text)))
    ensures Starts(t, i) && ParseNode(t, i + 1, fl) == ParsedNode(Some(CData(text)), i + |RenderNode(WCData(text))|)
  {
    hide Has, FindMark, EndsWith;
    TwoPieces(t, i, "<![CDATA[", text, "]]>");
    CDataOpens(t, i);
    MarkFound(t, i + 9, text, "]]>");
    IsSlice(t, i + 9, text);
  }

  lemma IsSlice(t: string, i: nat, s: string)
    requires Has(t, i, s)
    ensures i + |s| <= |t| && t[i..i + |s|] == s
  {
  }

  lemma {:induction false} DoctypeRead(t: string, i: nat, text: string, k: nat)
    requires Bracketed(text) && Has(t, i, text) && At(t, i + |text|) == '>' && k <= |text|
    ensures i + k <= |t| && SkipDoctype(t, i + k, Depth(text, 0, k)) == ParsedNode(None, i + |text| + 1)
    decreases |text| - k
  {
    HasEnds(t, i, text);
    BracketedAt(text, k);
    if k < |text| {
      HasAt(t, i, text, k);
      hide Has, Bracketed;
      DoctypeRead(t, i, text, k + 1);
    }
    hide Has, Bracketed, Depth;
  }

  lemma BracketedAt(text: string, k: nat)
    requires Bracketed(text) && k <= |text|
    ensures Depth(text, 0, |text|) == 0
    ensures k < |text| ==>
              var d := Depth(text, 0, k);
              && text[k] != '\0' && (text[k] == '>' ==> d > 0)
              && Depth(text, 0, k + 1) == if text[k] == '[' then d + 1 else if text[k] == ']' && d > 0 then d - 1 else d
  {
  }

  lemma DoctypeNodeRead(t: string, i: nat, blank: char, text: string, fl: Flags)
    requires IsSpace(blank) && Bracketed(text) && Has(t, i, RenderNode(WDoctype(blank, text)))
    ensures Starts(t, i) && ParseNode(t, i + 1, fl) == ParsedNode(None, i + |RenderNode(WDoctype(blank, text))|)
  {
    hide Has, Bracketed;
    var j := i + 10;
    TwoPieces(t, i, "<!DOCTYPE", [blank], text + ">");
    HasConcat(t, j, text, ">");
    Letters(t, i, "<!DOCTYPE");
    HasAt(t, i + 9, [blank], 0);
    HasAt(t, j + |text|, ">", 0);
    DoctypeRead(t, j, text, 0);
    var mark := "<!DOCTYPE";
    assert mark[0] == At(t, i + 0) == '<' && mark[1] == At(t, i + 1) == '!' && mark[2] == At(t, i + 2) == 'D';
    assert "<!" + "DOCTYPE" == "<!DOCTYPE";
    HasConcat(t, i, "<!", "DOCTYPE");
    NotOther(t, i + 2);
    hide SkipDoctype;
    assert ParseBang(t, i + 2) == SkipDoctype(t, j, 0);
  }

  lemma NotOther(t: string, i: nat)
    requires At(t, i) == 'D'
    ensures !Has(t, i, "--") && !Has(t, i, "[CDATA[")
  {
    if Has(t, i, "--") {
      HasAt(t, i, "--", 0);
    }
    if Has(t, i, "[CDATA[") {
      HasAt(t, i, "[CDATA[", 0);
    }
  }

  lemma OtherRead(t: string, i: nat, text: string, fl: Flags)
    requires EndsWith(text, ">") && IsOther(text) && Has(t, i, RenderNode(WOther(text)))
    ensures Starts(t, i) && ParseNode(t, i + 1, fl) == ParsedNode(None, i + |RenderNode(WOther(text))|)
  {
    hide Has, FindMark, EndsWith, IsOther, IsDoctype;
    TwoPieces(t, i, "<!", text, ">");
    Letters(t, i, "<!");
    MarkFound(t, i + 2, text, ">");
    assert "<!"[0] == At(t, i + 0) == '<' && "<!"[1] == At(t, i + 1) == '!';
    HasAt(t, i + 2 + |text|, ">", 0);
    OtherIsOther(t, i + 2, text);
  }

  /** What another construct starts with, its text starts with. */
  lemma MarkInText(t: string, i: nat, text: string, mark: string)
    requires Has(t, i, text) && At(t, i + |text|) == '>' && mark != [] && '>' !in mark && Has(t, i, mark)
    ensures mark <= text
  {
    Letters(t, i, text);
    Letters(t, i, mark);
    hide Has;
    forall k | 0 <= k < |mark| ensures k != |text| && (k < |text| ==> mark[k] == text[k]) {
      assert At(t, i + k) == mark[k] && mark[k] in mark;
    }
    var end := if |text| < |mark| then |text| else 0;
    assert mark[end] in mark && end != |text|;
  }

  lemma OtherIsOther(t: string, i: nat, text: string)
    requires IsOther(text) && Has(t, i, text) && At(t, i + |text|) == '>'
    ensures !Has(t, i, "--") && !Has(t, i, "[CDATA[") && !IsDoctype(t, i)
  {
    hide Has;
    if Has(t, i, "--") {
      MarkInText(t, i, text, "--");
    }
    if Has(t, i, "[CDATA[") {
      MarkInText(t, i, text, "[CDATA[");
    }
    if Has(t, i, "DOCTYPE") {
      MarkInText(t, i, text, "DOCTYPE");
      Letters(t, i, text);
      assert At(t, i + 7) == if |text| > 7 then text[7] else '>';
    }
  }

  // ---- Elements ----

  /** Where the opening of an element ends, one of these stands. */
  predicate OpeningEnds(c: char) {
    c == '>' || c == '/'
  }

  lemma NameEnds(t: string, i: nat, attributes: seq<WAttribute>, space: string)
    requires GoodAttributes(attributes) && White(space) && Has(t, i, RenderAttributes(attributes) + space)
    requires OpeningEnds(At(t, i + |RenderAttributes(attributes) + space|))
    ensures !NodeName.Test(At(t, i))
  {
    if attributes != [] {
      var a := attributes[0];
      AttributesSplit(attributes, space);
      hide Has;
      HasConcat(t, i, RenderAttribute(a), RenderAttributes(attributes[1..]) + space);
      AttributeStands(t, i, a);
      HasAt(t, i, a.before, 0);
      assert GoodAttribute(a) && IsSpace(a.before[0]);
    } else {
      assert RenderAttributes(attributes) + space == space;
      if space != [] {
        HasAt(t, i, space, 0);
      }
    }
  }

  /** What parsing an opening must give. */
  ghost predicate OpeningGives(r: OpeningResult, nameEnd: nat, list: Option<seq<Attribute>>, next: nat) {
    match list
    case None => r.BadOpening?
    case Some(attributes) => r == Opening(nameEnd, attributes, next)
  }

  lemma OpeningRead(t: string, i: nat, name: string, attributes: seq<WAttribute>, space: string, fl: Flags)
    requires name != [] && All(name, NodeName) && name[0] != '!' && GoodAttributes(attributes) && White(space)
    requires Has(t, i, RenderOpening(name, attributes, space))
    requires OpeningEnds(At(t, i + |RenderOpening(name, attributes, space)|))
    ensures Starts(t, i) && At(t, i + 1) == name[0] && NodeName.Test(name[0])
    ensures i + 1 + |name| <= |t| && t[i + 1..i + 1 + |name|] == name
    ensures OpeningGives(ParseOpening(t, i + 1, fl), i + 1 + |name|, DenotedAttributes(attributes, fl),
                         i + |RenderOpening(name, attributes, space)|)
  {
    hide *;
    var rest := RenderAttributes(attributes) + space;
    var m := i + 1 + |name|;
    OpeningIs(name, attributes, space);
    TwoPieces(t, i, "<", name, rest);
    HasAt(t, i, "<", 0);
    NameEnds(t, m, attributes, space);
    NameRun(t, i + 1, name, NodeName);
    NoSlash(name[0]);
    GoodEach(attributes);
    AfterOpening(t, m + |rest|);
    AttributesRead(t, m, attributes, space, fl, []);
    StartsHere(t, i);
    OpeningFrom(t, i + 1, m, attributes, fl, m + |rest|);
  }

  lemma OpeningIs(name: string, attributes: seq<WAttribute>, space: string)
    ensures RenderOpening(name, attributes, space) == "<" + (name + (RenderAttributes(attributes) + space))
  {
  }

  lemma NoSlash(c: char)
    requires NodeName.Test(c)
    ensures c != '/'
  {
  }

  lemma GoodEach(attributes: seq<WAttribute>)
    requires GoodAttributes(attributes)
    ensures forall k :: 0 <= k < |attributes| ==> GoodAttribute(attributes[k])
  {
  }

  lemma AfterOpening(t: string, k: nat)
    requires OpeningEnds(At(t, k))
    ensures At(t, k) == '>' || At(t, k) == '/'
  {
  }

  lemma StartsHere(t: string, i: nat)
    requires i + 1 <= |t| && At(t, i) == '<' && At(t, i + 1) != '/'
    ensures Starts(t, i)
  {
  }

  lemma OpeningFrom(t: string, i: nat, nameEnd: nat, attributes: seq<WAttribute>, fl: Flags, next: nat)
    requires i <= |t| && i < nameEnd <= |t| && Skip(t, i, NodeName) == nameEnd
    requires AttributesDenote(ParseAttributes(t, Skip(t, nameEnd, Whitespace), fl, []), DenotedAttributes(attributes, fl), [], next)
    ensures OpeningGives(ParseOpening(t, i, fl), nameEnd, DenotedAttributes(attributes, fl), next)
  {
    hide ParseAttributes, DenotedAttributes, Skip;
    var list := DenotedAttributes(attributes, fl);
    if list.Some? {
      assert [] + list.value == list.value;
    }
  }

  // ---- Contents ----

  /** An error if closing tags are validated and the name is another one. */
  function Checked(list: Option<seq<Node>>, name: string, closing: string, fl: Flags): Option<seq<Node>> {
    if fl.validateClosingTags && closing != name then None else list
  }

  /** A closing tag with any name ends the contents, unless it is validated and the name is another one. */
  lemma ClosingRead(t: string, i: nat, fl: Flags, name: string, closing: string, space: string, value: string, done: seq<Node>)
    requires All(closing, NodeName) && White(space) && Has(t, i, RenderClosing(closing, space))
    ensures i < |t| && At(t, i) == '<' && At(t, i + 1) == '/'
    ensures ContentsGive(ParseMarkup(t, i, fl, name, value, done), Checked(Some([]), name, closing, fl), value, done,
                         i + |RenderClosing(closing, space)|)
  {
    TwoPieces(t, i, "</", closing, space + ">");
    Letters(t, i, "</");
    assert "</"[0] == At(t, i + 0) == '<' && "</"[1] == At(t, i + 1) == '/';
    ClosingTagRead(t, i + 2, fl, name, closing, space);
    assert done + [] == done;
    hide ParseClosingTag, Has;
  }

  /**
   * Behind `</`, a name and white space up to the bracket: the tag is accepted if and only if closing tags are
   * not validated or the name is the element's.
   */
  lemma ClosingTagRead(t: string, i: nat, fl: Flags, name: string, closing: string, space: string)
    requires All(closing, NodeName) && White(space) && Has(t, i, closing + (space + ">"))
    ensures i <= |t|
    ensures if fl.validateClosingTags && closing != name then ParseClosingTag(t, i, fl, name).BadClosing?
            else ParseClosingTag(t, i, fl, name) == Closed(i + |closing + (space + ">")|)
  {
    var m := i + |closing|;
    TwoPieces(t, i, closing, space, ">");
    HasAt(t, m + |space|, ">", 0);
    ClosingNameEnds(t, m, space);
    hide Has, White, All, Skip;
    SkipWord(t, i, closing, NodeName);
    WhiteSkips(t, m, space);
    ClosingNameIs(t, i, closing);
  }

  lemma ClosingNameEnds(t: string, m: nat, space: string)
    requires Has(t, m, space) && White(space) && At(t, m + |space|) == '>'
    ensures !NodeName.Test(At(t, m)) && !IsSpace(At(t, m + |space|))
  {
    if space != [] {
      HasAt(t, m, space, 0);
    }
  }

  lemma ClosingNameIs(t: string, i: nat, closing: string)
    requires Has(t, i, closing)
    ensures i + |closing| <= |t| && t[i..i + |closing|] == closing
  {
  }

  /** The element value that adoption gives, whichever way the children are gone through. */
  lemma {:induction false} ValueAdopts(value: string, list: seq<Node>)
    ensures AdoptAll([], list) == ValueOf(list)
  {
    if list != [] {
      var k := |list| - 1;
      ValueAdopts(value, list[..k]);
      AdoptConcat([], list[..k], [list[k]]);
      assert list == list[..k] + [list[k]];
      assert [list[k]][1..] == [];
    }
  }

  /** What is read of a node, from behind its `<`. */
  lemma {:induction false} NodeRead(t: string, i: nat, w: WNode, fl: Flags)
    requires WellFormed(w) && !w.WText? && Has(t, i, RenderNode(w))
    ensures Starts(t, i) && NodesGive(ParseNode(t, i + 1, fl), Denoted(w, fl), i + |RenderNode(w)|)
    decreases w, 2
  {
    hide ParseNode, RenderNode, Has, EndsWith, Bracketed, IsOther;
    match w
    case WText(_) =>
    case WCData(text) => CDataRead(t, i, text, fl);
    case WComment(text) => CommentRead(t, i, text, fl);
    case WInstruction(text) => InstructionRead(t, i, text, fl);
    case WDoctype(blank, text) => DoctypeNodeRead(t, i, blank, text, fl);
    case WOther(text) => OtherRead(t, i, text, fl);
    case WElement(_, _, _, body) =>
      if body.Open? {
        ElementRead(t, i, w, fl);
      } else {
        EmptyElementRead(t, i, w, fl);
      }
  }

  lemma EmptyElementRead(t: string, i: nat, w: WNode, fl: Flags)
    requires w.WElement? && w.body.EmptyTag? && WellFormed(w) && Has(t, i, RenderNode(w))
    ensures Starts(t, i) && NodesGive(ParseNode(t, i + 1, fl), Denoted(w, fl), i + |RenderNode(w)|)
  {
    hide *;
    var k := i + |RenderOpening(w.name, w.attributes, w.space)|;
    ElementParts(w);
    EmptyStands(t, i, w);
    OpeningRead(t, i, w.name, w.attributes, w.space, fl);
    EmptyFrom(t, i + 1, w, fl, k);
  }

  lemma ElementParts(w: WNode)
    requires w.WElement? && WellFormed(w)
    ensures w.name != [] && All(w.name, NodeName) && w.name[0] != '!' && GoodAttributes(w.attributes) && White(w.space)
    ensures w.body.Open? ==> WellFormedAll(w.body.children) && All(w.body.closing, NodeName) && White(w.body.closingSpace)
  {
  }

  lemma EmptyStands(t: string, i: nat, w: WNode)
    requires w.WElement? && w.body.EmptyTag? && Has(t, i, RenderNode(w))
    ensures var k := i + |RenderOpening(w.name, w.attributes, w.space)|;
            && Has(t, i, RenderOpening(w.name, w.attributes, w.space)) && At(t, k) == '/' && At(t, k + 1) == '>'
            && OpeningEnds(At(t, k)) && i + |RenderNode(w)| == k + 2 <= |t|
  {
    var opening := RenderOpening(w.name, w.attributes, w.space);
    assert RenderNode(w) == opening + "/>";
    hide RenderNode, RenderOpening, Has;
    HasConcat(t, i, opening, "/>");
    HasEnds(t, i + |opening|, "/>");
    HasAt(t, i + |opening|, "/>", 0);
    HasAt(t, i + |opening|, "/>", 1);
  }

  lemma EmptyFrom(t: string, i: nat, w: WNode, fl: Flags, k: nat)
    requires w.WElement? && w.body.EmptyTag? && w.name != [] && i + |w.name| <= |t| && k + 2 <= |t|
    requires At(t, i) == w.name[0] && NodeName.Test(w.name[0]) && w.name[0] != '!' && t[i..i + |w.name|] == w.name
    requires OpeningGives(ParseOpening(t, i, fl), i + |w.name|, DenotedAttributes(w.attributes, fl), k)
    requires At(t, k) == '/' && At(t, k + 1) == '>'
    ensures NodesGive(ParseNode(t, i, fl), Denoted(w, fl), k + 2)
  {
    hide ParseOpening, DenotedAttributes;
    assert ParseBody(t, k, fl, w.name) == ParsedContents([], [], k + 2);
    assert ParseNode(t, i, fl) == ParseElement(t, i, fl);
    assert ValueOf([]) == [];
  }

  lemma {:induction false} ElementRead(t: string, i: nat, w: WNode, fl: Flags)
    requires w.WElement? && w.body.Open? && WellFormed(w) && Has(t, i, RenderNode(w))
    ensures Starts(t, i) && NodesGive(ParseNode(t, i + 1, fl), Denoted(w, fl), i + |RenderNode(w)|)
    decreases w, 1
  {
    hide *;
    var k := i + |RenderOpening(w.name, w.attributes, w.space)|;
    var body := w.body;
    ElementParts(w);
    BodyStands(t, i, w);
    OpeningRead(t, i, w.name, w.attributes, w.space, fl);
    ContentsRead(t, k + 1, body.children, fl, w.name, body.closing, body.closingSpace, [], []);
    ElementFrom(t, i + 1, w, fl, k, i + |RenderNode(w)|);
  }

  lemma BodyStands(t: string, i: nat, w: WNode)
    requires w.WElement? && w.body.Open? && Has(t, i, RenderNode(w))
    ensures var k := i + |RenderOpening(w.name, w.attributes, w.space)|;
            var inside := RenderAll(w.body.children) + RenderClosing(w.body.closing, w.body.closingSpace);
            && Has(t, i, RenderOpening(w.name, w.attributes, w.space)) && At(t, k) == '>' && OpeningEnds(At(t, k))
            && Has(t, k + 1, inside) && i + |RenderNode(w)| == k + 1 + |inside| && k + 1 <= |t|
  {
    var opening := RenderOpening(w.name, w.attributes, w.space);
    var inside := RenderAll(w.body.children) + RenderClosing(w.body.closing, w.body.closingSpace);
    assert RenderNode(w) == opening + (">" + inside);
    hide RenderNode, RenderOpening, RenderAll, RenderClosing, Has;
    TwoPieces(t, i, opening, ">", inside);
    HasAt(t, i + |opening|, ">", 0);
    HasEnds(t, i + |opening|, ">");
  }

  lemma ElementFrom(t: string, i: nat, w: WNode, fl: Flags, k: nat, end: nat)
    requires w.WElement? && w.body.Open? && w.name != [] && i + |w.name| <= |t| && k + 1 <= |t|
    requires At(t, i) == w.name[0] && NodeName.Test(w.name[0]) && w.name[0] != '!' && t[i..i + |w.name|] == w.name
    requires OpeningGives(ParseOpening(t, i, fl), i + |w.name|, DenotedAttributes(w.attributes, fl), k) && At(t, k) == '>'
    requires ContentsGive(ParseContents(t, k + 1, fl, w.name, [], []),
                          Checked(DenotedAll(w.body.children, fl), w.name, w.body.closing, fl), [], [], end)
    ensures NodesGive(ParseNode(t, i, fl), Denoted(w, fl), end)
  {
    hide ParseOpening, DenotedAttributes, ParseContents, DenotedAll, AdoptAll, ValueOf;
    assert DenotedBody(w.name, w.body, fl) == Checked(DenotedAll(w.body.children, fl), w.name, w.body.closing, fl);
    assert ParseBody(t, k, fl, w.name) == ParseContents(t, k + 1, fl, w.name, [], []);
    assert ParseNode(t, i, fl) == ParseElement(t, i, fl);
    var list := DenotedAll(w.body.children, fl);
    if list.Some? {
      ValueAdopts([], list.value);
      assert [] + list.value == list.value;
    }
  }

  /** Text up to the next tag. */
  lemma TextRead(t: string, i: nat, raw: string, fl: Flags, name: string, value: string, done: seq<Node>)
    requires WellFormed(WText(raw)) && Has(t, i, raw) && At(t, i + |raw|) == '<'
    ensures i <= |t| && i + |raw| < |t|
    ensures match Denoted(WText(raw), fl)
            case None => ParseContents(t, i, fl, name, value, done).BadContents?
            case Some(list) =>
              ParseContents(t, i, fl, name, value, done)
              == ParseMarkup(t, i + |raw|, fl, name, AdoptAll(value, list), done + list)
  {
    hide *;
    HasEnds(t, i, raw);
    InText(t, i + |raw|);
    TextDenotes(raw, fl);
    if White(raw) {
      NotWhite(t, i + |raw|);
      WhiteSkips(t, i, raw);
      MarkupBehind(t, i, i + |raw|, fl, name, value, done);
      NothingAdopted(value);
      assert done + [] == done;
    } else {
      InkShows(t, i, raw);
      DataScans(t, i + |raw|);
      ValueParses(t, i, raw, CharData, fl);
      TextFrom(t, i, raw, fl, name, value, done);
      if Value(raw, fl).Some? {
        OneAdopted(value, Value(raw, fl).value);
      }
    }
  }

  lemma InText(t: string, k: nat)
    requires At(t, k) == '<'
    ensures k < |t|
  {
  }

  lemma TextDenotes(raw: string, fl: Flags)
    requires WellFormed(WText(raw))
    ensures All(raw, CharData)
    ensures Denoted(WText(raw), fl)
         == if White(raw) then Some([])
            else match Value(raw, fl) case None => None case Some(text) => Some([Data(text)])
  {
  }

  lemma NotWhite(t: string, k: nat)
    requires At(t, k) == '<'
    ensures !IsSpace(At(t, k))
  {
  }

  lemma DataScans(t: string, k: nat)
    requires At(t, k) == '<'
    ensures Scans(CharData) && !CharData.Test(At(t, k))
  {
  }

  lemma MarkupBehind(t: string, i: nat, k: nat, fl: Flags, name: string, value: string, done: seq<Node>)
    requires i <= k < |t| && Skip(t, i, Whitespace) == k && At(t, k) == '<'
    ensures ParseContents(t, i, fl, name, value, done) == ParseMarkup(t, k, fl, name, value, done)
  {
    hide Skip, ParseMarkup;
  }

  lemma NothingAdopted(value: string)
    ensures AdoptAll(value, []) == value
  {
  }

  lemma TextFrom(t: string, i: nat, raw: string, fl: Flags, name: string, value: string, done: seq<Node>)
    requires i <= |t| && i + |raw| < |t| && At(t, i + |raw|) == '<'
    requires At(t, Skip(t, i, Whitespace)) != '<' && At(t, Skip(t, i, Whitespace)) != '\0'
    requires match Value(raw, fl)
             case None => ScanValue(t, i, CharData, fl).BadRef?
             case Some(text) => ScanValue(t, i, CharData, fl) == Expanded(text, i + |raw|)
    ensures match Value(raw, fl)
            case None => ParseContents(t, i, fl, name, value, done).BadContents?
            case Some(text) =>
              ParseContents(t, i, fl, name, value, done)
              == ParseMarkup(t, i + |raw|, fl, name, Adopt(value, text), done + [Data(text)])
  {
    hide Skip, ScanValue, Value, ParseMarkup, Adopt;
  }

  lemma OneAdopted(value: string, text: string)
    ensures AdoptAll(value, [Data(text)]) == Adopt(value, text)
  {
    assert [Data(text)][1..] == [];
  }

  /** Behind leading white space, text shows neither a tag nor the end of the input. */
  lemma InkShows(t: string, i: nat, raw: string)
    requires All(raw, CharData) && !White(raw) && Has(t, i, raw)
    ensures i <= |t| && At(t, Skip(t, i, Whitespace)) != '<' && At(t, Skip(t, i, Whitespace)) != '\0'
  {
    var k :| 0 <= k < |raw| && !IsSpace(raw[k]);
    HasEnds(t, i, raw);
    HasAt(t, i, raw, k);
    var j := Skip(t, i, Whitespace);
    assert j <= i + k;
    HasAt(t, i, raw, j - i);
  }

  lemma JoinGives(r: ContentsResult, first: Option<seq<Node>>, rest: Option<seq<Node>>, value: string, done: seq<Node>, end: nat)
    requires if first.None? then r.BadContents? else ContentsGive(r, rest, AdoptAll(value, first.value), done + first.value, end)
    ensures ContentsGive(r, if first.Some? && rest.Some? then Some(first.value + rest.value) else None, value, done, end)
  {
    hide AdoptAll;
    if first.Some? && rest.Some? {
      AdoptConcat(value, first.value, rest.value);
      assert done + first.value + rest.value == done + (first.value + rest.value);
    }
  }

  lemma AllParts(nodes: seq<WNode>, closing: string, space: string)
    requires nodes != [] && WellFormedAll(nodes)
    ensures WellFormed(nodes[0]) && WellFormedAll(nodes[1..])
    ensures nodes[0].WText? && |nodes| > 1 ==> !nodes[1].WText?
    ensures RenderAll(nodes) + RenderClosing(closing, space)
         == RenderNode(nodes[0]) + (RenderAll(nodes[1..]) + RenderClosing(closing, space))
  {
    hide RenderNode, WellFormed, RenderClosing;
    var rest := nodes[1..];
    RestWellFormed(nodes);
    hide WellFormedAll;
    ConcatAssoc(RenderNode(nodes[0]), RenderAll(rest), RenderClosing(closing, space));
  }

  lemma RestWellFormed(nodes: seq<WNode>)
    requires nodes != [] && WellFormedAll(nodes)
    ensures WellFormed(nodes[0]) && WellFormedAll(nodes[1..])
    ensures nodes[0].WText? && |nodes| > 1 ==> !nodes[1].WText?
  {
    hide WellFormed;
    var rest := nodes[1..];
    assert forall k :: 0 <= k < |rest| ==> rest[k] == nodes[k + 1];
    assert forall k :: 0 < k < |rest| ==> rest[k - 1] == nodes[k];
  }

  lemma DenotedSplits(nodes: seq<WNode>, name: string, closing: string, fl: Flags)
    requires nodes != []
    ensures var first, rest := Denoted(nodes[0], fl), Checked(DenotedAll(nodes[1..], fl), name, closing, fl);
            Checked(DenotedAll(nodes, fl), name, closing, fl)
            == if first.Some? && rest.Some? then Some(first.value + rest.value) else None
  {
    hide Denoted;
  }

  /** Contents up to and with the closing tag. */
  lemma {:induction false} ContentsRead(t: string, i: nat, nodes: seq<WNode>, fl: Flags, name: string,
                                        closing: string, space: string, value: string, done: seq<Node>)
    requires WellFormedAll(nodes) && All(closing, NodeName) && White(space)
    requires Has(t, i, RenderAll(nodes) + RenderClosing(closing, space))
    ensures i <= |t|
    ensures ContentsGive(ParseContents(t, i, fl, name, value, done), Checked(DenotedAll(nodes, fl), name, closing, fl), value, done,
                         i + |RenderAll(nodes) + RenderClosing(closing, space)|)
    decreases nodes, 3
  {
    hide *;
    if nodes != [] && nodes[0].WText? {
      var raw, rest := nodes[0].raw, RenderAll(nodes[1..]) + RenderClosing(closing, space);
      AllParts(nodes, closing, space);
      RenderText(nodes[0]);
      HasConcat(t, i, raw, rest);
      MarkupStarts(t, i + |raw|, nodes[1..], closing, space);
      TextRead(t, i, raw, fl, name, value, done);
      var first := Denoted(nodes[0], fl);
      if first.Some? {
        MarkupRead(t, i + |raw|, nodes[1..], fl, name, closing, space, AdoptAll(value, first.value), done + first.value);
      }
      DenotedSplits(nodes, name, closing, fl);
      JoinGives(ParseContents(t, i, fl, name, value, done), first, Checked(DenotedAll(nodes[1..], fl), name, closing, fl),
                value, done, i + |RenderAll(nodes) + RenderClosing(closing, space)|);
    } else {
      MarkupStarts(t, i, nodes, closing, space);
      MarkupAtOnce(t, i, fl, name, value, done);
      MarkupRead(t, i, nodes, fl, name, closing, space, value, done);
    }
  }

  lemma RenderText(w: WNode)
    requires w.WText?
    ensures RenderNode(w) == w.raw && w == WText(w.raw)
  {
  }

  /** What is no text starts with a tag. */
  lemma MarkupStarts(t: string, i: nat, nodes: seq<WNode>, closing: string, space: string)
    requires nodes != [] ==> !nodes[0].WText?
    requires Has(t, i, RenderAll(nodes) + RenderClosing(closing, space))
    ensures i < |t| && At(t, i) == '<'
  {
    var s := RenderAll(nodes) + RenderClosing(closing, space);
    if nodes != [] {
      NodeStarts(nodes[0]);
    }
    hide RenderNode;
    assert s != [] && s[0] == '<';
    HasAt(t, i, s, 0);
  }

  lemma NodeStarts(w: WNode)
    requires !w.WText?
    ensures RenderNode(w) != [] && RenderNode(w)[0] == '<'
  {
    hide RenderAll, RenderAttributes, RenderClosing;
  }

  lemma MarkupAtOnce(t: string, i: nat, fl: Flags, name: string, value: string, done: seq<Node>)
    requires i < |t| && At(t, i) == '<'
    ensures ParseContents(t, i, fl, name, value, done) == ParseMarkup(t, i, fl, name, value, done)
  {
    SkipRun(t, i, i, Whitespace);
  }

  lemma {:induction false} MarkupRead(t: string, i: nat, nodes: seq<WNode>, fl: Flags, name: string,
                                      closing: string, space: string, value: string, done: seq<Node>)
    requires WellFormedAll(nodes) && (nodes != [] ==> !nodes[0].WText?) && All(closing, NodeName) && White(space)
    requires Has(t, i, RenderAll(nodes) + RenderClosing(closing, space))
    ensures i < |t| && At(t, i) == '<'
    ensures ContentsGive(ParseMarkup(t, i, fl, name, value, done), Checked(DenotedAll(nodes, fl), name, closing, fl), value, done,
                         i + |RenderAll(nodes) + RenderClosing(closing, space)|)
    decreases nodes, 2
  {
    hide *;
    if nodes == [] {
      OnlyClosing(closing, space, fl);
      ClosingRead(t, i, fl, name, closing, space, value, done);
    } else {
      var rest := RenderAll(nodes[1..]) + RenderClosing(closing, space);
      var next := i + |RenderNode(nodes[0])|;
      AllParts(nodes, closing, space);
      HasConcat(t, i, RenderNode(nodes[0]), rest);
      HasEnds(t, i, RenderNode(nodes[0]));
      NodeRead(t, i, nodes[0], fl);
      var first := Denoted(nodes[0], fl);
      if first.Some? {
        ContentsRead(t, next, nodes[1..], fl, name, closing, space, AdoptAll(value, first.value), done + first.value);
      }
      NodeFirst(t, i, nodes[0], next, fl, name, value, done);
      DenotedSplits(nodes, name, closing, fl);
      JoinGives(ParseMarkup(t, i, fl, name, value, done), first, Checked(DenotedAll(nodes[1..], fl), name, closing, fl),
                value, done, i + |RenderAll(nodes) + RenderClosing(closing, space)|);
    }
  }

  lemma OnlyClosing(closing: string, space: string, fl: Flags)
    ensures RenderAll([]) + RenderClosing(closing, space) == RenderClosing(closing, space)
    ensures DenotedAll([], fl) == Some([])
  {
  }

  /** One node inside contents, and what comes behind it. */
  lemma NodeFirst(t: string, i: nat, w: WNode, next: nat, fl: Flags, name: string, value: string, done: seq<Node>)
    requires !w.WText? && Starts(t, i) && next <= |t| && NodesGive(ParseNode(t, i + 1, fl), Denoted(w, fl), next)
    ensures i < |t| && At(t, i) == '<'
    ensures match Denoted(w, fl)
            case None => ParseMarkup(t, i, fl, name, value, done).BadContents?
            case Some(list) =>
              ParseMarkup(t, i, fl, name, value, done) == ParseContents(t, next, fl, name, AdoptAll(value, list), done + list)
  {
    hide ParseNode, ParseContents;
    NoneAdopted(w, fl, value);
    hide Denoted;
    if Denoted(w, fl) == Some([]) {
      assert done + [] == done;
    }
  }

  lemma NoneAdopted(w: WNode, fl: Flags, value: string)
    requires !w.WText?
    ensures Denoted(w, fl).Some? ==> |Denoted(w, fl).value| <= 1 && AdoptAll(value, Denoted(w, fl).value) == value
    ensures Denoted(w, fl).Some? && Denoted(w, fl).value != [] ==> [Denoted(w, fl).value[0]] == Denoted(w, fl).value
  {
    var r := Denoted(w, fl);
    hide Denoted;
    if r.Some? && r.value != [] {
      assert r.value[1..] == [];
    }
  }

  // ---- Documents ----

  /** Outside all elements there is no text but white space. */
  predicate WhiteTexts(nodes: seq<WNode>) {
    forall k :: 0 <= k < |nodes| && nodes[k].WText? ==> White(nodes[k].raw)
  }

  lemma {:induction false} SkipThrough(t: string, i: nat, j: nat)
    requires i <= j <= |t| && forall k :: i <= k < j ==> Whitespace.Test(t[k])
    ensures Skip(t, i, Whitespace) == Skip(t, j, Whitespace)
    decreases j - i
  {
    if i < j {
      SkipThrough(t, i + 1, j);
    }
  }

  lemma WhiteBetween(t: string, i: nat, raw: string, fl: Flags, done: seq<Node>)
    requires Has(t, i, raw) && White(raw)
    ensures i + |raw| <= |t| && ParseTopLevel(t, i, fl, done) == ParseTopLevel(t, i + |raw|, fl, done)
  {
    hide Skip, ParseNode, ParseTopLevel;
    HasEnds(t, i, raw);
    forall k | i <= k < i + |raw| ensures Whitespace.Test(t[k]) {
      HasAt(t, i, raw, k - i);
    }
    SkipThrough(t, i, i + |raw|);
    SameTopLevel(t, i, i + |raw|, fl, done);
  }

  lemma SameTopLevel(t: string, i: nat, j: nat, fl: Flags, done: seq<Node>)
    requires i <= j <= |t| && Skip(t, i, Whitespace) == Skip(t, j, Whitespace)
    ensures ParseTopLevel(t, i, fl, done) == ParseTopLevel(t, j, fl, done)
  {
    hide Skip, ParseNode;
  }

  lemma NodeAtTop(t: string, i: nat, w: WNode, next: nat, fl: Flags, done: seq<Node>)
    requires !w.WText? && Starts(t, i) && next <= |t| && NodesGive(ParseNode(t, i + 1, fl), Denoted(w, fl), next)
    ensures match Denoted(w, fl)
            case None => ParseTopLevel(t, i, fl, done).BadDocument?
            case Some(list) => ParseTopLevel(t, i, fl, done) == ParseTopLevel(t, next, fl, done + list)
  {
    hide ParseNode;
    SkipRun(t, i, i, Whitespace);
    NoneAdopted(w, fl, []);
    hide Denoted, Skip;
    if Denoted(w, fl) == Some([]) {
      assert done + [] == done;
    }
  }

  lemma JoinDocument(r: DocumentResult, first: Option<seq<Node>>, rest: Option<seq<Node>>, done: seq<Node>)
    requires if first.None? then r.BadDocument? else DocumentGives(r, rest, done + first.value)
    ensures DocumentGives(r, if first.Some? && rest.Some? then Some(first.value + rest.value) else None, done)
  {
    if first.Some? && rest.Some? {
      assert done + first.value + rest.value == done + (first.value + rest.value);
    }
  }

  lemma TopParts(nodes: seq<WNode>)
    requires nodes != [] && WellFormedAll(nodes) && WhiteTexts(nodes)
    ensures WellFormed(nodes[0]) && WellFormedAll(nodes[1..]) && WhiteTexts(nodes[1..])
    ensures nodes[0].WText? ==> White(nodes[0].raw)
    ensures RenderAll(nodes) == RenderNode(nodes[0]) + RenderAll(nodes[1..])
  {
    hide RenderNode, WellFormed;
    var rest := nodes[1..];
    assert forall k :: 0 <= k < |rest| ==> rest[k] == nodes[k + 1];
    assert forall k :: 0 < k < |rest| ==> rest[k - 1] == nodes[k];
  }

  lemma {:induction false} TopLevelRead(t: string, i: nat, nodes: seq<WNode>, fl: Flags, done: seq<Node>)
    requires WellFormedAll(nodes) && WhiteTexts(nodes) && Has(t, i, RenderAll(nodes)) && At(t, i + |RenderAll(nodes)|) == '\0'
    ensures i <= |t| && DocumentGives(ParseTopLevel(t, i, fl, done), DenotedAll(nodes, fl), done)
    decreases |nodes|
  {
    hide *;
    HasEnds(t, i, RenderAll(nodes));
    if nodes == [] {
      DocumentOver(t, i, fl, done);
    } else {
      var w, rest := nodes[0], RenderAll(nodes[1..]);
      var next := i + |RenderNode(w)|;
      TopParts(nodes);
      HasConcat(t, i, RenderNode(w), rest);
      HasEnds(t, i, RenderNode(w));
      var first := Denoted(w, fl);
      if w.WText? {
        RenderText(w);
        TextDenotes(w.raw, fl);
        WhiteBetween(t, i, w.raw, fl, done);
        TopLevelRead(t, next, nodes[1..], fl, done);
        assert done + [] == done;
      } else {
        NodeRead(t, i, w, fl);
        if first.Some? {
          TopLevelRead(t, next, nodes[1..], fl, done + first.value);
        }
        NodeAtTop(t, i, w, next, fl, done);
      }
      JoinDocument(ParseTopLevel(t, i, fl, done), first, DenotedAll(nodes[1..], fl), done);
      AllDenoted(nodes, fl);
    }
  }

  lemma AllDenoted(nodes: seq<WNode>, fl: Flags)
    requires nodes != []
    ensures var first, rest := Denoted(nodes[0], fl), DenotedAll(nodes[1..], fl);
            DenotedAll(nodes, fl) == if first.Some? && rest.Some? then Some(first.value + rest.value) else None
  {
    hide Denoted;
  }

  lemma DocumentOver(t: string, i: nat, fl: Flags, done: seq<Node>)
    requires i + |RenderAll([])| <= |t| && At(t, i + |RenderAll([])|) == '\0'
    ensures DocumentGives(ParseTopLevel(t, i, fl, done), DenotedAll([], fl), done)
  {
    SkipRun(t, i, i, Whitespace);
    assert done + [] == done;
  }

  lemma BomSkipped(t: string, w: WDocument)
    requires IsWritten(t, w)
    ensures var i := SkipBom(t);
            && i == (if w.bom then 3 else 0) && Has(t, i, RenderAll(w.nodes)) && At(t, i + |RenderAll(w.nodes)|) == '\0'
  {
    var s := RenderAll(w.nodes);
    if w.bom {
      HasConcat(t, 0, BOM, s);
      Letters(t, 0, BOM);
      assert At(t, 0 + 0) == BOM[0] && At(t, 0 + 1) == BOM[1] && At(t, 0 + 2) == BOM[2];
      hide Has, RenderAll;
    } else {
      assert [] + s == s;
      StartsPlainly(w.nodes);
      if s != [] {
        HasAt(t, 0, s, 0);
      }
    }
  }

  lemma StartsPlainly(nodes: seq<WNode>)
    requires WellFormedAll(nodes) && WhiteTexts(nodes)
    ensures RenderAll(nodes) == [] || RenderAll(nodes)[0] == '<' || IsSpace(RenderAll(nodes)[0])
  {
    if nodes != [] {
      var w := nodes[0];
      assert WellFormed(w);
      if !w.WText? {
        NodeStarts(w);
        hide RenderNode;
      }
    }
  }

  /**
   * Whatever is written parses to what it denotes: white space inside tags, either quote, comments,
   * instructions, document types and a byte order mark make no difference, closing tags may carry any name
   * unless they are validated, and a reference that cannot be expanded is an error.
   */
  lemma DocumentRead(t: string, w: WDocument, fl: Flags)
    requires IsWritten(t, w)
    ensures match DenotedAll(w.nodes, fl)
            case None => ParseDocument(t, fl).BadDocument?
            case Some(children) => ParseDocument(t, fl) == ParsedDocument(children)
  {
    BomSkipped(t, w);
    hide WellFormedAll, RenderAll, Has, SkipBom;
    TopLevelRead(t, SkipBom(t), w.nodes, fl, []);
    hide DenotedAll;
    match DenotedAll(w.nodes, fl)
    case None =>
    case Some(children) => assert [] + children == children;
  }
}

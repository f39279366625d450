/** Whatever the parser accepts is written by the grammar. */
module GrammarComplete {
  import opened Text
  import opened CharRefs
  import opened References
  import opened Parser
  import opened NormalForm
  import opened RoundTrip
  import opened Translation
  import opened Grammar
  import opened GrammarParse

  // ---- Stretches of the text ----

  lemma Stretch(t: string, i: nat, j: nat)
    requires i <= j <= |t|
    ensures Has(t, i, t[i..j]) && |t[i..j]| == j - i && forall k :: 0 <= k < j - i ==> t[i..j][k] == t[i + k]
  {
  }

  /** What is skipped consists of characters that the predicate accepts. */
  lemma Skipped(t: string, i: nat, p: Pred)
    requires i <= |t|
    ensures var j := Skip(t, i, p); i <= j <= |t| && Has(t, i, t[i..j]) && |t[i..j]| == j - i && All(t[i..j], p)
  {
    Stretch(t, i, Skip(t, i, p));
  }

  lemma SkippedWhite(t: string, i: nat)
    requires i <= |t|
    ensures var j := Skip(t, i, Whitespace); i <= j <= |t| && Has(t, i, t[i..j]) && |t[i..j]| == j - i && White(t[i..j])
  {
    Skipped(t, i, Whitespace);
  }

  lemma OneChar(t: string, i: nat)
    requires i < |t|
    ensures Has(t, i, [t[i]])
  {
    assert t[i..i + 1] == [t[i]];
  }

  /** The text in front of the first mark, and the mark. */
  lemma MarkedOff(t: string, i: nat, mark: string)
    requires i <= |t| && FindMark(t, i, mark).Ok?
    ensures var j := FindMark(t, i, mark).value;
            i <= j && Has(t, i, t[i..j] + mark) && EndsWith(t[i..j], mark) && |t[i..j]| == j - i && j + |mark| <= |t|
  {
    var j := FindMark(t, i, mark).value;
    var text := t[i..j];
    HasEnds(t, j, mark);
    Stretch(t, i, j);
    HasConcat(t, i, text, mark);
    forall k | 0 <= k < |text| ensures !Has(text + mark, k, mark) {
      if Has(text + mark, k, mark) {
        MarkInside(t, i, text + mark, k, mark);
      }
    }
  }

  // ---- Attributes ----

  lemma SliceJoin(t: string, i: nat, j: nat, k: nat)
    requires i <= j <= k <= |t|
    ensures t[i..j] + t[j..k] == t[i..k]
  {
  }

  /** The parts of an attribute, put together. */
  lemma AttributeJoined(t: string, i: nat, n: nat, m: nat, e: nat, q: nat, close: nat)
    requires i <= n <= m <= e < q < close < |t| && t[e] == '=' && t[close] == t[q]
    ensures RenderAttribute(WAttribute(t[i..n], t[n..m], t[m..e], t[e + 1..q], t[q], t[q + 1..close])) == t[i..close + 1]
  {
    AttributeBack(t, e, q, close);
    One(t, e);
    AttributeFront(t, i, n, m, e, close + 1);
  }

  lemma One(t: string, i: nat)
    requires i < |t|
    ensures t[i..i + 1] == [t[i]]
  {
  }

  lemma AttributeBack(t: string, e: nat, q: nat, close: nat)
    requires e < q < close < |t| && t[close] == t[q]
    ensures t[e + 1..q] + ([t[q]] + (t[q + 1..close] + [t[q]])) == t[e + 1..close + 1]
  {
    One(t, q);
    One(t, close);
    SliceJoin(t, q + 1, close, close + 1);
    SliceJoin(t, q, q + 1, close + 1);
    SliceJoin(t, e + 1, q, close + 1);
  }

  lemma AttributeFront(t: string, i: nat, n: nat, m: nat, e: nat, end: nat)
    requires i <= n <= m <= e < end <= |t|
    ensures t[i..n] + (t[n..m] + (t[m..e] + (t[e..e + 1] + t[e + 1..end]))) == t[i..end]
  {
    SliceJoin(t, e, e + 1, end);
    SliceJoin(t, m, e, end);
    SliceJoin(t, n, m, end);
    SliceJoin(t, i, n, end);
  }

  lemma AttributeWritten(t: string, i: nat, fl: Flags) returns (a: WAttribute)
    requires i <= |t| && AttributeName.Test(At(t, Skip(t, i, Whitespace)))
    requires ParseAttribute(t, Skip(t, i, Whitespace), fl).ParsedAttribute?
    ensures GoodAttribute(a) && a.before == t[i..Skip(t, i, Whitespace)] && Has(t, i, RenderAttribute(a))
    ensures ParseAttribute(t, Skip(t, i, Whitespace), fl).next == Skip(t, i + |RenderAttribute(a)|, Whitespace)
    ensures i + |RenderAttribute(a)| <= |t|
  {
    hide *;
    var n := Skip(t, i, Whitespace);
    SkippedWhite(t, i);
    Present(t, n, AttributeName);
    var m, e, q, close := AttributeEnds(t, n, fl);
    a := WAttribute(t[i..n], t[n..m], t[m..e], t[e + 1..q], t[q], t[q + 1..close]);
    AttributeIsGood(a);
    AttributeJoined(t, i, n, m, e, q, close);
    Stretch(t, i, close + 1);
  }

  /** A character that a name may hold is not the terminator. */
  lemma Present(t: string, n: nat, p: Pred)
    requires n <= |t| && p == AttributeName && p.Test(At(t, n))
    ensures n < |t| && p.Test(t[n])
  {
  }

  lemma AttributeIsGood(a: WAttribute)
    requires White(a.before) && a.name != [] && All(a.name, AttributeName) && White(a.beforeEquals)
    requires White(a.afterEquals) && IsQuote(a.quote) && All(a.raw, AttributeValue(a.quote))
    ensures GoodAttribute(a)
  {
  }

  /** Where the parts of an accepted attribute end. */
  lemma AttributeEnds(t: string, n: nat, fl: Flags) returns (m: nat, e: nat, q: nat, close: nat)
    requires n < |t| && AttributeName.Test(t[n]) && ParseAttribute(t, n, fl).ParsedAttribute?
    ensures n < m <= e < q < close < |t| && t[e] == '=' && IsQuote(t[q]) && t[close] == t[q]
    ensures All(t[n..m], AttributeName) && White(t[m..e]) && White(t[e + 1..q]) && All(t[q + 1..close], AttributeValue(t[q]))
    ensures ParseAttribute(t, n, fl).next == Skip(t, close + 1, Whitespace)
  {
    hide *;
    m, e, q := HeadEnds(t, n, fl);
    QuoteScans(t[q]);
    ScanEnds(t, q + 1, AttributeValue(t[q]), fl);
    close := Skip(t, q + 1, AttributeValue(t[q]));
    ValueEnds(t, n, m, q, close, fl);
    FirstToo(t, n);
    SkippedWhite(t, m);
    SkippedWhite(t, e + 1);
    Skipped(t, q + 1, AttributeValue(t[q]));
  }

  lemma HeadEnds(t: string, n: nat, fl: Flags) returns (m: nat, e: nat, q: nat)
    requires n < |t| && ParseAttribute(t, n, fl).ParsedAttribute?
    ensures m == Skip(t, n + 1, AttributeName) && n < m <= |t| && e == Skip(t, m, Whitespace) && e < |t|
    ensures q == Skip(t, e + 1, Whitespace) && m <= e < q < |t|
    ensures t[e] == '=' && IsQuote(t[q]) && ParseAttributeHead(t, n) == Head(m, q)
  {
    hide ScanValue;
    m := Skip(t, n + 1, AttributeName);
    e := Skip(t, m, Whitespace);
    q := Skip(t, e + 1, Whitespace);
  }

  lemma ValueEnds(t: string, n: nat, m: nat, q: nat, close: nat, fl: Flags)
    requires n < |t| && ParseAttribute(t, n, fl).ParsedAttribute? && ParseAttributeHead(t, n) == Head(m, q)
    requires q < |t| && IsQuote(t[q]) && close == Skip(t, q + 1, AttributeValue(t[q]))
    requires var r := ScanValue(t, q + 1, AttributeValue(t[q]), fl); r.Expanded? ==> r.next == close
    ensures q < close < |t| && t[close] == t[q] && ParseAttribute(t, n, fl).next == Skip(t, close + 1, Whitespace)
  {
    hide ParseAttributeHead, ScanValue, Skip;
  }

  lemma FirstToo(t: string, n: nat)
    requires n < |t| && AttributeName.Test(t[n])
    ensures n < Skip(t, n + 1, AttributeName) <= |t| && All(t[n..Skip(t, n + 1, AttributeName)], AttributeName)
  {
    Skipped(t, n + 1, AttributeName);
    Stretch(t, n, Skip(t, n + 1, AttributeName));
  }

  lemma {:induction false} AttributesWritten(t: string, i: nat, fl: Flags, done: seq<Attribute>)
    returns (attributes: seq<WAttribute>, space: string)
    requires i <= |t| && ParseAttributes(t, Skip(t, i, Whitespace), fl, done).ParsedAttributes?
    ensures (forall k :: 0 <= k < |attributes| ==> GoodAttribute(attributes[k])) && White(space)
    ensures attributes != [] ==> attributes[0].before == t[i..Skip(t, i, Whitespace)]
    ensures attributes != [] ==> AttributeName.Test(At(t, Skip(t, i, Whitespace)))
    ensures Has(t, i, RenderAttributes(attributes) + space)
    ensures ParseAttributes(t, Skip(t, i, Whitespace), fl, done).next == i + |RenderAttributes(attributes) + space| <= |t|
    decreases |t| - i
  {
    hide *;
    var n := Skip(t, i, Whitespace);
    SkippedWhite(t, i);
    if AttributeName.Test(At(t, n)) {
      AttributesGoOn(t, n, fl, done);
      var a := AttributeWritten(t, i, fl);
      var next := i + |RenderAttribute(a)|;
      RenderNonempty(a);
      var rest, tail := AttributesWritten(t, next, fl, done + [ParseAttribute(t, n, fl).attribute]);
      attributes, space := [a] + rest, tail;
      AttributesSplit(attributes, space);
      HasConcat(t, i, RenderAttribute(a), RenderAttributes(rest) + tail);
      assert attributes[1..] == rest;
    } else {
      attributes, space := [], t[i..n];
      AttributesStopHere(t, n, fl, done, space);
    }
  }

  lemma AttributesGoOn(t: string, n: nat, fl: Flags, done: seq<Attribute>)
    requires n <= |t| && AttributeName.Test(At(t, n)) && ParseAttributes(t, n, fl, done).ParsedAttributes?
    ensures n < |t| && ParseAttribute(t, n, fl).ParsedAttribute?
    ensures var ParsedAttribute(a, next) := ParseAttribute(t, n, fl);
            next <= |t| && ParseAttributes(t, n, fl, done) == ParseAttributes(t, next, fl, done + [a])
  {
    hide ParseAttribute;
  }

  lemma AttributesStopHere(t: string, n: nat, fl: Flags, done: seq<Attribute>, space: string)
    requires n <= |t| && !AttributeName.Test(At(t, n))
    ensures RenderAttributes([]) + space == space && ParseAttributes(t, n, fl, done) == ParsedAttributes(done, n)
  {
  }

  lemma RenderNonempty(a: WAttribute)
    ensures |RenderAttribute(a)| > 0
  {
  }

  // ---- Openings ----

  lemma OpeningWritten(t: string, i: nat, fl: Flags) returns (name: string, attributes: seq<WAttribute>, space: string)
    requires i < |t| && t[i] == '<' && ParseOpening(t, i + 1, fl).Opening?
    ensures name != [] && All(name, NodeName) && GoodAttributes(attributes) && White(space)
    ensures Has(t, i, RenderOpening(name, attributes, space)) && At(t, i + 1) == name[0]
    ensures var r := ParseOpening(t, i + 1, fl);
            && r.next == i + |RenderOpening(name, attributes, space)| <= |t| && i + 1 + |name| == r.nameEnd
  {
    hide *;
    var m := OpeningSplits(t, i + 1, fl);
    name := t[i + 1..m];
    Skipped(t, i + 1, NodeName);
    Stretch(t, i + 1, m);
    attributes, space := AttributesWritten(t, m, fl, []);
    if attributes != [] {
      SpaceFirst(t, m);
    }
    GoodTogether(attributes);
    OpeningIs(name, attributes, space);
    OneChar(t, i);
    var rest := RenderAttributes(attributes) + space;
    HasConcat(t, i + 1, name, rest);
    HasConcat(t, i, "<", name + rest);
    AtIs(t, i + 1);
  }

  lemma AtIs(t: string, i: nat)
    ensures i < |t| ==> At(t, i) == t[i]
  {
  }

  lemma OpeningSplits(t: string, i: nat, fl: Flags) returns (m: nat)
    requires i <= |t| && ParseOpening(t, i, fl).Opening?
    ensures m == Skip(t, i, NodeName) && i < m <= |t| && !NodeName.Test(At(t, m))
    ensures ParseOpening(t, i, fl).nameEnd == m
    ensures var r := ParseAttributes(t, Skip(t, m, Whitespace), fl, []);
            r.ParsedAttributes? && ParseOpening(t, i, fl).next == r.next
  {
    m := Skip(t, i, NodeName);
    hide ParseAttributes;
  }

  /** Between the name and an attribute there is white space, since the name would go on otherwise. */
  lemma SpaceFirst(t: string, m: nat)
    requires m <= |t| && !NodeName.Test(At(t, m)) && AttributeName.Test(At(t, Skip(t, m, Whitespace)))
    ensures t[m..Skip(t, m, Whitespace)] != []
  {
    assert Skip(t, m, Whitespace) != m;
  }

  lemma GoodTogether(attributes: seq<WAttribute>)
    requires forall k :: 0 <= k < |attributes| ==> GoodAttribute(attributes[k])
    requires attributes != [] ==> attributes[0].before != []
    ensures GoodAttributes(attributes)
  {
  }

  // ---- Constructs without children ----

  /** What stands at `i`, and where it ends. */
  ghost predicate NodeStands(t: string, i: nat, w: WNode, end: nat) {
    WellFormed(w) && !w.WText? && Has(t, i, RenderNode(w)) && end == i + |RenderNode(w)| && i < end <= |t|
  }

  lemma Framed(t: string, i: nat, open: string, text: string, close: string, end: nat)
    requires Has(t, i, open) && Has(t, i + |open|, text + close) && open != []
    requires end == i + |open| + |text + close|
    ensures Has(t, i, open + (text + close)) && end == i + |open + (text + close)| && i < end <= |t|
  {
    hide Has;
    HasConcat(t, i, open, text + close);
    HasEnds(t, i, open + (text + close));
  }

  lemma InstructionWritten(t: string, i: nat, fl: Flags) returns (w: WNode)
    requires i + 1 < |t| && Has(t, i, "<?") && ParseNode(t, i + 1, fl).ParsedNode?
    ensures NodeStands(t, i, w, ParseNode(t, i + 1, fl).next)
  {
    HasAt(t, i, "<?", 1);
    if IsXmlDeclaration(t, i + 2) {
      DeclarationFound(t, i + 2);
    }
    MarkedOff(t, i + 2, "?>");
    var end := FindMark(t, i + 2, "?>").value;
    w := WInstruction(t[i + 2..end]);
    Framed(t, i, "<?", t[i + 2..end], "?>", end + 2);
  }

  lemma DeclarationFound(t: string, i: nat)
    requires i <= |t| && IsXmlDeclaration(t, i)
    ensures i + 4 <= |t| && (FindMark(t, i + 4, "?>").Ok? ==> FindMark(t, i, "?>") == FindMark(t, i + 4, "?>"))
  {
    assert i + 3 < |t|;
    var r := FindMark(t, i + 4, "?>");
    if r.Ok? {
      forall k | i <= k < i + 4 ensures !Has(t, k, "?>") && t[k] != '\0' {
        if Has(t, k, "?>") {
          HasAt(t, k, "?>", 0);
        }
      }
      FindFirst(t, i, r.value, "?>");
    }
  }

  lemma BangWritten(t: string, i: nat, fl: Flags) returns (w: WNode)
    requires i + 1 < |t| && Has(t, i, "<!") && ParseNode(t, i + 1, fl).ParsedNode?
    ensures NodeStands(t, i, w, ParseNode(t, i + 1, fl).next)
  {
    HasAt(t, i, "<!", 1);
    HasEnds(t, i, "<!");
    assert ParseNode(t, i + 1, fl) == ParseBang(t, i + 2);
    if Has(t, i + 2, "--") {
      w := CommentWritten(t, i);
    } else if Has(t, i + 2, "[CDATA[") {
      w := CDataWritten(t, i);
    } else if IsDoctype(t, i + 2) {
      w := DoctypeWritten(t, i);
    } else {
      w := OtherWritten(t, i);
    }
  }

  lemma CommentWritten(t: string, i: nat) returns (w: WNode)
    requires i + 2 <= |t| && Has(t, i, "<!") && Has(t, i + 2, "--") && ParseBang(t, i + 2).ParsedNode?
    ensures NodeStands(t, i, w, ParseBang(t, i + 2).next)
  {
    assert "<!" + "--" == "<!--";
    HasConcat(t, i, "<!", "--");
    HasEnds(t, i, "<!--");
    MarkedOff(t, i + 4, "-->");
    var end := FindMark(t, i + 4, "-->").value;
    w := WComment(t[i + 4..end]);
    Framed(t, i, "<!--", t[i + 4..end], "-->", end + 3);
  }

  lemma CDataWritten(t: string, i: nat) returns (w: WNode)
    requires i + 2 <= |t| && Has(t, i, "<!") && !Has(t, i + 2, "--") && Has(t, i + 2, "[CDATA[") && ParseBang(t, i + 2).ParsedNode?
    ensures NodeStands(t, i, w, ParseBang(t, i + 2).next)
  {
    assert "<!" + "[CDATA[" == "<![CDATA[";
    HasConcat(t, i, "<!", "[CDATA[");
    HasEnds(t, i, "<![CDATA[");
    MarkedOff(t, i + 9, "]]>");
    var end := FindMark(t, i + 9, "]]>").value;
    w := WCData(t[i + 9..end]);
    Framed(t, i, "<![CDATA[", t[i + 9..end], "]]>", end + 3);
  }

  lemma OtherWritten(t: string, i: nat) returns (w: WNode)
    requires i + 2 <= |t| && Has(t, i, "<!") && ParseBang(t, i + 2).ParsedNode?
    requires !Has(t, i + 2, "--") && !Has(t, i + 2, "[CDATA[") && !IsDoctype(t, i + 2)
    ensures NodeStands(t, i, w, ParseBang(t, i + 2).next)
  {
    MarkedOff(t, i + 2, ">");
    var end := FindMark(t, i + 2, ">").value;
    var text := t[i + 2..end];
    w := WOther(text);
    Framed(t, i, "<!", text, ">", end + 1);
    Stretch(t, i + 2, end);
    NothingElse(t, i + 2, text);
  }

  lemma NothingElse(t: string, i: nat, text: string)
    requires Has(t, i, text) && !Has(t, i, "--") && !Has(t, i, "[CDATA[") && !IsDoctype(t, i)
    ensures IsOther(text)
  {
    PrefixStands(t, i, text, "--");
    PrefixStands(t, i, text, "[CDATA[");
    PrefixStands(t, i, text, "DOCTYPE");
    if |text| > 7 {
      HasAt(t, i, text, 7);
    }
    hide Has;
  }

  lemma PrefixStands(t: string, i: nat, text: string, mark: string)
    requires Has(t, i, text)
    ensures mark <= text ==> Has(t, i, mark)
  {
    if mark <= text {
      assert text == mark + text[|mark|..];
      HasConcat(t, i, mark, text[|mark|..]);
    }
  }

  lemma DoctypeWritten(t: string, i: nat) returns (w: WNode)
    requires i + 2 <= |t| && Has(t, i, "<!") && !Has(t, i + 2, "--") && !Has(t, i + 2, "[CDATA[") && IsDoctype(t, i + 2)
    requires ParseBang(t, i + 2).ParsedNode?
    ensures NodeStands(t, i, w, ParseBang(t, i + 2).next)
  {
    var j := i + 10;
    Letters(t, i + 2, "DOCTYPE");
    assert i + 9 < |t| && At(t, i + 9) == t[i + 9];
    assert ParseBang(t, i + 2) == SkipDoctype(t, j, 0);
    DoctypeEnds(t, j);
    DoctypeNulFree(t, j, 0);
    var end := SkipDoctype(t, j, 0).next - 1;
    var text := t[j..end];
    w := WDoctype(t[i + 9], text);
    hide SkipDoctype, ParseBang;
    Stretch(t, j, end);
    DepthsShift(t, j, end);
    DoctypeStands(t, i, text, end);
  }

  lemma {:induction false} DoctypeNulFree(t: string, i: nat, depth: nat)
    requires i <= |t| && SkipDoctype(t, i, depth).ParsedNode?
    ensures forall k :: i <= k < SkipDoctype(t, i, depth).next ==> t[k] != '\0'
    decreases |t| - i
  {
    if !(depth == 0 && t[i] == '>') {
      DoctypeNulFree(t, i + 1, if t[i] == '[' then depth + 1 else if t[i] == ']' && depth > 0 then depth - 1 else depth);
    }
  }

  lemma {:induction false} DepthShifts(t: string, i: nat, j: nat, k: nat)
    requires i <= j <= |t| && k <= j - i
    ensures Depth(t[i..j], 0, k) == Depth(t, i, i + k)
  {
    if k > 0 {
      DepthShifts(t, i, j, k - 1);
      assert t[i..j][k - 1] == t[i + k - 1];
    }
  }

  lemma DepthsShift(t: string, i: nat, j: nat)
    requires i <= j < |t| && FirstOutside(t, i, j) && forall k :: i <= k <= j ==> t[k] != '\0'
    ensures Bracketed(t[i..j])
  {
    DepthShifts(t, i, j, j - i);
    forall k | 0 <= k < j - i && t[i..j][k] == '>' ensures Depth(t[i..j], 0, k) > 0 {
      DepthShifts(t, i, j, k);
      assert t[i + k] == '>';
    }
  }

  lemma DoctypeStands(t: string, i: nat, text: string, end: nat)
    requires Has(t, i, "<!") && Has(t, i + 2, "DOCTYPE") && i + 9 < |t| && IsSpace(t[i + 9])
    requires Has(t, i + 10, text) && end == i + 10 + |text| < |t| && t[end] == '>' && Bracketed(text)
    ensures NodeStands(t, i, WDoctype(t[i + 9], text), end + 1)
  {
    assert "<!" + "DOCTYPE" == "<!DOCTYPE";
    HasConcat(t, i, "<!", "DOCTYPE");
    OneChar(t, i + 9);
    OneChar(t, end);
    HasConcat(t, i + 10, text, ">");
    HasConcat(t, i + 9, [t[i + 9]], text + ">");
    Framed(t, i, "<!DOCTYPE", [t[i + 9]], text + ">", end + 1);
  }

  // ---- Elements and contents ----

  /** A node behind a `<` that opens no closing tag. */
  lemma {:induction false} NodeWritten(t: string, i: nat, fl: Flags) returns (w: WNode)
    requires i < |t| && t[i] == '<' && At(t, i + 1) != '/' && ParseNode(t, i + 1, fl).ParsedNode?
    ensures NodeStands(t, i, w, ParseNode(t, i + 1, fl).next)
    decreases |t| - i, 1
  {
    hide ParseNode, NodeStands;
    if At(t, i + 1) == '?' {
      TwoChars(t, i, '?');
      assert ['<', '?'] == "<?";
      w := InstructionWritten(t, i, fl);
    } else if At(t, i + 1) == '!' {
      TwoChars(t, i, '!');
      assert ['<', '!'] == "<!";
      w := BangWritten(t, i, fl);
    } else {
      w := ElementWritten(t, i, fl);
    }
  }

  lemma TwoChars(t: string, i: nat, c: char)
    requires i < |t| && t[i] == '<' && At(t, i + 1) == c != '\0'
    ensures i + 1 < |t| && Has(t, i, ['<', c])
  {
    assert t[i..i + 2] == ['<', c];
  }

  lemma {:induction false} ElementWritten(t: string, i: nat, fl: Flags) returns (w: WNode)
    requires i < |t| && t[i] == '<' && At(t, i + 1) != '/' && At(t, i + 1) != '?' && At(t, i + 1) != '!'
    requires ParseNode(t, i + 1, fl).ParsedNode?
    ensures NodeStands(t, i, w, ParseNode(t, i + 1, fl).next)
    decreases |t| - i, 0
  {
    hide *;
    ElementSplits(t, i + 1, fl);
    var name, attributes, space := OpeningWritten(t, i, fl);
    var k := ParseOpening(t, i + 1, fl).next;
    if At(t, k) == '>' {
      var nodes, closing, closingSpace := ContentsWritten(t, k + 1, fl, t[i + 1..ParseOpening(t, i + 1, fl).nameEnd], [], []);
      w := WElement(name, attributes, space, Open(nodes, closing, closingSpace));
      OpenElementStands(t, i, w, k);
    } else {
      w := WElement(name, attributes, space, EmptyTag);
      EmptyElementStands(t, i, w, k);
    }
  }

  lemma ElementSplits(t: string, i: nat, fl: Flags)
    requires i <= |t| && At(t, i) != '?' && At(t, i) != '!' && ParseNode(t, i, fl).ParsedNode?
    ensures var r := ParseOpening(t, i, fl);
            && r.Opening? && i < r.nameEnd <= r.next < |t|
            && (At(t, r.next) == '>' ==>
                  var c := ParseContents(t, r.next + 1, fl, t[i..r.nameEnd], [], []);
                  c.ParsedContents? && ParseNode(t, i, fl).next == c.next)
            && (At(t, r.next) != '>' ==>
                  At(t, r.next) == '/' && At(t, r.next + 1) == '>' && ParseNode(t, i, fl).next == r.next + 2)
  {
    hide *;
    NodeIsElement(t, i, fl);
    ElementParts(t, i, fl);
    var r := ParseOpening(t, i, fl);
    BodyParts(t, r.next, fl, t[i..r.nameEnd]);
  }

  lemma NodeIsElement(t: string, i: nat, fl: Flags)
    requires i <= |t| && At(t, i) != '?' && At(t, i) != '!'
    ensures ParseNode(t, i, fl) == ParseElement(t, i, fl)
  {
    hide ParseElement;
  }

  lemma ElementParts(t: string, i: nat, fl: Flags)
    requires i <= |t| && ParseElement(t, i, fl).ParsedNode?
    ensures var r := ParseOpening(t, i, fl);
            && r.Opening? && i < r.nameEnd <= r.next <= |t|
            && var b := ParseBody(t, r.next, fl, t[i..r.nameEnd]); b.ParsedContents? && ParseElement(t, i, fl).next == b.next
  {
    hide ParseOpening, ParseBody;
  }

  lemma BodyParts(t: string, k: nat, fl: Flags, name: string)
    requires k <= |t| && ParseBody(t, k, fl, name).ParsedContents?
    ensures k < |t|
    ensures At(t, k) == '>' ==>
              var c := ParseContents(t, k + 1, fl, name, [], []);
              c.ParsedContents? && ParseBody(t, k, fl, name).next == c.next
    ensures At(t, k) != '>' ==>
              At(t, k) == '/' && At(t, k + 1) == '>' && ParseBody(t, k, fl, name).next == k + 2
  {
    hide ParseContents;
  }

  lemma EmptyElementStands(t: string, i: nat, w: WNode, k: nat)
    requires w.WElement? && w.body.EmptyTag? && w.name != [] && All(w.name, NodeName) && w.name[0] != '!'
    requires GoodAttributes(w.attributes) && White(w.space)
    requires Has(t, i, RenderOpening(w.name, w.attributes, w.space)) && k == i + |RenderOpening(w.name, w.attributes, w.space)|
    requires At(t, k) == '/' && At(t, k + 1) == '>'
    ensures NodeStands(t, i, w, k + 2)
  {
    var opening := RenderOpening(w.name, w.attributes, w.space);
    assert k + 1 < |t| && t[k..k + 2] == "/>";
    HasConcat(t, i, opening, "/>");
    assert RenderNode(w) == opening + "/>" && opening != [];
    hide RenderNode, RenderOpening;
  }

  lemma OpenElementStands(t: string, i: nat, w: WNode, k: nat)
    requires w.WElement? && w.body.Open? && w.name != [] && All(w.name, NodeName) && w.name[0] != '!'
    requires GoodAttributes(w.attributes) && White(w.space)
    requires WellFormedAll(w.body.children) && All(w.body.closing, NodeName) && White(w.body.closingSpace)
    requires Has(t, i, RenderOpening(w.name, w.attributes, w.space)) && k == i + |RenderOpening(w.name, w.attributes, w.space)|
    requires At(t, k) == '>' && Has(t, k + 1, RenderAll(w.body.children) + RenderClosing(w.body.closing, w.body.closingSpace))
    ensures NodeStands(t, i, w, k + 1 + |RenderAll(w.body.children) + RenderClosing(w.body.closing, w.body.closingSpace)|)
  {
    var opening := RenderOpening(w.name, w.attributes, w.space);
    var inside := RenderAll(w.body.children) + RenderClosing(w.body.closing, w.body.closingSpace);
    assert RenderNode(w) == opening + (">" + inside) && opening != [] && WellFormed(w);
    hide RenderNode, RenderOpening, RenderAll, RenderClosing, WellFormed, Has;
    AtIs(t, k);
    OneChar(t, k);
    HasConcat(t, k, ">", inside);
    Framed(t, i, opening, ">", inside, k + 1 + |inside|);
  }

  /** Contents up to and with their closing tag. */
  lemma {:induction false} ContentsWritten(t: string, i: nat, fl: Flags, name: string, value: string, done: seq<Node>)
    returns (nodes: seq<WNode>, closing: string, space: string)
    requires i <= |t| && ParseContents(t, i, fl, name, value, done).ParsedContents?
    ensures WellFormedAll(nodes) && All(closing, NodeName) && White(space)
    ensures Has(t, i, RenderAll(nodes) + RenderClosing(closing, space))
    ensures ParseContents(t, i, fl, name, value, done).next == i + |RenderAll(nodes) + RenderClosing(closing, space)| <= |t|
    decreases |t| - i, 3
  {
    hide *;
    var k, value', done' := ContentsSplit(t, i, fl, name, value, done);
    nodes, closing, space := MarkupWritten(t, k, fl, name, value', done');
    if k > i {
      var raw := t[i..k];
      Stretch(t, i, k);
      TextStands(t, i, raw, nodes, closing, space);
      nodes := [WText(raw)] + nodes;
    }
  }

  /** The text in front of the next tag, if any. */
  lemma ContentsSplit(t: string, i: nat, fl: Flags, name: string, value: string, done: seq<Node>)
    returns (k: nat, value': string, done': seq<Node>)
    requires i <= |t| && ParseContents(t, i, fl, name, value, done).ParsedContents?
    ensures i <= k < |t| && t[k] == '<' && All(t[i..k], CharData)
    ensures ParseContents(t, i, fl, name, value, done) == ParseMarkup(t, k, fl, name, value', done')
  {
    hide ParseMarkup;
    var j := Skip(t, i, Whitespace);
    if At(t, j) == '<' {
      k, value', done' := j, value, done;
      Skipped(t, i, Whitespace);
      assert forall x :: 0 <= x < j - i ==> CharData.Test(t[i..j][x]);
    } else {
      ScanEnds(t, i, CharData, fl);
      Skipped(t, i, CharData);
      var Expanded(text, next) := ScanValue(t, i, CharData, fl);
      k, value', done' := next, Adopt(value, text), done + [Data(text)];
    }
  }

  lemma Prepended(w: WNode, rest: seq<WNode>, closing: string, space: string)
    requires WellFormed(w) && WellFormedAll(rest) && !(w.WText? && rest != [] && rest[0].WText?)
    ensures WellFormedAll([w] + rest)
    ensures RenderAll([w] + rest) == RenderNode(w) + RenderAll(rest)
    ensures RenderAll([w] + rest) + RenderClosing(closing, space) == RenderNode(w) + (RenderAll(rest) + RenderClosing(closing, space))
  {
    var nodes := [w] + rest;
    assert nodes[0] == w && nodes[1..] == rest;
    hide RenderNode, WellFormed, RenderClosing;
    assert forall k :: 0 < k < |nodes| ==> nodes[k] == rest[k - 1];
    ConcatAssoc(RenderNode(w), RenderAll(rest), RenderClosing(closing, space));
  }

  lemma TextStands(t: string, i: nat, raw: string, rest: seq<WNode>, closing: string, space: string)
    requires raw != [] && All(raw, CharData) && Has(t, i, raw)
    requires WellFormedAll(rest) && (rest != [] ==> !rest[0].WText?)
    requires Has(t, i + |raw|, RenderAll(rest) + RenderClosing(closing, space))
    ensures WellFormedAll([WText(raw)] + rest)
    ensures Has(t, i, RenderAll([WText(raw)] + rest) + RenderClosing(closing, space))
    ensures |RenderAll([WText(raw)] + rest) + RenderClosing(closing, space)|
         == |raw| + |RenderAll(rest) + RenderClosing(closing, space)|
  {
    assert WellFormed(WText(raw)) && RenderNode(WText(raw)) == raw;
    hide RenderAll, RenderClosing, RenderNode, WellFormed, WellFormedAll, Has;
    Prepended(WText(raw), rest, closing, space);
    HasConcat(t, i, raw, RenderAll(rest) + RenderClosing(closing, space));
  }

  lemma {:induction false} MarkupWritten(t: string, i: nat, fl: Flags, name: string, value: string, done: seq<Node>)
    returns (nodes: seq<WNode>, closing: string, space: string)
    requires i < |t| && t[i] == '<' && ParseMarkup(t, i, fl, name, value, done).ParsedContents?
    ensures WellFormedAll(nodes) && (nodes != [] ==> !nodes[0].WText?) && All(closing, NodeName) && White(space)
    ensures Has(t, i, RenderAll(nodes) + RenderClosing(closing, space))
    ensures ParseMarkup(t, i, fl, name, value, done).next == i + |RenderAll(nodes) + RenderClosing(closing, space)| <= |t|
    decreases |t| - i, 2
  {
    hide *;
    if At(t, i + 1) == '/' {
      closing, space := ClosingWritten(t, i, fl, name, value, done);
      nodes := [];
      NoNodes(closing, space);
    } else {
      var value', done' := MarkupSplit(t, i, fl, name, value, done);
      var w := NodeWritten(t, i, fl);
      var next := ParseNode(t, i + 1, fl).next;
      StandsThere(t, i, w, next);
      var rest, c, s := ContentsWritten(t, next, fl, name, value', done');
      nodes, closing, space := [w] + rest, c, s;
      Prepended(w, rest, closing, space);
      HasConcat(t, i, RenderNode(w), RenderAll(rest) + RenderClosing(closing, space));
    }
  }

  lemma NoNodes(closing: string, space: string)
    ensures WellFormedAll([]) && RenderAll([]) + RenderClosing(closing, space) == RenderClosing(closing, space)
  {
  }

  lemma StandsThere(t: string, i: nat, w: WNode, end: nat)
    requires NodeStands(t, i, w, end)
    ensures WellFormed(w) && !w.WText? && Has(t, i, RenderNode(w)) && end == i + |RenderNode(w)| && i < end <= |t|
  {
  }

  /** A child that is no text, and the contents behind it. */
  lemma MarkupSplit(t: string, i: nat, fl: Flags, name: string, value: string, done: seq<Node>)
    returns (value': string, done': seq<Node>)
    requires i < |t| && t[i] == '<' && At(t, i + 1) != '/' && ParseMarkup(t, i, fl, name, value, done).ParsedContents?
    ensures ParseNode(t, i + 1, fl).ParsedNode? && ParseNode(t, i + 1, fl).next <= |t|
    ensures ParseMarkup(t, i, fl, name, value, done) == ParseContents(t, ParseNode(t, i + 1, fl).next, fl, name, value', done')
  {
    hide ParseNode, ParseContents;
    match ParseNode(t, i + 1, fl)
    case ParsedNode(None, _) => value', done' := value, done;
    case ParsedNode(Some(n), _) => value', done' := value, done + [n];
  }

  lemma ClosingWritten(t: string, i: nat, fl: Flags, name: string, value: string, done: seq<Node>)
    returns (closing: string, space: string)
    requires i < |t| && t[i] == '<' && At(t, i + 1) == '/' && ParseMarkup(t, i, fl, name, value, done).ParsedContents?
    ensures All(closing, NodeName) && White(space) && Has(t, i, RenderClosing(closing, space))
    ensures ParseMarkup(t, i, fl, name, value, done).next == i + |RenderClosing(closing, space)| <= |t|
  {
    hide *;
    var m, close := ClosingEnds(t, i, fl, name, value, done);
    closing, space := t[i + 2..m], t[m..close];
    TwoChars(t, i, '/');
    assert ['<', '/'] == "</";
    Skipped(t, i + 2, NodeName);
    SkippedWhite(t, m);
    OneChar(t, close);
    HasConcat(t, m, space, ">");
    HasConcat(t, i + 2, closing, space + ">");
    HasConcat(t, i, "</", closing + (space + ">"));
    ClosingIs(closing, space);
  }

  lemma ClosingIs(closing: string, space: string)
    ensures RenderClosing(closing, space) == "</" + (closing + (space + ">"))
  {
  }

  lemma ClosingEnds(t: string, i: nat, fl: Flags, name: string, value: string, done: seq<Node>) returns (m: nat, close: nat)
    requires i < |t| && t[i] == '<' && At(t, i + 1) == '/' && ParseMarkup(t, i, fl, name, value, done).ParsedContents?
    ensures i + 2 <= |t| && m == Skip(t, i + 2, NodeName) && m <= |t| && close == Skip(t, m, Whitespace)
    ensures close < |t| && t[close] == '>' && ParseMarkup(t, i, fl, name, value, done).next == close + 1
  {
    m := Skip(t, i + 2, NodeName);
    close := Skip(t, m, Whitespace);
    hide Skip;
  }

  // ---- Documents ----

  lemma {:induction false} TopLevelWritten(t: string, i: nat, fl: Flags, done: seq<Node>) returns (nodes: seq<WNode>)
    requires i <= |t| && ParseTopLevel(t, i, fl, done).ParsedDocument?
    ensures WellFormedAll(nodes) && WhiteTexts(nodes)
    ensures Has(t, i, RenderAll(nodes)) && At(t, i + |RenderAll(nodes)|) == '\0'
    decreases |t| - i
  {
    hide *;
    var j := Skip(t, i, Whitespace);
    SkippedWhite(t, i);
    TopLevelSplit(t, i, fl, done);
    if At(t, j) == '\0' {
      nodes := [];
      EmptyDocument(t, j);
    } else {
      var w := NodeWritten(t, j, fl);
      var next := ParseNode(t, j + 1, fl).next;
      StandsThere(t, j, w, next);
      var done' := if ParseNode(t, j + 1, fl).node.None? then done else done + [ParseNode(t, j + 1, fl).node.value];
      var rest := TopLevelWritten(t, next, fl, done');
      nodes := [w] + rest;
      Prepended(w, rest, [], []);
      WhitePrepended(w, rest);
      HasConcat(t, j, RenderNode(w), RenderAll(rest));
    }
    if i < j {
      WhiteInFront(t, i, t[i..j], nodes);
      nodes := [WText(t[i..j])] + nodes;
    }
  }

  lemma TopLevelSplit(t: string, i: nat, fl: Flags, done: seq<Node>)
    requires i <= |t| && ParseTopLevel(t, i, fl, done).ParsedDocument?
    ensures var j := Skip(t, i, Whitespace);
            At(t, j) == '\0' ||
            (j < |t| && t[j] == '<' && At(t, j + 1) != '/' && ParseNode(t, j + 1, fl).ParsedNode?
             && ParseNode(t, j + 1, fl).next <= |t|
             && var r := ParseNode(t, j + 1, fl);
                ParseTopLevel(t, r.next, fl, if r.node.None? then done else done + [r.node.value]).ParsedDocument?)
  {
    var j := Skip(t, i, Whitespace);
    hide ParseNode;
    NoNameNoNode(t, j, fl);
  }

  /** A closing tag outside all elements is an error. */
  lemma NoNameNoNode(t: string, j: nat, fl: Flags)
    ensures j < |t| && At(t, j + 1) == '/' ==> ParseNode(t, j + 1, fl).BadNode?
  {
    if j < |t| && At(t, j + 1) == '/' {
      SkipRun(t, j + 1, j + 1, NodeName);
    }
  }

  lemma EmptyDocument(t: string, j: nat)
    requires j <= |t| && At(t, j) == '\0'
    ensures WellFormedAll([]) && WhiteTexts([]) && Has(t, j, RenderAll([])) && At(t, j + |RenderAll([])|) == '\0'
  {
  }

  lemma WhitePrepended(w: WNode, rest: seq<WNode>)
    requires WhiteTexts(rest) && (w.WText? ==> White(w.raw))
    ensures WhiteTexts([w] + rest)
  {
  }

  lemma WhiteInFront(t: string, i: nat, raw: string, nodes: seq<WNode>)
    requires raw != [] && White(raw) && Has(t, i, raw) && WellFormedAll(nodes) && WhiteTexts(nodes)
    requires nodes != [] ==> !nodes[0].WText?
    requires Has(t, i + |raw|, RenderAll(nodes))
    ensures WellFormedAll([WText(raw)] + nodes) && WhiteTexts([WText(raw)] + nodes)
    ensures Has(t, i, RenderAll([WText(raw)] + nodes)) && |RenderAll([WText(raw)] + nodes)| == |raw| + |RenderAll(nodes)|
  {
    assert forall k :: 0 <= k < |raw| ==> CharData.Test(raw[k]);
    assert WellFormed(WText(raw)) && RenderNode(WText(raw)) == raw;
    hide RenderAll, RenderNode, WellFormed, WellFormedAll, WhiteTexts, Has, White;
    Prepended(WText(raw), nodes, [], []);
    WhitePrepended(WText(raw), nodes);
    HasConcat(t, i, raw, RenderAll(nodes));
  }

  /** Whatever is accepted is written by the grammar. */
  lemma AcceptedIsWritten(t: string, fl: Flags) returns (w: WDocument)
    requires ParseDocument(t, fl).ParsedDocument?
    ensures IsWritten(t, w)
  {
    hide RenderAll, WellFormedAll, ParseTopLevel, WhiteTexts, Has, SkipBom;
    var i := SkipBom(t);
    var nodes := TopLevelWritten(t, i, fl, []);
    w := WDocument(i == 3, nodes);
    BomStands(t);
    if i == 3 {
      HasConcat(t, 0, BOM, RenderAll(nodes));
    } else {
      assert [] + RenderAll(nodes) == RenderAll(nodes);
    }
    DocumentWellFormed(w);
  }

  lemma BomStands(t: string)
    ensures SkipBom(t) == 3 ==> Has(t, 0, BOM)
    ensures SkipBom(t) == 3 || SkipBom(t) == 0
  {
    if SkipBom(t) == 3 {
      assert t[0..3] == BOM;
    }
  }

  lemma DocumentWellFormed(w: WDocument)
    requires WellFormedAll(w.nodes) && WhiteTexts(w.nodes)
    ensures WellFormedDocument(w)
  {
    hide WellFormedAll, White;
  }

  /**
   * The parser accepts a text if and only if it is written by the grammar and what is written denotes a tree,
   * and then that tree is what it gives, whichever way the text is written.
   */
  lemma ParserIsGrammar(t: string, fl: Flags)
    ensures ParseDocument(t, fl).ParsedDocument? <==> exists w :: IsWritten(t, w) && DenotedAll(w.nodes, fl).Some?
    ensures forall w :: IsWritten(t, w) ==>
              match DenotedAll(w.nodes, fl)
              case None => ParseDocument(t, fl).BadDocument?
              case Some(children) => ParseDocument(t, fl) == ParsedDocument(children)
  {
    forall w | IsWritten(t, w)
      ensures match DenotedAll(w.nodes, fl)
              case None => ParseDocument(t, fl).BadDocument?
              case Some(children) => ParseDocument(t, fl) == ParsedDocument(children)
    {
      DocumentRead(t, w, fl);
    }
    if ParseDocument(t, fl).ParsedDocument? {
      var w := AcceptedIsWritten(t, fl);
      DocumentRead(t, w, fl);
    }
    hide *;
  }

  // ---- Closing tags ----

  /** Every closing tag carries the name of its element. */
  predicate Matching(w: WNode)
    decreases w, 0
  {
    w.WElement? && w.body.Open? ==> w.body.closing == w.name && MatchingAll(w.body.children)
  }

  predicate MatchingAll(nodes: seq<WNode>)
    decreases nodes, 1
  {
    forall k :: 0 <= k < |nodes| ==> Matching(nodes[k])
  }

  lemma {:induction false} AttributesAlike(attributes: seq<WAttribute>, raw: bool)
    ensures DenotedAttributes(attributes, Flags(raw, true)) == DenotedAttributes(attributes, Flags(raw, false))
  {
    if attributes != [] {
      AttributesAlike(attributes[1..], raw);
    }
  }

  lemma {:induction false} NodeValidated(w: WNode, raw: bool)
    ensures Denoted(w, Flags(raw, true)) == if Matching(w) then Denoted(w, Flags(raw, false)) else None
    decreases w, 0
  {
    if w.WElement? {
      AttributesAlike(w.attributes, raw);
      if w.body.Open? {
        NodesValidated(w.body.children, raw);
      }
    }
  }

  lemma {:induction false} NodesValidated(nodes: seq<WNode>, raw: bool)
    ensures DenotedAll(nodes, Flags(raw, true)) == if MatchingAll(nodes) then DenotedAll(nodes, Flags(raw, false)) else None
    decreases nodes, 1
  {
    if nodes != [] {
      NodeValidated(nodes[0], raw);
      NodesValidated(nodes[1..], raw);
      hide Denoted, Matching;
      assert MatchingAll(nodes) <==> Matching(nodes[0]) && MatchingAll(nodes[1..]) by {
        assert forall k :: 0 <= k < |nodes| - 1 ==> nodes[1..][k] == nodes[k + 1];
      }
    }
  }

  /**
   * A text that is accepted without validation is accepted with it, as the same tree, if and only if every
   * closing tag in it carries the name of its element.
   */
  lemma ValidationIsMatching(t: string, w: WDocument, raw: bool)
    requires IsWritten(t, w) && ParseDocument(t, Flags(raw, false)).ParsedDocument?
    ensures ParseDocument(t, Flags(raw, true)) == ParseDocument(t, Flags(raw, false)) <==> MatchingAll(w.nodes)
    ensures ParseDocument(t, Flags(raw, true)).ParsedDocument? <==> MatchingAll(w.nodes)
  {
    DocumentRead(t, w, Flags(raw, false));
    DocumentRead(t, w, Flags(raw, true));
    NodesValidated(w.nodes, raw);
    hide *;
  }

  /** As in `data/world.xml`, where `<X>` is closed by `</x>`. */
  const MISMATCHED := "<X>0</x>"

  lemma MismatchedParses(raw: bool)
    ensures ParseDocument(MISMATCHED, Flags(raw, false)) == ParsedDocument([Element("X", "0", [], [Data("0")])])
    ensures ParseDocument(MISMATCHED, Flags(raw, true)).BadDocument?
  {
    var nodes := [WElement("X", [], [], Open([WText("0")], "x", []))];
    var w := WDocument(false, nodes);
    MismatchedIsWritten(nodes);
    MismatchedDenotes(nodes, raw);
    DocumentRead(MISMATCHED, w, Flags(raw, false));
    DocumentRead(MISMATCHED, w, Flags(raw, true));
    hide *;
  }

  lemma MismatchedIsWritten(nodes: seq<WNode>)
    requires nodes == [WElement("X", [], [], Open([WText("0")], "x", []))]
    ensures IsWritten(MISMATCHED, WDocument(false, nodes))
  {
    var inner := [WText("0")];
    assert WellFormed(inner[0]);
    assert WellFormed(nodes[0]);
    assert RenderAll(inner) == "0" + [];
    assert RenderAttributes([]) + [] == [] && RenderOpening("X", [], []) == "<X";
    assert RenderClosing("x", []) == "</x>";
    assert RenderNode(nodes[0]) == "<X" + (">" + ("0" + [] + "</x>"));
    assert RenderAll(nodes) == MISMATCHED;
    assert [] + MISMATCHED == MISMATCHED && MISMATCHED[0..|MISMATCHED|] == MISMATCHED;
  }

  lemma MismatchedDenotes(nodes: seq<WNode>, raw: bool)
    requires nodes == [WElement("X", [], [], Open([WText("0")], "x", []))]
    ensures DenotedAll(nodes, Flags(raw, false)) == Some([Element("X", "0", [], [Data("0")])])
    ensures DenotedAll(nodes, Flags(raw, true)) == None
  {
    var inner := [WText("0")];
    assert Step("0", 0, 0) == Expanded("0", 1);
    assert [] + "0" == "0";
    assert Expand("0", 1, NO_STOP, 0, "0") == Expanded("0", 1);
    assert Translated("0") == Some("0");
    hide Translated, Expand, Step;
    assert !IsSpace("0"[0]) && !White("0");
    assert [Data("0")] + [] == [Data("0")];
    assert DenotedAll(inner, Flags(raw, false)) == Some([Data("0")]);
    assert [Data("0")][..0] == [];
    assert ValueOf([Data("0")]) == "0";
    assert [Element("X", "0", [], [Data("0")])] + [] == [Element("X", "0", [], [Data("0")])];
  }
}

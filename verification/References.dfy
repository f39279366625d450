/** What expansion and escaping achieve together. */
module References {
  import opened Text
  import opened CharRefs

  /** The two kinds of text in which references are expanded. */
  predicate Scans(p: Pred) {
    p == CharData || p == AttributeValue('\'') || p == AttributeValue('"')
  }

  /** The table of the characters that the fast scan may pass over. */
  function Pure(p: Pred): Pred
    requires Scans(p)
  {
    if p == CharData then PureCharData else PureAttributeValue(p.quote)
  }

  // ---- Escaping ----

  function EscapeChar(c: char, keep: char): (s: string)
    ensures s != []
  {
    if c == keep then [c]
    else if c == '<' then "&lt;"
    else if c == '>' then "&gt;"
    else if c == '\'' then "&apos;"
    else if c == '"' then "&quot;"
    else if c == '&' then "&amp;"
    else [c]
  }

  /** The text that the printer writes for `s`, leaving `keep` as it is. */
  function Escape(s: string, keep: char): string {
    if s == [] then [] else EscapeChar(s[0], keep) + Escape(s[1..], keep)
  }

  /** The kept character never matters to the scan that reads the text back. */
  predicate Compatible(p: Pred, keep: char) {
    || (p == CharData && keep == '\0')
    || (p == AttributeValue('\'') && keep == '"')
    || (p == AttributeValue('"') && keep == '\'')
  }

  /** The escaped text never contains the character that ends it. */
  lemma {:induction false} EscapeHidesStop(s: string, p: Pred, keep: char)
    requires NulFree(s) && Compatible(p, keep)
    ensures All(Escape(s, keep), p)
  {
    if s != [] {
      var e := EscapeChar(s[0], keep);
      assert NulFree(s[1..]) && s[0] != '\0';
      EscapeHidesStop(s[1..], p, keep);
      forall k | 0 <= k < |e| ensures p.Test(e[k]) {
      }
      AllConcat(EscapeChar(s[0], keep), Escape(s[1..], keep), p);
    }
  }

  lemma AllConcat(a: string, b: string, p: Pred)
    requires All(a, p) && All(b, p)
    ensures All(a + b, p)
  {
  }

  lemma UnescapeChar(t: string, i: nat, c: char, keep: char, dest: nat)
    requires Has(t, i, EscapeChar(c, keep)) && keep != '&'
    ensures Step(t, i, dest) == Expanded([c], i + |EscapeChar(c, keep)|)
  {
    var s := EscapeChar(c, keep);
    forall k | 0 <= k < |s| ensures At(t, i + k) == s[k] {
      HasAt(t, i, s, k);
    }
    assert At(t, i + 0) == s[0];
    if |s| > 1 {
      assert At(t, i + 1) == s[1] && At(t, i + 2) == s[2] && At(t, i + 3) == s[3];
      assert |s| > 4 ==> At(t, i + 4) == s[4];
      assert |s| > 5 ==> At(t, i + 5) == s[5];
    }
  }

  /** Expansion undoes escaping and stops exactly where the escaped text ends. */
  lemma {:induction false} ExpandUndoesEscape(t: string, i: nat, s: string, p: Pred, keep: char, start: nat, done: string)
    requires NulFree(s) && Compatible(p, keep)
    requires Has(t, i, Escape(s, keep)) && !p.Test(At(t, i + |Escape(s, keep)|))
    ensures Expand(t, i, p, start, done) == Expanded(done + s, i + |Escape(s, keep)|)
    decreases |s|
  {
    hide *;
    if s == [] {
      EscapeNothing(keep);
      HasEnds(t, i, Escape(s, keep));
      ExpandStops(t, i, p, start, done);
      assert done + s == done;
    } else {
      var next, rest, done' := ExpandOneEscape(t, i, s, p, keep, start, done);
      ExpandUndoesEscape(t, next, rest, p, keep, start, done');
    }
  }

  lemma EscapeNothing(keep: char)
    ensures Escape([], keep) == []
  {
  }

  /** The first character of the escaped string: what is left has the same shape. */
  lemma ExpandOneEscape(t: string, i: nat, s: string, p: Pred, keep: char, start: nat, done: string)
    returns (next: nat, rest: string, done': string)
    requires s != [] && NulFree(s) && Compatible(p, keep) && Has(t, i, Escape(s, keep))
    ensures |rest| < |s| && NulFree(rest) && Has(t, next, Escape(rest, keep))
    ensures next + |Escape(rest, keep)| == i + |Escape(s, keep)| && done' + rest == done + s
    ensures i < |t| && next <= |t| && Expand(t, i, p, start, done) == Expand(t, next, p, start, done')
  {
    hide *;
    next, rest, done' := i + |EscapeChar(s[0], keep)|, s[1..], done + [s[0]];
    EscapeHead(s, keep);
    FirstEscape(t, i, s, p, keep, start + |done|);
    HasEnds(t, next, Escape(s[1..], keep));
    ExpandStep(t, i, p, start, done, [s[0]], next);
    ConcatAssoc(done, [s[0]], s[1..]);
  }

  lemma EscapeHead(s: string, keep: char)
    requires s != []
    ensures Escape(s, keep) == EscapeChar(s[0], keep) + Escape(s[1..], keep)
    ensures [s[0]] + s[1..] == s
  {
  }

  lemma ConcatAssoc(a: string, b: string, c: string)
    ensures a + b + c == a + (b + c)
  {
  }

  lemma ExpandStops(t: string, i: nat, p: Pred, start: nat, done: string)
    requires i <= |t| && !p.Test(At(t, i))
    ensures Expand(t, i, p, start, done) == Expanded(done, i)
  {
  }

  /** One step in front of an expansion. */
  lemma ExpandStep(t: string, i: nat, p: Pred, start: nat, done: string, out: string, next: nat)
    requires i < |t| && p.Test(t[i]) && Step(t, i, start + |done|) == Expanded(out, next)
    ensures Expand(t, i, p, start, done) == Expand(t, next, p, start, done + out)
  {
  }

  lemma FirstEscape(t: string, i: nat, s: string, p: Pred, keep: char, dest: nat)
    requires s != [] && NulFree(s) && Compatible(p, keep) && Has(t, i, Escape(s, keep))
    ensures Has(t, i + |EscapeChar(s[0], keep)|, Escape(s[1..], keep)) && NulFree(s[1..])
    ensures i < |t| && p.Test(t[i]) && Step(t, i, dest) == Expanded([s[0]], i + |EscapeChar(s[0], keep)|)
  {
    hide *;
    EscapableParts(s, p, keep);
    var e := EscapeChar(s[0], keep);
    EscapeHead(s, keep);
    HasConcat(t, i, e, Escape(s[1..], keep));
    EscapeStarts(s[0], p, keep);
    HasFirst(t, i, e);
    UnescapeChar(t, i, s[0], keep, dest);
    InText(t, i, e);
  }

  lemma EscapableParts(s: string, p: Pred, keep: char)
    requires s != [] && NulFree(s) && Compatible(p, keep)
    ensures NulFree(s[1..]) && s[0] != '\0' && keep != '&'
  {
  }

  lemma InText(t: string, i: nat, s: string)
    requires Has(t, i, s) && s != []
    ensures i < |t| && t[i] == s[0]
  {
  }

  lemma EscapeStarts(c: char, p: Pred, keep: char)
    requires c != '\0' && Compatible(p, keep)
    ensures p.Test(EscapeChar(c, keep)[0])
  {
  }

  // ---- The fast scan ----

  /** Passing over characters that need no translation copies them. */
  lemma {:induction false} ExpandPureRun(t: string, i: nat, j: nat, p: Pred, start: nat, done: string)
    requires Scans(p) && i <= j <= |t|
    requires forall k :: i <= k < j ==> Pure(p).Test(t[k])
    ensures Expand(t, i, p, start, done) == Expand(t, j, p, start, done + t[i..j])
    decreases j - i
  {
    if i == j {
      assert done + t[i..j] == done;
    } else {
      assert Step(t, i, start + |done|) == Expanded([t[i]], i + 1);
      ExpandPureRun(t, i + 1, j, p, start, done + [t[i]]);
      assert done + [t[i]] + t[i + 1..j] == done + t[i..j];
    }
  }

  // ---- Where expansion ends ----

  /** A step never crosses a character that stops the scan. */
  lemma StepStopsShort(t: string, i: nat, dest: nat, p: Pred)
    requires Scans(p) && i < |t| && p.Test(t[i]) && Step(t, i, dest).Expanded?
    ensures forall k :: i <= k < Step(t, i, dest).next ==> p.Test(t[k])
  {
  }

  // ---- Numeric references ----

  /** The number that a numeral denotes, continuing from `code`. */
  function Numeral(digits: string, base: nat, code: nat): nat {
    if digits == [] then code else Numeral(digits[1..], base, code * base + Digit(digits[0]))
  }

  /** A reference by number, as it is written. */
  datatype CodeRef = CodeRef(hex: bool, digits: string) {
    function Base(): nat {
      if hex then 16 else 10
    }
    /** Digits of either base: a decimal reference may hold hexadecimal ones. */
    predicate Valid() {
      forall k :: 0 <= k < |digits| ==> Digit(digits[k]) != 255
    }
    function Code(): nat {
      Numeral(digits, Base(), 0)
    }
    function Written(): string {
      (if hex then "&#x" else "&#") + digits + ";"
    }
  }

  lemma WrapOnce(code: nat, base: nat, digit: nat)
    requires base == 10 || base == 16
    ensures (code % ULONG_RANGE * base + digit) % ULONG_RANGE == (code * base + digit) % ULONG_RANGE
  {
  }

  /** The loop computes the number denoted, modulo the machine word. */
  lemma {:induction false} ReadNumeralWraps(t: string, i: nat, digits: string, base: nat, code: nat)
    requires base == 10 || base == 16
    requires forall k :: 0 <= k < |digits| ==> Digit(digits[k]) != 255
    requires Has(t, i, digits) && Digit(At(t, i + |digits|)) == 255
    ensures ReadNumeral(t, i, base, code % ULONG_RANGE)
         == (Numeral(digits, base, code) % ULONG_RANGE, i + |digits|)
    decreases |digits|
  {
    if digits != [] {
      HasFirst(t, i, digits);
      WrapOnce(code, base, Digit(digits[0]));
      ReadNumeralWraps(t, i + 1, digits[1..], base, code * base + Digit(digits[0]));
    }
  }

  lemma CodeRefParts(t: string, i: nat, r: CodeRef)
    requires r.Valid() && Has(t, i, r.Written())
    ensures i < |t| && t[i] == '&' && At(t, i + 1) == '#' && NamedRef(t, i).None?
    ensures NumeralStart(t, i) == (i + (if r.hex then 3 else 2), r.Base())
    ensures var start := NumeralStart(t, i).0; Has(t, start, r.digits) && At(t, start + |r.digits|) == ';'
  {
    var mark := if r.hex then "&#x" else "&#";
    HasConcat(t, i, mark + r.digits, ";");
    HasConcat(t, i, mark, r.digits);
    var start := i + |mark|;
    HasAt(t, i, mark, 0);
    HasAt(t, i, mark, 1);
    HasAt(t, start + |r.digits|, ";", 0);
    if r.hex {
      HasAt(t, i, mark, 2);
    } else if r.digits != [] {
      HasAt(t, start, r.digits, 0);
    }
  }

  /** A reference expands to its number modulo the word, and fails exactly when that is no code point. */
  lemma CodeRefStep(t: string, i: nat, r: CodeRef, dest: nat)
    requires r.Valid() && Has(t, i, r.Written())
    ensures i < |t|
    ensures var code := r.Code() % ULONG_RANGE;
            Step(t, i, dest) == if code < CODE_LIMIT then Expanded(Utf8(code), i + |r.Written()|)
                                else BadRef(ParseError("invalid numeric character entity", dest))
  {
    CodeRefParts(t, i, r);
    hide Has, NamedRef, NumeralStart;
    ReadNumeralWraps(t, NumeralStart(t, i).0, r.digits, r.Base(), 0);
  }

  lemma NoWrap(code: nat)
    requires code < CODE_LIMIT
    ensures code % ULONG_RANGE == code
  {
  }

  function WrittenRefs(refs: seq<CodeRef>): string {
    if refs == [] then [] else refs[0].Written() + WrittenRefs(refs[1..])
  }

  function Codes(refs: seq<CodeRef>): (codes: seq<nat>)
    ensures |codes| == |refs| && forall k :: 0 <= k < |refs| ==> codes[k] == refs[k].Code()
  {
    if refs == [] then [] else [refs[0].Code()] + Codes(refs[1..])
  }

  function Encoded(codes: seq<nat>): string
    requires forall k :: 0 <= k < |codes| ==> codes[k] < CODE_LIMIT
  {
    if codes == [] then [] else Utf8(codes[0]) + Encoded(codes[1..])
  }

  lemma {:induction false} EncodedDecodes(codes: seq<nat>)
    requires forall k :: 0 <= k < |codes| ==> codes[k] < CODE_LIMIT
    ensures DecodeUtf8(Encoded(codes)) == Some(codes)
  {
    if codes != [] {
      EncodedDecodes(codes[1..]);
      Utf8Decodes(codes[0], Encoded(codes[1..]));
      assert [codes[0]] + codes[1..] == codes;
    }
  }

  /** Numerals of code points that have an encoding. */
  predicate Encodable(refs: seq<CodeRef>) {
    forall k :: 0 <= k < |refs| ==> refs[k].Valid() && refs[k].Code() < CODE_LIMIT
  }

  /** What a run of numeric references expands to decodes to the code points they denote. */
  lemma CodeRefsDecode(t: string, i: nat, refs: seq<CodeRef>, p: Pred, start: nat)
    requires Scans(p) && Encodable(refs)
    requires Has(t, i, WrittenRefs(refs)) && !p.Test(At(t, i + |WrittenRefs(refs)|))
    ensures var r := Expand(t, i, p, start, []);
            r.Expanded? && r.next == i + |WrittenRefs(refs)| && DecodeUtf8(r.text) == Some(Codes(refs))
  {
    CodeRefsExpand(t, i, refs, p, start, []);
    EncodedDecodes(Codes(refs));
    assert [] + Encoded(Codes(refs)) == Encoded(Codes(refs));
  }

  /** A run of numeric references expands to the UTF-8 text of the code points they denote. */
  lemma {:induction false} CodeRefsExpand(t: string, i: nat, refs: seq<CodeRef>, p: Pred, start: nat, done: string)
    requires Scans(p) && Encodable(refs)
    requires Has(t, i, WrittenRefs(refs)) && !p.Test(At(t, i + |WrittenRefs(refs)|))
    ensures Expand(t, i, p, start, done) == Expanded(done + Encoded(Codes(refs)), i + |WrittenRefs(refs)|)
    decreases |refs|
  {
    hide *;
    if refs == [] {
      NoRefs();
      HasEnds(t, i, WrittenRefs(refs));
      ExpandStops(t, i, p, start, done);
      assert done + [] == done;
    } else {
      var next, rest, done' := ExpandOneRef(t, i, refs, p, start, done);
      CodeRefsExpand(t, next, rest, p, start, done');
    }
  }

  lemma NoRefs()
    ensures WrittenRefs([]) == [] && Encoded(Codes([])) == []
  {
  }

  /** The first reference: what is left has the same shape. */
  lemma ExpandOneRef(t: string, i: nat, refs: seq<CodeRef>, p: Pred, start: nat, done: string)
    returns (next: nat, rest: seq<CodeRef>, done': string)
    requires Scans(p) && refs != [] && Has(t, i, WrittenRefs(refs)) && Encodable(refs)
    ensures |rest| < |refs| && Encodable(rest)
    ensures Has(t, next, WrittenRefs(rest)) && next + |WrittenRefs(rest)| == i + |WrittenRefs(refs)|
    ensures done' + Encoded(Codes(rest)) == done + Encoded(Codes(refs))
    ensures i < |t| && next <= |t| && Expand(t, i, p, start, done) == Expand(t, next, p, start, done')
  {
    hide *;
    EncodableParts(refs);
    PassesAmpersand(p);
    var out := Utf8(refs[0].Code());
    next, rest, done' := i + |refs[0].Written()|, refs[1..], done + out;
    RefsHead(refs);
    FirstRef(t, i, refs, start + |done|);
    HasEnds(t, next, WrittenRefs(refs[1..]));
    ExpandStep(t, i, p, start, done, out, next);
    ConcatAssoc(done, out, Encoded(Codes(refs[1..])));
  }

  lemma EncodableParts(refs: seq<CodeRef>)
    requires refs != [] && Encodable(refs)
    ensures Encodable(refs[1..]) && refs[0].Valid() && refs[0].Code() < CODE_LIMIT
  {
  }

  lemma PassesAmpersand(p: Pred)
    requires Scans(p)
    ensures p.Test('&')
  {
  }

  lemma RefsHead(refs: seq<CodeRef>)
    requires refs != [] && Encodable(refs)
    ensures WrittenRefs(refs) == refs[0].Written() + WrittenRefs(refs[1..])
    ensures Encoded(Codes(refs)) == Utf8(refs[0].Code()) + Encoded(Codes(refs[1..]))
  {
    assert Codes(refs)[1..] == Codes(refs[1..]);
  }

  lemma FirstRef(t: string, i: nat, refs: seq<CodeRef>, dest: nat)
    requires refs != [] && refs[0].Valid() && refs[0].Code() < CODE_LIMIT && Has(t, i, WrittenRefs(refs))
    ensures Has(t, i + |refs[0].Written()|, WrittenRefs(refs[1..]))
    ensures i < |t| && t[i] == '&' && Step(t, i, dest) == Expanded(Utf8(refs[0].Code()), i + |refs[0].Written()|)
  {
    HasConcat(t, i, refs[0].Written(), WrittenRefs(refs[1..]));
    HasAt(t, i, refs[0].Written(), 0);
    CodeRefStep(t, i, refs[0], dest);
    NoWrap(refs[0].Code());
  }

  // ---- A scan and its slice ----

  /** The text up to `j`, where `p` stops, seen from `i`. */
  ghost predicate Run(t: string, i: nat, j: nat, p: Pred) {
    Scans(p) && i <= j <= |t| && (forall k :: i <= k < j ==> p.Test(t[k])) && !p.Test(At(t, j))
  }

  /** `raw` is that text. */
  ghost predicate Cut(t: string, i: nat, j: nat, p: Pred, raw: string) {
    Run(t, i, j, p) && raw == t[i..j]
  }

  /** One step does the same in the slice as in the text. */
  ghost predicate SameStep(a: Expansion, b: Expansion, i: nat) {
    match a
    case BadRef(_) => b.BadRef?
    case Expanded(text, next) => i <= next && b == Expanded(text, next - i)
  }
}

/** Character references: expansion while parsing, escaping while printing. */
module CharRefs {
  import opened Bits
  import opened Text

  // ---- UTF-8 ----

  /** One past the largest value of the 64-bit `unsigned long` that collects a numeral. */
  const ULONG_RANGE: nat := 0x1_0000_0000_0000_0000

  /** One past the largest code point the encoder accepts. */
  const CODE_LIMIT: nat := 0x11_0000

  /** A trailing byte: marker 10 and the low six bits of the code. */
  function ContinuationByte(code: nat): (c: char)
    ensures c as int == 0x80 + code % 64
  {
    ContinuationBits(code);
    BitAnd(BitOr(code, 0x80), 0xBF) as char
  }

  /** A leading byte: `marker` above the `bits` low bits that carry the code. */
  function LeadByte(code: nat, marker: nat, ghost k: nat): (c: char)
    requires k <= 5 && code < Pow2(k) && marker % Pow2(k) == 0 && marker < 0x100
    ensures c as int == marker + code
  {
    OrMarker(code, marker, k);
    BitOr(code, marker) as char
  }

  function Utf8(code: nat): (s: string)
    requires code < CODE_LIMIT
    ensures 1 <= |s| <= 4 && (code < 0x80 ==> |s| == 1)
  {
    assert Pow2(3) == 8 && Pow2(4) == 16 && Pow2(5) == 32;
    if code < 0x80 then [code as char]
    else if code < 0x800 then [LeadByte(code / 64, 0xC0, 5), ContinuationByte(code)]
    else if code < 0x1_0000 then
      [LeadByte(code / 64 / 64, 0xE0, 4), ContinuationByte(code / 64), ContinuationByte(code)]
    else
      [LeadByte(code / 64 / 64 / 64, 0xF0, 3),
       ContinuationByte(code / 64 / 64), ContinuationByte(code / 64), ContinuationByte(code)]
  }

  predicate Trailing(c: char) {
    0x80 <= c as int < 0xC0
  }

  /** The bits a trailing byte carries. */
  function Low6(c: char): nat
    requires Trailing(c)
  {
    c as int - 0x80
  }

  /** Reads the bit layout of section 3 of RFC 3629; `None` where no layout fits. */
  function DecodeUtf8(s: string): Option<seq<nat>> {
    if s == [] then Some([])
    else
      var b := s[0] as int;
      if b < 0x80 then Prepend(b, DecodeUtf8(s[1..]))
      else if 0xC0 <= b < 0xE0 && |s| >= 2 && Trailing(s[1]) then
        Prepend((b - 0xC0) * 64 + Low6(s[1]), DecodeUtf8(s[2..]))
      else if 0xE0 <= b < 0xF0 && |s| >= 3 && Trailing(s[1]) && Trailing(s[2]) then
        Prepend((b - 0xE0) * 4096 + Low6(s[1]) * 64 + Low6(s[2]), DecodeUtf8(s[3..]))
      else if 0xF0 <= b < 0xF8 && |s| >= 4 && Trailing(s[1]) && Trailing(s[2]) && Trailing(s[3]) then
        Prepend((b - 0xF0) * 262144 + Low6(s[1]) * 4096 + Low6(s[2]) * 64 + Low6(s[3]), DecodeUtf8(s[4..]))
      else None
  }

  function Prepend(code: nat, rest: Option<seq<nat>>): Option<seq<nat>> {
    match rest
    case None => None
    case Some(codes) => Some([code] + codes)
  }

  lemma DecodeTwo(a: char, b: char, rest: string)
    requires 0xC0 <= a as int < 0xE0 && Trailing(b)
    ensures DecodeUtf8([a, b] + rest) == Prepend((a as int - 0xC0) * 64 + Low6(b), DecodeUtf8(rest))
  {
    assert ([a, b] + rest)[2..] == rest;
  }

  lemma DecodeThree(a: char, b: char, c: char, rest: string)
    requires 0xE0 <= a as int < 0xF0 && Trailing(b) && Trailing(c)
    ensures DecodeUtf8([a, b, c] + rest)
         == Prepend((a as int - 0xE0) * 4096 + Low6(b) * 64 + Low6(c), DecodeUtf8(rest))
  {
    assert ([a, b, c] + rest)[3..] == rest;
  }

  lemma DecodeFour(a: char, b: char, c: char, d: char, rest: string)
    requires 0xF0 <= a as int < 0xF8 && Trailing(b) && Trailing(c) && Trailing(d)
    ensures DecodeUtf8([a, b, c, d] + rest)
         == Prepend((a as int - 0xF0) * 262144 + Low6(b) * 4096 + Low6(c) * 64 + Low6(d), DecodeUtf8(rest))
  {
    assert ([a, b, c, d] + rest)[4..] == rest;
  }

  /** Decoding what the encoder wrote gives the code point back, and goes on after it. */
  lemma Utf8Decodes(code: nat, rest: string)
    requires code < CODE_LIMIT
    ensures DecodeUtf8(Utf8(code) + rest) == Prepend(code, DecodeUtf8(rest))
  {
    var s := Utf8(code);
    if code < 0x80 {
      assert ([code as char] + rest)[1..] == rest;
    } else {
      hide DecodeUtf8;
      Digits64(code, code / 64, code / 64 / 64, code / 64 / 64 / 64);
      if code < 0x800 {
        DecodeTwo(s[0], s[1], rest);
      } else if code < 0x1_0000 {
        DecodeThree(s[0], s[1], s[2], rest);
      } else {
        DecodeFour(s[0], s[1], s[2], s[3], rest);
      }
    }
  }

  lemma Digits64(code: nat, a: nat, b: nat, c: nat)
    requires a == code / 64 && b == a / 64 && c == b / 64
    ensures code == a * 64 + code % 64
    ensures code == b * 4096 + a % 64 * 64 + code % 64
    ensures code == c * 262144 + b % 64 * 4096 + a % 64 * 64 + code % 64
  {
  }

  // ---- Numerals ----

  /** The digit table, shared by decimal and hexadecimal references; 255 ends the numeral. */
  function Digit(c: char): nat {
    if '0' <= c <= '9' then c as int - '0' as int
    else if 'A' <= c <= 'F' then c as int - 'A' as int + 10
    else if 'a' <= c <= 'f' then c as int - 'a' as int + 10
    else 255
  }

  /** The digits in their order, and nothing else. */
  lemma DigitTable(c: char)
    ensures forall k :: 0 <= k < 16 ==> Digit("0123456789abcdef"[k]) == k && Digit("0123456789ABCDEF"[k]) == k
    ensures Digit(c) != 255 <==> c in "0123456789abcdefABCDEF"
  {
    var lower, upper, all := "0123456789abcdef", "0123456789ABCDEF", "0123456789abcdefABCDEF";
    if '0' <= c <= '9' {
      assert all[c as int - '0' as int] == c;
    } else if 'a' <= c <= 'f' {
      assert all[c as int - 'a' as int + 10] == c;
    } else if 'A' <= c <= 'F' {
      assert all[c as int - 'A' as int + 16] == c;
    }
  }

  /** The run of digits at `i`, accumulated with the wrap-around of the machine word. */
  function ReadNumeral(t: string, i: nat, base: nat, code: nat): (r: (nat, nat))
    requires i <= |t|
    ensures i <= r.1 <= |t|
    ensures forall k :: i <= k < r.1 ==> Digit(t[k]) != 255
    ensures Digit(At(t, r.1)) == 255
    decreases |t| - i
  {
    var digit := Digit(At(t, i));
    if digit == 255 then (code, i) else ReadNumeral(t, i + 1, base, (code * base + digit) % ULONG_RANGE)
  }

  /** At most one digit gives at most fifteen. */
  lemma ShortNumeral(t: string, i: nat, base: nat)
    requires i <= |t|
    ensures ReadNumeral(t, i, base, 0).1 <= i + 1 ==> ReadNumeral(t, i, base, 0).0 <= 15
  {
    if Digit(At(t, i)) != 255 {
      assert (0 * base + Digit(At(t, i))) % ULONG_RANGE <= 15;
    }
  }

  // ---- Expansion ----

  /** The predefined reference at `i`, with its length. */
  function NamedRef(t: string, i: nat): (r: Option<(char, nat)>)
    requires At(t, i) == '&'
    ensures r.Some? ==> 4 <= r.value.1 && i + r.value.1 <= |t|
  {
    if At(t, i + 1) == 'a' then
      if At(t, i + 2) == 'm' && At(t, i + 3) == 'p' && At(t, i + 4) == ';' then Some(('&', 5))
      else if At(t, i + 2) == 'p' && At(t, i + 3) == 'o' && At(t, i + 4) == 's' && At(t, i + 5) == ';' then
        Some(('\'', 6))
      else None
    else if At(t, i + 1) == 'q' then
      if At(t, i + 2) == 'u' && At(t, i + 3) == 'o' && At(t, i + 4) == 't' && At(t, i + 5) == ';' then
        Some(('"', 6))
      else None
    else if At(t, i + 1) == 'g' then
      if At(t, i + 2) == 't' && At(t, i + 3) == ';' then Some(('>', 4)) else None
    else if At(t, i + 1) == 'l' then
      if At(t, i + 2) == 't' && At(t, i + 3) == ';' then Some(('<', 4)) else None
    else None
  }

  /** Where the numeral of a numeric reference at `i` starts, and its base. */
  function NumeralStart(t: string, i: nat): (r: (nat, nat))
    requires i < |t| && At(t, i + 1) == '#'
    ensures r.0 == i + (if r.1 == 16 then 3 else 2) <= |t|
  {
    if At(t, i + 2) == 'x' then (i + 3, 16) else (i + 2, 10)
  }

  /** Output produced and where reading goes on, or the error met. */
  datatype Expansion = Expanded(text: string, next: nat) | BadRef(error: ParseError)

  /** The numeric reference at `i`: what it stands for and where it ends. */
  function NumericRef(t: string, i: nat, dest: nat): (r: Expansion)
    requires i < |t| && At(t, i + 1) == '#'
    ensures r.Expanded? ==> 1 <= |r.text| && i + |r.text| < r.next <= |t|
  {
    var (start, base) := NumeralStart(t, i);
    var (code, j) := ReadNumeral(t, start, base, 0);
    ShortNumeral(t, start, base);
    if code >= CODE_LIMIT then BadRef(ParseError("invalid numeric character entity", dest))
    else if At(t, j) == ';' then Expanded(Utf8(code), j + 1)
    else BadRef(ParseError("expected ;", j))
  }

  /** One step of the translating scan; output goes to offset `dest`. */
  function Step(t: string, i: nat, dest: nat): (r: Expansion)
    requires i < |t|
    ensures r.Expanded? ==> 1 <= |r.text| && i + |r.text| <= r.next <= |t|
  {
    if t[i] == '&' && NamedRef(t, i).Some? then
      var (c, n) := NamedRef(t, i).value;
      Expanded([c], i + n)
    else if t[i] == '&' && At(t, i + 1) == '#' then NumericRef(t, i, dest)
    else Expanded([t[i]], i + 1)
  }

  /** Naive left-to-right expansion up to the first stop character: `done` is already out. */
  function Expand(t: string, i: nat, p: Pred, start: nat, done: string): Expansion
    requires i <= |t|
    decreases |t| - i
  {
    if !p.Test(At(t, i)) then Expanded(done, i)
    else
      match Step(t, i, start + |done|)
      case BadRef(e) => BadRef(e)
      case Expanded(out, next) => Expand(t, next, p, start, done + out)
  }

  /** Expansion stays inside the text, ends at a stop, and never yields more than it reads. */
  lemma {:induction false} ExpandBounds(t: string, i: nat, p: Pred, start: nat, done: string)
    requires i <= |t|
    ensures var r := Expand(t, i, p, start, done);
            r.Expanded? ==> i <= r.next <= |t| && !p.Test(At(t, r.next)) && done <= r.text
                            && |r.text| - |done| <= r.next - i && (r.next > i ==> |r.text| > |done|)
    decreases |t| - i
  {
    if p.Test(At(t, i)) {
      match Step(t, i, start + |done|)
      case BadRef(_) =>
      case Expanded(out, next) => ExpandBounds(t, next, p, start, done + out);
    }
  }
}

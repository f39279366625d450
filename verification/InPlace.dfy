/** The parser as it runs: over a zero-terminated buffer that it overwrites while it reads. */
module InPlace {
  import opened Bits
  import opened Text
  import opened CharRefs
  import opened References
  import opened Parser

  // ---- Reading ----

  /** From offset `i` on, the buffer still holds the text and its terminator. */
  ghost predicate Unread(buf: array<char>, t: string, i: nat)
    reads buf
  {
    buf.Length == |t| + 1 && forall k :: i <= k <= |t| ==> buf[k] == At(t, k)
  }

  /** Where a scan wrote the end of its output, and where it stopped reading. */
  datatype Scan = Scanned(end: nat, next: nat) | BadScan(error: ParseError)

  method SkipText(buf: array<char>, ghost t: string, pos: nat, p: Pred) returns (tmp: nat)
    requires Unread(buf, t, pos) && pos <= |t|
    ensures tmp == Skip(t, pos, p)
  {
    tmp := pos;
    while p.Test(buf[tmp])
      invariant pos <= tmp <= |t|
      invariant forall k :: pos <= k < tmp ==> p.Test(t[k])
      decreases |t| - tmp
    {
      tmp := tmp + 1;
    }
    SkipRun(t, pos, tmp, p);
  }

  // ---- Expanding references in place ----

  /** Writes the encoding of `code` at `dest` and returns the offset behind it. */
  method InsertCodedCharacter(buf: array<char>, dest: nat, code: nat) returns (r: Result<nat>)
    requires code < CODE_LIMIT ==> dest + |Utf8(code)| <= buf.Length
    modifies buf
    ensures code >= CODE_LIMIT ==>
              r == Err(ParseError("invalid numeric character entity", dest)) && buf[..] == old(buf[..])
    ensures code < CODE_LIMIT ==>
              r == Ok(dest + |Utf8(code)|)
              && Overwritten(old(buf[..]), buf[..], dest, Utf8(code))
  {
    assert Pow2(3) == 8 && Pow2(4) == 16 && Pow2(5) == 32;
    var rest := code;
    if code < 0x80 {
      buf[dest] := code as char;
      return Ok(dest + 1);
    } else if code < 0x800 {
      buf[dest + 1] := ContinuationByte(rest);
      rest := rest / 64;
      buf[dest] := LeadByte(rest, 0xC0, 5);
      return Ok(dest + 2);
    } else if code < 0x1_0000 {
      buf[dest + 2] := ContinuationByte(rest);
      rest := rest / 64;
      buf[dest + 1] := ContinuationByte(rest);
      rest := rest / 64;
      buf[dest] := LeadByte(rest, 0xE0, 4);
      return Ok(dest + 3);
    } else if code < CODE_LIMIT {
      buf[dest + 3] := ContinuationByte(rest);
      rest := rest / 64;
      buf[dest + 2] := ContinuationByte(rest);
      rest := rest / 64;
      buf[dest + 1] := ContinuationByte(rest);
      rest := rest / 64;
      buf[dest] := LeadByte(rest, 0xF0, 3);
      return Ok(dest + 4);
    } else {
      return Err(ParseError("invalid numeric character entity", dest));
    }
  }

  /** `after` is `before` with `s` written at `dest`. */
  ghost predicate Overwritten(before: string, after: string, dest: nat, s: string) {
    && dest + |s| <= |before| == |after|
    && forall k :: 0 <= k < |before| ==> after[k] == if dest <= k < dest + |s| then s[k - dest] else before[k]
  }

  /** The length of the predefined reference at `src` and the character it stands for; length 0 if there is none. */
  method MatchNamed(buf: array<char>, ghost t: string, src: nat) returns (c: char, n: nat)
    requires Unread(buf, t, src) && src < |t| && t[src] == '&'
    ensures NamedRef(t, src) == if n == 0 then None else Some((c, n))
  {
    assert buf[src] == At(t, src);
    if buf[src + 1] == 'a' {
      if buf[src + 2] == 'm' && buf[src + 3] == 'p' && buf[src + 4] == ';' {
        return '&', 5;
      }
      if buf[src + 2] == 'p' && buf[src + 3] == 'o' && buf[src + 4] == 's' && buf[src + 5] == ';' {
        return '\'', 6;
      }
    } else if buf[src + 1] == 'q' {
      if buf[src + 2] == 'u' && buf[src + 3] == 'o' && buf[src + 4] == 't' && buf[src + 5] == ';' {
        return '"', 6;
      }
    } else if buf[src + 1] == 'g' {
      if buf[src + 2] == 't' && buf[src + 3] == ';' {
        return '>', 4;
      }
    } else if buf[src + 1] == 'l' {
      if buf[src + 2] == 't' && buf[src + 3] == ';' {
        return '<', 4;
      }
    }
    return '\0', 0;
  }

  method ReadDigits(buf: array<char>, ghost t: string, start: nat, base: nat) returns (code: nat, src: nat)
    requires Unread(buf, t, start) && start <= |t|
    ensures (code, src) == ReadNumeral(t, start, base, 0)
  {
    code, src := 0, start;
    while true
      invariant start <= src <= |t|
      invariant ReadNumeral(t, src, base, code) == ReadNumeral(t, start, base, 0)
      decreases |t| - src
    {
      var digit := Digit(buf[src]);
      if digit == 255 {
        break;
      }
      code := (code * base + digit) % ULONG_RANGE;
      src := src + 1;
    }
  }

  /** A numeric reference, written at `dest`, which has not overtaken it. */
  method ExpandNumeric(buf: array<char>, ghost t: string, src: nat, dest: nat) returns (r: Scan)
    requires Unread(buf, t, src) && dest <= src < |t| && t[src] == '&' && At(t, src + 1) == '#'
    modifies buf
    ensures match NumericRef(t, src, dest)
            case BadRef(e) => r == BadScan(e)
            case Expanded(out, next) =>
              r == Scanned(dest + |out|, next) && dest + |out| <= next
              && Overwritten(old(buf[..]), buf[..], dest, out) && Unread(buf, t, next)
  {
    assert buf[src + 1] == At(t, src + 1);
    assert src + 2 <= |t| && buf[src + 2] == At(t, src + 2);
    var code, next;
    if buf[src + 2] == 'x' {
      code, next := ReadDigits(buf, t, src + 3, 16);
    } else {
      code, next := ReadDigits(buf, t, src + 2, 10);
    }
    NumericFits(t, src);
    ghost var before := buf[..];
    var written := InsertCodedCharacter(buf, dest, code);
    if written.Err? {
      return BadScan(written.error);
    }
    StillUnread(buf, t, before, dest, Utf8(code), next);
    if buf[next] != ';' {
      return BadScan(ParseError("expected ;", next));
    }
    return Scanned(written.value, next + 1);
  }

  /** The encoding of a number never reaches past its own digits. */
  lemma NumericFits(t: string, src: nat)
    requires src < |t| && At(t, src + 1) == '#'
    ensures var (start, base) := NumeralStart(t, src);
            var (code, next) := ReadNumeral(t, start, base, 0);
            code < CODE_LIMIT ==> src + |Utf8(code)| <= next
  {
    var (start, base) := NumeralStart(t, src);
    ShortNumeral(t, start, base);
  }

  lemma StillUnread(buf: array<char>, t: string, before: string, dest: nat, s: string, i: nat)
    requires |before| == |t| + 1 == buf.Length && dest + |s| <= i
    requires forall k :: i <= k <= |t| ==> before[k] == At(t, k)
    requires Overwritten(before, buf[..], dest, s)
    ensures Unread(buf, t, i)
  {
    forall k | i <= k <= |t| ensures buf[k] == At(t, k) {
      assert buf[..][k] == before[k];
    }
  }

  /** One iteration of the translating scan: reads at `src`, writes at `dest <= src`. */
  method ExpandAt(buf: array<char>, ghost t: string, src: nat, dest: nat) returns (r: Scan)
    requires Unread(buf, t, src) && dest <= src < |t|
    modifies buf
    ensures match Step(t, src, dest)
            case BadRef(e) => r == BadScan(e)
            case Expanded(out, next) =>
              r == Scanned(dest + |out|, next) && dest + |out| <= next
              && Overwritten(old(buf[..]), buf[..], dest, out) && Unread(buf, t, next)
  {
    assert buf[src] == t[src];
    if buf[src] == '&' {
      assert buf[src + 1] == At(t, src + 1);
      var c, n := MatchNamed(buf, t, src);
      if n > 0 {
        buf[dest] := c;
        return Scanned(dest + 1, src + n);
      }
      if buf[src + 1] == '#' {
        r := ExpandNumeric(buf, t, src, dest);
        return;
      }
    }
    buf[dest] := buf[src];
    return Scanned(dest + 1, src + 1);
  }

  /** What a scan of a value leaves in the buffer: the value at `pos`, and the unread text behind `next`. */
  ghost predicate ScanDone(before: string, buf: array<char>, t: string, pos: nat, text: string, next: nat)
    reads buf
  {
    && pos + |text| <= next <= |t| && Unread(buf, t, next)
    && buf[pos..pos + |text|] == text
    && |before| == buf.Length && Agree(before, buf[..], 0, pos)
  }

  method SkipAndExpandCharacterRefs(buf: array<char>, ghost t: string, pos: nat, p: Pred, fl: Flags) returns (r: Scan)
    requires Scans(p) && Unread(buf, t, pos) && pos <= |t|
    modifies buf
    ensures fl.nonDestructive ==> buf[..] == old(buf[..])
    ensures match ScanValue(t, pos, p, fl)
            case BadRef(e) => r == BadScan(e)
            case Expanded(text, next) =>
              r == Scanned(pos + |text|, next) && ScanDone(old(buf[..]), buf, t, pos, text, next)
  {
    if fl.nonDestructive {
      var end := SkipText(buf, t, pos, p);
      UnreadSlice(buf, t, pos, end);
      return Scanned(end, end);
    }
    r := Translate(buf, t, pos, p);
  }

  lemma UnreadSlice(buf: array<char>, t: string, i: nat, j: nat)
    requires Unread(buf, t, i) && i <= j <= |t|
    ensures buf[i..j] == t[i..j]
  {
  }

  /** The scan with entity translation: a fast run first, then character by character. */
  method Translate(buf: array<char>, ghost t: string, pos: nat, p: Pred) returns (r: Scan)
    requires Scans(p) && Unread(buf, t, pos) && pos <= |t|
    modifies buf
    ensures match Expand(t, pos, p, pos, [])
            case BadRef(e) => r == BadScan(e)
            case Expanded(text, next) =>
              r == Scanned(pos + |text|, next) && ScanDone(old(buf[..]), buf, t, pos, text, next)
  {
    hide Translating, Expand, Step, Skip, Overwritten;
    ghost var before := buf[..];
    var src := SkipText(buf, t, pos, Pure(p));
    var dest := src;
    UnreadSlice(buf, t, pos, src);
    TranslateStarts(before, t, pos, p, src);
    while p.Test(buf[src])
      invariant Unread(buf, t, src) && pos <= dest <= src <= |t|
      invariant Translating(before, buf[..], t, pos, p, src, dest)
      decreases |t| - src
    {
      ghost var mid := buf[..];
      assert buf[src] == At(t, src);
      var step := ExpandAt(buf, t, src, dest);
      TranslateStep(before, mid, buf[..], t, pos, p, src, dest);
      if step.BadScan? {
        return step;
      }
      dest, src := step.end, step.next;
    }
    assert buf[src] == At(t, src);
    TranslateEnds(before, buf[..], t, pos, p, src, dest);
    return Scanned(dest, src);
  }

  /** What `buf[pos..dest]` holds, continued naively from `src`, is the naive expansion from `pos`. */
  ghost predicate Translating(before: string, b: string, t: string, pos: nat, p: Pred, src: nat, dest: nat) {
    && pos <= dest <= src <= |t| < |b| && Agree(before, b, 0, pos)
    && Expand(t, src, p, pos, b[pos..dest]) == Expand(t, pos, p, pos, [])
  }

  lemma TranslateStarts(b: string, t: string, pos: nat, p: Pred, src: nat)
    requires Scans(p) && pos <= |t| < |b| && src == Skip(t, pos, Pure(p)) && b[pos..src] == t[pos..src]
    ensures Translating(b, b, t, pos, p, src, src)
  {
    ExpandPureRun(t, pos, src, p, pos, []);
    assert [] + t[pos..src] == b[pos..src];
  }

  lemma TranslateStep(before: string, b: string, b': string, t: string, pos: nat, p: Pred, src: nat, dest: nat)
    requires Translating(before, b, t, pos, p, src, dest) && src < |t| && p.Test(t[src])
    ensures Step(t, src, dest).BadRef? ==> Expand(t, pos, p, pos, []) == BadRef(Step(t, src, dest).error)
    ensures Step(t, src, dest).Expanded? && Overwritten(b, b', dest, Step(t, src, dest).text) ==>
              var Expanded(out, next) := Step(t, src, dest);
              dest + |out| <= next ==> Translating(before, b', t, pos, p, next, dest + |out|)
  {
    if Step(t, src, dest).Expanded? && Overwritten(b, b', dest, Step(t, src, dest).text) {
      AppendedOut(b, b', pos, dest, Step(t, src, dest).text);
    }
  }

  lemma TranslateEnds(before: string, b: string, t: string, pos: nat, p: Pred, src: nat, dest: nat)
    requires Translating(before, b, t, pos, p, src, dest) && !p.Test(At(t, src))
    ensures pos <= dest <= src <= |t| < |b| && Agree(before, b, 0, pos)
    ensures Expand(t, pos, p, pos, []) == Expanded(b[pos..dest], src)
  {
  }

  lemma AppendedOut(before: string, after: string, pos: nat, dest: nat, s: string)
    requires pos <= dest && Overwritten(before, after, dest, s)
    ensures after[pos..dest + |s|] == before[pos..dest] + s
    ensures Agree(before, after, 0, pos)
  {
  }
}

/** Zero-terminated text and the scanning primitives of the parser. */
module Text {

  datatype Option<+T> = None | Some(value: T)

  /** What was wrong, and the offset in the text where it was noticed. */
  datatype ParseError = ParseError(what: string, where: nat)

  datatype Result<+T> = Ok(value: T) | Err(error: ParseError)

  /** The byte at offset `i` of the zero-terminated string whose characters are `t`. */
  function At(t: string, i: nat): char {
    if i < |t| then t[i] else '\0'
  }

  predicate NulFree(s: string) {
    forall k :: 0 <= k < |s| ==> s[k] != '\0'
  }

  predicate IsSpace(c: char) {
    c == ' ' || c == '\n' || c == '\r' || c == '\t'
  }

  /** The lookup tables; every one of them maps the terminator to false. */
  datatype Pred =
    | Whitespace
    | NodeName
    | AttributeName
    | CharData
    | PureCharData
    | AttributeValue(quote: char)
    | PureAttributeValue(quote: char)
  {
    predicate Test(c: char) {
      c != '\0' &&
      match this
      case Whitespace => IsSpace(c)
      case NodeName => !IsSpace(c) && c != '/' && c != '>' && c != '?'
      case AttributeName =>
        !IsSpace(c) && c != '/' && c != '<' && c != '>' && c != '=' && c != '?' && c != '!'
      case CharData => c != '<'
      case PureCharData => c != '<' && c != '&'
      case AttributeValue(q) => c != q
      case PureAttributeValue(q) => c != q && c != '&'
    }
  }

  /** The tables by the codes of the characters that they map to true, or to false. */
  lemma LookupTables(c: char)
    ensures Whitespace.Test(c) <==> c as int in {9, 10, 13, 32}
    ensures NodeName.Test(c) <==> c as int !in {0, 9, 10, 13, 32, 47, 62, 63}
    ensures AttributeName.Test(c) <==> c as int !in {0, 9, 10, 13, 32, 33, 47, 60, 61, 62, 63}
    ensures CharData.Test(c) <==> c as int !in {0, 60}
    ensures PureCharData.Test(c) <==> c as int !in {0, 38, 60}
    ensures AttributeValue('\'').Test(c) <==> c as int !in {0, 39}
    ensures PureAttributeValue('\'').Test(c) <==> c as int !in {0, 38, 39}
    ensures AttributeValue('"').Test(c) <==> c as int !in {0, 34}
    ensures PureAttributeValue('"').Test(c) <==> c as int !in {0, 34, 38}
  {
  }

  /** `s` holds only characters that `p` accepts. */
  predicate All(s: string, p: Pred) {
    forall k :: 0 <= k < |s| ==> p.Test(s[k])
  }

  /** The first offset from `i` on whose character `p` rejects. */
  function Skip(t: string, i: nat, p: Pred): (j: nat)
    requires i <= |t|
    ensures i <= j <= |t|
    ensures forall k :: i <= k < j ==> p.Test(t[k])
    ensures !p.Test(At(t, j))
    decreases |t| - i
  {
    if i < |t| && p.Test(t[i]) then Skip(t, i + 1, p) else i
  }

  /** `s` stands in `t` at offset `i`. */
  predicate Has(t: string, i: nat, s: string) {
    i + |s| <= |t| && t[i..i + |s|] == s
  }

  lemma HasAt(t: string, i: nat, s: string, k: nat)
    requires Has(t, i, s) && k < |s|
    ensures At(t, i + k) == s[k]
  {
    assert t[i..i + |s|][k] == s[k];
  }

  lemma HasEnds(t: string, i: nat, s: string)
    requires Has(t, i, s)
    ensures i + |s| <= |t|
  {
  }

  lemma HasConcat(t: string, i: nat, a: string, b: string)
    ensures Has(t, i, a + b) <==> Has(t, i, a) && Has(t, i + |a|, b)
  {
    if i + |a| + |b| <= |t| {
      var whole := t[i..i + |a| + |b|];
      assert whole[..|a|] == t[i..i + |a|] && whole[|a|..] == t[i + |a|..i + |a| + |b|];
      assert whole == whole[..|a|] + whole[|a|..];
      assert (a + b)[..|a|] == a && (a + b)[|a|..] == b;
    }
  }

  lemma HasFirst(t: string, i: nat, s: string)
    requires Has(t, i, s) && s != []
    ensures At(t, i) == s[0] && Has(t, i + 1, s[1..])
  {
    HasAt(t, i, s, 0);
    assert s == [s[0]] + s[1..];
    HasConcat(t, i, [s[0]], s[1..]);
  }

  /** Two buffers agree on `[lo, hi)`. */
  ghost predicate Agree(b: string, b': string, lo: nat, hi: nat) {
    |b| == |b'| && hi <= |b| && forall k :: lo <= k < hi ==> b[k] == b'[k]
  }

  /** `Skip` is determined by where the run of accepted characters ends. */
  lemma {:induction false} SkipRun(t: string, i: nat, j: nat, p: Pred)
    requires i <= j <= |t|
    requires forall k :: i <= k < j ==> p.Test(t[k])
    requires !p.Test(At(t, j))
    ensures Skip(t, i, p) == j
    decreases j - i
  {
    if i < j {
      SkipRun(t, i + 1, j, p);
    }
  }

  lemma SkipWord(t: string, i: nat, s: string, p: Pred)
    requires Has(t, i, s) && All(s, p) && !p.Test(At(t, i + |s|))
    ensures Skip(t, i, p) == i + |s|
  {
    forall k | i <= k < i + |s| ensures p.Test(t[k]) {
      HasAt(t, i, s, k - i);
    }
    SkipRun(t, i, i + |s|, p);
  }

  /** The first offset from `i` on where `mark` stands, provided the text does not end before it. */
  function FindMark(t: string, i: nat, mark: string): (r: Result<nat>)
    requires i <= |t|
    ensures r.Ok? ==> i <= r.value && Has(t, r.value, mark)
    ensures r.Ok? ==> forall k :: i <= k < r.value ==> !Has(t, k, mark) && t[k] != '\0'
    ensures r.Err? ==> r.error.what == "unexpected end of data" && i <= r.error.where <= |t|
    ensures r.Err? ==> forall k :: i <= k <= r.error.where ==> !Has(t, k, mark)
    ensures r.Err? ==> At(t, r.error.where) == '\0' && forall k :: i <= k < r.error.where ==> t[k] != '\0'
    decreases |t| - i
  {
    if Has(t, i, mark) then Ok(i)
    else if At(t, i) == '\0' then Err(ParseError("unexpected end of data", i))
    else FindMark(t, i + 1, mark)
  }

  lemma {:induction false} FindFirst(t: string, i: nat, j: nat, mark: string)
    requires i <= j <= |t|
    requires Has(t, j, mark)
    requires forall k :: i <= k < j ==> !Has(t, k, mark) && t[k] != '\0'
    ensures FindMark(t, i, mark) == Ok(j)
    decreases j - i
  {
    if i < j {
      FindFirst(t, i + 1, j, mark);
    }
  }
}

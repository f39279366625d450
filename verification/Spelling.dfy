/**
 * Text with references, written as a list of pieces: what the parser makes of it is what the pieces stand for,
 * and whatever it accepts can be written so.
 */
module Spelling {
  import opened Text
  import opened CharRefs
  import opened References
  import opened Translation

  /** The predefined names and their characters, section 4.6 of XML 1.0. */
  const PREDEFINED: map<string, char> := map["lt" := '<', "gt" := '>', "amp" := '&', "apos" := '\'', "quot" := '"']

  datatype Piece = Plain(c: char) | Entity(name: string) | Number(code: CodeRef)

  function Spelled(p: Piece): string {
    match p
    case Plain(c) => [c]
    case Entity(name) => "&" + (name + ";")
    case Number(code) => code.Written()
  }

  function Meant(p: Piece): string
    requires Proper(p)
  {
    match p
    case Plain(c) => [c]
    case Entity(name) => [PREDEFINED[name]]
    case Number(code) => Utf8(code.Code() % ULONG_RANGE)
  }

  predicate Proper(p: Piece) {
    match p
    case Plain(c) => c != '\0'
    case Entity(name) => name in PREDEFINED
    case Number(code) => code.Valid() && code.Code() % ULONG_RANGE < CODE_LIMIT
  }

  function AllSpelled(pieces: seq<Piece>): string {
    if pieces == [] then [] else Spelled(pieces[0]) + AllSpelled(pieces[1..])
  }

  function AllMeant(pieces: seq<Piece>): string
    requires WellSpelled(pieces)
  {
    if pieces == [] then [] else Meant(pieces[0]) + AllMeant(pieces[1..])
  }

  /** Behind an ampersand that stands for itself: no number sign, and no predefined name with its semicolon. */
  predicate NoReference(s: string) {
    (s != [] ==> s[0] != '#') && forall name :: name in PREDEFINED ==> !(name + ";" <= s)
  }

  predicate WellSpelled(pieces: seq<Piece>) {
    pieces != [] ==>
      && Proper(pieces[0]) && WellSpelled(pieces[1..])
      && (pieces[0] == Plain('&') ==> NoReference(AllSpelled(pieces[1..])))
  }

  /** The scans that expand references, in the text or in a slice of it. */
  predicate Expands(p: Pred) {
    Scans(p) || p == NO_STOP
  }

  // ---- One piece ----

  lemma Names(name: string)
    requires name in PREDEFINED
    ensures (name == "lt" && PREDEFINED[name] == '<') || (name == "gt" && PREDEFINED[name] == '>')
         || (name == "amp" && PREDEFINED[name] == '&') || (name == "apos" && PREDEFINED[name] == '\'')
         || (name == "quot" && PREDEFINED[name] == '"')
  {
  }

  lemma EntityStep(t: string, i: nat, name: string, dest: nat)
    requires name in PREDEFINED && Has(t, i, Spelled(Entity(name)))
    ensures i < |t| && Step(t, i, dest) == Expanded([PREDEFINED[name]], i + |name| + 2)
  {
    hide NamedRef, Has;
    EntityNamed(t, i, name);
  }

  /** A predefined name is recognised. */
  lemma EntityNamed(t: string, i: nat, name: string)
    requires name in PREDEFINED && Has(t, i, Spelled(Entity(name)))
    ensures i < |t| && At(t, i) == '&' && NamedRef(t, i) == Some((PREDEFINED[name], |name| + 2))
  {
    Names(name);
    EntityLetters(t, i, name);
    hide Has, At;
  }

  lemma EntityLetters(t: string, i: nat, name: string)
    requires name in PREDEFINED && Has(t, i, Spelled(Entity(name)))
    ensures |name| >= 2 && i < |t| && At(t, i) == '&' && At(t, i + 1) == name[0] && At(t, i + 2) == name[1]
    ensures At(t, i + 3) == if |name| > 2 then name[2] else ';'
    ensures |name| > 2 ==> At(t, i + 4) == if |name| > 3 then name[3] else ';'
    ensures |name| > 3 ==> At(t, i + 5) == ';'
  {
    var s := Spelled(Entity(name));
    SpelledName(name);
    HasEnds(t, i, s);
    hide Has, Spelled;
    forall k | 0 <= k < |s| ensures At(t, i + k) == s[k] {
      HasAt(t, i, s, k);
    }
    assert At(t, i + 0) == '&' && At(t, i + 1) == s[1] && At(t, i + 2) == s[2] && At(t, i + 3) == s[3];
    assert |s| > 4 ==> At(t, i + 4) == s[4];
    assert |s| > 5 ==> At(t, i + 5) == s[5];
  }

  lemma SpelledName(name: string)
    requires name in PREDEFINED
    ensures var s := Spelled(Entity(name));
            && 2 <= |name| <= 4 && |s| == |name| + 2 && s[0] == '&' && s[|name| + 1] == ';'
            && forall k :: 0 <= k < |name| ==> s[k + 1] == name[k]
  {
    Names(name);
  }

  /** Characters that no scan stops at. */
  lemma StopsAtNoLetter(t: string, j: nat, p: Pred)
    requires Expands(p) && !p.Test(At(t, j))
    ensures var c := At(t, j);
            c != 'a' && c != 'm' && c != 'p' && c != 'o' && c != 's' && c != 'q' && c != 'u' && c != 't' && c != 'g' && c != 'l'
            && c != ';' && c != '#'
  {
  }

  /** A reference by name is spelled with a predefined name. */
  lemma NamedIsSpelled(t: string, i: nat)
    requires At(t, i) == '&' && NamedRef(t, i).Some?
    ensures var (c, n) := NamedRef(t, i).value;
            exists name :: name in PREDEFINED && PREDEFINED[name] == c && n == |name| + 2 && Has(t, i, Spelled(Entity(name)))
  {
    var (c, n) := NamedRef(t, i).value;
    var name := if c == '<' then "lt" else if c == '>' then "gt" else if c == '&' then "amp" else if c == '\'' then "apos" else "quot";
    assert name in PREDEFINED && PREDEFINED[name] == c && n == |name| + 2;
    var s, u := Spelled(Entity(name)), t[i..i + n];
    assert forall k :: 0 <= k < n ==> u[k] == At(t, i + k);
    assert u[0] == s[0] && u[1] == s[1] && u[2] == s[2] && u[3] == s[3];
    assert n > 4 ==> u[4] == s[4];
    assert n > 5 ==> u[5] == s[5];
    assert u == s;
  }

  /** An ampersand behind which no reference stands. */
  lemma LoneAmpersand(t: string, i: nat, rest: string, p: Pred)
    requires At(t, i) == '&' && Has(t, i + 1, rest) && NoReference(rest)
    requires Expands(p) && !p.Test(At(t, i + 1 + |rest|))
    ensures NamedRef(t, i).None? && At(t, i + 1) != '#'
  {
    hide NamedRef, Has, Pred.Test, Spelled;
    StopsAtNoLetter(t, i + 1 + |rest|, p);
    if rest != [] {
      HasAt(t, i + 1, rest, 0);
    }
    if NamedRef(t, i).Some? {
      NamedIsSpelled(t, i);
      var name :| name in PREDEFINED && Has(t, i, Spelled(Entity(name)));
      Names(name);
      SpelledInside(t, i, rest, name);
    }
  }

  lemma SpelledInside(t: string, i: nat, rest: string, name: string)
    requires name in PREDEFINED && Has(t, i, Spelled(Entity(name))) && Has(t, i + 1, rest)
    requires At(t, i + 1 + |rest|) !in name + ";"
    ensures name + ";" <= rest
  {
    hide Has, At;
    var word := name + ";";
    HasConcat(t, i, "&", word);
    forall k | 0 <= k < |word| ensures At(t, i + 1 + k) == word[k] && k != |rest| {
      HasAt(t, i + 1, word, k);
      assert word[k] in word;
    }
    var end := if |rest| < |word| then |rest| else 0;
    assert word[end] in word && end != |rest|;
    forall k | 0 <= k < |word| ensures rest[k] == word[k] {
      HasAt(t, i + 1, rest, k);
    }
  }

  lemma PieceStep(t: string, i: nat, piece: Piece, rest: string, p: Pred, dest: nat)
    requires Proper(piece) && Expands(p) && Has(t, i, Spelled(piece)) && Has(t, i + |Spelled(piece)|, rest)
    requires piece == Plain('&') ==> NoReference(rest)
    requires !p.Test(At(t, i + |Spelled(piece)| + |rest|))
    ensures i < |t| && Step(t, i, dest) == Expanded(Meant(piece), i + |Spelled(piece)|)
  {
    match piece
    case Plain(c) =>
      HasAt(t, i, [c], 0);
      if c == '&' {
        LoneAmpersand(t, i, rest, p);
      }
    case Entity(name) => EntityStep(t, i, name, dest);
    case Number(code) => CodeRefStep(t, i, code, dest);
  }

  /**
   * Text with references expands to what its pieces stand for, up to the character that ends the scan; an
   * ampersand that starts no reference stands for itself.
   */
  lemma {:induction false} SpellingExpands(t: string, i: nat, pieces: seq<Piece>, p: Pred, start: nat, done: string)
    requires Expands(p) && WellSpelled(pieces) && All(AllSpelled(pieces), p)
    requires Has(t, i, AllSpelled(pieces)) && !p.Test(At(t, i + |AllSpelled(pieces)|))
    ensures Expand(t, i, p, start, done) == Expanded(done + AllMeant(pieces), i + |AllSpelled(pieces)|)
    decreases |pieces|
  {
    hide *;
    if pieces == [] {
      NoPieces();
      HasEnds(t, i, AllSpelled(pieces));
      ExpandStops(t, i, p, start, done);
      assert done + [] == done;
    } else {
      var piece, rest := pieces[0], AllSpelled(pieces[1..]);
      var s := Spelled(piece);
      PiecesHead(pieces, p);
      HasConcat(t, i, s, rest);
      PieceStep(t, i, piece, rest, p, start + |done|);
      HasEnds(t, i + |s|, rest);
      FirstPasses(t, i, s, p);
      ExpandStep(t, i, p, start, done, Meant(piece), i + |s|);
      SpellingExpands(t, i + |s|, pieces[1..], p, start, done + Meant(piece));
      ConcatAssoc(done, Meant(piece), AllMeant(pieces[1..]));
    }
  }

  lemma NoPieces()
    ensures AllSpelled([]) == [] && AllMeant([]) == []
  {
  }

  lemma PiecesHead(pieces: seq<Piece>, p: Pred)
    requires pieces != [] && WellSpelled(pieces) && All(AllSpelled(pieces), p)
    ensures Proper(pieces[0]) && WellSpelled(pieces[1..]) && All(AllSpelled(pieces[1..]), p)
    ensures pieces[0] == Plain('&') ==> NoReference(AllSpelled(pieces[1..]))
    ensures Spelled(pieces[0]) != [] && All(Spelled(pieces[0]), p)
    ensures AllSpelled(pieces) == Spelled(pieces[0]) + AllSpelled(pieces[1..])
    ensures AllMeant(pieces) == Meant(pieces[0]) + AllMeant(pieces[1..])
  {
    hide Pred.Test, CodeRef.Code, CodeRef.Valid, Proper, Meant, All, NoReference;
    AllParts(Spelled(pieces[0]), AllSpelled(pieces[1..]), p);
  }

  lemma AllParts(a: string, b: string, p: Pred)
    ensures All(a + b, p) <==> All(a, p) && All(b, p)
  {
    hide Pred.Test;
    var s := a + b;
    assert forall k :: 0 <= k < |a| ==> s[k] == a[k];
    assert forall k :: 0 <= k < |b| ==> s[|a| + k] == b[k];
  }

  lemma FirstPasses(t: string, i: nat, s: string, p: Pred)
    requires Has(t, i, s) && s != [] && All(s, p)
    ensures i < |t| && p.Test(t[i])
  {
    HasAt(t, i, s, 0);
  }

  // ---- Whatever is accepted is spelled ----

  /** A numeric reference that is accepted, as it is written. */
  lemma NumberIsSpelled(t: string, i: nat, dest: nat) returns (code: CodeRef)
    requires i < |t| && t[i] == '&' && At(t, i + 1) == '#' && NumericRef(t, i, dest).Expanded?
    ensures Proper(Number(code)) && Has(t, i, Spelled(Number(code)))
    ensures NumericRef(t, i, dest) == Expanded(Meant(Number(code)), i + |Spelled(Number(code))|)
  {
    hide Numeral, Utf8, Digit, Has;
    var (start, base) := NumeralStart(t, i);
    var (n, j) := ReadNumeral(t, start, base, 0);
    code := CodeRef(base == 16, t[start..j]);
    hide ReadNumeral;
    DigitsStand(t, start, j);
    ReadNumeralWraps(t, start, code.digits, base, 0);
    NumberStands(t, i, code, j);
  }

  lemma DigitsStand(t: string, start: nat, j: nat)
    requires start <= j <= |t| && forall k :: start <= k < j ==> Digit(t[k]) != 255
    ensures Has(t, start, t[start..j]) && forall k :: 0 <= k < j - start ==> Digit(t[start..j][k]) != 255
  {
    hide Digit;
  }

  lemma NumberStands(t: string, i: nat, code: CodeRef, j: nat)
    requires i < |t| && t[i] == '&' && At(t, i + 1) == '#' && At(t, j) == ';'
    requires var (start, base) := NumeralStart(t, i);
             start <= j && base == code.Base() && (code.hex <==> base == 16) && j == start + |code.digits| && Has(t, start, code.digits)
    ensures Has(t, i, code.Written()) && i + |code.Written()| == j + 1
  {
    var mark := if code.hex then "&#x" else "&#";
    assert t[i..i + |mark|] == mark && t[j..j + 1] == ";";
    HasConcat(t, i, mark, code.digits);
    HasConcat(t, i, mark + code.digits, ";");
  }

  /** One step of an expansion reads one piece. */
  lemma StepIsPiece(t: string, i: nat, dest: nat) returns (piece: Piece)
    requires i < |t| && t[i] != '\0' && Step(t, i, dest).Expanded?
    ensures Proper(piece) && Has(t, i, Spelled(piece)) && Step(t, i, dest) == Expanded(Meant(piece), i + |Spelled(piece)|)
    ensures piece == Plain('&') ==> At(t, i) == '&' && NamedRef(t, i).None? && At(t, i + 1) != '#'
  {
    if t[i] == '&' && NamedRef(t, i).Some? {
      NamedIsSpelled(t, i);
      var (c, n) := NamedRef(t, i).value;
      var name :| name in PREDEFINED && PREDEFINED[name] == c && n == |name| + 2 && Has(t, i, Spelled(Entity(name)));
      piece := Entity(name);
    } else if t[i] == '&' && At(t, i + 1) == '#' {
      var code := NumberIsSpelled(t, i, dest);
      piece := Number(code);
    } else {
      piece := Plain(t[i]);
      assert t[i..i + 1] == [t[i]];
    }
  }

  lemma NoReferenceBehind(t: string, i: nat, rest: string)
    requires At(t, i) == '&' && NamedRef(t, i).None? && At(t, i + 1) != '#' && Has(t, i + 1, rest)
    ensures NoReference(rest)
  {
    if rest != [] {
      HasAt(t, i + 1, rest, 0);
    }
    forall name | name in PREDEFINED ensures !(name + ";" <= rest) {
      if name + ";" <= rest {
        var word := name + ";";
        assert rest == word + rest[|word|..];
        HasConcat(t, i + 1, word, rest[|word|..]);
        assert t[i..i + 1] == "&";
        HasConcat(t, i, "&", word);
        EntityNamed(t, i, name);
      }
    }
  }

  /** Whatever an expansion accepts is spelled by pieces that stand for what it yields. */
  lemma {:induction false} ExpansionIsSpelled(t: string, i: nat, p: Pred, start: nat, done: string) returns (pieces: seq<Piece>)
    requires i <= |t| && Expand(t, i, p, start, done).Expanded?
    ensures var r := Expand(t, i, p, start, done);
            && i <= r.next <= |t| && WellSpelled(pieces) && AllSpelled(pieces) == t[i..r.next] && r.text == done + AllMeant(pieces)
    decreases |t| - i
  {
    hide *;
    if !p.Test(At(t, i)) {
      pieces := [];
      ExpandStops(t, i, p, start, done);
      NoPieces();
      assert done + [] == done && t[i..i] == [];
      WellSpelledNone();
    } else {
      ExpandsOn(t, i, p, start, done);
      var piece := StepIsPiece(t, i, start + |done|);
      var next := i + |Spelled(piece)|;
      ExpandStep(t, i, p, start, done, Meant(piece), next);
      var rest := ExpansionIsSpelled(t, next, p, start, done + Meant(piece));
      pieces := [piece] + rest;
      PieceInFront(t, i, piece, rest, Expand(t, i, p, start, done).next);
      ConcatAssoc(done, Meant(piece), AllMeant(rest));
    }
  }

  lemma WellSpelledNone()
    ensures WellSpelled([])
  {
  }

  /** An expansion that succeeds has its first step behind it. */
  lemma ExpandsOn(t: string, i: nat, p: Pred, start: nat, done: string)
    requires i <= |t| && p.Test(At(t, i)) && Expand(t, i, p, start, done).Expanded?
    ensures i < |t| && p.Test(t[i]) && t[i] != '\0' && At(t, i) == t[i]
    ensures Step(t, i, start + |done|).Expanded? && i < Step(t, i, start + |done|).next <= |t|
  {
    hide Step;
  }

  lemma PieceInFront(t: string, i: nat, piece: Piece, rest: seq<Piece>, end: nat)
    requires i < |t| && Proper(piece) && Has(t, i, Spelled(piece)) && WellSpelled(rest)
    requires i + |Spelled(piece)| <= end <= |t| && AllSpelled(rest) == t[i + |Spelled(piece)|..end]
    requires piece == Plain('&') ==> NamedRef(t, i).None? && At(t, i + 1) != '#' && At(t, i) == '&'
    ensures WellSpelled([piece] + rest) && AllSpelled([piece] + rest) == t[i..end]
    ensures AllMeant([piece] + rest) == Meant(piece) + AllMeant(rest)
  {
    hide *;
    var j := i + |Spelled(piece)|;
    SliceJoin(t, i, j, end);
    Bounds(t, i, Spelled(piece));
    Bounds(t, j, t[j..end]);
    if piece == Plain('&') {
      SpelledPlain('&');
      NoReferenceBehind(t, i, AllSpelled(rest));
    }
    OneMore(piece, rest);
  }

  lemma SpelledPlain(c: char)
    ensures Spelled(Plain(c)) == [c]
  {
  }

  /** A stretch is there if and only if it is the slice. */
  lemma Bounds(t: string, i: nat, s: string)
    ensures Has(t, i, s) <==> i + |s| <= |t| && t[i..i + |s|] == s
  {
  }

  lemma OneMore(piece: Piece, rest: seq<Piece>)
    requires Proper(piece) && WellSpelled(rest) && (piece == Plain('&') ==> NoReference(AllSpelled(rest)))
    ensures WellSpelled([piece] + rest) && AllSpelled([piece] + rest) == Spelled(piece) + AllSpelled(rest)
    ensures AllMeant([piece] + rest) == Meant(piece) + AllMeant(rest)
  {
    hide Proper, NoReference, Spelled, Meant;
    assert ([piece] + rest)[1..] == rest;
  }

  lemma SliceJoin(t: string, i: nat, j: nat, k: nat)
    requires i <= j <= k <= |t|
    ensures t[i..j] + t[j..k] == t[i..k]
  {
  }

  /** The meaning of a raw value: it has one if and only if it can be spelled, and then every spelling gives it. */
  lemma TranslatedIsSpelled(raw: string, text: string)
    requires NulFree(raw)
    ensures Translated(raw) == Some(text)
            <==> exists pieces :: WellSpelled(pieces) && AllSpelled(pieces) == raw && AllMeant(pieces) == text
  {
    hide WellSpelled, AllSpelled, AllMeant, Expand, NulFree, Pred.Test, All;
    if Translated(raw) == Some(text) {
      var pieces := ExpansionIsSpelled(raw, 0, NO_STOP, 0, []);
      WholeRaw(raw);
      assert [] + AllMeant(pieces) == AllMeant(pieces);
    }
    if pieces :| WellSpelled(pieces) && AllSpelled(pieces) == raw && AllMeant(pieces) == text {
      RawScans(raw);
      SpellingExpands(raw, 0, pieces, NO_STOP, 0, []);
      assert [] + AllMeant(pieces) == text;
    }
  }

  lemma RawScans(raw: string)
    requires NulFree(raw)
    ensures All(raw, NO_STOP) && Has(raw, 0, raw) && !NO_STOP.Test(At(raw, |raw|)) && Expands(NO_STOP)
  {
    assert raw[0..|raw|] == raw;
  }

  lemma WholeRaw(raw: string)
    requires NulFree(raw) && Translated(raw).Some?
    ensures Expand(raw, 0, NO_STOP, 0, []).next == |raw| && raw[0..|raw|] == raw
  {
    ExpandBounds(raw, 0, NO_STOP, 0, []);
  }

  // ---- Escaping ----

  /** Escaping writes every character as its predefined name, except for the one that is kept. */
  lemma {:induction false} EscapeSpells(s: string, keep: char) returns (pieces: seq<Piece>)
    requires NulFree(s) && keep != '&'
    ensures |pieces| == |s| && WellSpelled(pieces) && AllSpelled(pieces) == Escape(s, keep) && AllMeant(pieces) == s
    ensures forall k :: 0 <= k < |s| ==>
              if s[k] in PREDEFINED.Values && s[k] != keep then
                pieces[k].Entity? && pieces[k].name in PREDEFINED && PREDEFINED[pieces[k].name] == s[k]
              else pieces[k] == Plain(s[k])
    decreases |s|
  {
    if s == [] {
      pieces := [];
    } else {
      var piece := EscapePiece(s[0], keep);
      var rest := EscapeSpells(s[1..], keep);
      pieces := [piece] + rest;
      EscapeHead(s, keep);
      assert pieces[1..] == rest;
    }
  }

  lemma EscapePiece(c: char, keep: char) returns (piece: Piece)
    requires c != '\0' && keep != '&'
    ensures Proper(piece) && Spelled(piece) == EscapeChar(c, keep) && Meant(piece) == [c] && piece != Plain('&')
    ensures if c in PREDEFINED.Values && c != keep then
              piece.Entity? && piece.name in PREDEFINED && PREDEFINED[piece.name] == c
            else piece == Plain(c)
  {
    assert PREDEFINED["lt"] == '<' && PREDEFINED["gt"] == '>' && PREDEFINED["amp"] == '&' && PREDEFINED["apos"] == '\''
        && PREDEFINED["quot"] == '"';
    assert PREDEFINED.Values == {'<', '>', '&', '\'', '"'};
    piece := if c == keep then Plain(c)
             else if c == '<' then Entity("lt")
             else if c == '>' then Entity("gt")
             else if c == '&' then Entity("amp")
             else if c == '\'' then Entity("apos")
             else if c == '"' then Entity("quot")
             else Plain(c);
  }
}

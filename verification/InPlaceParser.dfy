/** The recursive descent over the buffer, each method against its function of the original text. */
module InPlaceParser {
  import opened Text
  import opened CharRefs
  import opened References
  import opened Parser
  import opened InPlace
  import opened Layout

  datatype SlicedAttributeResult = GotAttribute(attribute: SlicedAttribute, next: nat) | NoAttribute(error: ParseError)
  datatype SlicedAttributesResult = GotAttributes(attributes: seq<SlicedAttribute>, next: nat) | NoAttributes(error: ParseError)
  datatype SlicedNodeResult = GotNode(node: Option<SlicedNode>, next: nat) | NoNode(error: ParseError)
  datatype SlicedContentsResult =
    | GotContents(value: Option<Slice>, children: seq<SlicedNode>, next: nat)
    | NoContents(error: ParseError)
  datatype SlicedDocumentResult = GotDocument(children: seq<SlicedNode>) | NoDocument(error: ParseError)

  /** Reading has reached `next`, and nothing before `pos` has changed. */
  ghost predicate Advanced(before: string, buf: array<char>, t: string, pos: nat, next: nat)
    reads buf
  {
    && pos <= next <= |t| && Unread(buf, t, next)
    && |before| == buf.Length && Agree(before, buf[..], 0, pos)
  }

  // ---- Attributes ----

  /** The name with its terminator, the equals sign and the opening quote. */
  method ParseAttributeHeadInPlace(buf: array<char>, ghost t: string, pos: nat, fl: Flags) returns (r: AttributeHead)
    requires pos < |t| && Unread(buf, t, pos)
    modifies buf
    ensures r == ParseAttributeHead(t, pos)
    ensures fl.nonDestructive ==> buf[..] == old(buf[..])
    ensures r.Head? ==> Advanced(old(buf[..]), buf, t, pos, r.open)
                        && Holds(buf[..], Slice(pos, r.nameEnd - pos), t[pos..r.nameEnd], fl)
  {
    hide Skip, Pred.Test;
    var nameEnd := SkipText(buf, t, pos + 1, AttributeName);
    var i := SkipText(buf, t, nameEnd, Whitespace);
    UnreadSlice(buf, t, pos, nameEnd);
    assert buf[i] == At(t, i);
    if buf[i] != '=' {
      return BadHead(ParseError("expected =", i));
    }
    i := i + 1;
    if !fl.nonDestructive {
      buf[nameEnd] := '\0';
    }
    i := SkipText(buf, t, i, Whitespace);
    assert buf[i] == At(t, i);
    if buf[i] != '\'' && buf[i] != '"' {
      return BadHead(ParseError("expected ' or \"", i));
    }
    return Head(nameEnd, i);
  }

  method ParseAttributeInPlace(buf: array<char>, ghost t: string, pos: nat, fl: Flags) returns (r: SlicedAttributeResult)
    requires pos < |t| && Unread(buf, t, pos)
    modifies buf
    ensures fl.nonDestructive ==> buf[..] == old(buf[..])
    ensures match ParseAttribute(t, pos, fl)
            case BadAttribute(e) => r == NoAttribute(e)
            case ParsedAttribute(a, next) =>
              r.GotAttribute? && r.next == next && Advanced(old(buf[..]), buf, t, pos, next)
              && AttributeStored(buf[..], r.attribute, a, pos, next, fl)
  {
    hide AttributeStored, Holds, Agree, ParseAttributeHead, ScanValue, Ordered;
    ghost var before := buf[..];
    var head := ParseAttributeHeadInPlace(buf, t, pos, fl);
    if head.BadHead? {
      return NoAttribute(head.error);
    }
    ghost var named := buf[..];
    assert buf[head.open] == At(t, head.open);
    var quote, start := buf[head.open], head.open + 1;
    var scan := SkipAndExpandCharacterRefs(buf, t, start, AttributeValue(quote), fl);
    if scan.BadScan? {
      return NoAttribute(scan.error);
    }
    assert buf[scan.next] == At(t, scan.next);
    if buf[scan.next] != quote {
      return NoAttribute(ParseError("expected ' or \"", scan.next));
    }
    ghost var scanned := buf[..];
    if !fl.nonDestructive {
      buf[scan.end] := '\0';
    }
    var next := SkipText(buf, t, scan.next + 1, Whitespace);
    r := GotAttribute(SlicedAttribute(Slice(pos, head.nameEnd - pos), Slice(start, scan.end - start)), next);
    AttributeHeld(before, named, scanned, buf[..], r.attribute, ParseAttribute(t, pos, fl).attribute, next, fl);
  }

  ghost predicate AttributeStored(b: string, s: SlicedAttribute, a: Attribute, lo: nat, hi: nat, fl: Flags) {
    Holds(b, s.name, a.name, fl) && Holds(b, s.value, a.value, fl) && Ordered([s.name, s.value], lo, hi)
  }

  /** The name survives the scan of the value, and both survive the terminator behind the value. */
  lemma AttributeHeld(before: string, named: string, scanned: string, after: string,
                      s: SlicedAttribute, a: Attribute, next: nat, fl: Flags)
    requires |before| == |named| == |scanned| == |after|
    requires s.name.End() < s.value.begin && s.value.End() < |after| && s.value.End() < next
    requires Agree(before, named, 0, s.name.begin) && Holds(named, s.name, a.name, fl)
    requires Agree(named, scanned, 0, s.value.begin)
    requires s.value.size == |a.value| && scanned[s.value.begin..s.value.End()] == a.value
    requires after == if fl.nonDestructive then scanned else scanned[s.value.End() := '\0']
    ensures AttributeStored(after, s, a, s.name.begin, next, fl) && Agree(before, after, 0, s.name.begin)
  {
    assert Agree(named, after, 0, s.value.begin);
    HoldsElsewhere(named, after, s.name, a.name, 0, s.value.begin, fl);
    assert after[s.value.begin..s.value.End()] == a.value;
  }

  method ParseNodeAttributes(buf: array<char>, ghost t: string, pos: nat, fl: Flags) returns (r: SlicedAttributesResult)
    requires pos <= |t| && Unread(buf, t, pos)
    modifies buf
    ensures fl.nonDestructive ==> buf[..] == old(buf[..])
    ensures match ParseAttributes(t, pos, fl, [])
            case BadAttributes(e) => r == NoAttributes(e)
            case ParsedAttributes(attributes, next) =>
              r.GotAttributes? && r.next == next && Advanced(old(buf[..]), buf, t, pos, next)
              && AttributesStored(buf[..], r.attributes, attributes, pos, next, fl)
  {
    ghost var before := buf[..];
    var i, sliced := pos, [];
    ghost var done: seq<Attribute> := [];
    while AttributeName.Test(buf[i])
      invariant Advanced(before, buf, t, pos, i)
      invariant fl.nonDestructive ==> buf[..] == before
      invariant AttributesStored(buf[..], sliced, done, pos, i, fl)
      invariant ParseAttributes(t, i, fl, done) == ParseAttributes(t, pos, fl, [])
      decreases |t| - i
    {
      ghost var mid := buf[..];
      assert buf[i] == At(t, i);
      var one := ParseAttributeInPlace(buf, t, i, fl);
      if one.NoAttribute? {
        return NoAttributes(one.error);
      }
      ghost var a := ParseAttribute(t, i, fl).attribute;
      AttributesGrow(before, mid, buf[..], sliced, done, one.attribute, a, pos, i, one.next, fl);
      sliced, done, i := sliced + [one.attribute], done + [a], one.next;
    }
    assert buf[i] == At(t, i);
    return GotAttributes(sliced, i);
  }

  lemma AttributesGrow(before: string, mid: string, after: string, sliced: seq<SlicedAttribute>, done: seq<Attribute>,
                       s: SlicedAttribute, a: Attribute, pos: nat, i: nat, next: nat, fl: Flags)
    requires |before| == |mid| == |after| && pos <= i <= next
    requires Agree(before, mid, 0, pos) && Agree(mid, after, 0, i)
    requires AttributesStored(mid, sliced, done, pos, i, fl) && AttributeStored(after, s, a, i, next, fl)
    ensures AttributesStored(after, sliced + [s], done + [a], pos, next, fl) && Agree(before, after, 0, pos)
  {
    AttributesSurvive(mid, after, sliced, done, pos, i, fl);
    AttributeAppended(after, sliced, done, s, a, pos, i, next, fl);
  }

  // ---- Constructs that leave no node, and CDATA ----

  /** Whether `mark` stands at `i`, compared from the left and only as far as it matches. */
  method MarkAt(buf: array<char>, ghost t: string, i: nat, mark: string) returns (yes: bool)
    requires i <= |t| && Unread(buf, t, i) && NulFree(mark)
    ensures yes == Has(t, i, mark)
  {
    var k := 0;
    while k < |mark|
      invariant k <= |mark| && i + k <= |t|
      invariant t[i..i + k] == mark[..k]
    {
      assert buf[i + k] == At(t, i + k);
      if buf[i + k] != mark[k] {
        Mismatch(t, i, mark, k);
        return false;
      }
      k := k + 1;
    }
    return true;
  }

  lemma Mismatch(t: string, i: nat, mark: string, k: nat)
    requires k < |mark| && At(t, i + k) != mark[k]
    ensures !Has(t, i, mark)
  {
    if i + |mark| <= |t| {
      assert t[i..i + |mark|][k] == At(t, i + k);
    }
  }

  method SkipToMark(buf: array<char>, ghost t: string, pos: nat, mark: string) returns (r: Result<nat>)
    requires pos <= |t| && Unread(buf, t, pos) && NulFree(mark) && mark != []
    ensures r == FindMark(t, pos, mark)
  {
    var i := pos;
    while true
      invariant pos <= i <= |t|
      invariant FindMark(t, i, mark) == FindMark(t, pos, mark)
      decreases |t| - i
    {
      var found := MarkAt(buf, t, i, mark);
      if found {
        return Ok(i);
      }
      assert buf[i] == At(t, i);
      if buf[i] == '\0' {
        return Err(ParseError("unexpected end of data", i));
      }
      i := i + 1;
    }
  }

  /** What a node, or nothing, parsed from `pos` leaves behind. */
  ghost predicate NodeDone(before: string, buf: array<char>, t: string, pos: nat, r: SlicedNodeResult, pure: NodeResult, fl: Flags)
    reads buf
  {
    match pure
    case BadNode(e) => r == NoNode(e)
    case ParsedNode(None, next) => r == GotNode(None, next) && Advanced(before, buf, t, pos, next)
    case ParsedNode(Some(n), next) =>
      && r.GotNode? && r.node.Some? && r.next == next && Advanced(before, buf, t, pos, next)
      && NodeStored(buf[..], r.node.value, n, pos, next, fl)
  }

  method SkipPastInPlace(buf: array<char>, ghost t: string, pos: nat, mark: string, ghost fl: Flags) returns (r: SlicedNodeResult)
    requires pos <= |t| && Unread(buf, t, pos) && NulFree(mark) && mark != []
    ensures NodeDone(buf[..], buf, t, pos, r, SkipPast(t, pos, mark), fl)
  {
    var end := SkipToMark(buf, t, pos, mark);
    if end.Err? {
      return NoNode(end.error);
    }
    return GotNode(None, end.value + |mark|);
  }

  method ParseCDataInPlace(buf: array<char>, ghost t: string, pos: nat, fl: Flags) returns (r: SlicedNodeResult)
    requires pos <= |t| && Unread(buf, t, pos)
    modifies buf
    ensures fl.nonDestructive ==> buf[..] == old(buf[..])
    ensures NodeDone(old(buf[..]), buf, t, pos, r, ParseCData(t, pos), fl)
  {
    var end := SkipToMark(buf, t, pos, "]]>");
    if end.Err? {
      return NoNode(end.error);
    }
    UnreadSlice(buf, t, pos, end.value);
    ghost var before := buf[..];
    if !fl.nonDestructive {
      buf[end.value] := '\0';
    }
    CDataStored(before, buf, t, pos, end.value, fl);
    return GotNode(Some(SlicedCData(Slice(pos, end.value - pos))), end.value + 3);
  }

  lemma CDataStored(before: string, buf: array<char>, t: string, pos: nat, end: nat, fl: Flags)
    requires pos <= end && end + 3 <= |t| && buf.Length == |before| == |t| + 1
    requires before[pos..end] == t[pos..end] && forall k :: end < k <= |t| ==> before[k] == At(t, k)
    requires buf[..] == if fl.nonDestructive then before else before[end := '\0']
    ensures Advanced(before, buf, t, pos, end + 3)
    ensures NodeStored(buf[..], SlicedCData(Slice(pos, end - pos)), CData(t[pos..end]), pos, end + 3, fl)
  {
    var b, s := buf[..], Slice(pos, end - pos);
    assert b[pos..end] == before[pos..end];
    assert Holds(b, s, t[pos..end], fl);
    forall k | end + 3 <= k <= |t| ensures buf[k] == At(t, k) {
      assert b[k] == before[k];
    }
  }

  /** The naive scan of a document type, with its inner loop over bracketed parts. */
  method ParseDoctypeInPlace(buf: array<char>, ghost t: string, pos: nat, ghost fl: Flags) returns (r: SlicedNodeResult)
    requires pos <= |t| && Unread(buf, t, pos)
    ensures NodeDone(buf[..], buf, t, pos, r, SkipDoctype(t, pos, 0), fl)
  {
    var i := pos;
    while buf[i] != '>'
      invariant pos <= i <= |t|
      invariant SkipDoctype(t, i, 0) == SkipDoctype(t, pos, 0)
      decreases |t| - i
    {
      assert buf[i] == At(t, i);
      if buf[i] == '[' {
        i := i + 1;
        var depth := 1;
        while depth > 0
          invariant pos <= i <= |t|
          invariant SkipDoctype(t, i, depth) == SkipDoctype(t, pos, 0)
          decreases |t| - i
        {
          assert buf[i] == At(t, i);
          match buf[i] {
            case '[' => depth := depth + 1;
            case ']' => depth := depth - 1;
            case '\0' => return NoNode(ParseError("unexpected end of data", i));
            case _ =>
          }
          i := i + 1;
        }
      } else if buf[i] == '\0' {
        return NoNode(ParseError("unexpected end of data", i));
      } else {
        i := i + 1;
      }
    }
    assert buf[i] == At(t, i);
    return GotNode(None, i + 1);
  }

  // ---- Contents ----

  /** What an element has collected in `buf[pos..i]` so far. */
  ghost predicate Collected(before: string, b: string, pos: nat, i: nat, svalue: Option<Slice>, sliced: seq<SlicedNode>,
                            value: string, children: seq<Node>, fl: Flags) {
    && Agree(before, b, 0, pos)
    && ChildrenStored(b, sliced, children, pos, i, fl)
    && ValueFrom(svalue, value, sliced, children)
    && (svalue.Some? ==> value != [])
  }

  lemma CollectedNothing(b: string, pos: nat, fl: Flags)
    requires pos <= |b|
    ensures Collected(b, b, pos, pos, None, [], [], [], fl)
  {
  }

  lemma CollectedAgrees(before: string, b: string, pos: nat, i: nat, svalue: Option<Slice>, sliced: seq<SlicedNode>,
                        value: string, children: seq<Node>, fl: Flags)
    requires Collected(before, b, pos, i, svalue, sliced, value, children, fl)
    ensures Agree(before, b, 0, pos)
  {
  }

  lemma CollectedWider(before: string, b: string, pos: nat, i: nat, j: nat, svalue: Option<Slice>, sliced: seq<SlicedNode>,
                       value: string, children: seq<Node>, fl: Flags)
    requires Collected(before, b, pos, i, svalue, sliced, value, children, fl) && i <= j
    ensures Collected(before, b, pos, j, svalue, sliced, value, children, fl)
  {
  }

  /** The first byte of the element's value tells whether it is still unset. */
  lemma UnsetTest(before: string, b: string, pos: nat, i: nat, svalue: Option<Slice>, sliced: seq<SlicedNode>,
                  value: string, children: seq<Node>, fl: Flags)
    requires Collected(before, b, pos, i, svalue, sliced, value, children, fl)
    ensures svalue.None? ==> Unset(value)
    ensures svalue.Some? ==> svalue.value.begin < |b| && (b[svalue.value.begin] == '\0' <==> Unset(value))
  {
    if svalue.Some? {
      var s := svalue.value;
      var k :| 0 <= k < |sliced| && sliced[k] == SlicedData(s) && children[k] == Data(value);
      ChildAt(b, sliced, children, k, fl);
      assert b[s.begin..s.End()][0] == b[s.begin];
    }
  }

  lemma CollectedData(before: string, mid: string, after: string, pos: nat, i: nat, s: Slice, text: string, next: nat,
                      svalue: Option<Slice>, sliced: seq<SlicedNode>, value: string, children: seq<Node>, fl: Flags)
    requires Collected(before, mid, pos, i, svalue, sliced, value, children, fl)
    requires Agree(mid, after, 0, i) && s.begin == i && s.End() < next && Holds(after, s, text, fl) && text != []
    ensures Collected(before, after, pos, next, if svalue.None? || Unset(value) then Some(s) else svalue,
                      sliced + [SlicedData(s)], Adopt(value, text), children + [Data(text)], fl)
  {
    CollectedChild(before, mid, after, pos, i, SlicedData(s), Data(text), next, svalue, sliced, value, children, fl);
    SameLength(mid, sliced, children, fl);
    var k := |sliced|;
    assert (sliced + [SlicedData(s)])[k] == SlicedData(s) && (children + [Data(text)])[k] == Data(text);
  }

  lemma CollectedChild(before: string, mid: string, after: string, pos: nat, i: nat, s: SlicedNode, n: Node, next: nat,
                       svalue: Option<Slice>, sliced: seq<SlicedNode>, value: string, children: seq<Node>, fl: Flags)
    requires Collected(before, mid, pos, i, svalue, sliced, value, children, fl)
    requires Agree(mid, after, 0, i) && NodeStored(after, s, n, i, next, fl)
    ensures Collected(before, after, pos, next, svalue, sliced + [s], value, children + [n], fl)
  {
    ChildrenSurvive(mid, after, sliced, children, pos, i, fl);
    ChildAppended(after, sliced, children, s, n, pos, i, next, fl);
    SameLength(mid, sliced, children, fl);
    if svalue.Some? {
      var k :| 0 <= k < |sliced| && sliced[k] == SlicedData(svalue.value) && children[k] == Data(value);
      assert (sliced + [s])[k] == SlicedData(svalue.value) && (children + [n])[k] == Data(value);
    }
  }

  /** Data appended to an element: its new value and children, the character that ended it, and where that stood. */
  datatype DataResult =
    | GotData(value: Option<Slice>, children: seq<SlicedNode>, ch: char, next: nat)
    | NoData(error: ParseError)

  method ParseAndAppendData(buf: array<char>, ghost t: string, pos: nat, fl: Flags, svalue: Option<Slice>, sliced: seq<SlicedNode>,
                            ghost before: string, ghost lo: nat, ghost value: string, ghost children: seq<Node>)
    returns (r: DataResult)
    requires pos < |t| && Unread(buf, t, pos) && CharData.Test(t[pos])
    requires lo <= pos && Collected(before, buf[..], lo, pos, svalue, sliced, value, children, fl)
    modifies buf
    ensures fl.nonDestructive ==> buf[..] == old(buf[..])
    ensures match ScanValue(t, pos, CharData, fl)
            case BadRef(e) => r == NoData(e)
            case Expanded(text, next) =>
              && r.GotData? && r.next == next && r.ch == At(t, next) && Unread(buf, t, next + 1)
              && Collected(before, buf[..], lo, next + 1, r.value, r.children, Adopt(value, text), children + [Data(text)], fl)
  {
    hide Collected, Holds;
    ghost var mid := buf[..];
    var scan := SkipAndExpandCharacterRefs(buf, t, pos, CharData, fl);
    if scan.BadScan? {
      return NoData(scan.error);
    }
    ghost var text := ScanValue(t, pos, CharData, fl).text;
    var s := Slice(pos, scan.end - pos);
    assert buf[scan.next] == At(t, scan.next);
    ghost var scanned := buf[..];
    assert Agree(mid, scanned, 0, pos);
    CollectedStays(before, mid, scanned, lo, pos, svalue, sliced, value, children, fl);
    UnsetTest(before, scanned, lo, pos, svalue, sliced, value, children, fl);
    var unset := svalue.None? || buf[svalue.value.begin] == '\0';
    var ch := buf[scan.next];
    if !fl.nonDestructive {
      buf[scan.end] := '\0';
    }
    DataHeld(scanned, buf, t, s, text, scan.next, fl);
    CollectedData(before, scanned, buf[..], lo, pos, s, text, scan.next + 1, svalue, sliced, value, children, fl);
    return GotData(if unset then Some(s) else svalue, sliced + [SlicedData(s)], ch, scan.next);
  }

  lemma DataHeld(scanned: string, buf: array<char>, t: string, s: Slice, text: string, next: nat, fl: Flags)
    requires s.End() <= next <= |t| && buf.Length == |scanned| == |t| + 1
    requires s.size == |text| && scanned[s.begin..s.End()] == text && forall k :: next <= k <= |t| ==> scanned[k] == At(t, k)
    requires buf[..] == if fl.nonDestructive then scanned else scanned[s.End() := '\0']
    ensures Holds(buf[..], s, text, fl) && Agree(scanned, buf[..], 0, s.begin) && Unread(buf, t, next + 1)
  {
    var b := buf[..];
    assert b[s.begin..s.End()] == text;
    forall k | next + 1 <= k <= |t| ensures buf[k] == At(t, k) {
      assert b[k] == scanned[k];
    }
  }

  lemma CollectedStays(before: string, mid: string, after: string, pos: nat, i: nat, svalue: Option<Slice>, sliced: seq<SlicedNode>,
                       value: string, children: seq<Node>, fl: Flags)
    requires Collected(before, mid, pos, i, svalue, sliced, value, children, fl) && Agree(mid, after, 0, i)
    ensures Collected(before, after, pos, i, svalue, sliced, value, children, fl)
  {
    ChildrenSurvive(mid, after, sliced, children, pos, i, fl);
  }

  method ParseClosingTagInPlace(buf: array<char>, ghost t: string, pos: nat, fl: Flags, name: Slice, ghost nameText: string)
    returns (r: ClosingResult)
    requires pos <= |t| && Unread(buf, t, pos)
    requires name.End() <= buf.Length && buf[name.begin..name.End()] == nameText
    ensures r == ParseClosingTag(t, pos, fl, nameText)
  {
    var nameEnd := SkipText(buf, t, pos, NodeName);
    if fl.validateClosingTags {
      UnreadSlice(buf, t, pos, nameEnd);
      if buf[pos..nameEnd] != buf[name.begin..name.End()] {
        return BadClosing(ParseError("invalid closing tag name", nameEnd));
      }
    }
    var close := SkipText(buf, t, nameEnd, Whitespace);
    assert buf[close] == At(t, close);
    if buf[close] != '>' {
      return BadClosing(ParseError("expected >", close));
    }
    return Closed(close + 1);
  }

  /**
   * Skips white space and any data, up to the `<` or the terminator that the caller then sees as `ch`.
   * The goto behind a data node re-enters the switch with that character, because the byte itself may
   * be overwritten by then.
   */
  method ReachMarkup(buf: array<char>, ghost t: string, pos: nat, fl: Flags, svalue: Option<Slice>, sliced: seq<SlicedNode>,
                     ghost name: string, ghost before: string, ghost lo: nat, ghost value: string, ghost children: seq<Node>)
    returns (r: DataResult, ghost value': string, ghost children': seq<Node>)
    requires pos <= |t| && Unread(buf, t, pos)
    requires lo <= pos && Collected(before, buf[..], lo, pos, svalue, sliced, value, children, fl)
    modifies buf
    ensures fl.nonDestructive ==> buf[..] == old(buf[..])
    ensures r.NoData? ==> ParseContents(t, pos, fl, name, value, children) == BadContents(r.error)
    ensures r.GotData? ==>
              && pos <= r.next <= |t| && r.ch == At(t, r.next) && (r.ch == '<' || r.ch == '\0') && Unread(buf, t, r.next + 1)
              && Collected(before, buf[..], lo, r.next + 1, r.value, r.children, value', children', fl)
              && ParseContents(t, pos, fl, name, value, children)
              == if r.ch == '<' then ParseMarkup(t, r.next, fl, name, value', children')
                 else BadContents(ParseError("unexpected end of data", r.next))
  {
    hide Collected, ParseContents, ParseMarkup, ParseNode, ScanValue, IsSpace, Adopt;
    ContentsBranches(t, pos, fl, name, value, children);
    value', children' := value, children;
    var i := SkipText(buf, t, pos, Whitespace);
    assert buf[i] == At(t, i);
    if buf[i] == '<' || buf[i] == '\0' {
      CollectedWider(before, buf[..], lo, pos, i + 1, svalue, sliced, value, children, fl);
      return GotData(svalue, sliced, buf[i], i), value', children';
    }
    r := ParseAndAppendData(buf, t, pos, fl, svalue, sliced, before, lo, value, children);
    if r.GotData? {
      ghost var text := ScanValue(t, pos, CharData, fl).text;
      value', children' := Adopt(value, text), children + [Data(text)];
    }
  }

  /** Contents that start with data. */
  ghost function AfterData(t: string, pos: nat, fl: Flags, name: string, value: string, children: seq<Node>): ContentsResult
    requires pos <= |t|
  {
    match ScanValue(t, pos, CharData, fl)
    case BadRef(e) => BadContents(e)
    case Expanded(text, k) =>
      if At(t, k) == '<' then ParseMarkup(t, k, fl, name, Adopt(value, text), children + [Data(text)])
      else BadContents(ParseError("unexpected end of data", k))
  }

  /** What comes first in contents: markup, the end of the input, or data followed by one of them. */
  lemma ContentsBranches(t: string, pos: nat, fl: Flags, name: string, value: string, children: seq<Node>)
    requires pos <= |t|
    ensures var j := Skip(t, pos, Whitespace);
            var r := ParseContents(t, pos, fl, name, value, children);
            && (At(t, j) == '<' ==> r == ParseMarkup(t, j, fl, name, value, children))
            && (At(t, j) == '\0' ==> r == BadContents(ParseError("unexpected end of data", j)))
            && (At(t, j) != '<' && At(t, j) != '\0' ==> pos < |t| && CharData.Test(t[pos]) && r == AfterData(t, pos, fl, name, value, children))
  {
  }

  ghost predicate ContentsDone(before: string, buf: array<char>, t: string, pos: nat, r: SlicedContentsResult,
                               pure: ContentsResult, fl: Flags)
    reads buf
  {
    match pure
    case BadContents(e) => r == NoContents(e)
    case ParsedContents(value, children, next) =>
      && r.GotContents? && r.next == next && Advanced(before, buf, t, pos, next)
      && ChildrenStored(buf[..], r.children, children, pos, next, fl) && ValueFrom(r.value, value, r.children, children)
  }

  lemma CollectedDone(before: string, buf: array<char>, t: string, pos: nat, i: nat, svalue: Option<Slice>, sliced: seq<SlicedNode>,
                      value: string, children: seq<Node>, next: nat, fl: Flags)
    requires pos <= i <= next <= |t| && |before| == buf.Length && Unread(buf, t, i)
    requires Collected(before, buf[..], pos, i, svalue, sliced, value, children, fl)
    ensures ContentsDone(before, buf, t, pos, GotContents(svalue, sliced, next), ParsedContents(value, children, next), fl)
  {
  }

  /** How contents go on behind what the parser made of a child. */
  ghost function AfterChild(t: string, child: NodeResult, fl: Flags, name: string, value: string, children: seq<Node>): ContentsResult
    requires child.ParsedNode? ==> child.next <= |t|
  {
    match child
    case BadNode(e) => BadContents(e)
    case ParsedNode(node, next) =>
      ParseContents(t, next, fl, name, value, if node.None? then children else children + [node.value])
  }

  ghost function AfterClosing(closing: ClosingResult, value: string, children: seq<Node>): ContentsResult {
    match closing
    case BadClosing(e) => BadContents(e)
    case Closed(next) => ParsedContents(value, children, next)
  }

  lemma MarkupBranches(t: string, i: nat, fl: Flags, name: string, value: string, children: seq<Node>)
    requires i < |t| && t[i] == '<'
    ensures ParseMarkup(t, i, fl, name, value, children)
         == if At(t, i + 1) == '/' then AfterClosing(ParseClosingTag(t, i + 2, fl, name), value, children)
            else AfterChild(t, ParseNode(t, i + 1, fl), fl, name, value, children)
  {
  }

  /** One turn of the contents loop: another child, the closing tag, or an error. */
  datatype ContentsStep =
    | Continued(value: Option<Slice>, children: seq<SlicedNode>, next: nat)
    | Finished(value: Option<Slice>, children: seq<SlicedNode>, next: nat)
    | Failed(error: ParseError)

  method ParseItem(buf: array<char>, ghost t: string, pos: nat, fl: Flags, name: Slice, ghost nameText: string,
                   svalue: Option<Slice>, sliced: seq<SlicedNode>,
                   ghost before: string, ghost lo: nat, ghost value: string, ghost children: seq<Node>)
    returns (r: ContentsStep, ghost value': string, ghost children': seq<Node>)
    requires pos <= |t| && Unread(buf, t, pos)
    requires lo <= pos && Collected(before, buf[..], lo, pos, svalue, sliced, value, children, fl)
    requires name.End() <= lo <= |before| && before[name.begin..name.End()] == nameText
    modifies buf
    ensures fl.nonDestructive ==> buf[..] == old(buf[..])
    ensures r.Failed? ==> ParseContents(t, pos, fl, nameText, value, children) == BadContents(r.error)
    ensures !r.Failed? ==> pos < r.next <= |t| && Unread(buf, t, r.next)
                           && Collected(before, buf[..], lo, r.next, r.value, r.children, value', children', fl)
    ensures r.Finished? ==> ParseContents(t, pos, fl, nameText, value, children) == ParsedContents(value', children', r.next)
    ensures r.Continued? ==>
              ParseContents(t, pos, fl, nameText, value, children) == ParseContents(t, r.next, fl, nameText, value', children')
    decreases |t| - pos, 3
  {
    hide Collected, ParseContents, ParseMarkup, ParseNode, ParseClosingTag, Agree;
    var head;
    head, value', children' := ReachMarkup(buf, t, pos, fl, svalue, sliced, nameText, before, lo, value, children);
    if head.NoData? {
      return Failed(head.error), value', children';
    }
    if head.ch == '\0' {
      return Failed(ParseError("unexpected end of data", head.next)), value', children';
    }
    var i := head.next;
    MarkupBranches(t, i, fl, nameText, value', children');
    assert buf[i + 1] == At(t, i + 1);
    if buf[i + 1] == '/' {
      CollectedAgrees(before, buf[..], lo, i + 1, head.value, head.children, value', children', fl);
      NameKept(before, buf, lo, name, nameText);
      var closing := ParseClosingTagInPlace(buf, t, i + 2, fl, name, nameText);
      if closing.BadClosing? {
        return Failed(closing.error), value', children';
      }
      CollectedWider(before, buf[..], lo, i + 1, closing.next, head.value, head.children, value', children', fl);
      return Finished(head.value, head.children, closing.next), value', children';
    }
    var child, next, sliced';
    child, next, sliced', children' := AppendChild(buf, t, i + 1, fl, head.value, head.children, before, lo, value', children');
    if child.NoNode? {
      return Failed(child.error), value', children';
    }
    return Continued(head.value, sliced', next), value', children';
  }

  method ParseNodeContents(buf: array<char>, ghost t: string, pos: nat, fl: Flags, name: Slice, ghost nameText: string)
    returns (r: SlicedContentsResult)
    requires pos <= |t| && Unread(buf, t, pos)
    requires name.End() <= pos && buf[name.begin..name.End()] == nameText
    modifies buf
    ensures fl.nonDestructive ==> buf[..] == old(buf[..])
    ensures ContentsDone(old(buf[..]), buf, t, pos, r, ParseContents(t, pos, fl, nameText, [], []), fl)
    decreases |t| - pos, 4
  {
    ghost var before := buf[..];
    var i, svalue, sliced := pos, None, [];
    ghost var value: string, children: seq<Node> := [], [];
    CollectedNothing(before, pos, fl);
    hide Collected, ParseContents;
    while true
      invariant pos <= i <= |t| && Unread(buf, t, i)
      invariant Collected(before, buf[..], pos, i, svalue, sliced, value, children, fl)
      invariant fl.nonDestructive ==> buf[..] == before
      invariant ParseContents(t, i, fl, nameText, value, children) == ParseContents(t, pos, fl, nameText, [], [])
      decreases |t| - i
    {
      var step;
      step, value, children := ParseItem(buf, t, i, fl, name, nameText, svalue, sliced, before, pos, value, children);
      if step.Failed? {
        return NoContents(step.error);
      }
      i, svalue, sliced := step.next, step.value, step.children;
      if step.Finished? {
        CollectedDone(before, buf, t, pos, i, svalue, sliced, value, children, i, fl);
        return GotContents(svalue, sliced, i);
      }
    }
  }

  /** A child node, appended to the element if there is one. */
  method AppendChild(buf: array<char>, ghost t: string, pos: nat, fl: Flags, svalue: Option<Slice>, sliced: seq<SlicedNode>,
                     ghost before: string, ghost lo: nat, ghost value: string, ghost children: seq<Node>)
    returns (child: SlicedNodeResult, next: nat, sliced': seq<SlicedNode>, ghost children': seq<Node>)
    requires pos <= |t| && Unread(buf, t, pos)
    requires lo <= pos && Collected(before, buf[..], lo, pos, svalue, sliced, value, children, fl)
    modifies buf
    ensures fl.nonDestructive ==> buf[..] == old(buf[..])
    ensures match ParseNode(t, pos, fl)
            case BadNode(e) => child == NoNode(e)
            case ParsedNode(node, end) =>
              && child.GotNode? && next == end && Unread(buf, t, next)
              && children' == (if node.None? then children else children + [node.value])
              && Collected(before, buf[..], lo, next, svalue, sliced', value, children', fl)
    decreases |t| - pos, 2
  {
    ghost var mid := buf[..];
    next, sliced', children' := pos, sliced, children;
    child := ParseNodeInPlace(buf, t, pos, fl);
    if child.NoNode? {
      return;
    }
    next := child.next;
    if child.node.None? {
      CollectedStays(before, mid, buf[..], lo, pos, svalue, sliced, value, children, fl);
      CollectedWider(before, buf[..], lo, pos, next, svalue, sliced, value, children, fl);
    } else {
      ghost var n := ParseNode(t, pos, fl).node.value;
      CollectedChild(before, mid, buf[..], lo, pos, child.node.value, n, next, svalue, sliced, value, children, fl);
      sliced', children' := sliced + [child.node.value], children + [n];
    }
  }

  lemma AgreeLess(b: string, b': string, hi: nat, hi': nat)
    requires Agree(b, b', 0, hi) && hi' <= hi
    ensures Agree(b, b', 0, hi')
  {
  }

  lemma NameKept(before: string, buf: array<char>, pos: nat, name: Slice, nameText: string)
    requires name.End() <= pos <= |before| && before[name.begin..name.End()] == nameText
    requires Agree(before, buf[..], 0, pos)
    ensures buf[name.begin..name.End()] == nameText
  {
    assert buf[..][name.begin..name.End()] == before[name.begin..name.End()];
  }

  // ---- Nodes ----

  method ParseNodeInPlace(buf: array<char>, ghost t: string, pos: nat, fl: Flags) returns (r: SlicedNodeResult)
    requires pos <= |t| && Unread(buf, t, pos)
    modifies buf
    ensures fl.nonDestructive ==> buf[..] == old(buf[..])
    ensures NodeDone(old(buf[..]), buf, t, pos, r, ParseNode(t, pos, fl), fl)
    decreases |t| - pos, 1
  {
    assert buf[pos] == At(t, pos);
    match buf[pos] {
      case '?' =>
        var declaration := XmlDeclarationAt(buf, t, pos + 1);
        if declaration {
          r := SkipPastInPlace(buf, t, pos + 5, "?>", fl);
        } else {
          r := SkipPastInPlace(buf, t, pos + 1, "?>", fl);
        }
        NodeDoneEarlier(buf[..], buf, t, pos, if declaration then pos + 5 else pos + 1, r, ParseNode(t, pos, fl), fl);
      case '!' =>
        ghost var before := buf[..];
        r := ParseBangInPlace(buf, t, pos + 1, fl);
        NodeDoneEarlier(before, buf, t, pos, pos + 1, r, ParseNode(t, pos, fl), fl);
      case _ =>
        r := ParseElementInPlace(buf, t, pos, fl);
    }
  }

  method XmlDeclarationAt(buf: array<char>, ghost t: string, i: nat) returns (yes: bool)
    requires i <= |t| && Unread(buf, t, i)
    ensures yes == IsXmlDeclaration(t, i)
    ensures yes ==> i + 4 <= |t|
  {
    assert buf[i] == At(t, i);
    if buf[i] != 'x' && buf[i] != 'X' {
      return false;
    }
    assert buf[i + 1] == At(t, i + 1);
    if buf[i + 1] != 'm' && buf[i + 1] != 'M' {
      return false;
    }
    assert buf[i + 2] == At(t, i + 2);
    if buf[i + 2] != 'l' && buf[i + 2] != 'L' {
      return false;
    }
    assert buf[i + 3] == At(t, i + 3);
    return Whitespace.Test(buf[i + 3]);
  }

  /** A result stands for any earlier start as well. */
  lemma NodeDoneEarlier(before: string, buf: array<char>, t: string, pos: nat, start: nat, r: SlicedNodeResult, pure: NodeResult, fl: Flags)
    requires NodeDone(before, buf, t, start, r, pure, fl) && pos <= start
    ensures NodeDone(before, buf, t, pos, r, pure, fl)
  {
  }

  /** The constructs behind `<!`. */
  method ParseBangInPlace(buf: array<char>, ghost t: string, pos: nat, fl: Flags) returns (r: SlicedNodeResult)
    requires pos <= |t| && Unread(buf, t, pos)
    modifies buf
    ensures fl.nonDestructive ==> buf[..] == old(buf[..])
    ensures NodeDone(old(buf[..]), buf, t, pos, r, ParseBang(t, pos), fl)
  {
    ghost var before := buf[..];
    var comment := MarkAt(buf, t, pos, "--");
    if comment {
      r := SkipPastInPlace(buf, t, pos + 2, "-->", fl);
      NodeDoneEarlier(before, buf, t, pos, pos + 2, r, ParseBang(t, pos), fl);
      return;
    }
    var cdata := MarkAt(buf, t, pos, "[CDATA[");
    if cdata {
      r := ParseCDataInPlace(buf, t, pos + 7, fl);
      NodeDoneEarlier(before, buf, t, pos, pos + 7, r, ParseBang(t, pos), fl);
      return;
    }
    var doctype := MarkAt(buf, t, pos, "DOCTYPE");
    if doctype {
      assert buf[pos + 7] == At(t, pos + 7);
      if Whitespace.Test(buf[pos + 7]) {
        r := ParseDoctypeInPlace(buf, t, pos + 8, fl);
        NodeDoneEarlier(before, buf, t, pos, pos + 8, r, ParseBang(t, pos), fl);
        return;
      }
    }
    r := SkipPastInPlace(buf, t, pos, ">", fl);
  }

  datatype SlicedOpeningResult =
    | GotOpening(name: Slice, attributes: seq<SlicedAttribute>, next: nat)
    | NoOpening(error: ParseError)

  /** The opening is stored but for the terminator of the name. */
  ghost predicate OpeningDone(before: string, b: string, t: string, pos: nat, r: SlicedOpeningResult, pure: OpeningResult, fl: Flags) {
    match pure
    case BadOpening(e) => r == NoOpening(e)
    case Opening(nameEnd, attributes, next) =>
      && r.GotOpening? && r.next == next && pos < nameEnd <= next
      && r.name == Slice(pos, nameEnd - pos) && nameEnd <= |t| && nameEnd < |b|
      && Agree(before, b, 0, pos) && b[pos..nameEnd] == t[pos..nameEnd]
      && AttributesStored(b, r.attributes, attributes, nameEnd + 1, next + 1, fl)
  }

  method ParseOpeningInPlace(buf: array<char>, ghost t: string, pos: nat, fl: Flags) returns (r: SlicedOpeningResult)
    requires pos <= |t| && Unread(buf, t, pos)
    modifies buf
    ensures fl.nonDestructive ==> buf[..] == old(buf[..])
    ensures OpeningDone(old(buf[..]), buf[..], t, pos, r, ParseOpening(t, pos, fl), fl)
    ensures r.GotOpening? ==> Unread(buf, t, r.next)
  {
    hide AttributesStored, ParseAttributes, Agree, Whitespace.Test;
    ghost var before := buf[..];
    var nameEnd := SkipText(buf, t, pos, NodeName);
    if nameEnd == pos {
      return NoOpening(ParseError("expected element name", pos));
    }
    UnreadSlice(buf, t, pos, nameEnd);
    var i := SkipText(buf, t, nameEnd, Whitespace);
    var attributes := ParseNodeAttributes(buf, t, i, fl);
    if attributes.NoAttributes? {
      return NoOpening(attributes.error);
    }
    AgreeLess(before, buf[..], i, pos);
    NameKept(before, buf, i, Slice(pos, nameEnd - pos), t[pos..nameEnd]);
    AttributesBehindName(buf[..], t, i, nameEnd, attributes.attributes, ParseAttributes(t, i, fl, []).attributes,
                         attributes.next, fl);
    return GotOpening(Slice(pos, nameEnd - pos), attributes.attributes, attributes.next);
  }

  method ParseElementInPlace(buf: array<char>, ghost t: string, pos: nat, fl: Flags) returns (r: SlicedNodeResult)
    requires pos <= |t| && Unread(buf, t, pos)
    modifies buf
    ensures fl.nonDestructive ==> buf[..] == old(buf[..])
    ensures NodeDone(old(buf[..]), buf, t, pos, r, ParseElement(t, pos, fl), fl)
    decreases |t| - pos, 0
  {
    hide ParseOpening, ParseBody, AttributesStored, ChildrenStored, ValueFrom, NodeStored;
    ghost var before := buf[..];
    var opening := ParseOpeningInPlace(buf, t, pos, fl);
    if opening.NoOpening? {
      return NoNode(opening.error);
    }
    ghost var mid := buf[..];
    var body := ParseBodyInPlace(buf, t, opening.next, fl, opening.name, t[pos..opening.name.End()]);
    if body.NoContents? {
      return NoNode(body.error);
    }
    ghost var last := buf[..];
    if !fl.nonDestructive {
      buf[opening.name.End()] := '\0';
    }
    ElementDone(before, mid, last, buf, t, pos, opening, body, fl);
    return GotNode(Some(SlicedElement(opening.name, body.value, opening.attributes, body.children)), body.next);
  }

  method ParseBodyInPlace(buf: array<char>, ghost t: string, pos: nat, fl: Flags, name: Slice, ghost nameText: string)
    returns (r: SlicedContentsResult)
    requires pos <= |t| && Unread(buf, t, pos)
    requires name.End() <= pos && buf[name.begin..name.End()] == nameText
    modifies buf
    ensures fl.nonDestructive ==> buf[..] == old(buf[..])
    ensures BodyDone(old(buf[..]), buf, t, pos, r, ParseBody(t, pos, fl, nameText), fl)
    decreases |t| - pos, 5
  {
    assert buf[pos] == At(t, pos);
    if buf[pos] == '>' {
      r := ParseNodeContents(buf, t, pos + 1, fl, name, nameText);
    } else if buf[pos] == '/' {
      assert buf[pos + 1] == At(t, pos + 1);
      if buf[pos + 1] != '>' {
        return NoContents(ParseError("expected >", pos + 1));
      }
      return GotContents(None, [], pos + 2);
    } else {
      return NoContents(ParseError("expected >", pos));
    }
  }

  /** As for contents; nothing up to and with the byte at `pos` is touched. */
  ghost predicate BodyDone(before: string, buf: array<char>, t: string, pos: nat, r: SlicedContentsResult,
                           pure: ContentsResult, fl: Flags)
    reads buf
  {
    match pure
    case BadContents(e) => r == NoContents(e)
    case ParsedContents(value, children, next) =>
      && r.GotContents? && r.next == next && Advanced(before, buf, t, pos + 1, next)
      && ChildrenStored(buf[..], r.children, children, pos + 1, next, fl) && ValueFrom(r.value, value, r.children, children)
  }

  lemma ElementDone(before: string, mid: string, last: string, buf: array<char>, t: string, pos: nat,
                    opening: SlicedOpeningResult, body: SlicedContentsResult, fl: Flags)
    requires pos <= |t| < buf.Length == |before| == |mid| == |last|
    requires ParseOpening(t, pos, fl).Opening? && OpeningDone(before, mid, t, pos, opening, ParseOpening(t, pos, fl), fl)
    requires ParseBody(t, opening.next, fl, t[pos..opening.name.End()]).ParsedContents? && body.GotContents?
    requires var ParsedContents(value, children, next) := ParseBody(t, opening.next, fl, t[pos..opening.name.End()]);
             && body.next == next && Agree(mid, last, 0, opening.next + 1) && Unread(buf, t, next)
             && ChildrenStored(last, body.children, children, opening.next + 1, next, fl)
             && ValueFrom(body.value, value, body.children, children)
    requires buf[..] == if fl.nonDestructive then last else last[opening.name.End() := '\0']
    ensures NodeDone(before, buf, t, pos,
                     GotNode(Some(SlicedElement(opening.name, body.value, opening.attributes, body.children)), body.next),
                     ParseElement(t, pos, fl), fl)
  {
    hide ParseOpening, ParseBody, AttributesStored, ChildrenStored, ValueFrom, NodeStored;
    var n := ParseElement(t, pos, fl).node.value;
    ElementStored(before, mid, last, buf[..], opening.name, body.value, opening.attributes, body.children, n,
                  opening.name.End(), opening.next + 1, body.next, fl);
  }

  /** Attributes never start right behind the element name, so its terminator has room. */
  lemma AttributesBehindName(b: string, t: string, i: nat, nameEnd: nat, sliced: seq<SlicedAttribute>, attributes: seq<Attribute>,
                             next: nat, fl: Flags)
    requires nameEnd <= |t| && !NodeName.Test(At(t, nameEnd)) && i == Skip(t, nameEnd, Whitespace)
    requires ParseAttributes(t, i, fl, []) == ParsedAttributes(attributes, next)
    requires AttributesStored(b, sliced, attributes, i, next, fl)
    ensures AttributesStored(b, sliced, attributes, nameEnd + 1, next + 1, fl)
  {
    if i == nameEnd {
      assert attributes == [];
    }
  }

  lemma ElementStored(before: string, mid: string, last: string, after: string, name: Slice, svalue: Option<Slice>,
                      sattributes: seq<SlicedAttribute>, schildren: seq<SlicedNode>, n: Node, nameEnd: nat, m: nat, next: nat, fl: Flags)
    requires n.Element? && name.End() == nameEnd < m <= next && name.size == |n.name|
    requires |before| == |mid| == |last| == |after| && next <= |after|
    requires Agree(before, mid, 0, name.begin) && mid[name.begin..nameEnd] == n.name
    requires AttributesStored(mid, sattributes, n.attributes, nameEnd + 1, m, fl) && Agree(mid, last, 0, m)
    requires ChildrenStored(last, schildren, n.children, m, next, fl) && ValueFrom(svalue, n.value, schildren, n.children)
    requires after == if fl.nonDestructive then last else last[nameEnd := '\0']
    ensures NodeStored(after, SlicedElement(name, svalue, sattributes, schildren), n, name.begin, next, fl)
    ensures Agree(before, after, 0, name.begin)
  {
    AttributesSurvive(mid, after, sattributes, n.attributes, nameEnd + 1, m, fl);
    ChildrenSurvive(last, after, schildren, n.children, m, next, fl);
    assert after[name.begin..nameEnd] == mid[name.begin..nameEnd];
    OrderedConcat([name], AttributeSlices(sattributes), name.begin, nameEnd + 1, m);
    OrderedConcat([name] + AttributeSlices(sattributes), ChildSlices(schildren), name.begin, m, next);
  }

  // ---- Documents ----

  /** The document read from the buffer: the tree of the original text, laid out in the buffer without overlaps. */
  ghost predicate DocumentDone(b: string, t: string, r: SlicedDocumentResult, pure: DocumentResult, fl: Flags) {
    match pure
    case BadDocument(e) => r == NoDocument(e)
    case ParsedDocument(children) => r.GotDocument? && ChildrenStored(b, r.children, children, 0, |t| + 1, fl)
  }

  lemma DocumentCollected(before: string, b: string, t: string, i: nat, sliced: seq<SlicedNode>, children: seq<Node>, fl: Flags)
    requires i <= |t| && Collected(before, b, 0, i, None, sliced, [], children, fl)
    ensures DocumentDone(b, t, GotDocument(sliced), ParsedDocument(children), fl)
  {
  }

  /** No byte of the buffer, terminators included, belongs to two of the slices that a parse returns. */
  lemma SlicesDisjoint(b: string, t: string, r: SlicedDocumentResult, fl: Flags, j: nat, k: nat, x: nat)
    requires DocumentDone(b, t, r, ParseDocument(t, fl), fl) && r.GotDocument?
    requires j < |ChildSlices(r.children)| && k < |ChildSlices(r.children)| && j != k
    ensures var s, s' := ChildSlices(r.children)[j], ChildSlices(r.children)[k];
            s.End() <= |t| && !(s.begin <= x <= s.End() && s'.begin <= x <= s'.End())
  {
    var slices := ChildSlices(r.children);
    assert Ordered(slices, 0, |t| + 1);
    hide *;
    assert if j < k then slices[j].End() < slices[k].begin else slices[k].End() < slices[j].begin;
  }

  method ParseBom(buf: array<char>, ghost t: string) returns (i: nat)
    requires Unread(buf, t, 0)
    ensures i == SkipBom(t)
  {
    assert buf[0] == At(t, 0);
    if buf[0] as int == 0xEF {
      assert buf[1] == At(t, 1);
      if buf[1] as int == 0xBB {
        assert buf[2] == At(t, 2);
        if buf[2] as int == 0xBF {
          return 3;
        }
      }
    }
    return 0;
  }

  /**
   * Parses the zero-terminated text that fills the buffer. Every index it uses lies within the text
   * and its terminator, and it stops on every text.
   */
  method Parse(buf: array<char>, ghost t: string, fl: Flags) returns (r: SlicedDocumentResult)
    requires Unread(buf, t, 0)
    modifies buf
    ensures fl.nonDestructive ==> buf[..] == old(buf[..])
    ensures DocumentDone(buf[..], t, r, ParseDocument(t, fl), fl)
  {
    hide Collected, ParseNode, Agree, ParseTopLevel, ParseDocument, DocumentDone, Skip;
    ghost var before := buf[..];
    var i := ParseBom(buf, t);
    var sliced := [];
    ghost var children: seq<Node> := [];
    CollectedNothing(before, 0, fl);
    CollectedWider(before, before, 0, 0, i, None, [], [], [], fl);
    DocumentStarts(t, fl);
    while true
      invariant i <= |t| && Unread(buf, t, i)
      invariant Collected(before, buf[..], 0, i, None, sliced, [], children, fl)
      invariant fl.nonDestructive ==> buf[..] == before
      invariant ParseTopLevel(t, i, fl, children) == ParseDocument(t, fl)
      decreases |t| - i
    {
      ghost var start := i;
      i := SkipText(buf, t, i, Whitespace);
      assert buf[i] == At(t, i);
      CollectedWider(before, buf[..], 0, start, i, None, sliced, [], children, fl);
      TopLevelRound(t, start, i, fl, children);
      if buf[i] == '\0' {
        DocumentCollected(before, buf[..], t, i, sliced, children, fl);
        return GotDocument(sliced);
      }
      if buf[i] != '<' {
        DocumentFails(buf[..], t, ParseError("expected <", i), fl);
        return NoDocument(ParseError("expected <", i));
      }
      CollectedWider(before, buf[..], 0, i, i + 1, None, sliced, [], children, fl);
      var node;
      node, i, sliced, children := AppendChild(buf, t, i + 1, fl, None, sliced, before, 0, [], children);
      if node.NoNode? {
        DocumentFails(buf[..], t, node.error, fl);
        return NoDocument(node.error);
      }
    }
  }

  lemma DocumentStarts(t: string, fl: Flags)
    ensures ParseTopLevel(t, SkipBom(t), fl, []) == ParseDocument(t, fl)
  {
  }

  lemma DocumentFails(b: string, t: string, e: ParseError, fl: Flags)
    ensures DocumentDone(b, t, NoDocument(e), BadDocument(e), fl)
  {
  }

  /** One round of the top level, which looks at the first character behind the white space. */
  lemma TopLevelRound(t: string, i: nat, j: nat, fl: Flags, done: seq<Node>)
    requires i <= |t| && j == Skip(t, i, Whitespace)
    ensures At(t, j) == '\0' ==> ParseTopLevel(t, i, fl, done) == ParsedDocument(done)
    ensures At(t, j) != '\0' && At(t, j) != '<'
            ==> ParseTopLevel(t, i, fl, done) == BadDocument(ParseError("expected <", j))
    ensures At(t, j) == '<' && ParseNode(t, j + 1, fl).BadNode?
            ==> ParseTopLevel(t, i, fl, done) == BadDocument(ParseNode(t, j + 1, fl).error)
    ensures At(t, j) == '<' && ParseNode(t, j + 1, fl).ParsedNode? && ParseNode(t, j + 1, fl).node.None?
            ==> ParseTopLevel(t, i, fl, done) == ParseTopLevel(t, ParseNode(t, j + 1, fl).next, fl, done)
    ensures At(t, j) == '<' && ParseNode(t, j + 1, fl).ParsedNode? && ParseNode(t, j + 1, fl).node.Some?
            ==> ParseTopLevel(t, i, fl, done)
                == ParseTopLevel(t, ParseNode(t, j + 1, fl).next, fl, done + [ParseNode(t, j + 1, fl).node.value])
  {
    hide ParseNode;
  }
}

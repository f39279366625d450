/**
 * The memory pool from which nodes, attributes and strings are allocated: a bump allocator over one static
 * block and a chain of dynamic blocks, each of which remembers the block before it in an aligned header.
 */
module Arena {
  import opened Bits

  /** Alignment `2^k`, the size of a header, and the memory that is part of the pool itself. */
  datatype Config = Config(k: nat, headerSize: nat, staticStart: nat, staticSize: nat, dynamicSize: nat)

  predicate ValidConfig(c: Config) {
    c.headerSize > 0 && c.staticSize > 0
  }

  /** The bytes from `start` on. */
  datatype Span = Span(start: nat, size: nat)

  predicate Disjoint(a: Span, b: Span) {
    a.start + a.size <= b.start || b.start + b.size <= a.start
  }

  predicate Inside(a: Span, b: Span) {
    b.start <= a.start && a.start + a.size <= b.start + b.size
  }

  /**
   * The pool's three pointers and the words stored in headers; then, for the record, the blocks it owns,
   * the spans it has handed out since the last clear, and every address it ever obtained and gave back.
   */
  datatype Pool = Pool(begin: nat, ptr: nat, end: nat, headers: map<nat, nat>,
                       blocks: seq<Span>, handed: seq<Span>, obtained: multiset<nat>, freed: multiset<nat>)

  // ---- Alignment ----

  function Align(c: Config, p: nat): nat {
    var a := Pow2(c.k);
    p + BitAnd(a - BitAndMask(p, a), a - 1)
  }

  /** `p & (a - 1)`, which is at most `a - 1`. */
  function BitAndMask(p: nat, a: nat): (m: nat)
    requires a > 0
    ensures m < a
  {
    AndAtMost(p, a - 1);
    BitAnd(p, a - 1)
  }

  lemma {:induction false} AndAtMost(x: nat, y: nat)
    ensures BitAnd(x, y) <= y
  {
    if x > 0 && y > 0 {
      AndAtMost(x / 2, y / 2);
    }
  }

  /** The first multiple of the alignment that is not below `p`. */
  lemma AlignsUp(c: Config, p: nat)
    ensures Align(c, p) % Pow2(c.k) == 0
    ensures p <= Align(c, p) < p + Pow2(c.k)
  {
    hide *;
    AlignIsMod(c, p);
    RoundsUp(p, Pow2(c.k));
  }

  lemma AlignIsMod(c: Config, p: nat)
    ensures Align(c, p) == p + (Pow2(c.k) - p % Pow2(c.k)) % Pow2(c.k)
  {
    hide BitAnd, Pow2;
    MaskIsMod(p, c.k);
    MaskIsMod(Pow2(c.k) - p % Pow2(c.k), c.k);
  }

  lemma RoundsUp(p: nat, a: nat)
    requires a > 0
    ensures (p + (a - p % a) % a) % a == 0 && 0 <= (a - p % a) % a < a
  {
    var r, q := p % a, p / a;
    if r == 0 {
      ModUnique(a, a, 1, 0);
    } else {
      ModUnique(a - r, a, 0, a - r);
      NextMultiple(p, a, q, r);
      ModUnique(p + (a - r), a, q + 1, 0);
    }
  }

  lemma NextMultiple(p: nat, a: nat, q: nat, r: nat)
    requires p == q * a + r
    ensures p + (a - r) == (q + 1) * a
  {
  }

  // ---- The operations ----

  function Static(c: Config): Span {
    Span(c.staticStart, c.staticSize)
  }

  /** Where the header of a dynamic block lies. */
  function Header(c: Config, block: Span): Span {
    Span(Align(c, block.start), c.headerSize)
  }

  function Init(c: Config, p: Pool): Pool {
    p.(begin := c.staticStart, ptr := Align(c, c.staticStart), end := c.staticStart + c.staticSize,
       blocks := [Static(c)], handed := [])
  }

  function New(c: Config): Pool {
    Init(c, Pool(0, 0, 0, map[], [], [], multiset{}, multiset{}))
  }

  predicate NeedsBlock(c: Config, p: Pool, size: nat) {
    Align(c, p.ptr) + size > p.end
  }

  /** How much is asked of the system for an allocation that does not fit. */
  function BlockSize(c: Config, size: nat): nat {
    c.headerSize + (2 * Pow2(c.k) - 2) + if c.dynamicSize < size then size else c.dynamicSize
  }

  /** A new block at `raw`, chained to the current one. */
  function AddBlock(c: Config, p: Pool, size: nat, raw: nat): Pool {
    var pool := Align(c, raw);
    p.(headers := p.headers[pool := p.begin], begin := raw, ptr := pool + c.headerSize,
       end := raw + BlockSize(c, size), blocks := p.blocks + [Span(raw, BlockSize(c, size))],
       obtained := p.obtained + multiset{raw})
  }

  /** `allocate_aligned`; `raw` is what the system returns if it is asked. */
  function Allocate(c: Config, p: Pool, size: nat, raw: nat): Pool {
    var p' := if NeedsBlock(c, p, size) then AddBlock(c, p, size, raw) else p;
    var result := Align(c, p'.ptr);
    p'.(ptr := result + size, handed := p'.handed + [Span(result, size)])
  }

  /** The system returns memory that overlaps nothing the pool owns. */
  predicate FreshMemory(c: Config, p: Pool, size: nat, raw: nat) {
    NeedsBlock(c, p, size) ==> forall i :: 0 <= i < |p.blocks| ==> Disjoint(p.blocks[i], Span(raw, BlockSize(c, size)))
  }

  // ---- What the pool keeps ----

  /** Every dynamic block holds an aligned header that leads to the block before it. */
  ghost predicate Chained(c: Config, p: Pool) {
    && 1 <= |p.blocks| && p.blocks[0] == Static(c)
    && p.begin == p.blocks[|p.blocks| - 1].start
    && (forall i :: 0 <= i < |p.blocks| ==> p.blocks[i].size > 0)
    && (forall i, j :: 0 <= i < j < |p.blocks| ==> Disjoint(p.blocks[i], p.blocks[j]))
    && (forall i :: 1 <= i < |p.blocks| ==> Inside(Header(c, p.blocks[i]), p.blocks[i]))
    && (forall i :: 1 <= i < |p.blocks| ==> Align(c, p.blocks[i].start) in p.headers)
    && (forall i :: 1 <= i < |p.blocks| ==> p.headers[Align(c, p.blocks[i].start)] == p.blocks[i - 1].start)
  }

  /** The free part of the current block lies after its header and after all that was handed out of it. */
  ghost predicate PointersSound(c: Config, p: Pool)
    requires Chained(c, p)
  {
    var last := p.blocks[|p.blocks| - 1];
    && p.begin <= p.ptr && p.end == last.start + last.size
    && (|p.blocks| > 1 ==> Header(c, last).start + Header(c, last).size <= p.ptr)
    && (forall j :: 0 <= j < |p.handed| ==> p.handed[j].start + p.handed[j].size <= p.ptr || Disjoint(p.handed[j], last))
  }

  /** What is handed out is aligned, owned, and shared with nothing else. */
  ghost predicate HandedSound(c: Config, p: Pool) {
    && (forall j :: 0 <= j < |p.handed| ==> p.handed[j].start % Pow2(c.k) == 0)
    && (forall j :: 0 <= j < |p.handed| ==> Owned(p.blocks, p.handed[j]))
    && (forall j, l :: 0 <= j < l < |p.handed| ==> Disjoint(p.handed[j], p.handed[l]))
    && (forall j :: 0 <= j < |p.handed| ==> OffHeaders(c, p.blocks, p.handed[j]))
  }

  ghost predicate Owned(blocks: seq<Span>, span: Span) {
    exists i :: 0 <= i < |blocks| && Inside(span, blocks[i])
  }

  ghost predicate OffHeaders(c: Config, blocks: seq<Span>, span: Span) {
    forall i :: 1 <= i < |blocks| ==> Disjoint(span, Header(c, blocks[i]))
  }

  /** The addresses of the dynamic blocks, the latest first. */
  function DynamicStarts(blocks: seq<Span>): multiset<nat> {
    if |blocks| <= 1 then multiset{} else DynamicStarts(blocks[..|blocks| - 1]) + multiset{blocks[|blocks| - 1].start}
  }

  /** Whatever was obtained is owned or was given back, once. */
  predicate Balanced(p: Pool) {
    p.obtained == p.freed + DynamicStarts(p.blocks)
  }

  ghost predicate Sound(c: Config, p: Pool) {
    Chained(c, p) && PointersSound(c, p) && HandedSound(c, p) && Balanced(p)
  }

  lemma NewSound(c: Config)
    requires ValidConfig(c)
    ensures Sound(c, New(c))
  {
    AlignsUp(c, c.staticStart);
  }

  // ---- Allocation ----

  lemma AllocateKeeps(c: Config, p: Pool, size: nat, raw: nat)
    requires ValidConfig(c) && Sound(c, p) && FreshMemory(c, p, size, raw)
    ensures Sound(c, Allocate(c, p, size, raw))
  {
    hide *;
    if NeedsBlock(c, p, size) {
      AddBlockKeeps(c, p, size, raw);
      BlockSuffices(c, p, size, raw);
      BumpKeeps(c, AddBlock(c, p, size, raw), size);
    } else {
      Fits(c, p, size);
      BumpKeeps(c, p, size);
    }
    AllocateIs(c, p, size, raw);
  }

  function Bump(c: Config, p: Pool, size: nat): Pool {
    p.(ptr := Align(c, p.ptr) + size, handed := p.handed + [Span(Align(c, p.ptr), size)])
  }

  lemma AllocateIs(c: Config, p: Pool, size: nat, raw: nat)
    ensures Allocate(c, p, size, raw) == Bump(c, if NeedsBlock(c, p, size) then AddBlock(c, p, size, raw) else p, size)
  {
  }

  /** The pool after an allocation, pointer by pointer. */
  lemma AllocateFields(c: Config, p: Pool, size: nat, raw: nat)
    ensures var q, start := Allocate(c, p, size, raw), Align(c, raw);
            Align(c, p.ptr) + size > p.end ==>
              && q.begin == raw && q.end == raw + BlockSize(c, size) && q.headers == p.headers[start := p.begin]
              && q.ptr == Align(c, start + c.headerSize) + size
              && q.handed == p.handed + [Span(Align(c, start + c.headerSize), size)]
    ensures var q := Allocate(c, p, size, raw);
            Align(c, p.ptr) + size <= p.end ==>
              && q.begin == p.begin && q.end == p.end && q.headers == p.headers
              && q.ptr == Align(c, p.ptr) + size && q.handed == p.handed + [Span(Align(c, p.ptr), size)]
  {
    hide Align, BlockSize;
  }

  lemma BlockSizeIs(c: Config, size: nat)
    ensures BlockSize(c, size) == c.headerSize + (2 * Pow2(c.k) - 2) + if c.dynamicSize < size then size else c.dynamicSize
  {
  }

  lemma Fits(c: Config, p: Pool, size: nat)
    requires !NeedsBlock(c, p, size)
    ensures Align(c, p.ptr) + size <= p.end
  {
  }

  /**
   * The slack of two alignments is enough: wherever the system puts the block, its header and the
   * allocation both fit after they have been aligned.
   */
  lemma BlockSuffices(c: Config, p: Pool, size: nat, raw: nat)
    ensures var p' := AddBlock(c, p, size, raw); Align(c, p'.ptr) + size <= p'.end
  {
    AlignsUp(c, raw);
    AlignsUp(c, Align(c, raw) + c.headerSize);
  }

  lemma AddBlockKeeps(c: Config, p: Pool, size: nat, raw: nat)
    requires ValidConfig(c) && Sound(c, p) && FreshMemory(c, p, size, raw) && NeedsBlock(c, p, size)
    ensures Sound(c, AddBlock(c, p, size, raw))
  {
    hide Chained, PointersSound, HandedSound, FreshMemory, NeedsBlock, Balanced, AddBlock, Align;
    AddBlockChains(c, p, size, raw);
    AddBlockLeaves(c, p, size, raw);
    AddBlockPointers(c, p, size, raw);
    AddBlockHanded(c, p, size, raw);
    AddBlockBalances(c, p, size, raw);
  }

  lemma AddBlockChains(c: Config, p: Pool, size: nat, raw: nat)
    requires ValidConfig(c) && Chained(c, p) && FreshMemory(c, p, size, raw) && NeedsBlock(c, p, size)
    ensures Chained(c, AddBlock(c, p, size, raw))
  {
    hide NeedsBlock, Align;
    AlignsUp(c, raw);
    assert forall i :: 1 <= i < |p.blocks| ==> Header(c, p.blocks[i]).start == Align(c, p.blocks[i].start);
  }

  lemma InsideDisjoint(a: Span, b: Span, x: Span)
    requires Inside(a, b) && Disjoint(b, x)
    ensures Disjoint(a, x)
  {
  }

  /** What has been handed out lies outside the new block. */
  lemma AddBlockLeaves(c: Config, p: Pool, size: nat, raw: nat)
    requires HandedSound(c, p) && FreshMemory(c, p, size, raw) && NeedsBlock(c, p, size)
    ensures forall j :: 0 <= j < |p.handed| ==> Disjoint(p.handed[j], Span(raw, BlockSize(c, size)))
  {
    hide NeedsBlock, Inside, Disjoint, BlockSize, OffHeaders;
    forall j | 0 <= j < |p.handed| ensures Disjoint(p.handed[j], Span(raw, BlockSize(c, size))) {
      assert Owned(p.blocks, p.handed[j]);
      var i :| 0 <= i < |p.blocks| && Inside(p.handed[j], p.blocks[i]);
      InsideDisjoint(p.handed[j], p.blocks[i], Span(raw, BlockSize(c, size)));
    }
  }

  lemma AddBlockPointers(c: Config, p: Pool, size: nat, raw: nat)
    requires Chained(c, AddBlock(c, p, size, raw))
    requires forall j :: 0 <= j < |p.handed| ==> Disjoint(p.handed[j], Span(raw, BlockSize(c, size)))
    ensures PointersSound(c, AddBlock(c, p, size, raw))
  {
    AlignsUp(c, raw);
    hide Align, BlockSize, Disjoint, Chained;
  }

  lemma AddBlockHanded(c: Config, p: Pool, size: nat, raw: nat)
    requires ValidConfig(c) && HandedSound(c, p)
    requires forall j :: 0 <= j < |p.handed| ==> Disjoint(p.handed[j], Span(raw, BlockSize(c, size)))
    ensures HandedSound(c, AddBlock(c, p, size, raw))
  {
    var p', span := AddBlock(c, p, size, raw), Span(raw, BlockSize(c, size));
    HeaderInside(c, size, raw);
    hide Align, BlockSize, Inside, Disjoint, Header, AddBlock;
    AddBlockIs(c, p, size, raw);
    forall j | 0 <= j < |p.handed| ensures Owned(p'.blocks, p.handed[j]) && OffHeaders(c, p'.blocks, p.handed[j]) {
      assert Owned(p.blocks, p.handed[j]);
      var i :| 0 <= i < |p.blocks| && Inside(p.handed[j], p.blocks[i]);
      assert p'.blocks[i] == p.blocks[i];
      assert OffHeaders(c, p.blocks, p.handed[j]);
      DisjointInside(p.handed[j], Header(c, span), span);
    }
  }

  lemma AddBlockIs(c: Config, p: Pool, size: nat, raw: nat)
    ensures AddBlock(c, p, size, raw).blocks == p.blocks + [Span(raw, BlockSize(c, size))]
    ensures AddBlock(c, p, size, raw).handed == p.handed
  {
  }

  lemma HeaderInside(c: Config, size: nat, raw: nat)
    ensures Inside(Header(c, Span(raw, BlockSize(c, size))), Span(raw, BlockSize(c, size)))
  {
    AlignsUp(c, raw);
  }

  lemma DisjointInside(a: Span, x: Span, b: Span)
    requires Disjoint(a, b) && Inside(x, b)
    ensures Disjoint(a, x)
  {
  }

  lemma AddBlockBalances(c: Config, p: Pool, size: nat, raw: nat)
    requires Balanced(p) && Chained(c, p)
    ensures Balanced(AddBlock(c, p, size, raw))
  {
    var p' := AddBlock(c, p, size, raw);
    assert p'.blocks[..|p.blocks|] == p.blocks;
  }

  lemma BumpKeeps(c: Config, p: Pool, size: nat)
    requires Sound(c, p) && Align(c, p.ptr) + size <= p.end
    ensures Sound(c, Bump(c, p, size))
  {
    AlignsUp(c, p.ptr);
    BumpHanded(c, p, size);
    hide Align, HandedSound, Disjoint;
    forall j | 0 <= j < |p.handed|
      ensures p.handed[j].start + p.handed[j].size <= p.ptr || Disjoint(p.handed[j], p.blocks[|p.blocks| - 1])
    {
    }
  }

  /** The new span lies in the current block, after its header and after all that was handed out of it. */
  lemma BumpHanded(c: Config, p: Pool, size: nat)
    requires Sound(c, p) && Align(c, p.ptr) + size <= p.end
    ensures HandedSound(c, Bump(c, p, size))
  {
    AlignsUp(c, p.ptr);
    var last, span, n := p.blocks[|p.blocks| - 1], Span(Align(c, p.ptr), size), |p.handed|;
    hide Align, Balanced, Pow2;
    assert Inside(span, last) && Owned(p.blocks, span);
    forall j | 0 <= j < n ensures Disjoint(p.handed[j], span) {
      if Disjoint(p.handed[j], last) {
        DisjointInside(p.handed[j], span, last);
      }
    }
    BumpOffHeaders(c, p, span);
    hide Owned, OffHeaders, Chained, PointersSound;
  }

  lemma BumpOffHeaders(c: Config, p: Pool, span: Span)
    requires Chained(c, p) && PointersSound(c, p) && p.ptr <= span.start && Inside(span, p.blocks[|p.blocks| - 1])
    ensures OffHeaders(c, p.blocks, span)
  {
    var n := |p.blocks| - 1;
    hide Header;
    forall i | 1 <= i < |p.blocks| ensures Disjoint(span, Header(c, p.blocks[i])) {
      if i < n {
        assert Disjoint(p.blocks[i], p.blocks[n]);
        assert Inside(Header(c, p.blocks[i]), p.blocks[i]);
        DisjointInside(span, Header(c, p.blocks[i]), p.blocks[i]);
      }
    }
  }

  // ---- Clearing ----

  /** Only the static block starts where the static memory does. */
  lemma StaticIsAlone(c: Config, p: Pool)
    requires Chained(c, p)
    ensures p.begin == c.staticStart <==> |p.blocks| == 1
  {
    if |p.blocks| > 1 {
      assert Disjoint(p.blocks[0], p.blocks[|p.blocks| - 1]);
    }
  }

  /** One round of the loop of `clear`: the header is found by aligning the block's start again. */
  function Release(c: Config, p: Pool): Pool
    requires Align(c, p.begin) in p.headers && 1 < |p.blocks|
  {
    var h := Align(c, p.begin);
    p.(begin := p.headers[h], headers := p.headers - {h}, blocks := p.blocks[..|p.blocks| - 1],
       freed := p.freed + multiset{p.begin})
  }

  lemma ReleaseKeeps(c: Config, p: Pool)
    requires ValidConfig(c) && Chained(c, p) && p.begin != c.staticStart
    ensures 1 < |p.blocks| && Align(c, p.begin) in p.headers
    ensures Chained(c, Release(c, p))
    ensures DynamicStarts(p.blocks) == DynamicStarts(Release(c, p).blocks) + multiset{p.begin}
  {
    StaticIsAlone(c, p);
    hide Align, DynamicStarts;
    HeadersApart(c, p);
    ReleaseStarts(c, p);
  }

  /** The header of the current block is no other block's. */
  lemma HeadersApart(c: Config, p: Pool)
    requires ValidConfig(c) && Chained(c, p)
    ensures forall i :: 1 <= i < |p.blocks| - 1 ==> Align(c, p.blocks[i].start) != Align(c, p.begin)
  {
    hide Align;
    var n := |p.blocks| - 1;
    forall i | 1 <= i < n ensures Align(c, p.blocks[i].start) != Align(c, p.blocks[n].start) {
      assert Disjoint(p.blocks[i], p.blocks[n]);
      assert Inside(Header(c, p.blocks[i]), p.blocks[i]) && Inside(Header(c, p.blocks[n]), p.blocks[n]);
    }
  }

  lemma ReleaseStarts(c: Config, p: Pool)
    requires Align(c, p.begin) in p.headers && 1 < |p.blocks| && p.begin == p.blocks[|p.blocks| - 1].start
    ensures DynamicStarts(p.blocks) == DynamicStarts(Release(c, p).blocks) + multiset{p.begin}
  {
  }

  /** `clear`: dynamic blocks are given back one after the other until the static block is reached. */
  ghost function Cleared(c: Config, p: Pool): Pool
    requires ValidConfig(c) && Chained(c, p)
    decreases |p.blocks|
  {
    if p.begin == c.staticStart then Init(c, p)
    else
      ReleaseKeeps(c, p);
      Cleared(c, Release(c, p))
  }

  /** Every dynamic block is given back exactly once, and the pool is as good as new. */
  lemma {:induction false} ClearFreesOnce(c: Config, p: Pool)
    requires ValidConfig(c) && Chained(c, p)
    ensures Cleared(c, p).freed == p.freed + DynamicStarts(p.blocks)
    ensures Cleared(c, p).obtained == p.obtained
    ensures Cleared(c, p).blocks == [Static(c)] && Cleared(c, p).handed == []
    ensures Balanced(p) ==> Sound(c, Cleared(c, p)) && Cleared(c, p).freed == p.obtained
    decreases |p.blocks|
  {
    hide Chained, Sound, Balanced, Align;
    if p.begin == c.staticStart {
      ClearedUnfolds(c, p);
      InitSound(c, p);
    } else {
      ReleaseKeeps(c, p);
      ReleaseObtains(c, p);
      hide Release, DynamicStarts;
      ClearFreesOnce(c, Release(c, p));
      ClearedUnfolds(c, p);
      BalanceKept(c, p);
    }
  }

  lemma InitSound(c: Config, p: Pool)
    requires ValidConfig(c) && Chained(c, p) && p.begin == c.staticStart
    ensures Balanced(p) ==> Sound(c, Init(c, p)) && p.freed == p.obtained
  {
    StaticIsAlone(c, p);
    AlignsUp(c, c.staticStart);
    hide Align;
  }

  lemma BalanceKept(c: Config, p: Pool)
    requires ValidConfig(c) && Chained(c, p) && p.begin != c.staticStart
    ensures 1 < |p.blocks| && Align(c, p.begin) in p.headers
    ensures Balanced(p) ==> Balanced(Release(c, p))
  {
    hide Chained, Align, DynamicStarts;
    ReleaseKeeps(c, p);
  }

  lemma ReleaseObtains(c: Config, p: Pool)
    requires Align(c, p.begin) in p.headers && 1 < |p.blocks|
    ensures Release(c, p).obtained == p.obtained
    ensures |Release(c, p).blocks| < |p.blocks|
    ensures Release(c, p).begin == p.headers[Align(c, p.begin)]
    ensures Release(c, p).headers == p.headers - {Align(c, p.begin)}
  {
  }

  lemma ClearedUnfolds(c: Config, p: Pool)
    requires ValidConfig(c) && Chained(c, p)
    ensures p.begin == c.staticStart ==> Cleared(c, p) == Init(c, p) && DynamicStarts(p.blocks) == multiset{}
    ensures p.begin != c.staticStart && Align(c, p.begin) in p.headers && 1 < |p.blocks| && Chained(c, Release(c, p))
            ==> Cleared(c, p) == Cleared(c, Release(c, p))
  {
    StaticIsAlone(c, p);
  }

  /** On the way from `start`: the same end in sight, and what is missing has been given back. */
  ghost predicate Clearing(c: Config, start: Pool, p: Pool, given: seq<nat>)
    requires ValidConfig(c)
  {
    && Chained(c, start) && Chained(c, p) && Cleared(c, p) == Cleared(c, start)
    && multiset(given) + DynamicStarts(p.blocks) == DynamicStarts(start.blocks)
  }

  lemma SoundChains(c: Config, p: Pool)
    requires ValidConfig(c) && Sound(c, p)
    ensures Clearing(c, p, p, []) && Chained(c, p) && Balanced(p)
  {
  }

  lemma ClearingStep(c: Config, start: Pool, p: Pool, given: seq<nat>)
    requires ValidConfig(c) && Clearing(c, start, p, given) && p.begin != c.staticStart
    ensures 1 < |p.blocks| && Align(c, p.begin) in p.headers
    ensures var q, h := Release(c, p), Align(c, p.begin);
            && q.begin == p.headers[h] && q.headers == p.headers - {h} && |q.blocks| < |p.blocks|
            && Clearing(c, start, q, given + [p.begin])
  {
    hide Chained, Align, Cleared, Release, DynamicStarts;
    ReleaseKeeps(c, p);
    ReleaseObtains(c, p);
    ClearedUnfolds(c, p);
  }

  lemma ClearingEnds(c: Config, start: Pool, p: Pool, given: seq<nat>)
    requires ValidConfig(c) && Clearing(c, start, p, given) && p.begin == c.staticStart
    ensures Chained(c, start) && Init(c, p) == Cleared(c, start) && multiset(given) == DynamicStarts(start.blocks)
  {
    hide Chained, Align, Cleared, DynamicStarts;
    ClearedUnfolds(c, p);
  }

  // ---- Runs ----

  datatype Op = Take(size: nat, raw: nat) | Reset

  /** The pool after a run; the system never returns memory that the pool still owns. */
  ghost function Execute(c: Config, ops: seq<Op>): (p: Pool)
    requires ValidConfig(c)
    ensures Sound(c, p)
    decreases |ops|
  {
    if ops == [] then
      NewSound(c);
      New(c)
    else
      var p := Execute(c, ops[..|ops| - 1]);
      match ops[|ops| - 1]
      case Take(size, raw) =>
        if FreshMemory(c, p, size, raw) then
          AllocateKeeps(c, p, size, raw);
          Allocate(c, p, size, raw)
        else p
      case Reset =>
        ClearFreesOnce(c, p);
        Cleared(c, p)
  }

  /**
   * In every run, what is handed out is aligned, lies in a block that the pool owns, overlaps neither a
   * header nor anything else handed out, and every block obtained is still owned or was given back once.
   */
  lemma RunIsSound(c: Config, ops: seq<Op>, j: nat)
    requires ValidConfig(c) && j < |Execute(c, ops).handed|
    ensures var p := Execute(c, ops);
            && p.handed[j].start % Pow2(c.k) == 0
            && (exists i :: 0 <= i < |p.blocks| && Inside(p.handed[j], p.blocks[i]))
            && (forall l :: 0 <= l < |p.handed| && l != j ==> Disjoint(p.handed[j], p.handed[l]))
            && (forall i :: 1 <= i < |p.blocks| ==> Disjoint(p.handed[j], Header(c, p.blocks[i])))
            && p.obtained == p.freed + DynamicStarts(p.blocks)
  {
    var p := Execute(c, ops);
    hide Chained, PointersSound;
    assert Owned(p.blocks, p.handed[j]) && OffHeaders(c, p.blocks, p.handed[j]);
    forall l | 0 <= l < |p.handed| && l != j ensures Disjoint(p.handed[j], p.handed[l]) {
      assert Disjoint(p.handed[if l < j then l else j], p.handed[if l < j then j else l]);
    }
  }

  // ---- What is spent ----

  /** `r` is the first multiple of the alignment that is not below `p`. */
  predicate FirstAligned(c: Config, p: nat, r: nat) {
    r % Pow2(c.k) == 0 && p <= r < p + Pow2(c.k)
  }

  lemma AlignIsFirst(c: Config, p: nat, r: nat)
    requires FirstAligned(c, p, r)
    ensures Align(c, p) == r
  {
    AlignsUp(c, p);
    var a, q := Pow2(c.k), Align(c, p);
    hide Align, Pow2;
    if q < r {
      NoneBetween(a, q, r);
    } else if r < q {
      NoneBetween(a, r, q);
    }
  }

  lemma NoneBetween(a: nat, x: nat, y: nat)
    requires a > 0 && x % a == 0 && x < y < x + a
    ensures y % a != 0
  {
    var d: nat := y - x;
    ModUnique(y, a, x / a, d);
  }

  /**
   * An allocation takes the first aligned address of the current block if the request fits behind it, and no
   * more than the request; only if it does not fit, a block is obtained, of the size that is set or requested
   * and the slack for its header and two alignments.
   */
  lemma AllocationSpends(c: Config, p: Pool, size: nat, raw: nat, r: nat, h: nat, s: nat)
    requires FirstAligned(c, p.ptr, r) && FirstAligned(c, raw, h) && FirstAligned(c, h + c.headerSize, s)
    ensures r + size <= p.end ==> Allocate(c, p, size, raw) == p.(ptr := r + size, handed := p.handed + [Span(r, size)])
    ensures r + size > p.end ==>
              var asked := c.headerSize + 2 * Pow2(c.k) - 2 + if c.dynamicSize < size then size else c.dynamicSize;
              Allocate(c, p, size, raw)
              == p.(begin := raw, ptr := s + size, end := raw + asked, headers := p.headers[h := p.begin],
                    blocks := p.blocks + [Span(raw, asked)], handed := p.handed + [Span(s, size)],
                    obtained := p.obtained + multiset{raw})
  {
    AlignIsFirst(c, p.ptr, r);
    AlignIsFirst(c, raw, h);
    AlignIsFirst(c, h + c.headerSize, s);
    hide Align;
  }

  /** What a list of allocations takes at most, with all that alignment may cost. */
  function Room(c: Config, ops: seq<Op>): nat {
    if ops == [] then 0
    else Room(c, ops[..|ops| - 1]) + if ops[|ops| - 1].Take? then ops[|ops| - 1].size + Pow2(c.k) - 1 else 0
  }

  /** As long as there is room in the static block, the system is not asked for memory, whatever it would return. */
  lemma {:induction false} SmallRunsStay(c: Config, ops: seq<Op>)
    requires ValidConfig(c) && (forall k :: 0 <= k < |ops| ==> ops[k].Take?)
    requires Room(c, ops) + Pow2(c.k) - 1 <= c.staticSize
    ensures var p := Execute(c, ops);
            && p.obtained == multiset{} && p.blocks == [Static(c)] && p.end == c.staticStart + c.staticSize
            && p.ptr <= c.staticStart + Pow2(c.k) - 1 + Room(c, ops)
            && |p.handed| == |ops| && forall k :: 0 <= k < |ops| ==> p.handed[k].size == ops[k].size
    decreases |ops|
  {
    hide Sound, Align, Pow2;
    AlignsUp(c, c.staticStart);
    if ops != [] {
      var front, op := ops[..|ops| - 1], ops[|ops| - 1];
      SmallRunsStay(c, front);
      AlignsUp(c, Execute(c, front).ptr);
    }
  }

  /** The pool itself. */
  class MemoryPool {
    const c: Config
    var begin: nat
    var ptr: nat
    var end: nat
    var headers: map<nat, nat>
    ghost var pool: Pool

    ghost predicate Valid()
      reads this
    {
      ValidConfig(c) && Sound(c, pool) && Shown()
    }

    ghost predicate Shown()
      reads this
    {
      begin == pool.begin && ptr == pool.ptr && end == pool.end && headers == pool.headers
    }

    constructor (c: Config)
      requires ValidConfig(c)
      ensures Valid() && this.c == c && pool == New(c)
    {
      NewSound(c);
      this.c := c;
      begin, ptr, end := c.staticStart, Align(c, c.staticStart), c.staticStart + c.staticSize;
      headers := map[];
      pool := New(c);
    }

    /** `raw` is the address that the system returns if the current block is full. */
    method AllocateAligned(size: nat, raw: nat) returns (result: nat)
      requires Valid() && FreshMemory(c, pool, size, raw)
      modifies this
      ensures Valid() && pool == Allocate(c, old(pool), size, raw)
      ensures pool.handed == old(pool.handed) + [Span(result, size)]
    {
      hide Sound, Align, FreshMemory, Allocate, BlockSize;
      AllocateKeeps(c, pool, size, raw);
      AllocateFields(c, pool, size, raw);
      result := Align(c, ptr);
      if result + size > end {
        var poolSize := c.dynamicSize;
        if poolSize < size {
          poolSize := size;
        }
        var allocSize := c.headerSize + (2 * Pow2(c.k) - 2) + poolSize;
        BlockSizeIs(c, size);
        var start := Align(c, raw);
        headers := headers[start := begin];
        begin, ptr, end := raw, start + c.headerSize, raw + allocSize;
        result := Align(c, ptr);
      }
      ptr := result + size;
      pool := Allocate(c, pool, size, raw);
    }

    /** `given` lists the blocks in the order in which they are given back to the system. */
    method Clear() returns (ghost given: seq<nat>)
      requires Valid()
      modifies this
      ensures Valid() && pool == Cleared(c, old(pool))
      ensures multiset(given) == DynamicStarts(old(pool.blocks))
    {
      given := [];
      ghost var start := pool;
      hide Sound, Chained, Align, Cleared, Release, DynamicStarts;
      SoundChains(c, pool);
      ClearFreesOnce(c, pool);
      while begin != c.staticStart
        invariant ValidConfig(c) && Clearing(c, start, pool, given) && begin == pool.begin && headers == pool.headers
        decreases |pool.blocks|
      {
        ClearingStep(c, start, pool, given);
        var h := Align(c, begin);
        var previousBegin := headers[h];
        given := given + [begin];
        headers := headers - {h};
        begin := previousBegin;
        pool := Release(c, pool);
      }
      ClearingEnds(c, start, pool, given);
      begin, ptr, end := c.staticStart, Align(c, c.staticStart), c.staticStart + c.staticSize;
      pool := Init(c, pool);
    }
  }
}

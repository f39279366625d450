/**
 * Additions and removals of identifiers, taken in the order in which they were made or the newest first,
 * as the lock-free queue hands them out.
 */
module StackOrder {
  import opened LocklessQueue

  /** What one message says about the identifiers in use. */
  datatype Notice = Adds(id: nat) | Drops(id: nat) | Silent

  function Effect(ids: set<nat>, n: Notice): set<nat> {
    match n
    case Adds(id) => ids + {id}
    case Drops(id) => ids - {id}
    case Silent => ids
  }

  /** The identifiers in use after all of `ns`, the first one first. */
  function After(ids: set<nat>, ns: seq<Notice>): set<nat> {
    if ns == [] then ids else Effect(After(ids, ns[..|ns| - 1]), ns[|ns| - 1])
  }

  function Reversed<T>(s: seq<T>): (r: seq<T>)
    ensures |r| == |s| && forall k :: 0 <= k < |s| ==> r[k] == s[|s| - 1 - k]
  {
    seq(|s|, k requires 0 <= k < |s| => s[|s| - 1 - k])
  }

  lemma ReversedHead<T>(s: seq<T>)
    requires s != []
    ensures Reversed(s) == Reversed(s[1..]) + [s[0]] && Reversed(s)[..|s| - 1] == Reversed(s[1..])
  {
  }

  lemma ReversedLast<T>(s: seq<T>, x: T)
    ensures Reversed(s + [x]) == [x] + Reversed(s)
  {
  }

  lemma InParts<T>(s: seq<T>, x: T)
    requires s != []
    ensures x in s <==> x == s[0] || x in s[1..]
    ensures x in s <==> x == s[|s| - 1] || x in s[..|s| - 1]
  {
    assert s == [s[0]] + s[1..] && s == s[..|s| - 1] + [s[|s| - 1]];
  }

  /** Taking the first notice and then the rest is taking them all. */
  lemma {:induction false} AfterFirst(ids: set<nat>, ns: seq<Notice>)
    requires ns != []
    ensures After(Effect(ids, ns[0]), ns[1..]) == After(ids, ns)
    decreases |ns|
  {
    if |ns| == 1 {
      assert ns[..0] == [] && ns[1..] == [];
    } else {
      var front := ns[..|ns| - 1];
      AfterFirst(ids, front);
      assert ns[1..][..|ns| - 2] == front[1..];
    }
  }

  // ---- When the order makes no difference ----

  datatype Word = Unsaid | Use | Disuse

  /** What the first notice that names `id` says of it. */
  function FirstWord(ns: seq<Notice>, id: nat): Word {
    if ns == [] then Unsaid
    else if ns[0] == Adds(id) then Use
    else if ns[0] == Drops(id) then Disuse
    else FirstWord(ns[1..], id)
  }

  /** What the last notice that names `id` says of it. */
  function LastWord(ns: seq<Notice>, id: nat): Word {
    if ns == [] then Unsaid
    else
      var k := |ns| - 1;
      if ns[k] == Adds(id) then Use
      else if ns[k] == Drops(id) then Disuse
      else LastWord(ns[..k], id)
  }

  lemma {:induction false} LastWordCounts(ids: set<nat>, ns: seq<Notice>, id: nat)
    ensures id in After(ids, ns) <==> LastWord(ns, id) == Use || (LastWord(ns, id) == Unsaid && id in ids)
    ensures LastWord(ns, id) == Unsaid <==> Adds(id) !in ns && Drops(id) !in ns
  {
    if ns != [] {
      var k := |ns| - 1;
      LastWordCounts(ids, ns[..k], id);
      InParts(ns, Adds(id));
      InParts(ns, Drops(id));
    }
  }

  /** Newest first, the first notice is the last to be taken. */
  lemma FirstTakenLast(ids: set<nat>, ns: seq<Notice>)
    requires ns != []
    ensures After(ids, Reversed(ns)) == Effect(After(ids, Reversed(ns[1..])), ns[0])
  {
    ReversedHead(ns);
  }

  lemma {:induction false} FirstWordCounts(ids: set<nat>, ns: seq<Notice>, id: nat)
    ensures id in After(ids, Reversed(ns)) <==> FirstWord(ns, id) == Use || (FirstWord(ns, id) == Unsaid && id in ids)
    ensures FirstWord(ns, id) == Unsaid <==> Adds(id) !in ns && Drops(id) !in ns
  {
    if ns == [] {
      assert Reversed(ns) == [];
    } else {
      hide Reversed, After;
      FirstWordCounts(ids, ns[1..], id);
      FirstTakenLast(ids, ns);
      InParts(ns, Adds(id));
      InParts(ns, Drops(id));
    }
  }

  /** Every identifier is named for the same purpose first and last. */
  ghost predicate SameEnds(ns: seq<Notice>) {
    forall id :: FirstWord(ns, id) == LastWord(ns, id)
  }

  /**
   * Taking the newest first leads to the same identifiers, whatever was in use before, if and only if the
   * first and the last notice about each identifier agree.
   */
  lemma OrderMatters(ids: set<nat>, ns: seq<Notice>)
    ensures After(ids, Reversed(ns)) == After(ids, ns) <==> SameEnds(ns)
  {
    forall id
      ensures (id in After(ids, Reversed(ns)) <==> id in After(ids, ns)) <==> FirstWord(ns, id) == LastWord(ns, id)
    {
      FirstWordCounts(ids, ns, id);
      LastWordCounts(ids, ns, id);
    }
    if After(ids, Reversed(ns)) == After(ids, ns) {
      assert SameEnds(ns);
    } else if SameEnds(ns) {
      assert forall id :: FirstWord(ns, id) == LastWord(ns, id) ==> (id in After(ids, Reversed(ns)) <==> id in After(ids, ns));
    }
  }

  // ---- Identifiers that are never used again ----

  /** Nothing is added behind its own removal. */
  ghost predicate AddsFirst(ns: seq<Notice>) {
    forall j, k :: 0 <= j < k < |ns| && ns[j].Drops? && ns[k].Adds? ==> ns[j].id != ns[k].id
  }

  /** Of two notices about the same identifier the first adds it and the second removes it. */
  ghost predicate Ordered(ns: seq<Notice>) {
    forall j, k :: 0 <= j < k < |ns| && !ns[j].Silent? && !ns[k].Silent? && ns[j].id == ns[k].id ==>
      ns[j].Adds? && ns[k].Drops?
  }

  lemma NoAddBehind(ns: seq<Notice>, id: nat)
    requires AddsFirst(ns) && ns != [] && ns[0] == Drops(id)
    ensures Adds(id) !in ns
  {
    forall k | 0 <= k < |ns| ensures ns[k] != Adds(id) {
    }
  }

  lemma NoDropBefore(ns: seq<Notice>, id: nat)
    requires AddsFirst(ns) && ns != [] && ns[|ns| - 1] == Adds(id)
    ensures Drops(id) !in ns
  {
    forall k | 0 <= k < |ns| ensures ns[k] != Drops(id) {
    }
  }

  lemma AddsFirstRest(ns: seq<Notice>)
    requires ns != [] && AddsFirst(ns)
    ensures AddsFirst(ns[1..]) && AddsFirst(ns[..|ns| - 1])
  {
    assert forall k :: 0 <= k < |ns| - 1 ==> ns[1..][k] == ns[k + 1] && ns[..|ns| - 1][k] == ns[k];
  }

  /** What is left when the newest notice is taken first: an addition wins over the removal above it. */
  lemma {:induction false} NewestFirstIds(ids: set<nat>, ns: seq<Notice>, id: nat)
    requires AddsFirst(ns)
    ensures id in After(ids, Reversed(ns)) <==> Adds(id) in ns || (id in ids && Drops(id) !in ns)
  {
    if ns != [] {
      var rest := ns[1..];
      AddsFirstRest(ns);
      NewestFirstIds(ids, rest, id);
      FirstTakenLast(ids, ns);
      InParts(ns, Adds(id));
      InParts(ns, Drops(id));
      if ns[0] == Drops(id) {
        NoAddBehind(ns, id);
      }
    }
  }

  lemma {:induction false} OldestFirstIds(ids: set<nat>, ns: seq<Notice>, id: nat)
    requires AddsFirst(ns)
    ensures id in After(ids, ns) <==> Drops(id) !in ns && (Adds(id) in ns || id in ids)
  {
    if ns != [] {
      var k := |ns| - 1;
      AddsFirstRest(ns);
      OldestFirstIds(ids, ns[..k], id);
      InParts(ns, Adds(id));
      InParts(ns, Drops(id));
      if ns[k] == Adds(id) {
        NoDropBefore(ns, id);
      }
    }
  }

  /** For such lists the order matters just for the identifiers that are both added and removed. */
  lemma OrderMattersForPairs(ids: set<nat>, ns: seq<Notice>)
    requires AddsFirst(ns)
    ensures After(ids, Reversed(ns)) == After(ids, ns) <==> forall id :: Adds(id) in ns ==> Drops(id) !in ns
  {
    forall id
      ensures (id in After(ids, Reversed(ns)) <==> id in After(ids, ns)) <==> !(Adds(id) in ns && Drops(id) in ns)
    {
      NewestFirstIds(ids, ns, id);
      OldestFirstIds(ids, ns, id);
    }
    if forall id :: Adds(id) in ns ==> Drops(id) !in ns {
      assert forall id :: id in After(ids, Reversed(ns)) <==> id in After(ids, ns);
    }
  }

  /** What the notice `n`, pushed on top of `ns`, does to the identifiers `coming` that these lead to. */
  function OnTop(coming: set<nat>, ns: seq<Notice>, n: Notice): set<nat> {
    match n
    case Adds(id) => coming + {id}
    case Drops(id) => if Adds(id) in ns then coming else coming - {id}
    case Silent => coming
  }

  /** One more notice on top is taken before all that is below: a removal misses what is still to be added. */
  lemma PushedOnTop(ids: set<nat>, ns: seq<Notice>, n: Notice)
    requires AddsFirst(ns + [n])
    ensures After(ids, Reversed(ns + [n])) == OnTop(After(ids, Reversed(ns)), ns, n)
  {
    var all := ns + [n];
    assert all[..|ns|] == ns;
    AddsFirstRest(all);
    forall id ensures id in After(ids, Reversed(all)) <==> Adds(id) in all || (id in ids && Drops(id) !in all) {
      NewestFirstIds(ids, all, id);
    }
    forall id ensures id in After(ids, Reversed(ns)) <==> Adds(id) in ns || (id in ids && Drops(id) !in ns) {
      NewestFirstIds(ids, ns, id);
    }
    assert forall m :: m in all <==> m in ns || m == n;
    if n.Adds? {
      NoDropBefore(all, n.id);
    }
  }

  /** The notice on top, taken, leaves the same identifiers to come. */
  lemma TakenFromTop(ids: set<nat>, ns: seq<Notice>)
    requires ns != []
    ensures After(Effect(ids, ns[|ns| - 1]), Reversed(ns[..|ns| - 1])) == After(ids, Reversed(ns))
  {
    AfterFirst(ids, Reversed(ns));
    assert Reversed(ns)[1..] == Reversed(ns[..|ns| - 1]);
  }

  // ---- Removals that find what they remove ----

  ghost predicate DropsPresent(ids: set<nat>, ns: seq<Notice>) {
    if ns == [] then true
    else
      var k := |ns| - 1;
      DropsPresent(ids, ns[..k]) && (ns[k].Drops? ==> ns[k].id in After(ids, ns[..k]))
  }

  /** Newest first, every removal finds its identifier if and only if each was there before them all. */
  lemma {:induction false} NewestFirstPresent(ids: set<nat>, ns: seq<Notice>)
    requires Ordered(ns)
    ensures DropsPresent(ids, Reversed(ns)) <==> forall id :: Drops(id) in ns ==> id in ids
  {
    if ns != [] {
      var rest := ns[1..];
      assert forall k :: 0 <= k < |rest| ==> rest[k] == ns[k + 1];
      NewestFirstPresent(ids, rest);
      ReversedHead(ns);
      forall m ensures m in ns <==> m == ns[0] || m in rest {
        InParts(ns, m);
      }
      if ns[0].Drops? {
        NewestFirstIds(ids, rest, ns[0].id);
        assert Adds(ns[0].id) !in rest && Drops(ns[0].id) !in rest;
      }
    }
  }

  // ---- Identifiers whose removal overtakes their addition ----

  /**
   * The queue of notices about identifiers that are handed out once, in ascending order below `bound`, and of
   * which `live` have not been given up: each is added at most once, and removed after that, once it is given up.
   */
  ghost predicate Queued(ns: seq<Notice>, live: set<nat>, bound: nat) {
    && Ordered(ns)
    && (forall m :: m in ns && !m.Silent? ==> m.id < bound)
    && (forall m :: m in ns && m.Drops? ==> m.id !in live)
  }

  /**
   * How the identifiers `ids` in use keep pace with `live` when the newest notice is taken first; `late` are
   * those whose removal was pushed while their addition was waiting.
   */
  ghost predicate Tracked(ids: set<nat>, ns: seq<Notice>, live: set<nat>, bound: nat, late: set<nat>) {
    && Queued(ns, live, bound)
    && (forall m :: m in ns && m.Adds? ==> m.id !in ids)
    && (forall m :: m in ns && m.Drops? ==> (m.id in ids <==> m.id !in late))
    && (forall id :: id in ids || id in live || id in late ==> id < bound)
    && live !! late
    && After(ids, Reversed(ns)) == live + late
  }

  lemma OrderedParts(ns: seq<Notice>)
    requires Ordered(ns) && ns != []
    ensures Ordered(ns[1..]) && Ordered(ns[..|ns| - 1]) && AddsFirst(ns)
    ensures !ns[|ns| - 1].Silent? ==> ns[|ns| - 1] !in ns[..|ns| - 1]
    ensures ns[|ns| - 1].Adds? ==> Drops(ns[|ns| - 1].id) !in ns
  {
    var front, last := ns[..|ns| - 1], ns[|ns| - 1];
    assert forall k :: 0 <= k < |ns| - 1 ==> ns[1..][k] == ns[k + 1] && front[k] == ns[k];
    if last.Adds? {
      NoDropBefore(ns, last.id);
    }
  }

  lemma OrderedAppend(ns: seq<Notice>, n: Notice)
    requires Ordered(ns)
    requires n.Adds? ==> Adds(n.id) !in ns && Drops(n.id) !in ns
    requires n.Drops? ==> Drops(n.id) !in ns
    ensures Ordered(ns + [n]) && AddsFirst(ns + [n])
  {
    var all := ns + [n];
    assert forall k :: 0 <= k < |ns| ==> all[k] == ns[k] && ns[k] in ns;
    forall j, k | 0 <= j < k < |all| && !all[j].Silent? && !all[k].Silent? && all[j].id == all[k].id
      ensures all[j].Adds? && all[k].Drops?
    {
      assert all[j] == ns[j];
      if k == |ns| {
        assert all[j] in ns && all[k] == n;
      }
    }
  }

  lemma QueuedRest(ns: seq<Notice>, live: set<nat>, bound: nat)
    requires Queued(ns, live, bound) && ns != []
    ensures Queued(ns[1..], live, bound) && Queued(ns[..|ns| - 1], live, bound)
  {
    OrderedParts(ns);
    hide Ordered;
    forall m ensures (m in ns[1..] ==> m in ns) && (m in ns[..|ns| - 1] ==> m in ns) {
      InParts(ns, m);
    }
  }

  lemma QueuedAdd(ns: seq<Notice>, live: set<nat>, bound: nat)
    requires Queued(ns, live, bound)
    ensures Queued(ns + [Adds(bound)], live + {bound}, bound + 1)
  {
    OrderedAppend(ns, Adds(bound));
    hide Ordered;
  }

  lemma QueuedDrop(ns: seq<Notice>, live: set<nat>, bound: nat, id: nat)
    requires Queued(ns, live, bound) && id in live && id < bound
    ensures Queued(ns + [Drops(id)], live - {id}, bound)
  {
    OrderedAppend(ns, Drops(id));
    hide Ordered;
  }

  lemma QueuedSilent(ns: seq<Notice>, live: set<nat>, bound: nat)
    requires Queued(ns, live, bound)
    ensures Queued(ns + [Silent], live, bound)
  {
    OrderedAppend(ns, Silent);
    hide Ordered;
  }

  /** A queue of nothing but additions. */
  lemma TrackAdds(ns: seq<Notice>, live: set<nat>, bound: nat)
    requires forall k :: 0 <= k < |ns| ==> ns[k].Adds? && ns[k].id < bound
    requires forall j, k :: 0 <= j < k < |ns| ==> ns[j].id != ns[k].id
    requires After({}, ns) == live
    ensures Tracked({}, ns, live, bound, {})
  {
    hide After, Reversed;
    OrderMattersForPairs({}, ns);
    forall id | id in live ensures id < bound {
      OldestFirstIds({}, ns, id);
    }
  }

  lemma TrackAdd(ids: set<nat>, ns: seq<Notice>, live: set<nat>, bound: nat, late: set<nat>)
    requires Tracked(ids, ns, live, bound, late)
    ensures Tracked(ids, ns + [Adds(bound)], live + {bound}, bound + 1, late)
  {
    QueuedAdd(ns, live, bound);
    OrderedAppend(ns, Adds(bound));
    PushedOnTop(ids, ns, Adds(bound));
    hide Ordered, Queued, After, Reversed;
  }

  lemma TrackDrop(ids: set<nat>, ns: seq<Notice>, live: set<nat>, bound: nat, late: set<nat>, id: nat)
    requires Tracked(ids, ns, live, bound, late) && id in live
    ensures Tracked(ids, ns + [Drops(id)], live - {id}, bound, if Adds(id) in ns then late + {id} else late)
  {
    QueuedDrop(ns, live, bound, id);
    OrderedAppend(ns, Drops(id));
    assert (ns + [Drops(id)])[..|ns|] == ns;
    AddsFirstRest(ns + [Drops(id)]);
    NewestFirstIds(ids, ns, id);
    PushedOnTop(ids, ns, Drops(id));
    hide Ordered, After, Reversed;
  }

  lemma TrackSilent(ids: set<nat>, ns: seq<Notice>, live: set<nat>, bound: nat, late: set<nat>)
    requires Tracked(ids, ns, live, bound, late)
    ensures Tracked(ids, ns + [Silent], live, bound, late)
  {
    QueuedSilent(ns, live, bound);
    OrderedAppend(ns, Silent);
    PushedOnTop(ids, ns, Silent);
    hide Ordered, Queued, After, Reversed;
  }

  /** The notice on top, taken: a removal finds its identifier unless it has overtaken the addition. */
  lemma TrackTake(ids: set<nat>, ns: seq<Notice>, live: set<nat>, bound: nat, late: set<nat>)
    requires Tracked(ids, ns, live, bound, late) && ns != []
    ensures Tracked(Effect(ids, ns[|ns| - 1]), ns[..|ns| - 1], live, bound, late)
  {
    QueuedRest(ns, live, bound);
    OrderedParts(ns);
    TakenFromTop(ids, ns);
    forall m ensures m in ns <==> m == ns[|ns| - 1] || m in ns[..|ns| - 1] {
      InParts(ns, m);
    }
    hide Ordered, After, Reversed;
  }

  // ---- The queue that hands them out ----

  /**
   * If the lock-free queue holds `q`, oldest first, then the next value it can hand out is the last one
   * of `q`, and a push adds behind the last.
   */
  lemma LocklessTakesNewest<T>(events: seq<Event<T>>, q: seq<T>, v: T)
    requires Replay(events) == (true, Reversed(q))
    ensures Replay(events + [Pushed(v)]) == (true, Reversed(q + [v]))
    ensures Replay(events + [Popped(v)]).0 <==> q != [] && v == q[|q| - 1]
    ensures q != [] ==> Replay(events + [Popped(q[|q| - 1])]) == (true, Reversed(q[..|q| - 1]))
  {
    EventAppended(events, Pushed(v));
    EventAppended(events, Popped(v));
    ReversedLast(q, v);
    if q != [] {
      EventAppended(events, Popped(q[|q| - 1]));
      assert Reversed(q)[1..] == Reversed(q[..|q| - 1]);
    }
  }
}

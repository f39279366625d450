/**
 * The lock-free queue as interleaved atomic steps: any number of producers, one consumer, and
 * addresses that may be handed out again as soon as they are deleted.
 */
module LocklessQueue {

  /** Addresses of queue items; 0 is the null pointer. */
  type Addr = nat

  datatype Item<T> = Item(value: T, next: Addr)

  /**
   * A producer inside `push`: it owns a fresh item, or has also stored the head in it. `seen` is the
   * number of completed operations when it read the head.
   */
  datatype Producer = Owns(item: Addr) | Aimed(item: Addr, seen: nat)

  /** The consumer inside a pop. */
  datatype Consumer<T> =
    | Idle
    | Looking(item: Addr, seen: nat)
    | Poised(item: Addr, next: Addr, seen: nat)
    | Unlinked(item: Addr)
    | Took(item: Addr, value: T)

  datatype Event<T> = Pushed(value: T) | Popped(value: T)

  /**
   * `heap` holds the items allocated and not deleted, `top` is `head->next`. `chain`, `events` and
   * `returned` only record: the addresses linked from the head, the successful exchanges in their
   * order, and the values that pops have returned. `fault` tells that deleted memory was used.
   */
  datatype State<T> = State(
    heap: map<Addr, Item<T>>, top: Addr,
    producers: map<nat, Producer>, consumer: Consumer<T>,
    chain: seq<Addr>, events: seq<Event<T>>, returned: seq<T>, fault: bool)

  datatype Action<T> =
    | Allocate(p: nat, a: Addr, v: T)
    | ReadHead(p: nat)
    | LinkExchange(p: nat)
    | LookAtHead
    | LoadNext
    | UnlinkExchange
    | TakeValue
    | Delete

  function Initial<T>(): State<T> {
    State(map[], 0, map[], Idle, [], [], [], false)
  }

  predicate Enabled<T>(s: State<T>, a: Action<T>) {
    match a
    case Allocate(p, x, _) => p !in s.producers && x != 0 && x !in s.heap
    case ReadHead(p) => p in s.producers && s.producers[p].Owns?
    case LinkExchange(p) => p in s.producers && s.producers[p].Aimed?
    case LookAtHead => s.consumer.Idle?
    case LoadNext => s.consumer.Looking?
    case UnlinkExchange => s.consumer.Poised?
    case TakeValue => s.consumer.Unlinked?
    case Delete => s.consumer.Took?
  }

  /** The item at an address, or a fault if it has been deleted. */
  predicate Live<T>(s: State<T>, a: Addr) {
    a in s.heap
  }

  function Next<T>(s: State<T>, a: Action<T>): State<T>
    requires Enabled(s, a)
  {
    match a
    case Allocate(p, x, v) => s.(heap := s.heap[x := Item(v, 0)], producers := s.producers[p := Owns(x)])
    case ReadHead(p) =>
      var x := s.producers[p].item;
      if !Live(s, x) then s.(fault := true)
      else s.(heap := s.heap[x := s.heap[x].(next := s.top)], producers := s.producers[p := Aimed(x, |s.events|)])
    case LinkExchange(p) =>
      var x := s.producers[p].item;
      if !Live(s, x) then s.(fault := true)
      else if s.top == s.heap[x].next then
        s.(top := x, producers := s.producers - {p}, chain := [x] + s.chain, events := s.events + [Pushed(s.heap[x].value)])
      else s.(producers := s.producers[p := Owns(x)])
    case LookAtHead =>
      if s.top == 0 then s else s.(consumer := Looking(s.top, |s.events|))
    case LoadNext =>
      var x := s.consumer.item;
      if !Live(s, x) then s.(fault := true)
      else s.(consumer := Poised(x, s.heap[x].next, s.consumer.seen))
    case UnlinkExchange =>
      var x := s.consumer.item;
      if s.top != x then s.(consumer := Idle)
      else if !Live(s, x) then s.(fault := true)
      else s.(top := s.consumer.next, consumer := Unlinked(x),
              chain := if s.chain == [] then [] else s.chain[1..], events := s.events + [Popped(s.heap[x].value)])
    case TakeValue =>
      var x := s.consumer.item;
      if !Live(s, x) then s.(fault := true) else s.(consumer := Took(x, s.heap[x].value))
    case Delete =>
      s.(heap := s.heap - {s.consumer.item}, consumer := Idle, returned := s.returned + [s.consumer.value])
  }

  /** The state after a run; actions that are not possible where they stand are skipped. */
  function Execute<T>(actions: seq<Action<T>>): State<T> {
    if actions == [] then Initial()
    else
      var s := Execute(actions[..|actions| - 1]);
      var a := actions[|actions| - 1];
      if Enabled(s, a) then Next(s, a) else s
  }

  // ---- The stack it implements ----

  /** The stack, top first, after the events; a pop must take exactly what is on top. */
  function Replay<T(==)>(events: seq<Event<T>>): (r: (bool, seq<T>)) {
    if events == [] then (true, [])
    else
      var (ok, stack) := Replay(events[..|events| - 1]);
      match events[|events| - 1]
      case Pushed(v) => (ok, [v] + stack)
      case Popped(v) => if stack == [] then (false, []) else (ok && stack[0] == v, stack[1..])
  }

  function Pops<T>(events: seq<Event<T>>): seq<T> {
    if events == [] then []
    else
      Pops(events[..|events| - 1]) +
      (match events[|events| - 1] case Pushed(_) => [] case Popped(v) => [v])
  }

  function Pushes<T>(events: seq<Event<T>>): seq<T> {
    if events == [] then []
    else
      Pushes(events[..|events| - 1]) +
      (match events[|events| - 1] case Pushed(v) => [v] case Popped(_) => [])
  }

  lemma {:induction false} ReplayConserves<T>(events: seq<Event<T>>)
    requires Replay(events).0
    ensures multiset(Pushes(events)) == multiset(Replay(events).1) + multiset(Pops(events))
  {
    if events != [] {
      var stack := Replay(events[..|events| - 1]).1;
      if Replay(events[..|events| - 1]).0 {
        ReplayConserves(events[..|events| - 1]);
      }
      if events[|events| - 1].Popped? && stack != [] {
        assert stack == [stack[0]] + stack[1..];
      }
    }
  }

  // ---- What every state keeps ----

  /** `chain` is the list linked from `top`: it ends in null, every item is alive, and none comes twice. */
  ghost predicate Linked<T>(heap: map<Addr, Item<T>>, top: Addr, chain: seq<Addr>)
    decreases |chain|
  {
    if chain == [] then top == 0
    else
      top != 0 && top == chain[0] && top in heap && top !in chain[1..] && Linked(heap, heap[top].next, chain[1..])
  }

  /** The values along the list. */
  ghost function Values<T>(heap: map<Addr, Item<T>>, chain: seq<Addr>): seq<T>
    requires forall x :: x in chain ==> x in heap
  {
    if chain == [] then [] else [heap[chain[0]].value] + Values(heap, chain[1..])
  }

  /** The item the consumer alone may still touch. */
  ghost predicate Held<T>(c: Consumer<T>, x: Addr) {
    (c.Unlinked? || c.Took?) && c.item == x
  }

  ghost predicate ProducersApart<T>(s: State<T>) {
    && 0 !in s.heap
    && (forall p :: p in s.producers ==> s.producers[p].item in s.heap && s.producers[p].item !in s.chain)
    && (forall p :: p in s.producers ==> !Held(s.consumer, s.producers[p].item))
    && (forall p, q :: p in s.producers && q in s.producers && p != q ==> s.producers[p].item != s.producers[q].item)
    && (forall p :: p in s.producers && s.producers[p].Aimed? ==>
          s.producers[p].seen <= |s.events|
          && (s.producers[p].seen == |s.events| ==> s.heap[s.producers[p].item].next == s.top))
  }

  ghost predicate ConsumerSafe<T>(s: State<T>) {
    match s.consumer
    case Idle => true
    case Looking(x, seen) => x in s.chain && seen <= |s.events| && (seen == |s.events| ==> s.top == x)
    case Poised(x, next, seen) =>
      && x in s.chain && x in s.heap && s.heap[x].next == next
      && seen <= |s.events| && (seen == |s.events| ==> s.top == x)
    case Unlinked(x) => x in s.heap && x !in s.chain
    case Took(x, v) => x in s.heap && x !in s.chain && s.heap[x].value == v
  }

  /** What the consumer has popped but not yet returned. */
  ghost function InHand<T>(s: State<T>): seq<T> {
    match s.consumer
    case Unlinked(x) => if x in s.heap then [s.heap[x].value] else []
    case Took(_, v) => [v]
    case _ => []
  }

  ghost predicate Inv<T(!new)>(s: State<T>) {
    && !s.fault
    && Linked(s.heap, s.top, s.chain) && (forall x :: x in s.chain ==> x in s.heap && x != 0)
    && ProducersApart(s) && ConsumerSafe(s)
    && Replay(s.events) == (true, Values(s.heap, s.chain))
    && Pops(s.events) == s.returned + InHand(s)
  }

  /** Writes to other items change nothing about the list. */
  lemma {:induction false} LinkedElsewhere<T>(heap: map<Addr, Item<T>>, heap': map<Addr, Item<T>>, top: Addr, chain: seq<Addr>)
    requires Linked(heap, top, chain)
    requires forall x :: x in chain ==> x in heap && x in heap' && heap[x] == heap'[x]
    ensures Linked(heap', top, chain) && Values(heap', chain) == Values(heap, chain)
    decreases |chain|
  {
    if chain != [] {
      LinkedElsewhere(heap, heap', heap[top].next, chain[1..]);
    }
  }

  lemma LinkedPush<T>(heap: map<Addr, Item<T>>, top: Addr, chain: seq<Addr>, x: Addr)
    requires Linked(heap, top, chain) && x in heap && x != 0 && x !in chain && heap[x].next == top
    requires forall y :: y in chain ==> y in heap
    ensures Linked(heap, x, [x] + chain) && Values(heap, [x] + chain) == [heap[x].value] + Values(heap, chain)
  {
    assert ([x] + chain)[1..] == chain;
  }

  lemma LinkedPop<T>(heap: map<Addr, Item<T>>, top: Addr, chain: seq<Addr>)
    requires Linked(heap, top, chain) && chain != []
    requires forall y :: y in chain ==> y in heap
    ensures top == chain[0] && top in heap && top !in chain[1..]
    ensures Linked(heap, heap[top].next, chain[1..])
    ensures Values(heap, chain) == [heap[top].value] + Values(heap, chain[1..])
  {
  }

  /** One more event. */
  lemma EventAppended<T>(events: seq<Event<T>>, e: Event<T>)
    ensures var (ok, stack) := Replay(events);
            Replay(events + [e]) == match e
              case Pushed(v) => (ok, [v] + stack)
              case Popped(v) => if stack == [] then (false, []) else (ok && stack[0] == v, stack[1..])
    ensures Pops(events + [e]) == Pops(events) + (match e case Pushed(_) => [] case Popped(v) => [v])
  {
    assert (events + [e])[..|events|] == events;
  }

  lemma AllocateKeeps<T(!new)>(s: State<T>, p: nat, x: Addr, v: T)
    requires Inv(s) && Enabled(s, Allocate(p, x, v))
    ensures Inv(Next(s, Allocate(p, x, v)))
  {
    LinkedElsewhere(s.heap, Next(s, Allocate(p, x, v)).heap, s.top, s.chain);
    hide Linked, Values, Replay, Pops;
  }

  lemma ReadHeadKeeps<T(!new)>(s: State<T>, p: nat)
    requires Inv(s) && Enabled(s, ReadHead(p))
    ensures Inv(Next(s, ReadHead(p)))
  {
    LinkedElsewhere(s.heap, Next(s, ReadHead(p)).heap, s.top, s.chain);
    hide Linked, Values, Replay, Pops;
    var s' := Next(s, ReadHead(p));
    assert ConsumerSafe(s');
    assert InHand(s') == InHand(s);
    assert ProducersApart(s');
  }

  lemma LinkExchangeKeeps<T(!new)>(s: State<T>, p: nat)
    requires Inv(s) && Enabled(s, LinkExchange(p))
    ensures Inv(Next(s, LinkExchange(p)))
  {
    var x := s.producers[p].item;
    var s' := Next(s, LinkExchange(p));
    if s.top == s.heap[x].next {
      LinkedPush(s.heap, s.top, s.chain, x);
      EventAppended(s.events, Pushed(s.heap[x].value));
      hide Linked, Values, Replay, Pops;
      assert ConsumerSafe(s');
      assert InHand(s') == InHand(s);
      assert ProducersApart(s');
      assert Pops(s'.events) == Pops(s.events) + [];
    }
  }

  lemma UnlinkExchangeKeeps<T(!new)>(s: State<T>)
    requires Inv(s) && Enabled(s, UnlinkExchange)
    ensures Inv(Next(s, UnlinkExchange))
  {
    var s' := Next(s, UnlinkExchange);
    if s.top == s.consumer.item {
      LinkedPop(s.heap, s.top, s.chain);
      EventAppended(s.events, Popped(s.heap[s.top].value));
      hide Linked, Values, Replay, Pops;
      var v := s.heap[s.top].value;
      assert ([v] + Values(s.heap, s'.chain))[1..] == Values(s.heap, s'.chain);
      assert ConsumerSafe(s');
      assert ProducersApart(s');
      assert InHand(s) == [] && InHand(s') == [v];
      assert s.returned + [] + [v] == s.returned + [v];
    }
  }

  lemma DeleteKeeps<T(!new)>(s: State<T>)
    requires Inv(s) && Enabled(s, Delete)
    ensures Inv(Next(s, Delete))
  {
    LinkedElsewhere(s.heap, Next(s, Delete).heap, s.top, s.chain);
    hide Linked, Values, Replay, Pops;
    var s' := Next(s, Delete);
    assert s'.returned + [] == s'.returned;
    assert ProducersApart(s');
  }

  /** Every step of every thread keeps the invariant. */
  lemma StepKeeps<T(!new)>(s: State<T>, a: Action<T>)
    requires Inv(s) && Enabled(s, a)
    ensures Inv(Next(s, a))
  {
    match a
    case Allocate(p, x, v) => AllocateKeeps(s, p, x, v);
    case ReadHead(p) => ReadHeadKeeps(s, p);
    case LinkExchange(p) => LinkExchangeKeeps(s, p);
    case LookAtHead =>
    case LoadNext =>
    case UnlinkExchange => UnlinkExchangeKeeps(s);
    case TakeValue =>
    case Delete => DeleteKeeps(s);
  }

  lemma {:induction false} RunKeeps<T(!new)>(actions: seq<Action<T>>)
    ensures Inv(Execute(actions))
  {
    if actions != [] {
      var before := actions[..|actions| - 1];
      RunKeeps(before);
      if Enabled(Execute(before), actions[|actions| - 1]) {
        StepKeeps(Execute(before), actions[|actions| - 1]);
      }
    }
  }

  /**
   * In every run no deleted item is touched, the list from the head is sound, and the successful
   * exchanges are the operations of one stack: each pop takes the value linked last, every linked
   * value is in the list, in the consumer's hand or returned once, and nothing else ever is.
   */
  lemma RunIsStack<T(!new)>(actions: seq<Action<T>>)
    ensures var s := Execute(actions);
            && !s.fault && Linked(s.heap, s.top, s.chain) && (forall x :: x in s.chain ==> x in s.heap)
            && Replay(s.events) == (true, Values(s.heap, s.chain))
            && Pops(s.events) == s.returned + InHand(s)
            && multiset(Pushes(s.events)) == multiset(Values(s.heap, s.chain)) + multiset(s.returned) + multiset(InHand(s))
  {
    RunKeeps(actions);
    ReplayConserves(Execute(actions).events);
  }

  /** An exchange fails only if some other push or pop has completed since the head was read. */
  lemma FailureMeansProgress<T(!new)>(actions: seq<Action<T>>, p: nat)
    ensures var s := Execute(actions);
            (p in s.producers && s.producers[p].Aimed? && s.producers[p].item in s.heap
             && s.heap[s.producers[p].item].next != s.top) ==> |s.events| > s.producers[p].seen
    ensures var s := Execute(actions);
            (s.consumer.Poised? && s.top != s.consumer.item) ==> |s.events| > s.consumer.seen
  {
    RunKeeps(actions);
  }

  // ---- Whole operations ----

  /** The steps of a pop, if nobody comes between them. */
  function PopSteps<T>(): seq<Action<T>> {
    [LookAtHead, LoadNext, UnlinkExchange, TakeValue, Delete]
  }

  function PushSteps<T>(p: nat, x: Addr, v: T): seq<Action<T>> {
    [Allocate(p, x, v), ReadHead(p), LinkExchange(p)]
  }

  function Step<T>(s: State<T>, a: Action<T>): State<T> {
    if Enabled(s, a) then Next(s, a) else s
  }

  lemma ExecuteAppend<T>(actions: seq<Action<T>>, a: Action<T>)
    ensures Execute(actions + [a]) == Step(Execute(actions), a)
  {
    assert (actions + [a])[..|actions|] == actions;
  }

  lemma ExecutePop<T>(actions: seq<Action<T>>)
    ensures Execute(actions + PopSteps())
         == Step(Step(Step(Step(Step(Execute(actions), LookAtHead), LoadNext), UnlinkExchange), TakeValue), Delete)
  {
    hide Execute, Step;
    var one := actions + [LookAtHead];
    var two := one + [LoadNext];
    var three := two + [UnlinkExchange];
    var four := three + [TakeValue];
    ExecuteAppend(actions, LookAtHead);
    ExecuteAppend(one, LoadNext);
    ExecuteAppend(two, UnlinkExchange);
    ExecuteAppend(three, TakeValue);
    ExecuteAppend(four, Delete);
    assert actions + PopSteps() == four + [Delete];
  }

  lemma ExecutePush<T>(actions: seq<Action<T>>, p: nat, x: Addr, v: T)
    ensures Execute(actions + PushSteps(p, x, v))
         == Step(Step(Step(Execute(actions), Allocate(p, x, v)), ReadHead(p)), LinkExchange(p))
  {
    hide Execute, Step;
    var one := actions + [Allocate(p, x, v)];
    var two := one + [ReadHead(p)];
    ExecuteAppend(actions, Allocate(p, x, v));
    ExecuteAppend(one, ReadHead(p));
    ExecuteAppend(two, LinkExchange(p));
    assert actions + PushSteps(p, x, v) == two + [LinkExchange(p)];
  }

  /**
   * In every reachable state a pop that nobody disturbs takes the value on top and returns it, and finds
   * nothing and changes nothing if there is none.
   */
  lemma PopCompletes<T(!new)>(actions: seq<Action<T>>)
    requires Execute(actions).consumer.Idle?
    ensures var s, s' := Execute(actions), Execute(actions + PopSteps());
            && (s.chain == [] ==> s' == s)
            && (forall x :: x in s.chain ==> x in s.heap) && (forall x :: x in s'.chain ==> x in s'.heap)
            && (s.chain != [] ==>
                  && s'.consumer.Idle? && s'.chain == s.chain[1..] && s'.producers == s.producers
                  && s'.returned == s.returned + [s.heap[s.chain[0]].value]
                  && Values(s'.heap, s'.chain) == Values(s.heap, s.chain)[1..])
  {
    RunKeeps(actions);
    RunKeeps(actions + PopSteps());
    ExecutePop(actions);
    var s, s' := Execute(actions), Execute(actions + PopSteps());
    hide Execute, Replay, Pops;
    if s.chain != [] {
      LinkedPop(s.heap, s.top, s.chain);
      LinkedElsewhere(s.heap, s'.heap, s.heap[s.top].next, s.chain[1..]);
    }
  }

  /** In every reachable state a push that nobody disturbs puts its value on top. */
  lemma PushCompletes<T(!new)>(actions: seq<Action<T>>, p: nat, x: Addr, v: T)
    requires Enabled(Execute(actions), Allocate(p, x, v))
    ensures var s, s' := Execute(actions), Execute(actions + PushSteps(p, x, v));
            && (forall y :: y in s.chain ==> y in s.heap) && (forall y :: y in s'.chain ==> y in s'.heap)
            && s'.chain == [x] + s.chain && s'.producers == s.producers && s'.consumer == s.consumer
            && s'.returned == s.returned && s'.heap.Keys == s.heap.Keys + {x}
            && Values(s'.heap, s'.chain) == [v] + Values(s.heap, s.chain)
  {
    RunKeeps(actions);
    ExecutePush(actions, p, x, v);
    var s, s' := Execute(actions), Execute(actions + PushSteps(p, x, v));
    hide Execute, Replay, Pops;
    assert s'.producers == s.producers;
    LinkedElsewhere(s.heap, s'.heap, s.top, s.chain);
    LinkedPush(s'.heap, s.top, s.chain, x);
  }

  /** An operation from its call to its return; a push is told its thread and the address it is given. */
  datatype Call<T> = Push(p: nat, x: Addr, value: T) | Pop

  function Steps<T>(c: Call<T>): seq<Action<T>> {
    match c
    case Push(p, x, v) => PushSteps(p, x, v)
    case Pop => PopSteps()
  }

  function AllSteps<T>(calls: seq<Call<T>>): seq<Action<T>> {
    if calls == [] then [] else AllSteps(calls[..|calls| - 1]) + Steps(calls[|calls| - 1])
  }

  /** Every push is given an address that is free at that time. */
  ghost predicate Callable<T>(calls: seq<Call<T>>) {
    calls != [] ==>
      var front, c := calls[..|calls| - 1], calls[|calls| - 1];
      Callable(front) && (c.Push? ==> c.x != 0 && c.x !in Execute(AllSteps(front)).heap)
  }

  /** A stack, top first, and what has been popped off it; popping an empty one does nothing. */
  function Stack<T>(calls: seq<Call<T>>): (seq<T>, seq<T>) {
    if calls == [] then ([], [])
    else
      var (stack, out) := Stack(calls[..|calls| - 1]);
      match calls[|calls| - 1]
      case Push(_, _, v) => ([v] + stack, out)
      case Pop => if stack == [] then (stack, out) else (stack[1..], out + [stack[0]])
  }

  /** Whole pushes and pops, in any order, hold and return what a stack does. */
  lemma {:induction false} CallsAreStack<T(!new)>(calls: seq<Call<T>>)
    requires Callable(calls)
    ensures var s := Execute(AllSteps(calls));
            && s.consumer.Idle? && s.producers == map[] && (forall x :: x in s.chain ==> x in s.heap)
            && (Values(s.heap, s.chain), s.returned) == Stack(calls)
  {
    if calls != [] {
      var front := AllSteps(calls[..|calls| - 1]);
      CallsAreStack(calls[..|calls| - 1]);
      match calls[|calls| - 1]
      case Push(p, x, v) => PushCompletes(front, p, x, v);
      case Pop => PopCompletes(front);
    }
  }
}

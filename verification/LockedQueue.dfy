/** The queue with a lock and a condition variable: any number of producers, one consumer. */
module LockedQueue {

  /** A producer inside `push`, by what it has done last. */
  datatype Producer<T> = Locked(value: T) | Appended(wasEmpty: bool) | MustNotify

  /** The consumer: outside, inside `wait_pop` or `try_pop` with the lock, or in the condition's wait. */
  datatype Consumer<T> =
    | Outside
    | Checking(blocking: bool)
    | Asleep
    | Awake
    | Leaving(popped: seq<T>)

  datatype Owner = Free | ByProducer(p: nat) | ByConsumer

  /** `pushed` and `popped` only record the values in the order in which they went in and came out. */
  datatype State<T> = State(
    items: seq<T>, owner: Owner, producers: map<nat, Producer<T>>, consumer: Consumer<T>,
    pushed: seq<T>, popped: seq<T>)

  datatype Action<T> =
    | Lock(p: nat, value: T)
    | Append(p: nat)
    | Unlock(p: nat)
    | Notify(p: nat)
    | Enter(blocking: bool)
    | Check
    | Spurious
    | Relock
    | Leave

  function Initial<T>(): State<T> {
    State([], Free, map[], Outside, [], [])
  }

  predicate Enabled<T>(s: State<T>, a: Action<T>) {
    match a
    case Lock(p, _) => p !in s.producers && s.owner.Free?
    case Append(p) => p in s.producers && s.producers[p].Locked?
    case Unlock(p) => p in s.producers && s.producers[p].Appended?
    case Notify(p) => p in s.producers && s.producers[p].MustNotify?
    case Enter(_) => s.consumer.Outside? && s.owner.Free?
    case Check => s.consumer.Checking?
    case Spurious => s.consumer.Asleep?
    case Relock => s.consumer.Awake? && s.owner.Free?
    case Leave => s.consumer.Leaving?
  }

  function Next<T>(s: State<T>, a: Action<T>): State<T>
    requires Enabled(s, a)
  {
    match a
    case Lock(p, v) => s.(owner := ByProducer(p), producers := s.producers[p := Locked(v)])
    case Append(p) =>
      var v := s.producers[p].value;
      s.(producers := s.producers[p := Appended(s.items == [])], items := s.items + [v], pushed := s.pushed + [v])
    case Unlock(p) =>
      s.(owner := Free,
         producers := if s.producers[p].wasEmpty then s.producers[p := MustNotify] else s.producers - {p})
    case Notify(p) =>
      s.(producers := s.producers - {p}, consumer := if s.consumer.Asleep? then Awake else s.consumer)
    case Enter(blocking) => s.(owner := ByConsumer, consumer := Checking(blocking))
    case Check =>
      if s.items != [] then
        s.(items := s.items[1..], popped := s.popped + [s.items[0]], consumer := Leaving([s.items[0]]))
      else if s.consumer.blocking then s.(owner := Free, consumer := Asleep)
      else s.(consumer := Leaving([]))
    case Spurious => s.(consumer := Awake)
    case Relock => s.(owner := ByConsumer, consumer := Checking(true))
    case Leave => s.(owner := Free, consumer := Outside)
  }

  /** The state after a run; actions that are not possible where they stand are skipped. */
  function Execute<T>(actions: seq<Action<T>>): State<T> {
    if actions == [] then Initial()
    else
      var s := Execute(actions[..|actions| - 1]);
      var a := actions[|actions| - 1];
      if Enabled(s, a) then Next(s, a) else s
  }

  /** A producer that is still to notify, whether it holds the lock or stands behind the unlock. */
  predicate WillNotify<T>(s: State<T>, p: nat) {
    p in s.producers && (s.producers[p].MustNotify? || (s.producers[p].Appended? && s.producers[p].wasEmpty))
  }

  ghost predicate Inv<T>(s: State<T>) {
    && s.pushed == s.popped + s.items
    && (forall p :: p in s.producers && !s.producers[p].MustNotify? <==> s.owner == ByProducer(p))
    && (s.consumer.Checking? || s.consumer.Leaving? <==> s.owner == ByConsumer)
    && (s.consumer.Asleep? && s.items != [] ==> exists p :: WillNotify(s, p))
    && (s.consumer.Leaving? && s.consumer.popped != [] ==> s.popped != [] && s.consumer.popped == [s.popped[|s.popped| - 1]])
  }

  lemma StepKeeps<T(!new)>(s: State<T>, a: Action<T>)
    requires Inv(s) && Enabled(s, a)
    ensures Inv(Next(s, a))
  {
    var s' := Next(s, a);
    if s'.consumer.Asleep? && s'.items != [] {
      if s.items == [] {
        assert WillNotify(s', a.p);
      } else {
        var p :| WillNotify(s, p);
        assert WillNotify(s', p);
      }
    }
  }

  lemma {:induction false} RunKeeps<T(!new)>(actions: seq<Action<T>>)
    ensures Inv(Execute(actions))
  {
    if actions != [] {
      var before := actions[..|actions| - 1];
      RunKeeps(before);
      if Enabled(Execute(before), actions[|actions| - 1]) {
        StepKeeps(Execute(before), actions[|actions| - 1]);
      }
    }
  }

  /** The values come out in the order in which they went in, and only while holding the lock. */
  lemma RunIsFifo<T(!new)>(actions: seq<Action<T>>)
    ensures Execute(actions).popped <= Execute(actions).pushed
    ensures Execute(actions).pushed[|Execute(actions).popped|..] == Execute(actions).items
  {
    RunKeeps(actions);
  }

  /**
   * No wakeup is lost: a consumer asleep on a queue that holds something is woken by producers that
   * only have to finish the push they are in.
   */
  lemma NoLostWakeup<T(!new)>(actions: seq<Action<T>>) returns (finish: seq<Action<T>>)
    requires Execute(actions).consumer.Asleep? && Execute(actions).items != []
    ensures |finish| <= 2 && forall k :: 0 <= k < |finish| ==> finish[k].Unlock? || finish[k].Notify?
    ensures Execute(actions + finish).consumer.Awake?
    ensures Execute(actions + finish).items == Execute(actions).items
  {
    RunKeeps(actions);
    var s := Execute(actions);
    var p :| WillNotify(s, p);
    if s.producers[p].MustNotify? {
      finish := [Notify(p)];
      ExecuteAppend(actions, Notify(p));
    } else {
      finish := [Unlock(p), Notify(p)];
      ExecuteAppend(actions, Unlock(p));
      ExecuteAppend(actions + [Unlock(p)], Notify(p));
      assert actions + [Unlock(p)] + [Notify(p)] == actions + finish;
    }
  }

  lemma ExecuteAppend<T>(actions: seq<Action<T>>, a: Action<T>)
    ensures Execute(actions + [a]) == if Enabled(Execute(actions), a) then Next(Execute(actions), a) else Execute(actions)
  {
    assert (actions + [a])[..|actions|] == actions;
  }

  // ---- Whole operations ----

  function Step<T>(s: State<T>, a: Action<T>): State<T> {
    if Enabled(s, a) then Next(s, a) else s
  }

  lemma ExecuteTwo<T>(actions: seq<Action<T>>, a: Action<T>, b: Action<T>)
    ensures Execute(actions + [a, b]) == Step(Step(Execute(actions), a), b)
  {
    hide Execute, Next, Enabled;
    ExecuteAppend(actions, a);
    ExecuteAppend(actions + [a], b);
    assert actions + [a, b] == actions + [a] + [b];
  }

  /** What a pop hands to its caller is the value it has taken out last. */
  lemma HandsOutLast<T(!new)>(actions: seq<Action<T>>)
    requires Execute(actions).consumer.Leaving? && Execute(actions).consumer.popped != []
    ensures var s := Execute(actions); s.popped != [] && s.consumer.popped == [s.popped[|s.popped| - 1]]
  {
    RunKeeps(actions);
  }

  /**
   * In every reachable state with the lock free, a pop takes the value in front; on an empty queue `try_pop`
   * leaves with nothing and `wait_pop` falls asleep without the lock.
   */
  lemma PopCompletes<T(!new)>(actions: seq<Action<T>>, blocking: bool)
    requires Execute(actions).owner.Free? && Execute(actions).consumer.Outside?
    ensures var s, s' := Execute(actions), Execute(actions + [Enter(blocking), Check]);
            && s'.producers == s.producers && s'.pushed == s.pushed
            && (s.items != [] ==> s'.consumer == Leaving([s.items[0]]) && s'.popped == s.popped + [s.items[0]]
                                  && s'.items == s.items[1..] && s'.owner == ByConsumer)
            && (s.items == [] ==> s'.items == [] && s'.popped == s.popped)
            && (s.items == [] && !blocking ==> s'.consumer == Leaving([]) && s'.owner == ByConsumer)
            && (s.items == [] && blocking ==> s'.consumer == Asleep && s'.owner == Free)
    ensures Execute(actions).items != [] || !blocking ==>
              var s, s' := Execute(actions + [Enter(blocking), Check]), Execute(actions + [Enter(blocking), Check] + [Leave]);
              s' == s.(consumer := Outside, owner := Free)
  {
    ExecuteTwo(actions, Enter(blocking), Check);
    ExecuteAppend(actions + [Enter(blocking), Check], Leave);
    hide Execute;
  }

  function PushSteps<T>(p: nat, v: T): seq<Action<T>> {
    [Lock(p, v), Append(p), Unlock(p), Notify(p)]
  }

  lemma ExecutePush<T>(actions: seq<Action<T>>, p: nat, v: T)
    ensures Execute(actions + PushSteps(p, v))
         == Step(Step(Step(Step(Execute(actions), Lock(p, v)), Append(p)), Unlock(p)), Notify(p))
  {
    hide Execute, Step;
    ExecuteTwo(actions, Lock(p, v), Append(p));
    ExecuteTwo(actions + [Lock(p, v), Append(p)], Unlock(p), Notify(p));
    assert actions + PushSteps(p, v) == actions + [Lock(p, v), Append(p)] + [Unlock(p), Notify(p)];
  }

  /** In every reachable state with the lock free, a push puts its value behind the others and wakes a sleeper. */
  lemma PushCompletes<T(!new)>(actions: seq<Action<T>>, p: nat, v: T)
    requires Enabled(Execute(actions), Lock(p, v))
    ensures var s, s' := Execute(actions), Execute(actions + PushSteps(p, v));
            && s'.items == s.items + [v] && s'.producers == s.producers && s'.owner == Free && s'.popped == s.popped
            && s'.consumer == if s.items == [] && s.consumer.Asleep? then Awake else s.consumer
  {
    ExecutePush(actions, p, v);
    hide Execute;
    var s := Execute(actions);
    assert s.producers[p := Locked(v)][p := Appended(s.items == [])] - {p} == s.producers;
    assert s.producers[p := Locked(v)][p := Appended(s.items == [])][p := MustNotify] - {p} == s.producers;
  }

  /** Steps with which producers finish the push they are in. */
  predicate Finishing<T>(a: Action<T>) {
    a.Append? || a.Unlock? || a.Notify?
  }

  /** While the consumer sleeps, whoever has the lock gives it back within two steps. */
  lemma LockGetsFree<T(!new)>(actions: seq<Action<T>>) returns (finish: seq<Action<T>>)
    requires Execute(actions).consumer.Asleep?
    ensures |finish| <= 2 && forall k :: 0 <= k < |finish| ==> Finishing(finish[k])
    ensures var s, s' := Execute(actions), Execute(actions + finish);
            s'.owner.Free? && s'.consumer.Asleep? && s.items <= s'.items && s'.popped == s.popped
  {
    RunKeeps(actions);
    var s := Execute(actions);
    assert actions + [] == actions;
    match s.owner
    case Free => finish := [];
    case ByConsumer => finish := [];
    case ByProducer(q) =>
      if s.producers[q].Locked? {
        finish := [Append(q), Unlock(q)];
        ExecuteTwo(actions, Append(q), Unlock(q));
      } else {
        finish := [Unlock(q)];
        ExecuteAppend(actions, Unlock(q));
      }
      hide Execute;
  }

  /**
   * A consumer asleep on a queue that holds something gets the value in front: producers only have to finish
   * the pushes they are in, and then it wakes up, takes the lock and leaves with the value.
   */
  lemma SleeperGetsValue<T(!new)>(actions: seq<Action<T>>) returns (finish: seq<Action<T>>)
    requires Execute(actions).consumer.Asleep? && Execute(actions).items != []
    ensures |finish| <= 3 && forall k :: 0 <= k < |finish| ==> Finishing(finish[k])
    ensures var s, s' := Execute(actions), Execute(actions + finish + [Relock, Check]);
            s'.consumer == Leaving([s.items[0]]) && s'.popped == s.popped + [s.items[0]]
  {
    var free := LockGetsFree(actions);
    RunKeeps(actions + free);
    var p :| WillNotify(Execute(actions + free), p);
    finish := free + [Notify(p)];
    ExecuteAppend(actions + free, Notify(p));
    assert actions + free + [Notify(p)] == actions + finish;
    ExecuteTwo(actions + finish, Relock, Check);
    hide Execute;
  }

  /** An operation from its call to its return. */
  datatype Call<T> = Push(p: nat, value: T) | TryPop

  function Steps<T>(c: Call<T>): seq<Action<T>> {
    match c
    case Push(p, v) => PushSteps(p, v)
    case TryPop => [Enter(false), Check] + [Leave]
  }

  function AllSteps<T>(calls: seq<Call<T>>): seq<Action<T>> {
    if calls == [] then [] else AllSteps(calls[..|calls| - 1]) + Steps(calls[|calls| - 1])
  }

  /** A queue, front first, and what has been popped off it; popping an empty one does nothing. */
  function Fifo<T>(calls: seq<Call<T>>): (seq<T>, seq<T>) {
    if calls == [] then ([], [])
    else
      var (queue, out) := Fifo(calls[..|calls| - 1]);
      match calls[|calls| - 1]
      case Push(_, v) => (queue + [v], out)
      case TryPop => if queue == [] then (queue, out) else (queue[1..], out + [queue[0]])
  }

  /** Whole pushes and pops, in any order, hold and hand out what a queue does. */
  lemma {:induction false} CallsAreFifo<T(!new)>(calls: seq<Call<T>>)
    ensures var s := Execute(AllSteps(calls));
            s.owner.Free? && s.consumer.Outside? && s.producers == map[] && (s.items, s.popped) == Fifo(calls)
  {
    if calls != [] {
      var front := AllSteps(calls[..|calls| - 1]);
      CallsAreFifo(calls[..|calls| - 1]);
      match calls[|calls| - 1]
      case Push(p, v) => PushCompletes(front, p, v);
      case TryPop =>
        PopCompletes(front, false);
        assert front + ([Enter(false), Check] + [Leave]) == front + [Enter(false), Check] + [Leave];
        hide Execute;
    }
  }
}

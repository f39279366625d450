/** What becomes of the players' input: which state the physics thread has for each character. */
module Inputs {
  import opened Text
  import opened WireCodec
  import opened Replication
  import opened StackReplication

  /** The state that `c` has sent last since it was loaded; nothing is pressed at first. */
  ghost function Pressed(baddies: seq<Baddie>, nextId: nat, ops: seq<Op>, c: Client): InputState {
    if ops == [] then 0
    else
      var front, op := ops[..|ops| - 1], ops[|ops| - 1];
      var s, before := Execute(baddies, nextId, front), Pressed(baddies, nextId, front, c);
      if Legal(s, op) then PressedBy(s, op, c, before) else before
  }

  function PressedBy(s: State, op: Op, c: Client, before: InputState): InputState {
    match op
    case Load(d, _) => if d == c then 0 else before
    case SendInput(d, state) => if d == c then state else before
    case _ => before
  }

  function StateOf(characters: map<Id, InputState>, id: Id): Option<InputState> {
    if id in characters then Some(characters[id]) else None
  }

  /** What one message does to the state of the character `id`, which is the client's. */
  function Pressing(state: Option<InputState>, m: PhysicsMsg, c: Client, id: Id): Option<InputState> {
    match m
    case AddChar(i) => if i == id then Some(0) else state
    case DelChar(i) => if i == id then None else state
    case FromClient(d, pressed) => if d == c && state.Some? then Some(pressed) else state
  }

  function StateAfter(state: Option<InputState>, msgs: seq<PhysicsMsg>, c: Client, id: Id): Option<InputState> {
    if msgs == [] then state else Pressing(StateAfter(state, msgs[..|msgs| - 1], c, id), msgs[|msgs| - 1], c, id)
  }

  lemma StateAppend(state: Option<InputState>, msgs: seq<PhysicsMsg>, m: PhysicsMsg, c: Client, id: Id)
    ensures StateAfter(state, msgs + [m], c, id) == Pressing(StateAfter(state, msgs, c, id), m, c, id)
  {
    assert (msgs + [m])[..|msgs|] == msgs;
  }

  lemma {:induction false} StateFirst(state: Option<InputState>, msgs: seq<PhysicsMsg>, c: Client, id: Id)
    requires msgs != []
    ensures StateAfter(Pressing(state, msgs[0], c, id), msgs[1..], c, id) == StateAfter(state, msgs, c, id)
    decreases |msgs|
  {
    if |msgs| == 1 {
      assert msgs[..0] == [] && msgs[1..] == [];
    } else {
      var front := msgs[..|msgs| - 1];
      StateFirst(state, front, c, id);
      assert msgs[1..][..|msgs| - 2] == front[1..];
      hide Pressing;
    }
  }

  /** The character of a loaded client will have the state that the client sent last. */
  ghost predicate InputSound(s: State, c: Client, pressed: InputState) {
    c in s.clients ==>
      StateAfter(StateOf(s.characters, s.clients[c]), s.physicsQueue, c, s.clients[c]) == Some(pressed)
  }

  /** What one step sends to the physics thread. */
  lemma StepQueues(s: State, op: Op)
    requires IdsSound(s) && Legal(s, op) && !op.PhysicsTakes?
    ensures Apply(s, op).characters == s.characters
    ensures Apply(s, op).physicsQueue
         == match op
            case Load(_, _) => s.physicsQueue + [AddChar(s.nextId)]
            case Disconnect(d) => if d in s.clients then s.physicsQueue + [DelChar(s.clients[d])] else s.physicsQueue
            case SendInput(d, state) => s.physicsQueue + [FromClient(d, state)]
            case _ => s.physicsQueue
  {
    hide SendAll, Greetings, Broadcast, BaddieIds;
    match op
    case Tick(trans) => TransformsAlone(s, trans);
    case _ =>
  }

  /** No two clients share a character. */
  lemma OwnId(s: State, c: Client)
    requires Inv(s) && c in s.clients
    ensures IdsSound(s) && s.clients[c] < s.nextId < U32 && forall d :: d in s.clients && d != c ==> s.clients[d] != s.clients[c]
  {
    hide BaddieIds, TablesSound, ViewsSound, PhysicsSound;
  }

  lemma InvIds(s: State)
    requires Inv(s)
    ensures IdsSound(s) && s.clients.Keys !! s.lobby
  {
  }

  lemma QueueKeepsInput(s: State, op: Op, c: Client, pressed: InputState)
    requires Inv(s) && Legal(s, op) && InputSound(s, c, pressed) && !op.PhysicsTakes?
    ensures InputSound(Apply(s, op), c, PressedBy(s, op, c, pressed))
  {
    hide Inv, IdsSound, Apply, StateAfter, StateOf, BaddieIds;
    InvIds(s);
    StepQueues(s, op);
    ClientsChange(s, op);
    if c in s.clients {
      OwnId(s, c);
    }
    var q, s' := s.physicsQueue, Apply(s, op);
    if c in s'.clients {
      var id := s'.clients[c];
      var state := StateOf(s.characters, id);
      match op
      case Load(_, _) => StateAppend(state, q, AddChar(s.nextId), c, id);
      case Disconnect(d) =>
        if d in s.clients {
          StateAppend(state, q, DelChar(s.clients[d]), c, id);
        }
      case SendInput(d, sent) => StateAppend(state, q, FromClient(d, sent), c, id);
      case _ =>
    }
  }

  lemma TakeKeepsInput(s: State, c: Client, pressed: InputState)
    requires Inv(s) && Legal(s, PhysicsTakes) && InputSound(s, c, pressed)
    ensures InputSound(PhysicsReceives(s), c, pressed)
  {
    hide Inv, StateAfter, PhysicsReceives, StateOf;
    TakenKeepsTables(s);
    if c in s.clients {
      OwnId(s, c);
      StateFirst(StateOf(s.characters, s.clients[c]), s.physicsQueue, c, s.clients[c]);
      TakenPresses(s, c);
    }
  }

  lemma TakenKeepsTables(s: State)
    requires Legal(s, PhysicsTakes)
    ensures PhysicsReceives(s).clients == s.clients && PhysicsReceives(s).physicsQueue == s.physicsQueue[1..]
  {
    PhysicsChanges(s);
    hide PhysicsReceives;
  }

  /** What taking a message does to one character. */
  lemma TakenPresses(s: State, c: Client)
    requires Legal(s, PhysicsTakes) && c in s.clients
    requires forall d :: d in s.clients && d != c ==> s.clients[d] != s.clients[c]
    ensures var id := s.clients[c];
            StateOf(PhysicsReceives(s).characters, id) == Pressing(StateOf(s.characters, id), s.physicsQueue[0], c, id)
  {
  }

  lemma {:induction false} RunKeepsInput(baddies: seq<Baddie>, nextId: nat, ops: seq<Op>, c: Client)
    requires SoundWorld(baddies, nextId)
    ensures InputSound(Execute(baddies, nextId, ops), c, Pressed(baddies, nextId, ops, c))
    decreases |ops|
  {
    hide Inv, Legal, Apply, PressedBy;
    if ops != [] {
      var front, op := ops[..|ops| - 1], ops[|ops| - 1];
      RunKeepsInput(baddies, nextId, front, c);
      RunKeeps(baddies, nextId, front);
      var s := Execute(baddies, nextId, front);
      if Legal(s, op) {
        StepKeepsInput(s, op, c, Pressed(baddies, nextId, front, c));
      }
    }
  }

  lemma StepKeepsInput(s: State, op: Op, c: Client, pressed: InputState)
    requires Inv(s) && Legal(s, op) && InputSound(s, c, pressed)
    ensures InputSound(Apply(s, op), c, PressedBy(s, op, c, pressed))
  {
    if op.PhysicsTakes? {
      TakeKeepsInput(s, c, pressed);
    } else {
      QueueKeepsInput(s, op, c, pressed);
    }
    hide *;
  }

  /**
   * Input arrives: in every run over queues in order, once the physics thread has taken all that waits, the
   * character of a loaded client is there and has the state that the client sent last since it was loaded.
   */
  lemma InputArrives(baddies: seq<Baddie>, nextId: nat, ops: seq<Op>, c: Client)
    requires SoundWorld(baddies, nextId)
    ensures var s := Execute(baddies, nextId, ops);
            c in s.clients && s.physicsQueue == [] ==>
              s.clients[c] in s.characters && s.characters[s.clients[c]] == Pressed(baddies, nextId, ops, c)
  {
    RunKeepsInput(baddies, nextId, ops, c);
  }
}

/** What a client shows for each object: its colour, and where it was moved last. */
module Display {
  import opened Text
  import opened WireCodec
  import opened Replication
  import opened StackReplication

  // ---- By the position of the messages ----

  predicate AddsAt(msgs: seq<ClientMsg>, id: Id, j: nat) {
    j < |msgs| && msgs[j].AddDrawable? && msgs[j].id == id
  }

  predicate DropsAt(msgs: seq<ClientMsg>, id: Id, j: nat) {
    j < |msgs| && msgs[j].DelDrawable? && msgs[j].id == id
  }

  predicate MovesAt(msgs: seq<ClientMsg>, id: Id, j: nat) {
    j < |msgs| && msgs[j].TransDrawable? && msgs[j].id == id
  }

  ghost predicate StaysFrom(msgs: seq<ClientMsg>, id: Id, j: nat) {
    AddsAt(msgs, id, j) && forall k :: j < k < |msgs| ==> !DropsAt(msgs, id, k)
  }

  /** Message `j` is the one that put `id` on display: it was not there before, and nothing has removed it since. */
  ghost predicate ShownSince(msgs: seq<ClientMsg>, id: Id, j: nat) {
    && StaysFrom(msgs, id, j)
    && forall i :: 0 <= i < j && AddsAt(msgs, id, i) ==> exists k :: i < k < j && DropsAt(msgs, id, k)
  }

  /** Message `k` is the last transform for `id`. */
  ghost predicate MovedLast(msgs: seq<ClientMsg>, id: Id, k: nat) {
    MovesAt(msgs, id, k) && forall i :: k < i < |msgs| ==> !MovesAt(msgs, id, i)
  }

  /** The name of a template, as the text has it. */
  function Bytes(s: string): seq<Byte>
    requires forall k :: 0 <= k < |s| ==> s[k] < 256 as char
  {
    seq(|s|, k requires 0 <= k < |s| => s[k] as int as Byte)
  }

  /** Players are green, baddies red, and everything else white. */
  lemma Colors(templ: seq<Byte>)
    ensures ColorOf(templ) == Green <==> templ == Bytes("Player")
    ensures ColorOf(templ) == Red <==> templ == Bytes("Baddie")
  {
    assert Bytes("Player") == PLAYER && Bytes("Baddie") == BADDIE;
    assert PLAYER[0] != BADDIE[0];
  }

  /** The first message that adds `id` for good. */
  lemma {:induction false} EarliestStay(msgs: seq<ClientMsg>, id: Id, i: nat) returns (j: nat)
    requires StaysFrom(msgs, id, i)
    ensures ShownSince(msgs, id, j)
    decreases i
  {
    if i' :| 0 <= i' < i && StaysFrom(msgs, id, i') {
      j := EarliestStay(msgs, id, i');
    } else {
      j := i;
      forall h | 0 <= h < j && AddsAt(msgs, id, h) ensures exists k :: h < k < j && DropsAt(msgs, id, k) {
        assert !StaysFrom(msgs, id, h);
        var k :| h < k < |msgs| && DropsAt(msgs, id, k);
      }
    }
  }

  lemma {:induction false} ShownByPosition(msgs: seq<ClientMsg>, id: Id)
    ensures id in Drained(map[], msgs) <==> exists j: nat :: StaysFrom(msgs, id, j)
  {
    if msgs != [] {
      var n := |msgs| - 1;
      var front := msgs[..n];
      ShownByPosition(front, id);
      ReceiveShows(Drained(map[], front), msgs[n]);
      if j: nat :| StaysFrom(front, id, j) {
        FrontStays(msgs, id, j);
      }
      if j: nat :| StaysFrom(msgs, id, j) && j < n {
        FrontStays(msgs, id, j);
      }
      if AddsAt(msgs, id, n) {
        assert StaysFrom(msgs, id, n);
      }
    }
  }

  lemma FrontStays(msgs: seq<ClientMsg>, id: Id, j: nat)
    requires msgs != [] && j < |msgs| - 1
    ensures StaysFrom(msgs, id, j) <==> StaysFrom(msgs[..|msgs| - 1], id, j) && !DropsAt(msgs, id, |msgs| - 1)
  {
    var n := |msgs| - 1;
    var front := msgs[..n];
    assert forall k :: 0 <= k < n ==> front[k] == msgs[k];
    assert forall k :: 0 <= k < n ==> (DropsAt(front, id, k) <==> DropsAt(msgs, id, k));
  }

  lemma NotThereBefore(msgs: seq<ClientMsg>, id: Id, j: nat)
    requires ShownSince(msgs, id, j) && j == |msgs| - 1
    ensures id !in Drained(map[], msgs[..j])
  {
    var front := msgs[..j];
    ShownByPosition(front, id);
    forall i: nat ensures !StaysFrom(front, id, i) {
      if AddsAt(front, id, i) {
        assert AddsAt(msgs, id, i);
        var k :| i < k < j && DropsAt(msgs, id, k);
        assert DropsAt(front, id, k);
      }
    }
  }

  /** The drawable has the colour of the template that added it, and the last transform since then, if any. */
  ghost predicate LooksAs(view: map<Id, Drawable>, msgs: seq<ClientMsg>, id: Id, j: nat)
    requires AddsAt(msgs, id, j)
  {
    && id in view && view[id].color == ColorOf(msgs[j].templ)
    && ((forall k :: j < k < |msgs| ==> !MovesAt(msgs, id, k)) ==> view[id].matrix == None)
    && (forall k :: j < k < |msgs| && MovedLast(msgs, id, k) ==> view[id].matrix == Some(msgs[k].transform))
  }

  lemma {:induction false} LookSince(msgs: seq<ClientMsg>, id: Id, j: nat)
    requires ShownSince(msgs, id, j)
    ensures LooksAs(Drained(map[], msgs), msgs, id, j)
    decreases |msgs|
  {
    var n := |msgs| - 1;
    var front := msgs[..n];
    if j == n {
      NotThereBefore(msgs, id, j);
    } else {
      FrontStays(msgs, id, j);
      assert ShownSince(front, id, j) by {
        forall i | 0 <= i < j && AddsAt(front, id, i) ensures exists k :: i < k < j && DropsAt(front, id, k) {
          assert AddsAt(msgs, id, i);
          var k :| i < k < j && DropsAt(msgs, id, k);
          assert DropsAt(front, id, k);
        }
      }
      LookSince(front, id, j);
      LookStays(Drained(map[], front), msgs, id, j);
    }
  }

  lemma LookStays(view: map<Id, Drawable>, msgs: seq<ClientMsg>, id: Id, j: nat)
    requires j < |msgs| - 1 && StaysFrom(msgs, id, j) && LooksAs(view, msgs[..|msgs| - 1], id, j)
    ensures LooksAs(Receive(view, msgs[|msgs| - 1]), msgs, id, j)
  {
    var n := |msgs| - 1;
    var front, m := msgs[..n], msgs[n];
    assert !DropsAt(msgs, id, n) && front[j] == msgs[j];
    forall k | 0 <= k < n ensures MovesAt(front, id, k) <==> MovesAt(msgs, id, k) && front[k] == msgs[k] {
    }
    var view' := Receive(view, m);
    assert id in view' && view'[id].color == view[id].color;
    if MovesAt(msgs, id, n) {
      assert view'[id].matrix == Some(m.transform);
      hide Receive, ColorOf;
      forall k | j < k < |msgs| && MovedLast(msgs, id, k) ensures k == n {
      }
    } else {
      assert view'[id].matrix == view[id].matrix;
      hide Receive, ColorOf;
      forall k | j < k < |msgs| && MovedLast(msgs, id, k) ensures k < n && MovedLast(front, id, k) {
      }
    }
  }

  /**
   * What a display that was empty shows after any messages, by where they stand: the identifiers that were
   * added and not removed since, each with the colour of the template that added it and the transform that
   * was the last to name it since then, or none.
   */
  lemma DisplayByPosition(msgs: seq<ClientMsg>, id: Id)
    ensures id in Drained(map[], msgs) <==> exists j: nat :: ShownSince(msgs, id, j)
    ensures forall j: nat :: ShownSince(msgs, id, j) ==> LooksAs(Drained(map[], msgs), msgs, id, j)
  {
    ShownByPosition(msgs, id);
    if j: nat :| StaysFrom(msgs, id, j) {
      var first := EarliestStay(msgs, id, j);
    }
    forall j: nat | ShownSince(msgs, id, j) ensures LooksAs(Drained(map[], msgs), msgs, id, j) {
      LookSince(msgs, id, j);
    }
  }

  // ---- By the operations of a run ----

  /** The last transform for `id` in a list. */
  function LastNamed(trans: seq<(Id, Matrix)>, id: Id): Option<Matrix> {
    if trans == [] then None
    else if trans[|trans| - 1].0 == id then Some(trans[|trans| - 1].1)
    else LastNamed(trans[..|trans| - 1], id)
  }

  /**
   * Where `id` was moved last, of what `c` can know: since it connected and, if the object came later, since
   * that was loaded.
   */
  ghost function LastMove(baddies: seq<Baddie>, nextId: nat, ops: seq<Op>, c: Client, id: Id): Option<Matrix> {
    if ops == [] then None
    else
      var front, op := ops[..|ops| - 1], ops[|ops| - 1];
      var s, before := Execute(baddies, nextId, front), LastMove(baddies, nextId, front, c, id);
      if Legal(s, op) then MoveBy(s, op, c, id, before) else before
  }

  function MoveBy(s: State, op: Op, c: Client, id: Id, before: Option<Matrix>): Option<Matrix> {
    match op
    case Connect(d, _) => if d == c then None else before
    case Load(_, _) => if s.nextId == id then None else before
    case Tick(trans) => if LastNamed(trans, id) != None then LastNamed(trans, id) else before
    case _ => before
  }

  /** The template with which the player `id` was loaded. */
  ghost function Template(baddies: seq<Baddie>, nextId: nat, ops: seq<Op>, id: Id): seq<Byte> {
    if ops == [] then []
    else
      var front, op := ops[..|ops| - 1], ops[|ops| - 1];
      var s, before := Execute(baddies, nextId, front), Template(baddies, nextId, front, id);
      if Legal(s, op) && op.Load? && s.nextId == id then op.templ else before
  }

  /** Baddies have the colour of their template, and so have players loaded later; those already there are green. */
  ghost predicate RightColor(s: State, c: Client, id: Id, templ: seq<Byte>, color: Color)
    requires c in s.joined
  {
    && (forall k :: 0 <= k < |s.baddies| && s.baddies[k].id == id ==> color == ColorOf(s.baddies[k].templ))
    && (id !in BaddieIds(s) ==> color == if id < s.joined[c] then Green else ColorOf(templ))
  }

  /** What `c` will show for `id` once it has taken all that waits. */
  ghost predicate LooksRight(s: State, c: Client, id: Id, move: Option<Matrix>, templ: seq<Byte>) {
    c in s.inbox && c in s.views && c in s.joined && id in Drained(s.views[c], s.inbox[c]) ==>
      var d := Drained(s.views[c], s.inbox[c])[id];
      d.matrix == move && RightColor(s, c, id, templ, d.color)
  }

  // ---- What the steps say ----

  /** What a connected client hears in a step. */
  function Said(s: State, op: Op, c: Client): seq<ClientMsg> {
    match op
    case Disconnect(d) => if d in s.clients then [DelDrawable(s.clients[d])] else []
    case Load(d, templ) => if (c in s.clients || c == d) && s.nextId < U32 then [AddDrawable(s.nextId, templ)] else []
    case Tick(trans) => Moves(trans)
    case _ => []
  }

  function Moves(trans: seq<(Id, Matrix)>): (msgs: seq<ClientMsg>)
    ensures |msgs| == |trans| && forall k :: 0 <= k < |trans| ==> msgs[k] == TransDrawable(trans[k].0, trans[k].1)
  {
    seq(|trans|, k requires 0 <= k < |trans| => TransDrawable(trans[k].0, trans[k].1))
  }

  lemma MovesGrow(msgs: seq<ClientMsg>, trans: seq<(Id, Matrix)>)
    ensures msgs + Moves([]) == msgs
    ensures trans != [] ==>
              var last := trans[|trans| - 1];
              msgs + Moves(trans[..|trans| - 1]) + [TransDrawable(last.0, last.1)] == msgs + Moves(trans)
  {
  }

  lemma {:induction false} TicksSay(s: State, trans: seq<(Id, Matrix)>, c: Client)
    requires ServerSound(s) && c in s.inbox
    ensures var s' := PushTransforms(s, trans); c in s'.inbox && s'.inbox[c] == s.inbox[c] + Moves(trans)
    decreases |trans|
  {
    hide ServerSound, SendAll, SameServer, Moves;
    MovesGrow(s.inbox[c], trans);
    if trans != [] {
      var n := |trans| - 1;
      var s', last := PushTransforms(s, trans[..n]), trans[n];
      TicksSay(s, trans[..n], c);
      TicksKeepServer(s, trans[..n]);
      SoundTables(s');
      SendAllReaches(s', TransDrawable(last.0, last.1));
    }
  }

  lemma StepSays(s: State, op: Op, c: Client)
    requires ServerSound(s) && Legal(s, op) && op != ClientTakes(c) && c in s.inbox && c in Apply(s, op).inbox
    ensures c in s.views && c in Apply(s, op).views && Apply(s, op).views[c] == s.views[c]
    ensures Apply(s, op).inbox[c] == s.inbox[c] + Said(s, op, c)
  {
    hide SendAll, Greetings, IdsSound, TablesSound, Moves, Visible;
    SoundTables(s);
    assert s.inbox[c] + [] == s.inbox[c];
    match op
    case Disconnect(d) =>
      RemoveKeys(s, d);
      if d in s.clients {
        RemovalSends(s, d, DelDrawable(s.clients[d]));
        SendAllReaches(Left(s, d), DelDrawable(s.clients[d]));
      }
    case Tick(trans) =>
      TicksSay(s, trans, c);
      TransformsAlone(s, trans);
    case PhysicsTakes => PhysicsChanges(s);
    case _ =>
  }

  // ---- What the steps do to the display to come ----

  /** The display once all that waits has been taken. */
  function Coming(s: State, c: Client): map<Id, Drawable>
    requires c in s.views && c in s.inbox
  {
    Drained(s.views[c], s.inbox[c])
  }

  lemma {:induction false} MovesLook(view: map<Id, Drawable>, msgs: seq<ClientMsg>, trans: seq<(Id, Matrix)>, id: Id)
    ensures var before, after := Drained(view, msgs), Drained(view, msgs + Moves(trans));
            && (id in after <==> id in before)
            && (id in before ==> after[id] == if LastNamed(trans, id) == None then before[id]
                                              else before[id].(matrix := LastNamed(trans, id)))
    decreases |trans|
  {
    MovesGrow(msgs, trans);
    if trans != [] {
      var n := |trans| - 1;
      MovesLook(view, msgs, trans[..n], id);
      DrainedAppend(view, msgs + Moves(trans[..n]), TransDrawable(trans[n].0, trans[n].1));
      hide Moves, Drained;
    }
  }

  /** Whoever stays connected has the same tables about itself. */
  lemma SameJoined(s: State, op: Op, c: Client)
    requires ServerSound(s) && Legal(s, op) && c in s.inbox && c in Apply(s, op).inbox
    ensures op != Disconnect(c)
    ensures c in s.joined && c in Apply(s, op).joined && Apply(s, op).joined[c] == s.joined[c]
    ensures Apply(s, op).baddies == s.baddies
  {
    hide SendAll, Greetings, IdsSound, Visible;
    SoundTables(s);
    ClientsChange(s, op);
    match op
    case Disconnect(d) => RemoveKeys(s, d);
    case Tick(trans) => TransformsAlone(s, trans);
    case PhysicsTakes => PhysicsChanges(s);
    case _ =>
  }

  lemma NewIdUnseen(s: State, c: Client)
    requires Inv(s) && c in s.inbox
    ensures c in s.views && c in s.joined && s.joined[c] <= s.nextId
    ensures s.nextId !in BaddieIds(s) && forall id :: id in Coming(s, c) ==> id < s.nextId
  {
    hide PhysicsSound, Drained;
    forall id | id in Visible(s, c) ensures id < s.nextId {
    }
  }

  lemma StaysRight(s: State, s': State, c: Client, id: Id, move: Option<Matrix>, templ: seq<Byte>)
    requires c in s.inbox && c in s.views && c in s.joined && c in s'.inbox && c in s'.views && c in s'.joined
    requires s'.joined[c] == s.joined[c] && s'.baddies == s.baddies
    requires LooksRight(s, c, id, move, templ)
    requires id in Coming(s', c) ==> id in Coming(s, c) && Coming(s', c)[id] == Coming(s, c)[id]
    ensures LooksRight(s', c, id, move, templ)
  {
    hide Drained;
    assert BaddieIds(s') == BaddieIds(s);
  }

  /** What is said decides what will be shown. */
  lemma StepComing(s: State, op: Op, c: Client)
    requires ServerSound(s) && Legal(s, op) && op != ClientTakes(c) && c in s.inbox && c in Apply(s, op).inbox
    ensures c in s.views && c in Apply(s, op).views
    ensures Coming(Apply(s, op), c) == Drained(s.views[c], s.inbox[c] + Said(s, op, c))
    ensures Said(s, op, c) == [] ==> Coming(Apply(s, op), c) == Coming(s, c)
    ensures |Said(s, op, c)| == 1 ==> Coming(Apply(s, op), c) == Receive(Coming(s, c), Said(s, op, c)[0])
  {
    hide ServerSound, Legal, Apply, Said, Drained, Receive;
    StepSays(s, op, c);
    var said := Said(s, op, c);
    if said == [] {
      assert s.inbox[c] + said == s.inbox[c];
    } else if |said| == 1 {
      DrainedAppend(s.views[c], s.inbox[c], said[0]);
      assert said == [said[0]];
    }
  }

  lemma InvServer(s: State)
    requires Inv(s)
    ensures ServerSound(s)
  {
  }

  lemma LoadLooks(s: State, d: Client, templ: seq<Byte>, c: Client, id: Id, move: Option<Matrix>, before: seq<Byte>)
    requires Inv(s) && Legal(s, Load(d, templ)) && c in s.inbox && c in Replication.LoadPlayer(s, d, templ).inbox
    requires LooksRight(s, c, id, move, before)
    ensures LooksRight(Replication.LoadPlayer(s, d, templ), c, id, if s.nextId == id then None else move,
                       if s.nextId == id then templ else before)
  {
    hide Inv, ServerSound, Coming, Drained, Replication.LoadPlayer, BaddieIds, RightColor, LooksRight;
    var s', op := Replication.LoadPlayer(s, d, templ), Load(d, templ);
    InvServer(s);
    NewIdUnseen(s, c);
    SameJoined(s, op, c);
    StepComing(s, op, c);
    LooksComing(s, c, id, move, before);
    if s.nextId == id {
      NewLooks(s, s', c, id, templ);
    } else {
      StaysRight(s, s', c, id, move, before);
    }
  }

  lemma LooksComing(s: State, c: Client, id: Id, move: Option<Matrix>, templ: seq<Byte>)
    requires c in s.inbox && c in s.views && c in s.joined
    ensures LooksRight(s, c, id, move, templ)
            <==> (id in Coming(s, c) ==> Coming(s, c)[id].matrix == move && RightColor(s, c, id, templ, Coming(s, c)[id].color))
  {
  }

  lemma NewLooks(s: State, s': State, c: Client, id: Id, templ: seq<Byte>)
    requires c in s.inbox && c in s.views && c in s.joined && c in s'.inbox && c in s'.views && c in s'.joined
    requires s'.joined[c] == s.joined[c] <= id && s'.baddies == s.baddies && id !in BaddieIds(s) && id !in Coming(s, c)
    requires Coming(s', c) == Coming(s, c) || Coming(s', c) == Receive(Coming(s, c), AddDrawable(id, templ))
    ensures LooksRight(s', c, id, None, templ)
  {
    hide Drained;
    assert BaddieIds(s') == BaddieIds(s);
  }

  lemma RemovalLooks(s: State, d: Client, c: Client, id: Id, move: Option<Matrix>, templ: seq<Byte>)
    requires Inv(s) && Legal(s, Disconnect(d)) && c in s.inbox && c in RemoveClient(s, d).inbox
    requires LooksRight(s, c, id, move, templ)
    ensures LooksRight(RemoveClient(s, d), c, id, move, templ)
  {
    hide Inv, ServerSound, Coming, Drained, RemoveClient, BaddieIds, RightColor, LooksRight;
    InvServer(s);
    SameJoined(s, Disconnect(d), c);
    StepComing(s, Disconnect(d), c);
    StaysRight(s, RemoveClient(s, d), c, id, move, templ);
  }

  lemma TickLooks(s: State, trans: seq<(Id, Matrix)>, c: Client, id: Id, move: Option<Matrix>, templ: seq<Byte>)
    requires Inv(s) && c in s.inbox && c in PushTransforms(s, trans).inbox
    requires LooksRight(s, c, id, move, templ)
    ensures LooksRight(PushTransforms(s, trans), c, id, if LastNamed(trans, id) != None then LastNamed(trans, id) else move, templ)
  {
    hide Inv, ServerSound, Drained, PushTransforms, BaddieIds, RightColor, LooksRight, Moves;
    InvServer(s);
    SameJoined(s, Tick(trans), c);
    StepComing(s, Tick(trans), c);
    MovesLook(s.views[c], s.inbox[c], trans, id);
    LooksComing(s, c, id, move, templ);
    MovedRight(s, PushTransforms(s, trans), c, id, move, templ, LastNamed(trans, id));
  }

  lemma MovedRight(s: State, s': State, c: Client, id: Id, move: Option<Matrix>, templ: seq<Byte>, last: Option<Matrix>)
    requires c in s.inbox && c in s.views && c in s.joined && c in s'.inbox && c in s'.views && c in s'.joined
    requires s'.joined[c] == s.joined[c] && s'.baddies == s.baddies && LooksRight(s, c, id, move, templ)
    requires id in Coming(s', c) ==>
               id in Coming(s, c)
               && Coming(s', c)[id] == if last == None then Coming(s, c)[id] else Coming(s, c)[id].(matrix := last)
    ensures LooksRight(s', c, id, if last != None then last else move, templ)
  {
    hide Drained;
    assert BaddieIds(s') == BaddieIds(s);
  }

  /** A newcomer finds baddies in the colours of their templates and green players, none of them moved yet. */
  lemma NewcomerLooks(s: State, c: Client, order: seq<Client>, id: Id, templ: seq<Byte>)
    requires Inv(s) && Legal(s, Connect(c, order))
    ensures LooksRight(AddClient(s, c, order), c, id, None, templ)
  {
    hide Drained, Greetings, Visible, ViewsSound, PhysicsSound, TablesSound, LooksAs, RightColor, AddClient, IdsSound, Lists;
    ListsKnown(order, s.clients);
    var s', msgs := AddClient(s, c, order), Greetings(s.clients, order, s.baddies);
    NewcomerQueue(s, c, order);
    NewcomerJoins(s, c, order);
    DisplayByPosition(msgs, id);
    if id in Drained(map[], msgs) {
      var j: nat :| ShownSince(msgs, id, j);
      GreetedRight(s, order, j);
      GreetedLooks(s, s', c, msgs, id, j, templ);
    }
  }

  lemma ListsKnown(order: seq<Client>, clients: map<Client, Id>)
    requires Lists(order, clients)
    ensures forall x :: x in order ==> x in clients
  {
  }

  lemma NewcomerJoins(s: State, c: Client, order: seq<Client>)
    requires forall x :: x in order ==> x in s.clients
    ensures var s' := AddClient(s, c, order); c in s'.joined && s'.joined[c] == s.nextId && s'.baddies == s.baddies
    ensures c !in s.views ==> AddClient(s, c, order).views == s.views[c := map[]]
    ensures var msgs := Greetings(s.clients, order, s.baddies);
            |msgs| == |order| + |s.baddies| && forall k :: 0 <= k < |msgs| ==> msgs[k].AddDrawable?
  {
  }

  lemma GreetedLooks(s: State, s': State, c: Client, msgs: seq<ClientMsg>, id: Id, j: nat, templ: seq<Byte>)
    requires c in s'.joined && s'.joined[c] == s.nextId && s'.baddies == s.baddies && id < s.nextId
    requires (forall k :: 0 <= k < |msgs| ==> msgs[k].AddDrawable?) && AddsAt(msgs, id, j)
    requires LooksAs(Drained(map[], msgs), msgs, id, j)
    requires forall k :: 0 <= k < |s.baddies| && s.baddies[k].id == id ==> msgs[j].templ == s.baddies[k].templ
    requires id !in BaddieIds(s) ==> msgs[j].templ == PLAYER
    ensures id in Drained(map[], msgs)
    ensures var d := Drained(map[], msgs)[id]; d.matrix == None && RightColor(s', c, id, templ, d.color)
  {
    hide Drained;
    Colors(PLAYER);
    assert PLAYER == Bytes("Player");
    assert BaddieIds(s') == BaddieIds(s);
  }

  lemma GreetedRight(s: State, order: seq<Client>, j: nat)
    requires IdsSound(s) && Lists(order, s.clients) && j < |order| + |s.baddies|
    ensures var m := Greetings(s.clients, order, s.baddies)[j];
            && m.AddDrawable? && m.id < s.nextId
            && (forall k :: 0 <= k < |s.baddies| && s.baddies[k].id == m.id ==> m.templ == s.baddies[k].templ)
            && (m.id !in BaddieIds(s) ==> m.templ == PLAYER)
  {
    if j < |order| {
      assert order[j] in s.clients;
    } else {
      assert s.baddies[j - |order|].id in BaddieIds(s);
    }
  }

  lemma TakeLooks(s: State, c: Client, id: Id, move: Option<Matrix>, templ: seq<Byte>)
    requires Inv(s) && Legal(s, ClientTakes(c)) && LooksRight(s, c, id, move, templ)
    ensures LooksRight(ClientReceives(s, c), c, id, move, templ)
  {
    hide Inv, Drained, BaddieIds, RightColor, LooksRight, Receive;
    InvServer(s);
    SoundTables(s);
    hide ServerSound;
    DrainFirst(s.views[c], s.inbox[c]);
    StaysRight(s, ClientReceives(s, c), c, id, move, templ);
  }

  lemma QuietLooks(s: State, op: Op, c: Client, id: Id, move: Option<Matrix>, templ: seq<Byte>)
    requires Inv(s) && Legal(s, op) && c in s.inbox && c in Apply(s, op).inbox && op != ClientTakes(c)
    requires op.SendInput? || op.PhysicsTakes? || op.ClientTakes? || op.Connect?
    requires LooksRight(s, c, id, move, templ)
    ensures LooksRight(Apply(s, op), c, id, move, templ)
  {
    hide Inv, ServerSound, Coming, Drained, Apply, Legal, BaddieIds, RightColor, LooksRight;
    InvServer(s);
    SameJoined(s, op, c);
    StepComing(s, op, c);
    StaysRight(s, Apply(s, op), c, id, move, templ);
  }

  lemma StepLooks(s: State, op: Op, c: Client, id: Id, move: Option<Matrix>, templ: seq<Byte>)
    requires Inv(s) && Legal(s, op) && LooksRight(s, c, id, move, templ)
    ensures LooksRight(Apply(s, op), c, id, MoveBy(s, op, c, id, move), if op.Load? && s.nextId == id then op.templ else templ)
  {
    hide Inv, LooksRight, LastNamed, ServerSound;
    InvServer(s);
    if c !in Apply(s, op).inbox {
      NothingLooks(Apply(s, op), c, id, MoveBy(s, op, c, id, move), if op.Load? && s.nextId == id then op.templ else templ);
    } else if c !in s.inbox {
      NewcomerConnects(s, op, c);
      NewcomerLooks(s, c, op.order, id, templ);
    } else if op == ClientTakes(c) {
      TakeLooks(s, c, id, move, templ);
    } else {
      SoundTables(s);
      match op
      case Load(d, t) => LoadLooks(s, d, t, c, id, move, templ);
      case Disconnect(d) => RemovalLooks(s, d, c, id, move, templ);
      case Tick(trans) => TickLooks(s, trans, c, id, move, templ);
      case _ => QuietLooks(s, op, c, id, move, templ);
    }
  }

  lemma NothingLooks(s: State, c: Client, id: Id, move: Option<Matrix>, templ: seq<Byte>)
    requires c !in s.inbox
    ensures LooksRight(s, c, id, move, templ)
  {
  }

  lemma {:induction false} RunLooks(baddies: seq<Baddie>, nextId: nat, ops: seq<Op>, c: Client, id: Id)
    requires SoundWorld(baddies, nextId)
    ensures LooksRight(Execute(baddies, nextId, ops), c, id, LastMove(baddies, nextId, ops, c, id),
                       Template(baddies, nextId, ops, id))
    decreases |ops|
  {
    hide Inv, Legal, Apply, LooksRight, MoveBy;
    if ops == [] {
      NothingLooks(Initial(baddies, nextId), c, id, None, []);
    } else {
      var front, op := ops[..|ops| - 1], ops[|ops| - 1];
      RunLooks(baddies, nextId, front, c, id);
      RunKeeps(baddies, nextId, front);
      var s := Execute(baddies, nextId, front);
      if Legal(s, op) {
        StepLooks(s, op, c, id, LastMove(baddies, nextId, front, c, id), Template(baddies, nextId, front, id));
      }
    }
  }

  /**
   * In every run a client with an empty inbox shows each object where the last tick moved it that named it
   * since the client knew it, or nowhere yet, and in the colour of its template; the players that were there
   * when it connected are green whatever their template.
   */
  lemma ShowsLastMove(baddies: seq<Baddie>, nextId: nat, ops: seq<Op>, c: Client, id: Id)
    requires SoundWorld(baddies, nextId)
    ensures var s := Execute(baddies, nextId, ops);
            (c in s.inbox && s.inbox[c] == [] ==> c in s.views && c in s.joined) &&
            (c in s.inbox && s.inbox[c] == [] && id in s.views[c] ==>
               && s.views[c][id].matrix == LastMove(baddies, nextId, ops, c, id)
               && RightColor(s, c, id, Template(baddies, nextId, ops, id), s.views[c][id].color))
  {
    RunLooks(baddies, nextId, ops, c, id);
    RunKeeps(baddies, nextId, ops);
    hide Visible, LiveIds, RightColor, IdsSound, PhysicsSound, LastMove, Template, Execute;
  }
}

/**
 * The replication protocol over the lock-free queues of the default build, which hand out the newest
 * message first.
 */
module StackReplication {
  import opened WireCodec
  import opened Replication
  import opened StackOrder
  import LocklessQueue

  // ---- What the messages say about identifiers ----

  function ClientNotice(m: ClientMsg): Notice {
    match m
    case AddDrawable(id, _) => Adds(id)
    case DelDrawable(id) => Drops(id)
    case _ => Silent
  }

  function ClientNotices(msgs: seq<ClientMsg>): (ns: seq<Notice>)
    ensures |ns| == |msgs| && forall k :: 0 <= k < |msgs| ==> ns[k] == ClientNotice(msgs[k])
  {
    seq(|msgs|, k requires 0 <= k < |msgs| => ClientNotice(msgs[k]))
  }

  function PhysicsNotice(m: PhysicsMsg): Notice {
    match m
    case AddChar(id) => Adds(id)
    case DelChar(id) => Drops(id)
    case FromClient(_, _) => Silent
  }

  function PhysicsNotices(msgs: seq<PhysicsMsg>): (ns: seq<Notice>)
    ensures |ns| == |msgs| && forall k :: 0 <= k < |msgs| ==> ns[k] == PhysicsNotice(msgs[k])
  {
    seq(|msgs|, k requires 0 <= k < |msgs| => PhysicsNotice(msgs[k]))
  }

  lemma {:induction false} DisplayFollows(view: map<Id, Drawable>, msgs: seq<ClientMsg>)
    ensures Drained(view, msgs).Keys == After(view.Keys, ClientNotices(msgs))
  {
    if msgs != [] {
      var k := |msgs| - 1;
      DisplayFollows(view, msgs[..k]);
      ReceiveShows(Drained(view, msgs[..k]), msgs[k]);
      assert ClientNotices(msgs)[..k] == ClientNotices(msgs[..k]);
    }
  }

  lemma {:induction false} CharactersFollow(ids: set<Id>, msgs: seq<PhysicsMsg>)
    ensures CharactersAfter(ids, msgs) == After(ids, PhysicsNotices(msgs))
    ensures DeletesPresent(ids, msgs) <==> DropsPresent(ids, PhysicsNotices(msgs))
  {
    if msgs != [] {
      var k := |msgs| - 1;
      CharactersFollow(ids, msgs[..k]);
      assert PhysicsNotices(msgs)[..k] == PhysicsNotices(msgs[..k]);
    }
  }

  /** The display once a client has taken all that waits, the newest message first. */
  lemma DisplayNewestFirst(view: map<Id, Drawable>, msgs: seq<ClientMsg>)
    ensures Drained(view, Reversed(msgs)).Keys == After(view.Keys, Reversed(ClientNotices(msgs)))
  {
    DisplayFollows(view, Reversed(msgs));
    assert ClientNotices(Reversed(msgs)) == Reversed(ClientNotices(msgs));
  }

  lemma CharactersNewestFirst(ids: set<Id>, msgs: seq<PhysicsMsg>)
    ensures CharactersAfter(ids, Reversed(msgs)) == After(ids, Reversed(PhysicsNotices(msgs)))
    ensures DeletesPresent(ids, Reversed(msgs)) <==> DropsPresent(ids, Reversed(PhysicsNotices(msgs)))
  {
    CharactersFollow(ids, Reversed(msgs));
    assert PhysicsNotices(Reversed(msgs)) == Reversed(PhysicsNotices(msgs));
  }

  // ---- Runs that take the newest message ----

  /** The newest message moved to where a step takes from. */
  function NewestInFront<T>(q: seq<T>): seq<T> {
    if q == [] then q else [q[|q| - 1]] + q[..|q| - 1]
  }

  /** The state in which the step `op` finds the newest message of its queue in front. */
  ghost function Turned(s: State, op: Op): State {
    match op
    case ClientTakes(c) => if c in s.inbox then s.(inbox := s.inbox[c := NewestInFront(s.inbox[c])]) else s
    case PhysicsTakes => s.(physicsQueue := NewestInFront(s.physicsQueue))
    case _ => s
  }

  ghost predicate StackLegal(s: State, op: Op) {
    Legal(Turned(s, op), op)
  }

  ghost function StackApply(s: State, op: Op): State
    requires StackLegal(s, op)
  {
    Apply(Turned(s, op), op)
  }

  ghost function StackRun(baddies: seq<Baddie>, nextId: nat, ops: seq<Op>): State {
    if ops == [] then Initial(baddies, nextId)
    else
      var s := StackRun(baddies, nextId, ops[..|ops| - 1]);
      if StackLegal(s, ops[|ops| - 1]) then StackApply(s, ops[|ops| - 1]) else s
  }

  // ---- The server's tables ----

  ghost predicate ServerSound(s: State) {
    IdsSound(s) && TablesSound(s)
  }

  lemma ApplyKeepsServer(s: State, op: Op)
    requires ServerSound(s) && Legal(s, op)
    ensures ServerSound(Apply(s, op))
  {
    hide IdsSound, TablesSound, Visible, SendAll, Broadcast, Greetings, LiveIds, BaddieIds;
    match op
    case Connect(c, order) => AddTables(s, c, order);
    case Disconnect(c) => RemoveTables(s, c);
    case Load(c, templ) => LoadKeepsServer(s, c, templ);
    case SendInput(c, state) => SameTables(s, Apply(s, op));
    case Tick(trans) => TicksKeepServer(s, trans);
    case ClientTakes(c) => SameTables(s, Apply(s, op));
    case PhysicsTakes =>
      PhysicsChanges(s);
      SameTables(s, Apply(s, op));
  }

  lemma LoadKeepsServer(s: State, c: Client, templ: seq<Byte>)
    requires ServerSound(s) && c in s.lobby && s.nextId + 1 < U32
    ensures ServerSound(Replication.LoadPlayer(s, c, templ))
  {
    LoadIds(s, c, templ);
    LoadTable(s, c, templ);
    hide *;
  }

  /** What is sent to all reaches everyone with a queue, once. */
  lemma SendAllReaches(s: State, m: ClientMsg)
    requires TablesSound(s)
    ensures SendAll(s, m).Keys == s.inbox.Keys && forall c :: c in s.inbox ==> SendAll(s, m)[c] == s.inbox[c] + [m]
  {
    SendAllOnce(s, m);
    hide SendAll;
  }

  lemma TickKeepsServer(s: State, m: ClientMsg)
    requires ServerSound(s)
    ensures var s' := s.(inbox := SendAll(s, m)); SameServer(s, s') && ServerSound(s')
  {
    SendAllReaches(s, m);
    hide SendAll, IdsSound, TablesSound, LiveIds;
    SameTables(s, s.(inbox := SendAll(s, m)));
  }

  lemma SameServerChain(s: State, s': State, s'': State)
    requires SameServer(s, s') && SameServer(s', s'')
    ensures SameServer(s, s'')
  {
  }

  lemma {:induction false} TicksKeepServer(s: State, trans: seq<(Id, Matrix)>)
    requires ServerSound(s)
    ensures SameServer(s, PushTransforms(s, trans)) && ServerSound(PushTransforms(s, trans))
    decreases |trans|
  {
    hide ServerSound, SameServer, SendAll;
    if trans == [] {
      SameItself(s);
    } else {
      var s', last := PushTransforms(s, trans[..|trans| - 1]), trans[|trans| - 1];
      TicksKeepServer(s, trans[..|trans| - 1]);
      TickKeepsServer(s', TransDrawable(last.0, last.1));
      SameServerChain(s, s', PushTransforms(s, trans));
    }
  }

  lemma SameItself(s: State)
    ensures SameServer(s, s)
  {
  }

  // ---- What a step pushes ----

  function Silence(n: nat): (ns: seq<Notice>)
    ensures |ns| == n && forall k :: 0 <= k < n ==> ns[k] == Silent
  {
    seq(n, _ => Silent)
  }

  /** What a connected client is told in a step. */
  function Told(s: State, op: Op, c: Client): seq<Notice> {
    match op
    case Disconnect(d) => if d in s.clients then [Drops(s.clients[d])] else []
    case Load(d, _) => if c in s.clients || c == d then [Adds(s.nextId)] else []
    case Tick(trans) => Silence(|trans|)
    case _ => []
  }

  lemma ClientNoticesAppend(msgs: seq<ClientMsg>, m: ClientMsg)
    ensures ClientNotices(msgs + [m]) == ClientNotices(msgs) + [ClientNotice(m)]
  {
  }

  lemma {:induction false} TicksAreSilent(s: State, trans: seq<(Id, Matrix)>, c: Client)
    requires ServerSound(s) && c in s.inbox
    ensures var s' := PushTransforms(s, trans);
            c in s'.inbox && ClientNotices(s'.inbox[c]) == ClientNotices(s.inbox[c]) + Silence(|trans|)
    decreases |trans|
  {
    hide ServerSound, SendAll, SameServer, ClientNotices, Silence;
    if trans == [] {
      SilenceGrows(ClientNotices(s.inbox[c]), 0);
    } else {
      var n := |trans| - 1;
      var s', last := PushTransforms(s, trans[..n]), trans[n];
      var m := TransDrawable(last.0, last.1);
      TicksAreSilent(s, trans[..n], c);
      TicksKeepServer(s, trans[..n]);
      SoundTables(s');
      SendAllReaches(s', m);
      ClientNoticesAppend(s'.inbox[c], m);
      SilenceGrows(ClientNotices(s.inbox[c]), n);
    }
  }

  lemma SoundTables(s: State)
    requires ServerSound(s)
    ensures TablesSound(s) && s.inbox.Keys == s.views.Keys == s.joined.Keys == s.clients.Keys + s.lobby
  {
  }

  lemma SilenceGrows(ns: seq<Notice>, n: nat)
    ensures ns + Silence(0) == ns && ns + Silence(n) + [Silent] == ns + Silence(n + 1)
  {
  }

  /** A step that takes nothing out of the client's queue pushes what it is told, and leaves its display alone. */
  lemma StepTells(s: State, op: Op, c: Client)
    requires ServerSound(s) && Legal(s, op) && op != ClientTakes(c) && c in s.inbox && c in Apply(s, op).inbox
    ensures c in s.views && c in Apply(s, op).views && Apply(s, op).views[c] == s.views[c]
    ensures ClientNotices(Apply(s, op).inbox[c]) == ClientNotices(s.inbox[c]) + Told(s, op, c)
  {
    hide SendAll, Broadcast, Greetings, IdsSound, TablesSound, ClientNotices, Silence, Visible;
    SoundTables(s);
    assert ClientNotices(s.inbox[c]) + [] == ClientNotices(s.inbox[c]);
    match op
    case Disconnect(d) =>
      RemoveKeys(s, d);
      RemovalTells(s, d, c);
    case Load(d, templ) => LoadTells(s, d, templ, c);
    case Tick(trans) =>
      TicksAreSilent(s, trans, c);
      TransformsAlone(s, trans);
    case PhysicsTakes => PhysicsChanges(s);
    case _ =>
  }

  lemma LoadTells(s: State, d: Client, templ: seq<Byte>, c: Client)
    requires ServerSound(s) && d in s.lobby && s.nextId + 1 < U32 && c in s.inbox
    ensures var s' := Replication.LoadPlayer(s, d, templ);
            c in s'.inbox && ClientNotices(s'.inbox[c]) == ClientNotices(s.inbox[c]) + Told(s, Load(d, templ), c)
  {
    ClientNoticesAppend(s.inbox[c], AddDrawable(s.nextId, templ));
    assert ClientNotices(s.inbox[c]) + [] == ClientNotices(s.inbox[c]);
    hide ClientNotices, IdsSound;
  }

  lemma RemovalTells(s: State, d: Client, c: Client)
    requires ServerSound(s) && Connected(s, d) && c in s.inbox && c != d
    ensures var s' := RemoveClient(s, d);
            c in s'.inbox && ClientNotices(s'.inbox[c]) == ClientNotices(s.inbox[c]) + Told(s, Disconnect(d), c)
  {
    hide SendAll, IdsSound, ClientNotices;
    assert ClientNotices(s.inbox[c]) + [] == ClientNotices(s.inbox[c]);
    if d in s.clients {
      var m := DelDrawable(s.clients[d]);
      RemovalSends(s, d, m);
      SendAllReaches(Left(s, d), m);
      ClientNoticesAppend(s.inbox[c], m);
    }
  }

  /** The state without the client `d`, before anybody hears of it. */
  function Left(s: State, d: Client): State {
    s.(clients := s.clients - {d}, lobby := s.lobby - {d}, inbox := s.inbox - {d}, views := s.views - {d}, joined := s.joined - {d})
  }

  lemma RemovalSends(s: State, d: Client, m: ClientMsg)
    requires ServerSound(s) && d in s.clients && m == DelDrawable(s.clients[d])
    ensures TablesSound(Left(s, d)) && RemoveClient(s, d).inbox == SendAll(Left(s, d), m)
  {
    hide Broadcast;
    RemoveLeavesTables(s, Left(s, d), d);
  }

  lemma LoadLives(s: State, c: Client, templ: seq<Byte>)
    requires c !in s.clients && s.nextId + 1 < U32
    ensures LiveIds(Replication.LoadPlayer(s, c, templ)) == LiveIds(s) + {s.nextId}
  {
    ValuesAdded(s.clients, c, s.nextId);
    assert BaddieIds(Replication.LoadPlayer(s, c, templ)) == BaddieIds(s);
  }

  // ---- What the clients show ----

  /** Identifiers that have been handed out and stand for nobody any more. */
  ghost predicate Retired(s: State, ids: set<Id>) {
    forall id :: id in ids ==> id < s.nextId && id !in LiveIds(s)
  }

  ghost predicate DropsBelow(ns: seq<Notice>, bound: nat) {
    forall m :: m in ns && m.Drops? ==> m.id < bound
  }

  ghost predicate InboxSound(s: State, c: Client) {
    c in s.inbox ==>
      AddsFirst(ClientNotices(s.inbox[c])) && DropsBelow(ClientNotices(s.inbox[c]), s.nextId)
  }

  /** What the client will show, the newest message first. */
  function Coming(s: State, c: Client): set<nat>
    requires c in s.inbox && c in s.views
  {
    After(s.views[c].Keys, Reversed(ClientNotices(s.inbox[c])))
  }

  /** Taking the newest first, the client will show what it must and the identifiers `over`. */
  ghost predicate DisplaySound(s: State, c: Client, over: set<Id>) {
    && Retired(s, over)
    && (c !in s.inbox ==> over == {})
    && (c in s.inbox ==> c in s.views && c in s.joined && Coming(s, c) == Visible(s, c) + over)
  }

  /** What a step adds to the identifiers whose removal overtakes their announcement to `c`. */
  function OvertakenBy(s: State, op: Op, c: Client, before: set<Id>): set<Id> {
    if !op.Disconnect? then before
    else if op.c == c then {}
    else if op.c in s.clients && Adds(s.clients[op.c]) in ClientNotices(Pending(s.inbox, c)) then before + {s.clients[op.c]}
    else before
  }

  lemma AddsFirstAppend(ns: seq<Notice>, more: seq<Notice>)
    requires AddsFirst(ns)
    requires forall m :: m in more && m.Adds? ==> |more| == 1 && Drops(m.id) !in ns
    ensures AddsFirst(ns + more)
  {
    var all := ns + more;
    forall j, k | 0 <= j < k < |all| && all[j].Drops? && all[k].Adds? ensures all[j].id != all[k].id {
      if k >= |ns| {
        assert all[k] in more;
        assert all[j] == ns[j];
      }
    }
  }

  /** Whoever has a queue that it had not before has just connected, and finds only announcements there. */
  lemma NewcomerConnects(s: State, op: Op, c: Client)
    requires ServerSound(s) && Legal(s, op) && c !in s.inbox && c in Apply(s, op).inbox
    ensures op.Connect? && op.c == c && (forall x :: x in op.order ==> x in s.clients)
    ensures Apply(s, op).inbox[c] == Greetings(s.clients, op.order, s.baddies)
  {
    match op
    case Connect(_, order) => assert [] + Greetings(s.clients, order, s.baddies) == Greetings(s.clients, order, s.baddies);
    case Disconnect(d) => RemoveKeys(s, d);
    case Tick(trans) => TicksKeepServer(s, trans);
    case PhysicsTakes => PhysicsChanges(s);
    case _ =>
  }

  lemma StepKeepsInbox(s: State, op: Op, c: Client)
    requires ServerSound(s) && Legal(s, op) && InboxSound(s, c) && op != ClientTakes(c)
    ensures InboxSound(Apply(s, op), c)
  {
    hide *;
    IdsAscend(s, op);
    if c in Apply(s, op).inbox && c in s.inbox {
      StepTells(s, op, c);
      ToldInOrder(s, op, c);
    } else if c in Apply(s, op).inbox {
      NewcomerConnects(s, op, c);
      GreetingsInOrder(s, op.order, Apply(s, op), c);
    }
    InboxFromParts(s, Apply(s, op), c);
  }

  lemma IdsAscend(s: State, op: Op)
    requires Legal(s, op)
    ensures s.nextId <= Apply(s, op).nextId
  {
    ClientsChange(s, op);
    hide Apply, Legal;
  }

  lemma GreetingsInOrder(s: State, order: seq<Client>, s': State, c: Client)
    requires (forall x :: x in order ==> x in s.clients)
    requires c in s'.inbox && s'.inbox[c] == Greetings(s.clients, order, s.baddies)
    ensures AddsFirst(ClientNotices(s'.inbox[c])) && DropsBelow(ClientNotices(s'.inbox[c]), s.nextId)
  {
    var ns := ClientNotices(s'.inbox[c]);
    assert forall k :: 0 <= k < |ns| ==> ns[k].Adds?;
  }

  lemma InboxFromParts(s: State, s': State, c: Client)
    requires s.nextId <= s'.nextId
    requires c in s'.inbox ==> AddsFirst(ClientNotices(s'.inbox[c])) && DropsBelow(ClientNotices(s'.inbox[c]), s.nextId)
    ensures InboxSound(s', c)
  {
    hide ClientNotices, AddsFirst;
  }

  lemma ToldInOrder(s: State, op: Op, c: Client)
    requires ServerSound(s) && c in s.inbox && InboxSound(s, c)
    ensures var ns := ClientNotices(s.inbox[c]) + Told(s, op, c);
            AddsFirst(ns) && DropsBelow(ns, s.nextId)
  {
    var ns, told := ClientNotices(s.inbox[c]), Told(s, op, c);
    hide TablesSound;
    AddsFirstAppend(ns, told);
  }

  lemma {:induction false} SilenceOnTop(ids: set<nat>, ns: seq<Notice>, n: nat)
    requires AddsFirst(ns)
    ensures After(ids, Reversed(ns + Silence(n))) == After(ids, Reversed(ns))
    decreases n
  {
    SilenceGrows(ns, if n == 0 then 0 else n - 1);
    if n > 0 {
      SilenceOnTop(ids, ns, n - 1);
      AddsFirstAppend(ns, Silence(n));
      PushedOnTop(ids, ns + Silence(n - 1), Silent);
    }
  }

  lemma SoundInbox(s: State, c: Client)
    requires ServerSound(s) && InboxSound(s, c) && c in s.inbox
    ensures c in s.views && c in s.joined && AddsFirst(ClientNotices(s.inbox[c]))
  {
  }

  /** What is pushed on top decides what will be shown. */
  lemma OneTold(s: State, op: Op, c: Client, n: Notice)
    requires ServerSound(s) && Legal(s, op) && InboxSound(s, c) && op != ClientTakes(c)
    requires c in s.inbox && c in Apply(s, op).inbox && Told(s, op, c) == [n]
    ensures c in s.views && c in Apply(s, op).views
    ensures Coming(Apply(s, op), c) == OnTop(Coming(s, c), ClientNotices(s.inbox[c]), n)
  {
    hide ServerSound, Legal, Apply, Told, InboxSound, AddsFirst, After, Reversed, ClientNotices, OnTop;
    SoundInbox(s, c);
    StepTells(s, op, c);
    ToldInOrder(s, op, c);
    PushedOnTop(s.views[c].Keys, ClientNotices(s.inbox[c]), n);
  }

  lemma NoneTold(s: State, op: Op, c: Client)
    requires ServerSound(s) && Legal(s, op) && InboxSound(s, c) && op != ClientTakes(c)
    requires c in s.inbox && c in Apply(s, op).inbox && Told(s, op, c) == Silence(|Told(s, op, c)|)
    ensures c in s.views && c in Apply(s, op).views
    ensures Coming(Apply(s, op), c) == Coming(s, c)
  {
    hide ServerSound, Legal, Apply, Told, InboxSound, AddsFirst, After, Reversed, ClientNotices, Silence;
    SoundInbox(s, c);
    StepTells(s, op, c);
    SilenceOnTop(s.views[c].Keys, ClientNotices(s.inbox[c]), |Told(s, op, c)|);
  }

  /** A player whose announcement is still to come will be shown. */
  lemma PendingComes(s: State, c: Client, id: Id)
    requires ServerSound(s) && InboxSound(s, c) && c in s.inbox && Adds(id) in ClientNotices(s.inbox[c])
    ensures c in s.views && id in Coming(s, c)
  {
    hide ServerSound, InboxSound, AddsFirst, After, Reversed, ClientNotices;
    SoundInbox(s, c);
    NewestFirstIds(s.views[c].Keys, ClientNotices(s.inbox[c]), id);
  }

  lemma RemovalKeepsDisplay(s: State, d: Client, c: Client, over: set<Id>)
    requires ServerSound(s) && Legal(s, Disconnect(d)) && InboxSound(s, c) && c in s.inbox && c != d
    requires DisplaySound(s, c, over) && ServerSound(RemoveClient(s, d))
    ensures DisplaySound(RemoveClient(s, d), c, OvertakenBy(s, Disconnect(d), c, over))
  {
    hide ServerSound, InboxSound, Coming, LiveIds, Visible, RemoveClient, ClientNotices, IdsSound, TablesSound;
    RemovalFacts(s, d, c);
    if d in s.clients {
      OneTold(s, Disconnect(d), c, Drops(s.clients[d]));
      if Adds(s.clients[d]) in ClientNotices(s.inbox[c]) {
        PendingComes(s, c, s.clients[d]);
      }
    } else {
      NoneTold(s, Disconnect(d), c);
    }
  }

  lemma RemovalFacts(s: State, d: Client, c: Client)
    requires ServerSound(s) && Connected(s, d) && c in s.inbox && c != d
    ensures var s' := RemoveClient(s, d);
            && c in s'.inbox && c in s.joined && c in s'.joined && s'.nextId == s.nextId
            && Visible(s', c) == Without(s, d, Visible(s, c)) && LiveIds(s') == Without(s, d, LiveIds(s))
    ensures d in s.clients ==> s.clients[d] < s.nextId && s.clients[d] in LiveIds(s)
  {
    RemoveShows(s, d, c);
    RemoveLives(s, d);
    RemovalTells(s, d, c);
  }

  lemma LoadKeepsDisplay(s: State, d: Client, templ: seq<Byte>, c: Client, over: set<Id>)
    requires ServerSound(s) && Legal(s, Load(d, templ)) && InboxSound(s, c) && c in s.inbox
    requires DisplaySound(s, c, over) && ServerSound(Replication.LoadPlayer(s, d, templ))
    ensures DisplaySound(Replication.LoadPlayer(s, d, templ), c, over)
  {
    hide ServerSound, InboxSound, Coming, LiveIds, Visible, Replication.LoadPlayer, ClientNotices, IdsSound, TablesSound;
    LoadFacts(s, d, templ, c);
    if c in s.clients || c == d {
      OneTold(s, Load(d, templ), c, Adds(s.nextId));
    } else {
      NoneTold(s, Load(d, templ), c);
    }
  }

  lemma LoadFacts(s: State, d: Client, templ: seq<Byte>, c: Client)
    requires ServerSound(s) && d in s.lobby && s.nextId + 1 < U32 && c in s.inbox
    ensures var s' := Replication.LoadPlayer(s, d, templ);
            && c in s'.inbox && c in s.joined && c in s'.joined && s'.nextId == s.nextId + 1
            && Visible(s', c) == (if c in s.clients || c == d then Visible(s, c) + {s.nextId} else Visible(s, c))
            && LiveIds(s') == LiveIds(s) + {s.nextId}
  {
    LoadShows(s, d, templ, c);
    LoadLives(s, d, templ);
    hide Visible, LiveIds;
  }

  /** Steps that concern no player. */
  predicate Quiet(op: Op) {
    op.Tick? || op.SendInput? || op.PhysicsTakes? || op.ClientTakes? || op.Connect?
  }

  lemma QuietKeepsDisplay(s: State, op: Op, c: Client, over: set<Id>)
    requires ServerSound(s) && Legal(s, op) && InboxSound(s, c) && op != ClientTakes(c) && Quiet(op)
    requires c in s.inbox && DisplaySound(s, c, over) && ServerSound(Apply(s, op))
    ensures DisplaySound(Apply(s, op), c, over)
  {
    hide ServerSound, Legal, InboxSound, Coming, LiveIds, Visible, Apply;
    QuietServer(s, op, c);
    NoneTold(s, op, c);
  }

  lemma QuietServer(s: State, op: Op, c: Client)
    requires ServerSound(s) && Legal(s, op) && Quiet(op) && c in s.inbox
    ensures var s' := Apply(s, op);
            && s'.nextId == s.nextId && LiveIds(s') == LiveIds(s) && c in s'.inbox && c in s'.joined
            && Visible(s', c) == Visible(s, c)
  {
    match op
    case Connect(d, order) =>
      VisibleKeeps(s, d, order, c);
      AddTables(s, d, order);
    case Tick(trans) =>
      TicksKeepServer(s, trans);
      SameTables(s, Apply(s, op));
      SameVisible(s, Apply(s, op), c);
    case PhysicsTakes =>
      PhysicsChanges(s);
      SameTables(s, Apply(s, op));
      SameVisible(s, Apply(s, op), c);
    case SendInput(_, _) =>
      SameTables(s, Apply(s, op));
      SameVisible(s, Apply(s, op), c);
    case ClientTakes(_) =>
      SameTables(s, Apply(s, op));
      SameVisible(s, Apply(s, op), c);
    case _ =>
  }

  /** A newcomer's queue holds announcements only, and the order of those does not matter. */
  lemma NewcomerDisplay(s: State, c: Client, order: seq<Client>)
    requires ServerSound(s) && !Connected(s, c) && Lists(order, s.clients) && ServerSound(AddClient(s, c, order))
    ensures DisplaySound(AddClient(s, c, order), c, {})
  {
    hide IdsSound, TablesSound, Visible, After, Reversed, ClientNotices, Greetings, AddClient, Lists;
    NewcomerQueue(s, c, order);
    NewcomerSees(s, c, order);
    GreetingsNewestFirst(s, order);
  }

  lemma NewcomerQueue(s: State, c: Client, order: seq<Client>)
    requires ServerSound(s) && !Connected(s, c) && Lists(order, s.clients)
    ensures var s' := AddClient(s, c, order);
            && c in s'.inbox && c in s'.views && c in s'.joined && s'.views[c].Keys == {}
            && s'.inbox[c] == Greetings(s.clients, order, s.baddies)
  {
    hide Greetings;
    var greetings := Greetings(s.clients, order, s.baddies);
    assert [] + greetings == greetings;
  }

  lemma GreetingsNewestFirst(s: State, order: seq<Client>)
    requires Lists(order, s.clients)
    ensures After({}, Reversed(ClientNotices(Greetings(s.clients, order, s.baddies)))) == BaddieIds(s) + s.clients.Values
  {
    var greetings := Greetings(s.clients, order, s.baddies);
    var ns := ClientNotices(greetings);
    assert forall k :: 0 <= k < |ns| ==> ns[k].Adds?;
    hide Greetings, ClientNotices, After, Reversed, Drained, Lists;
    GreetedIds(s.clients, order, s.baddies);
    var none: map<Id, Drawable> := map[];
    DisplayFollows(none, greetings);
    OrderMattersForPairs({}, ns);
    assert none.Keys == {};
  }

  lemma WithoutQueue(s: State, c: Client, over: set<Id>)
    ensures c !in s.inbox && DisplaySound(s, c, over) ==> over == {}
    ensures c !in s.inbox ==> DisplaySound(s, c, {})
  {
  }

  /** Whoever is connected and does not leave keeps its queue. */
  lemma QueueStays(s: State, op: Op, c: Client)
    requires ServerSound(s) && Legal(s, op) && c in s.inbox && op != Disconnect(c)
    ensures c in Apply(s, op).inbox
  {
    match op
    case Disconnect(d) => RemoveKeys(s, d);
    case Tick(trans) => TicksKeepServer(s, trans);
    case PhysicsTakes => PhysicsChanges(s);
    case _ =>
  }

  /** In a step that takes nothing out of its queue, the client's display follows the players. */
  lemma StepKeepsDisplay(s: State, op: Op, c: Client, over: set<Id>)
    requires ServerSound(s) && Legal(s, op) && InboxSound(s, c) && op != ClientTakes(c)
    requires DisplaySound(s, c, over) && ServerSound(Apply(s, op))
    ensures DisplaySound(Apply(s, op), c, OvertakenBy(s, op, c, over))
  {
    hide DisplaySound, ServerSound, InboxSound, LiveIds, Visible, Coming;
    WithoutQueue(s, c, over);
    if c in s.inbox && op != Disconnect(c) {
      QueueStays(s, op, c);
      match op
      case Disconnect(d) => RemovalKeepsDisplay(s, d, c, over);
      case Load(d, templ) => LoadKeepsDisplay(s, d, templ, c, over);
      case _ => QuietKeepsDisplay(s, op, c, over);
    } else if c in Apply(s, op).inbox {
      NewcomerConnects(s, op, c);
      NewcomerDisplay(s, c, op.order);
    } else {
      assert OvertakenBy(s, op, c, over) == {};
      WithoutQueue(Apply(s, op), c, {});
    }
  }

  /** The client takes the newest message and has the others left. */
  lemma TakesNewest(s: State, c: Client)
    requires ServerSound(s) && StackLegal(s, ClientTakes(c))
    ensures c in s.inbox && s.inbox[c] != [] && c in s.views
    ensures var s', n := StackApply(s, ClientTakes(c)), |s.inbox[c]| - 1;
            && SameServer(s, s') && c in s'.inbox && c in s'.views && s'.inbox[c] == s.inbox[c][..n]
            && s'.views[c].Keys == Effect(s.views[c].Keys, ClientNotice(s.inbox[c][n]))
            && s'.physicsQueue == s.physicsQueue && s'.characters == s.characters
            && forall d :: d in s.inbox && d != c ==> s'.inbox[d] == s.inbox[d] && s'.views[d] == s.views[d]
  {
    hide IdsSound, Receive, Effect, ClientNotice, Visible;
    var q := s.inbox[c];
    assert NewestInFront(q)[1..] == q[..|q| - 1];
    ReceiveEffect(s.views[c], q[|q| - 1]);
  }

  lemma ReceiveEffect(view: map<Id, Drawable>, m: ClientMsg)
    ensures Receive(view, m).Keys == Effect(view.Keys, ClientNotice(m))
  {
    ReceiveShows(view, m);
  }

  lemma TakeKeepsDisplay(s: State, c: Client, over: set<Id>)
    requires ServerSound(s) && StackLegal(s, ClientTakes(c)) && InboxSound(s, c) && DisplaySound(s, c, over)
    ensures InboxSound(StackApply(s, ClientTakes(c)), c)
    ensures DisplaySound(StackApply(s, ClientTakes(c)), c, over)
  {
    hide *;
    TakesNewest(s, c);
    TakenSound(s, StackApply(s, ClientTakes(c)), c, over);
  }

  lemma TakenSound(s: State, s': State, c: Client, over: set<Id>)
    requires ServerSound(s) && InboxSound(s, c) && DisplaySound(s, c, over) && SameServer(s, s')
    requires c in s.inbox && s.inbox[c] != [] && c in s.views && c in s'.inbox && c in s'.views
    requires s'.inbox[c] == s.inbox[c][..|s.inbox[c]| - 1]
    requires s'.views[c].Keys == Effect(s.views[c].Keys, ClientNotice(s.inbox[c][|s.inbox[c]| - 1]))
    ensures InboxSound(s', c) && DisplaySound(s', c, over)
  {
    hide ClientNotices, After, Reversed, Visible, LiveIds, AddsFirst, IdsSound, TablesSound, ClientNotice, Effect;
    SameTables(s, s');
    SoundTables(s);
    SameVisible(s, s', c);
    ClientNoticesFront(s.inbox[c]);
    TakenFromTop(s.views[c].Keys, ClientNotices(s.inbox[c]));
    AddsFirstRest(ClientNotices(s.inbox[c]));
  }

  lemma ClientNoticesFront(msgs: seq<ClientMsg>)
    requires msgs != []
    ensures var ns := ClientNotices(msgs);
            && ns != [] && ns[|ns| - 1] == ClientNotice(msgs[|msgs| - 1])
            && ns[..|ns| - 1] == ClientNotices(msgs[..|msgs| - 1]) && forall m :: m in ns[..|ns| - 1] ==> m in ns
  {
  }

  // ---- The characters ----

  function Bodies(s: State): seq<Notice> {
    PhysicsNotices(s.physicsQueue)
  }

  /** The characters keep pace with the players; `late` are those whose deletion was sent before they were made. */
  ghost predicate BodiesSound(s: State, late: set<Id>) {
    Tracked(s.characters.Keys, Bodies(s), LiveIds(s), s.nextId, late)
  }

  /** What a step adds to the identifiers whose deletion overtakes the making of their character. */
  function LateBy(s: State, op: Op, before: set<Id>): set<Id> {
    if op.Disconnect? && op.c in s.clients && Adds(s.clients[op.c]) in Bodies(s) then before + {s.clients[op.c]} else before
  }

  lemma PhysicsNoticesAppend(msgs: seq<PhysicsMsg>, m: PhysicsMsg)
    ensures PhysicsNotices(msgs + [m]) == PhysicsNotices(msgs) + [PhysicsNotice(m)]
  {
  }

  /** What a step that takes nothing sends to the physics thread. */
  lemma StepSends(s: State, op: Op)
    requires ServerSound(s) && Legal(s, op) && !op.PhysicsTakes?
    ensures var s' := Apply(s, op);
            && s'.characters == s.characters
            && Bodies(s') == match op
               case Disconnect(c) => if c in s.clients then Bodies(s) + [Drops(s.clients[c])] else Bodies(s)
               case Load(_, _) => Bodies(s) + [Adds(s.nextId)]
               case SendInput(_, _) => Bodies(s) + [Silent]
               case _ => Bodies(s)
  {
    hide SendAll, Broadcast, Greetings, PhysicsNotices, TablesSound;
    match op
    case Disconnect(c) =>
      if c in s.clients {
        PhysicsNoticesAppend(s.physicsQueue, DelChar(s.clients[c]));
      }
    case Load(_, _) => PhysicsNoticesAppend(s.physicsQueue, AddChar(s.nextId));
    case SendInput(c, state) => PhysicsNoticesAppend(s.physicsQueue, FromClient(c, state));
    case Tick(trans) => TransformsAlone(s, trans);
    case _ =>
  }

  /** What a step does to the living. */
  lemma StepLives(s: State, op: Op)
    requires ServerSound(s) && Legal(s, op)
    ensures var s' := Apply(s, op);
            && s'.nextId == (if op.Load? then s.nextId + 1 else s.nextId)
            && LiveIds(s') == match op
               case Disconnect(c) => Without(s, c, LiveIds(s))
               case Load(_, _) => LiveIds(s) + {s.nextId}
               case _ => LiveIds(s)
    ensures forall c :: c in s.clients ==> s.clients[c] in LiveIds(s)
  {
    ClientsChange(s, op);
    match op
    case Disconnect(c) => RemoveLives(s, c);
    case Load(c, templ) => LoadLives(s, c, templ);
    case _ => assert BaddieIds(Apply(s, op)) == BaddieIds(s);
  }

  lemma StepKeepsBodies(s: State, op: Op, late: set<Id>)
    requires ServerSound(s) && Legal(s, op) && BodiesSound(s, late) && !op.PhysicsTakes?
    ensures BodiesSound(Apply(s, op), LateBy(s, op, late))
  {
    hide ServerSound, Tracked, LiveIds, Apply, Bodies, IdsSound;
    StepSends(s, op);
    StepLives(s, op);
    var ids, ns, live := s.characters.Keys, Bodies(s), LiveIds(s);
    match op
    case Disconnect(c) =>
      if c in s.clients {
        TrackDrop(ids, ns, live, s.nextId, late, s.clients[c]);
      }
    case Load(_, _) => TrackAdd(ids, ns, live, s.nextId, late);
    case SendInput(_, _) => TrackSilent(ids, ns, live, s.nextId, late);
    case _ =>
  }

  /** The physics thread takes the newest message and has the others left. */
  lemma PhysicsTakesNewest(s: State)
    requires StackLegal(s, PhysicsTakes)
    ensures s.physicsQueue != []
    ensures var s', n := StackApply(s, PhysicsTakes), |s.physicsQueue| - 1;
            && SameServer(s, s') && s'.inbox == s.inbox && s'.views == s.views && s'.physicsQueue == s.physicsQueue[..n]
            && s'.characters.Keys == Effect(s.characters.Keys, PhysicsNotice(s.physicsQueue[n]))
  {
    var q := s.physicsQueue;
    assert NewestInFront(q)[1..] == q[..|q| - 1];
    PhysicsChanges(Turned(s, PhysicsTakes));
  }

  lemma TakeKeepsBodies(s: State, late: set<Id>)
    requires ServerSound(s) && StackLegal(s, PhysicsTakes) && BodiesSound(s, late)
    ensures BodiesSound(StackApply(s, PhysicsTakes), late)
  {
    PhysicsTakesNewest(s);
    var s', q := StackApply(s, PhysicsTakes), s.physicsQueue;
    hide StackApply, StackLegal, Tracked, LiveIds, IdsSound, TablesSound, PhysicsNotices;
    SameTables(s, s');
    assert Bodies(s)[..|q| - 1] == Bodies(s') by {
      NoticesFront(q);
    }
    NoticesFront(q);
    TrackTake(s.characters.Keys, Bodies(s), LiveIds(s), s.nextId, late);
  }

  lemma NoticesFront(q: seq<PhysicsMsg>)
    requires q != []
    ensures PhysicsNotices(q) != [] && PhysicsNotices(q)[|PhysicsNotices(q)| - 1] == PhysicsNotice(q[|q| - 1])
    ensures PhysicsNotices(q)[..|PhysicsNotices(q)| - 1] == PhysicsNotices(q[..|q| - 1])
  {
  }

  // ---- Every run ----

  /** The identifiers whose removal has overtaken their announcement to `c` since it connected. */
  ghost function Overtaken(baddies: seq<Baddie>, nextId: nat, ops: seq<Op>, c: Client): set<Id> {
    if ops == [] then {}
    else
      var front, op := ops[..|ops| - 1], ops[|ops| - 1];
      var s, before := StackRun(baddies, nextId, front), Overtaken(baddies, nextId, front, c);
      if StackLegal(s, op) then OvertakenBy(s, op, c, before) else before
  }

  /** The identifiers whose deletion was sent to the physics thread before their character was made. */
  ghost function Late(baddies: seq<Baddie>, nextId: nat, ops: seq<Op>): set<Id> {
    if ops == [] then {}
    else
      var front, op := ops[..|ops| - 1], ops[|ops| - 1];
      var s, before := StackRun(baddies, nextId, front), Late(baddies, nextId, front);
      if StackLegal(s, op) then LateBy(s, op, before) else before
  }

  lemma SameDisplay(s: State, s': State, c: Client, over: set<Id>)
    requires ServerSound(s) && SameServer(s, s') && InboxSound(s, c) && DisplaySound(s, c, over)
    requires c in s.inbox ==> s'.inbox[c] == s.inbox[c] && c in s.views && s'.views[c] == s.views[c]
    ensures ServerSound(s') && InboxSound(s', c) && DisplaySound(s', c, over)
  {
    hide IdsSound, TablesSound, LiveIds, Visible, After, Reversed, ClientNotices, AddsFirst, DropsBelow;
    SameTables(s, s');
    SoundTables(s);
    if c in s.inbox {
      SameVisible(s, s', c);
    }
  }

  lemma SameBodies(s: State, s': State, late: set<Id>)
    requires ServerSound(s) && SameServer(s, s') && BodiesSound(s, late)
    requires s'.physicsQueue == s.physicsQueue && s'.characters == s.characters
    ensures BodiesSound(s', late)
  {
    SameTables(s, s');
    hide Tracked, LiveIds, IdsSound, TablesSound;
  }

  lemma StackStepKeeps(s: State, op: Op, c: Client, over: set<Id>, late: set<Id>)
    requires ServerSound(s) && InboxSound(s, c) && DisplaySound(s, c, over) && BodiesSound(s, late) && StackLegal(s, op)
    ensures ServerSound(StackApply(s, op)) && InboxSound(StackApply(s, op), c)
    ensures DisplaySound(StackApply(s, op), c, OvertakenBy(s, op, c, over)) && BodiesSound(StackApply(s, op), LateBy(s, op, late))
  {
    hide ServerSound, InboxSound, DisplaySound, BodiesSound, Apply, Legal;
    match op
    case ClientTakes(d) =>
      TakesNewest(s, d);
      SameBodies(s, StackApply(s, op), late);
      if d == c {
        StillSound(s, StackApply(s, op));
        TakeKeepsDisplay(s, c, over);
      } else {
        SoundTables(s);
        SameDisplay(s, StackApply(s, op), c, over);
      }
    case PhysicsTakes =>
      PhysicsTakesNewest(s);
      SoundTables(s);
      SameDisplay(s, StackApply(s, op), c, over);
      TakeKeepsBodies(s, late);
    case _ =>
      ApplyKeepsServer(s, op);
      StepKeepsInbox(s, op, c);
      StepKeepsDisplay(s, op, c, over);
      StepKeepsBodies(s, op, late);
  }

  lemma StillSound(s: State, s': State)
    requires ServerSound(s) && SameServer(s, s')
    ensures ServerSound(s')
  {
    SameTables(s, s');
  }

  lemma InitialStack(baddies: seq<Baddie>, nextId: nat, c: Client)
    requires SoundWorld(baddies, nextId)
    ensures var s := Initial(baddies, nextId);
            ServerSound(s) && InboxSound(s, c) && DisplaySound(s, c, {}) && BodiesSound(s, {})
  {
    var s := Initial(baddies, nextId);
    InitialSound(baddies, nextId);
    InitialBodies(baddies, nextId);
    hide IdsSound, TablesSound, LiveIds, Tracked;
  }

  lemma InitialBodies(baddies: seq<Baddie>, nextId: nat)
    requires SoundWorld(baddies, nextId)
    ensures BodiesSound(Initial(baddies, nextId), {})
  {
    hide After, Reversed, CharactersAfter, DeletesPresent, PhysicsNotices, LiveIds, Tracked;
    var s := Initial(baddies, nextId);
    InitialNotices(baddies, nextId);
    InitialPhysics(baddies, nextId);
    CharactersFollow({}, s.physicsQueue);
    TrackAdds(Bodies(s), BaddieIds(s), nextId);
  }

  lemma InitialNotices(baddies: seq<Baddie>, nextId: nat)
    requires SoundWorld(baddies, nextId)
    ensures var s := Initial(baddies, nextId);
            && s.characters.Keys == {} && LiveIds(s) == BaddieIds(s)
            && |Bodies(s)| == |baddies| && forall k :: 0 <= k < |baddies| ==> Bodies(s)[k] == Adds(baddies[k].id)
  {
    var s := Initial(baddies, nextId);
    assert s.clients.Values == {};
  }

  lemma {:induction false} StackRunKeeps(baddies: seq<Baddie>, nextId: nat, ops: seq<Op>, c: Client)
    requires SoundWorld(baddies, nextId)
    ensures var s := StackRun(baddies, nextId, ops);
            && ServerSound(s) && InboxSound(s, c) && DisplaySound(s, c, Overtaken(baddies, nextId, ops, c))
            && BodiesSound(s, Late(baddies, nextId, ops))
    decreases |ops|
  {
    hide ServerSound, InboxSound, DisplaySound, BodiesSound, StackLegal, StackApply, OvertakenBy, LateBy;
    if ops == [] {
      InitialStack(baddies, nextId, c);
    } else {
      var front, op := ops[..|ops| - 1], ops[|ops| - 1];
      StackRunKeeps(baddies, nextId, front, c);
      var s := StackRun(baddies, nextId, front);
      if StackLegal(s, op) {
        StackStepKeeps(s, op, c, Overtaken(baddies, nextId, front, c), Late(baddies, nextId, front));
      }
    }
  }

  /**
   * Over the lock-free queues a client that has taken all that waits for it shows what it must and, besides,
   * the players that went while their announcement was waiting. So it has no ghosts if and only if no player
   * goes like that while the client is connected.
   */
  lemma StackGhosts(baddies: seq<Baddie>, nextId: nat, ops: seq<Op>, c: Client)
    requires SoundWorld(baddies, nextId)
    ensures var s, over := StackRun(baddies, nextId, ops), Overtaken(baddies, nextId, ops, c);
            && over !! LiveIds(s) && (c in s.inbox ==> c in s.views && c in s.joined)
            && (c in s.inbox ==> Drained(s.views[c], Reversed(s.inbox[c])).Keys == Visible(s, c) + over)
            && (c in s.inbox && s.inbox[c] == [] ==> (s.views[c].Keys == Visible(s, c) <==> over == {}))
  {
    StackRunKeeps(baddies, nextId, ops, c);
    var s := StackRun(baddies, nextId, ops);
    if c in s.inbox {
      DisplayNewestFirst(s.views[c], s.inbox[c]);
      VisibleLives(s, c);
    }
  }

  lemma VisibleLives(s: State, c: Client)
    requires c in s.joined
    ensures Visible(s, c) <= LiveIds(s)
  {
  }

  /** The deletions that the physics thread has taken without finding their character. */
  ghost function Misses(baddies: seq<Baddie>, nextId: nat, ops: seq<Op>): set<Id> {
    if ops == [] then {}
    else
      var front, op := ops[..|ops| - 1], ops[|ops| - 1];
      var s, before := StackRun(baddies, nextId, front), Misses(baddies, nextId, front);
      if StackLegal(s, op) then MissesBy(s, op, before) else before
  }

  function MissesBy(s: State, op: Op, before: set<Id>): set<Id> {
    if op.PhysicsTakes? && s.physicsQueue != [] then
      var m := s.physicsQueue[|s.physicsQueue| - 1];
      if m.DelChar? && m.id !in s.characters then before + {m.id} else before
    else before
  }

  /** A late deletion misses its character when it is taken, and until then it waits. */
  ghost predicate MissesSound(s: State, late: set<Id>, missed: set<Id>) {
    missed <= late && forall id :: id in late ==> (id in missed <==> Drops(id) !in Bodies(s))
  }

  lemma MissesFollow(s: State, op: Op, late: set<Id>, missed: set<Id>)
    requires ServerSound(s) && BodiesSound(s, late) && StackLegal(s, op) && MissesSound(s, late, missed)
    ensures MissesSound(StackApply(s, op), LateBy(s, op, late), MissesBy(s, op, missed))
  {
    hide ServerSound, BodiesSound, Apply, Legal, Bodies;
    match op
    case ClientTakes(c) =>
      TakesNewest(s, c);
      SameQueue(s, StackApply(s, op));
    case PhysicsTakes => TopTaken(s, late);
    case _ =>
      StepSends(s, op);
      NewlyDropped(s, op, late);
  }

  lemma SameQueue(s: State, s': State)
    requires s'.physicsQueue == s.physicsQueue
    ensures Bodies(s') == Bodies(s)
  {
  }

  /** Whoever goes now has not gone before. */
  lemma NewlyDropped(s: State, op: Op, late: set<Id>)
    requires ServerSound(s) && BodiesSound(s, late) && Legal(s, op)
    ensures op.Disconnect? && op.c in s.clients ==> s.clients[op.c] !in late
  {
    StepLives(s, op);
    hide IdsSound, TablesSound, LiveIds, Queued, After, Reversed, Legal;
  }

  lemma TopTaken(s: State, late: set<Id>)
    requires BodiesSound(s, late) && StackLegal(s, PhysicsTakes)
    ensures s.physicsQueue != []
    ensures var m := s.physicsQueue[|s.physicsQueue| - 1];
            && (m.DelChar? ==> (m.id in s.characters <==> m.id !in late))
            && forall id :: Drops(id) in Bodies(StackApply(s, PhysicsTakes)) <==> Drops(id) in Bodies(s) && m != DelChar(id)
  {
    PhysicsTakesNewest(s);
    NoticesFront(s.physicsQueue);
    TopFinds(s, late);
    var ns, m := Bodies(s), s.physicsQueue[|s.physicsQueue| - 1];
    OrderedParts(ns);
    hide Tracked, StackApply, StackLegal, PhysicsNotices;
    forall id ensures Drops(id) in ns[..|ns| - 1] <==> Drops(id) in ns && m != DelChar(id) {
      InParts(ns, Drops(id));
    }
  }

  /** The deletion on top finds its character unless it is late. */
  lemma TopFinds(s: State, late: set<Id>)
    requires BodiesSound(s, late) && s.physicsQueue != []
    ensures var m := s.physicsQueue[|s.physicsQueue| - 1];
            m.DelChar? ==> (m.id in s.characters <==> m.id !in late)
  {
    NoticesFront(s.physicsQueue);
    var ns := Bodies(s);
    assert ns[|ns| - 1] in ns;
  }

  lemma {:induction false} MissesAreLate(baddies: seq<Baddie>, nextId: nat, ops: seq<Op>)
    requires SoundWorld(baddies, nextId)
    ensures MissesSound(StackRun(baddies, nextId, ops), Late(baddies, nextId, ops), Misses(baddies, nextId, ops))
    decreases |ops|
  {
    hide ServerSound, InboxSound, DisplaySound, BodiesSound, StackLegal, StackApply, LateBy, MissesBy, Bodies;
    if ops != [] {
      var front, op := ops[..|ops| - 1], ops[|ops| - 1];
      MissesAreLate(baddies, nextId, front);
      StackRunKeeps(baddies, nextId, front, 0);
      var s := StackRun(baddies, nextId, front);
      if StackLegal(s, op) {
        MissesFollow(s, op, Late(baddies, nextId, front), Misses(baddies, nextId, front));
      }
    }
  }

  /**
   * Over the lock-free queues a deletion finds its character if and only if it was not late, and whatever the
   * queue holds, the characters to come are the living and the late. Once the queue is empty just the late
   * deletions have missed, and the characters are the living ones if and only if there were none.
   */
  lemma StackPhysics(baddies: seq<Baddie>, nextId: nat, ops: seq<Op>)
    requires SoundWorld(baddies, nextId)
    ensures var s, late, missed := StackRun(baddies, nextId, ops), Late(baddies, nextId, ops), Misses(baddies, nextId, ops);
            && late !! LiveIds(s) && missed <= late
            && CharactersAfter(s.characters.Keys, Reversed(s.physicsQueue)) == LiveIds(s) + late
            && (DeletesPresent(s.characters.Keys, Reversed(s.physicsQueue)) <==> late == missed)
            && (forall id :: DelChar(id) in s.physicsQueue ==> (id in s.characters <==> id !in late))
            && (s.physicsQueue == [] ==> missed == late && (s.characters.Keys == LiveIds(s) <==> late == {}))
  {
    StackRunKeeps(baddies, nextId, ops, 0);
    MissesAreLate(baddies, nextId, ops);
    var s := StackRun(baddies, nextId, ops);
    CharactersNewestFirst(s.characters.Keys, s.physicsQueue);
    NewestFirstPresent(s.characters.Keys, Bodies(s));
    MessagesNoticed(s.physicsQueue);
    hide ServerSound, InboxSound, DisplaySound, LiveIds, After, Reversed, CharactersAfter, DeletesPresent, DropsPresent, Late, Misses, StackRun, PhysicsNotices;
  }

  /** Notices and messages name the same identifiers. */
  lemma MessagesNoticed(msgs: seq<PhysicsMsg>)
    ensures forall id: Id :: DelChar(id) in msgs <==> Drops(id) in PhysicsNotices(msgs)
    ensures forall id: Id :: AddChar(id) in msgs <==> Adds(id) in PhysicsNotices(msgs)
    ensures forall m :: m in PhysicsNotices(msgs) && !m.Silent? ==> m.id < U32
  {
    var ns := PhysicsNotices(msgs);
    forall id: Id ensures (DelChar(id) in msgs <==> Drops(id) in ns) && (AddChar(id) in msgs <==> Adds(id) in ns) {
      MessageNoticed(msgs, DelChar(id));
      MessageNoticed(msgs, AddChar(id));
    }
  }

  lemma MessageNoticed(msgs: seq<PhysicsMsg>, m: PhysicsMsg)
    requires !m.FromClient?
    ensures m in msgs <==> PhysicsNotice(m) in PhysicsNotices(msgs)
  {
    var ns := PhysicsNotices(msgs);
    if m in msgs {
      var k :| 0 <= k < |msgs| && msgs[k] == m;
      assert ns[k] == PhysicsNotice(m);
    }
    if PhysicsNotice(m) in ns {
      var k :| 0 <= k < |ns| && ns[k] == PhysicsNotice(m);
      assert msgs[k] == m;
    }
  }

  // ---- A queue that kept the order, taken the other way round ----

  lemma StepKeepsQueue(s: State, op: Op)
    requires ServerSound(s) && Legal(s, op) && Queued(Bodies(s), LiveIds(s), s.nextId)
    ensures Queued(Bodies(Apply(s, op)), LiveIds(Apply(s, op)), Apply(s, op).nextId)
  {
    hide ServerSound, Queued, LiveIds, Apply, Bodies;
    StepLives(s, op);
    var ns, live := Bodies(s), LiveIds(s);
    if op.PhysicsTakes? {
      FirstTaken(s);
      QueuedRest(ns, live, s.nextId);
    } else {
      StepSends(s, op);
      match op
      case Disconnect(c) =>
        if c in s.clients {
          IdBelow(s, c);
          QueuedDrop(ns, live, s.nextId, s.clients[c]);
        }
      case Load(_, _) => QueuedAdd(ns, live, s.nextId);
      case SendInput(_, _) => QueuedSilent(ns, live, s.nextId);
      case _ =>
    }
  }

  lemma IdBelow(s: State, c: Client)
    requires ServerSound(s) && c in s.clients
    ensures s.clients[c] < s.nextId
  {
  }

  lemma FirstTaken(s: State)
    requires Legal(s, PhysicsTakes)
    ensures Bodies(s) != [] && Bodies(Apply(s, PhysicsTakes)) == Bodies(s)[1..]
  {
    PhysicsChanges(s);
    hide PhysicsReceives;
  }

  lemma FirstKeepsInbox(s: State, op: Op, c: Client)
    requires ServerSound(s) && Legal(s, op) && InboxSound(s, c)
    ensures InboxSound(Apply(s, op), c)
  {
    if op == ClientTakes(c) {
      var ns, ns' := ClientNotices(s.inbox[c]), ClientNotices(Apply(s, op).inbox[c]);
      assert ns' == ns[1..];
      AddsFirstRest(ns);
    } else {
      StepKeepsInbox(s, op, c);
    }
    hide ServerSound;
  }

  lemma {:induction false} RunKeepsOrder(baddies: seq<Baddie>, nextId: nat, ops: seq<Op>, c: Client)
    requires SoundWorld(baddies, nextId)
    ensures var s := Execute(baddies, nextId, ops);
            InboxSound(s, c) && Queued(Bodies(s), LiveIds(s), s.nextId)
    decreases |ops|
  {
    hide InboxSound, Queued, Apply, Legal, Bodies, LiveIds, IdsSound, TablesSound, ViewsSound, PhysicsSound;
    if ops == [] {
      InitialStack(baddies, nextId, c);
      TrackedQueue(Initial(baddies, nextId), {});
    } else {
      var front, op := ops[..|ops| - 1], ops[|ops| - 1];
      RunKeepsOrder(baddies, nextId, front, c);
      RunKeeps(baddies, nextId, front);
      var s := Execute(baddies, nextId, front);
      if Legal(s, op) {
        FirstKeepsInbox(s, op, c);
        StepKeepsQueue(s, op);
      }
    }
  }

  lemma TrackedQueue(s: State, late: set<Id>)
    requires BodiesSound(s, late)
    ensures Queued(Bodies(s), LiveIds(s), s.nextId)
  {
  }

  /**
   * In every state that a run over queues in order can reach, a client that took its messages the other way
   * round would show what it must if and only if none of them removes a player whom another announces.
   */
  lemma DisplayEitherWay(baddies: seq<Baddie>, nextId: nat, ops: seq<Op>, c: Client)
    requires SoundWorld(baddies, nextId)
    ensures var s := Execute(baddies, nextId, ops);
            && (c in s.inbox ==> c in s.views && c in s.joined)
            && (c in s.inbox ==>
                  (Drained(s.views[c], Reversed(s.inbox[c])).Keys == Visible(s, c)
                   <==> forall id :: Adds(id) in ClientNotices(s.inbox[c]) ==> Drops(id) !in ClientNotices(s.inbox[c])))
  {
    RunKeeps(baddies, nextId, ops);
    RunKeepsOrder(baddies, nextId, ops, c);
    var s := Execute(baddies, nextId, ops);
    if c in s.inbox {
      DisplayFollows(s.views[c], s.inbox[c]);
      DisplayNewestFirst(s.views[c], s.inbox[c]);
      OrderMattersForPairs(s.views[c].Keys, ClientNotices(s.inbox[c]));
    }
    hide *;
  }

  /**
   * In every such state the deletions that wait for the physics thread, taken the other way round, all find
   * their character if and only if each of these is there already, and the characters come out as the living
   * ones if and only if none of them waits to be made and to be deleted.
   */
  lemma PhysicsEitherWay(baddies: seq<Baddie>, nextId: nat, ops: seq<Op>)
    requires SoundWorld(baddies, nextId)
    ensures var s := Execute(baddies, nextId, ops);
            && (DeletesPresent(s.characters.Keys, Reversed(s.physicsQueue))
                <==> forall id :: DelChar(id) in s.physicsQueue ==> id in s.characters)
            && (CharactersAfter(s.characters.Keys, Reversed(s.physicsQueue)) == LiveIds(s)
                <==> forall id :: AddChar(id) in s.physicsQueue ==> DelChar(id) !in s.physicsQueue)
  {
    RunKeeps(baddies, nextId, ops);
    RunKeepsOrder(baddies, nextId, ops, 0);
    var s := Execute(baddies, nextId, ops);
    var ids, ns := s.characters.Keys, Bodies(s);
    CharactersFollow(ids, s.physicsQueue);
    CharactersNewestFirst(ids, s.physicsQueue);
    NewestFirstPresent(ids, ns);
    OrderedAddsFirst(ns);
    OrderMattersForPairs(ids, ns);
    MessagesNoticed(s.physicsQueue);
    hide IdsSound, TablesSound, ViewsSound, LiveIds, After, Reversed, CharactersAfter, DeletesPresent, DropsPresent, Execute, PhysicsNotices, Ordered, AddsFirst;
  }

  lemma OrderedAddsFirst(ns: seq<Notice>)
    requires Ordered(ns)
    ensures AddsFirst(ns)
  {
  }

  // ---- The lock-free queue behind it ----

  /** The pushes and pops on the physics thread's queue in a run, as the lock-free queue records them. */
  ghost function Traffic(baddies: seq<Baddie>, nextId: nat, ops: seq<Op>): seq<LocklessQueue.Event<PhysicsMsg>> {
    if ops == [] then Pushes(Initial(baddies, nextId).physicsQueue)
    else
      var front, op := ops[..|ops| - 1], ops[|ops| - 1];
      var s, before := StackRun(baddies, nextId, front), Traffic(baddies, nextId, front);
      if !StackLegal(s, op) then before else before + TrafficOf(s, StackApply(s, op))
  }

  function Pushes(msgs: seq<PhysicsMsg>): seq<LocklessQueue.Event<PhysicsMsg>> {
    seq(|msgs|, k requires 0 <= k < |msgs| => LocklessQueue.Pushed(msgs[k]))
  }

  /** What happened to the queue between two states: messages were pushed, or the newest one was popped. */
  function TrafficOf(s: State, s': State): seq<LocklessQueue.Event<PhysicsMsg>> {
    var q, q' := s.physicsQueue, s'.physicsQueue;
    if |q| <= |q'| then Pushes(q'[|q|..]) else [LocklessQueue.Popped(q[|q| - 1])]
  }

  lemma {:induction false} PushesReplay(events: seq<LocklessQueue.Event<PhysicsMsg>>, q: seq<PhysicsMsg>, msgs: seq<PhysicsMsg>)
    requires LocklessQueue.Replay(events) == (true, Reversed(q))
    ensures LocklessQueue.Replay(events + Pushes(msgs)) == (true, Reversed(q + msgs))
    decreases |msgs|
  {
    if msgs == [] {
      assert events + Pushes(msgs) == events && q + msgs == q;
    } else {
      var front, last := msgs[..|msgs| - 1], msgs[|msgs| - 1];
      PushesReplay(events, q, front);
      LocklessTakesNewest(events + Pushes(front), q + front, last);
      assert events + Pushes(msgs) == events + Pushes(front) + [LocklessQueue.Pushed(last)];
      assert q + msgs == q + front + [last];
    }
  }

  /** A step only pushes to the queue, or pops the newest message. */
  lemma StepMoves(s: State, op: Op)
    requires ServerSound(s) && StackLegal(s, op)
    ensures var q, q' := s.physicsQueue, StackApply(s, op).physicsQueue;
            if op.PhysicsTakes? then q != [] && q' == q[..|q| - 1] else |q| <= |q'| && q == q'[..|q|]
  {
    match op
    case ClientTakes(c) => TakesNewest(s, c);
    case PhysicsTakes => PhysicsTakesNewest(s);
    case Tick(trans) => TransformsAlone(s, trans);
    case _ =>
  }

  /**
   * What a run takes from the physics thread's queue is what the lock-free queue hands out: the traffic is
   * one run of the stack that it implements, which is left with the waiting messages, newest on top.
   */
  lemma {:induction false} TrafficIsStack(baddies: seq<Baddie>, nextId: nat, ops: seq<Op>)
    requires SoundWorld(baddies, nextId)
    ensures LocklessQueue.Replay(Traffic(baddies, nextId, ops)) == (true, Reversed(StackRun(baddies, nextId, ops).physicsQueue))
    decreases |ops|
  {
    hide ServerSound, StackLegal, StackApply, InboxSound, DisplaySound, BodiesSound, Reversed, Pushes;
    if ops == [] {
      PushesReplay([], [], Initial(baddies, nextId).physicsQueue);
      assert [] + Initial(baddies, nextId).physicsQueue == Initial(baddies, nextId).physicsQueue;
      assert [] + Pushes(Initial(baddies, nextId).physicsQueue) == Pushes(Initial(baddies, nextId).physicsQueue);
      NothingReversed();
    } else {
      var front, op := ops[..|ops| - 1], ops[|ops| - 1];
      TrafficIsStack(baddies, nextId, front);
      StackRunKeeps(baddies, nextId, front, 0);
      var s, before := StackRun(baddies, nextId, front), Traffic(baddies, nextId, front);
      if StackLegal(s, op) {
        StepMoves(s, op);
        StepReplays(before, s, StackApply(s, op));
      }
    }
  }

  lemma NothingReversed()
    ensures Reversed<PhysicsMsg>([]) == []
  {
  }

  lemma StepReplays(events: seq<LocklessQueue.Event<PhysicsMsg>>, s: State, s': State)
    requires LocklessQueue.Replay(events) == (true, Reversed(s.physicsQueue))
    requires var q, q' := s.physicsQueue, s'.physicsQueue;
             (q != [] && q' == q[..|q| - 1]) || (|q| <= |q'| && q == q'[..|q|])
    ensures LocklessQueue.Replay(events + TrafficOf(s, s')) == (true, Reversed(s'.physicsQueue))
  {
    var q, q' := s.physicsQueue, s'.physicsQueue;
    hide Reversed, Pushes, LocklessQueue.Replay;
    if |q| <= |q'| {
      PushesReplay(events, q, q'[|q|..]);
      assert q + q'[|q|..] == q';
    } else {
      LocklessTakesNewest(events, q, q[|q| - 1]);
    }
  }

  // ---- A ghost ----

  const MEETING := [Connect(1, []), Load(1, PLAYER), Connect(2, [1]), Load(2, PLAYER), Disconnect(2)]

  const HELLO := [AddDrawable(1, PLAYER), AddDrawable(2, PLAYER)]

  const ALONE := State(map[1 := 1], {}, 2, [], map[1 := [AddDrawable(1, PLAYER)]], map[1 := map[]], map[1 := 1],
                       [AddChar(1)], map[])

  const TOGETHER := State(map[1 := 1, 2 := 2], {}, 3, [], map[1 := HELLO, 2 := HELLO], map[1 := map[], 2 := map[]],
                          map[1 := 1, 2 := 2], [AddChar(1), AddChar(2)], map[])

  const LEFT := State(map[1 := 1], {}, 3, [], map[1 := HELLO + [DelDrawable(2)]], map[1 := map[]], map[1 := 1],
                      [AddChar(1), AddChar(2), DelChar(2)], map[])

  lemma RunStep(ops: seq<Op>, op: Op)
    ensures var s := StackRun([], 1, ops);
            StackRun([], 1, ops + [op]) == if StackLegal(s, op) then StackApply(s, op) else s
  {
    assert (ops + [op])[..|ops|] == ops;
  }

  /** States that agree field by field, and queue by queue, are equal. */
  lemma SameState(s: State, s': State)
    requires s.clients == s'.clients && s.lobby == s'.lobby && s.nextId == s'.nextId && s.baddies == s'.baddies
    requires s.inbox.Keys == s'.inbox.Keys && forall c :: c in s.inbox ==> s.inbox[c] == s'.inbox[c]
    requires s.views == s'.views && s.joined == s'.joined
    requires s.physicsQueue == s'.physicsQueue && s.characters == s'.characters
    ensures s == s'
  {
    assert s.inbox == s'.inbox;
  }

  lemma FirstArrives()
    ensures StackRun([], 1, MEETING[..2]) == ALONE
  {
    var s0 := Initial([], 1);
    var s1 := AddClient(s0, 1, []);
    RunStep([], Connect(1, []));
    RunStep([Connect(1, [])], Load(1, PLAYER));
    assert [] + [Connect(1, [])] == [Connect(1, [])] && MEETING[..2] == [Connect(1, [])] + [Load(1, PLAYER)];
    FirstLoads(s0, s1);
  }

  lemma FirstLoads(s0: State, s1: State)
    requires s0 == Initial([], 1) && s1 == AddClient(s0, 1, [])
    ensures Replication.LoadPlayer(s1, 1, PLAYER) == ALONE
  {
    assert s0.physicsQueue == [] && Greetings(s0.clients, [], s0.baddies) == [];
    assert [] + [AddDrawable(1, PLAYER)] == [AddDrawable(1, PLAYER)] && [] + [AddChar(1)] == [AddChar(1)];
    SameState(Replication.LoadPlayer(s1, 1, PLAYER), ALONE);
  }

  lemma SecondArrives()
    ensures StackRun([], 1, MEETING[..4]) == TOGETHER
  {
    FirstArrives();
    RunStep(MEETING[..2], Connect(2, [1]));
    RunStep(MEETING[..3], Load(2, PLAYER));
    assert MEETING[..3] == MEETING[..2] + [Connect(2, [1])] && MEETING[..4] == MEETING[..3] + [Load(2, PLAYER)];
    SecondLoads(AddClient(ALONE, 2, [1]));
    hide StackRun;
  }

  lemma SecondLoads(s3: State)
    requires s3 == AddClient(ALONE, 2, [1])
    ensures Replication.LoadPlayer(s3, 2, PLAYER) == TOGETHER
  {
    assert Greetings(ALONE.clients, [1], ALONE.baddies) == [AddDrawable(1, PLAYER)];
    assert s3.inbox[2] == [AddDrawable(1, PLAYER)] && s3.lobby == {2} && s3.clients == map[1 := 1];
    var s4 := Replication.LoadPlayer(s3, 2, PLAYER);
    assert s4.inbox[1] == HELLO && s4.inbox[2] == HELLO;
    SameState(s4, TOGETHER);
  }

  lemma SecondLeaves()
    ensures StackRun([], 1, MEETING) == LEFT
  {
    SecondArrives();
    RunStep(MEETING[..4], Disconnect(2));
    assert MEETING == MEETING[..4] + [Disconnect(2)];
    SecondRemoved();
    hide StackRun;
  }

  lemma SecondGoes()
    ensures Left(TOGETHER, 2) == LEFT.(inbox := map[1 := HELLO], physicsQueue := TOGETHER.physicsQueue)
  {
    SameState(Left(TOGETHER, 2), LEFT.(inbox := map[1 := HELLO], physicsQueue := TOGETHER.physicsQueue));
  }

  lemma SecondRemoved()
    ensures RemoveClient(TOGETHER, 2) == LEFT
  {
    SecondGoes();
    var s5, left, m := RemoveClient(TOGETHER, 2), Left(TOGETHER, 2), DelDrawable(2);
    assert s5 == left.(inbox := SendAll(left, m), physicsQueue := TOGETHER.physicsQueue + [DelChar(2)]);
    hide RemoveClient, Left, SendAll;
    SendAllOnce(left, m);
    assert left.clients.Keys + left.lobby == {1};
    assert Broadcast(left.inbox, {1}, m)[1] == HELLO + [m];
    SameState(s5, LEFT);
  }

  /**
   * Two players meet and one leaves at once. In order, the other shows itself alone; newest first, it shows the
   * one who left, and the first deletion that the physics thread takes finds no character.
   */
  lemma GoneAtOnce()
    ensures StackRun([], 1, MEETING) == LEFT && LiveIds(LEFT) == {1}
    ensures Drained(LEFT.views[1], LEFT.inbox[1]).Keys == {1}
    ensures Drained(LEFT.views[1], Reversed(LEFT.inbox[1])).Keys == {1, 2}
    ensures StackLegal(LEFT, PhysicsTakes) && 2 in Misses([], 1, MEETING + [PhysicsTakes])
  {
    SecondLeaves();
    LeftDisplay();
    assert (MEETING + [PhysicsTakes])[..5] == MEETING;
    assert LEFT.clients.Values == {1};
  }

  lemma LeftDisplay()
    ensures Drained(LEFT.views[1], LEFT.inbox[1]).Keys == {1}
    ensures Drained(LEFT.views[1], Reversed(LEFT.inbox[1])).Keys == {1, 2}
  {
    var view, msgs := LEFT.views[1], LEFT.inbox[1];
    var ns := ClientNotices(msgs);
    assert ns == [Adds(1), Adds(2), Drops(2)] && view.Keys == {};
    DisplayFollows(view, msgs);
    DisplayNewestFirst(view, msgs);
    hide Drained, ClientNotices, After, Reversed;
    forall id ensures id in After({}, ns) <==> id == 1 {
      OldestFirstIds({}, ns, id);
    }
    forall id ensures id in After({}, Reversed(ns)) <==> id == 1 || id == 2 {
      NewestFirstIds({}, ns, id);
    }
    assert After({}, ns) == {1} && After({}, Reversed(ns)) == {1, 2};
  }
}

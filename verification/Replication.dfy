/**
 * The server's replication protocol as a state machine: clients come, load a player and go, the
 * physics thread sends transforms, and every client folds what it receives into its drawables.
 */
module Replication {
  import opened Text
  import opened WireCodec

  /** A client is known by its address. */
  type Client = nat

  datatype Baddie = Baddie(templ: seq<Byte>, id: Id)

  /** What the server and its clients send to the physics thread. */
  datatype PhysicsMsg = AddChar(id: Id) | DelChar(id: Id) | FromClient(client: Client, state: InputState)

  datatype Color = Green | Red | White

  /** A drawable has no defined matrix before the first transform. */
  datatype Drawable = Drawable(color: Color, matrix: Option<Matrix>)

  const PLAYER: seq<Byte> := [80, 108, 97, 121, 101, 114]
  const BADDIE: seq<Byte> := [66, 97, 100, 100, 105, 101]

  /**
   * `joined` only records, for each connected client, the next identifier at the time it connected.
   * Inboxes and the physics queue deliver in order, as the locked queue does; `StackReplication` is about the
   * other one.
   */
  datatype State = State(
    clients: map<Client, Id>, lobby: set<Client>, nextId: nat, baddies: seq<Baddie>,
    inbox: map<Client, seq<ClientMsg>>, views: map<Client, map<Id, Drawable>>, joined: map<Client, nat>,
    physicsQueue: seq<PhysicsMsg>, characters: map<Id, InputState>)

  // ---- The client side ----

  function ColorOf(templ: seq<Byte>): Color {
    if templ == PLAYER then Green else if templ == BADDIE then Red else White
  }

  /** One message folded into the drawables. */
  function Receive(view: map<Id, Drawable>, m: ClientMsg): map<Id, Drawable> {
    match m
    case AddDrawable(id, templ) => if id in view then view else view[id := Drawable(ColorOf(templ), None)]
    case TransDrawable(id, transform) => if id !in view then view else view[id := view[id].(matrix := Some(transform))]
    case DelDrawable(id) => view - {id}
    case _ => view
  }

  /** The drawables after all of `msgs`. */
  function Drained(view: map<Id, Drawable>, msgs: seq<ClientMsg>): map<Id, Drawable> {
    if msgs == [] then view else Receive(Drained(view, msgs[..|msgs| - 1]), msgs[|msgs| - 1])
  }

  /** What one message does to the set of identifiers on display. */
  function Shown(ids: set<Id>, m: ClientMsg): set<Id> {
    match m
    case AddDrawable(id, _) => ids + {id}
    case DelDrawable(id) => ids - {id}
    case _ => ids
  }

  lemma ReceiveShows(view: map<Id, Drawable>, m: ClientMsg)
    ensures Receive(view, m).Keys == Shown(view.Keys, m)
  {
  }

  lemma DrainedAppend(view: map<Id, Drawable>, msgs: seq<ClientMsg>, m: ClientMsg)
    ensures Drained(view, msgs + [m]) == Receive(Drained(view, msgs), m)
  {
    assert (msgs + [m])[..|msgs|] == msgs;
  }

  /** Receiving the first message and then the rest is receiving them all. */
  lemma {:induction false} DrainFirst(view: map<Id, Drawable>, msgs: seq<ClientMsg>)
    requires msgs != []
    ensures Drained(Receive(view, msgs[0]), msgs[1..]) == Drained(view, msgs)
    decreases |msgs|
  {
    if |msgs| > 1 {
      var front, last := msgs[..|msgs| - 1], msgs[|msgs| - 1];
      DrainFirst(view, front);
      assert msgs[1..][..|msgs| - 2] == front[1..];
    }
  }

  predicate AllTrans(msgs: seq<ClientMsg>) {
    forall k :: 0 <= k < |msgs| ==> msgs[k].TransDrawable?
  }

  /** Transforms never bring an identifier onto the display or take one away. */
  lemma {:induction false} TransShowsNothingNew(view: map<Id, Drawable>, msgs: seq<ClientMsg>, trans: seq<ClientMsg>)
    requires AllTrans(trans)
    ensures Drained(view, msgs + trans).Keys == Drained(view, msgs).Keys
    decreases |trans|
  {
    if trans == [] {
      assert msgs + trans == msgs;
    } else {
      var front, last := trans[..|trans| - 1], trans[|trans| - 1];
      TransShowsNothingNew(view, msgs, front);
      assert msgs + trans == (msgs + front) + [last];
      DrainedAppend(view, msgs + front, last);
      ReceiveShows(Drained(view, msgs + front), last);
    }
  }

  // ---- The physics side ----

  /** The identifiers of the characters after all of `msgs`. */
  function CharactersAfter(ids: set<Id>, msgs: seq<PhysicsMsg>): set<Id> {
    if msgs == [] then ids
    else
      var before := CharactersAfter(ids, msgs[..|msgs| - 1]);
      match msgs[|msgs| - 1]
      case AddChar(id) => before + {id}
      case DelChar(id) => before - {id}
      case FromClient(_, _) => before
  }

  /** Every deletion finds its character. */
  ghost predicate DeletesPresent(ids: set<Id>, msgs: seq<PhysicsMsg>) {
    if msgs == [] then true
    else
      var k := |msgs| - 1;
      DeletesPresent(ids, msgs[..k]) && (msgs[k].DelChar? ==> msgs[k].id in CharactersAfter(ids, msgs[..k]))
  }

  function ApplyOne(ids: set<Id>, m: PhysicsMsg): set<Id> {
    match m
    case AddChar(id) => ids + {id}
    case DelChar(id) => ids - {id}
    case FromClient(_, _) => ids
  }

  lemma PhysicsAppend(ids: set<Id>, msgs: seq<PhysicsMsg>, m: PhysicsMsg)
    ensures CharactersAfter(ids, msgs + [m]) == ApplyOne(CharactersAfter(ids, msgs), m)
    ensures DeletesPresent(ids, msgs + [m])
            <==> DeletesPresent(ids, msgs) && (m.DelChar? ==> m.id in CharactersAfter(ids, msgs))
  {
    assert (msgs + [m])[..|msgs|] == msgs;
  }

  /** Taking the first message and then the rest is taking them all. */
  lemma {:induction false} CharactersFirst(ids: set<Id>, msgs: seq<PhysicsMsg>)
    requires msgs != []
    ensures CharactersAfter(ApplyOne(ids, msgs[0]), msgs[1..]) == CharactersAfter(ids, msgs)
    decreases |msgs|
  {
    if |msgs| == 1 {
      assert msgs[..0] == [] && msgs[1..] == [];
    } else {
      var front := msgs[..|msgs| - 1];
      CharactersFirst(ids, front);
      assert msgs[1..][..|msgs| - 2] == front[1..];
    }
  }

  lemma {:induction false} DeletesFirst(ids: set<Id>, msgs: seq<PhysicsMsg>)
    requires msgs != [] && DeletesPresent(ids, msgs)
    ensures msgs[0].DelChar? ==> msgs[0].id in ids
    ensures DeletesPresent(ApplyOne(ids, msgs[0]), msgs[1..])
    decreases |msgs|
  {
    if |msgs| == 1 {
      assert msgs[..0] == [] && msgs[1..] == [];
    } else {
      var front := msgs[..|msgs| - 1];
      DeletesFirst(ids, front);
      CharactersFirst(ids, front);
      assert msgs[1..][..|msgs| - 2] == front[1..];
    }
  }

  // ---- The server's operations ----

  /** What waits in the queue of `c`. */
  function Pending(inbox: map<Client, seq<ClientMsg>>, c: Client): seq<ClientMsg> {
    if c in inbox then inbox[c] else []
  }

  /** `m` pushed to every client of `targets`. */
  function Broadcast(inbox: map<Client, seq<ClientMsg>>, targets: set<Client>, m: ClientMsg)
    : map<Client, seq<ClientMsg>>
  {
    map c | c in inbox.Keys + targets :: if c in targets then Pending(inbox, c) + [m] else inbox[c]
  }

  /** `m` pushed to the loaded clients and then to those in the lobby. */
  function SendAll(s: State, m: ClientMsg): map<Client, seq<ClientMsg>> {
    Broadcast(Broadcast(s.inbox, s.clients.Keys, m), s.lobby, m)
  }

  /** The players in the order in which the client table lists them, then the baddies. */
  function Greetings(clients: map<Client, Id>, order: seq<Client>, baddies: seq<Baddie>): seq<ClientMsg>
    requires forall c :: c in order ==> c in clients
  {
    seq(|order|, k requires 0 <= k < |order| => AddDrawable(clients[order[k]], PLAYER))
    + seq(|baddies|, k requires 0 <= k < |baddies| => AddDrawable(baddies[k].id, baddies[k].templ))
  }

  /** `addClient`: the new client learns all players and baddies and waits in the lobby. */
  function AddClient(s: State, c: Client, order: seq<Client>): State
    requires forall x :: x in order ==> x in s.clients
  {
    s.(lobby := s.lobby + {c}, joined := s.joined[c := s.nextId],
       views := if c in s.views then s.views else s.views[c := map[]],
       inbox := s.inbox[c := Pending(s.inbox, c) + Greetings(s.clients, order, s.baddies)])
  }

  /** `removeClient`; the table is asked for the client first, and id 0 stands for one that is not loaded. */
  function RemoveClient(s: State, c: Client): State {
    var id := if c in s.clients then s.clients[c] else 0;
    var s' := s.(clients := s.clients - {c}, lobby := s.lobby - {c}, inbox := s.inbox - {c},
                 views := s.views - {c}, joined := s.joined - {c});
    if id == 0 then s'
    else s'.(inbox := SendAll(s', DelDrawable(id)), physicsQueue := s.physicsQueue + [DelChar(id)])
  }

  /** `loadPlayer`; inserting into the table never replaces an entry. */
  function LoadPlayer(s: State, c: Client, templ: seq<Byte>): State
    requires s.nextId < U32
  {
    var id := s.nextId;
    var clients := if c in s.clients then s.clients else s.clients[c := id];
    s.(lobby := s.lobby - {c}, nextId := (id + 1) % U32, clients := clients,
       physicsQueue := s.physicsQueue + [AddChar(id)],
       inbox := Broadcast(s.inbox, clients.Keys, AddDrawable(id, templ)))
  }

  /** `pushClientTransforms`, whatever identifiers the physics thread saw when it made its list. */
  function PushTransforms(s: State, trans: seq<(Id, Matrix)>): State
    decreases |trans|
  {
    if trans == [] then s
    else
      var s', last := PushTransforms(s, trans[..|trans| - 1]), trans[|trans| - 1];
      s'.(inbox := SendAll(s', TransDrawable(last.0, last.1)))
  }

  /** A client takes the next message out of its queue. */
  function ClientReceives(s: State, c: Client): State
    requires c in s.inbox && s.inbox[c] != [] && c in s.views
  {
    s.(inbox := s.inbox[c := s.inbox[c][1..]], views := s.views[c := Receive(s.views[c], s.inbox[c][0])])
  }

  /** `getClientId`: asking for a client that is not in the table enters it with id 0. */
  function GetClientId(s: State, c: Client): (State, Id) {
    if c in s.clients then (s, s.clients[c]) else (s.(clients := s.clients[c := 0]), 0)
  }

  function SetState(characters: map<Id, InputState>, id: Id, state: InputState): map<Id, InputState> {
    if id in characters then characters[id := state] else characters
  }

  /** The physics thread takes the next message out of its queue. */
  function PhysicsReceives(s: State): State
    requires s.physicsQueue != []
  {
    var s' := s.(physicsQueue := s.physicsQueue[1..]);
    match s.physicsQueue[0]
    case AddChar(id) => s'.(characters := s.characters[id := 0])
    case DelChar(id) => s'.(characters := s.characters - {id})
    case FromClient(c, state) =>
      var (s'', id) := GetClientId(s', c);
      s''.(characters := SetState(s.characters, id, state))
  }

  // ---- What every run keeps ----

  function BaddieIds(s: State): set<Id> {
    set k | 0 <= k < |s.baddies| :: s.baddies[k].id
  }

  /** Every living player and baddie. */
  function LiveIds(s: State): set<Id> {
    BaddieIds(s) + s.clients.Values
  }

  /** The player was there when the client connected, or was loaded no earlier than the client itself. */
  predicate Announced(s: State, c: Client, x: Client)
    requires c in s.joined && x in s.clients
  {
    s.clients[x] < s.joined[c] || (c in s.clients && s.clients[c] <= s.clients[x])
  }

  /** What a client must show: the baddies and the living players announced to it. */
  function Visible(s: State, c: Client): set<Id>
    requires c in s.joined
  {
    BaddieIds(s) + set x | x in s.clients && Announced(s, c, x) :: s.clients[x]
  }

  ghost predicate IdsSound(s: State) {
    && 1 <= s.nextId < U32
    && (forall c :: c in s.clients ==> 1 <= s.clients[c] < s.nextId && s.clients[c] !in BaddieIds(s))
    && (forall c, d :: c in s.clients && d in s.clients && c != d ==> s.clients[c] != s.clients[d])
    && (forall k :: 0 <= k < |s.baddies| ==> 1 <= s.baddies[k].id < s.nextId)
    && (forall j, k :: 0 <= j < k < |s.baddies| ==> s.baddies[j].id != s.baddies[k].id)
  }

  ghost predicate TablesSound(s: State) {
    && s.clients.Keys !! s.lobby
    && s.inbox.Keys == s.clients.Keys + s.lobby && s.views.Keys == s.inbox.Keys && s.joined.Keys == s.inbox.Keys
    && (forall c :: c in s.joined ==> s.joined[c] <= s.nextId)
    && (forall c :: c in s.clients ==> s.joined[c] <= s.clients[c])
  }

  ghost predicate ViewsSound(s: State)
    requires s.inbox.Keys == s.views.Keys == s.joined.Keys
  {
    forall c :: c in s.inbox ==> Drained(s.views[c], s.inbox[c]).Keys == Visible(s, c)
  }

  ghost predicate PhysicsSound(s: State) {
    && DeletesPresent(s.characters.Keys, s.physicsQueue)
    && CharactersAfter(s.characters.Keys, s.physicsQueue) == LiveIds(s)
  }

  ghost predicate Inv(s: State) {
    IdsSound(s) && TablesSound(s) && ViewsSound(s) && PhysicsSound(s)
  }

  // ---- Each operation ----

  /** One more message for some clients: how the displays change. */
  lemma BroadcastShows(s: State, c: Client, targets: set<Client>, m: ClientMsg)
    requires c in s.inbox && c in s.views
    ensures Drained(s.views[c], Broadcast(s.inbox, targets, m)[c]).Keys
         == if c in targets then Shown(Drained(s.views[c], s.inbox[c]).Keys, m) else Drained(s.views[c], s.inbox[c]).Keys
  {
    DrainedAppend(s.views[c], s.inbox[c], m);
    ReceiveShows(Drained(s.views[c], s.inbox[c]), m);
  }

  /** Nobody hears a message twice. */
  lemma SendAllOnce(s: State, m: ClientMsg)
    requires s.clients.Keys !! s.lobby
    ensures SendAll(s, m) == Broadcast(s.inbox, s.clients.Keys + s.lobby, m)
    ensures SendAll(s, m).Keys == s.inbox.Keys + s.clients.Keys + s.lobby
  {
  }

  lemma LoadPlayerKeeps(s: State, c: Client, templ: seq<Byte>)
    requires Inv(s) && c in s.lobby && s.nextId + 1 < U32
    ensures Inv(LoadPlayer(s, c, templ))
  {
    LoadTables(s, c, templ);
    LoadViews(s, c, templ);
    LoadPhysics(s, c, templ);
  }

  lemma LoadTables(s: State, c: Client, templ: seq<Byte>)
    requires Inv(s) && c in s.lobby && s.nextId + 1 < U32
    ensures IdsSound(LoadPlayer(s, c, templ)) && TablesSound(LoadPlayer(s, c, templ))
  {
    LoadIds(s, c, templ);
    LoadTable(s, c, templ);
    hide *;
  }

  lemma LoadIds(s: State, c: Client, templ: seq<Byte>)
    requires IdsSound(s) && c !in s.clients && s.nextId + 1 < U32
    ensures IdsSound(LoadPlayer(s, c, templ))
  {
    hide Broadcast;
    assert BaddieIds(LoadPlayer(s, c, templ)) == BaddieIds(s);
    hide BaddieIds;
  }

  lemma LoadTable(s: State, c: Client, templ: seq<Byte>)
    requires TablesSound(s) && c in s.lobby && s.nextId + 1 < U32
    ensures TablesSound(LoadPlayer(s, c, templ))
  {
  }

  lemma LoadViews(s: State, c: Client, templ: seq<Byte>)
    requires Inv(s) && c in s.lobby && s.nextId + 1 < U32 && TablesSound(LoadPlayer(s, c, templ))
    ensures ViewsSound(LoadPlayer(s, c, templ))
  {
    hide IdsSound, PhysicsSound, Visible, Drained, Shown;
    var s', id := LoadPlayer(s, c, templ), s.nextId;
    forall d | d in s'.inbox ensures Drained(s'.views[d], s'.inbox[d]).Keys == Visible(s', d) {
      BroadcastShows(s, d, s'.clients.Keys, AddDrawable(id, templ));
      LoadShows(s, c, templ, d);
      ShownAdd(Visible(s, d), id, templ);
    }
  }

  lemma ShownAdd(ids: set<Id>, id: Id, templ: seq<Byte>)
    ensures Shown(ids, AddDrawable(id, templ)) == ids + {id}
    ensures Shown(ids, DelDrawable(id)) == ids - {id}
  {
  }

  lemma LoadPhysics(s: State, c: Client, templ: seq<Byte>)
    requires Inv(s) && c in s.lobby && s.nextId + 1 < U32
    ensures PhysicsSound(LoadPlayer(s, c, templ))
  {
    hide ViewsSound, IdsSound, CharactersAfter, DeletesPresent;
    var s', id := LoadPlayer(s, c, templ), s.nextId;
    PhysicsAppend(s.characters.Keys, s.physicsQueue, AddChar(id));
    ValuesAdded(s.clients, c, id);
    assert BaddieIds(s') == BaddieIds(s);
  }

  lemma ValuesAdded(m: map<Client, Id>, c: Client, id: Id)
    requires c !in m
    ensures m[c := id].Values == m.Values + {id}
  {
    var m' := m[c := id];
    assert m'[c] == id && forall x :: x in m ==> m'[x] == m[x];
    forall y | y in m'.Values ensures y in m.Values + {id} {
      var x :| x in m' && m'[x] == y;
      assert x != c ==> x in m && m[x] == y;
    }
    forall y | y in m.Values ensures y in m'.Values {
      var x :| x in m && m[x] == y;
      assert m'[x] == y;
    }
  }

  lemma LoadShows(s: State, c: Client, templ: seq<Byte>, d: Client)
    requires IdsSound(s) && TablesSound(s) && c in s.lobby && s.nextId + 1 < U32 && d in s.inbox
    ensures var s' := LoadPlayer(s, c, templ);
            Visible(s', d) == if d in s'.clients then Visible(s, d) + {s.nextId} else Visible(s, d)
  {
    var s', id := LoadPlayer(s, c, templ), s.nextId;
    LoadAnnounces(s, c, templ, d);
    hide IdsSound, TablesSound, LoadPlayer, Announced, BaddieIds;
    forall y | y in Visible(s, d) ensures y in Visible(s', d) {
      if y !in BaddieIds(s) {
        var x :| x in s.clients && Announced(s, d, x) && s.clients[x] == y;
        assert Announced(s', d, x);
      }
    }
    forall y | y in Visible(s', d) && y != id ensures y in Visible(s, d) {
      if y !in BaddieIds(s) {
        var x :| x in s'.clients && Announced(s', d, x) && s'.clients[x] == y;
        assert x in s.clients && Announced(s, d, x);
      }
    }
  }

  /** Loading announces the new player to the loaded clients, its own among them, and nobody else anew. */
  lemma LoadAnnounces(s: State, c: Client, templ: seq<Byte>, d: Client)
    requires IdsSound(s) && TablesSound(s) && c in s.lobby && s.nextId + 1 < U32 && d in s.inbox
    ensures var s' := LoadPlayer(s, c, templ);
            && BaddieIds(s') == BaddieIds(s) && d in s.joined && d in s'.joined
            && s'.clients == s.clients[c := s.nextId] && c !in s.clients
            && (Announced(s', d, c) <==> d in s'.clients)
            && forall x :: x in s.clients ==> (Announced(s', d, x) <==> Announced(s, d, x))
  {
    hide Broadcast;
    assert BaddieIds(LoadPlayer(s, c, templ)) == BaddieIds(s);
    hide BaddieIds;
  }

  predicate Connected(s: State, c: Client) {
    c in s.clients || c in s.lobby
  }

  lemma RemoveClientKeeps(s: State, c: Client)
    requires Inv(s) && Connected(s, c)
    ensures Inv(RemoveClient(s, c))
  {
    RemoveTables(s, c);
    RemoveViews(s, c);
    RemovePhysics(s, c);
  }

  lemma RemoveTables(s: State, c: Client)
    requires IdsSound(s) && TablesSound(s) && Connected(s, c)
    ensures IdsSound(RemoveClient(s, c)) && TablesSound(RemoveClient(s, c))
  {
    hide SendAll;
    assert BaddieIds(RemoveClient(s, c)) == BaddieIds(s);
    RemoveKeys(s, c);
    RemoveLeavesTables(s, RemoveClient(s, c), c);
  }

  lemma RemoveLeavesTables(s: State, s': State, c: Client)
    requires TablesSound(s)
    requires s'.clients == s.clients - {c} && s'.lobby == s.lobby - {c} && s'.nextId == s.nextId
    requires s'.joined == s.joined - {c} && s'.views == s.views - {c} && s'.inbox.Keys == s.inbox.Keys - {c}
    ensures TablesSound(s')
  {
  }

  lemma RemoveKeys(s: State, c: Client)
    requires IdsSound(s) && TablesSound(s) && Connected(s, c)
    ensures RemoveClient(s, c).inbox.Keys == s.inbox.Keys - {c}
  {
    hide SendAll;
    if c in s.clients {
      var s' := RemoveClient(s, c);
      SendAllOnce(s'.(inbox := s.inbox - {c}, physicsQueue := s.physicsQueue), DelDrawable(s.clients[c]));
    }
  }

  lemma RemoveViews(s: State, c: Client)
    requires Inv(s) && Connected(s, c) && TablesSound(RemoveClient(s, c))
    ensures ViewsSound(RemoveClient(s, c))
  {
    var s' := RemoveClient(s, c);
    hide IdsSound, PhysicsSound, Visible, Without, RemoveClient;
    forall d | d in s'.inbox ensures Drained(s'.views[d], s'.inbox[d]).Keys == Visible(s', d) {
      RemoveSends(s, c, d);
      RemoveShows(s, c, d);
      assert Drained(s.views[d], s.inbox[d]).Keys == Visible(s, d);
    }
  }

  /** `ids` without the player of `c`. */
  function Without(s: State, c: Client, ids: set<Id>): set<Id> {
    if c in s.clients then ids - {s.clients[c]} else ids
  }

  lemma RemoveSends(s: State, c: Client, d: Client)
    requires Inv(s) && Connected(s, c) && d in RemoveClient(s, c).inbox
    ensures var s' := RemoveClient(s, c);
            && d != c && d in s.inbox && d in s.views && d in s'.views
            && Drained(s'.views[d], s'.inbox[d]).Keys == Without(s, c, Drained(s.views[d], s.inbox[d]).Keys)
  {
    hide ViewsSound, PhysicsSound, Drained, SendAll;
    var s' := RemoveClient(s, c);
    if c in s.clients {
      var m := DelDrawable(s.clients[c]);
      var left := s'.(inbox := s.inbox - {c}, physicsQueue := s.physicsQueue);
      SendAllOnce(left, m);
      BroadcastShows(left, d, left.clients.Keys + left.lobby, m);
    }
  }

  lemma RemoveShows(s: State, c: Client, d: Client)
    requires IdsSound(s) && TablesSound(s) && Connected(s, c) && d in s.inbox && d != c
    ensures d in RemoveClient(s, c).joined
    ensures Visible(RemoveClient(s, c), d) == Without(s, c, Visible(s, d))
  {
    hide SendAll;
    var s' := RemoveClient(s, c);
    assert s'.clients == s.clients - {c} && s'.joined == s.joined - {c} && s'.baddies == s.baddies;
    assert d in s'.joined;
    hide RemoveClient;
    RemoveHides(s, s', c, d);
    RemoveLeaves(s, s', c, d);
    assert c in s.clients ==> s.clients[c] !in Visible(s', d);
    hide Visible;
  }

  /** What a remaining client must show is what it had to show before, except for the player that left. */
  lemma RemoveHides(s: State, s': State, c: Client, d: Client)
    requires IdsSound(s) && s'.clients == s.clients - {c} && s'.joined == s.joined - {c} && s'.baddies == s.baddies
    requires d in s.joined && d != c
    ensures forall y :: y in Visible(s', d) ==> y in Visible(s, d) && (c in s.clients ==> y != s.clients[c])
  {
    forall y | y in Visible(s', d) ensures y in Visible(s, d) && (c in s.clients ==> y != s.clients[c]) {
      if y !in BaddieIds(s) {
        var x :| x in s'.clients && Announced(s', d, x) && s'.clients[x] == y;
        assert Announced(s, d, x);
      }
    }
  }

  lemma RemoveLeaves(s: State, s': State, c: Client, d: Client)
    requires s'.clients == s.clients - {c} && s'.joined == s.joined - {c} && s'.baddies == s.baddies
    requires d in s.joined && d != c
    ensures forall y :: y in Visible(s, d) && (c in s.clients ==> y != s.clients[c]) ==> y in Visible(s', d)
  {
    forall y | y in Visible(s, d) && (c in s.clients ==> y != s.clients[c]) ensures y in Visible(s', d) {
      if y !in BaddieIds(s') {
        var x :| x in s.clients && Announced(s, d, x) && s.clients[x] == y;
        assert Announced(s', d, x);
      }
    }
  }

  lemma RemovePhysics(s: State, c: Client)
    requires Inv(s) && Connected(s, c)
    ensures PhysicsSound(RemoveClient(s, c))
  {
    var s' := RemoveClient(s, c);
    RemoveLives(s, c);
    assert s'.characters == s.characters;
    assert s'.physicsQueue == if c in s.clients then s.physicsQueue + [DelChar(s.clients[c])] else s.physicsQueue;
    hide ViewsSound, TablesSound, IdsSound, CharactersAfter, DeletesPresent, LiveIds, RemoveClient;
    if c in s.clients {
      PhysicsAppend(s.characters.Keys, s.physicsQueue, DelChar(s.clients[c]));
    }
  }

  /** The living without the player that left. */
  lemma RemoveLives(s: State, c: Client)
    requires IdsSound(s)
    ensures LiveIds(RemoveClient(s, c)) == Without(s, c, LiveIds(s))
    ensures c in s.clients ==> s.clients[c] in LiveIds(s)
  {
    var s' := RemoveClient(s, c);
    assert s'.clients == s.clients - {c} && BaddieIds(s') == BaddieIds(s);
    hide RemoveClient;
    if c in s.clients {
      ValuesRemoved(s.clients, c);
    } else {
      assert s'.clients == s.clients;
    }
  }

  lemma ValuesRemoved(m: map<Client, Id>, c: Client)
    requires c in m && forall x, y :: x in m && y in m && x != y ==> m[x] != m[y]
    ensures (m - {c}).Values == m.Values - {m[c]} && m[c] in m.Values
  {
    var m' := m - {c};
    forall y | y in m'.Values ensures y in m.Values && y != m[c] {
      var x :| x in m' && m'[x] == y;
      assert x in m && m[x] == y;
    }
    forall y | y in m.Values && y != m[c] ensures y in m'.Values {
      var x :| x in m && m[x] == y;
      assert m'[x] == y;
    }
  }

  /** `order` lists the client table. */
  predicate Lists(order: seq<Client>, clients: map<Client, Id>) {
    && (forall x :: x in order ==> x in clients)
    && (forall x :: x in clients ==> x in order)
    && (forall j, k :: 0 <= j < k < |order| ==> order[j] != order[k])
  }

  lemma AddClientKeeps(s: State, c: Client, order: seq<Client>)
    requires Inv(s) && !Connected(s, c) && Lists(order, s.clients)
    ensures Inv(AddClient(s, c, order))
  {
    AddTables(s, c, order);
    AddViews(s, c, order);
    hide IdsSound, TablesSound, ViewsSound, LiveIds, CharactersAfter, DeletesPresent;
  }

  lemma AddTables(s: State, c: Client, order: seq<Client>)
    requires IdsSound(s) && TablesSound(s) && !Connected(s, c) && Lists(order, s.clients)
    ensures IdsSound(AddClient(s, c, order)) && TablesSound(AddClient(s, c, order))
    ensures LiveIds(AddClient(s, c, order)) == LiveIds(s)
  {
    hide Greetings;
    assert BaddieIds(AddClient(s, c, order)) == BaddieIds(s);
  }

  lemma AddViews(s: State, c: Client, order: seq<Client>)
    requires Inv(s) && !Connected(s, c) && Lists(order, s.clients) && TablesSound(AddClient(s, c, order))
    ensures ViewsSound(AddClient(s, c, order))
  {
    hide IdsSound, PhysicsSound, Visible, Drained, Greetings;
    var s' := AddClient(s, c, order);
    GreetingsShow(s, c, order);
    assert [] + Greetings(s.clients, order, s.baddies) == Greetings(s.clients, order, s.baddies);
    forall d | d in s'.inbox ensures Drained(s'.views[d], s'.inbox[d]).Keys == Visible(s', d) {
      if d != c {
        VisibleKeeps(s, c, order, d);
      }
    }
  }

  lemma VisibleKeeps(s: State, c: Client, order: seq<Client>, d: Client)
    requires Lists(order, s.clients) && d in s.joined && d != c
    ensures Visible(AddClient(s, c, order), d) == Visible(s, d)
  {
    var s' := AddClient(s, c, order);
    assert BaddieIds(s') == BaddieIds(s);
    assert forall x :: x in s.clients ==> (Announced(s', d, x) <==> Announced(s, d, x));
  }

  predicate AllAdds(msgs: seq<ClientMsg>) {
    forall k :: 0 <= k < |msgs| ==> msgs[k].AddDrawable?
  }

  lemma {:induction false} AddsShow(view: map<Id, Drawable>, msgs: seq<ClientMsg>)
    requires AllAdds(msgs)
    ensures forall y :: y in Drained(view, msgs) <==> y in view || exists k :: 0 <= k < |msgs| && msgs[k].id == y
    decreases |msgs|
  {
    if msgs != [] {
      var k := |msgs| - 1;
      AddsShow(view, msgs[..k]);
      ReceiveShows(Drained(view, msgs[..k]), msgs[k]);
      forall y ensures y in Drained(view, msgs) <==> y in view || exists j :: 0 <= j < |msgs| && msgs[j].id == y {
        if j :| 0 <= j < |msgs| && msgs[j].id == y {
          assert j < k ==> msgs[..k][j].id == y;
        }
        if j :| 0 <= j < k && msgs[..k][j].id == y {
          assert msgs[j].id == y;
        }
      }
    }
  }

  lemma GreetingsShow(s: State, c: Client, order: seq<Client>)
    requires Inv(s) && !Connected(s, c) && Lists(order, s.clients)
    ensures Drained(map[], Greetings(s.clients, order, s.baddies)).Keys == Visible(AddClient(s, c, order), c)
  {
    NewcomerSees(s, c, order);
    GreetedIds(s.clients, order, s.baddies);
    hide IdsSound, TablesSound, ViewsSound, PhysicsSound, Greetings, Drained, Visible;
  }

  /** The greetings name every player in the table and every baddie. */
  lemma GreetedIds(clients: map<Client, Id>, order: seq<Client>, baddies: seq<Baddie>)
    requires Lists(order, clients)
    ensures Drained(map[], Greetings(clients, order, baddies)).Keys
         == (set k | 0 <= k < |baddies| :: baddies[k].id) + clients.Values
  {
    var msgs, n := Greetings(clients, order, baddies), |order|;
    AddsShow(map[], msgs);
    hide Drained;
    forall y | y in Drained(map[], msgs) ensures y in (set k | 0 <= k < |baddies| :: baddies[k].id) + clients.Values {
      var k :| 0 <= k < |msgs| && msgs[k].id == y;
      if k < n {
        assert order[k] in clients && clients[order[k]] == y;
      } else {
        assert baddies[k - n].id == y;
      }
    }
    forall y | y in (set k | 0 <= k < |baddies| :: baddies[k].id) + clients.Values ensures y in Drained(map[], msgs) {
      if y in clients.Values {
        var x :| x in clients && clients[x] == y;
        var k :| 0 <= k < n && order[k] == x;
        assert msgs[k].id == y;
      } else {
        var k :| 0 <= k < |baddies| && baddies[k].id == y;
        assert msgs[n + k].id == y;
      }
    }
  }

  lemma NewcomerSees(s: State, c: Client, order: seq<Client>)
    requires IdsSound(s) && TablesSound(s) && !Connected(s, c) && Lists(order, s.clients)
    ensures Visible(AddClient(s, c, order), c) == BaddieIds(s) + s.clients.Values
  {
    hide TablesSound;
    var s' := AddClient(s, c, order);
    assert BaddieIds(s') == BaddieIds(s);
    forall x | x in s.clients ensures Announced(s', c, x) {
    }
  }

  predicate SameServer(s: State, s': State) {
    && s'.clients == s.clients && s'.lobby == s.lobby && s'.nextId == s.nextId && s'.baddies == s.baddies
    && s'.joined == s.joined && s'.inbox.Keys == s.inbox.Keys && s'.views.Keys == s.views.Keys
  }

  /** What does not touch the server's tables keeps all that is said about them. */
  lemma SameTables(s: State, s': State)
    requires SameServer(s, s') && IdsSound(s) && TablesSound(s)
    ensures IdsSound(s') && TablesSound(s') && LiveIds(s') == LiveIds(s)
  {
    SameIds(s, s');
    SameTable(s, s');
    hide IdsSound, TablesSound, BaddieIds;
  }

  lemma SameIds(s: State, s': State)
    requires SameServer(s, s') && IdsSound(s)
    ensures IdsSound(s') && BaddieIds(s') == BaddieIds(s)
  {
    assert BaddieIds(s') == BaddieIds(s);
    hide BaddieIds;
  }

  lemma SameTable(s: State, s': State)
    requires SameServer(s, s') && TablesSound(s)
    ensures TablesSound(s')
  {
  }

  lemma SameVisible(s: State, s': State, d: Client)
    requires SameServer(s, s') && d in s.joined
    ensures Visible(s', d) == Visible(s, d)
  {
    assert BaddieIds(s') == BaddieIds(s);
    assert forall x :: x in s.clients ==> (Announced(s', d, x) <==> Announced(s, d, x));
  }

  /** Views stay right when every client's pending display stays the same. */
  lemma SameViews(s: State, s': State)
    requires SameServer(s, s') && TablesSound(s) && TablesSound(s') && ViewsSound(s)
    requires forall d :: d in s'.inbox ==> Drained(s'.views[d], s'.inbox[d]).Keys == Drained(s.views[d], s.inbox[d]).Keys
    ensures ViewsSound(s')
  {
    hide Visible, Drained;
    forall d | d in s'.inbox ensures Drained(s'.views[d], s'.inbox[d]).Keys == Visible(s', d) {
      SameVisible(s, s', d);
    }
  }

  lemma {:induction false} PushTransformsKeeps(s: State, trans: seq<(Id, Matrix)>)
    requires Inv(s)
    ensures Inv(PushTransforms(s, trans))
    decreases |trans|
  {
    hide Inv, SendAll;
    if trans != [] {
      var s', last := PushTransforms(s, trans[..|trans| - 1]), trans[|trans| - 1];
      PushTransformsKeeps(s, trans[..|trans| - 1]);
      TransformKeeps(s', last.0, last.1);
    }
  }

  lemma TransformKeeps(s: State, id: Id, transform: Matrix)
    requires Inv(s)
    ensures Inv(s.(inbox := SendAll(s, TransDrawable(id, transform))))
  {
    hide IdsSound, LiveIds, BaddieIds, Drained, CharactersAfter, DeletesPresent, Visible;
    var m := TransDrawable(id, transform);
    var s' := s.(inbox := SendAll(s, m));
    SendAllOnce(s, m);
    SameTables(s, s');
    forall d | d in s'.inbox ensures Drained(s'.views[d], s'.inbox[d]).Keys == Drained(s.views[d], s.inbox[d]).Keys {
      BroadcastShows(s, d, s.clients.Keys + s.lobby, m);
    }
    SameViews(s, s');
  }

  lemma ClientReceivesKeeps(s: State, c: Client)
    requires Inv(s) && c in s.inbox && s.inbox[c] != []
    ensures c in s.views && Inv(ClientReceives(s, c))
  {
    hide IdsSound, LiveIds, BaddieIds, Drained, CharactersAfter, DeletesPresent, Receive, Visible;
    var s' := ClientReceives(s, c);
    SameTables(s, s');
    DrainFirst(s.views[c], s.inbox[c]);
    SameViews(s, s');
  }

  lemma PhysicsReceivesKeeps(s: State)
    requires Inv(s) && s.physicsQueue != []
    requires s.physicsQueue[0].FromClient? ==> s.physicsQueue[0].client in s.clients
    ensures Inv(PhysicsReceives(s))
    ensures s.physicsQueue[0].DelChar? ==> s.physicsQueue[0].id in s.characters
  {
    var s' := PhysicsReceives(s);
    PhysicsChanges(s);
    SameTables(s, s');
    CharactersFirst(s.characters.Keys, s.physicsQueue);
    DeletesFirst(s.characters.Keys, s.physicsQueue);
    hide IdsSound, LiveIds, BaddieIds, Drained, CharactersAfter, DeletesPresent, PhysicsReceives, ApplyOne;
    SameViews(s, s');
  }

  lemma PhysicsChanges(s: State)
    requires s.physicsQueue != [] && (s.physicsQueue[0].FromClient? ==> s.physicsQueue[0].client in s.clients)
    ensures var s' := PhysicsReceives(s);
            && SameServer(s, s') && s'.inbox == s.inbox && s'.views == s.views && s'.physicsQueue == s.physicsQueue[1..]
            && s'.characters.Keys == ApplyOne(s.characters.Keys, s.physicsQueue[0])
  {
    match s.physicsQueue[0]
    case AddChar(id) => assert (s.characters[id := 0]).Keys == s.characters.Keys + {id};
    case DelChar(id) => assert (s.characters - {id}).Keys == s.characters.Keys - {id};
    case FromClient(c, state) => assert SetState(s.characters, s.clients[c], state).Keys == s.characters.Keys;
  }

  /** The server passes a client's input on to the physics thread. */
  function ForwardInput(s: State, c: Client, state: InputState): State {
    s.(physicsQueue := s.physicsQueue + [FromClient(c, state)])
  }

  lemma ForwardInputKeeps(s: State, c: Client, state: InputState)
    requires Inv(s)
    ensures Inv(ForwardInput(s, c, state))
  {
    hide IdsSound, TablesSound, LiveIds, Drained, CharactersAfter, DeletesPresent;
    var s' := ForwardInput(s, c, state);
    SameTables(s, s');
    PhysicsAppend(s.characters.Keys, s.physicsQueue, FromClient(c, state));
    SameViews(s, s');
    hide ViewsSound;
  }

  // ---- Runs ----

  datatype Op =
    | Connect(c: Client, order: seq<Client>)
    | Disconnect(c: Client)
    | Load(c: Client, templ: seq<Byte>)
    | SendInput(c: Client, state: InputState)
    | Tick(trans: seq<(Id, Matrix)>)
    | ClientTakes(c: Client)
    | PhysicsTakes

  /**
   * Clients connect once at a time, load from the lobby, and stay loaded until the physics thread has
   * taken their input; fewer than 2^32 identifiers are handed out.
   */
  ghost predicate Legal(s: State, op: Op) {
    match op
    case Connect(c, order) => !Connected(s, c) && Lists(order, s.clients)
    case Disconnect(c) => Connected(s, c)
    case Load(c, _) => c in s.lobby && s.nextId + 1 < U32
    case SendInput(_, _) => true
    case Tick(_) => true
    case ClientTakes(c) => c in s.inbox && c in s.views && s.inbox[c] != []
    case PhysicsTakes =>
      s.physicsQueue != [] && (s.physicsQueue[0].FromClient? ==> s.physicsQueue[0].client in s.clients)
  }

  ghost function Apply(s: State, op: Op): State
    requires Legal(s, op)
  {
    match op
    case Connect(c, order) => AddClient(s, c, order)
    case Disconnect(c) => RemoveClient(s, c)
    case Load(c, templ) => LoadPlayer(s, c, templ)
    case SendInput(c, state) => ForwardInput(s, c, state)
    case Tick(trans) => PushTransforms(s, trans)
    case ClientTakes(c) => ClientReceives(s, c)
    case PhysicsTakes => PhysicsReceives(s)
  }

  /** The world is loaded: the baddies are on their way to the physics thread, and nobody is connected. */
  function Initial(baddies: seq<Baddie>, nextId: nat): State {
    State(map[], {}, nextId, baddies, map[], map[], map[],
          seq(|baddies|, k requires 0 <= k < |baddies| => AddChar(baddies[k].id)), map[])
  }

  ghost predicate SoundWorld(baddies: seq<Baddie>, nextId: nat) {
    && 1 <= nextId < U32
    && (forall k :: 0 <= k < |baddies| ==> 1 <= baddies[k].id < nextId)
    && (forall j, k :: 0 <= j < k < |baddies| ==> baddies[j].id != baddies[k].id)
  }

  function IdsIn(msgs: seq<PhysicsMsg>): set<Id>
    requires forall k :: 0 <= k < |msgs| ==> msgs[k].AddChar?
  {
    set k | 0 <= k < |msgs| :: msgs[k].id
  }

  lemma {:induction false} AddedCharacters(msgs: seq<PhysicsMsg>)
    requires forall k :: 0 <= k < |msgs| ==> msgs[k].AddChar?
    ensures CharactersAfter({}, msgs) == IdsIn(msgs)
    ensures DeletesPresent({}, msgs)
    decreases |msgs|
  {
    if msgs != [] {
      var n := |msgs| - 1;
      var front := msgs[..n];
      AddedCharacters(front);
      forall y | y in IdsIn(front) ensures y in IdsIn(msgs) {
        var k :| 0 <= k < |front| && front[k].id == y;
        assert msgs[k].id == y;
      }
      forall y | y in IdsIn(msgs) ensures y in IdsIn(front) + {msgs[n].id} {
        var k :| 0 <= k < |msgs| && msgs[k].id == y;
        assert k < n ==> front[k].id == y;
      }
    }
  }

  lemma InitialSound(baddies: seq<Baddie>, nextId: nat)
    requires SoundWorld(baddies, nextId)
    ensures Inv(Initial(baddies, nextId))
  {
    var s := Initial(baddies, nextId);
    InitialPhysics(baddies, nextId);
    hide CharactersAfter, DeletesPresent, Visible, BaddieIds;
    assert s.characters.Keys == {} && LiveIds(s) == BaddieIds(s);
    assert s.clients.Keys == {} && s.lobby == {} && s.inbox.Keys == {} && s.views.Keys == {} && s.joined.Keys == {};
    assert IdsSound(s) && TablesSound(s) && ViewsSound(s);
  }

  lemma InitialPhysics(baddies: seq<Baddie>, nextId: nat)
    ensures var s := Initial(baddies, nextId);
            DeletesPresent({}, s.physicsQueue) && CharactersAfter({}, s.physicsQueue) == BaddieIds(s)
  {
    var s := Initial(baddies, nextId);
    AddedCharacters(s.physicsQueue);
    forall y | y in BaddieIds(s) ensures y in IdsIn(s.physicsQueue) {
      var k :| 0 <= k < |baddies| && baddies[k].id == y;
      assert s.physicsQueue[k].id == y;
    }
    forall y | y in IdsIn(s.physicsQueue) ensures y in BaddieIds(s) {
      var k :| 0 <= k < |s.physicsQueue| && s.physicsQueue[k].id == y;
      assert baddies[k].id == y;
    }
  }

  lemma ApplyKeeps(s: State, op: Op)
    requires Inv(s) && Legal(s, op)
    ensures Inv(Apply(s, op))
  {
    hide Inv;
    match op
    case Connect(c, order) => AddClientKeeps(s, c, order);
    case Disconnect(c) => RemoveClientKeeps(s, c);
    case Load(c, templ) => LoadPlayerKeeps(s, c, templ);
    case SendInput(c, state) => ForwardInputKeeps(s, c, state);
    case Tick(trans) => PushTransformsKeeps(s, trans);
    case ClientTakes(c) => ClientReceivesKeeps(s, c);
    case PhysicsTakes => PhysicsReceivesKeeps(s);
  }

  /** The state after a run; operations that are not legal where they stand are skipped. */
  ghost function Execute(baddies: seq<Baddie>, nextId: nat, ops: seq<Op>): State {
    if ops == [] then Initial(baddies, nextId)
    else
      var s := Execute(baddies, nextId, ops[..|ops| - 1]);
      if Legal(s, ops[|ops| - 1]) then Apply(s, ops[|ops| - 1]) else s
  }

  lemma {:induction false} RunKeeps(baddies: seq<Baddie>, nextId: nat, ops: seq<Op>)
    requires SoundWorld(baddies, nextId)
    ensures Inv(Execute(baddies, nextId, ops))
    decreases |ops|
  {
    hide Inv, Legal, Apply;
    if ops == [] {
      InitialSound(baddies, nextId);
    } else {
      var before := Execute(baddies, nextId, ops[..|ops| - 1]);
      RunKeeps(baddies, nextId, ops[..|ops| - 1]);
      if Legal(before, ops[|ops| - 1]) {
        ApplyKeeps(before, ops[|ops| - 1]);
      }
    }
  }

  /**
   * Replicated views have no ghosts: a client whose inbox is empty shows exactly the baddies and the
   * living players that were there when it connected or came no earlier than its own. Identifiers stay
   * unique and no client is both in the lobby and loaded.
   */
  lemma NoGhosts(baddies: seq<Baddie>, nextId: nat, ops: seq<Op>, c: Client)
    requires SoundWorld(baddies, nextId)
    ensures var s := Execute(baddies, nextId, ops);
            && s.clients.Keys !! s.lobby && IdsSound(s)
            && (c in s.inbox && s.inbox[c] == [] ==> c in s.views && c in s.joined && s.views[c].Keys == Visible(s, c))
  {
    RunKeeps(baddies, nextId, ops);
  }

  /**
   * Physics agrees with the server: once its queue is empty its characters are the players and baddies,
   * and whatever the queue holds, a deletion at its head finds its character.
   */
  lemma PhysicsAgrees(baddies: seq<Baddie>, nextId: nat, ops: seq<Op>)
    requires SoundWorld(baddies, nextId)
    ensures var s := Execute(baddies, nextId, ops);
            && CharactersAfter(s.characters.Keys, s.physicsQueue) == LiveIds(s)
            && (s.physicsQueue == [] ==> s.characters.Keys == LiveIds(s))
            && (s.physicsQueue != [] && s.physicsQueue[0].DelChar? ==> s.physicsQueue[0].id in s.characters)
  {
    RunKeeps(baddies, nextId, ops);
    var s := Execute(baddies, nextId, ops);
    if s.physicsQueue != [] {
      DeletesFirst(s.characters.Keys, s.physicsQueue);
    }
  }

  // ---- The limits of the protocol ----

  /** The identifiers of the characters once the physics thread has taken all that waits for it. */
  function Characters(s: State): set<Id> {
    CharactersAfter(s.characters.Keys, s.physicsQueue)
  }

  /** A run from any state; operations that are not legal where they stand are skipped. */
  ghost function Continue(s: State, ops: seq<Op>): State {
    if ops == [] then s
    else
      var s' := Continue(s, ops[..|ops| - 1]);
      if Legal(s', ops[|ops| - 1]) then Apply(s', ops[|ops| - 1]) else s'
  }

  /** What one legal operation does to the characters. */
  lemma CharactersChange(s: State, op: Op)
    requires Legal(s, op)
    ensures Characters(Apply(s, op))
         == match op
            case Load(_, _) => Characters(s) + {s.nextId}
            case Disconnect(c) => if c in s.clients && s.clients[c] != 0 then Characters(s) - {s.clients[c]} else Characters(s)
            case _ => Characters(s)
  {
    hide CharactersAfter, SendAll, Greetings, Broadcast;
    match op
    case Load(_, _) => PhysicsAppend(s.characters.Keys, s.physicsQueue, AddChar(s.nextId));
    case Disconnect(c) =>
      if c in s.clients && s.clients[c] != 0 {
        PhysicsAppend(s.characters.Keys, s.physicsQueue, DelChar(s.clients[c]));
      }
    case SendInput(c, state) => PhysicsAppend(s.characters.Keys, s.physicsQueue, FromClient(c, state));
    case PhysicsTakes =>
      PhysicsChanges(s);
      CharactersFirst(s.characters.Keys, s.physicsQueue);
    case Tick(trans) => TransformsAlone(s, trans);
    case _ =>
  }

  /** Transforms touch nothing but the inboxes. */
  lemma {:induction false} TransformsAlone(s: State, trans: seq<(Id, Matrix)>)
    ensures PushTransforms(s, trans) == s.(inbox := PushTransforms(s, trans).inbox)
    decreases |trans|
  {
    if trans != [] {
      TransformsAlone(s, trans[..|trans| - 1]);
    }
  }

  /** What one legal operation does to the client table. */
  lemma ClientsChange(s: State, op: Op)
    requires Legal(s, op)
    ensures var s' := Apply(s, op);
            && s'.baddies == s.baddies
            && s'.nextId == (if op.Load? then s.nextId + 1 else s.nextId)
            && s'.clients == (if op.Load? && op.c !in s.clients then s.clients[op.c := s.nextId]
                              else if op.Disconnect? then s.clients - {op.c} else s.clients)
  {
    hide SendAll, Greetings, Broadcast;
    match op
    case PhysicsTakes => PhysicsChanges(s);
    case Tick(trans) => TransformsAlone(s, trans);
    case _ =>
  }

  /** A character that stands for no living player or baddie and whose identifier has been used up. */
  predicate Stranded(s: State, id: Id) {
    id in Characters(s) && id < s.nextId && id !in s.clients.Values && id !in BaddieIds(s)
  }

  lemma StrandedStays(s: State, op: Op, id: Id)
    requires Legal(s, op) && Stranded(s, id)
    ensures Stranded(Apply(s, op), id)
  {
    CharactersChange(s, op);
    ClientsChange(s, op);
    hide Apply, Legal, Characters;
    assert BaddieIds(Apply(s, op)) == BaddieIds(s);
  }

  /** Whoever comes and goes, a stranded character is never deleted. */
  lemma {:induction false} StrandedForever(s: State, ops: seq<Op>, id: Id)
    requires Stranded(s, id)
    ensures Stranded(Continue(s, ops), id)
    decreases |ops|
  {
    hide Apply, Legal, Stranded;
    if ops != [] {
      var s', op := Continue(s, ops[..|ops| - 1]), ops[|ops| - 1];
      StrandedForever(s, ops[..|ops| - 1], id);
      if Legal(s', op) {
        StrandedStays(s', op, id);
      }
    }
  }

  /** A table entry with a character for a client that never connected, or has gone. */
  predicate Haunted(s: State, c: Client, id: Id) {
    && c in s.clients && s.clients[c] == id && c !in s.joined && c !in s.lobby
    && id in Characters(s) && id < s.nextId
    && forall d :: d in s.clients && d != c ==> s.clients[d] != id
  }

  lemma HauntedStays(s: State, op: Op, c: Client, id: Id)
    requires Legal(s, op) && Haunted(s, c, id) && op != Disconnect(c)
    ensures Haunted(Apply(s, op), c, id)
  {
    CharactersChange(s, op);
    ClientsChange(s, op);
    ConnectsOnly(s, op, c);
    hide Apply, Legal, Characters;
  }

  /** Only connecting brings a client into the lobby or among those that have joined. */
  lemma ConnectsOnly(s: State, op: Op, c: Client)
    requires Legal(s, op) && c !in s.joined && c !in s.lobby && c in s.clients
    ensures c !in Apply(s, op).joined && c !in Apply(s, op).lobby
  {
    hide SendAll, Greetings, Broadcast;
    match op
    case PhysicsTakes => PhysicsChanges(s);
    case Tick(trans) => TransformsAlone(s, trans);
    case _ =>
  }

  /** The entry and the character stay until somebody disconnects a client that is not connected. */
  lemma {:induction false} HauntedForever(s: State, ops: seq<Op>, c: Client, id: Id)
    requires Haunted(s, c, id) && Disconnect(c) !in ops
    ensures Haunted(Continue(s, ops), c, id)
    decreases |ops|
  {
    hide Apply, Legal, Haunted;
    if ops != [] {
      var s', op := Continue(s, ops[..|ops| - 1]), ops[|ops| - 1];
      HauntedForever(s, ops[..|ops| - 1], c, id);
      assert op in ops;
      if Legal(s', op) {
        HauntedStays(s', op, c, id);
      }
    }
  }

  /**
   * Loading a player keeps everything in step if and only if the client waits in the lobby. For one that is
   * loaded already it strands a character for good, whatever happens next; for one that is not connected it
   * makes a table entry and a character that stay as long as nobody disconnects that client.
   */
  lemma LoadPlayerNeedsLobby(s: State, c: Client, templ: seq<Byte>, ops: seq<Op>)
    requires Inv(s) && s.nextId + 1 < U32
    ensures Inv(LoadPlayer(s, c, templ)) <==> c in s.lobby
    ensures c in s.clients ==> Stranded(Continue(LoadPlayer(s, c, templ), ops), s.nextId)
    ensures !Connected(s, c) && Disconnect(c) !in ops ==> Haunted(Continue(LoadPlayer(s, c, templ), ops), c, s.nextId)
  {
    if c in s.lobby {
      LoadPlayerKeeps(s, c, templ);
    } else if c in s.clients {
      SecondLoadStrands(s, c, templ);
      hide Stranded;
      StrandedForever(LoadPlayer(s, c, templ), ops, s.nextId);
    } else {
      LateLoadHaunts(s, c, templ);
      hide Haunted;
      if Disconnect(c) !in ops {
        HauntedForever(LoadPlayer(s, c, templ), ops, c, s.nextId);
      }
    }
  }

  /** A second load leaves a character that no client owns: the table keeps the old entry. */
  lemma SecondLoadStrands(s: State, c: Client, templ: seq<Byte>)
    requires Inv(s) && s.nextId + 1 < U32 && c in s.clients
    ensures !PhysicsSound(LoadPlayer(s, c, templ)) && Stranded(LoadPlayer(s, c, templ), s.nextId)
  {
    var s' := LoadPlayer(s, c, templ);
    LoadAddsCharacter(s, c, templ);
    hide LoadPlayer, ViewsSound, TablesSound, Characters;
    assert BaddieIds(s') == BaddieIds(s);
    UnsoundPhysics(s', s.nextId);
  }

  lemma LoadAddsCharacter(s: State, c: Client, templ: seq<Byte>)
    requires s.nextId + 1 < U32
    ensures var s' := LoadPlayer(s, c, templ);
            && Characters(s') == Characters(s) + {s.nextId} && s'.nextId == s.nextId + 1 && s'.baddies == s.baddies
            && (c in s.clients ==> s'.clients == s.clients)
  {
    hide CharactersAfter, Broadcast;
    PhysicsAppend(s.characters.Keys, s.physicsQueue, AddChar(s.nextId));
  }

  lemma UnsoundPhysics(s: State, id: Id)
    requires Stranded(s, id)
    ensures !PhysicsSound(s)
  {
    hide CharactersAfter, DeletesPresent, BaddieIds;
  }

  /** A load for a client that is not connected enters it all the same. */
  lemma LateLoadHaunts(s: State, c: Client, templ: seq<Byte>)
    requires Inv(s) && s.nextId + 1 < U32 && !Connected(s, c)
    ensures !TablesSound(LoadPlayer(s, c, templ)) && Haunted(LoadPlayer(s, c, templ), c, s.nextId)
  {
    hide ViewsSound;
    PhysicsAppend(s.characters.Keys, s.physicsQueue, AddChar(s.nextId));
  }

  /**
   * Looking up a client keeps everything in step if and only if the client is loaded. For any other the
   * table then holds a player with identifier 0, for which there is no character.
   */
  lemma LookupNeedsLoadedClient(s: State, c: Client)
    requires Inv(s)
    ensures Inv(GetClientId(s, c).0) <==> c in s.clients
    ensures PhysicsSound(GetClientId(s, c).0) <==> c in s.clients
    ensures c !in s.clients ==> 0 in LiveIds(GetClientId(s, c).0) && 0 !in Characters(GetClientId(s, c).0)
  {
    if c !in s.clients {
      var s' := GetClientId(s, c).0;
      assert s'.clients[c] == 0;
      assert 0 in s'.clients.Values;
      assert 0 !in LiveIds(s);
    }
  }
}

/**
 * The server, the physics thread's bookkeeping and the client's display as objects that update their
 * tables in place, each method tied to the operation of the replication protocol that it performs.
 */
module Server {
  import opened Text
  import opened WireCodec
  import opened Replication

  /** The drawables of one client. */
  class GlRender {
    var drawables: map<Id, Drawable>

    constructor ()
      ensures drawables == map[]
    {
      drawables := map[];
    }

    method PushMessage(m: ClientMsg)
      modifies this
      ensures drawables == Receive(old(drawables), m)
    {
      match m
      case AddDrawable(id, templ) =>
        if id in drawables {
          return;
        }
        var color := White;
        if templ == PLAYER {
          color := Green;
        } else if templ == BADDIE {
          color := Red;
        }
        drawables := drawables[id := Drawable(color, None)];
      case TransDrawable(id, transform) =>
        if id !in drawables {
          return;
        }
        drawables := drawables[id := drawables[id].(matrix := Some(transform))];
      case DelDrawable(id) =>
        drawables := drawables - {id};
      case _ =>
    }

    /** Messages are taken from the front of the queue. */
    method PushMessages(msgs: seq<ClientMsg>)
      modifies this
      ensures drawables == Drained(old(drawables), msgs)
    {
      var k := 0;
      while k < |msgs|
        invariant 0 <= k <= |msgs|
        invariant drawables == Drained(old(drawables), msgs[..k])
      {
        PushMessage(msgs[k]);
        assert msgs[..k + 1] == msgs[..k] + [msgs[k]];
        DrainedAppend(old(drawables), msgs[..k], msgs[k]);
        k := k + 1;
      }
      assert msgs[..k] == msgs;
    }
  }

  /** The physics thread: its queue and the state of every character. */
  class BtPhysics {
    var queue: seq<PhysicsMsg>
    var characters: map<Id, InputState>

    constructor ()
      ensures queue == [] && characters == map[]
    {
      queue, characters := [], map[];
    }

    method PushMessage(m: PhysicsMsg)
      modifies `queue
      ensures queue == old(queue) + [m]
    {
      queue := queue + [m];
    }

    method SetInputStateCallback(id: Id, state: InputState)
      modifies `characters
      ensures characters == SetState(old(characters), id, state)
    {
      if id in characters {
        characters := characters[id := state];
      }
    }

    /** The bookkeeping for one message; only the input of a client asks the server anything. */
    method ParseMessage(m: PhysicsMsg, server: LocalServer)
      requires server.physics == this
      modifies `characters, server`clients
      ensures server.clients
           == if m.FromClient? && m.client !in old(server.clients) then old(server.clients)[m.client := 0]
              else old(server.clients)
      ensures m.AddChar? ==> characters == old(characters)[m.id := 0]
      ensures m.DelChar? ==> characters == old(characters) - {m.id}
      ensures m.FromClient? ==> characters == SetState(old(characters), server.clients[m.client], m.state)
    {
      match m
      case AddChar(id) =>
        characters := characters[id := 0];
      case DelChar(id) =>
        characters := characters - {id};
      case FromClient(c, state) =>
        var id := server.GetClientId(c);
        SetInputStateCallback(id, state);
    }

    /** The physics thread takes one message and does what it says. */
    method Step(server: LocalServer, ghost s: State)
      requires server.physics == this && server.Shows(s) && queue != []
      modifies this, server`clients
      ensures server.Shows(PhysicsReceives(s))
    {
      var m := queue[0];
      queue := queue[1..];
      ParseMessage(m, server);
    }
  }

  lemma GreetPlayer(clients: map<Client, Id>, order: seq<Client>, x: Client)
    requires x in clients && forall y :: y in order ==> y in clients
    ensures forall y :: y in order + [x] ==> y in clients
    ensures Greetings(clients, order + [x], []) == Greetings(clients, order, []) + [AddDrawable(clients[x], PLAYER)]
  {
  }

  lemma GreetBaddie(clients: map<Client, Id>, order: seq<Client>, baddies: seq<Baddie>, k: nat)
    requires k < |baddies| && forall y :: y in order ==> y in clients
    ensures Greetings(clients, order, baddies[..k + 1])
         == Greetings(clients, order, baddies[..k]) + [AddDrawable(baddies[k].id, baddies[k].templ)]
  {
  }

  lemma NoTransforms(s: State)
    ensures PushTransforms(s, []) == s
  {
  }

  lemma OneTransform(s: State, trans: seq<(Id, Matrix)>, k: nat)
    requires k < |trans|
    ensures var s' := PushTransforms(s, trans[..k]);
            PushTransforms(s, trans[..k + 1]) == s'.(inbox := SendAll(s', TransDrawable(trans[k].0, trans[k].1)))
  {
    assert trans[..k + 1][..k] == trans[..k];
  }

  /** `count` baddies with consecutive identifiers. */
  function Mobs(templ: seq<Byte>, first: nat, count: nat): seq<Baddie>
    requires first + count <= U32
  {
    seq(count, k requires 0 <= k < count => Baddie(templ, first + k))
  }

  lemma WholeColumns(x: nat, columns: nat, rows: nat)
    requires x < columns
    ensures (x + 1) * rows == x * rows + rows <= columns * rows
  {
    var more: nat := columns - x - 1;
    assert columns * rows == (x + 1) * rows + more * rows;
  }

  /** The server; `inbox` holds what has been pushed to each client and not been taken out yet. */
  class LocalServer {
    var clients: map<Client, Id>
    var lobby: set<Client>
    var nextId: nat
    var baddies: seq<Baddie>
    var inbox: map<Client, seq<ClientMsg>>
    const physics: BtPhysics

    constructor (physics: BtPhysics)
      ensures this.physics == physics && clients == map[] && lobby == {} && nextId == 1 && baddies == []
      ensures inbox == map[]
    {
      this.physics := physics;
      clients, lobby, nextId, baddies, inbox := map[], {}, 1, [], map[];
    }

    /** The tables are those of the protocol state `s`. */
    ghost predicate Shows(s: State)
      reads this, physics
    {
      && s.clients == clients && s.lobby == lobby && s.nextId == nextId && s.baddies == baddies && s.inbox == inbox
      && s.physicsQueue == physics.queue && s.characters == physics.characters
    }

    /** A client's queue receives a message. */
    method Push(c: Client, m: ClientMsg)
      modifies `inbox
      ensures inbox == old(inbox)[c := Pending(old(inbox), c) + [m]]
    {
      inbox := inbox[c := (if c in inbox then inbox[c] else []) + [m]];
    }

    /** `m` goes to every client of the set, in whatever order the set lists them. */
    method PushToAll(targets: set<Client>, m: ClientMsg)
      modifies `inbox
      ensures inbox == Broadcast(old(inbox), targets, m)
    {
      var rest := targets;
      while rest != {}
        invariant rest <= targets
        invariant inbox == Broadcast(old(inbox), targets - rest, m)
        decreases rest
      {
        var c :| c in rest;
        Push(c, m);
        rest := rest - {c};
      }
      assert targets - rest == targets;
    }

    /** The players in the table, pushed to one client in the order in which the table lists them. */
    method PushPlayers(c: Client) returns (ghost order: seq<Client>)
      requires c in inbox
      modifies `inbox
      ensures Lists(order, clients)
      ensures c in inbox && inbox == old(inbox)[c := inbox[c]]
      ensures inbox[c] == old(inbox[c]) + Greetings(clients, order, [])
    {
      order := [];
      assert Greetings(clients, order, []) == [];
      hide Greetings;
      var rest := clients.Keys;
      while rest != {}
        invariant rest <= clients.Keys && c in inbox
        invariant forall x :: x in order <==> x in clients && x !in rest
        invariant forall j, k :: 0 <= j < k < |order| ==> order[j] != order[k]
        invariant inbox == old(inbox)[c := inbox[c]] && inbox[c] == old(inbox[c]) + Greetings(clients, order, [])
        decreases rest
      {
        var x :| x in rest;
        Push(c, AddDrawable(clients[x], PLAYER));
        rest := rest - {x};
        GreetPlayer(clients, order, x);
        order := order + [x];
      }
    }

    /** A new client starts with its own queue, empty unless something has been pushed to it before. */
    method AddClient(c: Client, ghost s: State) returns (ghost order: seq<Client>)
      requires Shows(s)
      modifies `lobby, `inbox
      ensures Lists(order, s.clients)
      ensures Shows(Replication.AddClient(s, c, order))
    {
      if c !in inbox {
        inbox := inbox[c := []];
      }
      order := PushPlayers(c);
      var k := 0;
      while k < |baddies|
        invariant 0 <= k <= |baddies| && c in inbox && lobby == s.lobby
        invariant inbox == s.inbox[c := inbox[c]]
        invariant inbox[c] == Pending(s.inbox, c) + Greetings(clients, order, baddies[..k])
      {
        Push(c, AddDrawable(baddies[k].id, baddies[k].templ));
        GreetBaddie(clients, order, baddies, k);
        k := k + 1;
      }
      assert baddies[..k] == baddies;
      lobby := lobby + {c};
    }

    method RemoveClient(c: Client, ghost s: State)
      requires Shows(s)
      modifies `clients, `lobby, `inbox, physics`queue
      ensures Shows(Replication.RemoveClient(s, c))
    {
      var id: Id := if c in clients then clients[c] else 0;
      clients, lobby, inbox := clients - {c}, lobby - {c}, inbox - {c};
      if id != 0 {
        physics.PushMessage(DelChar(id));
        PushToAll(clients.Keys, DelDrawable(id));
        PushToAll(lobby, DelDrawable(id));
      }
    }

    /** Identifiers are 32 bits wide. */
    method GetNextIdentifier() returns (id: Id)
      requires nextId < U32
      modifies `nextId
      ensures id == old(nextId) && nextId == (old(nextId) + 1) % U32
    {
      id := nextId;
      nextId := (nextId + 1) % U32;
    }

    /** Nobody is connected and the world is being loaded. */
    ghost predicate Starting()
      reads this, physics
    {
      SoundWorld(baddies, nextId) && Shows(Initial(baddies, nextId))
    }

    method AddBaddie(templ: seq<Byte>)
      requires Starting() && nextId + 1 < U32
      modifies `nextId, `baddies, physics`queue
      ensures Starting() && nextId == old(nextId) + 1
      ensures baddies == old(baddies) + [Baddie(templ, old(nextId))]
    {
      var id := GetNextIdentifier();
      physics.PushMessage(AddChar(id));
      baddies := baddies + [Baddie(templ, id)];
    }

    /** A grid of baddies, one column after the other; the positions are not modelled. */
    method LoadMobGroup(templ: seq<Byte>, columns: nat, rows: nat)
      requires Starting() && nextId + columns * rows < U32
      modifies `nextId, `baddies, physics`queue
      ensures Starting() && nextId == old(nextId) + columns * rows
      ensures baddies == old(baddies) + Mobs(templ, old(nextId), columns * rows)
    {
      var x := 0;
      while x < columns
        invariant 0 <= x <= columns
        invariant Starting() && nextId == old(nextId) + x * rows
        invariant baddies == old(baddies) + Mobs(templ, old(nextId), x * rows)
      {
        WholeColumns(x, columns, rows);
        var y := 0;
        while y < rows
          invariant 0 <= y <= rows
          invariant Starting() && nextId == old(nextId) + x * rows + y
          invariant baddies == old(baddies) + Mobs(templ, old(nextId), x * rows + y)
        {
          AddBaddie(templ);
          y := y + 1;
        }
        x := x + 1;
      }
    }

    method LoadPlayer(c: Client, templ: seq<Byte>, ghost s: State)
      requires Shows(s) && nextId < U32
      modifies `clients, `lobby, `nextId, `inbox, physics`queue
      ensures Shows(Replication.LoadPlayer(s, c, templ))
    {
      lobby := lobby - {c};
      var id := GetNextIdentifier();
      physics.PushMessage(AddChar(id));
      if c !in clients {
        clients := clients[c := id];
      }
      PushToAll(clients.Keys, AddDrawable(id, templ));
    }

    method PushClientTransforms(trans: seq<(Id, Matrix)>, ghost s: State)
      requires Shows(s)
      modifies `inbox
      ensures Shows(PushTransforms(s, trans))
    {
      var k := 0;
      assert trans[..0] == [] && trans[..|trans|] == trans;
      hide PushTransforms, Broadcast;
      NoTransforms(s);
      while k < |trans|
        invariant 0 <= k <= |trans|
        invariant Shows(PushTransforms(s, trans[..k]))
      {
        var m := TransDrawable(trans[k].0, trans[k].1);
        PushToAll(clients.Keys, m);
        PushToAll(lobby, m);
        OneTransform(s, trans, k);
        k := k + 1;
      }
    }

    /** Reading an entry that is not there makes one. */
    method GetClientId(c: Client) returns (id: Id)
      modifies `clients
      ensures id == if c in old(clients) then old(clients)[c] else 0
      ensures clients == if c in old(clients) then old(clients) else old(clients)[c := 0]
    {
      if c !in clients {
        clients := clients[c := 0];
      }
      id := clients[c];
    }
  }
}

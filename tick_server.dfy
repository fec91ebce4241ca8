/** The tick-loop server (src/Server.kt): a table of connected clients and
    their players, the last input each client sent, and a tick counter.
    Every 50 ms the loop copies each client's last input into its player's
    velocity, integrates the position and builds a world snapshot. */
module TickServer {
  import opened Wrappers
  import opened Collections

  /** The period of the game loop, passed to `update` on every tick. */
  const TickMillis: int := 50
  /** The only action string that turns boosting on. */
  const BoostAction: string := "boost"

  datatype Mutation = Spikes | Dash | Split | AutoAbsorb

  datatype Vector2 = Vector2(x: real := 0.0, y: real := 0.0)

  /** A player creature. Server.kt's Player is only ever reached through
      the `players` map, so it is a value here and the map is reassigned. */
  datatype Player = Player(
    id: string,
    position: Vector2 := Vector2(),
    mass: real := 1.0,
    velocity: Vector2 := Vector2(),
    isBoosting: bool := false,
    mutations: seq<Mutation> := [],
    coreExposed: bool := false)

  datatype Zone = Zone(id: string, center: Vector2, radius: real)

  /** The world snapshot sent to clients. */
  datatype GameState = GameState(players: seq<Player>, zones: seq<Zone>, tick: int)

  /** One decoded text frame: a movement intent and an optional action. */
  datatype InputMessage = InputMessage(dx: real, dy: real, action: Option<string> := None)

  /** An inbound websocket frame as the handler sees it: a text frame that
      decodes, a text frame the decoder rejects (it throws), or any other
      kind of frame (ignored). */
  datatype Frame = Text(input: InputMessage) | Undecodable | NonText

  /** A websocket session with the input it last sent. */
  class Client {
    const id: string
    var lastInput: InputMessage

    constructor (id: string)
      ensures this.id == id
      ensures lastInput == InputMessage(0.0, 0.0)
    {
      this.id := id;
      lastInput := InputMessage(0.0, 0.0);
    }
  }

  // ---------------------------------------------------------------------
  // The client set: a LinkedHashSet of sessions (identity equality),
  // modelled as a sequence without duplicates in insertion order.

  ghost predicate NoDuplicates(cs: seq<Client>)
  {
    forall i, j :: 0 <= i < j < |cs| ==> cs[i] != cs[j]
  }

  /** No two clients in the set share an id. */
  ghost predicate DistinctIds(cs: seq<Client>)
  {
    forall a, b :: a in cs && b in cs && a.id == b.id ==> a == b
  }

  ghost function Ids(cs: seq<Client>): set<string>
  {
    set c | c in cs :: c.id
  }

  /** `clients += client`: appended unless already present. */
  function Joined(cs: seq<Client>, c: Client): seq<Client>
  {
    if c in cs then cs else cs + [c]
  }

  /** `clients -= client`: the client taken out, the others kept in order. */
  function Left(cs: seq<Client>, c: Client): seq<Client>
  {
    if cs == [] then []
    else (if cs[0] == c then [] else [cs[0]]) + Left(cs[1..], c)
  }

  lemma {:induction false} LeftRemovesOnly(cs: seq<Client>, c: Client)
    ensures forall d :: d in Left(cs, c) ==> d in cs && d != c
    ensures forall d :: d in cs && d != c ==> d in Left(cs, c)
    ensures NoDuplicates(cs) ==> NoDuplicates(Left(cs, c))
    ensures DistinctIds(cs) ==> DistinctIds(Left(cs, c))
  {
    if cs != [] {
      LeftRemovesOnly(cs[1..], c);
      var rest := Left(cs[1..], c);
      var head: seq<Client> := if cs[0] == c then [] else [cs[0]];
      assert Left(cs, c) == head + rest;
      assert cs == [cs[0]] + cs[1..];
      forall d | d in Left(cs, c) ensures d in cs && d != c {
        if d in rest {
          assert d in cs[1..];
        }
      }
      forall d | d in cs && d != c ensures d in Left(cs, c) {
        assert d == cs[0] || d in cs[1..];
      }
      if DistinctIds(cs) {
        forall a, b | a in Left(cs, c) && b in Left(cs, c) && a.id == b.id ensures a == b {
          assert a in cs && b in cs;
        }
      }
      if NoDuplicates(cs) {
        assert NoDuplicates(cs[1..]);
        forall x | x in cs[1..] ensures x != cs[0] {
          var k :| 0 <= k < |cs[1..]| && cs[1..][k] == x;
          assert cs[k + 1] == x;
        }
        forall i, j | 0 <= i < j < |head + rest| ensures (head + rest)[i] != (head + rest)[j] {
          if head != [] && i == 0 {
            assert (head + rest)[j] == rest[j - 1];
            assert rest[j - 1] in rest;
          } else if head != [] {
            assert (head + rest)[i] == rest[i - 1] && (head + rest)[j] == rest[j - 1];
          }
        }
      }
    }
  }

  /** Taking out a client that is not there changes nothing. */
  lemma {:induction false} LeftAbsent(cs: seq<Client>, c: Client)
    requires c !in cs
    ensures Left(cs, c) == cs
  {
    if cs != [] {
      LeftAbsent(cs[1..], c);
      assert cs == [cs[0]] + cs[1..];
    }
  }

  /** A session that joins and then leaves restores the client set. */
  lemma {:induction false} JoinThenLeave(cs: seq<Client>, c: Client)
    requires c !in cs
    ensures Left(Joined(cs, c), c) == cs
  {
    if cs == [] {
      assert Joined(cs, c) == [c];
    } else {
      assert Joined(cs, c) == cs + [c];
      assert (cs + [c])[1..] == cs[1..] + [c];
      JoinThenLeave(cs[1..], c);
      assert cs == [cs[0]] + cs[1..];
    }
  }

  // ---------------------------------------------------------------------
  // Register and unregister, stated on the client set and the player map.

  /** The player that `register` stores: every field at its default. */
  lemma FreshPlayerDefaults(id: string)
    ensures Player(id).id == id
    ensures Player(id).position == Vector2(0.0, 0.0)
    ensures Player(id).velocity == Vector2(0.0, 0.0)
    ensures Player(id).mass == 1.0
    ensures !Player(id).isBoosting
    ensures Player(id).mutations == []
    ensures !Player(id).coreExposed
  {
  }

  /** Unregistering twice has the effect of unregistering once. */
  lemma UnregisterIdempotent(cs: seq<Client>, players: map<string, Player>, c: Client)
    ensures Left(Left(cs, c), c) == Left(cs, c)
    ensures (players - {c.id}) - {c.id} == players - {c.id}
  {
    LeftRemovesOnly(cs, c);
    LeftAbsent(Left(cs, c), c);
  }

  /** With distinct ids, registering keeps the key set of `players` equal
      to the ids of `clients`. */
  lemma RegisterKeepsInStep(cs: seq<Client>, players: map<string, Player>, c: Client)
    requires Ids(cs) == players.Keys && DistinctIds(cs)
    requires c in cs || c.id !in Ids(cs)
    ensures Ids(Joined(cs, c)) == players[c.id := Player(c.id)].Keys
    ensures DistinctIds(Joined(cs, c))
  {
    if c !in cs {
      var cs' := cs + [c];
      forall d | d in cs' ensures d in cs || d == c { }
      assert Ids(cs') == Ids(cs) + {c.id};
      forall a, b | a in cs' && b in cs' && a.id == b.id ensures a == b {
        assert a.id in Ids(cs) || a == c;
        assert b.id in Ids(cs) || b == c;
      }
    }
  }

  /** With distinct ids, unregistering keeps the key set of `players` equal
      to the ids of `clients`. */
  lemma UnregisterKeepsInStep(cs: seq<Client>, players: map<string, Player>, c: Client)
    requires Ids(cs) == players.Keys && DistinctIds(cs)
    requires c in cs || c.id !in Ids(cs)
    ensures Ids(Left(cs, c)) == (players - {c.id}).Keys
    ensures DistinctIds(Left(cs, c))
  {
    LeftRemovesOnly(cs, c);
    var rest := Left(cs, c);
    forall id | id in Ids(rest) ensures id in Ids(cs) && id != c.id {
      var d :| d in rest && d.id == id;
      assert d in cs && d != c;
    }
    forall id | id in Ids(cs) && id != c.id ensures id in Ids(rest) {
      var d :| d in cs && d.id == id;
      assert d in rest;
    }
  }

  // ---------------------------------------------------------------------
  // One tick of the simulation.

  /** The per-player body of `update`: the velocity becomes the last input,
      boosting follows the action, and the position advances by
      velocity * deltaMillis / 1000. */
  function Integrate(p: Player, input: InputMessage, deltaMillis: int): Player
  {
    var velocity := Vector2(input.dx, input.dy);
    p.(velocity := velocity,
       isBoosting := input.action == Some(BoostAction),
       position := Advance(p.position, velocity, deltaMillis))
  }

  /** The position after `deltaMillis` milliseconds at `velocity` units per
      second. */
  function Advance(position: Vector2, velocity: Vector2, deltaMillis: int): Vector2
  {
    Vector2(position.x + velocity.x * deltaMillis as real / 1000.0,
            position.y + velocity.y * deltaMillis as real / 1000.0)
  }

  lemma IntegrateEffect(p: Player, input: InputMessage, deltaMillis: int)
    ensures Integrate(p, input, deltaMillis).velocity == Vector2(input.dx, input.dy)
    ensures Integrate(p, input, deltaMillis).isBoosting <==> input.action == Some("boost")
    ensures Integrate(p, input, deltaMillis).position.x == p.position.x + input.dx * (deltaMillis as real / 1000.0)
    ensures Integrate(p, input, deltaMillis).position.y == p.position.y + input.dy * (deltaMillis as real / 1000.0)
    ensures Integrate(p, input, deltaMillis).(position := p.position, velocity := p.velocity, isBoosting := p.isBoosting) == p
  {
  }

  /** On the 50 ms tick the position moves by one twentieth of the velocity. */
  lemma TickAdvancesOneTwentieth(p: Player, input: InputMessage)
    ensures Integrate(p, input, TickMillis).position
         == Vector2(p.position.x + input.dx / 20.0, p.position.y + input.dy / 20.0)
  {
  }

  lemma Distribute(x: real, v: real, d1: int, d2: int)
    ensures x + v * d1 as real / 1000.0 + v * d2 as real / 1000.0 == x + v * (d1 + d2) as real / 1000.0
  {
    var a, b := d1 as real, d2 as real;
    assert (d1 + d2) as real == a + b;
    assert v * (a + b) == v * a + v * b;
    assert v * (a + b) / 1000.0 == v * a / 1000.0 + v * b / 1000.0;
  }

  /** Two ticks with the same input move as far as one tick of their
      summed length. */
  lemma IntegrateAdditive(p: Player, input: InputMessage, d1: int, d2: int)
    ensures Integrate(Integrate(p, input, d1), input, d2) == Integrate(p, input, d1 + d2)
  {
    Distribute(p.position.x, input.dx, d1, d2);
    Distribute(p.position.y, input.dy, d1, d2);
  }

  /** The loop body for one client: players without an entry are skipped. */
  function UpdateOne(players: map<string, Player>, id: string, input: InputMessage, deltaMillis: int): map<string, Player>
  {
    if id in players then players[id := Integrate(players[id], input, deltaMillis)] else players
  }

  /** The whole loop of `update`, clients taken in order. */
  function UpdateAll(players: map<string, Player>, inputs: seq<(string, InputMessage)>, deltaMillis: int): map<string, Player>
    decreases |inputs|
  {
    if inputs == [] then players
    else
      var last := inputs[|inputs| - 1];
      UpdateOne(UpdateAll(players, inputs[..|inputs| - 1], deltaMillis), last.0, last.1, deltaMillis)
  }

  ghost predicate DistinctKeys(inputs: seq<(string, InputMessage)>)
  {
    forall i, j :: 0 <= i < j < |inputs| ==> inputs[i].0 != inputs[j].0
  }

  /** A tick neither adds nor removes players, and keeps every player
      stored under its own id. */
  lemma {:induction false} UpdateAllKeys(players: map<string, Player>, inputs: seq<(string, InputMessage)>, deltaMillis: int)
    ensures UpdateAll(players, inputs, deltaMillis).Keys == players.Keys
    ensures forall id :: id in players ==> UpdateAll(players, inputs, deltaMillis)[id].id == players[id].id
  {
    if inputs != [] {
      UpdateAllKeys(players, inputs[..|inputs| - 1], deltaMillis);
    }
  }

  /** A player whose id no client carries is left exactly as it was. */
  lemma {:induction false} UpdateAllUntouched(players: map<string, Player>, inputs: seq<(string, InputMessage)>, deltaMillis: int, id: string)
    requires id in players
    requires forall i :: 0 <= i < |inputs| ==> inputs[i].0 != id
    ensures id in UpdateAll(players, inputs, deltaMillis)
    ensures UpdateAll(players, inputs, deltaMillis)[id] == players[id]
  {
    if inputs != [] {
      UpdateAllUntouched(players, inputs[..|inputs| - 1], deltaMillis, id);
    }
  }

  /** With distinct client ids, each client that has a player gets its
      player integrated exactly once, with its own last input. */
  lemma {:induction false} UpdateAllAt(players: map<string, Player>, inputs: seq<(string, InputMessage)>, deltaMillis: int, j: nat)
    requires DistinctKeys(inputs)
    requires j < |inputs| && inputs[j].0 in players
    ensures inputs[j].0 in UpdateAll(players, inputs, deltaMillis)
    ensures UpdateAll(players, inputs, deltaMillis)[inputs[j].0] == Integrate(players[inputs[j].0], inputs[j].1, deltaMillis)
  {
    var n := |inputs| - 1;
    var prefix := inputs[..n];
    UpdateAllKeys(players, prefix, deltaMillis);
    if j == n {
      UpdateAllUntouched(players, prefix, deltaMillis, inputs[j].0);
    } else {
      assert DistinctKeys(prefix);
      UpdateAllAt(players, prefix, deltaMillis, j);
    }
  }

  // ---------------------------------------------------------------------
  // The frame loop of one session: each text frame replaces `lastInput`.

  /** The input a client holds after its frames, starting from `current`.
      A frame the decoder rejects ends the loop. */
  function LastInput(current: InputMessage, frames: seq<Frame>): InputMessage
    decreases frames
  {
    if frames == [] then current
    else match frames[0]
      case Text(input) => LastInput(input, frames[1..])
      case Undecodable => current
      case NonText => LastInput(current, frames[1..])
  }

  /** Last write wins: after a stream that decodes, the held input is the
      last text frame, whatever came before it. */
  lemma {:induction false} LastTextWins(current: InputMessage, frames: seq<Frame>, input: InputMessage)
    requires forall i :: 0 <= i < |frames| ==> !frames[i].Undecodable?
    ensures LastInput(current, frames + [Text(input)]) == input
    decreases frames
  {
    if frames != [] {
      assert (frames + [Text(input)])[1..] == frames[1..] + [Text(input)];
      match frames[0]
      case Text(m) => LastTextWins(m, frames[1..], input);
      case NonText => LastTextWins(current, frames[1..], input);
    }
  }

  /** Frames after one that fails to decode never reach `lastInput`. */
  lemma {:induction false} LastInputStopsAtUndecodable(current: InputMessage, before: seq<Frame>, after: seq<Frame>)
    ensures LastInput(current, before + [Undecodable] + after) == LastInput(current, before)
    decreases before
  {
    if before == [] {
      assert (before + [Undecodable] + after)[0] == Undecodable;
    } else {
      assert (before + [Undecodable] + after)[1..] == before[1..] + [Undecodable] + after;
      match before[0] {
        case Text(m) => LastInputStopsAtUndecodable(m, before[1..], after);
        case Undecodable =>
        case NonText => LastInputStopsAtUndecodable(current, before[1..], after);
      }
    }
  }

  /** Frames that are not text leave `lastInput` as it is. */
  lemma {:induction false} NonTextKeepsInput(current: InputMessage, frames: seq<Frame>)
    requires forall i :: 0 <= i < |frames| ==> frames[i].NonText?
    ensures LastInput(current, frames) == current
    decreases frames
  {
    if frames != [] {
      NonTextKeepsInput(current, frames[1..]);
    }
  }

  /** Last write wins also when other kinds of frames follow the last text
      frame. */
  lemma LastTextWinsBeforeNonText(current: InputMessage, frames: seq<Frame>, input: InputMessage, rest: seq<Frame>)
    requires forall i :: 0 <= i < |frames| ==> !frames[i].Undecodable?
    requires forall i :: 0 <= i < |rest| ==> rest[i].NonText?
    ensures LastInput(current, frames + [Text(input)] + rest) == input
  {
    LastInputAppend(current, frames + [Text(input)], rest);
    LastTextWins(current, frames, input);
    NonTextKeepsInput(input, rest);
  }

  /** Over a prefix that decodes, the loop continues from where the prefix
      left off. */
  lemma {:induction false} LastInputAppend(current: InputMessage, frames: seq<Frame>, rest: seq<Frame>)
    requires forall i :: 0 <= i < |frames| ==> !frames[i].Undecodable?
    ensures LastInput(current, frames + rest) == LastInput(LastInput(current, frames), rest)
    decreases frames
  {
    if frames == [] {
      assert frames + rest == rest;
    } else {
      assert (frames + rest)[1..] == frames[1..] + rest;
      match frames[0] {
        case Text(m) => LastInputAppend(m, frames[1..], rest);
        case NonText => LastInputAppend(current, frames[1..], rest);
      }
    }
  }

  // ---------------------------------------------------------------------
  // The snapshot's player list.

  /** `players.values.toList()`: every stored player once. The source's
      map keeps key-insertion order; this listing leaves the order open. */
  ghost function Listing(table: map<string, Player>): (ps: seq<Player>)
    requires forall id :: id in table ==> table[id].id == id
    ensures |ps| == |table|
    ensures forall i :: 0 <= i < |ps| ==> ps[i].id in table && ps[i] == table[ps[i].id]
    ensures forall i, j :: 0 <= i < j < |ps| ==> ps[i].id != ps[j].id
  {
    var ks := Enumerate(table.Keys);
    var ps := seq(|ks|, i requires 0 <= i < |ks| => table[ks[i]]);
    assert |ps| == |table.Keys| == |table|;
    assert forall i :: 0 <= i < |ps| ==> ps[i].id == ks[i];
    ps
  }

  /** Every stored player is listed. */
  lemma ListingCoversTable(table: map<string, Player>, id: string)
    requires forall k :: k in table ==> table[k].id == k
    requires id in table
    ensures exists i :: 0 <= i < |Listing(table)| && Listing(table)[i].id == id
  {
    var ks := Enumerate(table.Keys);
    var i :| 0 <= i < |ks| && ks[i] == id;
    assert Listing(table)[i] == table[ks[i]];
  }

  // ---------------------------------------------------------------------
  // The server object.

  /** The `GameServer` singleton: connected clients, their players, and
      the tick counter. */
  class GameServer {
    var clients: seq<Client>
    var players: map<string, Player>
    var tick: int

    ghost predicate Valid()
      reads this
    {
      && NoDuplicates(clients)
      && forall id :: id in players ==> players[id].id == id
    }

    /** Each client's id with the input it holds now, in client order. */
    ghost function Inputs(): (r: seq<(string, InputMessage)>)
      reads this, clients
      ensures |r| == |clients|
      ensures forall i :: 0 <= i < |clients| ==> r[i] == (clients[i].id, clients[i].lastInput)
    {
      seq(|clients|, i requires 0 <= i < |clients| reads this, clients => (clients[i].id, clients[i].lastInput))
    }

    constructor ()
      ensures Valid()
      ensures clients == [] && players == map[] && tick == 0
    {
      clients := [];
      players := map[];
      tick := 0;
    }

    /** `register`: the client joins the set and its id maps to a fresh
        default player, replacing any player already stored there. */
    method Register(client: Client)
      requires Valid()
      modifies this
      ensures Valid()
      ensures clients == Joined(old(clients), client)
      ensures players == old(players)[client.id := Player(client.id)]
      ensures tick == old(tick)
    {
      if client !in clients {
        clients := clients + [client];
      }
      players := players[client.id := Player(id := client.id)];
    }

    /** `unregister`: the client leaves the set and its id's entry is
        removed; for an absent client nothing changes. */
    method Unregister(client: Client)
      requires Valid()
      modifies this
      ensures Valid()
      ensures clients == Left(old(clients), client)
      ensures players == old(players) - {client.id}
      ensures tick == old(tick)
    {
      LeftRemovesOnly(clients, client);
      clients := Left(clients, client);
      players := players - {client.id};
    }

    /** `update`: the tick counter goes up by one, and every client that
        has a player copies its last input into that player. */
    method Update(deltaMillis: int)
      requires Valid()
      modifies this
      ensures Valid()
      ensures tick == old(tick) + 1
      ensures clients == old(clients)
      ensures players == UpdateAll(old(players), old(Inputs()), deltaMillis)
    {
      ghost var inputs := Inputs();
      tick := tick + 1;
      var i := 0;
      while i < |clients|
        invariant 0 <= i <= |clients|
        invariant clients == old(clients) && tick == old(tick) + 1
        invariant Valid()
        invariant players == UpdateAll(old(players), inputs[..i], deltaMillis)
      {
        var client := clients[i];
        if client.id in players {
          var player := players[client.id];
          var input := client.lastInput;
          player := player.(velocity := Vector2(input.dx, input.dy));
          player := player.(isBoosting := input.action == Some(BoostAction));
          player := player.(position := Advance(player.position, player.velocity, deltaMillis));
          assert inputs[i] == (client.id, input);
          assert player == Integrate(players[client.id], input, deltaMillis);
          players := players[client.id := player];
        }
        assert inputs[..i + 1][..i] == inputs[..i];
        i := i + 1;
      }
      assert inputs[..|clients|] == inputs;
    }

    /** The snapshot `broadcastSnapshot` serialises: every current player
        exactly once, no zones, and the current tick. */
    ghost function Snapshot(): (s: GameState)
      reads this
      requires Valid()
      ensures s.zones == [] && s.tick == tick
      ensures |s.players| == |players|
      ensures forall i :: 0 <= i < |s.players| ==> s.players[i].id in players && s.players[i] == players[s.players[i].id]
      ensures forall i, j :: 0 <= i < j < |s.players| ==> s.players[i].id != s.players[j].id
    {
      GameState(Listing(players), [], tick)
    }

    /** Every stored player appears in the snapshot. */
    lemma SnapshotListsEveryPlayer(id: string)
      requires Valid() && id in players
      ensures exists i :: 0 <= i < |Snapshot().players| && Snapshot().players[i].id == id
    {
      ListingCoversTable(players, id);
      var i :| 0 <= i < |Listing(players)| && Listing(players)[i].id == id;
      assert Snapshot().players[i].id == id;
    }

    /** One pass of the game loop: `update(50)` and then the snapshot. */
    method RunTick() returns (ghost snapshot: GameState)
      requires Valid()
      modifies this
      ensures Valid()
      ensures tick == old(tick) + 1
      ensures clients == old(clients)
      ensures players == UpdateAll(old(players), old(Inputs()), TickMillis)
      ensures snapshot == Snapshot() && snapshot.tick == old(tick) + 1
    {
      Update(TickMillis);
      snapshot := Snapshot();
    }
  }

  /** One websocket session: a client is made and registered, its frames
      are consumed (each text frame replaces `lastInput`), and it is
      unregistered in the `finally` block, also when a frame fails to
      decode. */
  method Serve(server: GameServer, id: string, frames: seq<Frame>) returns (client: Client)
    requires server.Valid()
    modifies server
    ensures server.Valid() && fresh(client) && client.id == id
    ensures client.lastInput == LastInput(InputMessage(0.0, 0.0), frames)
    ensures server.clients == old(server.clients)
    ensures server.players == old(server.players) - {id}
    ensures server.tick == old(server.tick)
  {
    client := new Client(id);
    server.Register(client);
    var i := 0;
    while i < |frames|
      invariant 0 <= i <= |frames|
      invariant server.Valid()
      invariant server.clients == old(server.clients) + [client]
      invariant server.players == old(server.players)[id := Player(id)]
      invariant server.tick == old(server.tick)
      invariant LastInput(client.lastInput, frames[i..]) == LastInput(InputMessage(0.0, 0.0), frames)
    {
      if frames[i].Undecodable? {
        break;
      }
      if frames[i].Text? {
        client.lastInput := frames[i].input;
      }
      i := i + 1;
    }
    server.Unregister(client);
    JoinThenLeave(old(server.clients), client);
  }
}

/** The inline-input server (server/src/main/kotlin/com/example/GameServer.kt):
    a table of players keyed by connection id. Each decoded client message is
    applied to its player at once; a separate loop broadcasts a snapshot of
    the table every 50 ms. */
module InlineServer {
  import opened Wrappers
  import opened Collections
  import opened Messages

  /** Distance moved per direction flag per message. */
  const Speed: real := 1.0
  /** A split fires only above this mass. */
  const SplitThreshold: real := 5.0
  const DefaultMass: real := 10.0
  /** `Random.nextInt(0xFFFFFF)` draws a colour below this bound. */
  const ColorBound: int := 0xFFFFFF

  /** An inbound websocket frame as the handler sees it: a text frame that
      decodes, a text frame the decoder rejects (it throws), or any other
      kind of frame (ignored). */
  datatype Frame = Text(msg: ClientMessage) | Undecodable | NonText

  // ---------------------------------------------------------------------
  // The effect of messages, stated on player states.

  /** The state of a player created on connect. */
  function Spawned(id: string, color: int): PlayerState
  {
    PlayerState(id, "player-" + id, 0.0, 0.0, DefaultMass, color, true)
  }

  /** `Player.update`: each direction flag moves one unit, and a split
      halves the mass when it is above the threshold. */
  function Moved(s: PlayerState, msg: ClientMessage): PlayerState
  {
    s.(x := s.x - (if msg.left then Speed else 0.0) + (if msg.right then Speed else 0.0),
       y := s.y - (if msg.up then Speed else 0.0) + (if msg.down then Speed else 0.0),
       mass := if msg.split && s.mass > SplitThreshold then s.mass / 2.0 else s.mass)
  }

  /** The frame handler: a present `nick` replaces the nickname, then the
      message is applied by `update`. */
  function Handled(s: PlayerState, msg: ClientMessage): PlayerState
  {
    Moved(if msg.nick.Some? then s.(nickname := msg.nick.value) else s, msg)
  }

  lemma SpawnedDefaults(id: string, color: int)
    ensures Spawned(id, color).id == id
    ensures Spawned(id, color).nickname == "player-" + id
    ensures Spawned(id, color).x == 0.0 && Spawned(id, color).y == 0.0
    ensures Spawned(id, color).mass == 10.0
    ensures Spawned(id, color).hasCore
  {
  }

  /** Each flag on its own moves one unit in its direction. */
  lemma SingleFlagMoves(s: PlayerState)
    ensures Moved(s, ClientMessage(up := true)) == s.(y := s.y - 1.0)
    ensures Moved(s, ClientMessage(down := true)) == s.(y := s.y + 1.0)
    ensures Moved(s, ClientMessage(left := true)) == s.(x := s.x - 1.0)
    ensures Moved(s, ClientMessage(right := true)) == s.(x := s.x + 1.0)
  {
  }

  /** Opposing flags cancel: both or neither leave that coordinate as it was. */
  lemma OpposingFlagsCancel(s: PlayerState, msg: ClientMessage)
    ensures msg.up == msg.down ==> Moved(s, msg).y == s.y
    ensures msg.left == msg.right ==> Moved(s, msg).x == s.x
  {
  }

  /** The split rule: the mass halves exactly when the message asks for a
      split and the mass is above 5; a positive mass stays positive, and a
      split that fires leaves more than 2.5. */
  lemma SplitRule(s: PlayerState, msg: ClientMessage)
    requires s.mass > 0.0
    ensures Moved(s, msg).mass < s.mass <==> msg.split && s.mass > SplitThreshold
    ensures Moved(s, msg).mass == s.mass || Moved(s, msg).mass == s.mass / 2.0
    ensures Moved(s, msg).mass > 0.0
    ensures Moved(s, msg).mass < s.mass ==> Moved(s, msg).mass > SplitThreshold / 2.0
  {
  }

  /** A message never changes id, colour or core, and the nickname changes
      only to a `nick` that is present. */
  lemma HandledKeepsIdentity(s: PlayerState, msg: ClientMessage)
    ensures Handled(s, msg).id == s.id
    ensures Handled(s, msg).color == s.color
    ensures Handled(s, msg).hasCore == s.hasCore
    ensures Handled(s, msg).nickname == (if msg.nick.Some? then msg.nick.value else s.nickname)
    ensures msg.nick == None ==> Handled(s, msg) == Moved(s, msg)
  {
  }

  /** The keepalive `{}` leaves a player exactly as it was. */
  lemma KeepaliveChangesNothing(s: PlayerState)
    ensures Handled(s, Keepalive()) == s
  {
  }

  /** The handshake `{nick}` only renames. */
  lemma HandshakeOnlyRenames(s: PlayerState, nick: string)
    ensures Handled(s, Handshake(nick)) == s.(nickname := nick)
  {
  }

  // ---------------------------------------------------------------------
  // Repeated splits.

  function SplitOnce(mass: real): real
  {
    Moved(PlayerState("", "", 0.0, 0.0, mass, 0, true), ClientMessage(split := true)).mass
  }

  /** The mass after `k` split messages in a row. */
  function Splits(mass: real, k: nat): real
  {
    if k == 0 then mass else SplitOnce(Splits(mass, k - 1))
  }

  function Pow2(k: nat): (r: real)
    ensures r >= 1.0
  {
    if k == 0 then 1.0 else 2.0 * Pow2(k - 1)
  }

  lemma CancelPositive(a: real, b: real, c: real)
    requires c > 0.0 && a * c > b * c
    ensures a > b
  {
    assert (a - b) * c == a * c - b * c;
  }

  /** While the mass is above 5 before every split, each split halves it:
      after `k` of them the mass is the original divided by 2^k. */
  lemma {:induction false} SplitsHalveWhileAbove(mass: real, k: nat)
    requires k > 0 ==> mass > SplitThreshold * Pow2(k - 1)
    ensures Splits(mass, k) * Pow2(k) == mass
  {
    if k > 0 {
      if k > 1 {
        assert Pow2(k - 1) == 2.0 * Pow2(k - 2);
      }
      SplitsHalveWhileAbove(mass, k - 1);
      var before := Splits(mass, k - 1);
      var p := Pow2(k - 1);
      assert before * p == mass;
      assert before * p > SplitThreshold * p;
      CancelPositive(before, SplitThreshold, p);
      assert Splits(mass, k) == before / 2.0;
      assert Splits(mass, k) * Pow2(k) == (before / 2.0) * (2.0 * Pow2(k - 1));
    }
  }

  /** Once the mass is at most 5, further splits do nothing. */
  lemma {:induction false} SplitsStopAtThreshold(mass: real, k: nat)
    requires mass <= SplitThreshold
    ensures Splits(mass, k) == mass
  {
    if k > 0 {
      SplitsStopAtThreshold(mass, k - 1);
    }
  }

  /** Any number of splits keeps a positive mass positive and never takes
      it below half the threshold unless it started there. */
  lemma {:induction false} SplitsKeepMass(mass: real, k: nat)
    requires mass > 0.0
    ensures 0.0 < Splits(mass, k) <= mass
    ensures Splits(mass, k) == mass || Splits(mass, k) > SplitThreshold / 2.0
  {
    if k > 0 {
      SplitsKeepMass(mass, k - 1);
    }
  }

  // ---------------------------------------------------------------------
  // The player table as a value, and the events that change it.

  type Table = map<string, PlayerState>

  /** Every entry is stored under its own id. */
  ghost predicate WellKeyed(t: Table)
  {
    forall id :: id in t ==> t[id].id == id
  }

  /** What one handler step does to the table. A message for an id that is
      no longer in the table changes nothing in it. */
  datatype Event =
    | Opened(id: string, color: int)
    | Received(id: string, msg: ClientMessage)
    | Closed(id: string)

  function Step(t: Table, e: Event): Table
  {
    match e
    case Opened(id, color) => t[id := Spawned(id, color)]
    case Received(id, msg) => if id in t then t[id := Handled(t[id], msg)] else t
    case Closed(id) => t - {id}
  }

  function Run(t: Table, events: seq<Event>): Table
    decreases |events|
  {
    if events == [] then t else Run(Step(t, events[0]), events[1..])
  }

  lemma {:induction false} RunKeepsWellKeyed(t: Table, events: seq<Event>)
    requires WellKeyed(t)
    ensures WellKeyed(Run(t, events))
    decreases |events|
  {
    if events != [] {
      RunKeepsWellKeyed(Step(t, events[0]), events[1..]);
    }
  }

  /** After its close, an id stays out of the table until it is opened
      again. */
  lemma {:induction false} ClosedStaysAbsent(t: Table, id: string, events: seq<Event>)
    requires forall i :: 0 <= i < |events| ==> !(events[i].Opened? && events[i].id == id)
    ensures id !in Run(Step(t, Closed(id)), events)
    decreases |events|
  {
    if events != [] {
      var t' := Step(Step(t, Closed(id)), events[0]);
      assert id !in t';
      assert Step(t', Closed(id)) == t';
      ClosedStaysAbsent(t', id, events[1..]);
    }
  }

  /** The broadcast snapshot `ServerMessage(players.values.map { it.toState() })`:
      one state per table entry, each id once, stamped with the clock. */
  ghost function Snapshot(t: Table, now: int): (m: ServerMessage)
    requires WellKeyed(t)
    ensures m.time == now
    ensures |m.players| == |t|
    ensures forall i :: 0 <= i < |m.players| ==> m.players[i].id in t && m.players[i] == t[m.players[i].id]
    ensures forall i, j :: 0 <= i < j < |m.players| ==> m.players[i].id != m.players[j].id
  {
    var ks := Enumerate(t.Keys);
    var states := seq(|ks|, i requires 0 <= i < |ks| => t[ks[i]]);
    assert |states| == |t.Keys| == |t|;
    assert forall i :: 0 <= i < |states| ==> states[i].id == ks[i];
    ServerMessage(states, now)
  }

  /** Every entry of the table appears in its snapshot. */
  lemma SnapshotListsEveryEntry(t: Table, now: int, id: string)
    requires WellKeyed(t) && id in t
    ensures exists i :: 0 <= i < |Snapshot(t, now).players| && Snapshot(t, now).players[i].id == id
  {
    var ks := Enumerate(t.Keys);
    var i :| 0 <= i < |ks| && ks[i] == id;
    assert Snapshot(t, now).players[i] == t[ks[i]];
  }

  /** The welcome snapshot a new connection receives lists its own player
      with the connect defaults. */
  lemma WelcomeListsNewcomer(t: Table, id: string, color: int, now: int)
    requires WellKeyed(t)
    ensures WellKeyed(Step(t, Opened(id, color)))
    ensures Spawned(id, color) in Snapshot(Step(t, Opened(id, color)), now).players
  {
    var t' := Step(t, Opened(id, color));
    SnapshotListsEveryEntry(t', now, id);
    var m := Snapshot(t', now);
    var i :| 0 <= i < |m.players| && m.players[i].id == id;
    assert m.players[i] == t'[id];
  }

  /** No snapshot taken after a close lists the closed id, until that id
      connects again. */
  lemma SnapshotAfterCloseOmits(t: Table, id: string, events: seq<Event>, now: int)
    requires WellKeyed(t)
    requires forall i :: 0 <= i < |events| ==> !(events[i].Opened? && events[i].id == id)
    ensures WellKeyed(Run(Step(t, Closed(id)), events))
    ensures forall p :: p in Snapshot(Run(Step(t, Closed(id)), events), now).players ==> p.id != id
  {
    RunKeepsWellKeyed(Step(t, Closed(id)), events);
    ClosedStaysAbsent(t, id, events);
  }

  // ---------------------------------------------------------------------
  // One connection's frame loop, on values.

  /** The frame loop runs to its end exactly when every frame decodes;
      otherwise the decoding exception leaves it. */
  ghost predicate Completes(frames: seq<Frame>)
  {
    forall i :: 0 <= i < |frames| ==> !frames[i].Undecodable?
  }

  /** The player's state after the frame loop: text frames applied in
      order, up to the first frame that fails to decode. */
  function Consume(s: PlayerState, frames: seq<Frame>): PlayerState
    decreases frames
  {
    if frames == [] then s
    else match frames[0]
      case Text(msg) => Consume(Handled(s, msg), frames[1..])
      case Undecodable => s
      case NonText => Consume(s, frames[1..])
  }

  /** The table after one whole session, as written: the removal after the
      frame loop runs only when the loop ends normally. */
  ghost function Session(t: Table, id: string, color: int, frames: seq<Frame>): Table
  {
    var s := Consume(Spawned(id, color), frames);
    if Completes(frames) then t[id := s] - {id} else t[id := s]
  }

  /** The session leaves its id behind exactly when one of its frames fails
      to decode, and then with the state the player had reached. */
  lemma StaleEntryIffUndecodable(t: Table, id: string, color: int, frames: seq<Frame>)
    ensures id in Session(t, id, color, frames) <==> exists i :: 0 <= i < |frames| && frames[i].Undecodable?
    ensures id in Session(t, id, color, frames) ==> Session(t, id, color, frames)[id] == Consume(Spawned(id, color), frames)
    ensures forall k :: k != id ==> (k in Session(t, id, color, frames) <==> k in t)
  {
  }

  /** Nothing after a frame that fails to decode reaches the player. */
  lemma {:induction false} ConsumeStopsAtUndecodable(s: PlayerState, before: seq<Frame>, after: seq<Frame>)
    ensures Consume(s, before + [Undecodable] + after) == Consume(s, before)
    decreases before
  {
    if before == [] {
      assert (before + [Undecodable] + after)[0] == Undecodable;
    } else {
      assert (before + [Undecodable] + after)[1..] == before[1..] + [Undecodable] + after;
      match before[0] {
        case Text(m) => ConsumeStopsAtUndecodable(Handled(s, m), before[1..], after);
        case Undecodable =>
        case NonText => ConsumeStopsAtUndecodable(s, before[1..], after);
      }
    }
  }

  /** A session whose frames all decode applies every text frame, so the
      player's last state is the fold of its messages. */
  lemma {:induction false} ConsumeAppliesAll(s: PlayerState, frames: seq<Frame>, msg: ClientMessage)
    requires Completes(frames)
    ensures Consume(s, frames + [Text(msg)]) == Handled(Consume(s, frames), msg)
    decreases frames
  {
    if frames != [] {
      assert (frames + [Text(msg)])[1..] == frames[1..] + [Text(msg)];
      assert Completes(frames[1..]) by {
        forall i | 0 <= i < |frames[1..]| ensures !frames[1..][i].Undecodable? {
          assert frames[1..][i] == frames[i + 1];
        }
      }
      match frames[0] {
        case Text(m) => ConsumeAppliesAll(Handled(s, m), frames[1..], msg);
        case NonText => ConsumeAppliesAll(s, frames[1..], msg);
      }
    }
  }

  // ---------------------------------------------------------------------
  // The player object and the table object.

  class Player {
    const id: string
    var nickname: string
    var x: real
    var y: real
    var mass: real
    const color: int
    var hasCore: bool

    constructor (id: string, nickname: string, x: real, y: real, mass: real := DefaultMass, color: int, hasCore: bool := true)
      ensures ToState() == PlayerState(id, nickname, x, y, mass, color, hasCore)
    {
      this.id := id;
      this.nickname := nickname;
      this.x := x;
      this.y := y;
      this.mass := mass;
      this.color := color;
      this.hasCore := hasCore;
    }

    /** `toState`: the fields a snapshot carries. */
    function ToState(): PlayerState
      reads this
    {
      PlayerState(id, nickname, x, y, mass, color, hasCore)
    }

    /** `update`: conditional in-place moves and the split. */
    method Update(msg: ClientMessage)
      modifies this`x, this`y, this`mass
      ensures ToState() == Moved(old(ToState()), msg)
    {
      if msg.up { y := y - Speed; }
      if msg.down { y := y + Speed; }
      if msg.left { x := x - Speed; }
      if msg.right { x := x + Speed; }
      if msg.split && mass > SplitThreshold {
        mass := mass / 2.0;
      }
    }
  }

  /** `toState` loses nothing a snapshot needs: two players project to the
      same state exactly when all seven fields agree. */
  lemma ToStateFaithful(p: Player, q: Player)
    ensures p.ToState() == q.ToState() <==>
      p.id == q.id && p.nickname == q.nickname && p.x == q.x && p.y == q.y &&
      p.mass == q.mass && p.color == q.color && p.hasCore == q.hasCore
  {
  }

  lemma OverwriteThenRemove(t: Table, id: string, s: PlayerState)
    ensures t[id := s] - {id} == t - {id}
  {
  }

  /** The `players` map of the server module. */
  class Arena {
    var players: map<string, Player>

    ghost predicate Valid()
      reads this
    {
      forall id :: id in players ==> players[id].id == id
    }

    /** The table as snapshots see it. */
    ghost function States(): (t: Table)
      reads this, players.Values
      requires Valid()
      ensures t.Keys == players.Keys && WellKeyed(t)
    {
      map id | id in players :: players[id].ToState()
    }

    constructor ()
      ensures Valid() && players == map[]
    {
      players := map[];
    }

    /** The table half of a connection: a default player stored under the
        connection's id. */
    method Join(id: string, color: int) returns (player: Player)
      requires Valid()
      requires 0 <= color < ColorBound
      modifies this
      ensures Valid() && fresh(player)
      ensures player.id == id && player.ToState() == Spawned(id, color)
      ensures players == old(players)[id := player]
      ensures States() == Step(old(States()), Opened(id, color))
    {
      player := new Player(id, "player-" + id, 0.0, 0.0, color := color);
      players := players[id := player];
    }

    /** Connect: `Join`, then the snapshot of the table sent to the new
        connection straight away. */
    method Connect(id: string, color: int, now: int) returns (player: Player, ghost welcome: ServerMessage)
      requires Valid()
      requires 0 <= color < ColorBound
      modifies this
      ensures Valid() && fresh(player)
      ensures player.id == id && player.ToState() == Spawned(id, color)
      ensures players == old(players)[id := player]
      ensures States() == Step(old(States()), Opened(id, color))
      ensures welcome == Snapshot(States(), now)
    {
      player := Join(id, color);
      welcome := Snapshot(States(), now);
    }

    /** A text frame: the nickname if present, then `update`. The table
        sees it only when this player is the one stored under its id. */
    method OnText(player: Player, msg: ClientMessage)
      requires Valid()
      modifies player
      ensures Valid()
      ensures player.ToState() == Handled(old(player.ToState()), msg)
      ensures States() == if player.id in players && players[player.id] == player
                          then Step(old(States()), Received(player.id, msg))
                          else old(States())
    {
      if msg.nick.Some? {
        player.nickname := msg.nick.value;
      }
      player.Update(msg);
    }

    /** Close: the id's entry is removed. */
    method Close(id: string)
      requires Valid()
      modifies this
      ensures Valid()
      ensures players == old(players) - {id}
      ensures States() == Step(old(States()), Closed(id))
    {
      players := players - {id};
    }

    /** The frame loop `incoming.consumeEach { ... }` of an open session:
        each text frame is applied to the player, other frames are skipped,
        and a frame that fails to decode ends the loop by throwing
        (`completed` is then false). The table entry follows the player. */
    method Pump(player: Player, frames: seq<Frame>) returns (completed: bool)
      requires Valid() && player.id in players && players[player.id] == player
      modifies player
      ensures Valid() && player.id in players && players[player.id] == player
      ensures player.ToState() == Consume(old(player.ToState()), frames)
      ensures completed == Completes(frames)
      ensures States() == old(States())[player.id := player.ToState()]
    {
      var i := 0;
      while i < |frames|
        invariant 0 <= i <= |frames|
        invariant Consume(player.ToState(), frames[i..]) == Consume(old(player.ToState()), frames)
        invariant Completes(frames[..i])
        invariant States() == old(States())[player.id := player.ToState()]
      {
        assert frames[i..] == [frames[i]] + frames[i + 1..];
        match frames[i] {
          case Text(msg) =>
            ghost var pre := States();
            OnText(player, msg);
            assert players[player.id] == player;
            assert States() == pre[player.id := player.ToState()];
          case Undecodable =>
            return false;
          case NonText =>
        }
        i := i + 1;
      }
      return true;
    }

    /** One websocket session as written: connect (which sends the welcome
        snapshot), run the frame loop, and remove the entry after it. A
        frame that fails to decode throws out of the loop, so the removal
        never runs. */
    method Serve(id: string, color: int, frames: seq<Frame>)
      requires Valid()
      requires 0 <= color < ColorBound
      modifies this
      ensures Valid()
      ensures States() == Session(old(States()), id, color, frames)
    {
      ghost var before := States();
      var player := Join(id, color);
      var completed := Pump(player, frames);
      ghost var after := States();
      assert after == before[id := player.ToState()];
      if completed {
        Close(id);
        assert States() == after - {id};
      }
    }

    /** The session with the removal in a `finally` block, as the tick-loop
        server does it: the id is gone afterwards whatever the frames. */
    method ServeGuarded(id: string, color: int, frames: seq<Frame>)
      requires Valid()
      requires 0 <= color < ColorBound
      modifies this
      ensures Valid()
      ensures States() == old(States()) - {id}
    {
      ghost var before := States();
      var player := Join(id, color);
      ghost var joined := States();
      var completed := Pump(player, frames);
      Close(id);
      OverwriteThenRemove(joined, id, player.ToState());
      OverwriteThenRemove(before, id, Spawned(id, color));
    }
  }
}

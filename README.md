# Two prototype game servers, modelled in Dafny

The repository holds two small websocket game servers. Each one keeps a
table of connected players, applies client input to player state, and builds
a world snapshot on a fixed tick. This project models their state-changing
core and proves what that core promises.

- `TickServer` (`tick_server.dfy`) models `src/Server.kt`. The
  `GameServer` object is a class with three fields: a client set (a sequence
  without duplicates, in insertion order), a `players` map and a `tick`
  counter. It has `Register`, `Unregister`, `Update(deltaMillis)` (a loop
  over the clients) and the snapshot of `broadcastSnapshot`. A `Client` is a
  class whose `lastInput` the session's frame loop overwrites. `Player` is a
  value stored in the map. Its fields are rewritten only through the map, so
  `update` reassigns map entries. The pure functions `Integrate`,
  `UpdateAll` and `LastInput` specify the loops, and lemmas state the
  per-player effects.
- `InlineServer` (`inline_server.dfy`) models
  `server/src/main/kotlin/com/example/GameServer.kt`. `Player` is a class
  whose `Update` moves `x` and `y` by ±1 per flag and halves `mass` on a
  split above 5. `Arena` holds the `players` map of player objects and has
  the connect, text-frame and close steps of the websocket handler. Its
  abstract view `States()` is a `map<string, PlayerState>`. A value-level
  event model (`Step`, `Run`) and the frame-loop fold `Consume` state the
  table's behaviour. The methods are proved against these.
- `Messages` (`messages.dfy`) models `Messages.kt`: `ClientMessage` with
  its defaulted fields, `PlayerState` and `ServerMessage`.
- `Wrappers` provides `Option`, the model of a Kotlin nullable.
  `Collections` provides `Enumerate`, which turns a key set into a
  sequence in an unspecified order. Both snapshots list players in that
  order.

Some inputs are nondeterministic or come from outside the model. Each one
is a parameter:
- the random colour;
- the UUID or `hashCode()` connection id;
- the clock (`now`);
- each connection's inbound frames.

A frame is one of three cases:
- `Text(msg)`, a text frame that decodes;
- `Undecodable`, a text frame whose decoding throws;
- `NonText`, any other frame.

Behaviour of the code that the model keeps:
- Both servers end the connection when a text frame fails to decode,
  because the exception leaves `consumeEach`.
- `Server.kt`'s `Player` starts with mass 1.
- `GameServer.kt` moves the position by ±1 per direction flag as each
  message arrives; it has no velocity.
- Only `GameServer.kt` sends a snapshot to a new connection.

## Model

| member | source | states |
|---|---|---|
| Messages.Keepalive | server/src/main/kotlin/com/example/Messages.kt:6-13 | the empty object decodes with every flag false and no nick |
| Messages.Handshake | server/src/main/kotlin/com/example/Messages.kt:6-13 | a nick-only object sets no flag and carries the nick |
| TickServer.Client.constructor | src/Server.kt:83-85 | a new client holds the input (0, 0) with no action |
| TickServer.FreshPlayerDefaults | src/Server.kt:40-48 | a registered player has position and velocity (0,0), mass 1, no boost, no mutations and `coreExposed` false |
| TickServer.LeftRemovesOnly | src/Server.kt:130 | `clients -= client` keeps exactly the other clients and keeps the set duplicate-free and id-distinct |
| TickServer.LeftAbsent | src/Server.kt:130 | removing a client that is not in the set changes nothing |
| TickServer.JoinThenLeave | src/Server.kt:124-132 | a client that joins and then leaves restores the client set |
| TickServer.UnregisterIdempotent | src/Server.kt:129-132 | unregistering twice equals unregistering once, on both the set and the map |
| TickServer.RegisterKeepsInStep | src/Server.kt:124-127 | with distinct ids, register keeps `players`' key set equal to the clients' ids |
| TickServer.UnregisterKeepsInStep | src/Server.kt:129-132 | with distinct ids, unregister keeps `players`' key set equal to the clients' ids |
| TickServer.IntegrateEffect | src/Server.kt:149-154 | velocity becomes (dx, dy); boosting iff the action is "boost"; position += input * d/1000; every other field unchanged |
| TickServer.TickAdvancesOneTwentieth | src/Server.kt:137-139 | on the 50 ms tick the position advances by one twentieth of the input |
| TickServer.IntegrateAdditive | src/Server.kt:151-154 | two updates with one input equal one update over the summed time |
| TickServer.UpdateAllKeys | src/Server.kt:144-156 | the update loop neither adds nor removes players and keeps ids |
| TickServer.UpdateAllUntouched | src/Server.kt:147 | a player with no client is left exactly as it was |
| TickServer.UpdateAllAt | src/Server.kt:146-155 | with distinct client ids, each client's player is integrated once with that client's last input |
| TickServer.LastTextWins | src/Server.kt:97-101 | after a stream that decodes, `lastInput` is the last text frame's input |
| TickServer.LastTextWinsBeforeNonText | src/Server.kt:97-101 | other kinds of frames after the last text frame leave `lastInput` at that frame's input |
| TickServer.LastInputStopsAtUndecodable | src/Server.kt:96-103 | no frame after one that fails to decode reaches `lastInput` |
| TickServer.NonTextKeepsInput | src/Server.kt:98 | frames that are not text leave `lastInput` as it is |
| TickServer.LastInputAppend | src/Server.kt:97-101 | over a prefix that decodes, the frame loop continues from the input the prefix left |
| TickServer.Listing | src/Server.kt:159 | the snapshot list has one entry per stored player, each the stored value, with no id twice |
| TickServer.ListingCoversTable | src/Server.kt:159 | every stored player is in the snapshot list |
| TickServer.GameServer.constructor | src/Server.kt:115-118 | the server starts with no clients, no players and tick 0 |
| TickServer.GameServer.Register | src/Server.kt:124-127 | the client joins the set; its id maps to a default player, replacing any earlier one; tick unchanged |
| TickServer.GameServer.Unregister | src/Server.kt:129-132 | the client leaves the set; its id's entry is removed; tick unchanged |
| TickServer.GameServer.Update | src/Server.kt:144-156 | tick + 1; clients unchanged; players equal the update loop over the clients' last inputs, in client order |
| TickServer.GameServer.Snapshot | src/Server.kt:158-159 | the snapshot holds the current players (each under its id, none twice), no zones, and the current tick |
| TickServer.GameServer.SnapshotListsEveryPlayer | src/Server.kt:159 | every stored player appears in the snapshot |
| TickServer.GameServer.RunTick | src/Server.kt:134-140 | one loop pass is `update(50)` followed by the snapshot of the new state, with tick advanced by one and the client set unchanged |
| TickServer.Serve | src/Server.kt:93-106 | the client holds the last decoded input up to the first undecodable frame; afterwards its set and map entry are gone, on every path |
| InlineServer.SpawnedDefaults | server/src/main/kotlin/com/example/GameServer.kt:34-37 | a new player is "player-"+id at (0,0) with mass 10 and a core |
| InlineServer.SingleFlagMoves | server/src/main/kotlin/com/example/GameServer.kt:89-93 | up is y-1, down is y+1, left is x-1, right is x+1 |
| InlineServer.OpposingFlagsCancel | server/src/main/kotlin/com/example/GameServer.kt:90-93 | both or neither of an opposing pair leaves that coordinate unchanged |
| InlineServer.SplitRule | server/src/main/kotlin/com/example/GameServer.kt:94-96 | mass halves iff split and mass > 5; positive mass stays positive; after a split it is above 2.5 |
| InlineServer.SplitsHalveWhileAbove | server/src/main/kotlin/com/example/GameServer.kt:94-96 | while mass stays above 5 before each split, k splits divide it by 2^k |
| InlineServer.SplitsStopAtThreshold | server/src/main/kotlin/com/example/GameServer.kt:94-96 | once mass is at most 5, further splits leave it alone |
| InlineServer.SplitsKeepMass | server/src/main/kotlin/com/example/GameServer.kt:94-96 | any number of splits keeps mass positive, never increases it, and leaves it above 2.5 if any fired |
| InlineServer.HandledKeepsIdentity | server/src/main/kotlin/com/example/GameServer.kt:44-45 | a message keeps id, colour and core; the nickname becomes the nick when present and stays otherwise |
| InlineServer.KeepaliveChangesNothing | server/src/main/kotlin/com/example/GameServer.kt:44-45 | the keepalive `{}` leaves a player exactly as it was |
| InlineServer.HandshakeOnlyRenames | server/src/main/kotlin/com/example/GameServer.kt:44-45 | a nick-only message changes the nickname and nothing else |
| InlineServer.RunKeepsWellKeyed | server/src/main/kotlin/com/example/GameServer.kt:33-50 | connect, message and close steps keep every entry under its own id |
| InlineServer.ClosedStaysAbsent | server/src/main/kotlin/com/example/GameServer.kt:50 | after a close, the id stays out of the table until it connects again |
| InlineServer.Snapshot | server/src/main/kotlin/com/example/GameServer.kt:66 | one state per table entry, each the entry under its id, no id twice, stamped with the clock |
| InlineServer.SnapshotListsEveryEntry | server/src/main/kotlin/com/example/GameServer.kt:66 | every table entry appears in the snapshot |
| InlineServer.WelcomeListsNewcomer | server/src/main/kotlin/com/example/GameServer.kt:37-39 | the snapshot sent on connect lists the new player with its defaults |
| InlineServer.SnapshotAfterCloseOmits | server/src/main/kotlin/com/example/GameServer.kt:49-50 | no snapshot after a close lists that id until it connects again |
| InlineServer.StaleEntryIffUndecodable | server/src/main/kotlin/com/example/GameServer.kt:41-50 | as written, a session leaves its id in the table iff some frame fails to decode; other ids are unaffected |
| InlineServer.ConsumeStopsAtUndecodable | server/src/main/kotlin/com/example/GameServer.kt:41-47 | no frame after an undecodable one reaches the player |
| InlineServer.ConsumeAppliesAll | server/src/main/kotlin/com/example/GameServer.kt:41-47 | in a stream that decodes, each text frame is applied after the ones before it |
| InlineServer.ToStateFaithful | server/src/main/kotlin/com/example/GameServer.kt:86 | two players project to the same state iff all seven fields agree |
| InlineServer.Player.constructor | server/src/main/kotlin/com/example/GameServer.kt:76-84 | the fields are as given; mass defaults to 10 and `hasCore` to true |
| InlineServer.Player.Update | server/src/main/kotlin/com/example/GameServer.kt:88-97 | the new state is `Moved` of the old: flag moves and the split rule; id, nickname, colour and core unchanged |
| InlineServer.Arena.constructor | server/src/main/kotlin/com/example/GameServer.kt:30 | the table starts empty |
| InlineServer.Arena.States | server/src/main/kotlin/com/example/GameServer.kt:30 | the state view has the table's keys, each entry under its own id |
| InlineServer.Arena.Join | server/src/main/kotlin/com/example/GameServer.kt:34-37 | a fresh default player is stored under the id, replacing any earlier one |
| InlineServer.Arena.Connect | server/src/main/kotlin/com/example/GameServer.kt:34-39 | Join, and the welcome is the snapshot of the new table |
| InlineServer.Arena.OnText | server/src/main/kotlin/com/example/GameServer.kt:42-46 | the nick (if present), then `update`; the table changes only if this player is stored under its id |
| InlineServer.Arena.Close | server/src/main/kotlin/com/example/GameServer.kt:49-50 | the id's entry is removed |
| InlineServer.Arena.Pump | server/src/main/kotlin/com/example/GameServer.kt:41-47 | the player ends at `Consume` of its frames; the loop completes iff no frame fails to decode; the table follows the player |
| InlineServer.Arena.Serve | server/src/main/kotlin/com/example/GameServer.kt:33-51 | as written, the table after a session is `Session`: the entry is removed only when the frame loop completes |
| InlineServer.Arena.ServeGuarded | server/src/main/kotlin/com/example/GameServer.kt:33-51 | with the removal in a `finally`, the session leaves the table as before minus the id, whatever the frames |

## Left out

- Ktor and Netty setup, routing, ping periods and `send`/`sendSerialized`. This is transport I/O. A snapshot's delivery to each session is not modelled; only its contents are.
- kotlinx.serialization. Decoding is the `Frame` case a session receives, and JSON encoding of snapshots is not modelled.
- Coroutines, `GlobalScope.launch`, `delay`, and the `ApplicationStarted`/`ApplicationStopped` subscriptions, including `players.clear()` on stop. These are scheduling. One loop pass is one `RunTick` call, and sessions run one after another, so interleaving between sessions and the loop is not modelled.
- `ConcurrentHashMap` thread safety and its hash iteration order. The order of `GameServer.kt`'s snapshot is left unspecified through `Enumerate`.
- TickServer.Listing: `mutableMapOf()` in `Server.kt` is a LinkedHashMap, so `players.values.toList()` lists players in key-insertion order. The model deliberately leaves that order unspecified and states only which players are listed.
- `Random.nextInt`, `UUID.randomUUID()`, `hashCode()` and `System.currentTimeMillis()`. These are nondeterministic, so they are parameters (`color`, `id`, `now`).
- IEEE Float/Double rounding. Quantities are `real`.
- Long overflow of `tick`. It is an `int`.
- The `session` field of `GameServer.kt`'s `Player` (lines 36 and 49). It only routes sends.
- `Mutation` and `Zone`. They are declared as data, but nothing populates them, and the snapshot's zone list is always empty.
- `client/main.js` (rendering and interpolation) and `server/build.gradle.kts` (build configuration).
- TickServer.GameServer.Update: proved against `UpdateAll`. The per-client effect (`UpdateAllAt`) is stated for distinct client ids. With duplicate ids, `UpdateAll` still models the code: the shared player is integrated once per client.
- InlineServer.Arena.Serve: its contract is about the table. The welcome snapshot is `Connect`'s contract, so `Serve` starts from `Join`.
- TickServer.Serve and InlineServer.Arena.Serve: a peer that drops the connection ends the frame list. A dropped connection is not modelled separately from a normal close.

## Findings

| source | as written | input that shows it | evidently intended | confidence | as-written member | corrected member |
|---|---|---|---|---|---|---|
| server/src/main/kotlin/com/example/GameServer.kt:41-50 | the removal `players.remove(id)` follows `incoming.consumeEach` with no `finally`, so an exception out of the frame loop skips it | a text frame `hello` (or `{"up":1}`) makes decoding throw; the player stays in the table, and every later snapshot lists it | the entry is removed whenever the session ends, as `src/Server.kt:103-105` does with `finally` | high, not executed | InlineServer.StaleEntryIffUndecodable | InlineServer.Arena.ServeGuarded |

/** The wire messages of the inline-input server
    (server/src/main/kotlin/com/example/Messages.kt). */
module Messages {
  import opened Wrappers

  /** One decoded text frame from a client. Every field the JSON object
      leaves out takes the default written here. */
  datatype ClientMessage = ClientMessage(
    up: bool := false,
    down: bool := false,
    left: bool := false,
    right: bool := false,
    split: bool := false,
    nick: Option<string> := None)

  /** The read-only projection of a player that is sent to clients. */
  datatype PlayerState = PlayerState(
    id: string,
    nickname: string,
    x: real,
    y: real,
    mass: real,
    color: int,
    hasCore: bool)

  /** A world snapshot: the player states and a wall-clock timestamp in
      milliseconds. There is no zone list and no tick counter. */
  datatype ServerMessage = ServerMessage(players: seq<PlayerState>, time: int)

  /** What the keepalive probe `{}` decodes to: every field at its default. */
  function Keepalive(): (m: ClientMessage)
    ensures !m.up && !m.down && !m.left && !m.right && !m.split
    ensures m.nick == None
  {
    ClientMessage()
  }

  /** A message that only sets a nickname (the client's handshake
      `{nick: ...}`) moves nothing and does not split. */
  function Handshake(nick: string): (m: ClientMessage)
    ensures !m.up && !m.down && !m.left && !m.right && !m.split
    ensures m.nick == Some(nick)
  {
    ClientMessage(nick := Some(nick))
  }
}

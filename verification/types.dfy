/**
 * The data of the buzzer-room service: rooms, the players in them, the
 * sessions attached to WebSocket connections, the frames a client sends and
 * the messages the server sends back.
 */
module Types {
  import opened Wrappers

  type UserId = string
  type RoomCode = string

  /**
   * A handle standing for one WebSocket object. The service tells sockets
   * apart by reference (`indexOf(ws)`), which a handle models.
   */
  type ConnId = nat

  /** An entry of a room's player list; `locked` is absent until the host sets it. */
  datatype Player = Player(id: UserId, username: string, locked: Option<bool>)

  datatype Room = Room(
    code: RoomCode,
    host: UserId,
    players: seq<Player>,
    scores: map<UserId, int>,
    activeBuzzer: Option<UserId>)

  /** The `data` attached to a socket once it has created or joined a room. */
  datatype Session = Session(userId: UserId, username: string, roomCode: Option<RoomCode>)

  /** A registered socket: its session, if any, and whether it is OPEN (`readyState === 1`). */
  datatype Connection = Connection(id: ConnId, session: Option<Session>, open: bool)

  /** A player annotated with its score, as carried by `POINTS_UPDATED`. */
  datatype ScoredPlayer = ScoredPlayer(player: Player, score: int)

  /** The outbound messages, one constructor per `type` the server sends. */
  datatype Msg =
    | RoomCreated(room: Room)
    | RoomJoined(room: Room)
    | PlayerJoined(players: seq<Player>)
    | BuzzerLock(locked: bool)
    | BuzzerPressed(playerId: UserId, username: string, timestamp: int)
    | BuzzerReset
    | PlayerBuzzerLocked(playerId: UserId, locked: bool)
    | PointsUpdated(scores: map<UserId, int>, scoredPlayers: seq<ScoredPlayer>)
    | PlayerLeft(players: seq<Player>, newHost: UserId)

  /** One message written to one socket. */
  datatype Outbound = Send(to: ConnId, msg: Msg)

  /** The room map and the connection list, plus the next unused socket handle. */
  datatype State = State(rooms: map<RoomCode, Room>, conns: seq<Connection>, nextConn: ConnId)

  /** The outcome of handling one input: the new state and what was sent, in order. */
  datatype Step = Step(state: State, out: seq<Outbound>)

  /**
   * The parsed body of an inbound frame. The handlers read the fields by name
   * from an untyped object; here every field is present and each handler reads
   * the ones it uses.
   */
  datatype Payload = Payload(
    userId: UserId,
    username: string,
    roomCode: RoomCode,
    timestamp: int,
    playerId: UserId,
    lock: bool,
    points: int)

  /** An inbound frame: the `type` tag and the payload. */
  datatype Frame = Frame(tag: string, data: Payload)

  /** What the runtime hands the service: a new socket, a frame on a socket, a socket closing. */
  datatype Input =
    | Upgrade
    | Message(conn: ConnId, frame: Frame)
    | Closing(conn: ConnId)
    | Closed(conn: ConnId)

  const CreateTag: string := "CREATE_BUZZER_ROOM"
  const JoinTag: string := "JOIN_BUZZER_ROOM"
  const PressTag: string := "PRESS_BUZZER"
  const ResetTag: string := "RESET_BUZZER"
  const LockTag: string := "LOCK_PLAYER_BUZZER"
  const AwardTag: string := "AWARD_POINTS"
  const LeaveTag: string := "LEAVE_BUZZER_ROOM"

  /** The tags the dispatcher recognises. */
  const KnownTags: set<string> := {CreateTag, JoinTag, PressTag, ResetTag, LockTag, AwardTag, LeaveTag}

  /** The initial state: no rooms, no sockets. */
  const Init: State := State(map[], [], 0)
}

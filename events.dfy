/**
  Outbound socket events: what each handler emits, to whom.

  Recipients are socket ids taken from the room table at the moment of the emit:
  a broadcast to the room reaches the room's members, a broadcast from the sender's
  socket reaches them all but the sender, and a direct emit reaches the caller only.
 */
module Events {
  import opened Registry

  type Position = int

  datatype Payload =
    | RoomCreated(roomId: RoomId)
    | RoomJoined(roomId: RoomId, content: string, user: User)
    | UserJoined(user: User)
    | UsersUpdate(users: map<SocketId, User>)
    | TextChanged(content: string, username: string)
    | CursorUpdate(position: Position, username: string, userId: SocketId)
    | UserLeft(userId: SocketId, username: string)
  {
    /** The event name on the wire. */
    function WireName(): string {
      match this
      case RoomCreated(_) => "room-created"
      case RoomJoined(_, _, _) => "room-joined"
      case UserJoined(_) => "user-joined"
      case UsersUpdate(_) => "users-update"
      case TextChanged(_, _) => "text-changed"
      case CursorUpdate(_, _, _) => "cursor-update"
      case UserLeft(_, _) => "user-left"
    }
  }

  /** Who an event is addressed to. */
  datatype Scope =
    | Caller            // the emitting socket only
    | RoomButSender     // every member of the room except the emitting socket
    | WholeRoom         // every member of the room

  /** The addressing rule of each event kind. */
  function ScopeOf(p: Payload): (s: Scope)
    ensures s == Caller <==> p.WireName() in {"room-created", "room-joined"}
    ensures s == WholeRoom <==> p.WireName() == "users-update"
  {
    match p
    case RoomCreated(_) => Caller
    case RoomJoined(_, _, _) => Caller
    case UsersUpdate(_) => WholeRoom
    case UserJoined(_) => RoomButSender
    case TextChanged(_, _) => RoomButSender
    case CursorUpdate(_, _, _) => RoomButSender
    case UserLeft(_, _) => RoomButSender
  }

  datatype Event = Event(recipients: set<SocketId>, payload: Payload)

  /** The event `sender` emits about `roomId`, addressed by its kind's rule against
      the room table as it stands when the event is sent. */
  function Deliver(rooms: map<RoomId, Room>, roomId: RoomId, sender: SocketId, p: Payload): (e: Event)
    ensures e.payload == p
    ensures ScopeOf(p) == Caller ==> e.recipients == {sender}
    ensures ScopeOf(p) != Caller ==> e.recipients <= Members(rooms, roomId).Keys
    ensures ScopeOf(p) == WholeRoom ==> e.recipients == Members(rooms, roomId).Keys
    ensures ScopeOf(p) == RoomButSender ==>
      sender !in e.recipients && e.recipients + {sender} >= Members(rooms, roomId).Keys
  {
    var members := Members(rooms, roomId).Keys;
    match ScopeOf(p)
    case Caller => Event({sender}, p)
    case RoomButSender => Event(members - {sender}, p)
    case WholeRoom => Event(members, p)
  }

  /** What join-room emits once `sid` is recorded in `roomId`: the room's content and the
      caller's record to the caller, the record to the other members, and the member
      list to the whole room. */
  function JoinEvents(rooms: map<RoomId, Room>, roomId: RoomId, sid: SocketId, user: User): (events: seq<Event>)
    requires roomId in rooms && sid in rooms[roomId].users
    ensures |events| == 3
    ensures events[0] == Event({sid}, RoomJoined(roomId, rooms[roomId].content, user))
    ensures events[1] == Event(rooms[roomId].users.Keys - {sid}, UserJoined(user))
    ensures events[2] == Event(rooms[roomId].users.Keys, UsersUpdate(rooms[roomId].users))
    ensures sid in events[2].recipients
  {
    [ Deliver(rooms, roomId, sid, RoomJoined(roomId, rooms[roomId].content, user)),
      Deliver(rooms, roomId, sid, UserJoined(user)),
      Deliver(rooms, roomId, sid, UsersUpdate(rooms[roomId].users)) ]
  }

  /** What disconnect emits for a known socket once the room table is updated: the
      departure to the remaining members, then the member list if the room survived. */
  function DepartureEvents(rooms: map<RoomId, Room>, roomId: RoomId, sid: SocketId, username: string): (events: seq<Event>)
    ensures |events| == (if roomId in rooms then 2 else 1)
    ensures events[0].payload == UserLeft(sid, username)
    ensures events[0].recipients == Members(rooms, roomId).Keys - {sid}
    ensures roomId in rooms ==>
      events[1] == Event(rooms[roomId].users.Keys, UsersUpdate(rooms[roomId].users))
  {
    [Deliver(rooms, roomId, sid, UserLeft(sid, username))]
    + (if roomId in rooms then [Deliver(rooms, roomId, sid, UsersUpdate(rooms[roomId].users))] else [])
  }
}

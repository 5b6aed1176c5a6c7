/**
  The socket handlers of the collaboration server, each taken as one atomic step
  over the two in-memory tables. Every handler returns the events it emits, in
  emission order.

  Inputs that the server obtains from outside are parameters: the socket id of the
  caller, the random draws (alphabet indices for room ids, palette indices for a
  user's looks) and, for a join, the content the database mirror holds for the room,
  if any.
 */
module Sync {
  import opened Registry
  import opened Events
  import RoomIds

  /** How many ids create-room generates at most before it gives up looking for a free one. */
  const MaxAttempts: nat := 10

  /** The draws for every generator call create-room may make. */
  predicate ValidAttemptDraws(draws: seq<seq<nat>>) {
    |draws| == MaxAttempts && forall k :: 0 <= k < |draws| ==> RoomIds.ValidDraws(draws[k])
  }

  /** create-room's retry loop: generate ids until one is not in `taken` or ten have been
      generated. Call k of the generator uses `draws[k]`. */
  method ChooseRoomId(taken: set<RoomId>, draws: seq<seq<nat>>) returns (roomId: RoomId, attempts: nat)
    requires ValidAttemptDraws(draws)
    ensures 1 <= attempts <= MaxAttempts
    ensures RoomIds.IsRoomId(roomId) && roomId == RoomIds.Spell(draws[attempts - 1])
    ensures forall k :: 0 <= k < attempts - 1 ==> RoomIds.Spell(draws[k]) in taken
    ensures attempts < MaxAttempts ==> roomId !in taken
  {
    roomId := RoomIds.GenerateRoomId(draws[0]);
    attempts := 1;
    while roomId in taken && attempts < MaxAttempts
      invariant 1 <= attempts <= MaxAttempts
      invariant RoomIds.IsRoomId(roomId) && roomId == RoomIds.Spell(draws[attempts - 1])
      invariant forall k :: 0 <= k < attempts - 1 ==> RoomIds.Spell(draws[k]) in taken
      decreases MaxAttempts - attempts
    {
      roomId := RoomIds.GenerateRoomId(draws[attempts]);
      attempts := attempts + 1;
    }
  }

  class SyncServer {
    /** roomId to content and members. */
    var rooms: map<RoomId, Room>
    /** Reverse index: socket id to the user record of its latest join. */
    var connectedUsers: map<SocketId, User>

    ghost predicate Valid()
      reads this
    {
      RoomsConsistent(rooms) && DirectoryConsistent(connectedUsers)
    }

    /** Reverse-index entries point at live memberships. Every handler keeps this, except
        create-room when all its attempts collide. */
    ghost predicate Backed()
      reads this
    {
      DirectoryBacked(rooms, connectedUsers)
    }

    constructor ()
      ensures Valid() && Backed()
      ensures rooms == map[] && connectedUsers == map[]
    {
      rooms := map[];
      connectedUsers := map[];
    }

    /** join-room: create the room if it is unknown here (with the mirror's content, or
        empty), record the user in the room and in the reverse index, then answer the
        caller and tell the room. */
    method JoinRoom(sid: SocketId, roomId: RoomId, username: string, colorIx: nat, avatarIx: nat,
                    hydrated: Option<string>) returns (events: seq<Event>)
      requires Valid()
      requires colorIx < |UserColors| && avatarIx < |UserAvatars|
      modifies this
      ensures Valid()
      ensures old(Backed()) ==> Backed()
      ensures var user := MakeUser(sid, username, roomId, colorIx, avatarIx);
        && rooms == Join(old(rooms), user, hydrated)
        && connectedUsers == old(connectedUsers)[sid := user]
        && rooms[roomId].users[sid] == connectedUsers[sid] == user
        && events == JoinEvents(rooms, roomId, sid, user)
      ensures roomId in old(rooms) ==> rooms[roomId].content == old(rooms[roomId].content)
      ensures roomId !in old(rooms) && hydrated == None ==>
        events[0].payload.content == "" && |events[2].payload.users| == 1
    {
      if roomId !in rooms {
        rooms := rooms[roomId := Room(if hydrated.Some? then hydrated.value else "", map[])];
      }
      var roomData := rooms[roomId];
      var user := MakeUser(sid, username, roomId, colorIx, avatarIx);
      RegisterConsistent(connectedUsers, user);
      connectedUsers := connectedUsers[sid := user];
      rooms := rooms[roomId := roomData.(users := roomData.users[sid := user])];
      assert rooms == old(rooms)[roomId := roomData.(users := roomData.users[sid := user])];
      JoinConsistent(old(rooms), user, hydrated);
      JoinBacked(old(rooms), old(connectedUsers), user, hydrated);
      events := JoinEvents(rooms, roomId, sid, user);
      if roomId !in old(rooms) && hydrated == None {
        assert rooms[roomId].users == map[sid := user];
      }
    }

    /** create-room: pick an id by the retry loop and install an empty room under it,
        replacing whatever room had that id if all ten attempts collided. */
    method CreateRoom(sid: SocketId, draws: seq<seq<nat>>) returns (roomId: RoomId, attempts: nat, events: seq<Event>)
      requires Valid()
      requires ValidAttemptDraws(draws)
      modifies this
      ensures Valid()
      ensures 1 <= attempts <= MaxAttempts
      ensures RoomIds.IsRoomId(roomId) && roomId == RoomIds.Spell(draws[attempts - 1])
      ensures forall k :: 0 <= k < attempts - 1 ==> RoomIds.Spell(draws[k]) in old(rooms)
      ensures attempts < MaxAttempts ==> roomId !in old(rooms)
      ensures rooms == old(rooms)[roomId := Room("", map[])]
      ensures connectedUsers == old(connectedUsers)
      ensures events == [Deliver(rooms, roomId, sid, RoomCreated(roomId))]
      ensures old(Backed()) && roomId !in old(rooms) ==> Backed()
    {
      roomId, attempts := ChooseRoomId(rooms.Keys, draws);
      if roomId !in rooms && Backed() {
        InstallBacked(rooms, connectedUsers, roomId);
      }
      rooms := rooms[roomId := Room("", map[])];
      events := [Deliver(rooms, roomId, sid, RoomCreated(roomId))];
    }

    /** text-change: replace the room's content if the room is known (whether or not the
        sender is one of its members) and relay the payload to the rest of the room. */
    method TextChange(sid: SocketId, roomId: RoomId, content: string, username: string) returns (events: seq<Event>)
      requires Valid()
      modifies this
      ensures Valid()
      ensures old(Backed()) ==> Backed()
      ensures rooms == SetContent(old(rooms), roomId, content)
      ensures connectedUsers == old(connectedUsers)
      ensures events == [Deliver(rooms, roomId, sid, TextChanged(content, username))]
      ensures sid !in events[0].recipients
    {
      SetContentConsistent(rooms, roomId, content);
      if Backed() {
        SetContentBacked(rooms, connectedUsers, roomId, content);
      }
      if roomId in rooms {
        rooms := rooms[roomId := rooms[roomId].(content := content)];
      }
      events := [Deliver(rooms, roomId, sid, TextChanged(content, username))];
    }

    /** cursor-position: relay the position to the rest of the room; nothing is stored. */
    method CursorPosition(sid: SocketId, roomId: RoomId, position: Position, username: string) returns (events: seq<Event>)
      ensures |events| == 1 && events[0].payload == CursorUpdate(position, username, sid)
      ensures sid !in events[0].recipients
      ensures events[0].recipients == Members(rooms, roomId).Keys - {sid}
    {
      events := [Deliver(rooms, roomId, sid, CursorUpdate(position, username, sid))];
    }

    /** disconnect: for a socket with a reverse-index entry, drop it from the room that entry
        names (deleting the room if that empties it) and from the index, then tell the room.
        An unknown socket changes nothing and emits nothing. */
    method Disconnect(sid: SocketId) returns (events: seq<Event>)
      requires Valid()
      modifies this
      ensures Valid()
      ensures old(Backed()) ==> Backed()
      ensures sid !in old(connectedUsers) ==>
        rooms == old(rooms) && connectedUsers == old(connectedUsers) && events == []
      ensures sid in old(connectedUsers) ==>
        var user := old(connectedUsers[sid]);
        && rooms == Leave(old(rooms), user.roomId, sid)
        && connectedUsers == old(connectedUsers) - {sid}
        && events == DepartureEvents(rooms, user.roomId, sid, user.username)
    {
      events := [];
      if sid in connectedUsers {
        var user := connectedUsers[sid];
        var roomId := user.roomId;
        if roomId in rooms {
          rooms := rooms[roomId := rooms[roomId].(users := rooms[roomId].users - {sid})];
          if rooms[roomId].users == map[] {
            rooms := rooms - {roomId};
          }
        }
        assert rooms == Leave(old(rooms), roomId, sid);
        LeaveConsistent(old(rooms), roomId, sid);
        LeaveBacked(old(rooms), old(connectedUsers), sid);
        UnregisterConsistent(connectedUsers, sid);
        connectedUsers := connectedUsers - {sid};
        events := DepartureEvents(rooms, roomId, sid, user.username);
      }
    }
  }
}

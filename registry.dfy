/**
  The server's in-memory registry: the room table (roomId to content and
  members) and the reverse index from a socket id to its user record, with the
  room-table updates that the socket handlers perform on it.

  Room ids, socket ids, usernames and content are opaque strings: the server
  neither trims nor case-normalises them.
 */
module Registry {

  type SocketId = string
  type RoomId = string

  datatype Option<T> = None | Some(value: T)

  /** The record built for a socket when it joins a room. */
  datatype User = User(id: SocketId, username: string, color: string, avatar: string, roomId: RoomId)

  /** One entry of the room table. */
  datatype Room = Room(content: string, users: map<SocketId, User>)

  const UserColors: seq<string> :=
    ["#FF6B6B", "#4ECDC4", "#45B7D1", "#96CEB4", "#FFEAA7", "#DDA0DD", "#98D8C8", "#F7DC6F"]

  const UserAvatars: seq<string> :=
    [ "\U{1F464}",
      "\U{1F9D1}\U{200D}\U{1F4BB}", "\U{1F469}\U{200D}\U{1F4BB}",
      "\U{1F9D1}\U{200D}\U{1F3A8}", "\U{1F469}\U{200D}\U{1F3A8}",
      "\U{1F9D1}\U{200D}\U{1F52C}", "\U{1F469}\U{200D}\U{1F52C}",
      "\U{1F9D1}\U{200D}\U{1F4BC}" ]

  /** The user record of a join; the two indices stand for the random palette picks. */
  function MakeUser(sid: SocketId, username: string, roomId: RoomId, colorIx: nat, avatarIx: nat): (u: User)
    requires colorIx < |UserColors| && avatarIx < |UserAvatars|
    ensures u.id == sid && u.username == username && u.roomId == roomId
    ensures FromPalettes(u)
  {
    User(sid, username, UserColors[colorIx], UserAvatars[avatarIx], roomId)
  }

  /** The user's looks come from the two fixed palettes. */
  predicate FromPalettes(u: User) {
    u.color in UserColors && u.avatar in UserAvatars
  }

  /** Every member entry is filed under its own socket id, inside its own room. */
  predicate RoomsConsistent(rooms: map<RoomId, Room>) {
    forall r, s :: r in rooms && s in rooms[r].users ==>
      rooms[r].users[s].id == s && rooms[r].users[s].roomId == r && FromPalettes(rooms[r].users[s])
  }

  /** Every reverse-index entry is filed under its own socket id. */
  predicate DirectoryConsistent(directory: map<SocketId, User>) {
    forall s :: s in directory ==> directory[s].id == s && FromPalettes(directory[s])
  }

  /** Every reverse-index entry points at a live room that holds that very record. */
  predicate DirectoryBacked(rooms: map<RoomId, Room>, directory: map<SocketId, User>) {
    forall s :: s in directory ==>
      directory[s].roomId in rooms
      && s in rooms[directory[s].roomId].users
      && rooms[directory[s].roomId].users[s] == directory[s]
  }

  /** The members of a room, or none for an unknown room. */
  function Members(rooms: map<RoomId, Room>, roomId: RoomId): map<SocketId, User> {
    if roomId in rooms then rooms[roomId].users else map[]
  }

  /** Room table after `user` joins `user.roomId`. An unknown room is created first, with
      the mirror's content when there is one and empty content otherwise; a known
      room keeps its content. */
  function Join(rooms: map<RoomId, Room>, user: User, hydrated: Option<string>): (r: map<RoomId, Room>)
    ensures r.Keys == rooms.Keys + {user.roomId}
    ensures user.roomId in rooms ==> r[user.roomId].content == rooms[user.roomId].content
    ensures user.roomId !in rooms ==>
      r[user.roomId].content == (if hydrated.Some? then hydrated.value else "")
    ensures user.id in r[user.roomId].users && r[user.roomId].users[user.id] == user
    ensures r[user.roomId].users.Keys == Members(rooms, user.roomId).Keys + {user.id}
    ensures forall s :: s in Members(rooms, user.roomId) && s != user.id ==>
      r[user.roomId].users[s] == rooms[user.roomId].users[s]
    ensures forall q :: q in rooms && q != user.roomId ==> r[q] == rooms[q]
  {
    var room := if user.roomId in rooms then rooms[user.roomId]
                else Room(if hydrated.Some? then hydrated.value else "", map[]);
    rooms[user.roomId := room.(users := room.users[user.id := user])]
  }

  /** Room table after socket `sid` leaves `roomId`: the member is dropped and a room
      left with no members is deleted; an unknown room changes nothing. */
  function Leave(rooms: map<RoomId, Room>, roomId: RoomId, sid: SocketId): (r: map<RoomId, Room>)
    ensures roomId !in rooms ==> r == rooms
    ensures roomId in rooms ==> (roomId !in r <==> rooms[roomId].users.Keys <= {sid})
    ensures roomId in r ==>
      r[roomId].content == rooms[roomId].content
      && r[roomId].users.Keys == rooms[roomId].users.Keys - {sid}
      && forall s :: s in r[roomId].users ==> r[roomId].users[s] == rooms[roomId].users[s]
    ensures r.Keys <= rooms.Keys
    ensures forall q :: q in rooms && q != roomId ==> q in r && r[q] == rooms[q]
  {
    if roomId in rooms then
      var users := rooms[roomId].users - {sid};
      assert users == map[] <==> rooms[roomId].users.Keys <= {sid} by {
        assert users.Keys == rooms[roomId].users.Keys - {sid};
        assert users.Keys == {} ==> users == map[];
        assert users == map[] ==> users.Keys == {};
      }
      if users == map[] then rooms - {roomId}
      else rooms[roomId := rooms[roomId].(users := users)]
    else rooms
  }

  /** Room table after a content replacement: a known room takes the new content
      wholesale; an unknown room is not created. */
  function SetContent(rooms: map<RoomId, Room>, roomId: RoomId, content: string): (r: map<RoomId, Room>)
    ensures r.Keys == rooms.Keys
    ensures roomId in r ==> r[roomId].content == content
    ensures forall q :: q in r ==> r[q].users == rooms[q].users
    ensures forall q :: q in rooms && q != roomId ==> r[q] == rooms[q]
  {
    if roomId in rooms then rooms[roomId := rooms[roomId].(content := content)] else rooms
  }

  /** Content replacements applied in arrival order; each is (roomId, content). */
  function ApplyEdits(rooms: map<RoomId, Room>, edits: seq<(RoomId, string)>): map<RoomId, Room> {
    if edits == [] then rooms
    else ApplyEdits(SetContent(rooms, edits[0].0, edits[0].1), edits[1..])
  }

  /** The payload of the last edit in `edits` addressed to `roomId`, if any. */
  function LastEditFor(edits: seq<(RoomId, string)>, roomId: RoomId): Option<string> {
    if edits == [] then None
    else match LastEditFor(edits[1..], roomId)
      case Some(c) => Some(c)
      case None => if edits[0].0 == roomId then Some(edits[0].1) else None
  }

  /** Last-applied-wins, per room: after any sequence of edits, each room holds the
      payload of the last edit addressed to it (or its old content if there was none),
      whatever edits to other rooms were interleaved; no room is created or removed and
      no membership changes. */
  lemma {:induction false} LastAppliedWins(rooms: map<RoomId, Room>, edits: seq<(RoomId, string)>)
    ensures ApplyEdits(rooms, edits).Keys == rooms.Keys
    ensures forall r :: r in rooms ==>
      ApplyEdits(rooms, edits)[r].users == rooms[r].users
      && ApplyEdits(rooms, edits)[r].content ==
         (match LastEditFor(edits, r) case Some(c) => c case None => rooms[r].content)
  {
    if edits != [] {
      var first := SetContent(rooms, edits[0].0, edits[0].1);
      LastAppliedWins(first, edits[1..]);
    }
  }

  /** Leaving twice is leaving once: a second disconnect cleanup changes nothing. */
  lemma LeaveIdempotent(rooms: map<RoomId, Room>, roomId: RoomId, sid: SocketId)
    ensures Leave(Leave(rooms, roomId, sid), roomId, sid) == Leave(rooms, roomId, sid)
  {
    var once := Leave(rooms, roomId, sid);
    if roomId in once {
      assert once[roomId].users - {sid} == once[roomId].users;
      assert once[roomId := once[roomId].(users := once[roomId].users)] == once;
    }
  }

  /** Each room-table update keeps every member entry filed under its socket and room. */
  lemma JoinConsistent(rooms: map<RoomId, Room>, user: User, hydrated: Option<string>)
    requires RoomsConsistent(rooms) && FromPalettes(user)
    ensures RoomsConsistent(Join(rooms, user, hydrated))
  {
  }

  lemma LeaveConsistent(rooms: map<RoomId, Room>, roomId: RoomId, sid: SocketId)
    requires RoomsConsistent(rooms)
    ensures RoomsConsistent(Leave(rooms, roomId, sid))
  {
  }

  lemma UnregisterConsistent(directory: map<SocketId, User>, sid: SocketId)
    requires DirectoryConsistent(directory)
    ensures DirectoryConsistent(directory - {sid})
  {
  }

  lemma RegisterConsistent(directory: map<SocketId, User>, user: User)
    requires DirectoryConsistent(directory) && FromPalettes(user)
    ensures DirectoryConsistent(directory[user.id := user])
  {
  }

  lemma SetContentConsistent(rooms: map<RoomId, Room>, roomId: RoomId, content: string)
    requires RoomsConsistent(rooms)
    ensures RoomsConsistent(SetContent(rooms, roomId, content))
  {
  }
  /** The reverse index stays backed by live memberships through a join: the joining
      socket's entry is replaced by the new record, which the room now holds. */
  lemma JoinBacked(rooms: map<RoomId, Room>, directory: map<SocketId, User>, user: User, hydrated: Option<string>)
    ensures DirectoryBacked(rooms, directory) ==>
      DirectoryBacked(Join(rooms, user, hydrated), directory[user.id := user])
  {
    if !DirectoryBacked(rooms, directory) { return; }
    var after := Join(rooms, user, hydrated);
    var dir := directory[user.id := user];
    forall s | s in dir
      ensures dir[s].roomId in after && s in after[dir[s].roomId].users && after[dir[s].roomId].users[s] == dir[s]
    {
      if s != user.id {
        assert dir[s] == directory[s];
        assert s in Members(rooms, directory[s].roomId);
      }
    }
  }

  /** ... and through a disconnect: the departing socket's room keeps every other member
      it had, so it is not deleted while any other entry points at it. */
  lemma LeaveBacked(rooms: map<RoomId, Room>, directory: map<SocketId, User>, sid: SocketId)
    requires sid in directory
    ensures DirectoryBacked(rooms, directory) ==> DirectoryBacked(Leave(rooms, directory[sid].roomId, sid), directory - {sid})
  {
    if !DirectoryBacked(rooms, directory) { return; }
    var roomId := directory[sid].roomId;
    var after := Leave(rooms, roomId, sid);
    var dir := directory - {sid};
    forall s | s in dir
      ensures dir[s].roomId in after && s in after[dir[s].roomId].users && after[dir[s].roomId].users[s] == dir[s]
    {
      assert dir[s] == directory[s];
      if dir[s].roomId == roomId {
        assert s in rooms[roomId].users.Keys - {sid};
      }
    }
  }

  /** ... and through a content replacement. */
  lemma SetContentBacked(rooms: map<RoomId, Room>, directory: map<SocketId, User>, roomId: RoomId, content: string)
    requires DirectoryBacked(rooms, directory)
    ensures DirectoryBacked(SetContent(rooms, roomId, content), directory)
  {
  }

  /** ... and through installing an empty room under an id not in use. */
  lemma InstallBacked(rooms: map<RoomId, Room>, directory: map<SocketId, User>, roomId: RoomId)
    requires DirectoryBacked(rooms, directory) && roomId !in rooms
    ensures DirectoryBacked(rooms[roomId := Room("", map[])], directory)
  {
  }

  /** A socket that joins a second room stays a member of the first: only the reverse
      index moves, so disconnecting later cleans up the second room and leaves the
      first one holding the socket's earlier record. */
  lemma RejoinKeepsEarlierMembership(rooms: map<RoomId, Room>, first: User, second: User,
                                     h1: Option<string>, h2: Option<string>)
    requires first.id == second.id && first.roomId != second.roomId
    ensures var after := Leave(Join(Join(rooms, first, h1), second, h2), second.roomId, second.id);
      first.roomId in after && first.id in after[first.roomId].users
      && after[first.roomId].users[first.id] == first
  {
  }

  /** Installing an empty room under an id already in use orphans that room's members:
      their reverse-index entries no longer point at a membership. */
  lemma InstallOverLiveRoomOrphans(rooms: map<RoomId, Room>, directory: map<SocketId, User>, sid: SocketId)
    requires DirectoryBacked(rooms, directory) && sid in directory
    ensures !DirectoryBacked(rooms[directory[sid].roomId := Room("", map[])], directory)
  {
    var roomId := directory[sid].roomId;
    assert sid !in rooms[roomId := Room("", map[])][roomId].users;
  }

  /** The room installed over a live one does not outlive the first orphan's disconnect:
      that socket is not among its members, so the cleanup finds it empty and deletes it,
      leaving the table as it was before the install, minus the overwritten room. */
  lemma OrphanDisconnectDeletesInstalledRoom(rooms: map<RoomId, Room>, roomId: RoomId, sid: SocketId)
    ensures Leave(rooms[roomId := Room("", map[])], roomId, sid) == rooms - {roomId}
  {
    var installed := rooms[roomId := Room("", map[])];
    assert installed[roomId].users - {sid} == map[];
    assert installed - {roomId} == rooms - {roomId};
  }

  /** ... unless someone joined it first: a member other than the orphan keeps it alive. */
  lemma JoinedInstalledRoomSurvivesOrphan(rooms: map<RoomId, Room>, user: User, hydrated: Option<string>, sid: SocketId)
    requires user.id != sid
    ensures var after := Leave(Join(rooms[user.roomId := Room("", map[])], user, hydrated), user.roomId, sid);
      user.roomId in after && after[user.roomId].users == map[user.id := user]
  {
    var joined := Join(rooms[user.roomId := Room("", map[])], user, hydrated);
    assert joined[user.roomId].users == map[user.id := user];
    assert joined[user.roomId].users - {sid} == map[user.id := user];
  }
}

/**
  A client of the server model: two participants share one room, edit it and leave.
  Everything asserted here follows from the handlers' contracts alone.
 */
module Scenario {
  import opened Registry
  import opened Events
  import opened Sync
  import RoomIds

  method TwoParticipants() {
    var server := new SyncServer();
    var roomId := OpenRoom(server);
    BothJoin(server, roomId);
    AliceEdits(server, roomId);
    BobLeaves(server, roomId);
    AliceLeaves(server, roomId);
  }

  /** On an empty server, create-room takes the first id it generates. */
  method OpenRoom(server: SyncServer) returns (roomId: RoomId)
    requires server.Valid() && server.Backed()
    requires server.rooms == map[] && server.connectedUsers == map[]
    modifies server
    ensures server.Valid() && server.Backed()
    ensures roomId == "ABC123"
    ensures server.rooms == map[roomId := Room("", map[])] && server.connectedUsers == map[]
  {
    // Ten identical draw vectors spelling "ABC123".
    var d := [0, 1, 2, 27, 28, 29];
    assert RoomIds.Spell(d) == "ABC123";
    var draws := [d, d, d, d, d, d, d, d, d, d];
    assert RoomIds.Spell(draws[0]) == "ABC123";
    var attempts, created;
    roomId, attempts, created := server.CreateRoom("alice", draws);
    assert attempts == 1;
    assert created[0].recipients == {"alice"};
  }

  /** Alice joins the fresh room and finds it empty; Bob joins and Alice hears of it. */
  method BothJoin(server: SyncServer, roomId: RoomId)
    requires server.Valid() && server.Backed()
    requires server.rooms == map[roomId := Room("", map[])] && server.connectedUsers == map[]
    modifies server
    ensures server.Valid() && server.Backed()
    ensures server.rooms.Keys == {roomId} && server.rooms[roomId].content == ""
    ensures server.rooms[roomId].users.Keys == {"alice", "bob"}
    ensures server.connectedUsers.Keys == {"alice", "bob"}
  {
    var joinedA := server.JoinRoom("alice", roomId, "Alice", 0, 0, None);
    assert joinedA[0].payload.content == "";
    assert server.rooms[roomId].users.Keys == {"alice"};

    var joinedB := server.JoinRoom("bob", roomId, "Bob", 1, 1, None);
    assert server.rooms[roomId].users.Keys == {"alice", "bob"};
    assert joinedB[1].recipients == {"alice"};
    assert joinedB[2].recipients == {"alice", "bob"};
  }

  /** Alice types: only Bob is told, and the room holds her text. */
  method AliceEdits(server: SyncServer, roomId: RoomId)
    requires server.Valid() && server.Backed()
    requires server.rooms.Keys == {roomId} && server.rooms[roomId].users.Keys == {"alice", "bob"}
    requires server.connectedUsers.Keys == {"alice", "bob"}
    modifies server
    ensures server.Valid() && server.Backed()
    ensures server.rooms.Keys == {roomId} && server.rooms[roomId].users.Keys == {"alice", "bob"}
    ensures server.rooms[roomId].content == "hello"
    ensures server.connectedUsers.Keys == {"alice", "bob"}
  {
    var edit := server.TextChange("alice", roomId, "hello", "Alice");
    assert edit[0].recipients == {"bob"};
  }

  /** Bob leaves: Alice is told and gets the one-member list; the room survives. */
  method BobLeaves(server: SyncServer, roomId: RoomId)
    requires server.Valid() && server.Backed()
    requires server.rooms.Keys == {roomId} && server.rooms[roomId].users.Keys == {"alice", "bob"}
    requires server.connectedUsers.Keys == {"alice", "bob"}
    modifies server
    ensures server.Valid() && server.Backed()
    ensures server.rooms.Keys == {roomId} && server.rooms[roomId].users.Keys == {"alice"}
    ensures server.connectedUsers.Keys == {"alice"}
  {
    var left := server.Disconnect("bob");
    assert server.rooms[roomId].users.Keys == {"alice"};
    assert |left| == 2 && left[0].recipients == {"alice"} && left[1].recipients == {"alice"};
  }

  /** Alice leaves last: the room is gone, and a repeated disconnect is silent. */
  method AliceLeaves(server: SyncServer, roomId: RoomId)
    requires server.Valid() && server.Backed()
    requires server.rooms.Keys == {roomId} && server.rooms[roomId].users.Keys == {"alice"}
    requires server.connectedUsers.Keys == {"alice"}
    modifies server
    ensures server.rooms == map[] && server.connectedUsers == map[]
  {
    var left := server.Disconnect("alice");
    assert |left| == 1 && left[0].recipients == {};
    var again := server.Disconnect("alice");
    assert again == [];
  }
}

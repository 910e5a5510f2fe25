/** The table of rooms as the program has it (src/room/rooms.c). */
module RoomTables {
  import opened Common
  import opened Jids
  import opened Affiliations
  import opened RoomModel
  import opened RoomsModel
  import opened Rooms

  class RoomTable {
    var rooms: seq<Room>
    ghost var table: seq<RoomState>

    ghost var repr: set<object>

    ghost predicate Valid()
      reads this, repr
    {
      && |rooms| == |table| && this !in repr
      && (forall r :: r in rooms ==> r in repr)
      && (forall r, p :: r in rooms && p in r.participants ==> p in repr)
      && (forall i, j :: 0 <= i < j < |rooms| ==> rooms[i] != rooms[j])
      && (forall i :: 0 <= i < |rooms| ==> rooms[i] in repr && RoomOk(rooms[i], table[i]))
      && forall q, r, p :: q in rooms && r in rooms && q != r && p in q.participants ==> p !in r.participants
    }

    ghost predicate RoomOk(r: Room, s: RoomState)
      requires r in repr
      reads this, repr
    {
      (forall p :: p in r.participants ==> p in repr) && r.Valid() && r.state == s
    }

    constructor ()
      ensures Valid() && table == [] && repr == {}
    {
      rooms, table, repr := [], [], {};
    }

    method FindRoom(node: string) returns (room: Room?, ghost i: nat)
      requires Valid()
      ensures i == RoomsModel.FindRoom(table, node)
      ensures if i < |rooms| then room == rooms[i] else room == null
    {
      var cursor := 0;
      while cursor < |rooms|
        invariant cursor <= |rooms|
        invariant forall k :: 0 <= k < cursor ==> table[k].node != node
      {
        assert RoomOk(rooms[cursor], table[cursor]);
        if rooms[cursor].node == node {
          return rooms[cursor], cursor;
        }
        cursor := cursor + 1;
      }
      return null, cursor;
    }

    method CreateRoom(node: string) returns (room: Room)
      requires Valid()
      modifies this
      ensures Valid() && fresh(room) && repr == old(repr) + {room}
      ensures rooms == old(rooms) + [room] && table == old(table) + [RoomInit(node)]
    {
      room := new Room(node);
      rooms := rooms + [room];
      table := table + [RoomInit(node)];
      repr := repr + {room};
      forall i | 0 <= i < |rooms|
        ensures rooms[i] in repr && RoomOk(rooms[i], table[i])
      {
        if i < |rooms| - 1 {
          assert old(RoomOk(rooms[i], table[i]));
        }
      }
    }

    /** Routing to one room leaves the other rooms and their occupants alone. */
    method RouteAside(room: Room, ghost i: nat, st: Stanza, acl: Acl, wire: Wire)
      requires Valid() && i < |rooms| && rooms[i] == room && wire !in repr
      modifies room, room.participants, wire
      ensures forall k :: 0 <= k < |rooms| && k != i ==>
                RoomOk(rooms[k], table[k]) && rooms[k].participants == old(rooms[k].participants)
      ensures room.Valid() && room.state == Route(old(table)[i], acl, st).state
      ensures forall p :: p in room.participants ==> p in old(room.participants) || fresh(p)
      ensures wire.sent == old(wire.sent) + Route(old(table)[i], acl, st).sent
    {
      assert RoomOk(room, table[i]);
      room.Route(st, acl, wire);
      forall k | 0 <= k < |rooms| && k != i
        ensures RoomOk(rooms[k], table[k]) && rooms[k].participants == old(rooms[k].participants)
      {
        var r := rooms[k];
        assert old(RoomOk(r, table[k]));
        assert r in rooms && room in rooms && r != room;
        assert r.participants == old(r.participants);
        forall j | 0 <= j < |r.participants|
          ensures r.participants[j].View() == old(r.participants[j].View())
        {
          assert r.participants[j] !in old(room.participants);
        }
      }
    }

    method RouteTo(room: Room, ghost i: nat, st: Stanza, acl: Acl, wire: Wire)
      requires Valid() && i < |rooms| && rooms[i] == room && wire !in repr
      modifies this`table, this`repr, repr, wire
      ensures Valid() && fresh(repr - old(repr)) && rooms == old(rooms)
      ensures table == old(table)[i := Route(old(table)[i], acl, st).state]
      ensures wire.sent == old(wire.sent) + Route(old(table)[i], acl, st).sent
    {
      RouteAside(room, i, st, acl, wire);
      forall q, p | q in rooms && q != room && p in q.participants
        ensures p !in room.participants
      {
      }
      TakeUp(room, i);
    }

    /** All is well but what the table says of one room. */
    ghost predicate ValidBut(room: Room, i: nat)
      reads this, repr, rooms, room, room.participants, set r, p | r in rooms && p in r.participants :: p
    {
      && this !in repr && i < |rooms| == |table| && rooms[i] == room && room in rooms && room in repr && room.Valid()
      && (forall j, k :: 0 <= j < k < |rooms| ==> rooms[j] != rooms[k])
      && (forall k :: 0 <= k < |rooms| && k != i ==> rooms[k] in repr && RoomOk(rooms[k], table[k]))
      && (forall q, r, p :: q in rooms && r in rooms && q != r && p in q.participants ==> p !in r.participants)
    }

    ghost method TakeUp(room: Room, i: nat)
      requires ValidBut(room, i)
      modifies this`table, this`repr
      ensures Valid() && table == old(table)[i := room.state] && repr == old(repr) + OccupantsOf(room)
    {
      table := table[i := room.state];
      repr := repr + OccupantsOf(room);
      forall k | 0 <= k < |rooms|
        ensures rooms[k] in repr && RoomOk(rooms[k], table[k])
      {
        if k != i {
          assert old(RoomOk(rooms[k], table[k]));
        }
      }
    }

    static ghost function OccupantsOf(room: Room): set<object>
      reads room
    {
      set p | p in room.participants
    }

    method DestroyRoom(room: Room, ghost i: nat)
      requires Valid() && i < |rooms| && rooms[i] == room
      modifies this`rooms, this`table
      ensures Valid() && table == Without(old(table), i)
    {
      var position := RoomPosition(rooms, room);
      assert position == i;
      rooms := Without(rooms, position);
      table := Without(table, i);
      forall k | 0 <= k < |rooms|
        ensures rooms[k] in old(rooms)
      {
        assert rooms[k] == old(rooms)[if k < i then k else k + 1];
      }
      forall k | 0 <= k < |rooms|
        ensures rooms[k] in repr && RoomOk(rooms[k], table[k])
      {
        ghost var k' := if k < i then k else k + 1;
        assert rooms[k] == old(rooms)[k'] && old(RoomOk(rooms[k'], table[k']));
      }
    }

    /** rooms_process: the table and the packets are what the model says. */
    method Process(e: Event, acl: Acl, wire: Wire)
      requires Valid() && wire !in repr
      modifies this, repr, wire
      ensures Valid() && fresh(repr - old(repr))
      ensures table == RoomsModel.Process(old(table), acl, e).table
      ensures wire.sent == old(wire.sent) + RoomsModel.Process(old(table), acl, e).sent
    {
      var room, i := FindRoom(e.node);
      if room == null {
        ProcessUnknown(e, acl, wire);
      } else {
        RouteAndSweep(room, i, e.stanza, acl, wire);
      }
    }

    /** A stanza to a node without a room. */
    method ProcessUnknown(e: Event, acl: Acl, wire: Wire)
      requires Valid() && wire !in repr && RoomsModel.FindRoom(table, e.node) == |table|
      modifies this, repr, wire
      ensures Valid() && fresh(repr - old(repr))
      ensures Creates(acl, e.stanza) ==>
                var r := RouteAt(old(table) + [RoomInit(e.node)], |old(table)|, acl, e.stanza);
                table == r.table && wire.sent == old(wire.sent) + r.sent
      ensures !Creates(acl, e.stanza) ==>
                table == old(table) && wire.sent == old(wire.sent) + Unanswered(e.stanza)
    {
      var created := MayCreate(e.stanza, acl, wire);
      if !created {
        return;
      }
      assert wire.sent == old(wire.sent);
      OpenAndRoute(e.node, e.stanza, acl, wire);
    }

    method OpenAndRoute(node: string, st: Stanza, acl: Acl, wire: Wire)
      requires Valid() && wire !in repr
      modifies this, repr, wire
      ensures Valid() && fresh(repr - old(repr))
      ensures table == RouteAt(old(table) + [RoomInit(node)], |old(table)|, acl, st).table
      ensures wire.sent == old(wire.sent) + RouteAt(old(table) + [RoomInit(node)], |old(table)|, acl, st).sent
    {
      var room := CreateRoom(node);
      RouteAndSweep(room, |rooms| - 1, st, acl, wire);
    }

    /** Whether the stanza creates its room; if not, it may be answered. */
    static method MayCreate(st: Stanza, acl: Acl, wire: Wire) returns (created: bool)
      modifies wire
      ensures created == Creates(acl, st)
      ensures wire.sent == old(wire.sent) + if created then [] else Unanswered(st)
    {
      if IsError(st) {
        return false;
      }
      if !st.PresenceIn? || st.gone {
        wire.Send(Bounce(st.from, RoomNotFound));
        return false;
      }
      var role := FindAclRole(acl, st.from);
      if role < ACL_MUC_CREATE {
        wire.Send(Bounce(st.from, CreationDenied));
        return false;
      }
      return true;
    }

    /** Route to a room, then drop it if it was marked for removal. */
    method RouteAndSweep(room: Room, ghost i: nat, st: Stanza, acl: Acl, wire: Wire)
      requires Valid() && i < |rooms| && rooms[i] == room && wire !in repr
      modifies this, repr, wire
      ensures Valid() && fresh(repr - old(repr))
      ensures table == RouteAt(old(table), i, acl, st).table
      ensures wire.sent == old(wire.sent) + RouteAt(old(table), i, acl, st).sent
    {
      RouteTo(room, i, st, acl, wire);
      assert RoomOk(room, table[i]);
      if Destroyed in room.flags {
        ghost var former := table;
        DestroyRoom(room, i);
        assert Without(former, i) == Without(old(table), i);
      }
    }
  }

  function RoomPosition(rooms: seq<Room>, room: Room): (i: nat)
    requires room in rooms
    ensures i < |rooms| && rooms[i] == room
  {
    if rooms[0] == room then 0 else 1 + RoomPosition(rooms[1..], room)
  }
}

/** The migration that moves racks from rooms to corridors and back, and the query that hides it. */
module Corridors {
  import opened Wrappers

  datatype Corridor = Corridor(roomId: nat, name: string, position: Option<int>)

  /** A rack row while either foreign key may be present; `rest` is every other column. */
  datatype Rack = Rack(roomId: Option<nat>, corridorId: Option<nat>, rest: string)

  /** `corridors` is None while the table does not exist. */
  datatype Db = Db(rooms: set<nat>, corridors: Option<map<nat, Corridor>>, racks: map<nat, Rack>)

  /** The schema before the migration: every rack has an existing room. */
  ghost predicate OldSchema(db: Db) {
    db.corridors == None
    && forall k :: k in db.racks ==>
         db.racks[k].corridorId == None && db.racks[k].roomId != None && db.racks[k].roomId.value in db.rooms
  }

  /** The schema after it: every rack has an existing corridor, every corridor an existing room. */
  ghost predicate NewSchema(db: Db) {
    && db.corridors != None
    && (forall c :: c in db.corridors.value ==> db.corridors.value[c].roomId in db.rooms)
    && (forall k :: k in db.racks ==>
          db.racks[k].roomId == None
          && db.racks[k].corridorId != None && db.racks[k].corridorId.value in db.corridors.value)
  }

  /** The filter the old schema allowed. */
  function ByRoomId(db: Db, room: nat): set<nat> {
    set k | k in db.racks && db.racks[k].roomId == Some(room)
  }

  /** `get_by_room`: racks whose corridor is in the subquery of the room's corridors. */
  function GetByRoom(db: Db, room: nat): set<nat>
    requires db.corridors != None
  {
    var inRoom := set c | c in db.corridors.value && db.corridors.value[c].roomId == room;
    set k | k in db.racks && db.racks[k].corridorId != None && db.racks[k].corridorId.value in inRoom
  }

  ghost predicate HasCorridor(table: map<nat, Corridor>, room: nat) {
    exists c :: c in table && table[c].roomId == room
  }

  /** One default corridor for each of the rooms, and no others. */
  ghost predicate Defaults(table: map<nat, Corridor>, rooms: set<nat>) {
    && (forall c :: c in table ==>
         table[c] == Corridor(table[c].roomId, "Main Corridor", Some(1)) && table[c].roomId in rooms)
    && (forall r :: r in rooms ==> HasCorridor(table, r))
    && (forall c, d :: c in table && d in table && table[c].roomId == table[d].roomId ==> c == d)
  }

  lemma OneMoreDefault(table: map<nat, Corridor>, rooms: set<nat>, id: nat, room: nat)
    requires Defaults(table, rooms) && id !in table && room !in rooms
    ensures Defaults(table[id := Corridor(room, "Main Corridor", Some(1))], rooms + {room})
  {
    var table' := table[id := Corridor(room, "Main Corridor", Some(1))];
    forall r | r in rooms + {room} ensures HasCorridor(table', r) {
      if r == room {
        assert table'[id].roomId == room;
      } else {
        var c :| c in table && table[c].roomId == r;
        assert table'[c].roomId == r;
      }
    }
  }

  /** Every rack has a corridor in the room it had before, and nothing else changed. */
  ghost predicate Upgraded(before: Db, after: Db) {
    && NewSchema(after) && after.rooms == before.rooms && after.racks.Keys == before.racks.Keys
    && Defaults(after.corridors.value, after.rooms)
    && (forall k :: k in after.racks ==>
          after.racks[k].rest == before.racks[k].rest
          && Some(after.corridors.value[after.racks[k].corridorId.value].roomId) == before.racks[k].roomId)
  }

  ghost predicate Downgraded(before: Db, after: Db)
    requires NewSchema(before)
  {
    && OldSchema(after) && after.rooms == before.rooms && after.racks.Keys == before.racks.Keys
    && (forall k :: k in after.racks ==>
          after.racks[k].rest == before.racks[k].rest
          && after.racks[k].roomId == Some(before.corridors.value[before.racks[k].corridorId.value].roomId))
  }

  /** The join returns, room by room, the racks the dropped column would have returned. */
  lemma JoinReplacesColumn(before: Db, after: Db, room: nat)
    requires OldSchema(before) && Upgraded(before, after)
    ensures GetByRoom(after, room) == ByRoomId(before, room)
  {
    forall k | k in after.racks ensures k in GetByRoom(after, room) <==> k in ByRoomId(before, room) {}
  }

  /** Downgrading keeps what the query returned, whatever was done to the corridors in between. */
  lemma ColumnReplacesJoin(before: Db, after: Db, room: nat)
    requires NewSchema(before) && Downgraded(before, after)
    ensures ByRoomId(after, room) == GetByRoom(before, room)
  {
    forall k | k in after.racks ensures k in ByRoomId(after, room) <==> k in GetByRoom(before, room) {}
  }

  /** Upgrade then downgrade is the identity. */
  lemma RoundTrip(before: Db, mid: Db, after: Db)
    requires OldSchema(before) && Upgraded(before, mid) && Downgraded(mid, after)
    ensures after == before
  {
    forall k | k in before.racks ensures k in after.racks && after.racks[k] == before.racks[k] {}
  }

  class Migration {
    var rooms: set<nat>
    var corridors: Option<map<nat, Corridor>>
    var racks: map<nat, Rack>
    // the next value of gen_random_uuid()
    var nextId: nat

    ghost function State(): Db
      reads this
    {
      Db(rooms, corridors, racks)
    }

    constructor (db: Db)
      ensures State() == db
    {
      rooms, corridors, racks := db.rooms, db.corridors, db.racks;
      nextId := 0;
    }

    /** One default corridor per room. */
    method InsertDefaultCorridors() returns (table: map<nat, Corridor>)
      modifies this`nextId
      ensures Defaults(table, rooms)
    {
      table := map[];
      var todo := rooms;
      ghost var done := {};
      while todo != {}
        invariant done !! todo && done + todo == rooms
        invariant Defaults(table, done) && forall c :: c in table ==> c < nextId
        decreases todo
      {
        var r :| r in todo;
        OneMoreDefault(table, done, nextId, r);
        table := table[nextId := Corridor(r, "Main Corridor", Some(1))];
        nextId := nextId + 1;
        todo, done := todo - {r}, done + {r};
      }
      assert done == rooms;
    }

    /** The joined UPDATE: every rack gets a corridor of its room, if there is one. */
    method PopulateCorridorIds(table: map<nat, Corridor>) returns (updated: map<nat, Rack>)
      ensures updated.Keys == racks.Keys && forall k :: k in racks ==> Moved(racks[k], updated[k], table)
    {
      updated := racks;
      var todo := racks.Keys;
      while todo != {}
        invariant todo <= racks.Keys && updated.Keys == racks.Keys
        invariant forall k :: k in todo ==> updated[k] == racks[k]
        invariant forall k :: k in racks && k !in todo ==> Moved(racks[k], updated[k], table)
        decreases todo
      {
        var k :| k in todo;
        todo := todo - {k};
        var found := set c | c in table && Some(table[c].roomId) == racks[k].roomId;
        if found != {} {
          var c :| c in found;
          updated := updated[k := racks[k].(corridorId := Some(c))];
        } else {
          assert forall c :: c in table ==> c !in found;
        }
      }
    }

    /** `upgrade`; fails, like its NOT NULL step, when a rack found no corridor. */
    method Upgrade() returns (ok: bool)
      requires corridors == None
      modifies this
      ensures OldSchema(old(State())) ==> ok && Upgraded(old(State()), State())
    {
      var table := InsertDefaultCorridors();
      var updated := PopulateCorridorIds(table);
      ghost var before := State();
      if OldSchema(before) {
        RacksMove(before, table, updated);
      }
      ok := forall k | k in updated :: updated[k].corridorId != None;
      if ok {
        corridors := Some(table);
        racks := map k | k in updated :: updated[k].(roomId := None);
      }
    }

    /** `downgrade`. */
    method Downgrade()
      requires NewSchema(State())
      modifies this
      ensures Downgraded(old(State()), State())
    {
      var table := corridors.value;
      racks := map k | k in racks :: Rack(Some(table[racks[k].corridorId.value].roomId), None, racks[k].rest);
      corridors := None;
    }
  }

  /** The UPDATE of one rack: a corridor of its room, or nothing when there is none. */
  ghost predicate Moved(before: Rack, after: Rack, table: map<nat, Corridor>) {
    && after.roomId == before.roomId && after.rest == before.rest
    && (before.roomId != None && HasCorridor(table, before.roomId.value) ==>
          && after.corridorId != None && after.corridorId.value in table
          && Some(table[after.corridorId.value].roomId) == before.roomId)
  }

  lemma RacksMove(before: Db, table: map<nat, Corridor>, updated: map<nat, Rack>)
    requires OldSchema(before) && Defaults(table, before.rooms) && updated.Keys == before.racks.Keys
    requires forall k :: k in before.racks ==> Moved(before.racks[k], updated[k], table)
    ensures forall k :: k in updated ==>
      && updated[k].rest == before.racks[k].rest
      && updated[k].corridorId != None && updated[k].corridorId.value in table
      && Some(table[updated[k].corridorId.value].roomId) == before.racks[k].roomId
  {
    forall k | k in updated ensures HasCorridor(table, before.racks[k].roomId.value) {}
  }
}

/** The topology export: a first pass estimates the canvas height, a second pass draws.  The two passes
    use different constants; the drawing position nevertheless stays within the estimate, and the
    drawing stays on the canvas exactly when every device tile ends above the bottom. */
module Layout {

  const W := 1240
  const MARGIN := 48
  const CONTENT_W := W - MARGIN * 2
  const U_H := 22
  const TILE_W := 110
  const TILE_H := 72
  const TILE_GAP := 8
  const ROW_H := 20

  datatype Rack = Rack(id: string)

  datatype Corridor = Corridor(racks: seq<Rack>)

  datatype Room = Room(corridors: seq<Corridor>)

  /** A device in a rack; a missing start or height counts as 1. */
  datatype Slot = Slot(start: int, height: int)

  datatype Elevation = Elevation(totalUnits: int, devices: seq<Slot>)

  type Elevations = map<string, Elevation>

  function Max(a: int, b: int): int {
    if a >= b then a else b
  }

  // ---------- collectRacks ----------

  function CorridorRacks(corridors: seq<Corridor>): seq<Rack> {
    if corridors == [] then [] else CorridorRacks(corridors[..|corridors| - 1]) + corridors[|corridors| - 1].racks
  }

  function CollectRacks(rooms: seq<Room>): seq<Rack> {
    if rooms == [] then [] else CollectRacks(rooms[..|rooms| - 1]) + CorridorRacks(rooms[|rooms| - 1].corridors)
  }

  /** Racks are collected once each and in order: a list of rooms piece by piece, a room corridor by corridor, and
      a corridor as it is. */
  lemma {:induction false} CollectsInOrder(a: seq<Room>, b: seq<Room>)
    ensures CollectRacks(a + b) == CollectRacks(a) + CollectRacks(b)
    decreases |b|
  {
    hide CorridorRacks;
    if b == [] {
      assert a + b == a;
    } else {
      assert (a + b)[..|a + b| - 1] == a + b[..|b| - 1];
      CollectsInOrder(a, b[..|b| - 1]);
    }
  }

  lemma CorridorsInOrder(a: seq<Corridor>, b: seq<Corridor>)
    ensures CollectRacks([Room(a + b)]) == CollectRacks([Room(a)]) + CollectRacks([Room(b)])
  {
    hide CollectRacks;
    OneRoomCollects(a);
    OneRoomCollects(b);
    OneRoomCollects(a + b);
    CorridorRacksInOrder(a, b);
  }

  lemma {:induction false} CorridorRacksInOrder(a: seq<Corridor>, b: seq<Corridor>)
    ensures CorridorRacks(a + b) == CorridorRacks(a) + CorridorRacks(b)
    decreases |b|
  {
    if b == [] {
      assert a + b == a;
    } else {
      assert (a + b)[..|a + b| - 1] == a + b[..|b| - 1];
      CorridorRacksInOrder(a, b[..|b| - 1]);
    }
  }

  lemma OneCorridorCollects(racks: seq<Rack>)
    ensures CollectRacks([Room([Corridor(racks)])]) == racks
  {
    OneRoomCollects([Corridor(racks)]);
    assert [Corridor(racks)][..0] == [];
  }

  lemma OneRoomCollects(corridors: seq<Corridor>)
    ensures CollectRacks([Room(corridors)]) == CorridorRacks(corridors)
  {
    assert [Room(corridors)][..0] == [];
  }

  /** Every rack of every corridor is collected, and nothing else. */
  lemma {:induction false} CollectsExactly(rooms: seq<Room>, r: Rack)
    ensures r in CollectRacks(rooms) <==>
      exists room, corridor :: room in rooms && corridor in room.corridors && r in corridor.racks
  {
    if rooms != [] {
      var init, last := rooms[..|rooms| - 1], rooms[|rooms| - 1];
      CollectsExactly(init, r);
      CorridorsExactly(last.corridors, r);
      assert forall room :: room in rooms <==> room in init || room == last;
    }
  }

  lemma {:induction false} CorridorsExactly(corridors: seq<Corridor>, r: Rack)
    ensures r in CorridorRacks(corridors) <==> exists corridor :: corridor in corridors && r in corridor.racks
  {
    if corridors != [] {
      var init, last := corridors[..|corridors| - 1], corridors[|corridors| - 1];
      CorridorsExactly(init, r);
      assert forall c :: c in corridors <==> c in init || c == last;
    }
  }

  // ---------- counting ----------

  /** Corridors that hold a rack. */
  function Occupied(corridors: seq<Corridor>): nat {
    if corridors == [] then 0
    else Occupied(corridors[..|corridors| - 1]) + if corridors[|corridors| - 1].racks == [] then 0 else 1
  }

  function OccupiedCorridors(rooms: seq<Room>): nat {
    if rooms == [] then 0 else OccupiedCorridors(rooms[..|rooms| - 1]) + Occupied(rooms[|rooms| - 1].corridors)
  }

  function OccupiedRooms(rooms: seq<Room>): nat {
    if rooms == [] then 0
    else OccupiedRooms(rooms[..|rooms| - 1]) + if Occupied(rooms[|rooms| - 1].corridors) == 0 then 0 else 1
  }

  /** Racks that have an elevation, hence a section of their own. */
  function Sections(racks: seq<Rack>, elevations: Elevations): nat {
    if racks == [] then 0
    else Sections(racks[..|racks| - 1], elevations) + if racks[|racks| - 1].id in elevations then 1 else 0
  }

  /** Tile rows of a corridor, nine tiles to a row. */
  function Rows(n: nat): nat {
    (n + 8) / 9
  }

  /** The part both passes agree on: 14 for each label, 80 for each row of tiles. */
  function CorridorBody(corridors: seq<Corridor>): nat {
    if corridors == [] then 0
    else
      var n := |corridors[|corridors| - 1].racks|;
      CorridorBody(corridors[..|corridors| - 1]) + if n == 0 then 0 else 14 + 80 * Rows(n)
  }

  function RoomBody(rooms: seq<Room>): nat {
    if rooms == [] then 0 else RoomBody(rooms[..|rooms| - 1]) + CorridorBody(rooms[|rooms| - 1].corridors)
  }

  /** The height of one rack section: its diagram or its table, whichever is taller. */
  function SectionBody(e: Elevation): int {
    Max(e.totalUnits * U_H, (|e.devices| + 1) * ROW_H)
  }

  function SectionBodies(racks: seq<Rack>, elevations: Elevations): nat {
    if racks == [] then 0
    else
      var r := racks[|racks| - 1];
      SectionBodies(racks[..|racks| - 1], elevations) + if r.id in elevations then SectionBody(elevations[r.id]) else 0
  }

  lemma CorridorStep(corridors: seq<Corridor>, i: nat)
    requires i < |corridors|
    ensures CorridorBody(corridors[..i + 1]) ==
      CorridorBody(corridors[..i]) + if corridors[i].racks == [] then 0 else 14 + 80 * Rows(|corridors[i].racks|)
    ensures Occupied(corridors[..i + 1]) == Occupied(corridors[..i]) + if corridors[i].racks == [] then 0 else 1
    ensures CorridorRacks(corridors[..i + 1]) == CorridorRacks(corridors[..i]) + corridors[i].racks
  {
    assert corridors[..i + 1][..i] == corridors[..i];
  }

  lemma RoomStep(rooms: seq<Room>, i: nat)
    requires i < |rooms|
    ensures RoomBody(rooms[..i + 1]) == RoomBody(rooms[..i]) + CorridorBody(rooms[i].corridors)
    ensures OccupiedCorridors(rooms[..i + 1]) == OccupiedCorridors(rooms[..i]) + Occupied(rooms[i].corridors)
    ensures OccupiedRooms(rooms[..i + 1]) == OccupiedRooms(rooms[..i]) +
      if Occupied(rooms[i].corridors) == 0 then 0 else 1
  {
    assert rooms[..i + 1][..i] == rooms[..i];
  }

  lemma SectionStep(racks: seq<Rack>, elevations: Elevations, i: nat)
    requires i < |racks|
    ensures Sections(racks[..i + 1], elevations) == Sections(racks[..i], elevations) +
      if racks[i].id in elevations then 1 else 0
    ensures SectionBodies(racks[..i + 1], elevations) ==
      SectionBodies(racks[..i], elevations) +
        if racks[i].id in elevations then SectionBody(elevations[racks[i].id]) else 0
  {
    assert racks[..i + 1][..i] == racks[..i];
  }

  /** A room is skipped by both passes exactly when none of its corridors holds a rack. */
  lemma {:induction false} OccupiedIffRacks(corridors: seq<Corridor>)
    ensures Occupied(corridors) == 0 <==> CorridorRacks(corridors) == []
    ensures Occupied(corridors) == 0 <==> forall c :: c in corridors ==> c.racks == []
    ensures Occupied(corridors) == 0 ==> CorridorBody(corridors) == 0
    ensures Occupied(corridors) <= |CorridorRacks(corridors)|
  {
    if corridors != [] {
      var rest, last := corridors[..|corridors| - 1], corridors[|corridors| - 1];
      OccupiedIffRacks(rest);
      assert forall c :: c in corridors <==> c in rest || c == last;
    }
  }

  // ---------- first pass ----------

  /** The estimated height as a sum over rooms, corridors and rack sections. */
  function Estimate(rooms: seq<Room>, racks: seq<Rack>, elevations: Elevations): int {
    328 + 30 * OccupiedRooms(rooms) + RoomBody(rooms) + SectionBodies(racks, elevations) + 50 * Sections(racks,
      elevations)
  }

  method EstimateHeight(rooms: seq<Room>, racks: seq<Rack>, elevations: Elevations) returns (h: int)
    ensures h == Estimate(rooms, racks, elevations)
  {
    h := 260;
    for i := 0 to |rooms|
      invariant h == 260 + 30 * OccupiedRooms(rooms[..i]) + RoomBody(rooms[..i])
    {
      RoomStep(rooms, i);
      var corridors := rooms[i].corridors;
      OccupiedIffRacks(corridors);
      if forall c | c in corridors :: c.racks == [] {
        continue;
      }
      var tiles := EstimateCorridors(corridors);
      h := h + 22 + tiles + 8;
    }
    assert rooms[..|rooms|] == rooms;
    h := h + 20;
    var sections := EstimateSections(racks, elevations);
    h := h + sections + MARGIN;
  }

  method EstimateCorridors(corridors: seq<Corridor>) returns (h: int)
    ensures h == CorridorBody(corridors)
  {
    h := 0;
    for j := 0 to |corridors|
      invariant h == CorridorBody(corridors[..j])
    {
      CorridorStep(corridors, j);
      var n := |corridors[j].racks|;
      if n == 0 {
        continue;
      }
      h := h + 14;
      var perRow := (CONTENT_W + 8) / 118;
      var rows := (n + perRow - 1) / perRow;
      h := h + rows * 80;
    }
    assert corridors[..|corridors|] == corridors;
  }

  method EstimateSections(racks: seq<Rack>, elevations: Elevations) returns (h: int)
    ensures h == SectionBodies(racks, elevations) + 50 * Sections(racks, elevations)
  {
    h := 0;
    for i := 0 to |racks|
      invariant h == SectionBodies(racks[..i], elevations) + 50 * Sections(racks[..i], elevations)
    {
      SectionStep(racks, elevations, i);
      if racks[i].id in elevations {
        var e := elevations[racks[i].id];
        h := h + Max(e.totalUnits * U_H, (|e.devices| + 1) * 20) + 50;
      }
    }
    assert racks[..|racks|] == racks;
  }

  // ---------- second pass ----------

  /** `ink` is the largest y coordinate anything was drawn at; text counts with its baseline. */
  class Canvas {
    var ink: int

    constructor ()
      ensures ink == 0
    {
      ink := 0;
    }

    method Draw(bottom: int)
      modifies this
      ensures ink == Max(old(ink), bottom)
    {
      ink := Max(ink, bottom);
    }
  }

  method DrawCover(canvas: Canvas, y0: int) returns (y: int)
    modifies canvas
    ensures y == y0 + 180
    ensures old(canvas.ink) <= canvas.ink <= Max(old(canvas.ink), y)
  {
    y := y0;
    canvas.Draw(y + 32);      // title
    y := y + 44;
    canvas.Draw(y);           // subtitle
    y := y + 24;
    canvas.Draw(y + 56);      // stats boxes
    y := y + 56 + 20;
    canvas.Draw(y + 3);       // legend
    y := y + 20;
    canvas.Draw(y);           // divider
    y := y + 16;
  }

  /** The tile loop: `tx` runs to the right, and after every ninth tile but the last the row wraps. */
  method DrawTiles(canvas: Canvas, n: nat, y0: int) returns (y: int)
    requires n > 0
    modifies canvas
    ensures y == y0 + 80 * (Rows(n) - 1) + 84
    ensures old(canvas.ink) <= canvas.ink <= Max(old(canvas.ink), y)
  {
    y := y0;
    var tx, rowMaxH := MARGIN, 0;
    for i := 0 to n
      invariant i < n ==> tx == MARGIN + 118 * (i % 9) && y == y0 + 80 * (i / 9)
      invariant i == n ==> y == y0 + 80 * ((n - 1) / 9) && rowMaxH == TILE_H
      invariant old(canvas.ink) <= canvas.ink <= Max(old(canvas.ink), y0 + TILE_H)
    {
      canvas.Draw(y0 + TILE_H);
      tx := tx + TILE_W + TILE_GAP;
      rowMaxH := TILE_H;
      if tx + TILE_W > W - MARGIN && i < n - 1 {
        tx := MARGIN;
        y := y + rowMaxH + TILE_GAP;
        rowMaxH := 0;
      }
    }
    y := y + rowMaxH + 12;
  }

  method DrawFloorPlan(canvas: Canvas, rooms: seq<Room>, y0: int) returns (y: int)
    modifies canvas
    ensures y == y0 + 26 * OccupiedRooms(rooms) + RoomBody(rooms) + 4 * OccupiedCorridors(rooms)
    ensures old(canvas.ink) <= canvas.ink <= Max(old(canvas.ink), y)
  {
    y := y0;
    for i := 0 to |rooms|
      invariant y == y0 + 26 * OccupiedRooms(rooms[..i]) + RoomBody(rooms[..i]) + 4 * OccupiedCorridors(rooms[..i])
      invariant old(canvas.ink) <= canvas.ink <= Max(old(canvas.ink), y)
    {
      RoomStep(rooms, i);
      var corridors := rooms[i].corridors;
      OccupiedIffRacks(corridors);
      if CorridorRacks(corridors) == [] {
        continue;
      }
      canvas.Draw(y + 4);     // room header and its rule
      y := y + 18;
      ghost var y1 := y;
      for j := 0 to |corridors|
        invariant y == y1 + CorridorBody(corridors[..j]) + 4 * Occupied(corridors[..j])
        invariant old(canvas.ink) <= canvas.ink <= Max(old(canvas.ink), y)
      {
        CorridorStep(corridors, j);
        if corridors[j].racks == [] {
          continue;
        }
        canvas.Draw(y);       // corridor label
        y := y + 14;
        y := DrawTiles(canvas, |corridors[j].racks|, y);
      }
      assert corridors[..|corridors|] == corridors;
      y := y + 8;
    }
    assert rooms[..|rooms|] == rooms;
  }

  /** How far below the top of its rack's diagram a device is drawn: the tile, its badge, and the model
      line of a device of two units or more. */
  function TileBottom(d: Slot): int {
    var top, h := (d.start - 1) * U_H, d.height * U_H;
    Max(Max(top + h - 1, top + 15), if h >= 2 * U_H then top + 22 else top + 13)
  }

  /** For devices of one unit and more that is the lower edge of the tile. */
  lemma TileBottomIsEdge(d: Slot)
    requires d.height >= 1
    ensures TileBottom(d) == U_H * (d.start - 1 + d.height) - 1
  {
  }

  /** The lowest device tile of a section whose header is at `y`, or `y` when there is none below. */
  function LowestTile(e: Elevation, y: int, n: nat): int
    requires n <= |e.devices|
  {
    if n == 0 then y else Max(LowestTile(e, y, n - 1), y + 16 + TileBottom(e.devices[n - 1]))
  }

  lemma {:induction false} LowestTileWithin(e: Elevation, y: int, n: nat, limit: int)
    requires n <= |e.devices|
    ensures LowestTile(e, y, n) <= limit <==>
      y <= limit && forall i :: 0 <= i < n ==> y + 16 + TileBottom(e.devices[i]) <= limit
  {
    if n > 0 {
      LowestTileWithin(e, y, n - 1, limit);
    }
  }

  /** A section draws its diagram and its table above its end, and its device tiles wherever their
      positions say. */
  method DrawRackSection(canvas: Canvas, e: Elevation, y0: int) returns (y: int)
    modifies canvas
    ensures y == y0 + SectionBody(e) + 44
    ensures Max(old(canvas.ink), LowestTile(e, y0, |e.devices|)) <= canvas.ink
      <= Max(Max(old(canvas.ink), LowestTile(e, y0, |e.devices|)), y)
  {
    y := y0;
    canvas.Draw(y);           // header
    y := y + 6;
    canvas.Draw(y);           // rule
    y := y + 10;
    var sectionTop := y;
    var elevH := e.totalUnits * U_H;
    canvas.Draw(sectionTop + elevH);
    ghost var end := y0 + 16 + SectionBody(e);
    for i := 0 to |e.devices|
      invariant Max(old(canvas.ink), LowestTile(e, y0, i)) <= canvas.ink
        <= Max(Max(old(canvas.ink), LowestTile(e, y0, i)), end)
    {
      var d := e.devices[i];
      canvas.Draw(sectionTop + TileBottom(d));
    }
    canvas.Draw(sectionTop + ROW_H);
    for i := 0 to |e.devices|
      invariant Max(old(canvas.ink), LowestTile(e, y0, |e.devices|)) <= canvas.ink
        <= Max(Max(old(canvas.ink), LowestTile(e, y0, |e.devices|)), end)
    {
      canvas.Draw(sectionTop + ROW_H * (i + 1) + ROW_H);
    }
    if e.devices == [] {
      canvas.Draw(sectionTop + ROW_H + 13);
    }
    var tableBottom := sectionTop + ROW_H * (|e.devices| + 1);
    y := Max(sectionTop + elevH, tableBottom) + 28;
    canvas.Draw(y - 14);      // section divider
  }

  /** Where the first rack section starts, and where the n-th does. */
  function SectionsStart(rooms: seq<Room>): int {
    252 + 26 * OccupiedRooms(rooms) + RoomBody(rooms) + 4 * OccupiedCorridors(rooms)
  }

  function SectionStart(rooms: seq<Room>, racks: seq<Rack>, elevations: Elevations, n: nat): int
    requires n <= |racks|
  {
    SectionsStart(rooms) + SectionBodies(racks[..n], elevations) + 44 * Sections(racks[..n], elevations)
  }

  /** Every device tile of every section ends on the canvas. */
  ghost predicate TilesWithin(rooms: seq<Room>, racks: seq<Rack>, elevations: Elevations, n: nat, limit: int)
    requires n <= |racks|
  {
    forall k, i :: 0 <= k < n && racks[k].id in elevations && 0 <= i < |elevations[racks[k].id].devices| ==>
      SectionStart(rooms, racks, elevations, k) + 16 + TileBottom(elevations[racks[k].id].devices[i]) <= limit
  }

  lemma TilesOneMore(rooms: seq<Room>, racks: seq<Rack>, elevations: Elevations, n: nat, limit: int)
    requires n < |racks|
    ensures TilesWithin(rooms, racks, elevations, n + 1, limit) <==>
      && TilesWithin(rooms, racks, elevations, n, limit)
      && (racks[n].id in elevations ==>
            var e := elevations[racks[n].id];
            forall i :: 0 <= i < |e.devices| ==>
              SectionStart(rooms, racks, elevations, n) + 16 + TileBottom(e.devices[i]) <= limit)
  {
    hide SectionStart, TileBottom;
  }

  /** Both passes.  The estimate exceeds the final drawing position by exactly 76 + 4 per occupied room +
      6 per rack section - 4 per occupied corridor, for every floor plan and every set of elevations; and
      while that position is on the canvas, everything is, exactly when every device tile is. */
  method Render(rooms: seq<Room>, racks: seq<Rack>, elevations: Elevations) returns (canvas: Canvas, height: int,
                y: int)
    ensures fresh(canvas)
    ensures height == Estimate(rooms, racks, elevations) && height - y == Slack(rooms, racks, elevations)
    ensures racks == CollectRacks(rooms) && (forall r :: r in racks ==> r.id in elevations) ==> y + 76 <= height
    ensures y <= height ==> (canvas.ink <= height <==> TilesWithin(rooms, racks, elevations, |racks|, height))
  {
    hide TilesWithin, SectionBody, LowestTile, TileBottom, CollectRacks, RoomBody, OccupiedRooms, OccupiedCorridors;
    height := EstimateHeight(rooms, racks, elevations);
    canvas := new Canvas();
    y := MARGIN;
    y := DrawCover(canvas, y);
    y := DrawFloorPlan(canvas, rooms, y);
    canvas.Draw(y);
    y := y + 24;
    ghost var limit := height;
    NoTiles(rooms, racks, elevations, limit);
    for i := 0 to |racks|
      invariant y == SectionStart(rooms, racks, elevations, i)
      invariant y <= limit ==> (canvas.ink <= limit <==> TilesWithin(rooms, racks, elevations, i, limit))
    {
      SectionStep(racks, elevations, i);
      TilesOneMore(rooms, racks, elevations, i, limit);
      if racks[i].id in elevations {
        var e := elevations[racks[i].id];
        BodyIsHigh(e);
        LowestTileWithin(e, y, |e.devices|, limit);
        y := DrawRackSection(canvas, e, y);
      }
    }
    assert racks[..|racks|] == racks;
    if racks == CollectRacks(rooms) && forall r :: r in racks ==> r.id in elevations {
      PositionFits(rooms, elevations);
    }
  }

  lemma NoTiles(rooms: seq<Room>, racks: seq<Rack>, elevations: Elevations, limit: int)
    ensures TilesWithin(rooms, racks, elevations, 0, limit)
    ensures SectionStart(rooms, racks, elevations, 0) == SectionsStart(rooms)
  {
  }

  lemma BodyIsHigh(e: Elevation)
    ensures SectionBody(e) >= ROW_H
  {
  }

  function Slack(rooms: seq<Room>, racks: seq<Rack>, elevations: Elevations): int {
    76 + 4 * OccupiedRooms(rooms) + 6 * Sections(racks, elevations) - 4 * OccupiedCorridors(rooms)
  }

  // ---------- the bound ----------

  /** Every occupied corridor contributes a rack. */
  lemma {:induction false} CorridorsHaveRacks(rooms: seq<Room>)
    ensures OccupiedCorridors(rooms) <= |CollectRacks(rooms)|
  {
    if rooms != [] {
      CorridorsHaveRacks(rooms[..|rooms| - 1]);
      OccupiedIffRacks(rooms[|rooms| - 1].corridors);
    }
  }

  lemma {:induction false} AllHaveSections(racks: seq<Rack>, elevations: Elevations)
    requires forall r :: r in racks ==> r.id in elevations
    ensures Sections(racks, elevations) == |racks|
  {
    if racks != [] {
      assert racks[|racks| - 1] in racks;
      AllHaveSections(racks[..|racks| - 1], elevations);
    }
  }

  /** When every rack has an elevation, as the export arranges, the final drawing position is at least 76
      pixels above the bottom of the canvas. */
  lemma PositionFits(rooms: seq<Room>, elevations: Elevations)
    requires forall r :: r in CollectRacks(rooms) ==> r.id in elevations
    ensures Slack(rooms, CollectRacks(rooms), elevations) >= 76 + 4 * OccupiedRooms(rooms) + 2 * |CollectRacks(rooms)|
  {
    CorridorsHaveRacks(rooms);
    AllHaveSections(CollectRacks(rooms), elevations);
  }

  /** The branch for racks without an elevation, which the export never takes: the position can pass the
      estimate only when more than 20 racks lack theirs. */
  lemma OverflowNeedsMissing(rooms: seq<Room>, elevations: Elevations)
    requires Slack(rooms, CollectRacks(rooms), elevations) < 0
    ensures |CollectRacks(rooms)| - Sections(CollectRacks(rooms), elevations) > 19 + OccupiedRooms(rooms) >= 20
  {
    CorridorsHaveRacks(rooms);
    OccupiedRoom(rooms);
  }

  lemma {:induction false} OccupiedRoom(rooms: seq<Room>)
    ensures OccupiedCorridors(rooms) > 0 ==> OccupiedRooms(rooms) > 0
  {
    if rooms != [] {
      OccupiedRoom(rooms[..|rooms| - 1]);
    }
  }

  /** Every device sits inside its rack. */
  predicate Fits(e: Elevation) {
    forall d | d in e.devices :: d.height >= 1 && d.start - 1 + d.height <= e.totalUnits
  }

  lemma {:induction false} SectionsGrow(racks: seq<Rack>, elevations: Elevations, n: nat)
    requires n < |racks| && racks[n].id in elevations
    ensures SectionBodies(racks[..n], elevations) + SectionBody(elevations[racks[n].id]) <= SectionBodies(racks,
      elevations)
    ensures Sections(racks[..n], elevations) + 1 <= Sections(racks, elevations)
  {
    SectionStep(racks, elevations, |racks| - 1);
    assert racks[..|racks|] == racks;
    if n < |racks| - 1 {
      assert racks[..|racks| - 1][..n] == racks[..n];
      SectionsGrow(racks[..|racks| - 1], elevations, n);
    }
  }

  /** Devices that fit their racks are drawn on the canvas. */
  lemma FittingTilesWithin(rooms: seq<Room>, elevations: Elevations)
    requires forall r :: r in CollectRacks(rooms) ==> r.id in elevations && Fits(elevations[r.id])
    ensures TilesWithin(rooms, CollectRacks(rooms), elevations, |CollectRacks(rooms)|, Estimate(rooms,
      CollectRacks(rooms), elevations))
  {
    hide SectionBodies, Sections, RoomBody, OccupiedRooms, OccupiedCorridors, CollectRacks, TileBottom;
    var racks := CollectRacks(rooms);
    PositionFits(rooms, elevations);
    forall k, i | 0 <= k < |racks| && racks[k].id in elevations && 0 <= i < |elevations[racks[k].id].devices|
      ensures SectionStart(rooms, racks, elevations, k) + 16 + TileBottom(elevations[racks[k].id].devices[i])
           <= Estimate(rooms, racks, elevations)
    {
      var e := elevations[racks[k].id];
      assert racks[k] in racks && e.devices[i] in e.devices;
      TileBottomIsEdge(e.devices[i]);
      SectionsGrow(racks, elevations, k);
    }
  }

  /** Nothing keeps a device inside its rack: a rack of one unit with a device at unit 100 is drawn down
      to 2591 on a canvas of height 542. */
  lemma TileOffCanvas()
    ensures
      var rooms, elevations := [Room([Corridor([Rack("r")])])], map["r" := Elevation(1, [Slot(100, 1)])];
      var racks := CollectRacks(rooms);
      && Estimate(rooms, racks, elevations) == 542
      && racks == [Rack("r")] && LowestTile(elevations["r"], SectionStart(rooms, racks, elevations, 0), 1) == 2591
      && !TilesWithin(rooms, racks, elevations, 1, 542)
  {
    var corridors := [Corridor([Rack("r")])];
    var rooms, elevations := [Room(corridors)], map["r" := Elevation(1, [Slot(100, 1)])];
    CorridorStep(corridors, 0);
    RoomStep(rooms, 0);
    assert corridors[..0] == [] && corridors[..1] == corridors && rooms[..0] == [] && rooms[..1] == rooms;
    assert CollectRacks(rooms) == CollectRacks([]) + CorridorRacks(corridors);
    var racks := [Rack("r")];
    SectionStep(racks, elevations, 0);
    assert racks[..0] == [] && racks[..1] == racks;
    var e := elevations["r"];
    assert LowestTile(e, 376, 1) == Max(LowestTile(e, 376, 0), 376 + 16 + TileBottom(e.devices[0]));
    assert SectionStart(rooms, racks, elevations, 0) + 16 + TileBottom(e.devices[0]) > 542;
  }

  function Corridors(n: nat): seq<Corridor> {
    seq(n, _ => Corridor([Rack("r")]))
  }

  lemma {:induction false} CorridorsOccupied(n: nat)
    ensures Occupied(Corridors(n)) == n
  {
    if n > 0 {
      assert Corridors(n)[..n - 1] == Corridors(n - 1);
      CorridorsOccupied(n - 1);
    }
  }

  lemma {:induction false} NoSections(racks: seq<Rack>)
    ensures Sections(racks, map[]) == 0
  {
    if racks != [] { NoSections(racks[..|racks| - 1]); }
  }

  /** That many suffice: without any elevation the position passes the estimate from 21 one-rack
      corridors in one room on, and not before. */
  lemma OverflowWithoutElevations(n: nat)
    requires n > 0
    ensures Slack([Room(Corridors(n))], CollectRacks([Room(Corridors(n))]), map[]) < 0 <==> n > 20
  {
    OneRoom(Corridors(n));
    CorridorsOccupied(n);
    NoSections(CollectRacks([Room(Corridors(n))]));
  }

  lemma OneRoom(corridors: seq<Corridor>)
    ensures OccupiedCorridors([Room(corridors)]) == Occupied(corridors)
    ensures OccupiedRooms([Room(corridors)]) == if Occupied(corridors) == 0 then 0 else 1
  {
    RoomStep([Room(corridors)], 0);
    assert [Room(corridors)][..0] == [] && [Room(corridors)][..1] == [Room(corridors)];
  }
}

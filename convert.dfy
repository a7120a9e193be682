/** The snapshot extractor of convert.py: one parsed XML snapshot becomes one
    row per distinct VDID, each row an insertion-ordered dict from column name
    to cell value, with lane-level and vehicle-class columns. */
module Convert {
  import opened Outcomes
  import opened Strings
  import opened ODicts
  import opened Seqs

  // ---------------------------------------------------------------------------
  // The document, as ElementTree's find/findall queries expose it.

  /** A child element looked up with `find`: absent, present with no text
      (ElementTree gives Python `None`), or present with text. */
  datatype Child = Missing | NoText | Text(s: string)

  datatype Vehicle = Vehicle(vehicleType: Child, volume: Child, speed: Child)

  datatype Lane = Lane(laneId: Child, speed: Child, occupancy: Child, vehicles: seq<Vehicle>)

  datatype VDLive = VDLive(vdid: Child, lanes: seq<Lane>)

  /** The `VDLive` elements of one snapshot, in document order. */
  type Document = seq<VDLive>

  // ---------------------------------------------------------------------------
  // Cells, columns and rows.

  /** A cell: a string, Python `None`, or the integer 0 of the zero-fill. */
  datatype Value = Str(s: string) | Null | Zero

  /** `get_nested_element_text`: the child's text, or the empty string when the
      child is absent; never an error. */
  function NestedText(c: Child): (v: Value)
    ensures v == Str("") <==> c == Missing || c == Text("")
    ensures v == Null <==> c == NoText
    ensures c.Text? ==> v == Str(c.s)
    ensures v != Zero
  {
    match c
    case Missing => Str("")
    case NoText => Null
    case Text(s) => Str(s)
  }

  /** How a value is rendered inside an f-string. */
  function Format(v: Value): string {
    match v
    case Str(s) => s
    case Null => "None"
    case Zero => "0"
  }

  datatype Class = S | L | T

  function ClassName(c: Class): string {
    match c
    case S => "S"
    case L => "L"
    case T => "T"
  }

  /** The vehicle class a `VehicleType` text selects, if any. */
  function ClassOf(v: Value): (c: Option<Class>)
    ensures c.Some? <==> v == Str("S") || v == Str("L") || v == Str("T")
    ensures c.Some? ==> v == Str(ClassName(c.value))
  {
    if v == Str("S") then Some(S)
    else if v == Str("L") then Some(L)
    else if v == Str("T") then Some(T)
    else None
  }

  /** The eight per-lane fields. */
  datatype Field = SpeedField | OccupancyField | VolumeField(c: Class) | VehicleSpeedField(c: Class)

  function FieldName(f: Field): string {
    match f
    case SpeedField => "Speed"
    case OccupancyField => "Occupancy"
    case VolumeField(c) => ClassName(c) + "_Volume"
    case VehicleSpeedField(c) => ClassName(c) + "_Vehicle_Speed"
  }

  /** `f'L{lane_id}_{field}'` for a lane id rendered as `name`. */
  function ColumnNamed(name: string, f: Field): string {
    "L" + name + "_" + FieldName(f)
  }

  function Column(laneId: Value, f: Field): string {
    ColumnNamed(Format(laneId), f)
  }

  /** The columns one lane writes. */
  function LaneColumns(laneId: Value): set<string> {
    { Column(laneId, SpeedField), Column(laneId, OccupancyField),
      Column(laneId, VolumeField(S)), Column(laneId, VolumeField(L)), Column(laneId, VolumeField(T)),
      Column(laneId, VehicleSpeedField(S)), Column(laneId, VehicleSpeedField(L)), Column(laneId, VehicleSpeedField(T)) }
  }

  type Row = ODict<string, Value>

  /** `data_dict`: VDID to row, in order of first appearance. */
  type DataDict = ODict<Value, Row>

  /** Two rows agree on column `k`: both lack it, or both hold the same value. */
  ghost predicate Agree(a: Row, b: Row, k: string) {
    (k in a.vals <==> k in b.vals) && (k in a.vals ==> a.vals[k] == b.vals[k])
  }

  /** `data_dict[vdid] = {'VDID': vdid}`. */
  function InitialRow(vdid: Value): (r: Row)
    ensures r.Valid() && r.keys == ["VDID"] && r.vals == map["VDID" := vdid]
  {
    Empty<string, Value>().Put("VDID", vdid)
  }

  // ---------------------------------------------------------------------------
  // The extraction, as a fold over vehicles, lanes and VDLive entries.

  /** One `Vehicle`: a vehicle of class S, L or T overwrites its class's volume
      and speed columns of the lane; any other type leaves the row alone. */
  function VehicleStep(row: Row, laneId: Value, v: Vehicle): Row {
    match ClassOf(NestedText(v.vehicleType))
    case None => row
    case Some(c) =>
      row.Put(Column(laneId, VolumeField(c)), NestedText(v.volume))
         .Put(Column(laneId, VehicleSpeedField(c)), NestedText(v.speed))
  }

  function VehiclesFold(row: Row, laneId: Value, vs: seq<Vehicle>): Row {
    if vs == [] then row
    else VehicleStep(VehiclesFold(row, laneId, vs[..|vs| - 1]), laneId, vs[|vs| - 1])
  }

  /** The lane's speed and occupancy, and the six class columns reset to 0. */
  function LaneHeader(row: Row, laneId: Value, speed: Value, occupancy: Value): Row {
    Put8(row,
      Column(laneId, SpeedField), Column(laneId, OccupancyField),
      Column(laneId, VolumeField(S)), Column(laneId, VolumeField(L)), Column(laneId, VolumeField(T)),
      Column(laneId, VehicleSpeedField(S)), Column(laneId, VehicleSpeedField(L)), Column(laneId, VehicleSpeedField(T)),
      speed, occupancy, Zero, Zero, Zero, Zero, Zero, Zero)
  }

  /** One `Lane`: its header, then its vehicles in order. */
  function LaneStep(row: Row, lane: Lane): Row {
    var laneId := NestedText(lane.laneId);
    VehiclesFold(LaneHeader(row, laneId, NestedText(lane.speed), NestedText(lane.occupancy)), laneId, lane.vehicles)
  }

  function LanesFold(row: Row, lanes: seq<Lane>): Row {
    if lanes == [] then row
    else LaneStep(LanesFold(row, lanes[..|lanes| - 1]), lanes[|lanes| - 1])
  }

  /** One `VDLive`: a VDID seen for the first time gets a fresh row; its lanes
      then update that VDID's row, whether new or not. */
  function EntryStep(d: DataDict, e: VDLive): DataDict {
    var vdid := NestedText(e.vdid);
    var d1 := if vdid in d.vals then d else d.Put(vdid, InitialRow(vdid));
    d1.Put(vdid, LanesFold(d1.vals[vdid], e.lanes))
  }

  function EntriesFold(doc: Document): DataDict {
    if doc == [] then Empty()
    else EntryStep(EntriesFold(doc[..|doc| - 1]), doc[|doc| - 1])
  }

  // ---------------------------------------------------------------------------
  // Independent descriptions of what the fold computes.

  /** The VDIDs of the entries, in document order. */
  function Vdids(doc: Document): (ids: seq<Value>)
    ensures |ids| == |doc|
  {
    seq(|doc|, i requires 0 <= i < |doc| => NestedText(doc[i].vdid))
  }

  /** All lanes of all entries carrying VDID `k`, in document order. */
  function LanesOf(doc: Document, k: Value): seq<Lane> {
    if doc == [] then []
    else LanesOf(doc[..|doc| - 1], k) + (if NestedText(doc[|doc| - 1].vdid) == k then doc[|doc| - 1].lanes else [])
  }

  /** The last vehicle of class `c` among `vs`. */
  function LastOfClass(vs: seq<Vehicle>, c: Class): Option<Vehicle> {
    if vs == [] then None
    else if ClassOf(NestedText(vs[|vs| - 1].vehicleType)) == Some(c) then Some(vs[|vs| - 1])
    else LastOfClass(vs[..|vs| - 1], c)
  }

  /** The last lane among `lanes` whose id renders as `name`. */
  function LastLane(lanes: seq<Lane>, name: string): Option<Lane> {
    if lanes == [] then None
    else if Format(NestedText(lanes[|lanes| - 1].laneId)) == name then Some(lanes[|lanes| - 1])
    else LastLane(lanes[..|lanes| - 1], name)
  }

  /** What a lane leaves in each of its fields: its speed and occupancy text,
      and per class the last such vehicle's volume and speed, or 0 when the
      lane has no vehicle of that class. */
  function LaneFieldValue(lane: Lane, f: Field): Value {
    match f
    case SpeedField => NestedText(lane.speed)
    case OccupancyField => NestedText(lane.occupancy)
    case VolumeField(c) =>
      (match LastOfClass(lane.vehicles, c) case None => Zero case Some(v) => NestedText(v.volume))
    case VehicleSpeedField(c) =>
      (match LastOfClass(lane.vehicles, c) case None => Zero case Some(v) => NestedText(v.speed))
  }

  /** A lane id that renders without `_`, so that its columns cannot collide
      with another lane's. */
  predicate PlainId(laneId: Value) {
    '_' !in Format(laneId)
  }

  // ---------------------------------------------------------------------------
  // Column names.

  lemma FieldNameInjective(f: Field, g: Field)
    requires FieldName(f) == FieldName(g)
    ensures f == g
  {
    var a, b := FieldName(f), FieldName(g);
    if f.VolumeField? || f.VehicleSpeedField? {
      assert a[0] == ClassName(f.c)[0];
    }
    if g.VolumeField? || g.VehicleSpeedField? {
      assert b[0] == ClassName(g.c)[0];
    }
    assert |a| == |b|;
  }

  /** Within one lane the eight columns are distinct. */
  lemma ColumnsOfOneLane(name: string, f: Field, g: Field)
    requires ColumnNamed(name, f) == ColumnNamed(name, g)
    ensures f == g
  {
    var n := |name| + 2;
    assert ColumnNamed(name, f)[n..] == FieldName(f);
    assert ColumnNamed(name, g)[n..] == FieldName(g);
    FieldNameInjective(f, g);
  }

  /** Between lanes whose ids render without `_`, equal columns mean equal
      rendered ids and equal fields. */
  lemma ColumnsOfPlainLanes(a: string, b: string, f: Field, g: Field)
    requires '_' !in a && '_' !in b
    requires ColumnNamed(a, f) == ColumnNamed(b, g)
    ensures a == b && f == g
  {
    SplitAfterPrefix("L" + a, '_', FieldName(f));
    SplitAfterPrefix("L" + b, '_', FieldName(g));
    assert ColumnNamed(a, f) == ("L" + a) + ['_'] + FieldName(f);
    assert ColumnNamed(b, g) == ("L" + b) + ['_'] + FieldName(g);
    assert Split(ColumnNamed(a, f), '_')[0] == "L" + a;
    assert Split(ColumnNamed(b, g), '_')[0] == "L" + b;
    assert a == ("L" + a)[1..] && b == ("L" + b)[1..];
    ColumnsOfOneLane(a, f, g);
  }

  /** No lane column is the `VDID` column. */
  lemma VdidIsNoLaneColumn(laneId: Value)
    ensures "VDID" !in LaneColumns(laneId)
  {
    forall f: Field ensures Column(laneId, f)[0] == 'L' {
    }
  }

  /** The six class columns of one lane. */
  function ClassColumns(laneId: Value): set<string> {
    { Column(laneId, VolumeField(S)), Column(laneId, VolumeField(L)), Column(laneId, VolumeField(T)),
      Column(laneId, VehicleSpeedField(S)), Column(laneId, VehicleSpeedField(L)), Column(laneId, VehicleSpeedField(T)) }
  }

  // ---------------------------------------------------------------------------
  // What one vehicle, one lane and a sequence of lanes do to a row.

  /** A vehicle of class S, L or T sets only its class's two columns of the
      lane; a vehicle of any other type changes nothing. */
  lemma VehicleStepSpec(row: Row, laneId: Value, v: Vehicle)
    ensures row.Valid() ==> VehicleStep(row, laneId, v).Valid()
    ensures ClassOf(NestedText(v.vehicleType)).None? ==> VehicleStep(row, laneId, v) == row
    ensures ClassOf(NestedText(v.vehicleType)).Some? ==>
      var c, r := ClassOf(NestedText(v.vehicleType)).value, VehicleStep(row, laneId, v);
      && Column(laneId, VolumeField(c)) in r.vals && r.vals[Column(laneId, VolumeField(c))] == NestedText(v.volume)
      && Column(laneId, VehicleSpeedField(c)) in r.vals && r.vals[Column(laneId, VehicleSpeedField(c))] == NestedText(v.speed)
      && forall k :: k != Column(laneId, VolumeField(c)) && k != Column(laneId, VehicleSpeedField(c)) ==> Agree(r, row, k)
  {
    match ClassOf(NestedText(v.vehicleType))
    case None =>
    case Some(c) =>
      VehicleStepClass(row, laneId, v, c);
      if row.Valid() {
        VehicleStepValid(row, laneId, v, c);
      }
  }

  lemma VehicleStepClass(row: Row, laneId: Value, v: Vehicle, c: Class)
    requires ClassOf(NestedText(v.vehicleType)) == Some(c)
    ensures var r := VehicleStep(row, laneId, v);
      && Column(laneId, VolumeField(c)) in r.vals && r.vals[Column(laneId, VolumeField(c))] == NestedText(v.volume)
      && Column(laneId, VehicleSpeedField(c)) in r.vals && r.vals[Column(laneId, VehicleSpeedField(c))] == NestedText(v.speed)
      && forall k :: k != Column(laneId, VolumeField(c)) && k != Column(laneId, VehicleSpeedField(c)) ==> Agree(r, row, k)
  {
    ColumnsDiffer(laneId, VolumeField(c), VehicleSpeedField(c));
  }

  lemma VehicleStepValid(row: Row, laneId: Value, v: Vehicle, c: Class)
    requires row.Valid() && ClassOf(NestedText(v.vehicleType)) == Some(c)
    ensures VehicleStep(row, laneId, v).Valid()
  {
    var vol := Column(laneId, VolumeField(c));
    PutValid(row, vol, NestedText(v.volume));
    PutValid(row.Put(vol, NestedText(v.volume)), Column(laneId, VehicleSpeedField(c)), NestedText(v.speed));
  }

  /** A lane's vehicles touch only its class columns, and only append keys. */
  lemma {:induction false} VehiclesFoldFrame(row: Row, laneId: Value, vs: seq<Vehicle>)
    ensures row.Valid() ==> VehiclesFold(row, laneId, vs).Valid()
    ensures |row.keys| <= |VehiclesFold(row, laneId, vs).keys|
    ensures VehiclesFold(row, laneId, vs).keys[..|row.keys|] == row.keys
    ensures forall k :: k !in ClassColumns(laneId) ==> Agree(VehiclesFold(row, laneId, vs), row, k)
    decreases |vs|
  {
    if vs != [] {
      var init, v := vs[..|vs| - 1], vs[|vs| - 1];
      var prev := VehiclesFold(row, laneId, init);
      VehiclesFoldFrame(row, laneId, init);
      VehicleStepSpec(prev, laneId, v);
      var r := VehiclesFold(row, laneId, vs);
      assert r.keys[..|row.keys|] == r.keys[..|prev.keys|][..|row.keys|];
    }
  }

  /** After a lane's vehicles, the two columns of class `c` hold the volume and
      speed of the last vehicle of that class, or are as before when there is
      none. */
  lemma {:induction false} VehiclesFoldClass(row: Row, laneId: Value, vs: seq<Vehicle>, c: Class)
    ensures var r, vol, spd := VehiclesFold(row, laneId, vs), Column(laneId, VolumeField(c)), Column(laneId, VehicleSpeedField(c));
      match LastOfClass(vs, c)
      case None => Agree(r, row, vol) && Agree(r, row, spd)
      case Some(v) =>
        vol in r.vals && r.vals[vol] == NestedText(v.volume) && spd in r.vals && r.vals[spd] == NestedText(v.speed)
    decreases |vs|
  {
    if vs != [] {
      var init, v := vs[..|vs| - 1], vs[|vs| - 1];
      var prev := VehiclesFold(row, laneId, init);
      VehiclesFoldClass(row, laneId, init, c);
      VehicleStepSpec(prev, laneId, v);
      match ClassOf(NestedText(v.vehicleType))
      case None =>
      case Some(c') =>
        if c' != c {
          OtherClassColumns(laneId, c, c');
        }
    }
  }

  /** The two columns of one class are not those of another. */
  lemma OtherClassColumns(laneId: Value, c: Class, c': Class)
    requires c != c'
    ensures Column(laneId, VolumeField(c)) !in {Column(laneId, VolumeField(c')), Column(laneId, VehicleSpeedField(c'))}
    ensures Column(laneId, VehicleSpeedField(c)) !in {Column(laneId, VolumeField(c')), Column(laneId, VehicleSpeedField(c'))}
  {
    ColumnsDiffer(laneId, VolumeField(c), VolumeField(c'));
    ColumnsDiffer(laneId, VolumeField(c), VehicleSpeedField(c'));
    ColumnsDiffer(laneId, VehicleSpeedField(c), VolumeField(c'));
    ColumnsDiffer(laneId, VehicleSpeedField(c), VehicleSpeedField(c'));
  }

  /** The value the header gives a lane field: speed and occupancy as read,
      the class columns 0. */
  function HeaderValue(f: Field, speed: Value, occupancy: Value): Value {
    match f
    case SpeedField => speed
    case OccupancyField => occupancy
    case _ => Zero
  }

  lemma OtherColumns(laneId: Value, f: Field)
    ensures forall g :: g != f ==> Column(laneId, g) != Column(laneId, f)
  {
    forall g | g != f ensures Column(laneId, g) != Column(laneId, f) {
      if Column(laneId, g) == Column(laneId, f) {
        ColumnsOfOneLane(Format(laneId), g, f);
      }
    }
  }

  lemma LaneHeaderFrame(row: Row, laneId: Value, speed: Value, occupancy: Value)
    ensures var h := LaneHeader(row, laneId, speed, occupancy);
      && (row.Valid() ==> h.Valid())
      && |row.keys| <= |h.keys| && h.keys[..|row.keys|] == row.keys
      && (forall k :: k !in LaneColumns(laneId) ==> Agree(h, row, k))
  {
    Put8Frame(row,
      Column(laneId, SpeedField), Column(laneId, OccupancyField),
      Column(laneId, VolumeField(S)), Column(laneId, VolumeField(L)), Column(laneId, VolumeField(T)),
      Column(laneId, VehicleSpeedField(S)), Column(laneId, VehicleSpeedField(L)), Column(laneId, VehicleSpeedField(T)),
      speed, occupancy, Zero, Zero, Zero, Zero, Zero, Zero);
    if row.Valid() {
      Put8Valid(row,
        Column(laneId, SpeedField), Column(laneId, OccupancyField),
        Column(laneId, VolumeField(S)), Column(laneId, VolumeField(L)), Column(laneId, VolumeField(T)),
        Column(laneId, VehicleSpeedField(S)), Column(laneId, VehicleSpeedField(L)), Column(laneId, VehicleSpeedField(T)),
        speed, occupancy, Zero, Zero, Zero, Zero, Zero, Zero);
    }
    Put8Prefix(row,
      Column(laneId, SpeedField), Column(laneId, OccupancyField),
      Column(laneId, VolumeField(S)), Column(laneId, VolumeField(L)), Column(laneId, VolumeField(T)),
      Column(laneId, VehicleSpeedField(S)), Column(laneId, VehicleSpeedField(L)), Column(laneId, VehicleSpeedField(T)),
      speed, occupancy, Zero, Zero, Zero, Zero, Zero, Zero);
  }

  lemma ColumnsDiffer(laneId: Value, f: Field, g: Field)
    requires f != g
    ensures Column(laneId, f) != Column(laneId, g)
  {
    if Column(laneId, f) == Column(laneId, g) {
      ColumnsOfOneLane(Format(laneId), f, g);
    }
  }

  /** The eight columns a lane header writes are pairwise distinct. */
  lemma HeaderColumnsDistinct(id: Value)
    ensures var c1, c2, c3, c4, c5, c6, c7, c8 :=
      Column(id, SpeedField), Column(id, OccupancyField),
      Column(id, VolumeField(S)), Column(id, VolumeField(L)), Column(id, VolumeField(T)),
      Column(id, VehicleSpeedField(S)), Column(id, VehicleSpeedField(L)), Column(id, VehicleSpeedField(T));
      && c1 != c2 && c1 != c3 && c1 != c4 && c1 != c5 && c1 != c6 && c1 != c7 && c1 != c8
      && c2 != c3 && c2 != c4 && c2 != c5 && c2 != c6 && c2 != c7 && c2 != c8
      && c3 != c4 && c3 != c5 && c3 != c6 && c3 != c7 && c3 != c8
      && c4 != c5 && c4 != c6 && c4 != c7 && c4 != c8
      && c5 != c6 && c5 != c7 && c5 != c8
      && c6 != c7 && c6 != c8
      && c7 != c8
  {
    ColumnsDiffer(id, SpeedField, OccupancyField); ColumnsDiffer(id, SpeedField, VolumeField(S)); ColumnsDiffer(id, SpeedField, VolumeField(L)); ColumnsDiffer(id, SpeedField, VolumeField(T)); ColumnsDiffer(id, SpeedField, VehicleSpeedField(S)); ColumnsDiffer(id, SpeedField, VehicleSpeedField(L)); ColumnsDiffer(id, SpeedField, VehicleSpeedField(T));
    ColumnsDiffer(id, OccupancyField, VolumeField(S)); ColumnsDiffer(id, OccupancyField, VolumeField(L)); ColumnsDiffer(id, OccupancyField, VolumeField(T)); ColumnsDiffer(id, OccupancyField, VehicleSpeedField(S)); ColumnsDiffer(id, OccupancyField, VehicleSpeedField(L)); ColumnsDiffer(id, OccupancyField, VehicleSpeedField(T));
    ColumnsDiffer(id, VolumeField(S), VolumeField(L)); ColumnsDiffer(id, VolumeField(S), VolumeField(T)); ColumnsDiffer(id, VolumeField(S), VehicleSpeedField(S)); ColumnsDiffer(id, VolumeField(S), VehicleSpeedField(L)); ColumnsDiffer(id, VolumeField(S), VehicleSpeedField(T));
    ColumnsDiffer(id, VolumeField(L), VolumeField(T)); ColumnsDiffer(id, VolumeField(L), VehicleSpeedField(S)); ColumnsDiffer(id, VolumeField(L), VehicleSpeedField(L)); ColumnsDiffer(id, VolumeField(L), VehicleSpeedField(T));
    ColumnsDiffer(id, VolumeField(T), VehicleSpeedField(S)); ColumnsDiffer(id, VolumeField(T), VehicleSpeedField(L)); ColumnsDiffer(id, VolumeField(T), VehicleSpeedField(T));
    ColumnsDiffer(id, VehicleSpeedField(S), VehicleSpeedField(L)); ColumnsDiffer(id, VehicleSpeedField(S), VehicleSpeedField(T));
    ColumnsDiffer(id, VehicleSpeedField(L), VehicleSpeedField(T));
  }

  /** The header writes its eight values under the lane's eight columns. */
  lemma LaneHeaderValues(row: Row, laneId: Value, speed: Value, occupancy: Value)
    ensures var h := LaneHeader(row, laneId, speed, occupancy);
      && Column(laneId, SpeedField) in h.vals && h.vals[Column(laneId, SpeedField)] == speed
      && Column(laneId, OccupancyField) in h.vals && h.vals[Column(laneId, OccupancyField)] == occupancy
      && Column(laneId, VolumeField(S)) in h.vals && h.vals[Column(laneId, VolumeField(S))] == Zero
      && Column(laneId, VolumeField(L)) in h.vals && h.vals[Column(laneId, VolumeField(L))] == Zero
      && Column(laneId, VolumeField(T)) in h.vals && h.vals[Column(laneId, VolumeField(T))] == Zero
      && Column(laneId, VehicleSpeedField(S)) in h.vals && h.vals[Column(laneId, VehicleSpeedField(S))] == Zero
      && Column(laneId, VehicleSpeedField(L)) in h.vals && h.vals[Column(laneId, VehicleSpeedField(L))] == Zero
      && Column(laneId, VehicleSpeedField(T)) in h.vals && h.vals[Column(laneId, VehicleSpeedField(T))] == Zero
  {
    HeaderColumnsDistinct(laneId);
    Put8Values(row,
      Column(laneId, SpeedField), Column(laneId, OccupancyField),
      Column(laneId, VolumeField(S)), Column(laneId, VolumeField(L)), Column(laneId, VolumeField(T)),
      Column(laneId, VehicleSpeedField(S)), Column(laneId, VehicleSpeedField(L)), Column(laneId, VehicleSpeedField(T)),
      speed, occupancy, Zero, Zero, Zero, Zero, Zero, Zero);
  }

  lemma LaneHeaderField(row: Row, laneId: Value, speed: Value, occupancy: Value, f: Field)
    ensures var h := LaneHeader(row, laneId, speed, occupancy);
      Column(laneId, f) in h.vals && h.vals[Column(laneId, f)] == HeaderValue(f, speed, occupancy)
  {
    LaneHeaderValues(row, laneId, speed, occupancy);
    match f
    case SpeedField =>
    case OccupancyField =>
    case VolumeField(c) => assert c == S || c == L || c == T;
    case VehicleSpeedField(c) => assert c == S || c == L || c == T;
  }

  /** One lane keeps the row valid, only appends keys, and changes no column
      other than its own eight. */
  lemma LaneStepFrame(row: Row, lane: Lane)
    ensures var r, laneId := LaneStep(row, lane), NestedText(lane.laneId);
      && (row.Valid() ==> r.Valid())
      && |row.keys| <= |r.keys| && r.keys[..|row.keys|] == row.keys
      && (forall k :: k !in LaneColumns(laneId) ==> Agree(r, row, k))
  {
    var laneId := NestedText(lane.laneId);
    var h := LaneHeader(row, laneId, NestedText(lane.speed), NestedText(lane.occupancy));
    var r := LaneStep(row, lane);
    LaneHeaderFrame(row, laneId, NestedText(lane.speed), NestedText(lane.occupancy));
    VehiclesFoldFrame(h, laneId, lane.vehicles);
    PrefixTrans(row.keys, h.keys, r.keys);
    LaneStepAgree(row, lane);
  }

  /** Outside its eight columns, a lane leaves the row as it was. */
  lemma LaneStepAgree(row: Row, lane: Lane)
    ensures forall k :: k !in LaneColumns(NestedText(lane.laneId)) ==> Agree(LaneStep(row, lane), row, k)
  {
    var laneId := NestedText(lane.laneId);
    var h := LaneHeader(row, laneId, NestedText(lane.speed), NestedText(lane.occupancy));
    LaneHeaderFrame(row, laneId, NestedText(lane.speed), NestedText(lane.occupancy));
    VehiclesFoldFrame(h, laneId, lane.vehicles);
    assert ClassColumns(laneId) <= LaneColumns(laneId);
  }

  /** One lane sets its column for field `f` to the lane's value for that field
      (`LaneFieldValue`): speed and occupancy as read, and each class column
      reset to 0 and then overwritten by the last vehicle of the class. */
  lemma LaneStepField(row: Row, lane: Lane, f: Field)
    ensures var r, laneId := LaneStep(row, lane), NestedText(lane.laneId);
      Column(laneId, f) in r.vals && r.vals[Column(laneId, f)] == LaneFieldValue(lane, f)
  {
    var laneId := NestedText(lane.laneId);
    var h := LaneHeader(row, laneId, NestedText(lane.speed), NestedText(lane.occupancy));
    LaneHeaderField(row, laneId, NestedText(lane.speed), NestedText(lane.occupancy), f);
    match f
    case SpeedField =>
      HeaderColumnsDistinct(laneId);
      VehiclesFoldFrame(h, laneId, lane.vehicles);
      assert Column(laneId, f) !in ClassColumns(laneId);
    case OccupancyField =>
      HeaderColumnsDistinct(laneId);
      VehiclesFoldFrame(h, laneId, lane.vehicles);
      assert Column(laneId, f) !in ClassColumns(laneId);
    case VolumeField(c) =>
      VehiclesFoldClass(h, laneId, lane.vehicles, c);
    case VehicleSpeedField(c) =>
      VehiclesFoldClass(h, laneId, lane.vehicles, c);
  }

  /** A lane without `Vehicle` children ends with 0 volume and 0 speed for all
      three classes. */
  lemma LaneWithoutVehicles(row: Row, lane: Lane, c: Class)
    requires lane.vehicles == []
    ensures var r, laneId := LaneStep(row, lane), NestedText(lane.laneId);
      && r.vals[Column(laneId, VolumeField(c))] == Zero
      && r.vals[Column(laneId, VehicleSpeedField(c))] == Zero
  {
    LaneStepField(row, lane, VolumeField(c));
    LaneStepField(row, lane, VehicleSpeedField(c));
  }

  /** A key that does not start with `L` (such as `VDID`) is no lane column. */
  lemma NotALaneColumn(k: string, laneId: Value)
    requires |k| == 0 || k[0] != 'L'
    ensures k !in LaneColumns(laneId)
  {
    forall f: Field ensures Column(laneId, f)[0] == 'L' {
    }
  }

  /** Lanes keep a row valid, only append keys, and never touch a key that does
      not start with `L`, so in particular not `VDID`. */
  lemma {:induction false} LanesFoldFrame(row: Row, lanes: seq<Lane>)
    ensures row.Valid() ==> LanesFold(row, lanes).Valid()
    ensures |row.keys| <= |LanesFold(row, lanes).keys|
    ensures LanesFold(row, lanes).keys[..|row.keys|] == row.keys
    ensures forall k :: (|k| == 0 || k[0] != 'L') ==> Agree(LanesFold(row, lanes), row, k)
    decreases |lanes|
  {
    if lanes != [] {
      var init, lane := lanes[..|lanes| - 1], lanes[|lanes| - 1];
      var prev := LanesFold(row, init);
      LanesFoldFrame(row, init);
      LaneStepFrame(prev, lane);
      PrefixTrans(row.keys, prev.keys, LanesFold(row, lanes).keys);
      forall k | |k| == 0 || k[0] != 'L' ensures Agree(LanesFold(row, lanes), row, k) {
        NotALaneColumn(k, NestedText(lane.laneId));
      }
    }
  }

  /** Folding two runs of lanes one after the other is folding their concatenation. */
  lemma {:induction false} LanesFoldAppend(row: Row, a: seq<Lane>, b: seq<Lane>)
    ensures LanesFold(row, a + b) == LanesFold(LanesFold(row, a), b)
    decreases |b|
  {
    if b == [] {
      assert a + b == a;
    } else {
      var b' := b[..|b| - 1];
      assert (a + b)[..|a + b| - 1] == a + b';
      assert (a + b)[|a + b| - 1] == b[|b| - 1];
      LanesFoldAppend(row, a, b');
    }
  }

  lemma PlainLanesDiffer(a: string, b: string, f: Field, g: Field)
    requires '_' !in a && '_' !in b && a != b
    ensures ColumnNamed(a, f) != ColumnNamed(b, g)
  {
    if ColumnNamed(a, f) == ColumnNamed(b, g) {
      ColumnsOfPlainLanes(a, b, f, g);
    }
  }

  /** A lane whose id renders without `_` and differently from `name` writes no
      column of `name`. */
  lemma OtherLaneColumns(name: string, laneId: Value, f: Field)
    requires '_' !in name && PlainId(laneId) && Format(laneId) != name
    ensures ColumnNamed(name, f) !in LaneColumns(laneId)
  {
    PlainLanesDiffer(name, Format(laneId), f, SpeedField);
    PlainLanesDiffer(name, Format(laneId), f, OccupancyField);
    PlainLanesDiffer(name, Format(laneId), f, VolumeField(S));
    PlainLanesDiffer(name, Format(laneId), f, VolumeField(L));
    PlainLanesDiffer(name, Format(laneId), f, VolumeField(T));
    PlainLanesDiffer(name, Format(laneId), f, VehicleSpeedField(S));
    PlainLanesDiffer(name, Format(laneId), f, VehicleSpeedField(L));
    PlainLanesDiffer(name, Format(laneId), f, VehicleSpeedField(T));
  }

  /** Last seen wins: when lane ids render without `_`, the column of field `f`
      for lane name `name` holds the value of the last lane with that name,
      re-zeroed class columns included; with no such lane it is as before. */
  lemma {:induction false} LanesFoldLastLane(row: Row, lanes: seq<Lane>, name: string, f: Field)
    requires '_' !in name
    requires forall i :: 0 <= i < |lanes| ==> PlainId(NestedText(lanes[i].laneId))
    ensures var r, col := LanesFold(row, lanes), ColumnNamed(name, f);
      match LastLane(lanes, name)
      case None => Agree(r, row, col)
      case Some(lane) => col in r.vals && r.vals[col] == LaneFieldValue(lane, f)
    decreases |lanes|
  {
    if lanes != [] {
      var init, lane := lanes[..|lanes| - 1], lanes[|lanes| - 1];
      var prev := LanesFold(row, init);
      var laneId := NestedText(lane.laneId);
      var col := ColumnNamed(name, f);
      if Format(laneId) == name {
        LaneStepField(prev, lane, f);
      } else {
        LanesFoldLastLane(row, init, name, f);
        LaneStepFrame(prev, lane);
        assert PlainId(laneId);
        OtherLaneColumns(name, laneId, f);
      }
    }
  }

  // ---------------------------------------------------------------------------
  // The whole document.

  /** The data dictionary stays a valid insertion-ordered dict. */
  lemma {:induction false} EntriesFoldValid(doc: Document)
    ensures EntriesFold(doc).Valid()
    decreases |doc|
  {
    if doc != [] {
      var init, e := doc[..|doc| - 1], doc[|doc| - 1];
      var d0 := EntriesFold(init);
      EntriesFoldValid(init);
      var vdid := NestedText(e.vdid);
      PutValid(d0, vdid, InitialRow(vdid));
      var d1 := if vdid in d0.vals then d0 else d0.Put(vdid, InitialRow(vdid));
      PutValid(d1, vdid, LanesFold(d1.vals[vdid], e.lanes));
    }
  }

  /** The keys of the data dictionary are the document's VDIDs in order of
      first appearance, each once. */
  lemma {:induction false} EntriesFoldKeys(doc: Document)
    ensures EntriesFold(doc).keys == Distinct(Vdids(doc))
    decreases |doc|
  {
    if doc != [] {
      var init, e := doc[..|doc| - 1], doc[|doc| - 1];
      EntriesFoldKeys(init);
      EntriesFoldValid(init);
      assert Vdids(doc)[..|doc| - 1] == Vdids(init);
    }
  }

  /** The row of VDID `k` is the row `{'VDID': k}` updated by all lanes of all
      entries carrying `k`, in document order: repeated entries fold into the
      same row. A VDID with no row has no entry. */
  lemma {:induction false} EntriesFoldRow(doc: Document, k: Value)
    ensures k in EntriesFold(doc).vals ==> EntriesFold(doc).vals[k] == LanesFold(InitialRow(k), LanesOf(doc, k))
    ensures k !in EntriesFold(doc).vals ==> LanesOf(doc, k) == []
    decreases |doc|
  {
    if doc != [] {
      var init, e := doc[..|doc| - 1], doc[|doc| - 1];
      var d0 := EntriesFold(init);
      assert EntriesFold(doc) == EntryStep(d0, e);
      EntriesFoldRow(init, k);
      EntryStepRow(d0, e, k);
      if k == NestedText(e.vdid) {
        assert LanesOf(doc, k) == LanesOf(init, k) + e.lanes;
        if k in d0.vals {
          LanesFoldAppend(InitialRow(k), LanesOf(init, k), e.lanes);
        } else {
          assert LanesOf(init, k) + e.lanes == e.lanes;
        }
      } else {
        assert LanesOf(doc, k) == LanesOf(init, k) + [];
        assert LanesOf(init, k) + [] == LanesOf(init, k);
      }
    }
  }

  /** One entry creates the row of its VDID if needed and applies its lanes
      to it; every other VDID's row is unchanged. */
  lemma EntryStepRow(d0: DataDict, e: VDLive, k: Value)
    ensures var d, vdid := EntryStep(d0, e), NestedText(e.vdid);
      && (k in d.vals <==> k in d0.vals || k == vdid)
      && (k == vdid ==> d.vals[k] == LanesFold(if k in d0.vals then d0.vals[k] else InitialRow(k), e.lanes))
      && (k != vdid && k in d0.vals ==> d.vals[k] == d0.vals[k])
  {
  }

  /** `list(data_dict.values())` after the loop over a document's entries:
      one row per distinct VDID. */
  function Snapshot(doc: Document): (rows: seq<Row>)
    ensures |rows| == |Distinct(Vdids(doc))|
  {
    EntriesFoldValid(doc);
    EntriesFoldKeys(doc);
    EntriesFold(doc).Values()
  }

  /** Row `i` belongs to the `i`-th distinct VDID, and is its initial row
      updated by all the lanes of all entries carrying it. */
  lemma SnapshotRow(doc: Document, i: nat)
    requires i < |Snapshot(doc)|
    ensures Snapshot(doc)[i] == LanesFold(InitialRow(Distinct(Vdids(doc))[i]), LanesOf(doc, Distinct(Vdids(doc))[i]))
  {
    EntriesFoldValid(doc);
    EntriesFoldKeys(doc);
    EntriesFoldRow(doc, Distinct(Vdids(doc))[i]);
  }

  /** Every row is a valid dict whose first column is `VDID`, holding the VDID
      of its key. */
  lemma SnapshotShape(doc: Document, i: nat)
    requires i < |Snapshot(doc)|
    ensures var row, k := Snapshot(doc)[i], Distinct(Vdids(doc))[i];
      row.Valid() && |row.keys| >= 1 && row.keys[0] == "VDID" && "VDID" in row.vals && row.vals["VDID"] == k
  {
    var k := Distinct(Vdids(doc))[i];
    SnapshotRow(doc, i);
    LanesFoldFrame(InitialRow(k), LanesOf(doc, k));
  }

  /** Exactly one row per distinct VDID: the rows' VDIDs are pairwise
      different, every VDID of the document has a row and no other does, and
      rows come in the order in which their VDIDs first appear. */
  lemma SnapshotOneRowPerVdid(doc: Document)
    ensures forall i :: 0 <= i < |Snapshot(doc)| ==>
      "VDID" in Snapshot(doc)[i].vals && Snapshot(doc)[i].vals["VDID"] == Distinct(Vdids(doc))[i]
    ensures forall i, j :: 0 <= i < j < |Snapshot(doc)| ==> Distinct(Vdids(doc))[i] != Distinct(Vdids(doc))[j]
    ensures forall v :: v in Vdids(doc) <==> v in Distinct(Vdids(doc))
    ensures forall i, j :: 0 <= i < j < |Snapshot(doc)| ==>
      FirstIndex(Vdids(doc), Distinct(Vdids(doc))[i]) < FirstIndex(Vdids(doc), Distinct(Vdids(doc))[j])
  {
    DistinctSpec(Vdids(doc));
    forall i | 0 <= i < |Snapshot(doc)|
      ensures "VDID" in Snapshot(doc)[i].vals && Snapshot(doc)[i].vals["VDID"] == Distinct(Vdids(doc))[i]
    {
      SnapshotShape(doc, i);
    }
  }

  /** Duplicate folding: two entries carrying the same VDID give one row. */
  lemma DuplicateEntriesFold(doc: Document, a: nat, b: nat)
    requires a < b < |doc| && NestedText(doc[a].vdid) == NestedText(doc[b].vdid)
    ensures |Snapshot(doc)| < |doc|
  {
    DistinctSpec(Vdids(doc));
    DistinctShorter(Vdids(doc), a, b);
  }

  /** A sequence with a repeated element has fewer distinct elements. */
  lemma {:induction false} DistinctShorter<T>(s: seq<T>, a: nat, b: nat)
    requires a < b < |s| && s[a] == s[b]
    ensures |Distinct(s)| < |s|
    decreases |s|
  {
    var init := s[..|s| - 1];
    DistinctNoLonger(init);
    if b == |s| - 1 {
      DistinctSpec(init);
      assert s[a] == init[a];
    } else {
      assert init[a] == init[b];
      DistinctShorter(init, a, b);
    }
  }

  lemma {:induction false} DistinctNoLonger<T>(s: seq<T>)
    ensures |Distinct(s)| <= |s|
    decreases |s|
  {
    if s != [] {
      DistinctNoLonger(s[..|s| - 1]);
    }
  }

  /** Last seen wins across the whole document: when lane ids render without
      `_`, the column of field `f` for lane name `name` in the row of a VDID
      holds the value of the last lane with that name among all entries
      carrying that VDID, and is absent when there is no such lane. */
  lemma SnapshotLastSeenWins(doc: Document, i: nat, name: string, f: Field)
    requires i < |Snapshot(doc)|
    requires '_' !in name
    requires forall e, lane :: e in doc && lane in e.lanes ==> PlainId(NestedText(lane.laneId))
    ensures var row, col := Snapshot(doc)[i], ColumnNamed(name, f);
      match LastLane(LanesOf(doc, Distinct(Vdids(doc))[i]), name)
      case None => col !in row.vals
      case Some(lane) => col in row.vals && row.vals[col] == LaneFieldValue(lane, f)
  {
    var k := Distinct(Vdids(doc))[i];
    var lanes := LanesOf(doc, k);
    SnapshotRow(doc, i);
    LanesOfFrom(doc, k);
    assert forall j :: 0 <= j < |lanes| ==> PlainId(NestedText(lanes[j].laneId)) by {
      forall j | 0 <= j < |lanes| ensures PlainId(NestedText(lanes[j].laneId)) {
        assert lanes[j] in lanes;
      }
    }
    LanesFoldLastLane(InitialRow(k), lanes, name, f);
    assert "VDID" != ColumnNamed(name, f) by { assert ColumnNamed(name, f)[0] == 'L'; }
  }

  lemma {:induction false} LanesOfFrom(doc: Document, k: Value)
    ensures forall lane :: lane in LanesOf(doc, k) ==> exists e :: e in doc && lane in e.lanes
    decreases |doc|
  {
    if doc != [] {
      LanesOfFrom(doc[..|doc| - 1], k);
      forall lane | lane in LanesOf(doc, k) ensures exists e :: e in doc && lane in e.lanes {
        if lane in LanesOf(doc[..|doc| - 1], k) {
          var e :| e in doc[..|doc| - 1] && lane in e.lanes;
          assert e in doc;
        } else {
          assert doc[|doc| - 1] in doc;
        }
      }
    }
  }

  // ---------------------------------------------------------------------------
  // The loops of `convert_xml_to_csv` over one parsed document.

  // The row `data_dict[vdid]` is a dict object that the lane and vehicle
  // loops update through the reference held in `data_dict`; below it is a
  // value that the loops reassign and that is stored back under `vdid` once
  // the entry's lanes are done, which leaves `data_dict` as the source does.

  /** The body of the `Vehicle` loop: a vehicle of type S, L or T overwrites
      its class's two columns of the lane. */
  method VisitVehicle(row: Row, laneId: Value, v: Vehicle) returns (row': Row)
    ensures row' == VehicleStep(row, laneId, v)
  {
    var vehicleType := NestedText(v.vehicleType);
    var volume := NestedText(v.volume);
    var speed2 := NestedText(v.speed);
    row' := row;
    if vehicleType == Str("S") {
      row' := row'.Put(Column(laneId, VolumeField(S)), volume);
      row' := row'.Put(Column(laneId, VehicleSpeedField(S)), speed2);
      assert ClassOf(vehicleType) == Some(S);
    } else if vehicleType == Str("L") {
      row' := row'.Put(Column(laneId, VolumeField(L)), volume);
      row' := row'.Put(Column(laneId, VehicleSpeedField(L)), speed2);
      assert ClassOf(vehicleType) == Some(L);
    } else if vehicleType == Str("T") {
      row' := row'.Put(Column(laneId, VolumeField(T)), volume);
      row' := row'.Put(Column(laneId, VehicleSpeedField(T)), speed2);
      assert ClassOf(vehicleType) == Some(T);
    } else {
      assert ClassOf(vehicleType) == None;
    }
  }

  /** The body of the `Lane` loop: speed and occupancy set, the six class
      columns reset to 0, then the lane's vehicles in order. */
  method VisitLane(row: Row, lane: Lane) returns (row': Row)
    ensures row' == LaneStep(row, lane)
  {
    var laneId := NestedText(lane.laneId);
    var speed := NestedText(lane.speed);
    var occupancy := NestedText(lane.occupancy);
    row' := WriteLaneHeader(row, laneId, speed, occupancy);
    row' := VisitVehicles(row', laneId, lane.vehicles);
  }

  /** The eight assignments that open a lane: its speed and occupancy, and
      the six class columns set to 0. */
  method WriteLaneHeader(row: Row, laneId: Value, speed: Value, occupancy: Value) returns (row': Row)
    ensures row' == LaneHeader(row, laneId, speed, occupancy)
  {
    row' := row.Put(Column(laneId, SpeedField), speed);
    row' := row'.Put(Column(laneId, OccupancyField), occupancy);
    row' := row'.Put(Column(laneId, VolumeField(S)), Zero);
    row' := row'.Put(Column(laneId, VolumeField(L)), Zero);
    row' := row'.Put(Column(laneId, VolumeField(T)), Zero);
    row' := row'.Put(Column(laneId, VehicleSpeedField(S)), Zero);
    row' := row'.Put(Column(laneId, VehicleSpeedField(L)), Zero);
    row' := row'.Put(Column(laneId, VehicleSpeedField(T)), Zero);
  }

  /** The `Vehicle` loop of one lane. */
  method VisitVehicles(row: Row, laneId: Value, vehicles: seq<Vehicle>) returns (row': Row)
    ensures row' == VehiclesFold(row, laneId, vehicles)
  {
    row' := row;
    var m := 0;
    while m < |vehicles|
      invariant 0 <= m <= |vehicles|
      invariant row' == VehiclesFold(row, laneId, vehicles[..m])
    {
      row' := VisitVehicle(row', laneId, vehicles[m]);
      assert vehicles[..m + 1][..m] == vehicles[..m];
      m := m + 1;
    }
    assert vehicles[..m] == vehicles;
  }

  lemma LanesFoldSnoc(row: Row, lanes: seq<Lane>, j: nat)
    requires j < |lanes|
    ensures LanesFold(row, lanes[..j + 1]) == LaneStep(LanesFold(row, lanes[..j]), lanes[j])
  {
    assert lanes[..j + 1][..j] == lanes[..j];
  }

  /** The `Lane` loop of one `VDLive` entry. */
  method VisitLanes(row: Row, lanes: seq<Lane>) returns (row': Row)
    ensures row' == LanesFold(row, lanes)
  {
    row' := row;
    var j := 0;
    while j < |lanes|
      invariant 0 <= j <= |lanes|
      invariant row' == LanesFold(row, lanes[..j])
    {
      row' := VisitLane(row', lanes[j]);
      LanesFoldSnoc(row, lanes, j);
      j := j + 1;
    }
    assert lanes[..j] == lanes;
  }

  /** The body of the `VDLive` loop: a VDID seen for the first time gets the
      row `{'VDID': vdid}`; the entry's lanes then update that VDID's row. */
  method VisitEntry(data: DataDict, e: VDLive) returns (data': DataDict)
    ensures data' == EntryStep(data, e)
  {
    var vdid := NestedText(e.vdid);
    data' := data;
    if vdid !in data'.vals {
      data' := data'.Put(vdid, InitialRow(vdid));
    }
    var row := VisitLanes(data'.vals[vdid], e.lanes);
    data' := data'.Put(vdid, row);
  }

  /** The loop over a document's `VDLive` elements, filling `data_dict`; the
      result is `list(data_dict.values())`, the rows handed to the data frame. */
  method ConvertDocument(doc: Document) returns (rows: seq<Row>)
    ensures rows == Snapshot(doc)
  {
    var data: DataDict := Empty();
    var i := 0;
    while i < |doc|
      invariant 0 <= i <= |doc|
      invariant data == EntriesFold(doc[..i])
    {
      data := VisitEntry(data, doc[i]);
      assert doc[..i + 1][..i] == doc[..i];
      i := i + 1;
    }
    assert doc[..i] == doc;
    EntriesFoldValid(doc);
    rows := data.Values();
  }

  // ---------------------------------------------------------------------------
  // The loop of `convert_xml_to_csv` over the files of a day.

  /** What becomes of one `.xml` file: `ET.parse` gives its document, or an
      exception (raised parsing the file or writing its table) skips it. */
  datatype FileOutcome = Parsed(doc: Document) | Failed

  predicate IsXml(name: string) {
    EndsWith(name, ".xml")
  }

  /** `file_name.replace('.xml', '.csv')`. */
  function CsvName(name: string): string {
    ReplaceAll(name, ".xml", ".csv")
  }

  /** A name whose only `.` is the one of its `.xml` suffix gets that suffix
      swapped for `.csv`, so `VDLive_0855.xml` becomes `VDLive_0855.csv`. */
  lemma CsvNameOfStem(stem: string)
    requires '.' !in stem
    ensures CsvName(stem + ".xml") == stem + ".csv"
  {
    var s := stem + ".xml";
    assert s[..|s| - 4] == stem;
    forall i: nat | i < |s| - 4 ensures !OccursAt(s, ".xml", i) {
      assert s[i] == stem[i] && stem[i] in stem;
      assert s[i..i + 4][0] == s[i] != '.';
    }
    assert EndsWith(s, ".xml") by { assert s[|s| - 4..] == ".xml"; }
    ReplaceOnlySuffix(s, ".xml", ".csv");
  }

  /** The table written for one file. */
  datatype Output = Output(name: string, rows: seq<Row>)

  /** The tables the loop writes for `files`, in order: one per file that
      parses, named after it, holding its snapshot rows. */
  function Outputs(files: seq<string>, parse: string -> FileOutcome): seq<Output> {
    if files == [] then []
    else
      var name := files[|files| - 1];
      Outputs(files[..|files| - 1], parse) +
        match parse(name)
        case Parsed(doc) => [Output(CsvName(name), Snapshot(doc))]
        case Failed => []
  }

  /** The files whose conversion raised, in order. */
  function Failures(files: seq<string>, parse: string -> FileOutcome): seq<string> {
    if files == [] then []
    else Failures(files[..|files| - 1], parse) + (if parse(files[|files| - 1]).Failed? then [files[|files| - 1]] else [])
  }

  /** Every file is accounted for once: it is written or it failed. A file
      that parses is written as its snapshot under its `.csv` name, every
      table written comes from such a file, and the failures are exactly the
      files that raised. */
  lemma OutputsAndFailures(files: seq<string>, parse: string -> FileOutcome)
    ensures |Outputs(files, parse)| + |Failures(files, parse)| == |files|
    ensures forall f :: f in Failures(files, parse) <==> f in files && parse(f).Failed?
    ensures forall f :: f in files && parse(f).Parsed? ==> Output(CsvName(f), Snapshot(parse(f).doc)) in Outputs(files, parse)
    ensures forall o :: o in Outputs(files, parse) ==>
      exists f :: f in files && parse(f).Parsed? && o == Output(CsvName(f), Snapshot(parse(f).doc))
  {
    OutputsCount(files, parse);
    forall f ensures f in Failures(files, parse) <==> f in files && parse(f).Failed? {
      FailuresMember(files, parse, f);
    }
    OutputsWritten(files, parse);
    OutputsFromParsed(files, parse);
  }

  /** Every file that parses has its table among the outputs. */
  lemma {:induction false} OutputsWritten(files: seq<string>, parse: string -> FileOutcome)
    ensures forall f :: f in files && parse(f).Parsed? ==> Output(CsvName(f), Snapshot(parse(f).doc)) in Outputs(files, parse)
    decreases |files|
  {
    if files != [] {
      var init, last := files[..|files| - 1], files[|files| - 1];
      OutputsWritten(init, parse);
      assert files == init + [last];
      assert forall f :: f in files ==> f in init || f == last;
    }
  }

  /** Every output is the table of a file that parses. */
  lemma {:induction false} OutputsFromParsed(files: seq<string>, parse: string -> FileOutcome)
    ensures forall o :: o in Outputs(files, parse) ==>
      exists f :: f in files && parse(f).Parsed? && o == Output(CsvName(f), Snapshot(parse(f).doc))
    decreases |files|
  {
    if files != [] {
      var init, last := files[..|files| - 1], files[|files| - 1];
      OutputsFromParsed(init, parse);
      assert files == init + [last];
      assert forall f :: f in init ==> f in files;
      assert last in files;
    }
  }

  lemma {:induction false} OutputsCount(files: seq<string>, parse: string -> FileOutcome)
    ensures |Outputs(files, parse)| + |Failures(files, parse)| == |files|
    decreases |files|
  {
    if files != [] {
      OutputsCount(files[..|files| - 1], parse);
    }
  }

  lemma {:induction false} FailuresMember(files: seq<string>, parse: string -> FileOutcome, f: string)
    ensures f in Failures(files, parse) <==> f in files && parse(f).Failed?
    decreases |files|
  {
    if files != [] {
      var init, last := files[..|files| - 1], files[|files| - 1];
      FailuresMember(init, parse, f);
      assert files == init + [last];
      assert Failures(files, parse) == Failures(init, parse) + (if parse(last).Failed? then [last] else []);
    }
  }

  /** `convert_xml_to_csv`: only names ending `.xml` are processed; each such
      file that parses is written as a table named by `CsvName`; a file whose
      conversion raises is reported and the loop moves on to the next. */
  method ConvertXmlToCsv(listing: seq<string>, parse: string -> FileOutcome)
    returns (written: seq<Output>, failed: seq<string>)
    ensures written == Outputs(Filter(listing, IsXml), parse)
    ensures failed == Failures(Filter(listing, IsXml), parse)
    ensures |written| + |failed| == |Filter(listing, IsXml)|
  {
    var xmlFiles := Filter(listing, IsXml);
    written, failed := [], [];
    var i := 0;
    while i < |xmlFiles|
      invariant 0 <= i <= |xmlFiles|
      invariant written == Outputs(xmlFiles[..i], parse)
      invariant failed == Failures(xmlFiles[..i], parse)
    {
      var fileName := xmlFiles[i];
      assert xmlFiles[..i + 1][..i] == xmlFiles[..i];
      match parse(fileName) {
        case Parsed(doc) =>
          var rows := ConvertDocument(doc);
          written := written + [Output(CsvName(fileName), rows)];
        case Failed =>
          failed := failed + [fileName];
      }
      i := i + 1;
    }
    assert xmlFiles[..i] == xmlFiles;
    OutputsAndFailures(xmlFiles, parse);
  }
}

/** Fiducial symbols, the medication wheel, and the record the bridge builds
    for every marker event. */
module Markers {
  import opened Wrappers

  // Fiducial symbol ids with a meaning on the tabletop.
  const RotateSymbol: int := 0
  const SelectSymbol: int := 1
  const BackSymbol: int := 12
  const NurseModeSymbol: int := 13
  const ViewPatientInfoSymbol: int := 14
  const EditMedicationsSymbol: int := 15

  /** The medication dictionary, as (symbol, name) pairs in insertion order. */
  datatype MedicationSymbol = MedicationSymbol(symbol: int, name: string)

  const MedicationSymbols: seq<MedicationSymbol> := [
    MedicationSymbol(1, "Paracetamol"),
    MedicationSymbol(2, "Amoxicillin"),
    MedicationSymbol(3, "Aspirin"),
    MedicationSymbol(4, "Metformin"),
    MedicationSymbol(5, "Lisinopril"),
    MedicationSymbol(6, "Atorvastatin")
  ]

  /** One wheel sector per medication. */
  const NumWheelSectors: nat := |MedicationSymbols|

  /** The wheel sector for a rotation step. The step is the truncated
      fraction of a full turn times the sector count, `int(frac * N)`; it is
      reduced modulo the sector count, with Python's `%`, which for a positive
      divisor agrees with Dafny's. */
  function Sector(step: int): (s: nat)
    ensures s < NumWheelSectors
    ensures (step - s) % NumWheelSectors == 0
    ensures 0 <= step < NumWheelSectors ==> s == step
  {
    step % NumWheelSectors
  }

  /** The name shown for a wheel sector: the sector-th value of the
      medication dictionary, in insertion order. */
  function MedicationAt(sector: nat): string
    requires sector < NumWheelSectors
  {
    MedicationSymbols[sector].name
  }

  /** The kind of marker event the tracking library reports. */
  datatype EventKind = Add | Update | Remove {
    /** "add" or "update": the events that keep a marker on the table. */
    predicate Tracking() { Add? || Update? }
  }

  /** Python's session id, which `getattr(obj, 'session_id', None)` may leave as `None`. */
  type SessionKey = Option<int>

  /** The record built for a marker event and echoed to the clients. */
  datatype Record = Record(
    event: EventKind,
    symbolId: int,
    sessionId: SessionKey,
    x: real,
    y: real,
    angle: real)

  /** A marker object as the tracking library hands it over: every attribute
      the bridge probes, each possibly missing. An id attribute that exists
      may still hold `None`. */
  datatype TuioObject = TuioObject(
    fiducialId: Attr<Option<int>>,
    symbolIdAttr: Attr<Option<int>>,
    classId: Attr<Option<int>>,
    patternId: Attr<Option<int>>,
    sessionIdAttr: Attr<SessionKey>,
    xAttr: Attr<real>, xpos: Attr<real>, xPos: Attr<real>,
    yAttr: Attr<real>, ypos: Attr<real>, yPos: Attr<real>,
    angleAttr: Attr<real>)

  /** The marker id: the value of the first of `fiducial_id`, `symbol_id`,
      `class_id`, `pattern_id` the object has; `None` when it has none of
      them or when that first attribute holds `None`. */
  function MarkerId(obj: TuioObject): (id: Option<int>)
    ensures obj.fiducialId.Present? ==> id == obj.fiducialId.value
    ensures obj.fiducialId.Absent? && obj.symbolIdAttr.Present? ==> id == obj.symbolIdAttr.value
    ensures obj.fiducialId.Absent? && obj.symbolIdAttr.Absent? && obj.classId.Present?
            ==> id == obj.classId.value
    ensures obj.fiducialId.Absent? && obj.symbolIdAttr.Absent? && obj.classId.Absent?
            ==> id == obj.patternId.GetOr(None)
  {
    var ids := [obj.fiducialId, obj.symbolIdAttr, obj.classId, obj.patternId];
    assert ids[0] == obj.fiducialId && ids[1] == obj.symbolIdAttr;
    assert ids[2] == obj.classId && ids[3] == obj.patternId;
    match FirstPresent(ids)
    case Present(v) => v
    case Absent => None
  }

  /** The record for event `event` on an object whose id was found to be `id`:
      session id defaulting to `None`, position falling back through the
      alternative attribute names to the centre (0.5), angle defaulting to 0. */
  function MakeRecord(event: EventKind, id: int, obj: TuioObject): (r: Record)
    ensures r.event == event && r.symbolId == id
    ensures r.sessionId == obj.sessionIdAttr.GetOr(None)
    ensures r.angle == obj.angleAttr.GetOr(0.0)
    ensures obj.xAttr.Present? ==> r.x == obj.xAttr.value
    ensures obj.xAttr.Absent? && obj.xpos.Present? ==> r.x == obj.xpos.value
    ensures obj.xAttr.Absent? && obj.xpos.Absent? && obj.xPos.Present? ==> r.x == obj.xPos.value
    ensures obj.xAttr.Absent? && obj.xpos.Absent? && obj.xPos.Absent? ==> r.x == 0.5
    ensures obj.yAttr.Present? ==> r.y == obj.yAttr.value
    ensures obj.yAttr.Absent? && obj.ypos.Present? ==> r.y == obj.ypos.value
    ensures obj.yAttr.Absent? && obj.ypos.Absent? && obj.yPos.Present? ==> r.y == obj.yPos.value
    ensures obj.yAttr.Absent? && obj.ypos.Absent? && obj.yPos.Absent? ==> r.y == 0.5
  {
    var xs := [obj.xAttr, obj.xpos, obj.xPos];
    var ys := [obj.yAttr, obj.ypos, obj.yPos];
    assert xs[0] == obj.xAttr && xs[1] == obj.xpos && xs[2] == obj.xPos;
    assert ys[0] == obj.yAttr && ys[1] == obj.ypos && ys[2] == obj.yPos;
    Record(
      event, id,
      GetAttrOr([obj.sessionIdAttr], None),
      GetAttrOr(xs, 0.5),
      GetAttrOr(ys, 0.5),
      GetAttrOr([obj.angleAttr], 0.0))
  }

  /** The wheel has six sectors and every sector names a different
      medication, so a sector message identifies its medication. */
  lemma WheelSectorsDistinct()
    ensures NumWheelSectors == 6
    ensures forall i, j | 0 <= i < j < NumWheelSectors :: MedicationAt(i) != MedicationAt(j)
    ensures forall i | 0 <= i < NumWheelSectors :: MedicationSymbols[i].symbol == i + 1
  {
  }
}

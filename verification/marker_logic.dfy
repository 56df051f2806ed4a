/** The marker-event dispatch rule: which messages one marker record causes,
    in which order, and what becomes of the gesture-detection flag. */
module MarkerLogic {
  import opened Markers
  import opened TrackedTable
  import opened Messages

  /** The floating-point geometry of the bridge, taken as inputs.
      `near(tracked, current)` stands for `hypot(dx, dy) < 0.08` between a
      tracked marker and the current one; `step(angle)` stands for
      `int((angle mod 2 pi) / (2 pi) * NumWheelSectors)`. */
  datatype Geometry = Geometry(near: (Record, Record) -> bool, step: real -> int)

  /** A tracked entry whose marker shows `symbol` and lies near `rec`. */
  predicate NearMarker(e: Entry, symbol: int, rec: Record, near: (Record, Record) -> bool) {
    e.rec.symbolId == symbol && near(e.rec, rec)
  }

  /** The table positions of the tracked markers showing `symbol` near `rec`. */
  ghost function NearMarkers(t: Table, symbol: int, rec: Record, near: (Record, Record) -> bool): set<int> {
    set i | 0 <= i < |t| && NearMarker(t[i], symbol, rec, near)
  }

  /** The near markers of a table are those of all but its last entry,
      plus the last entry when it is one. */
  lemma NearMarkersLast(t: Table, symbol: int, rec: Record, near: (Record, Record) -> bool)
    requires |t| > 0
    ensures |NearMarkers(t, symbol, rec, near)|
            == |NearMarkers(t[..|t| - 1], symbol, rec, near)| + (if NearMarker(t[|t| - 1], symbol, rec, near) then 1 else 0)
  {
    var p := t[..|t| - 1];
    assert forall i | 0 <= i < |p| :: t[i] == p[i];
    if NearMarker(t[|t| - 1], symbol, rec, near) {
      assert NearMarkers(t, symbol, rec, near) == NearMarkers(p, symbol, rec, near) + {|p|};
    } else {
      assert NearMarkers(t, symbol, rec, near) == NearMarkers(p, symbol, rec, near);
    }
  }

  /** One `wheel_select_confirm` per tracked SELECT marker near `rec`, in
      table order. */
  function SelectConfirms(t: Table, rec: Record, sector: nat, near: (Record, Record) -> bool): (out: seq<Message>)
    requires sector < NumWheelSectors
    ensures forall m | m in out :: m == WheelSelectConfirm(sector, MedicationAt(sector))
  {
    if |t| == 0 then []
    else
      SelectConfirms(t[..|t| - 1], rec, sector, near)
      + (if NearMarker(t[|t| - 1], SelectSymbol, rec, near)
         then [WheelSelectConfirm(sector, MedicationAt(sector))] else [])
  }

  /** Exactly one confirmation per near SELECT marker. */
  lemma {:induction false} SelectConfirmsCount(t: Table, rec: Record, sector: nat, near: (Record, Record) -> bool)
    requires sector < NumWheelSectors
    ensures |SelectConfirms(t, rec, sector, near)| == |NearMarkers(t, SelectSymbol, rec, near)|
  {
    if |t| > 0 {
      var p := t[..|t| - 1];
      SelectConfirmsCount(p, rec, sector, near);
      NearMarkersLast(t, SelectSymbol, rec, near);
    }
  }

  /** The nurse-wheel message one tracked entry contributes: a patient
      confirmation for a near VIEW_PATIENT_INFO marker, else a medication
      edit selection for a near EDIT_MEDICATIONS marker. */
  function NurseSelection(e: Entry, rec: Record, sector: nat, near: (Record, Record) -> bool): seq<Message>
    requires sector < NumWheelSectors
  {
    if NearMarker(e, ViewPatientInfoSymbol, rec, near) then [NurseWheelSelectConfirm(sector, MedicationAt(sector))]
    else if NearMarker(e, EditMedicationsSymbol, rec, near) then [NurseEditMedSelect(sector, MedicationAt(sector))]
    else []
  }

  /** The nurse-wheel selections of every tracked entry, in table order. */
  function NurseSelections(t: Table, rec: Record, sector: nat, near: (Record, Record) -> bool): (out: seq<Message>)
    requires sector < NumWheelSectors
    ensures forall m | m in out ::
      m == NurseWheelSelectConfirm(sector, MedicationAt(sector)) || m == NurseEditMedSelect(sector, MedicationAt(sector))
  {
    if |t| == 0 then []
    else NurseSelections(t[..|t| - 1], rec, sector, near) + NurseSelection(t[|t| - 1], rec, sector, near)
  }

  /** Selections follow the table's iteration order: the messages for a
      table are those for its first part followed by those for the rest. */
  lemma {:induction false} NurseSelectionsAppend(a: Table, b: Table, rec: Record, sector: nat, near: (Record, Record) -> bool)
    requires sector < NumWheelSectors
    ensures NurseSelections(a + b, rec, sector, near)
            == NurseSelections(a, rec, sector, near) + NurseSelections(b, rec, sector, near)
    decreases |b|
  {
    if |b| == 0 {
      assert a + b == a;
    } else {
      var b' := b[..|b| - 1];
      assert (a + b)[..|a + b| - 1] == a + b';
      assert (a + b)[|a + b| - 1] == b[|b| - 1];
      NurseSelectionsAppend(a, b', rec, sector, near);
    }
  }

  lemma NurseSelectionCount(e: Entry, rec: Record, sector: nat, near: (Record, Record) -> bool)
    requires sector < NumWheelSectors
    ensures var one := NurseSelection(e, rec, sector, near);
            && multiset(one)[NurseWheelSelectConfirm(sector, MedicationAt(sector))]
               == (if NearMarker(e, ViewPatientInfoSymbol, rec, near) then 1 else 0)
            && multiset(one)[NurseEditMedSelect(sector, MedicationAt(sector))]
               == (if NearMarker(e, EditMedicationsSymbol, rec, near) then 1 else 0)
            && |one| == (if NearMarker(e, ViewPatientInfoSymbol, rec, near) then 1 else 0)
                        + (if NearMarker(e, EditMedicationsSymbol, rec, near) then 1 else 0)
  {
  }

  /** One patient confirmation per near VIEW_PATIENT_INFO marker and one
      medication selection per near EDIT_MEDICATIONS marker. */
  lemma {:induction false} NurseSelectionsCount(t: Table, rec: Record, sector: nat, near: (Record, Record) -> bool)
    requires sector < NumWheelSectors
    ensures multiset(NurseSelections(t, rec, sector, near))[NurseWheelSelectConfirm(sector, MedicationAt(sector))]
            == |NearMarkers(t, ViewPatientInfoSymbol, rec, near)|
    ensures multiset(NurseSelections(t, rec, sector, near))[NurseEditMedSelect(sector, MedicationAt(sector))]
            == |NearMarkers(t, EditMedicationsSymbol, rec, near)|
    ensures |NurseSelections(t, rec, sector, near)|
            == |NearMarkers(t, ViewPatientInfoSymbol, rec, near)| + |NearMarkers(t, EditMedicationsSymbol, rec, near)|
  {
    if |t| > 0 {
      var p := t[..|t| - 1];
      var e := t[|t| - 1];
      NurseSelectionsCount(p, rec, sector, near);
      NearMarkersLast(t, ViewPatientInfoSymbol, rec, near);
      NearMarkersLast(t, EditMedicationsSymbol, rec, near);
      NurseSelectionCount(e, rec, sector, near);
      var one := NurseSelection(e, rec, sector, near);
      var before := NurseSelections(p, rec, sector, near);
      assert NurseSelections(t, rec, sector, near) == before + one;
      assert multiset(before + one) == multiset(before) + multiset(one);
    }
  }

  /** Whether some tracked NURSE_MODE marker lies near `rec` (the loop that
      breaks at the first one found). */
  function NurseNearby(t: Table, rec: Record, near: (Record, Record) -> bool): (b: bool)
    ensures b <==> exists i | 0 <= i < |t| :: NearMarker(t[i], NurseModeSymbol, rec, near)
  {
    if |t| == 0 then false
    else if NearMarker(t[0], NurseModeSymbol, rec, near) then true
    else
      var b := NurseNearby(t[1..], rec, near);
      assert forall i | 1 <= i < |t| :: t[i] == t[1..][i - 1];
      b
  }

  /** Patient-wheel messages for a ROTATE marker: `wheel_open` on add, then
      on add or update the hover message and the near SELECT confirmations. */
  function RotateMessages(rec: Record, t: Table, geo: Geometry): seq<Message> {
    var opening := if rec.symbolId == RotateSymbol && rec.event == Add then [WheelOpen(rec.x, rec.y)] else [];
    var tracked :=
      if rec.symbolId == RotateSymbol && rec.event.Tracking() then
        var s := Sector(geo.step(rec.angle));
        [WheelHover(s, MedicationAt(s), rec.x, rec.y)] + SelectConfirms(t, rec, s, geo.near)
      else [];
    opening + tracked
  }

  /** Nurse-wheel messages for a NURSE_MODE marker: `nurse_wheel_open` on add,
      then on add or update the hover message and the near selections. */
  function NurseMessages(rec: Record, t: Table, geo: Geometry): seq<Message> {
    var opening := if rec.symbolId == NurseModeSymbol && rec.event == Add then [NurseWheelOpen(rec.x, rec.y)] else [];
    var tracked :=
      if rec.symbolId == NurseModeSymbol && rec.event.Tracking() then
        var s := Sector(geo.step(rec.angle));
        [NurseWheelHover(s, MedicationAt(s), rec.x, rec.y)] + NurseSelections(t, rec, s, geo.near)
      else [];
    opening + tracked
  }

  /** A BACK marker placed: gesture detection off, `back_pressed` sent. */
  function BackReaction(rec: Record, gesture: bool): Reaction {
    if rec.symbolId == BackSymbol && rec.event == Add then Reaction([BackPressed], false)
    else Reaction([], gesture)
  }

  /** An EDIT_MEDICATIONS marker placed away from every nurse marker:
      gesture detection on, and the new flag value announced. */
  function EditReaction(rec: Record, t: Table, gesture: bool, near: (Record, Record) -> bool): Reaction {
    if rec.symbolId == EditMedicationsSymbol && rec.event == Add && !NurseNearby(t, rec, near) then
      Reaction([GestureModeToggled(true)], true)
    else Reaction([], gesture)
  }

  /** `process_logic_and_broadcast`: echo the record, then run the four
      marker rules in source order on the already updated table. */
  function Dispatch(rec: Record, t: Table, gesture: bool, geo: Geometry): (r: Reaction)
    ensures |r.messages| >= 1 && r.messages[0] == TuioObj(rec)
    ensures rec.event == Remove ==> r == Reaction([TuioObj(rec)], gesture)
    ensures rec.symbolId !in {RotateSymbol, NurseModeSymbol, BackSymbol, EditMedicationsSymbol}
            ==> r == Reaction([TuioObj(rec)], gesture)
    ensures r.gestureEnabled != gesture
            ==> rec.event == Add && rec.symbolId in {BackSymbol, EditMedicationsSymbol}
  {
    var back := BackReaction(rec, gesture);
    var edit := EditReaction(rec, t, back.gestureEnabled, geo.near);
    Reaction(
      [TuioObj(rec)] + RotateMessages(rec, t, geo) + NurseMessages(rec, t, geo) + back.messages + edit.messages,
      edit.gestureEnabled)
  }

  /** A ROTATE marker added or moved: `wheel_open` only on add and right
      after the echo, then one hover, then exactly one confirmation per near
      SELECT marker, each naming the hovered sector and medication. */
  lemma RotateDispatch(rec: Record, t: Table, gesture: bool, geo: Geometry)
    requires rec.symbolId == RotateSymbol && rec.event.Tracking()
    ensures var out := Dispatch(rec, t, gesture, geo).messages;
            var s := Sector(geo.step(rec.angle));
            var k := if rec.event == Add then 2 else 1;
            && Dispatch(rec, t, gesture, geo).gestureEnabled == gesture
            && |out| == k + 1 + |NearMarkers(t, SelectSymbol, rec, geo.near)|
            && (forall i | 0 <= i < |out| :: out[i].WheelOpen? <==> rec.event == Add && i == 1)
            && (rec.event == Add ==> out[1] == WheelOpen(rec.x, rec.y))
            && out[k] == WheelHover(s, MedicationAt(s), rec.x, rec.y)
            && forall i | k < i < |out| :: out[i] == WheelSelectConfirm(s, MedicationAt(s))
  {
    var s := Sector(geo.step(rec.angle));
    SelectConfirmsCount(t, rec, s, geo.near);
    var confirms := SelectConfirms(t, rec, s, geo.near);
    var k := if rec.event == Add then 2 else 1;
    var out := Dispatch(rec, t, gesture, geo).messages;
    var head := if rec.event == Add then [TuioObj(rec), WheelOpen(rec.x, rec.y)] else [TuioObj(rec)];
    assert out == head + [WheelHover(s, MedicationAt(s), rec.x, rec.y)] + confirms;
    forall i | k < i < |out| ensures out[i] == WheelSelectConfirm(s, MedicationAt(s)) {
      assert out[i] == confirms[i - k - 1];
      assert confirms[i - k - 1] in confirms;
    }
  }

  /** A tracked NURSE_MODE marker triggers the nurse rule only. */
  lemma NurseOutput(rec: Record, t: Table, gesture: bool, geo: Geometry)
    requires rec.symbolId == NurseModeSymbol && rec.event.Tracking()
    ensures Dispatch(rec, t, gesture, geo) == Reaction([TuioObj(rec)] + NurseMessages(rec, t, geo), gesture)
  {
    assert RotateMessages(rec, t, geo) == [];
    assert BackReaction(rec, gesture) == Reaction([], gesture);
    assert EditReaction(rec, t, gesture, geo.near) == Reaction([], gesture);
  }

  /** The shape of a nurse output: an echo, an optional wheel opening, one
      hover message, then selections that are all `a` or `b`. */
  predicate NurseShape(out: seq<Message>, k: nat, echo: Message, opening: seq<Message>, hover: Message,
                       sel: seq<Message>, a: Message, b: Message)
  {
    && out == [echo] + (opening + ([hover] + sel))
    && k == 1 + |opening|
    && echo.TuioObj? && hover.NurseWheelHover?
    && |opening| <= 1 && (forall m | m in opening :: m.NurseWheelOpen?)
    && a.NurseWheelSelectConfirm? && b.NurseEditMedSelect?
    && forall m | m in sel :: m == a || m == b
  }

  /** In such an output the hover sits at `k` and only selections follow. */
  lemma NurseLayoutHover(out: seq<Message>, k: nat, echo: Message, opening: seq<Message>, hover: Message,
                         sel: seq<Message>, a: Message, b: Message)
    requires NurseShape(out, k, echo, opening, hover, sel, a, b)
    ensures out[k] == hover
    ensures forall i | k < i < |out| :: out[i] == a || out[i] == b
  {
    forall i | k < i < |out| ensures out[i] == a || out[i] == b {
      assert out[i] == sel[i - k - 1];
      assert sel[i - k - 1] in sel;
    }
  }

  /** In such an output the opening, if any, is at index 1 and nowhere else. */
  lemma NurseLayoutOpen(out: seq<Message>, k: nat, echo: Message, opening: seq<Message>, hover: Message,
                        sel: seq<Message>, a: Message, b: Message)
    requires NurseShape(out, k, echo, opening, hover, sel, a, b)
    ensures forall i | 0 <= i < |out| :: out[i].NurseWheelOpen? <==> k == 2 && i == 1
  {
    forall i | 1 <= i < k ensures out[i] == opening[i - 1] {}
    forall i | k < i < |out| ensures !out[i].NurseWheelOpen? {
      assert out[i] == sel[i - k - 1];
      assert sel[i - k - 1] in sel;
    }
  }

  /** In such an output `a` and `b` occur exactly as often as among the
      selections. */
  lemma NurseLayoutCounts(out: seq<Message>, k: nat, echo: Message, opening: seq<Message>, hover: Message,
                          sel: seq<Message>, a: Message, b: Message)
    requires NurseShape(out, k, echo, opening, hover, sel, a, b)
    ensures multiset(out)[a] == multiset(sel)[a]
    ensures multiset(out)[b] == multiset(sel)[b]
  {
    assert multiset(out) == multiset([echo]) + multiset(opening) + multiset([hover]) + multiset(sel);
    assert a !in opening && b !in opening;
  }

  /** The output of a tracked NURSE_MODE marker, as its parts. */
  lemma NurseParts(rec: Record, t: Table, gesture: bool, geo: Geometry)
    requires rec.symbolId == NurseModeSymbol && rec.event.Tracking()
    ensures var s := Sector(geo.step(rec.angle));
            var opening := if rec.event == Add then [NurseWheelOpen(rec.x, rec.y)] else [];
            var hover := NurseWheelHover(s, MedicationAt(s), rec.x, rec.y);
            Dispatch(rec, t, gesture, geo)
            == Reaction([TuioObj(rec)] + (opening + ([hover] + NurseSelections(t, rec, s, geo.near))), gesture)
  {
    NurseOutput(rec, t, gesture, geo);
  }

  /** A NURSE_MODE marker added or moved leaves the gesture flag alone and
      sends, after the echo (and the opening, on add), one hover naming the
      sector's medication followed only by patient confirmations and
      medication selections for that same sector. */
  lemma NurseDispatch(rec: Record, t: Table, gesture: bool, geo: Geometry)
    requires rec.symbolId == NurseModeSymbol && rec.event.Tracking()
    ensures var out := Dispatch(rec, t, gesture, geo).messages;
            var s := Sector(geo.step(rec.angle));
            var k := if rec.event == Add then 2 else 1;
            && Dispatch(rec, t, gesture, geo).gestureEnabled == gesture
            && out[k] == NurseWheelHover(s, MedicationAt(s), rec.x, rec.y)
            && (forall i | k < i < |out| ::
                  out[i] == NurseWheelSelectConfirm(s, MedicationAt(s)) || out[i] == NurseEditMedSelect(s, MedicationAt(s)))
  {
    var s := Sector(geo.step(rec.angle));
    var opening := if rec.event == Add then [NurseWheelOpen(rec.x, rec.y)] else [];
    NurseParts(rec, t, gesture, geo);
    NurseLayoutHover(Dispatch(rec, t, gesture, geo).messages, 1 + |opening|, TuioObj(rec), opening,
                     NurseWheelHover(s, MedicationAt(s), rec.x, rec.y), NurseSelections(t, rec, s, geo.near),
                     NurseWheelSelectConfirm(s, MedicationAt(s)), NurseEditMedSelect(s, MedicationAt(s)));
  }

  /** `nurse_wheel_open` is sent only when the nurse marker is added, and
      then right after the echo. */
  lemma NurseWheelOpenOnAdd(rec: Record, t: Table, gesture: bool, geo: Geometry)
    requires rec.symbolId == NurseModeSymbol && rec.event.Tracking()
    ensures var out := Dispatch(rec, t, gesture, geo).messages;
            && (forall i | 0 <= i < |out| :: out[i].NurseWheelOpen? <==> rec.event == Add && i == 1)
            && (rec.event == Add ==> out[1] == NurseWheelOpen(rec.x, rec.y))
  {
    var s := Sector(geo.step(rec.angle));
    var opening := if rec.event == Add then [NurseWheelOpen(rec.x, rec.y)] else [];
    NurseParts(rec, t, gesture, geo);
    NurseLayoutOpen(Dispatch(rec, t, gesture, geo).messages, 1 + |opening|, TuioObj(rec), opening,
                    NurseWheelHover(s, MedicationAt(s), rec.x, rec.y), NurseSelections(t, rec, s, geo.near),
                    NurseWheelSelectConfirm(s, MedicationAt(s)), NurseEditMedSelect(s, MedicationAt(s)));
  }

  /** A NURSE_MODE marker added or moved sends exactly one patient
      confirmation per near VIEW_PATIENT_INFO marker and exactly one
      medication selection per near EDIT_MEDICATIONS marker. */
  lemma NurseDispatchCounts(rec: Record, t: Table, gesture: bool, geo: Geometry)
    requires rec.symbolId == NurseModeSymbol && rec.event.Tracking()
    ensures var out := Dispatch(rec, t, gesture, geo).messages;
            var s := Sector(geo.step(rec.angle));
            && multiset(out)[NurseWheelSelectConfirm(s, MedicationAt(s))]
               == |NearMarkers(t, ViewPatientInfoSymbol, rec, geo.near)|
            && multiset(out)[NurseEditMedSelect(s, MedicationAt(s))]
               == |NearMarkers(t, EditMedicationsSymbol, rec, geo.near)|
  {
    var s := Sector(geo.step(rec.angle));
    var opening := if rec.event == Add then [NurseWheelOpen(rec.x, rec.y)] else [];
    var hover := NurseWheelHover(s, MedicationAt(s), rec.x, rec.y);
    var sel := NurseSelections(t, rec, s, geo.near);
    NurseParts(rec, t, gesture, geo);
    NurseSelectionsCount(t, rec, s, geo.near);
    NurseLayoutCounts(Dispatch(rec, t, gesture, geo).messages, 1 + |opening|, TuioObj(rec), opening, hover, sel,
                      NurseWheelSelectConfirm(s, MedicationAt(s)), NurseEditMedSelect(s, MedicationAt(s)));
  }

  /** A BACK marker: on add it switches gesture detection off and sends
      `back_pressed` after the echo; otherwise only the echo. */
  lemma BackDispatch(rec: Record, t: Table, gesture: bool, geo: Geometry)
    requires rec.symbolId == BackSymbol
    ensures rec.event == Add ==> Dispatch(rec, t, gesture, geo) == Reaction([TuioObj(rec), BackPressed], false)
    ensures rec.event != Add ==> Dispatch(rec, t, gesture, geo) == Reaction([TuioObj(rec)], gesture)
  {
  }

  /** An EDIT_MEDICATIONS marker: placed with no nurse marker near, it
      switches gesture detection on and announces `enabled = true`; placed
      near a nurse marker, or moved, it leaves flag and output alone. */
  lemma EditDispatch(rec: Record, t: Table, gesture: bool, geo: Geometry)
    requires rec.symbolId == EditMedicationsSymbol
    ensures var nurseNear := exists i | 0 <= i < |t| :: NearMarker(t[i], NurseModeSymbol, rec, geo.near);
            Dispatch(rec, t, gesture, geo)
            == if rec.event == Add && !nurseNear then Reaction([TuioObj(rec), GestureModeToggled(true)], true)
               else Reaction([TuioObj(rec)], gesture)
  {
  }
}

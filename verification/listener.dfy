/** The marker listener: every add, update or remove event from the tracking
    library goes through `HandleObj`, which finds the marker id, builds the
    record, updates the tracked-marker table and runs the dispatch rule. */
module Listener {
  import opened Wrappers
  import opened Markers
  import opened TrackedTable
  import opened Messages
  import opened MarkerLogic

  /** The bridge's shared state that marker events touch. */
  datatype BridgeState = BridgeState(table: Table, gestureEnabled: bool)

  /** The messages one marker event broadcasts and the state it leaves. */
  datatype Handled = Handled(messages: seq<Message>, state: BridgeState)

  /** Add and update store the record under its session id; remove drops it.
      Dictionary order is kept: an updated id stays where it was, a new id
      goes last, and a removal closes the gap without reordering. */
  function UpdateTable(t: Table, rec: Record): (t': Table)
    requires KeysUnique(t)
    ensures KeysUnique(t')
    ensures rec.event.Tracking() ==> AsMap(t') == AsMap(t)[rec.sessionId := rec]
    ensures rec.event == Remove ==> AsMap(t') == AsMap(t) - {rec.sessionId}
    ensures rec.event.Tracking() && rec.sessionId in KeySet(t) ==>
      && |t'| == |t|
      && forall j | 0 <= j < |t| :: t'[j] == if t[j].key == rec.sessionId then Entry(rec.sessionId, rec) else t[j]
    ensures rec.event.Tracking() && rec.sessionId !in KeySet(t) ==> t' == t + [Entry(rec.sessionId, rec)]
    ensures rec.event == Remove && rec.sessionId in KeySet(t) ==>
      exists i | 0 <= i < |t| :: t[i].key == rec.sessionId && t' == t[..i] + t[i + 1..]
    ensures rec.event == Remove && rec.sessionId !in KeySet(t) ==> t' == t
  {
    if rec.event.Tracking() then
      PutSpec(t, rec.sessionId, rec);
      PutOrder(t, rec.sessionId, rec);
      Put(t, rec.sessionId, rec)
    else
      PopSpec(t, rec.sessionId);
      PopOrder(t, rec.sessionId);
      Pop(t, rec.sessionId)
  }

  /** `_handle_obj`. An object without a usable marker id is ignored: no
      message and no change. Otherwise the table is updated first and the
      dispatch rule then sees the updated table. */
  function HandleObj(event: EventKind, obj: TuioObject, st: BridgeState, geo: Geometry): (r: Handled)
    requires KeysUnique(st.table)
    ensures KeysUnique(r.state.table)
    ensures MarkerId(obj).None? ==> r == Handled([], st)
    ensures MarkerId(obj).Some? ==>
      var rec := MakeRecord(event, MarkerId(obj).value, obj);
      && |r.messages| >= 1
      && r.messages[0] == TuioObj(rec)
      && (event.Tracking() ==> AsMap(r.state.table) == AsMap(st.table)[rec.sessionId := rec])
      && (event == Remove ==> AsMap(r.state.table) == AsMap(st.table) - {rec.sessionId})
      && (event == Remove ==> r.messages == [TuioObj(rec)] && r.state.gestureEnabled == st.gestureEnabled)
    ensures MarkerId(obj).Some? ==>
      r.state.table == UpdateTable(st.table, MakeRecord(event, MarkerId(obj).value, obj))
    ensures MarkerId(obj).Some? ==>
      var d := Dispatch(MakeRecord(event, MarkerId(obj).value, obj), r.state.table, st.gestureEnabled, geo);
      r.messages == d.messages && r.state.gestureEnabled == d.gestureEnabled
  {
    match MarkerId(obj)
    case None => Handled([], st)
    case Some(id) =>
      var rec := MakeRecord(event, id, obj);
      var t := UpdateTable(st.table, rec);
      var reaction := Dispatch(rec, t, st.gestureEnabled, geo);
      Handled(reaction.messages, BridgeState(t, reaction.gestureEnabled))
  }

  /** A marker event as delivered by the tracking library. */
  datatype MarkerEvent = MarkerEvent(event: EventKind, obj: TuioObject)

  /** A stream of marker events handled one after the other. */
  function Run(st: BridgeState, evs: seq<MarkerEvent>, geo: Geometry): (r: Handled)
    requires KeysUnique(st.table)
    ensures KeysUnique(r.state.table)
    decreases |evs|
  {
    if |evs| == 0 then Handled([], st)
    else
      var last := evs[|evs| - 1];
      var before := Run(st, evs[..|evs| - 1], geo);
      var step := HandleObj(last.event, last.obj, before.state, geo);
      Handled(before.messages + step.messages, step.state)
  }

  /** The reference meaning of the table: a plain map in which every add or
      update sets the session id's latest record and every remove deletes it. */
  function LatestRecords(m: map<SessionKey, Record>, evs: seq<MarkerEvent>): map<SessionKey, Record>
    decreases |evs|
  {
    if |evs| == 0 then m
    else
      var m' := LatestRecords(m, evs[..|evs| - 1]);
      var e := evs[|evs| - 1];
      match MarkerId(e.obj)
      case None => m'
      case Some(id) =>
        var rec := MakeRecord(e.event, id, e.obj);
        if e.event.Tracking() then m'[rec.sessionId := rec] else m' - {rec.sessionId}
  }

  /** The ordered table always holds exactly the latest record of every
      session id whose last event was not a remove. */
  lemma {:induction false} RunTracksLatest(st: BridgeState, evs: seq<MarkerEvent>, geo: Geometry)
    requires KeysUnique(st.table)
    ensures AsMap(Run(st, evs, geo).state.table) == LatestRecords(AsMap(st.table), evs)
    decreases |evs|
  {
    if |evs| > 0 {
      RunTracksLatest(st, evs[..|evs| - 1], geo);
    }
  }

  /** The reference meaning for one session id: the record of the last event
      for that id, or nothing when that event was a remove. */
  function LatestFor(init: Option<Record>, evs: seq<MarkerEvent>, k: SessionKey): Option<Record>
    decreases |evs|
  {
    if |evs| == 0 then init
    else
      var before := LatestFor(init, evs[..|evs| - 1], k);
      var e := evs[|evs| - 1];
      match MarkerId(e.obj)
      case None => before
      case Some(id) =>
        var rec := MakeRecord(e.event, id, e.obj);
        if rec.sessionId != k then before
        else if e.event.Tracking() then Some(rec)
        else None
  }

  /** Session id by session id: after any stream, looking an id up in the
      table gives the record of the last event for it, or nothing when that
      event was a remove; ids no event touched keep their initial record. */
  lemma {:induction false} RunLookupLatest(st: BridgeState, evs: seq<MarkerEvent>, geo: Geometry, k: SessionKey)
    requires KeysUnique(st.table)
    ensures Lookup(Run(st, evs, geo).state.table, k) == LatestFor(Lookup(st.table, k), evs, k)
    decreases |evs|
  {
    if |evs| > 0 {
      RunLookupLatest(st, evs[..|evs| - 1], geo, k);
      var before := Run(st, evs[..|evs| - 1], geo).state.table;
      var e := evs[|evs| - 1];
      match MarkerId(e.obj)
      case None =>
      case Some(id) =>
        var rec := MakeRecord(e.event, id, e.obj);
        if e.event.Tracking() {
          LookupPut(before, rec.sessionId, rec, k);
        } else {
          LookupPop(before, rec.sessionId, k);
        }
    }
  }

  /** Over any stream, the gesture flag changes only through a BACK or an
      EDIT_MEDICATIONS marker being added: a stream without such an add
      leaves it as it was. */
  lemma {:induction false} RunGestureFrame(st: BridgeState, evs: seq<MarkerEvent>, geo: Geometry)
    requires KeysUnique(st.table)
    requires forall i | 0 <= i < |evs| ::
      evs[i].event == Add ==> MarkerId(evs[i].obj) !in {Some(BackSymbol), Some(EditMedicationsSymbol)}
    ensures Run(st, evs, geo).state.gestureEnabled == st.gestureEnabled
    decreases |evs|
  {
    if |evs| > 0 {
      var prefix := evs[..|evs| - 1];
      assert forall i | 0 <= i < |prefix| :: prefix[i] == evs[i];
      RunGestureFrame(st, prefix, geo);
    }
  }
}

# Sensor bridge of the bedside medication terminal, in Dafny

The bridge sits between a tabletop marker tracker and the medication
terminal. It receives add, update and remove events for fiducial markers,
keeps a table of the markers currently on the surface, and turns each event
into line-delimited JSON messages for the terminal: an echo of the marker
record, wheel open/hover/select messages for the patient (ROTATE, SELECT)
and nurse (NURSE_MODE, VIEW_PATIENT_INFO, EDIT_MEDICATIONS) markers,
`back_pressed` for the BACK marker, and `gesture_mode_toggled` when the
EDIT_MEDICATIONS marker switches hand-gesture time entry on. While gesture
entry is on, a hand tracker moves a candidate dose time around 07:30, keeps
it inside the day and reports it as `HH:MM`.

The model is functional. A marker event is a function from (event, object,
table, gesture flag) to (messages, new table, new flag); the candidate time
is a clamp function and a formatter.

- `Wrappers` — `Option`, and `Attr` for a duck-typed attribute that may be
  missing, with the first-present search behind `hasattr`/`getattr`.
- `Markers` — symbol constants, the medication dictionary, the wheel sector,
  the marker id lookup and the record built for each event.
- `TrackedTable` — the tracked-marker dictionary. It is an insertion-ordered
  sequence of (session id, record) entries with distinct keys, because the
  selection loops visit markers in dictionary order. `AsMap` is the
  plain-map view; put and pop are proved to be map update and map removal.
- `Messages` — one constructor per message `type`.
- `MarkerLogic` — the dispatch rule of `process_logic_and_broadcast`.
- `Listener` — `_handle_obj` (id lookup, table update, dispatch) and runs of
  marker events.
- `CandidateTime` — the 450-minute start, the clamp to 0..1439, `HH:MM`
  rendering with an independent parser, and the time-carrying messages.

Floating-point geometry is an input. The `Geometry` datatype carries
`near(tracked, current)`, which stands for `hypot(dx, dy) < 0.08`. It also
carries `step(angle)`, which stands for `int((angle mod 2 pi) / (2 pi) * 6)`.
The sector is `step % 6`. For a positive divisor Python's `%` and Dafny's
`%` agree. The hand offset is an integer number of minutes: the truncated
`(hand_x - 0.5) * 480`.

Behaviour as the code has it:
- The table is updated before dispatch. The selection loops therefore see
  the current marker itself and every marker still tracked.
- A record goes through the four marker rules in source order. The symbols
  differ, so at most one rule adds messages.
- The EDIT_MEDICATIONS rule's `gesture_mode_toggled` always carries
  `enabled = true`; the closed-palm report carries `enabled = false`.
- A marker object whose first id attribute exists but holds `None` is
  ignored, like one with no id attribute at all.
- The bridge sets the candidate time continuously from the hand position;
  it sends no swipe messages.

The terminal that receives these messages is not part of this model.

## Model

| member | source | states |
|---|---|---|
| Wrappers.FirstPresent | main.py:99-103 | the result is absent exactly when every attribute is absent; otherwise it is an attribute of the list with only absent attributes before it |
| Markers.MarkerId | main.py:99-107 | the id comes from the first of fiducial_id, symbol_id, class_id, pattern_id the object has; none of them, or a `None` value there, gives no id |
| Markers.MakeRecord | main.py:109-122 | the record carries the event and id, the session id or `None`, x from the first present of x, xpos, x_pos and y from the first present of y, ypos, y_pos, each 0.5 when all are missing, and the angle or 0 |
| Markers.Sector | main.py:148-150 | the sector lies in [0, 6), is congruent to the rotation step modulo 6, and equals the step when the step is already in range |
| Markers.WheelSectorsDistinct | main.py:30-39 | six sectors, each naming a different medication; the sector-th name is the one with symbol sector + 1 in insertion order |
| TrackedTable.PutSpec | main.py:124-126 | add/update keeps keys distinct and the map view becomes the old map with the session id set to the new record, everything else unchanged |
| TrackedTable.LookupPut | main.py:124-126 | after add/update, looking up the session id gives the new record and looking up any other id gives what it gave before |
| TrackedTable.PutOrder | main.py:124-126 | overwriting a tracked session id keeps its position and moves no other entry; a new session id is appended last |
| TrackedTable.PopSpec | main.py:127-128 | remove keeps keys distinct, the map view loses exactly that session id, and removing an untracked id leaves the table identical |
| TrackedTable.LookupPop | main.py:127-128 | after remove, the session id is no longer found and every other id looks up as before |
| TrackedTable.PopOrder | main.py:127-128 | removing takes out one entry and keeps the others in their relative order |
| MarkerLogic.SelectConfirms | main.py:165-179 | every message of the SELECT loop is a `wheel_select_confirm` for the hovered sector and its medication |
| MarkerLogic.SelectConfirmsCount | main.py:166-179 | there is exactly one confirmation per tracked SELECT marker near the ROTATE marker |
| MarkerLogic.NurseSelections | main.py:203-230 | every message of the nurse loop is a patient confirmation or a medication-edit selection for the hovered sector |
| MarkerLogic.NurseSelectionsAppend | main.py:204-205 | the nurse loop emits in table order: the messages for a table are those of its first part followed by those of the rest |
| MarkerLogic.NurseSelectionsCount | main.py:205-230 | one patient confirmation per near VIEW_PATIENT_INFO marker and one edit selection per near EDIT_MEDICATIONS marker, nothing else |
| MarkerLogic.NurseNearby | main.py:243-252 | true exactly when some tracked NURSE_MODE marker is near the current record |
| MarkerLogic.Dispatch | main.py:136-261 | the echo comes first; a remove, or a symbol without a rule, gives only the echo and keeps the flag; the flag changes only on a BACK or EDIT_MEDICATIONS add |
| MarkerLogic.RotateDispatch | main.py:142-179 | for ROTATE add/update the flag is kept; `wheel_open` appears only on add, right after the echo, carrying the marker's position; then one hover; then one confirmation per near SELECT marker, all with the hover's sector and medication |
| MarkerLogic.NurseDispatch | main.py:185-230 | for NURSE_MODE add/update the flag is kept; one hover for the sector's medication follows the echo (and opening); after it come only selections for that sector |
| MarkerLogic.NurseWheelOpenOnAdd | main.py:182-183 | `nurse_wheel_open` appears only when the nurse marker is added, and then right after the echo, carrying the marker's position |
| MarkerLogic.NurseDispatchCounts | main.py:203-230 | the output holds one patient confirmation per near VIEW_PATIENT_INFO marker and one edit selection per near EDIT_MEDICATIONS marker |
| MarkerLogic.BackDispatch | main.py:232-238 | a BACK add turns the gesture flag off and sends `back_pressed` after the echo; a BACK update or remove sends only the echo and keeps the flag |
| MarkerLogic.EditDispatch | main.py:240-261 | an EDIT_MEDICATIONS add with no nurse marker near turns the flag on and announces enabled = true; otherwise only the echo and the flag is kept |
| Listener.UpdateTable | main.py:124-128 | add/update sets the session id's record in the map view, remove deletes it, and keys stay distinct; dictionary order is kept: an updated id keeps its position and no other entry moves, a new id is appended, a remove cuts out one entry and keeps the rest in order, and removing an untracked id changes nothing |
| Listener.HandleObj | main.py:95-130 | no id gives no message and no change; otherwise the echo of the built record comes first, the new table is the ordered table update of the built record (so its map view is updated or reduced), the messages and the new flag are exactly the dispatch over the updated table, and a remove changes neither flag nor output beyond the echo |
| Listener.RunTracksLatest | main.py:124-130 | after any stream of events the table holds exactly the latest record of every session id not last removed, as the plain-map reference computes |
| Listener.RunLookupLatest | main.py:124-130 | after any stream, each session id looks up to the record of its last event, to nothing if that event was a remove, and to its initial record if no event touched it |
| Listener.RunGestureFrame | main.py:232-261 | over any stream without a BACK or EDIT_MEDICATIONS add, the gesture flag is unchanged |
| CandidateTime.ClampToDay | main.py:560-561 | the result lies in [0, 1439] and equals the argument when that is already in range |
| CandidateTime.ClampNearest | main.py:560-561 | the clamped value is the in-day minute closest to the argument |
| CandidateTime.ClampMonotone | main.py:553-561 | a hand further right never gives an earlier time |
| CandidateTime.CandidateMinutes | main.py:556-561 | the candidate is 450 plus the offset when that stays in the day, 0 below it, and 1439 above it |
| CandidateTime.DecimalValue | main.py:566 | reading the decimal rendering back gives the number |
| CandidateTime.ZeroPad2 | main.py:564-566 | the padded rendering is all digits, at least two characters, and exactly two below 100 |
| CandidateTime.FormatTimeShape | main.py:564-566 | an in-day minute renders as HH:MM with a colon at index 2, HH at most 23, MM at most 59, and HH * 60 + MM equal to the minute |
| CandidateTime.FormatParseRoundTrip | main.py:398-400 | parsing the rendering of an in-day minute gives that minute back |
| CandidateTime.ParseFormatRoundTrip | main.py:398-400 | every string that parses as a time is the rendering of the parsed minute, which lies in the day |
| CandidateTime.BaseTimeText | main.py:377 | the starting candidate time renders as 07:30 |
| CandidateTime.TimeUpdate | main.py:553-575 | the `gesture_time_update` message carries the clamped candidate, and its text parses back to its minutes |
| CandidateTime.TimeFinal | main.py:398-405 | the `gesture_time_final` message carries the minute, and its text parses back to it |
| CandidateTime.PalmClosed | main.py:519-551 | a closed palm always switches gesture detection off; with a client it sends the final time (its minutes field equal to the minute and its text parsing back to it) and then enabled = false, with none it sends nothing |

## Left out

- Sockets and threads are not modelled: `broadcast` and its pruning of dead clients, `tcp_acceptor`, `client_reader_thread`, `shutdown` and `main`. A broadcast is an element appended to the output sequence.
- The tracking library, including its no-op `refresh` callback, is not modelled. Only the objects it hands to the listener are.
- The camera, MediaPipe landmarks, `DollarRecognizer` and fist detection are floating-point geometry. `PalmClosed` is the reaction once a closed palm has been detected; the detection itself is not modelled.
- The float steps are inputs: the `near` predicate, the rotation `step` and the hand offset in minutes.
- The hover messages leave out their `angle` field (theta, a float). The patient messages' constant `marker: "patient"` is implied by the constructor.
- Locks and interleaving with the hand-tracking thread are not modelled. Neither are the 0.5 s broadcast cooldown or the sleeps. `TimeUpdate` is the message sent when the cooldown has elapsed.
- The hand-tracking loop state (camera open, `gesture_active`, the `q` key) is not modelled. As written, a closed palm is followed on the next pass by a second `gesture_time_final`. That happens because the flag is off while `gesture_active` is still set (main.py:393-405). The model does not show it.
- The exception handler of `_handle_obj` is not modelled. Nothing on the modelled path raises, because ids are integers and coordinates are reals. Attribute values of other Python types are not represented.
- CandidateTime.FormatTime takes a natural number. Only clamped values, which are never negative, reach the formatting, so Python's rendering of negative numbers is not modelled.

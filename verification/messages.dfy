/** The line-delimited JSON messages the bridge broadcasts, one constructor
    per `type` value. */
module Messages {
  import opened Markers

  datatype Message =
    | TuioObj(payload: Record)                                          // "tuio_obj"
    | WheelOpen(x: real, y: real)                                       // "wheel_open", marker "patient"
    | WheelHover(sector: nat, medication: string, x: real, y: real)     // "wheel_hover", marker "patient"
    | WheelSelectConfirm(sector: nat, medication: string)               // "wheel_select_confirm", marker "patient"
    | NurseWheelOpen(x: real, y: real)                                  // "nurse_wheel_open"
    | NurseWheelHover(sector: nat, medication: string, x: real, y: real) // "nurse_wheel_hover"
    | NurseWheelSelectConfirm(sector: nat, item: string)                // "nurse_wheel_select_confirm"
    | NurseEditMedSelect(sector: nat, medication: string)               // "nurse_edit_med_select"
    | BackPressed                                                       // "back_pressed"
    | GestureModeToggled(enabled: bool)                                 // "gesture_mode_toggled"
    | GestureTimeUpdate(time: string, minutes: int)                     // "gesture_time_update"
    | GestureTimeFinal(time: string, minutes: int)                      // "gesture_time_final"

  /** What a piece of bridge logic produces: the messages, in broadcast
      order, and the resulting value of the gesture-detection flag. */
  datatype Reaction = Reaction(messages: seq<Message>, gestureEnabled: bool)
}

/**
 * The door widget: the background authentication attempt, reduced to the
 * signals it emits, and the widget's state machine around it.  The thread is a
 * `running` flag; labels are the texts the widget shows.
 */
module Door {
  import opened Common
  import opened Strings
  import D = Decision
  import Iot

  /** The signals the attempt emits. */
  datatype Signal =
    | StatusUpdate(text: string)
    | AuthenticationComplete(success: bool, user: string, message: string)

  const INIT_STATUS := "Initializing authentication models..."
  const FACE_STATUS := "Capturing and analyzing facial features..."
  const VOICE_STATUS := "Recording and analyzing voice (6 seconds)..."
  const NO_FACE_MESSAGE := "No recognized faces detected"

  function ErrorSignal(detail: string): Signal
  {
    AuthenticationComplete(false, "Error", "Authentication error: " + detail)
  }

  /** The completion signal for a non-empty face set and an identified (or unknown) speaker. */
  function VerdictSignal(faceNames: set<D.Name>, speaker: D.Name): (s: Signal)
    ensures s.AuthenticationComplete?
  {
    var fused := D.AuthenticateUser(faceNames, speaker);
    if fused.authenticated then
      AuthenticationComplete(true, fused.user, "Authentication successful for " + fused.user)
    else
      var message :=
        if speaker == D.UNKNOWN then "Voice not recognized"
        else if speaker !in faceNames then "Face and voice mismatch (voice: " + speaker + ")"
        else "Authentication failed";
      AuthenticationComplete(false, speaker, message)
  }

  /**
   * For a non-empty face set the completion says exactly which rule decided:
   * success carries the speaker, an unknown speaker is "Voice not
   * recognized", any other speaker is a mismatch; "Authentication failed" is
   * never produced.
   */
  lemma VerdictMessages(faceNames: set<D.Name>, speaker: D.Name)
    requires faceNames != {}
    ensures var s := VerdictSignal(faceNames, speaker);
      && (s.success <==> speaker != D.UNKNOWN && speaker in faceNames)
      && (s.success ==> s.user == speaker && s.message == "Authentication successful for " + speaker)
      && (!s.success && speaker == D.UNKNOWN ==> s.message == "Voice not recognized")
      && (!s.success && speaker != D.UNKNOWN ==> s.message == "Face and voice mismatch (voice: " + speaker + ")")
      && s.message != "Authentication failed"
  {
    var s := VerdictSignal(faceNames, speaker);
    if s.success {
      assert s.message[15] == 's' && "Authentication failed"[15] == 'f';
    } else if speaker != D.UNKNOWN {
      assert s.message[..5] == "Face ";
    }
  }

  /** The number of completion signals in a run. */
  function Completions(signals: seq<Signal>): nat
  {
    if |signals| == 0 then 0
    else (if signals[0].AuthenticationComplete? then 1 else 0) + Completions(signals[1..])
  }

  lemma CompletionsAppend(a: seq<Signal>, b: seq<Signal>)
    ensures Completions(a + b) == Completions(a) + Completions(b)
  {
    if |a| > 0 {
      assert (a + b)[1..] == a[1..] + b;
    } else {
      assert a + b == b;
    }
  }

  /** Only status updates, no completion. */
  predicate OnlyStatus(signals: seq<Signal>)
  {
    forall i :: 0 <= i < |signals| ==> signals[i].StatusUpdate?
  }

  /** A run is a few status updates followed by exactly one completion. */
  predicate SettlesOnce(signals: seq<Signal>)
  {
    |signals| > 0 && OnlyStatus(signals[..|signals| - 1]) && Last(signals).AuthenticationComplete?
  }

  lemma SettlesOnceCounts(signals: seq<Signal>)
    requires SettlesOnce(signals)
    ensures Completions(signals) == 1
  {
    var init := signals[..|signals| - 1];
    assert signals == init + [Last(signals)];
    CompletionsAppend(init, [Last(signals)]);
    OnlyStatusCounts(init);
  }

  lemma {:induction false} OnlyStatusCounts(signals: seq<Signal>)
    requires OnlyStatus(signals)
    ensures Completions(signals) == 0
  {
    if |signals| > 0 {
      OnlyStatusCounts(signals[1..]);
    }
  }

  /**
   * `AuthenticationThread.run`: the signals one attempt emits, given what the
   * model load, the camera pass and the recording produced.  An exception
   * anywhere ends the run with an error completion.
   */
  function AuthenticationRun(models: Step, faces: D.FaceCapture, voice: D.VoiceCapture): (signals: seq<Signal>)
    requires D.CaptureWellFormed(faces)
    ensures SettlesOnce(signals)
    ensures Completions(signals) == 1
    ensures faces.Captured? && models.Done? && D.RecognizedFaces(faces) == {} ==>
      signals == [StatusUpdate(INIT_STATUS), StatusUpdate(FACE_STATUS), AuthenticationComplete(false, D.UNKNOWN, NO_FACE_MESSAGE)]
    ensures StatusUpdate(VOICE_STATUS) in signals ==> faces.Captured? && D.RecognizedFaces(faces) != {}
  {
    var statuses := Statuses(models, faces);
    var signals := statuses + [Completion(models, faces, voice)];
    assert signals[..|signals| - 1] == statuses;
    SettlesOnceCounts(signals);
    signals
  }

  /** The status updates an attempt emits before its completion. */
  function Statuses(models: Step, faces: D.FaceCapture): (s: seq<Signal>)
    requires D.CaptureWellFormed(faces)
    ensures OnlyStatus(s)
    ensures StatusUpdate(VOICE_STATUS) in s <==> models.Done? && faces.Captured? && D.RecognizedFaces(faces) != {}
  {
    if models.Raised? then [StatusUpdate(INIT_STATUS)]
    else if faces.CameraFailed? || D.RecognizedFaces(faces) == {} then [StatusUpdate(INIT_STATUS), StatusUpdate(FACE_STATUS)]
    else [StatusUpdate(INIT_STATUS), StatusUpdate(FACE_STATUS), StatusUpdate(VOICE_STATUS)]
  }

  /** The one completion of an attempt: an exception's error, the empty-face rejection, or the verdict. */
  function Completion(models: Step, faces: D.FaceCapture, voice: D.VoiceCapture): (c: Signal)
    requires D.CaptureWellFormed(faces)
    ensures c.AuthenticationComplete?
  {
    match models
    case Raised(d) => ErrorSignal(d)
    case Done =>
      match faces
      case CameraFailed(d) => ErrorSignal(d)
      case Captured(_, _) =>
        var recognized := D.RecognizedFaces(faces);
        if recognized == {} then AuthenticationComplete(false, D.UNKNOWN, NO_FACE_MESSAGE)
        else
          match voice
          case RecordingFailed(d) => ErrorSignal(d)
          case Recorded(path, scoring) => VerdictSignal(recognized, D.ProcessVoice(path, scoring).result.speaker)
  }

  /** The completion of a run. */
  function Outcome(models: Step, faces: D.FaceCapture, voice: D.VoiceCapture): (s: Signal)
    requires D.CaptureWellFormed(faces)
    ensures s.AuthenticationComplete?
  {
    Last(AuthenticationRun(models, faces, voice))
  }

  /** A run succeeds exactly when the fusion of its faces and its speaker accepts, and then carries that user. */
  lemma RunSucceedsIffFused(models: Step, faces: D.FaceCapture, voice: D.VoiceCapture)
    requires D.CaptureWellFormed(faces)
    ensures var s := Outcome(models, faces, voice);
      s.success <==>
        && models.Done? && faces.Captured? && voice.Recorded?
        && D.AuthenticateUser(D.RecognizedFaces(faces), D.ProcessVoice(voice.audioPath, voice.scoring).result.speaker).authenticated
    ensures var s := Outcome(models, faces, voice);
      s.success ==> s.user == D.ProcessVoice(voice.audioPath, voice.scoring).result.speaker
  {
  }

  // ---------------------------------------------------------------------------
  // The widget
  // ---------------------------------------------------------------------------

  /**
   * The widget: whether an attempt is running, the three labels (door status,
   * current action, result), the three buttons' enabled flags, and the door.
   */
  datatype Widget = Widget(
    running: bool,
    statusLabel: string,
    actionLabel: string,
    causeLabel: string,
    openEnabled: bool,
    closeEnabled: bool,
    guestEnabled: bool,
    door: Iot.Controller)

  /** Which of (open, close) `_update_button_states` enables for a status string. */
  datatype Buttons = Buttons(open: bool, close: bool)

  function ButtonStates(status: string): (b: Buttons)
    ensures status == "closed" ==> b == Buttons(true, false)
    ensures status == "opened" ==> b == Buttons(false, true)
    ensures status != "closed" && status != "opened" ==> b == Buttons(true, true)
  {
    if status == "closed" then Buttons(true, false)
    else if status == "opened" then Buttons(false, true)
    else Buttons(true, true)
  }

  /** For a status the controller reports, the enabled buttons are exactly the ones that would move the door. */
  lemma ButtonsOfferOnlyMoves(s: Iot.DoorState)
    ensures ButtonStates(Iot.StatusText(s)).open <==> s != Iot.Opened
    ensures ButtonStates(Iot.StatusText(s)).close <==> s != Iot.Closed
  {
  }

  function ShowStatus(w: Widget, status: string): (r: Widget)
  {
    var b := ButtonStates(status);
    w.(statusLabel := Title(status), openEnabled := b.open, closeEnabled := b.close)
  }

  /**
   * `_update_door_status`: poll the controller, show the titled status, and
   * enable exactly one of open and close, the one that moves the door; with
   * GPIO present that follows the stored door state.  Nothing else changes.
   */
  function UpdateDoorStatus(w: Widget, coin: bool): (r: Widget)
    ensures r.statusLabel == Title(Iot.GetDoorStatus(w.door, coin))
    ensures Buttons(r.openEnabled, r.closeEnabled) == ButtonStates(Iot.GetDoorStatus(w.door, coin))
    ensures r.openEnabled != r.closeEnabled
    ensures w.door.gpio ==> r.statusLabel == Title(Iot.StatusText(w.door.state))
    ensures w.door.gpio ==> (r.openEnabled <==> w.door.state == Iot.Closed)
    ensures r.(statusLabel := w.statusLabel, openEnabled := w.openEnabled, closeEnabled := w.closeEnabled) == w
  {
    ShowStatus(w, Iot.GetDoorStatus(w.door, coin))
  }

  /** The widget as constructed: no attempt, the fallback labels, then one status poll. */
  function NewWidget(door: Iot.Controller, coin: bool): (w: Widget)
    ensures !w.running && w.guestEnabled && w.door == door
    ensures w.actionLabel == "Ready" && w.causeLabel == ""
    ensures w.statusLabel == Title(Iot.GetDoorStatus(door, coin))
    ensures w.openEnabled != w.closeEnabled
  {
    UpdateDoorStatus(Widget(false, "Unknown", "Ready", "", true, true, true, door), coin)
  }

  /**
   * `_authenticate_and_open`: a request while an attempt runs changes
   * nothing; otherwise the attempt starts with open and guest disabled, the
   * result cleared, and the door untouched.
   */
  function RequestOpen(w: Widget): (r: Widget)
    ensures w.running ==> r == w
    ensures !w.running ==> r.running && !r.openEnabled && !r.guestEnabled && r.causeLabel == ""
    ensures r.door == w.door
  {
    if w.running then w
    else w.(running := true, openEnabled := false, guestEnabled := false, causeLabel := "")
  }

  /**
   * `_handle_authentication_result`: the door is opened only on success; the
   * status is polled again and guest access re-enabled whatever the result.
   * The attempt's thread ends when it delivers its result.
   */
  function HandleResult(w: Widget, result: Signal, writeOk: bool, coin: bool): (r: Widget)
    requires result.AuthenticationComplete?
    ensures result.success ==> r.door == Iot.OpenDoor(w.door, writeOk).controller
    ensures !result.success ==> r.door == w.door
    ensures r.causeLabel == result.message && r.actionLabel == ""
    ensures r.guestEnabled && !r.running
  {
    var w1 := w.(actionLabel := "", causeLabel := result.message);
    var w2 :=
      if result.success then
        var a := Iot.OpenDoor(w1.door, writeOk);
        ShowStatus(w1.(door := a.controller), a.reported)
      else w1;
    UpdateDoorStatus(w2, coin).(guestEnabled := true, running := false)
  }

  /** `_close_door`: close unconditionally, with no authentication, whatever the attempt state. */
  function CloseRequest(w: Widget, writeOk: bool): (r: Widget)
    ensures r.door == Iot.CloseDoor(w.door, writeOk).controller
    ensures r.statusLabel == Title(Iot.CloseDoor(w.door, writeOk).reported)
    ensures r.causeLabel == "Door closed manually" && r.actionLabel == ""
    ensures r.running == w.running
  {
    var a := Iot.CloseDoor(w.door, writeOk);
    ShowStatus(w.(door := a.controller), a.reported).(actionLabel := "", causeLabel := "Door closed manually")
  }

  /** `_guest_access`: the administrative override opens the door directly, with no authentication. */
  function GuestOpen(w: Widget, writeOk: bool): (r: Widget)
    ensures r.door == Iot.OpenDoor(w.door, writeOk).controller
    ensures r.statusLabel == Title(Iot.OpenDoor(w.door, writeOk).reported)
    ensures r.causeLabel == "Guest access granted (Admin override)" && r.actionLabel == ""
    ensures r.running == w.running
  {
    var a := Iot.OpenDoor(w.door, writeOk);
    ShowStatus(w.(causeLabel := "Guest access granted (Admin override)", door := a.controller), a.reported)
      .(actionLabel := "")
  }

  /**
   * A whole attempt from the idle widget: the door ends opened exactly when
   * the run succeeds and the servo step works; otherwise it is where it was.
   */
  lemma AttemptOpensOnlyOnSuccess(w: Widget, models: Step, faces: D.FaceCapture, voice: D.VoiceCapture, writeOk: bool, coin: bool)
    requires !w.running && D.CaptureWellFormed(faces)
    ensures var r := HandleResult(RequestOpen(w), Outcome(models, faces, voice), writeOk, coin);
      && (Outcome(models, faces, voice).success && Iot.SetServoAngle(w.door, writeOk) ==> r.door.state == Iot.Opened)
      && (!Outcome(models, faces, voice).success ==> r.door == w.door)
      && !r.running && r.guestEnabled
  {
  }
}

/**
 * The training panel: the background run that trains the selected models and
 * reports progress, status lines and one final result, and the panel state
 * around it (start guard, stop, completion, and the log that keeps its last
 * 100 lines). The trainer's work, the clock and the thread are oracles: each
 * task's outcome and each log timestamp are given.
 */
module TrainPanel {
  import opened Common
  import opened Strings

  /** What one training task ends with. */
  datatype TaskOutcome = Succeeded | Failed | Raised(detail: string)

  /** What a run emits: progress, status lines, the temp-file cleanup, and the final result. */
  datatype Event =
    | Progress(percent: nat)
    | Status(text: string)
    | CleanedUp
    | Complete(success: bool, message: string)

  const UNAVAILABLE := "Training module not available"
  const INIT := "Initializing trainer..."
  const FACE_START := "Training face recognition model..."
  const FACE_OK := "\U{2705} Face recognition training completed"
  const FACE_FAILED := "\U{274C} Face recognition training failed"
  const VOICE_START := "Training voice recognition model..."
  const VOICE_OK := "\U{2705} Voice recognition training completed"
  const VOICE_FAILED := "\U{274C} Voice recognition training failed"
  const CLEANUP := "Cleaning up temporary files..."
  const ALL_OK := "All models trained successfully!"

  /** The number of selected tasks. */
  function TotalTasks(trainFaces: bool, trainVoices: bool): (n: nat)
    ensures n <= 2
    ensures n == 0 <==> !trainFaces && !trainVoices
    ensures n == 2 <==> trainFaces && trainVoices
  {
    (if trainFaces then 1 else 0) + (if trainVoices then 1 else 0)
  }

  /** The number of selected tasks that succeeded. */
  function Successes(trainFaces: bool, trainVoices: bool, face: TaskOutcome, voice: TaskOutcome): (k: nat)
    ensures k <= TotalTasks(trainFaces, trainVoices)
    ensures k == TotalTasks(trainFaces, trainVoices) <==> (trainFaces ==> face == Succeeded) && (trainVoices ==> voice == Succeeded)
  {
    (if trainFaces && face == Succeeded then 1 else 0) + (if trainVoices && voice == Succeeded then 1 else 0)
  }

  /** The message of a run that finished with `k` of `n` tasks successful. */
  function ResultMessage(k: nat, n: nat): string
  {
    if k == n then ALL_OK
    else "Training completed with " + NatToString(k) + "/" + NatToString(n) + " successful"
  }

  /** The run reaches its end without an exception. */
  predicate Normal(available: bool, trainFaces: bool, trainVoices: bool, face: TaskOutcome, voice: TaskOutcome)
  {
    available && !(trainFaces && face.Raised?) && !(trainVoices && voice.Raised?)
  }

  /** The events of one selected task that did not raise. */
  function TaskEvents(start: string, before: nat, outcome: TaskOutcome, ok: string, failed: string, after: nat): seq<Event>
  {
    [Status(start), Progress(before), Status(if outcome == Succeeded then ok else failed), Progress(after)]
  }

  const HEAD := [Status(INIT), Progress(10)]

  /** The face task's events when it is selected and does not raise. */
  function FaceEvents(trainFaces: bool, face: TaskOutcome): seq<Event>
  {
    if trainFaces then TaskEvents(FACE_START, 20, face, FACE_OK, FACE_FAILED, 50) else []
  }

  /** The voice task's events when it is selected and does not raise. */
  function VoiceEvents(trainVoices: bool, voice: TaskOutcome): seq<Event>
  {
    if trainVoices then TaskEvents(VOICE_START, 60, voice, VOICE_OK, VOICE_FAILED, 90) else []
  }

  /** The end of a run without exception: cleanup, full progress, the result. */
  function Finish(k: nat, n: nat): seq<Event>
  {
    [Status(CLEANUP), CleanedUp, Progress(100), Complete(k == n, ResultMessage(k, n))]
  }

  /** The end of a run whose task raised, after announcing that task. */
  function Abort(start: string, percent: nat, detail: string): seq<Event>
  {
    [Status(start), Progress(percent), Complete(false, "Training error: " + detail)]
  }

  /**
   * `TrainingThread.run`: without the trainer module a single failure; else
   * initialize, run the selected tasks in order (face, then voice), clean up
   * and report. An exception in a task ends the run at once with an error
   * result.
   */
  function RunTraining(available: bool, trainFaces: bool, trainVoices: bool, face: TaskOutcome, voice: TaskOutcome)
    : (ev: seq<Event>)
    ensures |ev| > 0 && Last(ev).Complete?
    ensures ev[0] == if available then Status(INIT) else Complete(false, UNAVAILABLE)
  {
    if !available then [Complete(false, UNAVAILABLE)]
    else if trainFaces && face.Raised? then HEAD + Abort(FACE_START, 20, face.detail)
    else if trainVoices && voice.Raised? then HEAD + FaceEvents(trainFaces, face) + Abort(VOICE_START, 60, voice.detail)
    else
      HEAD + FaceEvents(trainFaces, face) + VoiceEvents(trainVoices, voice)
        + Finish(Successes(trainFaces, trainVoices, face, voice), TotalTasks(trainFaces, trainVoices))
  }

  // ---------------------------------------------------------------------------
  // Properties of a run
  // ---------------------------------------------------------------------------

  /** The number of results in a sequence of events. */
  function Results(ev: seq<Event>): nat
  {
    if |ev| == 0 then 0 else (if ev[0].Complete? then 1 else 0) + Results(ev[1..])
  }

  lemma {:induction false} ResultsAppend(a: seq<Event>, b: seq<Event>)
    ensures Results(a + b) == Results(a) + Results(b)
    decreases |a|
  {
    if |a| > 0 {
      assert (a + b)[1..] == a[1..] + b;
      ResultsAppend(a[1..], b);
    } else {
      assert a + b == b;
    }
  }

  /** The progress values of a sequence of events, in order. */
  function Progresses(ev: seq<Event>): seq<nat>
  {
    if |ev| == 0 then [] else (if ev[0].Progress? then [ev[0].percent] else []) + Progresses(ev[1..])
  }

  lemma {:induction false} ProgressesAppend(a: seq<Event>, b: seq<Event>)
    ensures Progresses(a + b) == Progresses(a) + Progresses(b)
    decreases |a|
  {
    if |a| > 0 {
      assert (a + b)[1..] == a[1..] + b;
      ProgressesAppend(a[1..], b);
    } else {
      assert a + b == b;
    }
  }

  lemma ProgressesOfOne(e: Event)
    ensures Progresses([e]) == if e.Progress? then [e.percent] else []
  {
    assert [e][1..] == [];
  }

  /** The progress values of a list of events given one at a time. */
  lemma {:induction false} ProgressesOfEach(ev: seq<Event>)
    ensures |ev| >= 1 ==> Progresses(ev) == Progresses([ev[0]]) + Progresses(ev[1..])
  {
    if |ev| >= 1 {
      assert ev == [ev[0]] + ev[1..];
      ProgressesAppend([ev[0]], ev[1..]);
    }
  }

  predicate NonDecreasing(ps: seq<nat>)
  {
    forall i, j :: 0 <= i < j < |ps| ==> ps[i] <= ps[j]
  }

  /** A sequence whose every step goes up or stays is non-decreasing. */
  lemma {:induction false} StepwiseNonDecreasing(ps: seq<nat>)
    requires forall i :: 0 <= i < |ps| - 1 ==> ps[i] <= ps[i + 1]
    ensures NonDecreasing(ps)
    decreases |ps|
  {
    if |ps| > 1 {
      var tail := ps[1..];
      assert forall i :: 0 <= i < |tail| - 1 ==> tail[i] <= tail[i + 1] by {
        forall i | 0 <= i < |tail| - 1
          ensures tail[i] <= tail[i + 1]
        {
          assert tail[i] == ps[i + 1] && tail[i + 1] == ps[i + 2];
        }
      }
      StepwiseNonDecreasing(tail);
      forall i, j | 0 <= i < j < |ps|
        ensures ps[i] <= ps[j]
      {
        if i == 0 {
          assert ps[0] <= ps[1] == tail[0] && tail[j - 1] == ps[j];
        } else {
          assert tail[i - 1] == ps[i] && tail[j - 1] == ps[j];
        }
      }
    }
  }

  /** Every run reports exactly one result, as its last event. */
  lemma RunReportsOnce(available: bool, trainFaces: bool, trainVoices: bool, face: TaskOutcome, voice: TaskOutcome)
    ensures var ev := RunTraining(available, trainFaces, trainVoices, face, voice);
      |ev| > 0 && Last(ev).Complete? && Results(ev) == 1
  {
    var ev := RunTraining(available, trainFaces, trainVoices, face, voice);
    var init := ev[..|ev| - 1];
    assert ev == init + [Last(ev)];
    ResultsAppend(init, [Last(ev)]);
    NoResultBeforeLast(available, trainFaces, trainVoices, face, voice);
    NoResults(init);
  }

  lemma NoResultBeforeLast(available: bool, trainFaces: bool, trainVoices: bool, face: TaskOutcome, voice: TaskOutcome)
    ensures var ev := RunTraining(available, trainFaces, trainVoices, face, voice);
      |ev| > 0 && forall i :: 0 <= i < |ev| - 1 ==> !ev[i].Complete?
  {
    var ev := RunTraining(available, trainFaces, trainVoices, face, voice);
    var fe, ve := FaceEvents(trainFaces, face), VoiceEvents(trainVoices, voice);
    var pre: seq<Event>;
    if !available {
      pre := [];
    } else if trainFaces && face.Raised? {
      pre := HEAD + [Status(FACE_START), Progress(20)];
    } else if trainVoices && voice.Raised? {
      pre := HEAD + fe + [Status(VOICE_START), Progress(60)];
    } else {
      pre := HEAD + fe + ve + [Status(CLEANUP), CleanedUp, Progress(100)];
    }
    assert ev == pre + [Last(ev)];
    assert forall e :: e in pre ==> !e.Complete?;
    OnlyLastResult(pre, Last(ev));
  }

  /** A sequence whose events before the last are not results has no result before its last event. */
  lemma OnlyLastResult(pre: seq<Event>, last: Event)
    requires forall e :: e in pre ==> !e.Complete?
    ensures forall i :: 0 <= i < |pre + [last]| - 1 ==> !(pre + [last])[i].Complete?
  {
    assert forall i :: 0 <= i < |pre + [last]| - 1 ==> (pre + [last])[i] == pre[i];
  }

  lemma {:induction false} NoResults(ev: seq<Event>)
    requires forall i :: 0 <= i < |ev| ==> !ev[i].Complete?
    ensures Results(ev) == 0
    decreases |ev|
  {
    if |ev| > 0 {
      NoResults(ev[1..]);
    }
  }

  /** The progress values of each part of a run. */
  lemma HeadProgresses()
    ensures Progresses(HEAD) == [10]
  {
    Progresses2(Status(INIT), Progress(10));
    ProgressesOfOne(Progress(10));
  }

  lemma FaceProgresses(trainFaces: bool, face: TaskOutcome)
    ensures Progresses(FaceEvents(trainFaces, face)) == if trainFaces then [20, 50] else []
  {
    var fe := FaceEvents(trainFaces, face);
    if trainFaces { Progresses4(fe[0], fe[1], fe[2], fe[3]); ProgressesOfOne(fe[3]); }
  }

  lemma VoiceProgresses(trainVoices: bool, voice: TaskOutcome)
    ensures Progresses(VoiceEvents(trainVoices, voice)) == if trainVoices then [60, 90] else []
  {
    var ve := VoiceEvents(trainVoices, voice);
    if trainVoices { Progresses4(ve[0], ve[1], ve[2], ve[3]); ProgressesOfOne(ve[3]); }
  }

  lemma FinishProgresses(k: nat, n: nat)
    ensures Progresses(Finish(k, n)) == [100]
  {
    var f := Finish(k, n);
    Progresses2(f[0], f[1]);
    assert f == [f[0], f[1]] + [f[2], f[3]];
    ProgressesAppend([f[0], f[1]], [f[2], f[3]]);
    ProgressesOfEach([f[2], f[3]]);
    assert [f[2], f[3]][1..] == [f[3]];
    ProgressesOfOne(f[1]);
    ProgressesOfOne(f[2]);
    ProgressesOfOne(f[3]);
  }

  lemma AbortProgresses(start: string, percent: nat, detail: string)
    ensures Progresses(Abort(start, percent, detail)) == [percent]
  {
    Progresses3(Status(start), Progress(percent), Complete(false, "Training error: " + detail));
  }

  /** The progress values a run reports, listed. */
  lemma RunProgresses(available: bool, trainFaces: bool, trainVoices: bool, face: TaskOutcome, voice: TaskOutcome)
    ensures var ps := Progresses(RunTraining(available, trainFaces, trainVoices, face, voice));
      var fp: seq<nat> := if trainFaces then [20, 50] else [];
      var vp: seq<nat> := if trainVoices then [60, 90] else [];
      ps == if !available then []
            else if trainFaces && face.Raised? then [10, 20]
            else if trainVoices && voice.Raised? then [10] + fp + [60]
            else [10] + fp + vp + [100]
  {
    var k, n := Successes(trainFaces, trainVoices, face, voice), TotalTasks(trainFaces, trainVoices);
    var fe, ve := FaceEvents(trainFaces, face), VoiceEvents(trainVoices, voice);
    if !available {
      ProgressesOfOne(Complete(false, UNAVAILABLE));
    } else if trainFaces && face.Raised? {
      HeadProgresses();
      AbortProgresses(FACE_START, 20, face.detail);
      ProgressesAppend(HEAD, Abort(FACE_START, 20, face.detail));
    } else if trainVoices && voice.Raised? {
      HeadProgresses();
      FaceProgresses(trainFaces, face);
      AbortProgresses(VOICE_START, 60, voice.detail);
      ProgressesAppend(HEAD, fe);
      ProgressesAppend(HEAD + fe, Abort(VOICE_START, 60, voice.detail));
    } else {
      HeadProgresses();
      FaceProgresses(trainFaces, face);
      VoiceProgresses(trainVoices, voice);
      FinishProgresses(k, n);
      ProgressesAppend(HEAD, fe);
      ProgressesAppend(HEAD + fe, ve);
      ProgressesAppend(HEAD + fe + ve, Finish(k, n));
    }
  }

  /** The progress a run reports never goes down, and a run without exception ends at 100. */
  lemma RunProgressMonotone(available: bool, trainFaces: bool, trainVoices: bool, face: TaskOutcome, voice: TaskOutcome)
    ensures NonDecreasing(Progresses(RunTraining(available, trainFaces, trainVoices, face, voice)))
    ensures Normal(available, trainFaces, trainVoices, face, voice) ==>
      |Progresses(RunTraining(available, trainFaces, trainVoices, face, voice))| > 0
      && Last(Progresses(RunTraining(available, trainFaces, trainVoices, face, voice))) == 100
  {
    RunProgresses(available, trainFaces, trainVoices, face, voice);
    ListedProgresses(Progresses(RunTraining(available, trainFaces, trainVoices, face, voice)),
                     available, trainFaces, trainVoices, face.Raised?, voice.Raised?);
  }

  /** Each progress list a run can report is non-decreasing, and one without exception ends at 100. */
  lemma ListedProgresses(ps: seq<nat>, available: bool, trainFaces: bool, trainVoices: bool, faceRaised: bool, voiceRaised: bool)
    requires var fp: seq<nat> := if trainFaces then [20, 50] else [];
      var vp: seq<nat> := if trainVoices then [60, 90] else [];
      ps == if !available then []
            else if trainFaces && faceRaised then [10, 20]
            else if trainVoices && voiceRaised then [10] + fp + [60]
            else [10] + fp + vp + [100]
    ensures NonDecreasing(ps)
    ensures available && !(trainFaces && faceRaised) && !(trainVoices && voiceRaised) ==> |ps| > 0 && Last(ps) == 100
  {
    assert forall i :: 0 <= i < |ps| - 1 ==> ps[i] <= ps[i + 1];
    StepwiseNonDecreasing(ps);
  }

  lemma Progresses2(a: Event, b: Event)
    requires !a.Progress?
    ensures Progresses([a, b]) == Progresses([b])
  {
    ProgressesOfEach([a, b]);
    ProgressesOfOne(a);
    ProgressesOfOne(b);
    assert [a, b][1..] == [b];
  }

  lemma Progresses3(a: Event, b: Event, c: Event)
    requires !a.Progress? && b.Progress? && !c.Progress?
    ensures Progresses([a, b, c]) == [b.percent]
  {
    ProgressesOfEach([a, b, c]);
    ProgressesOfEach([b, c]);
    ProgressesOfOne(a);
    ProgressesOfOne(b);
    ProgressesOfOne(c);
    assert [a, b, c][1..] == [b, c];
    assert [b, c][1..] == [c];
  }

  lemma Progresses4(a: Event, b: Event, c: Event, d: Event)
    requires !a.Progress? && b.Progress? && !c.Progress?
    ensures Progresses([a, b, c, d]) == [b.percent] + Progresses([d])
  {
    ProgressesOfEach([a, b, c, d]);
    ProgressesOfOne(a);
    assert [a, b, c, d][1..] == [b] + [c, d];
    ProgressesAppend([b], [c, d]);
    ProgressesOfOne(b);
    ProgressesOfEach([c, d]);
    ProgressesOfOne(c);
    assert [c, d][1..] == [d];
  }

  /** Cleanup happens on every run without exception, before the result; a run that raised skips it. */
  lemma RunCleansUpBeforeResult(available: bool, trainFaces: bool, trainVoices: bool, face: TaskOutcome, voice: TaskOutcome)
    ensures var ev := RunTraining(available, trainFaces, trainVoices, face, voice);
      Normal(available, trainFaces, trainVoices, face, voice) <==> CleanedUp in ev
    ensures var ev := RunTraining(available, trainFaces, trainVoices, face, voice);
      forall i :: 0 <= i < |ev| && ev[i] == CleanedUp ==> i < |ev| - 1
  {
  }

  /**
   * The result: success exactly when the run ended normally and every
   * selected task succeeded; a normal run with a failed task reports
   * "Training completed with k/n successful".
   */
  lemma RunResult(available: bool, trainFaces: bool, trainVoices: bool, face: TaskOutcome, voice: TaskOutcome)
    ensures var r := Last(RunTraining(available, trainFaces, trainVoices, face, voice));
      r.Complete? &&
      (r.success <==> Normal(available, trainFaces, trainVoices, face, voice)
                      && Successes(trainFaces, trainVoices, face, voice) == TotalTasks(trainFaces, trainVoices))
    ensures var r := Last(RunTraining(available, trainFaces, trainVoices, face, voice));
      var k, n := Successes(trainFaces, trainVoices, face, voice), TotalTasks(trainFaces, trainVoices);
      Normal(available, trainFaces, trainVoices, face, voice) && k != n ==>
        r.message == "Training completed with " + NatToString(k) + "/" + NatToString(n) + " successful"
  {
  }

  // ---------------------------------------------------------------------------
  // The panel
  // ---------------------------------------------------------------------------

  const MAX_LOG_LINES := 100
  const SELECT_OPTION := "\U{274C} Please select at least one training option"
  const STARTING := "\U{1F680} Starting training process..."
  const STOPPING := "\U{23F9}\U{FE0F} Stopping training..."
  const STOPPED := "Training stopped by user"

  /** The last `n` elements of `xs`, or all of them when there are fewer. */
  function Newest<T>(xs: seq<T>, n: nat): (r: seq<T>)
    ensures |r| == if |xs| > n then n else |xs|
    ensures r == xs[|xs| - |r|..]
  {
    if |xs| > n then xs[|xs| - n..] else xs
  }

  /** A log entry: the timestamp in brackets, then the message. */
  function Entry(ts: string, message: string): string
  {
    "[" + ts + "] " + message
  }

  /**
   * `_add_log`: append the entry as a new paragraph, then keep only the
   * last 100 lines: the lines of the result are the newest lines of the
   * appended text, at most 100 of them.
   */
  function AddLog(log: string, message: string, ts: string): (r: string)
    ensures |Split(r, '\n')| <= MAX_LOG_LINES
    ensures Split(r, '\n') == Newest(Split(Appended(log, Entry(ts, message)), '\n'), MAX_LOG_LINES)
  {
    var text := Appended(log, Entry(ts, message));
    var lines := Split(text, '\n');
    if |lines| > MAX_LOG_LINES then
      var kept := Newest(lines, MAX_LOG_LINES);
      assert forall i :: 0 <= i < |kept| ==> kept[i] == lines[|lines| - MAX_LOG_LINES + i];
      SplitJoin(kept, '\n');
      Join(kept, '\n')
    else
      JoinSplit(text, '\n');
      text
  }

  /** The log text after appending one paragraph. */
  function Appended(log: string, entry: string): string
  {
    if log == "" then entry else log + "\n" + entry
  }

  /** The newest entry survives trimming: the log ends with it. */
  lemma AddLogKeepsNewest(log: string, message: string, ts: string)
    requires '\n' !in message && '\n' !in ts
    ensures Last(Split(AddLog(log, message, ts), '\n')) == Entry(ts, message)
  {
    var entry := Entry(ts, message);
    assert '\n' !in entry;
    var lines := Split(Appended(log, entry), '\n');
    if log != "" {
      SplitConcat(log, entry, '\n');
      assert Appended(log, entry) == log + ['\n'] + entry;
    }
    assert Split(entry, '\n') == [entry];
    assert Last(lines) == entry;
  }

  /** The panel's state: whether a run is going on, the two buttons, the progress bar, and the log. */
  datatype Panel = Panel(running: bool, startEnabled: bool, stopEnabled: bool, progressVisible: bool, progress: nat, log: string)

  /**
   * `_start_training`: nothing while a run is going on; with no task selected
   * only a log line; otherwise the buttons swap, the bar shows 0, and the
   * run starts.
   */
  function StartTraining(p: Panel, trainFaces: bool, trainVoices: bool, ts: string): (q: Panel)
    ensures p.running ==> q == p
    ensures !p.running && !trainFaces && !trainVoices ==> q == p.(log := AddLog(p.log, SELECT_OPTION, ts))
    ensures q.running <==> p.running || trainFaces || trainVoices
    ensures !p.running && q.running ==> !q.startEnabled && q.stopEnabled && q.progressVisible && q.progress == 0
    ensures !p.running && q.running ==> q.log == AddLog(p.log, STARTING, ts)
  {
    if p.running then p
    else if !trainFaces && !trainVoices then p.(log := AddLog(p.log, SELECT_OPTION, ts))
    else Panel(true, false, true, true, 0, AddLog(p.log, STARTING, ts))
  }

  /** `_training_finished`: buttons back, bar hidden, the result logged with its marker. */
  function TrainingFinished(p: Panel, success: bool, message: string, ts: string): (q: Panel)
    ensures !q.running && q.startEnabled && !q.stopEnabled && !q.progressVisible
    ensures q.log == AddLog(p.log, (if success then "\U{1F389} " else "\U{26A0}\U{FE0F} ") + message, ts)
  {
    Panel(false, true, false, false, p.progress, AddLog(p.log, (if success then "\U{1F389} " else "\U{26A0}\U{FE0F} ") + message, ts))
  }

  /** `_stop_training`: only a running run is stopped, and it is finished as a failure. */
  function StopTraining(p: Panel, ts: string): (q: Panel)
    ensures !p.running ==> q == p
    ensures p.running ==> !q.running && q.startEnabled && !q.stopEnabled
    ensures p.running ==> q == TrainingFinished(p.(log := AddLog(p.log, STOPPING, ts)), false, STOPPED, ts)
  {
    if p.running then TrainingFinished(p.(log := AddLog(p.log, STOPPING, ts)), false, STOPPED, ts) else p
  }

  /**
   * The panel's reaction to one event of the run: only a result ends the run
   * and gives the buttons back; a progress value moves the bar and nothing
   * else; the log never grows past its cap.
   */
  function Deliver(p: Panel, e: Event, ts: string): (q: Panel)
    ensures e.Complete? ==> !q.running && q.startEnabled && !q.stopEnabled && !q.progressVisible
    ensures !e.Complete? ==> q.running == p.running && q.startEnabled == p.startEnabled && q.stopEnabled == p.stopEnabled
    ensures e.Progress? ==> q.progress == e.percent && q.log == p.log
    ensures |Split(p.log, '\n')| <= MAX_LOG_LINES ==> |Split(q.log, '\n')| <= MAX_LOG_LINES
  {
    match e
    case Progress(v) => p.(progress := v)
    case Status(text) => p.(log := AddLog(p.log, text, ts))
    case CleanedUp => p
    case Complete(success, message) => TrainingFinished(p, success, message, ts)
  }

  /** The panel after each event in turn: events without a result leave the run's buttons alone. */
  function DeliverAll(p: Panel, ev: seq<Event>, ts: string): (q: Panel)
    ensures (forall i :: 0 <= i < |ev| ==> !ev[i].Complete?) ==>
      q.running == p.running && q.startEnabled == p.startEnabled && q.stopEnabled == p.stopEnabled
    ensures |Split(p.log, '\n')| <= MAX_LOG_LINES ==> |Split(q.log, '\n')| <= MAX_LOG_LINES
    decreases |ev|
  {
    if |ev| == 0 then p
    else
      assert forall i :: 0 <= i < |ev| - 1 ==> ev[1..][i] == ev[i + 1];
      DeliverAll(Deliver(p, ev[0], ts), ev[1..], ts)
  }

  /** After a run's events are delivered the panel is idle again and can start another run. */
  lemma RunLeavesPanelIdle(p: Panel, available: bool, trainFaces: bool, trainVoices: bool, face: TaskOutcome, voice: TaskOutcome, ts: string)
    ensures var q := DeliverAll(p, RunTraining(available, trainFaces, trainVoices, face, voice), ts);
      !q.running && q.startEnabled && !q.stopEnabled && |Split(q.log, '\n')| <= MAX_LOG_LINES
  {
    var ev := RunTraining(available, trainFaces, trainVoices, face, voice);
    RunReportsOnce(available, trainFaces, trainVoices, face, voice);
    DeliverEndsWithResult(p, ev, ts);
  }

  lemma {:induction false} DeliverEndsWithResult(p: Panel, ev: seq<Event>, ts: string)
    requires |ev| > 0 && Last(ev).Complete?
    ensures var q := DeliverAll(p, ev, ts);
      !q.running && q.startEnabled && !q.stopEnabled && |Split(q.log, '\n')| <= MAX_LOG_LINES
    decreases |ev|
  {
    if |ev| > 1 {
      assert Last(ev[1..]) == Last(ev);
      DeliverEndsWithResult(Deliver(p, ev[0], ts), ev[1..], ts);
    }
  }

  /** A panel that refuses to start because nothing is selected stays idle. */
  lemma StartNeedsATask(p: Panel, ts: string)
    requires !p.running
    ensures !StartTraining(p, false, false, ts).running
    ensures StartTraining(p, false, false, ts).startEnabled == p.startEnabled
  {
  }
}

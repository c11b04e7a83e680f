/** The trial sequence of ExperimentController as values: what one pass of
    runTrial does to the controller's counters, its running flag, its screen
    state and the trial records handed to the data manager, and what the
    whole recursion over fillerPattern produces. The controller class in
    Experiment is proved to follow these definitions. */
module Trials {
  import opened JsValues
  import ExperimentUtils

  datatype TrialKind = Image | Filler

  /** How a trial's viewing period ends: after a fixed delay, or when the
      participant asks to continue. */
  datatype Viewing = Timed(ms: int) | Manual

  /** The viewing rule shared by image and filler trials. */
  function ViewingPolicy(imageViewingTime: int): (v: Viewing)
    ensures v.Timed? <==> imageViewingTime > 0
    ensures v.Timed? ==> v.ms == imageViewingTime
  {
    if imageViewingTime > 0 then Timed(imageViewingTime) else Manual
  }

  /** What the page delivers while waitForUserProgression waits. */
  datatype UiEvent = ContinueClick | KeyDown(code: string)

  /** A click on the continue button, or the Space or Enter key. */
  predicate Progresses(e: UiEvent)
  {
    e.ContinueClick? || e.code == "Space" || e.code == "Enter"
  }

  /** The event at which a manual viewing period ends, if any does. */
  function ProgressionPoint(events: seq<UiEvent>): (r: Option<nat>)
    ensures r.Some? ==> r.value < |events| && Progresses(events[r.value])
    ensures r.Some? ==> forall j :: 0 <= j < r.value ==> !Progresses(events[j])
    ensures r.None? ==> forall j :: 0 <= j < |events| ==> !Progresses(events[j])
  {
    if |events| == 0 then None
    else if Progresses(events[0]) then Some(0)
    else
      var rest := ProgressionPoint(events[1..]);
      assert forall j :: 1 <= j < |events| ==> events[j] == events[1..][j - 1];
      match rest
      case None => None
      case Some(i) => Some(i + 1)
  }

  /** Other keys never end the wait, and the wait ends at the first event that may. */
  lemma ProgressionIgnoresOtherKeys(events: seq<UiEvent>, code: string)
    requires code != "Space" && code != "Enter"
    ensures ProgressionPoint([KeyDown(code)] + events) ==
            match ProgressionPoint(events)
            case None => None
            case Some(i) => Some(i + 1)
  {
    var e := [KeyDown(code)] + events;
    assert e[1..] == events;
  }

  /** Where an exception thrown inside a trial leaves it: before the trial's
      counter is incremented (the centre button, startTrial or the stimulus
      lookup threw), after the increment but before recordTrialData, or not at all. */
  datatype Fault = NoFault | BeforeCount | BeforeRecord

  /** The environment's share of one trial: whether and where it throws,
      whether the participant confirms an Escape exit while it runs, and the
      samples stopMouseViewTracking hands back. */
  datatype TrialRun = TrialRun(fault: Fault, exitRequested: bool, mouseData: seq<Point>)

  /** What one trial hands to recordTrialData / recordMouseData: the trial
      index, the kind, the image set or filler index shown and the samples;
      `viewing` is the model's own note of how the trial's wait ended (timed
      or manual), which the code does not record. */
  datatype TrialRecord = TrialRecord(index: nat, kind: TrialKind, stimulus: nat, viewing: Viewing, mouseData: seq<Point>)

  /** What the image manager, the settings and the page fix for a run. */
  datatype Env = Env(fillerPattern: seq<bool>, neutralFillerCount: nat, imageViewingTime: int, screens: set<string>)

  /** The controller state the sequencer reads and writes. */
  datatype Progress = Progress(
    globalTrialNumber: nat,
    imageTrialCounter: nat,
    fillerTrialCounter: nat,
    isExperimentRunning: bool,
    currentState: string,
    records: seq<TrialRecord>)

  /** The code takes the filler index modulo the number of fillers, and plays
      one trial per pattern position. */
  predicate WellFormed(env: Env, runs: seq<TrialRun>)
  {
    env.neutralFillerCount > 0 && |runs| == |env.fillerPattern|
  }

  function KindOf(isFiller: bool): TrialKind
  {
    if isFiller then Filler else Image
  }

  /** showImageTrial, entered with globalTrialNumber already incremented. */
  function ImageTrial(env: Env, p: Progress, run: TrialRun): Progress
    requires p.globalTrialNumber >= 1
  {
    if run.fault == BeforeCount then p
    else
      var counted := p.(imageTrialCounter := p.imageTrialCounter + 1);
      if run.fault == BeforeRecord then counted
      else
        var record := TrialRecord(p.globalTrialNumber - 1, Image, p.imageTrialCounter,
                                  ViewingPolicy(env.imageViewingTime), run.mouseData);
        counted.(records := p.records + [record])
  }

  /** showFillerTrial, entered with globalTrialNumber already incremented. */
  function FillerTrial(env: Env, p: Progress, run: TrialRun): Progress
    requires p.globalTrialNumber >= 1 && env.neutralFillerCount > 0
  {
    if run.fault == BeforeCount then p
    else
      var counted := p.(fillerTrialCounter := p.fillerTrialCounter + 1);
      if run.fault == BeforeRecord then counted
      else
        var record := TrialRecord(p.globalTrialNumber - 1, Filler, p.fillerTrialCounter % env.neutralFillerCount,
                                  ViewingPolicy(env.imageViewingTime), run.mouseData);
        counted.(records := p.records + [record])
  }

  /** emergencyExit: the running flag is cleared and the end screen shown. */
  function EmergencyExit(env: Env, p: Progress): Progress
  {
    p.(isExperimentRunning := false, currentState := ExperimentUtils.ShowScreen("end", env.screens, p.currentState).state)
  }

  /** The screen state finishExperiment leaves: the processing screen, then
      the thank-you screen (every path of the completion workflow ends there). */
  function FinishState(env: Env, state: string): string
  {
    var processing := ExperimentUtils.ShowScreen("processing", env.screens, state).state;
    ExperimentUtils.ShowScreen("thank-you", env.screens, processing).state
  }

  function Finish(env: Env, p: Progress): Progress
  {
    p.(isExperimentRunning := false, currentState := FinishState(env, p.currentState))
  }

  /** One pass of runTrial that does not finish: the trial number is
      advanced first, the pattern entry picks the trial kind, and an Escape
      confirmed while the trial runs triggers emergencyExit. */
  function TrialStep(env: Env, p: Progress, run: TrialRun): Progress
    requires p.globalTrialNumber < |env.fillerPattern| && env.neutralFillerCount > 0
  {
    var q := p.(globalTrialNumber := p.globalTrialNumber + 1);
    var t := if env.fillerPattern[p.globalTrialNumber] then FillerTrial(env, q, run) else ImageTrial(env, q, run);
    if run.exitRequested && t.isExperimentRunning then EmergencyExit(env, t) else t
  }

  /** runTrial from state p to the end of its recursion: it finishes the
      experiment when the pattern is exhausted, and otherwise plays one trial
      and calls itself again only while the experiment is still running. */
  function RunFrom(env: Env, p: Progress, runs: seq<TrialRun>): Progress
    requires WellFormed(env, runs)
    decreases |env.fillerPattern| - p.globalTrialNumber
  {
    if p.globalTrialNumber >= |env.fillerPattern| then Finish(env, p)
    else
      var q := TrialStep(env, p, runs[p.globalTrialNumber]);
      if q.isExperimentRunning then RunFrom(env, q, runs) else q
  }

  /** The state startExperiment hands to runTrial. */
  function Start(env: Env, state: string): Progress
  {
    Progress(0, 0, 0, true, ExperimentUtils.ShowScreen("experiment", env.screens, state).state, [])
  }

  // ---- Reference definitions ----------------------------------------------

  function CountTrue(s: seq<bool>): (n: nat)
    ensures n <= |s|
  {
    if |s| == 0 then 0 else CountTrue(s[..|s| - 1]) + (if s[|s| - 1] then 1 else 0)
  }

  lemma CountTrueStep(s: seq<bool>, k: nat)
    requires k < |s|
    ensures CountTrue(s[..k + 1]) == CountTrue(s[..k]) + (if s[k] then 1 else 0)
  {
    assert s[..k + 1][..k] == s[..k];
  }

  /** The record the k-th trial (0-based) of an undisturbed run produces:
      a filler shows filler CountTrue(prefix) mod the filler count, an image
      trial shows the image set numbered by the image trials before it. */
  function ExpectedRecord(env: Env, runs: seq<TrialRun>, k: nat): TrialRecord
    requires WellFormed(env, runs) && k < |env.fillerPattern|
  {
    var fillersBefore := CountTrue(env.fillerPattern[..k]);
    var stimulus := if env.fillerPattern[k] then fillersBefore % env.neutralFillerCount else k - fillersBefore;
    TrialRecord(k, KindOf(env.fillerPattern[k]), stimulus, ViewingPolicy(env.imageViewingTime), runs[k].mouseData)
  }

  function ExpectedRecords(env: Env, runs: seq<TrialRun>, n: nat): (rs: seq<TrialRecord>)
    requires WellFormed(env, runs) && n <= |env.fillerPattern|
    ensures |rs| == n
  {
    if n == 0 then [] else ExpectedRecords(env, runs, n - 1) + [ExpectedRecord(env, runs, n - 1)]
  }

  lemma {:induction false} ExpectedRecordsAt(env: Env, runs: seq<TrialRun>, n: nat)
    requires WellFormed(env, runs) && n <= |env.fillerPattern|
    ensures forall k :: 0 <= k < n ==> ExpectedRecords(env, runs, n)[k] == ExpectedRecord(env, runs, k)
  {
    if n > 0 {
      ExpectedRecordsAt(env, runs, n - 1);
    }
  }

  /** The state an undisturbed run is in after its first g trials. */
  predicate Exact(env: Env, runs: seq<TrialRun>, p: Progress)
    requires WellFormed(env, runs)
  {
    var g := p.globalTrialNumber;
    g <= |env.fillerPattern|
    && p.fillerTrialCounter == CountTrue(env.fillerPattern[..g])
    && p.imageTrialCounter == g - CountTrue(env.fillerPattern[..g])
    && p.records == ExpectedRecords(env, runs, g)
  }

  /** What holds of every state the sequencer reaches, faults or not: the
      counters never run ahead of the pattern prefix, and the records carry
      strictly increasing indices below the trial number, each of the kind
      the pattern gives its position. */
  predicate Consistent(env: Env, p: Progress)
  {
    var g := p.globalTrialNumber;
    g <= |env.fillerPattern|
    && p.fillerTrialCounter <= CountTrue(env.fillerPattern[..g])
    && p.imageTrialCounter <= g - CountTrue(env.fillerPattern[..g])
    && (forall i :: 0 <= i < |p.records| ==>
          p.records[i].index < g && p.records[i].kind == KindOf(env.fillerPattern[p.records[i].index]))
    && (forall i, j :: 0 <= i < j < |p.records| ==> p.records[i].index < p.records[j].index)
  }

  // ---- One step ------------------------------------------------------------

  /** A trial always advances the trial number by one, even when it throws
      (so a failing trial is not retried); it adds at most one record, at
      the index just taken, of the kind the pattern gives; and only the
      counter of that kind can move, by one. */
  lemma TrialStepEffect(env: Env, p: Progress, run: TrialRun)
    requires p.globalTrialNumber < |env.fillerPattern| && env.neutralFillerCount > 0
    ensures var q := TrialStep(env, p, run);
            var isFiller := env.fillerPattern[p.globalTrialNumber];
            && q.globalTrialNumber == p.globalTrialNumber + 1
            && (run.fault == NoFault ==>
                  q.records == p.records + [TrialRecord(p.globalTrialNumber, KindOf(isFiller),
                                                        if isFiller then p.fillerTrialCounter % env.neutralFillerCount
                                                        else p.imageTrialCounter,
                                                        ViewingPolicy(env.imageViewingTime), run.mouseData)])
            && (run.fault != NoFault ==> q.records == p.records)
            && q.fillerTrialCounter == p.fillerTrialCounter + (if isFiller && run.fault != BeforeCount then 1 else 0)
            && q.imageTrialCounter == p.imageTrialCounter + (if !isFiller && run.fault != BeforeCount then 1 else 0)
            && (q.isExperimentRunning <==> p.isExperimentRunning && !run.exitRequested)
  {
  }

  lemma TrialStepConsistent(env: Env, p: Progress, run: TrialRun)
    requires p.globalTrialNumber < |env.fillerPattern| && env.neutralFillerCount > 0
    requires Consistent(env, p)
    ensures Consistent(env, TrialStep(env, p, run))
  {
    var g := p.globalTrialNumber;
    CountTrueStep(env.fillerPattern, g);
    TrialStepEffect(env, p, run);
  }

  lemma TrialStepExact(env: Env, runs: seq<TrialRun>, p: Progress)
    requires WellFormed(env, runs) && p.globalTrialNumber < |env.fillerPattern|
    requires Exact(env, runs, p) && runs[p.globalTrialNumber].fault == NoFault
    ensures Exact(env, runs, TrialStep(env, p, runs[p.globalTrialNumber]))
  {
    var g := p.globalTrialNumber;
    CountTrueStep(env.fillerPattern, g);
    TrialStepEffect(env, p, runs[g]);
  }

  // ---- The whole recursion ---------------------------------------------------

  /** The recursion always ends with the experiment no longer running, and
      every state it passes through stays consistent. */
  lemma {:induction false} RunFromConsistent(env: Env, p: Progress, runs: seq<TrialRun>)
    requires WellFormed(env, runs) && Consistent(env, p)
    ensures var r := RunFrom(env, p, runs);
            Consistent(env, r) && !r.isExperimentRunning && r.globalTrialNumber >= p.globalTrialNumber
    decreases |env.fillerPattern| - p.globalTrialNumber
  {
    if p.globalTrialNumber < |env.fillerPattern| {
      var q := TrialStep(env, p, runs[p.globalTrialNumber]);
      TrialStepConsistent(env, p, runs[p.globalTrialNumber]);
      if q.isExperimentRunning {
        RunFromConsistent(env, q, runs);
      }
    }
  }

  /** Undisturbed trials: every pattern position is played once, the run
      finishes (processing, then thank-you), and the records are exactly the
      reference sequence. */
  lemma {:induction false} RunFromExact(env: Env, runs: seq<TrialRun>, p: Progress)
    requires WellFormed(env, runs) && Exact(env, runs, p) && p.isExperimentRunning
    requires forall j :: p.globalTrialNumber <= j < |runs| ==> runs[j].fault == NoFault && !runs[j].exitRequested
    ensures var r := RunFrom(env, p, runs);
            && Exact(env, runs, r)
            && r.globalTrialNumber == |env.fillerPattern|
            && !r.isExperimentRunning
            && r.currentState == FinishState(env, p.currentState)
    decreases |env.fillerPattern| - p.globalTrialNumber
  {
    if p.globalTrialNumber < |env.fillerPattern| {
      var q := TrialStep(env, p, runs[p.globalTrialNumber]);
      TrialStepExact(env, runs, p);
      RunFromExact(env, runs, q);
    }
  }

  /** A whole experiment without faults or exits: all trials are recorded
      with indices 0..N-1 in order, the counters add up to the trial number,
      and the filler counter is the number of fillers in the pattern. */
  lemma CompleteExperiment(env: Env, runs: seq<TrialRun>, state: string)
    requires WellFormed(env, runs)
    requires forall j :: 0 <= j < |runs| ==> runs[j].fault == NoFault && !runs[j].exitRequested
    ensures var r := RunFrom(env, Start(env, state), runs);
            && r.globalTrialNumber == |env.fillerPattern|
            && r.imageTrialCounter + r.fillerTrialCounter == r.globalTrialNumber
            && r.fillerTrialCounter == CountTrue(env.fillerPattern)
            && |r.records| == |env.fillerPattern|
            && (forall k :: 0 <= k < |r.records| ==> r.records[k] == ExpectedRecord(env, runs, k))
            && (forall k :: 0 <= k < |r.records| ==> r.records[k].index == k)
            && !r.isExperimentRunning
  {
    var p := Start(env, state);
    assert env.fillerPattern[..0] == [];
    RunFromExact(env, runs, p);
    var r := RunFrom(env, p, runs);
    assert env.fillerPattern[..|env.fillerPattern|] == env.fillerPattern;
    ExpectedRecordsAt(env, runs, |env.fillerPattern|);
  }

  /** Once the flag is cleared no further trial starts: an exit confirmed
      during the trial at position k ends the recursion with trial number
      k + 1, on the state emergencyExit left. */
  lemma {:induction false} ExitStopsRun(env: Env, runs: seq<TrialRun>, p: Progress, k: nat)
    requires WellFormed(env, runs) && p.isExperimentRunning
    requires p.globalTrialNumber <= k < |runs| && runs[k].exitRequested
    requires forall j :: p.globalTrialNumber <= j < k ==> !runs[j].exitRequested
    ensures var r := RunFrom(env, p, runs);
            r.globalTrialNumber == k + 1 && !r.isExperimentRunning
            && r.currentState == ExperimentUtils.ShowScreen("end", env.screens, p.currentState).state
    decreases k - p.globalTrialNumber
  {
    var q := TrialStep(env, p, runs[p.globalTrialNumber]);
    TrialStepEffect(env, p, runs[p.globalTrialNumber]);
    if p.globalTrialNumber < k {
      ExitStopsRun(env, runs, q, k);
    }
  }
}

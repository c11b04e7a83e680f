/** ExperimentController: the controller object whose fields the experiment
    flow updates step by step. The image manager's filler pattern and filler
    count, the viewing time and the screens present on the page are fixed
    when it is built; the data manager is represented by the records it has
    been handed since startExperiment or clearData. */
module Experiment {
  import opened JsValues
  import ExperimentUtils
  import ParticipantForm
  import opened Trials

  /** A keydown event as handleKeyPress reads it. */
  datatype KeyEvent = KeyEvent(code: string, ctrlKey: bool, metaKey: bool, shiftKey: bool)

  /** What handleKeyPress does with a key. */
  datatype KeyAction =
    | OpenParticipantForm
    | StartMain
    | ContinueTrial
    | ExitExperiment
    | ToggleDebug
    | EnableAdmin
    | NoAction

  /** handleKeyPress's dispatch: each action is reached by one key under
      exactly its conditions; an exit needs a running experiment and a
      confirmation. `confirmed` is the participant's answer to
      the exit confirmation (asked only while the experiment runs) and
      `continueVisible` whether the continue button is displayed. */
  function KeyDispatch(event: KeyEvent, currentState: string, isExperimentRunning: bool,
                       confirmed: bool, continueVisible: bool): (a: KeyAction)
    ensures a == ExitExperiment <==> event.code == "Escape" && isExperimentRunning && confirmed
    ensures a == ToggleDebug <==> event.code == "KeyD" && (event.ctrlKey || event.metaKey)
    ensures a == EnableAdmin <==> event.code == "KeyA" && event.ctrlKey && event.shiftKey && currentState == "thank-you"
    ensures a == OpenParticipantForm <==> event.code == "Space" && currentState == "welcome"
    ensures a == StartMain <==> event.code == "Space" && currentState == "transition"
    ensures a == ContinueTrial <==> event.code == "Space" && currentState == "experiment" && continueVisible
    ensures event.code !in {"Space", "Escape", "KeyD", "KeyA"} ==> a == NoAction
  {
    if event.code == "Space" then
      if currentState == "welcome" then OpenParticipantForm
      else if currentState == "transition" then StartMain
      else if currentState == "experiment" && continueVisible then ContinueTrial
      else NoAction
    else if event.code == "Escape" then
      if isExperimentRunning && confirmed then ExitExperiment else NoAction
    else if event.code == "KeyD" then
      if event.ctrlKey || event.metaKey then ToggleDebug else NoAction
    else if event.code == "KeyA" then
      if event.ctrlKey && event.shiftKey && currentState == "thank-you" then EnableAdmin else NoAction
    else NoAction
  }

  /** Participant information as handed to setParticipantInfo. */
  datatype ParticipantInfo = ParticipantInfo(participantId: string, participantEmail: string, session: string)

  class ExperimentController {
    var currentState: string
    var currentTrial: nat
    var fillerTrialCounter: nat
    var globalTrialNumber: nat
    var imageTrialCounter: nat
    var experimentStarted: bool
    var isExperimentRunning: bool
    var debug: bool
    var participantInfo: Option<ParticipantInfo>
    var records: seq<TrialRecord>

    const fillerPattern: seq<bool>
    const neutralFillerCount: nat
    const imageViewingTime: int
    const screens: set<string>

    constructor (fillerPattern: seq<bool>, neutralFillerCount: nat, imageViewingTime: int, screens: set<string>)
      ensures currentState == "welcome" && currentTrial == 0
      ensures globalTrialNumber == 0 && imageTrialCounter == 0 && fillerTrialCounter == 0
      ensures !experimentStarted && !isExperimentRunning && !debug
      ensures participantInfo == None && records == []
      ensures this.fillerPattern == fillerPattern && this.neutralFillerCount == neutralFillerCount
      ensures this.imageViewingTime == imageViewingTime && this.screens == screens
    {
      currentState := "welcome";
      currentTrial := 0;
      fillerTrialCounter := 0;
      globalTrialNumber := 0;
      imageTrialCounter := 0;
      experimentStarted := false;
      isExperimentRunning := false;
      debug := false;
      participantInfo := None;
      records := [];
      this.fillerPattern := fillerPattern;
      this.neutralFillerCount := neutralFillerCount;
      this.imageViewingTime := imageViewingTime;
      this.screens := screens;
    }

    function Env(): Env
      reads this
    {
      Trials.Env(fillerPattern, neutralFillerCount, imageViewingTime, screens)
    }

    /** The part of the controller the trial sequencer works on. */
    function Snapshot(): Progress
      reads this
    {
      Progress(globalTrialNumber, imageTrialCounter, fillerTrialCounter, isExperimentRunning, currentState, records)
    }

    /** The fields the trial sequencer leaves alone. */
    function Others(): (bool, nat, bool, Option<ParticipantInfo>)
      reads this
    {
      (experimentStarted, currentTrial, debug, participantInfo)
    }

    /** showScreen: the state becomes the screen's name only when the page has it. */
    method ShowScreen(screenName: string)
      modifies this
      ensures currentState == ExperimentUtils.ShowScreen(screenName, screens, old(currentState)).state
      ensures Snapshot() == old(Snapshot()).(currentState := currentState)
      ensures Others() == old(Others())
    {
      if screenName in screens {
        currentState := screenName;
      }
    }

    /** handleStartExperiment. */
    method HandleStartExperiment()
      modifies this
      ensures currentState == ExperimentUtils.ShowScreen("participant", screens, old(currentState)).state
      ensures Snapshot() == old(Snapshot()).(currentState := currentState)
      ensures Others() == old(Others())
    {
      ShowScreen("participant");
    }

    /** handleParticipantForm: participant information is set, and loading
        begins, only when the form passes its three checks. */
    method HandleParticipantForm(participantId: string, participantEmail: string, session: string)
      returns (result: ParticipantForm.FormResult)
      modifies this
      ensures result == ParticipantForm.ValidateParticipantForm(participantId, participantEmail, session)
      ensures result.Accepted? ==>
                participantInfo == Some(ParticipantInfo(participantId, participantEmail, session))
                && currentState == ExperimentUtils.ShowScreen("loading", screens, old(currentState)).state
      ensures result.Rejected? ==> participantInfo == old(participantInfo) && currentState == old(currentState)
      ensures Snapshot() == old(Snapshot()).(currentState := currentState)
      ensures experimentStarted == old(experimentStarted) && currentTrial == old(currentTrial) && debug == old(debug)
    {
      result := ParticipantForm.ValidateParticipantForm(participantId, participantEmail, session);
      if result.Accepted? {
        participantInfo := Some(ParticipantInfo(participantId, participantEmail, session));
        ShowScreen("loading");
      }
    }

    /** emergencyExit. */
    method EmergencyExit()
      modifies this
      ensures Snapshot() == Trials.EmergencyExit(Env(), old(Snapshot()))
      ensures Others() == old(Others())
    {
      isExperimentRunning := false;
      ShowScreen("end");
    }

    /** finishExperiment, with the completion workflow's screens. */
    method FinishExperiment()
      modifies this
      ensures Snapshot() == Trials.Finish(Env(), old(Snapshot()))
      ensures Others() == old(Others())
    {
      isExperimentRunning := false;
      ShowScreen("processing");
      ShowScreen("thank-you");
    }

    /** toggleDebugMode. */
    method ToggleDebugMode()
      modifies this
      ensures debug == !old(debug)
      ensures Snapshot() == old(Snapshot())
      ensures experimentStarted == old(experimentStarted) && currentTrial == old(currentTrial)
      ensures participantInfo == old(participantInfo)
    {
      debug := !debug;
    }

    /** showImageTrial: the image set is read from the counter before it is
        incremented, and the trial is recorded at index globalTrialNumber - 1. */
    method ShowImageTrial(run: TrialRun)
      requires globalTrialNumber >= 1
      modifies this
      ensures Snapshot() == ImageTrial(Env(), old(Snapshot()), run)
      ensures Others() == old(Others())
    {
      if run.fault == BeforeCount {
        return;
      }
      var imageSet := imageTrialCounter;
      imageTrialCounter := imageTrialCounter + 1;
      if run.fault == BeforeRecord {
        return;
      }
      var viewing := ViewingPolicy(imageViewingTime);
      records := records + [TrialRecord(globalTrialNumber - 1, Image, imageSet, viewing, run.mouseData)];
    }

    /** showFillerTrial: the filler index cycles with the filler counter. */
    method ShowFillerTrial(run: TrialRun)
      requires globalTrialNumber >= 1 && neutralFillerCount > 0
      modifies this
      ensures Snapshot() == FillerTrial(Env(), old(Snapshot()), run)
      ensures Others() == old(Others())
    {
      var fillerIndex := fillerTrialCounter % neutralFillerCount;
      if run.fault == BeforeCount {
        return;
      }
      fillerTrialCounter := fillerTrialCounter + 1;
      if run.fault == BeforeRecord {
        return;
      }
      var viewing := ViewingPolicy(imageViewingTime);
      records := records + [TrialRecord(globalTrialNumber - 1, Filler, fillerIndex, viewing, run.mouseData)];
    }

    /** One pass of runTrial's body: the trial number is advanced, the
        pattern's kind of trial is shown, and a confirmed Escape during its
        wait exits. */
    method PlayTrial(run: TrialRun)
      requires globalTrialNumber < |fillerPattern| && neutralFillerCount > 0
      modifies this
      ensures Snapshot() == TrialStep(Env(), old(Snapshot()), run)
      ensures Others() == old(Others())
    {
      globalTrialNumber := globalTrialNumber + 1;
      if fillerPattern[globalTrialNumber - 1] {
        ShowFillerTrial(run);
      } else {
        ShowImageTrial(run);
      }
      if run.exitRequested && isExperimentRunning {
        // The Escape key, confirmed, while the trial waits.
        EmergencyExit();
      }
    }

    /** runTrial, its tail recursion written as a loop: the controller ends
        in the state the recursion defines. */
    method RunTrial(runs: seq<TrialRun>)
      requires WellFormed(Env(), runs)
      modifies this
      ensures Snapshot() == RunFrom(Env(), old(Snapshot()), runs)
      ensures Others() == old(Others())
    {
      var continuing := true;
      while continuing && globalTrialNumber < |fillerPattern|
        invariant continuing ==> RunFrom(Env(), Snapshot(), runs) == RunFrom(Env(), old(Snapshot()), runs)
        invariant !continuing ==> Snapshot() == RunFrom(Env(), old(Snapshot()), runs)
        invariant Others() == old(Others())
        decreases |fillerPattern| - globalTrialNumber, continuing
      {
        PlayTrial(runs[globalTrialNumber]);
        continuing := isExperimentRunning;
      }
      if continuing {
        FinishExperiment();
      }
    }

    /** startExperiment: flags set, counters and data reset, the experiment
        screen shown, and the trial recursion run. */
    method StartExperiment(runs: seq<TrialRun>)
      requires WellFormed(Env(), runs)
      modifies this
      ensures Snapshot() == RunFrom(Env(), Start(Env(), old(currentState)), runs)
      ensures experimentStarted && currentTrial == 0
      ensures debug == old(debug) && participantInfo == old(participantInfo)
    {
      experimentStarted := true;
      isExperimentRunning := true;
      currentTrial := 0;
      fillerTrialCounter := 0;
      globalTrialNumber := 0;
      imageTrialCounter := 0;
      records := [];
      ShowScreen("experiment");
      RunTrial(runs);
    }

    /** startMainExperiment: counters reset and the flag cleared, then startExperiment. */
    method StartMainExperiment(runs: seq<TrialRun>)
      requires WellFormed(Env(), runs)
      modifies this
      ensures Snapshot() == RunFrom(Env(), Start(Env(), old(currentState)), runs)
      ensures experimentStarted && currentTrial == 0
      ensures debug == old(debug) && participantInfo == old(participantInfo)
    {
      currentTrial := 0;
      fillerTrialCounter := 0;
      globalTrialNumber := 0;
      imageTrialCounter := 0;
      isExperimentRunning := false;
      StartExperiment(runs);
    }

    /** restartExperiment: the state is set to 'welcome' directly, so it is
        'welcome' even when the page has no welcome screen. */
    method RestartExperiment()
      modifies this
      ensures currentState == "welcome" && currentTrial == 0
      ensures globalTrialNumber == 0 && imageTrialCounter == 0 && fillerTrialCounter == 0
      ensures !experimentStarted && !isExperimentRunning && records == []
      ensures debug == old(debug) && participantInfo == old(participantInfo)
    {
      currentState := "welcome";
      currentTrial := 0;
      fillerTrialCounter := 0;
      globalTrialNumber := 0;
      imageTrialCounter := 0;
      experimentStarted := false;
      isExperimentRunning := false;
      records := [];
      ShowScreen("welcome");
    }

    /** handleKeyPress; a Space on the transition screen starts the main
        experiment, which plays `runs`. */
    method HandleKeyPress(event: KeyEvent, confirmed: bool, continueVisible: bool, runs: seq<TrialRun>)
      returns (action: KeyAction)
      requires WellFormed(Env(), runs)
      modifies this
      ensures action == KeyDispatch(event, old(currentState), old(isExperimentRunning), confirmed, continueVisible)
      ensures action == OpenParticipantForm ==>
                Snapshot() == old(Snapshot()).(currentState := ExperimentUtils.ShowScreen("participant", screens, old(currentState)).state)
      ensures action == StartMain ==> Snapshot() == RunFrom(Env(), Start(Env(), old(currentState)), runs)
      ensures action == ExitExperiment ==> Snapshot() == Trials.EmergencyExit(Env(), old(Snapshot()))
      ensures action == ToggleDebug ==> debug == !old(debug) && Snapshot() == old(Snapshot())
      ensures action == EnableAdmin ==>
                Snapshot() == old(Snapshot()).(currentState := ExperimentUtils.ShowScreen("admin", screens, old(currentState)).state)
      ensures action == ContinueTrial || action == NoAction ==> Snapshot() == old(Snapshot())
      ensures action != ToggleDebug ==> debug == old(debug)
      ensures action != StartMain ==> experimentStarted == old(experimentStarted) && currentTrial == old(currentTrial)
      ensures action == StartMain ==> experimentStarted && currentTrial == 0
      ensures participantInfo == old(participantInfo)
    {
      action := KeyDispatch(event, currentState, isExperimentRunning, confirmed, continueVisible);
      match action {
        case OpenParticipantForm => HandleStartExperiment();
        case StartMain => StartMainExperiment(runs);
        case ContinueTrial =>
        case ExitExperiment => EmergencyExit();
        case ToggleDebug => ToggleDebugMode();
        case EnableAdmin => ShowScreen("admin");
        case NoAction =>
      }
    }
  }
}

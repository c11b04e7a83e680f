/** The stateful helpers of ExperimentUtils: the in-place shuffle, the
    pointer-sensor buffer hand-off, the countdown bookkeeping in the
    activeIntervals / activeTimeouts maps, and the screen switch rule. */
module ExperimentUtils {
  import opened JsValues

  /** shuffleArray: Fisher-Yates from the last cell down; cell i is swapped
      with a cell j chosen in [0, i] (Math.random becomes a free choice). */
  method ShuffleArray<T>(a: array<T>)
    modifies a
    ensures multiset(a[..]) == multiset(old(a[..]))
  {
    var i := a.Length - 1;
    while i > 0
      invariant i < a.Length
      invariant multiset(a[..]) == multiset(old(a[..]))
    {
      var j :| 0 <= j <= i;
      a[i], a[j] := a[j], a[i];
      i := i - 1;
    }
  }

  /** The sensor library's data logger: the samples buffered so far. */
  class DataLogger {
    var data: seq<Point>

    constructor (data: seq<Point>)
      ensures this.data == data
    {
      this.data := data;
    }
  }

  /** The pointer sensor as far as the experiment sees it: whether it is
      tracking and the logger it buffers samples in (possibly absent). */
  class MouseView {
    var tracking: bool
    var datalogger: DataLogger?

    constructor (datalogger: DataLogger?)
      ensures !tracking && this.datalogger == datalogger
    {
      tracking := false;
      this.datalogger := datalogger;
    }

    /** The sensor appends a sample to its buffer while it is tracking. */
    method Record(sample: Point)
      modifies datalogger
      ensures datalogger != null && tracking ==> datalogger.data == old(datalogger.data) + [sample]
      ensures datalogger != null && !tracking ==> datalogger.data == old(datalogger.data)
    {
      if datalogger != null && tracking {
        datalogger.data := datalogger.data + [sample];
      }
    }
  }

  /** startMouseViewTracking: true exactly when the sensor is present and its
      startTracking does not throw (`throws`); a throwing start leaves the
      sensor as it was and gives false. */
  method StartMouseViewTracking(mouseview: MouseView?, throws: bool) returns (started: bool)
    modifies mouseview
    ensures started <==> mouseview != null && !throws
    ensures mouseview != null ==> mouseview.datalogger == old(mouseview.datalogger)
    ensures mouseview != null ==> mouseview.tracking == (if throws then old(mouseview.tracking) else true)
  {
    if mouseview != null {
      if throws {
        return false;
      }
      mouseview.tracking := true;
      return true;
    }
    return false;
  }

  /** stopMouseViewTracking: hands back the buffered samples and leaves the
      buffer empty, so the next trial starts from nothing; an absent sensor
      or an absent logger gives the empty list. When stopTracking throws
      (`throws`), the catch hands back the empty list and the buffer keeps its
      samples. */
  method StopMouseViewTracking(mouseview: MouseView?, throws: bool) returns (mouseData: seq<Point>)
    modifies mouseview, if mouseview == null then null else mouseview.datalogger
    ensures mouseview == null || throws ==> mouseData == []
    ensures mouseview != null ==> mouseview.datalogger == old(mouseview.datalogger)
    ensures mouseview != null && throws ==>
              mouseview.tracking == old(mouseview.tracking)
              && (mouseview.datalogger != null ==> mouseview.datalogger.data == old(mouseview.datalogger.data))
    ensures mouseview != null && !throws ==> !mouseview.tracking
    ensures mouseview != null && !throws && mouseview.datalogger != null ==>
              mouseData == old(mouseview.datalogger.data) && mouseview.datalogger.data == []
    ensures mouseview != null && mouseview.datalogger == null ==> mouseData == []
  {
    mouseData := [];
    if mouseview != null && !throws {
      mouseview.tracking := false;
      if mouseview.datalogger != null {
        mouseData := mouseview.datalogger.data;
        mouseview.datalogger.data := [];
      }
    }
  }

  /** One trial's tracking: start, the samples the sensor takes while the
      trial runs, stop. The stop hands back what was left in the buffer before
      the trial followed by the trial's own samples (none if the sensor was
      not tracking); a throwing stop hands back nothing and leaves all of
      them in the buffer. */
  method TrackTrial(mouseview: MouseView, startThrows: bool, samples: seq<Point>, stopThrows: bool)
    returns (mouseData: seq<Point>)
    modifies mouseview, mouseview.datalogger
    ensures mouseview.datalogger == old(mouseview.datalogger)
    ensures mouseview.datalogger == null ==> mouseData == []
    ensures mouseview.datalogger != null ==>
              var recorded := if startThrows && !old(mouseview.tracking) then [] else samples;
              if stopThrows then
                mouseData == [] && mouseview.datalogger.data == old(mouseview.datalogger.data) + recorded
              else
                mouseData == old(mouseview.datalogger.data) + recorded && mouseview.datalogger.data == []
  {
    var started := StartMouseViewTracking(mouseview, startThrows);
    ghost var tracking := mouseview.tracking;
    for k := 0 to |samples|
      invariant mouseview.datalogger == old(mouseview.datalogger)
      invariant mouseview.tracking == tracking
      invariant mouseview.datalogger != null ==>
                  mouseview.datalogger.data == old(mouseview.datalogger.data) + (if tracking then samples[..k] else [])
    {
      mouseview.Record(samples[k]);
      assert samples[..k + 1] == samples[..k] + [samples[k]];
    }
    assert samples[..|samples|] == samples;
    mouseData := StopMouseViewTracking(mouseview, stopThrows);
  }

  /** Two trials in a row: when the first stop works, each trial hands back
      only its own samples; when it throws, the first trial's samples are
      handed back by the second trial's stop. */
  method TwoTrials(mouseview: MouseView, first: seq<Point>, firstStopThrows: bool, second: seq<Point>)
    returns (firstData: seq<Point>, secondData: seq<Point>)
    modifies mouseview, mouseview.datalogger
    ensures mouseview.datalogger == old(mouseview.datalogger)
    ensures old(mouseview.datalogger) != null && !firstStopThrows ==>
              firstData == old(mouseview.datalogger.data) + first && secondData == second
    ensures old(mouseview.datalogger) != null && firstStopThrows ==>
              firstData == [] && secondData == old(mouseview.datalogger.data) + first + second
  {
    firstData := TrackTrial(mouseview, false, first, firstStopThrows);
    secondData := TrackTrial(mouseview, false, second, false);
  }

  /** Math.ceil(duration / 1000): the seconds a countdown starts from. */
  function CountdownSeconds(duration: int): (seconds: int)
    ensures 1000 * (seconds - 1) < duration <= 1000 * seconds
  {
    -((-duration) / 1000)
  }

  /** The experimentUtils instance: interval and timeout ids by countdown name. */
  class Timers {
    var activeIntervals: map<string, nat>
    var activeTimeouts: map<string, nat>

    constructor ()
      ensures activeIntervals == map[] && activeTimeouts == map[]
    {
      activeIntervals := map[];
      activeTimeouts := map[];
    }

    /** createCountdown: the countdown starts at ceil(duration / 1000) seconds and
        its interval id (chosen by the browser, passed in) is recorded under its name. */
    method CreateCountdown(countdownId: string, duration: int, intervalId: nat) returns (timeLeft: int)
      modifies this
      ensures timeLeft == CountdownSeconds(duration)
      ensures activeIntervals == old(activeIntervals)[countdownId := intervalId]
      ensures activeTimeouts == old(activeTimeouts)
    {
      timeLeft := -((-duration) / 1000);
      activeIntervals := activeIntervals[countdownId := intervalId];
    }

    /** One firing of a countdown's interval: one second less, and at zero the
        interval clears itself and removes its name from activeIntervals. */
    method CountdownTick(countdownId: string, timeLeft: int) returns (remaining: int)
      modifies this
      ensures remaining == timeLeft - 1
      ensures activeIntervals == if remaining <= 0 then old(activeIntervals) - {countdownId} else old(activeIntervals)
      ensures activeTimeouts == old(activeTimeouts)
    {
      remaining := timeLeft - 1;
      if remaining <= 0 {
        activeIntervals := activeIntervals - {countdownId};
      }
    }

    /** hideCountdown: removes that one name and nothing else. */
    method HideCountdown(countdownId: string)
      modifies this
      ensures activeIntervals == old(activeIntervals) - {countdownId}
      ensures forall id :: id in old(activeIntervals) && id != countdownId ==>
                id in activeIntervals && activeIntervals[id] == old(activeIntervals)[id]
      ensures activeTimeouts == old(activeTimeouts)
    {
      if countdownId in activeIntervals {
        activeIntervals := activeIntervals - {countdownId};
      }
    }

    /** cleanup: every interval and every timeout is cleared. */
    method Cleanup()
      modifies this
      ensures activeIntervals == map[] && activeTimeouts == map[]
    {
      activeIntervals := map[];
      activeTimeouts := map[];
    }
  }

  /** Whether a screen was switched to, and the state the switch callback leaves. */
  datatype ScreenSwitch = ScreenSwitch(shown: bool, state: string)

  /** showScreen: the target screen is shown, and the callback told its name,
      only when an element for it exists (`screens` names those elements). */
  function ShowScreen(screenName: string, screens: set<string>, state: string): ScreenSwitch
  {
    if screenName in screens then ScreenSwitch(true, screenName) else ScreenSwitch(false, state)
  }

  /** Switching is idempotent, and a switch to a missing screen changes nothing. */
  lemma ShowScreenIdempotent(screenName: string, screens: set<string>, state: string)
    ensures var once := ShowScreen(screenName, screens, state);
            ShowScreen(screenName, screens, once.state) == once
    ensures screenName !in screens ==> ShowScreen(screenName, screens, state).state == state
    ensures var r := ShowScreen(screenName, screens, state);
            r.shown <==> (screenName in screens && r.state == screenName)
    ensures screenName in screens ==> ShowScreen(screenName, screens, state) == ScreenSwitch(true, screenName)
  {
  }
}

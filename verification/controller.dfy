/** The pause/resume state machine of the view model: the `_isPaused` flag,
    the stored `simulationJob`, and the simulation jobs still running. */
module Controller {
  import opened Wrappers

  /** A simulation job, known only by the order in which it was launched. */
  type JobId = nat

  /** `paused` is `_isPaused`; `job` is `simulationJob`, which keeps pointing
      at a job after it is cancelled; `live` holds the launched jobs not yet
      cancelled; `launched` counts the jobs ever launched and so is also the
      id the next launch receives. */
  datatype RunState = RunState(paused: bool, job: Option<JobId>, live: set<JobId>, launched: nat)

  /** The field initialisers, before `init` runs: `_isPaused` is false and
      `simulationJob` is null. This state claims to run while no job runs,
      so it breaks single flight until `init` toggles. */
  function Fields(): (s: RunState)
    ensures !s.paused && s.job == None && s.live == {} && s.launched == 0
    ensures WellFormed(s) && !SingleFlight(s)
  {
    RunState(false, None, {}, 0)
  }

  /** Every job mentioned was launched earlier. */
  ghost predicate WellFormed(s: RunState) {
    && (forall j :: j in s.live ==> j < s.launched)
    && (s.job.Some? ==> s.job.value < s.launched)
  }

  /** Single flight: a job is live iff the simulation is not paused, and the
      only live job is the stored one. */
  ghost predicate SingleFlight(s: RunState) {
    && (s.live == {} <==> s.paused)
    && (!s.paused ==> s.job.Some? && s.live == {s.job.value})
  }

  ghost predicate Valid(s: RunState) {
    WellFormed(s) && SingleFlight(s)
  }

  /** `togglePauseResume`: flip the flag; when now running, launch a new job
      and store it; when now paused, cancel the stored job, if any. */
  function Toggle(s: RunState): (t: RunState)
    ensures t.paused == !s.paused
    ensures WellFormed(s) ==> WellFormed(t)
    ensures Valid(s) ==> Valid(t)
  {
    var paused := !s.paused;
    if !paused then
      RunState(paused, Some(s.launched), s.live + {s.launched}, s.launched + 1)
    else
      var live := if s.job.Some? then s.live - {s.job.value} else s.live;
      RunState(paused, s.job, live, s.launched)
  }

  /** The constructed view model: `init` toggles once from the field
      initialisers, so it starts paused and no job has ever been launched. */
  function Construct(): (s: RunState)
    ensures s.paused && s.job == None && s.live == {} && s.launched == 0
    ensures Valid(s)
  {
    Toggle(Fields())
  }

  /** At most one simulation job runs at any time. */
  lemma AtMostOneLive(s: RunState)
    requires SingleFlight(s)
    ensures |s.live| <= 1
  {
    if !s.paused {
      assert s.live == {s.job.value};
    }
  }

  /** Toggling twice restores the flag. */
  lemma ToggleTwice(s: RunState)
    ensures Toggle(Toggle(s)).paused == s.paused
  {
  }

  /** Resuming launches exactly one new job, never seen before, and stores it. */
  lemma ResumeLaunchesOne(s: RunState)
    requires Valid(s) && s.paused
    ensures var t := Toggle(s);
      && s.launched !in s.live
      && t.job == Some(s.launched)
      && t.live == s.live + {s.launched} == {s.launched}
  {
  }

  /** Pausing cancels the stored job, leaves no job live and launches none. */
  lemma PauseCancels(s: RunState)
    requires Valid(s) && !s.paused
    ensures var t := Toggle(s);
      && s.job.value in s.live
      && t.live == s.live - {s.job.value} == {}
      && t.launched == s.launched
  {
  }

  /** The state after construction and `n` further toggles: paused iff `n` is
      even, valid throughout, one job launched per resume. */
  method ToggleRepeatedly(n: nat) returns (s: RunState)
    ensures Valid(s)
    ensures s.paused <==> n % 2 == 0
    ensures s.launched == (n + 1) / 2
  {
    s := Construct();
    var i := 0;
    while i < n
      invariant 0 <= i <= n
      invariant Valid(s)
      invariant s.paused <==> i % 2 == 0
      invariant s.launched == (i + 1) / 2
    {
      s := Toggle(s);
      i := i + 1;
    }
  }
}

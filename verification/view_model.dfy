/** The view model as a whole: the reading window together with the
    pause/resume state, the ticks of the simulation jobs, and the statistics
    published from the window. */
module ViewModel {
  import opened Wrappers
  import opened Window
  import opened Aggregates
  import Controller

  datatype Model = Model(readings: seq<Reading>, run: Controller.RunState)

  ghost predicate Valid(m: Model) {
    |m.readings| <= Capacity && Controller.Valid(m.run)
  }

  /** A freshly constructed view model: empty window, paused, no job. */
  function Construct(): (m: Model)
    ensures Valid(m)
    ensures m.readings == [] && m.run.paused && m.run.live == {}
  {
    Model([], Controller.Construct())
  }

  /** `togglePauseResume` leaves the readings alone. */
  function TogglePauseResume(m: Model): (m': Model)
    ensures m'.readings == m.readings
    ensures m'.run.paused == !m.run.paused
    ensures Valid(m) ==> Valid(m')
  {
    m.(run := Controller.Toggle(m.run))
  }

  /** One iteration of the loop of simulation job `job` with the reading it
      generated: a live job pushes it into the window; a cancelled job does
      nothing any more. */
  function Tick(m: Model, job: Controller.JobId, r: Reading): (m': Model)
    ensures m'.run == m.run
    ensures Valid(m) ==> Valid(m')
    ensures m' != m ==> job in m.run.live
    ensures Valid(m) && m' != m ==> !m.run.paused && m.run.job == Some(job)
  {
    if job in m.run.live then m.(readings := Push(m.readings, r)) else m
  }

  /** Job `job` running its loop once per reading in `rs`. */
  function TickAll(m: Model, job: Controller.JobId, rs: seq<Reading>): Model
    decreases |rs|
  {
    if |rs| == 0 then m else TickAll(Tick(m, job, rs[0]), job, rs[1..])
  }

  /** The statistics published for the current window: all absent for the
      empty window, otherwise present and ordered around min and max. */
  function Published(m: Model): (r: Stats)
    ensures r == Stats(None, None, None, None) <==> m.readings == []
    ensures r.current.Some? ==> r.current.value == m.readings[0].value
    ensures m.readings != [] ==>
      && r.current.Some? && r.min.Some? && r.max.Some? && r.average.Some?
      && r.min.value <= r.current.value <= r.max.value
      && r.min.value <= r.average.value <= r.max.value
  {
    StatsConsistent(m.readings);
    StatsOf(m.readings)
  }

  /** While paused, no job changes the window. */
  lemma PausedIsFrozen(m: Model, job: Controller.JobId, rs: seq<Reading>)
    requires Valid(m) && m.run.paused
    ensures TickAll(m, job, rs) == m
    decreases |rs|
  {
    if |rs| > 0 {
      PausedIsFrozen(m, job, rs[1..]);
    }
  }

  /** While running, the ticks of the stored job are exactly the pushes of
      its readings, and the window stays within capacity. */
  lemma {:induction false} RunningTicksPush(m: Model, rs: seq<Reading>)
    requires Valid(m) && !m.run.paused
    ensures TickAll(m, m.run.job.value, rs).readings == PushAll(m.readings, rs)
    ensures Valid(TickAll(m, m.run.job.value, rs))
    decreases |rs|
  {
    if |rs| > 0 {
      var m1 := Tick(m, m.run.job.value, rs[0]);
      assert m1.readings == Push(m.readings, rs[0]);
      RunningTicksPush(m1, rs[1..]);
    }
  }

  /** Right after construction every published statistic is absent. */
  lemma ConstructedPublishesNothing()
    ensures Published(Construct()) == Stats(None, None, None, None)
  {
  }

  /** After a tick of a live job, the published current value is the
      reading just pushed. */
  lemma TickPublishesCurrent(m: Model, job: Controller.JobId, r: Reading)
    requires job in m.run.live
    ensures Published(Tick(m, job, r)).current == Some(r.value)
  {
  }
}

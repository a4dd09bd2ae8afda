/** The backup scheduler's launch and shutdown protocol. Every backup runs as a job of
    its own; launches, the stages of the jobs, and a stop interleave freely. */
module Scheduler {
  import opened Text

  /** Where a job stands. A panic inside the backup is caught and recorded too. */
  datatype Stage = Started | Executing | Recording | Recovering | Recorded | Released | Over

  datatype Job = Job(schedule: string, stage: Stage, appends: nat)

  /** `jobs` is a history of all jobs ever started; `quiesced` says that a stop saw the
      wait group empty. */
  datatype State = State(started: bool, stopped: bool, running: set<string>, waiting: nat,
                         jobs: map<nat, Job>, quiesced: bool)

  const INITIAL := State(false, false, {}, 0, map[], false)

  datatype Action =
    | Start
    | Launch(job: nat, schedule: string)
    | Refuse(schedule: string)
    | Begin(job: nat)
    | Return(job: nat)
    | Panic(job: nat)
    | Record(job: nat)
    | Release(job: nat)
    | Finish(job: nat)
    | Stop
    | Join

  predicate At(s: State, job: nat, stage: Stage) {
    job in s.jobs && s.jobs[job].stage == stage
  }

  /** `launch` starts a job unless the scheduler is stopped or the schedule is in flight. */
  predicate MayLaunch(s: State, schedule: string) {
    !s.stopped && schedule !in s.running
  }

  predicate Enabled(s: State, a: Action) {
    match a
    case Start => true
    case Launch(j, schedule) => j !in s.jobs && MayLaunch(s, schedule)
    case Refuse(schedule) => !MayLaunch(s, schedule)
    case Begin(j) => At(s, j, Started)
    case Return(j) => At(s, j, Executing)
    case Panic(j) => At(s, j, Executing)
    case Record(j) => At(s, j, Recording) || At(s, j, Recovering)
    case Release(j) => At(s, j, Recorded)
    case Finish(j) => At(s, j, Released)
    case Stop => true
    case Join => s.stopped && s.waiting == 0
  }

  function Advance(s: State, j: nat, stage: Stage): State
    requires j in s.jobs
  {
    s.(jobs := s.jobs[j := s.jobs[j].(stage := stage)])
  }

  function Do(s: State, a: Action): State
    requires Enabled(s, a)
  {
    match a
    case Start => s.(started := true)
    case Launch(j, schedule) =>
      s.(running := s.running + {schedule}, waiting := s.waiting + 1, jobs := s.jobs[j := Job(schedule, Started, 0)])
    case Refuse(_) => s
    case Begin(j) => Advance(s, j, Executing)
    case Return(j) => Advance(s, j, Recording)
    case Panic(j) => Advance(s, j, Recovering)
    case Record(j) => s.(jobs := s.jobs[j := s.jobs[j].(stage := Recorded, appends := s.jobs[j].appends + 1)])
    case Release(j) => Advance(s, j, Released).(running := s.running - {s.jobs[j].schedule})
    case Finish(j) => Advance(s, j, Over).(waiting := if s.waiting > 0 then s.waiting - 1 else 0)
    case Stop => s.(started := false, stopped := true)
    case Join => s.(quiesced := true)
  }

  ghost predicate Reaches(s: State, acts: seq<Action>, t: State)
    decreases |acts|
  {
    if acts == [] then t == s
    else Enabled(s, acts[0]) && Reaches(Do(s, acts[0]), acts[1..], t)
  }

  // ---- what every step keeps ----

  /** The job still holds its schedule's place in `running`. */
  predicate Holds(j: Job) {
    !j.stage.Released? && !j.stage.Over?
  }

  /** A job that holds its place is listed as running, and two such jobs have
      different schedules. */
  ghost predicate HoldersListed(s: State) {
    && (forall j :: j in s.jobs && Holds(s.jobs[j]) ==> s.jobs[j].schedule in s.running)
    && (forall i, j :: i in s.jobs && j in s.jobs && i != j && Holds(s.jobs[i]) && Holds(s.jobs[j]) ==>
          s.jobs[i].schedule != s.jobs[j].schedule)
  }

  ghost predicate HeldBySome(s: State, x: string) {
    exists j :: j in s.jobs && Holds(s.jobs[j]) && s.jobs[j].schedule == x
  }

  /** `running` is exactly the schedules of the jobs that hold their place. */
  ghost predicate PlacesInv(s: State) {
    HoldersListed(s) && forall x :: x in s.running ==> HeldBySome(s, x)
  }

  function Unfinished(jobs: map<nat, Job>): set<nat> {
    set j | j in jobs && !jobs[j].stage.Over?
  }

  /** The wait group counts the jobs that are not over. */
  ghost predicate WaitInv(s: State) {
    s.waiting == |Unfinished(s.jobs)|
  }

  predicate Attempted(j: Job) {
    j.stage.Recorded? || j.stage.Released? || j.stage.Over?
  }

  /** A history entry is appended once, after the backup has returned or panicked. */
  ghost predicate AppendInv(s: State) {
    forall j :: j in s.jobs ==> s.jobs[j].appends == if Attempted(s.jobs[j]) then 1 else 0
  }

  ghost predicate QuietInv(s: State) {
    s.quiesced ==> s.stopped && s.waiting == 0
  }

  ghost predicate Inv(s: State) {
    PlacesInv(s) && WaitInv(s) && AppendInv(s) && QuietInv(s)
  }

  lemma HoldersStep(s: State, a: Action)
    requires Enabled(s, a) && HoldersListed(s)
    ensures HoldersListed(Do(s, a))
  {
  }

  lemma HeldStep(s: State, a: Action, x: string)
    requires Enabled(s, a) && HoldersListed(s) && x in Do(s, a).running && (x in s.running ==> HeldBySome(s, x))
    ensures HeldBySome(Do(s, a), x)
  {
    var t := Do(s, a);
    if x in s.running {
      var j :| j in s.jobs && Holds(s.jobs[j]) && s.jobs[j].schedule == x;
      assert j in t.jobs && Holds(t.jobs[j]) && t.jobs[j].schedule == x;
    } else {
      assert t.jobs[a.job].schedule == x;
    }
  }

  lemma PlacesStep(s: State, a: Action)
    requires Enabled(s, a) && PlacesInv(s)
    ensures PlacesInv(Do(s, a))
  {
    hide HoldersListed, HeldBySome, Do, Enabled;
    HoldersStep(s, a);
    forall x | x in Do(s, a).running ensures HeldBySome(Do(s, a), x) {
      HeldStep(s, a, x);
    }
  }

  lemma WaitStep(s: State, a: Action)
    requires Enabled(s, a) && WaitInv(s)
    ensures WaitInv(Do(s, a))
  {
    var t := Do(s, a);
    if a.Launch? {
      assert Unfinished(t.jobs) == Unfinished(s.jobs) + {a.job};
    } else if a.Finish? {
      assert a.job in Unfinished(s.jobs);
      assert Unfinished(t.jobs) == Unfinished(s.jobs) - {a.job};
    } else {
      assert Unfinished(t.jobs) == Unfinished(s.jobs);
    }
  }

  lemma AppendStep(s: State, a: Action)
    requires Enabled(s, a) && AppendInv(s)
    ensures AppendInv(Do(s, a))
  {
  }

  lemma InvStep(s: State, a: Action)
    requires Enabled(s, a) && Inv(s)
    ensures Inv(Do(s, a))
  {
    hide PlacesInv, WaitInv, AppendInv;
    PlacesStep(s, a);
    WaitStep(s, a);
    AppendStep(s, a);
  }

  lemma {:induction false} InvRun(s: State, acts: seq<Action>, t: State)
    requires Inv(s) && Reaches(s, acts, t)
    ensures Inv(t)
    decreases |acts|
  {
    hide Inv, Do, Enabled;
    if acts != [] {
      InvStep(s, acts[0]);
      InvRun(Do(s, acts[0]), acts[1..], t);
    }
  }

  lemma InvReached(acts: seq<Action>, t: State)
    requires Reaches(INITIAL, acts, t)
    ensures Inv(t)
  {
    hide Reaches;
    assert Unfinished(INITIAL.jobs) == {};
    InvRun(INITIAL, acts, t);
  }

  // ---- the protocol's promises ----

  /** Mutual exclusion: in every interleaving at most one job per schedule is inside the
      backup. */
  lemma OneBackupPerSchedule(acts: seq<Action>, t: State, i: nat, j: nat)
    requires Reaches(INITIAL, acts, t)
    requires At(t, i, Executing) && At(t, j, Executing) && t.jobs[i].schedule == t.jobs[j].schedule
    ensures i == j
  {
    hide Reaches, WaitInv, AppendInv;
    InvReached(acts, t);
  }

  /** A launch is refused exactly when the scheduler is stopped or some job of the
      schedule still holds its place. */
  lemma RefusedExactlyWhenBusy(acts: seq<Action>, t: State, schedule: string)
    requires Reaches(INITIAL, acts, t)
    ensures Enabled(t, Refuse(schedule)) <==> t.stopped || HeldBySome(t, schedule)
  {
    hide Reaches, WaitInv, AppendInv;
    InvReached(acts, t);
  }

  /** The wait group's count is the number of jobs not yet over, and each job has
      attempted exactly one history entry once it has recorded, none before. */
  lemma CountsAreExact(acts: seq<Action>, t: State)
    requires Reaches(INITIAL, acts, t)
    ensures t.waiting == |Unfinished(t.jobs)|
    ensures forall j :: j in t.jobs ==> t.jobs[j].appends == if Attempted(t.jobs[j]) then 1 else 0
  {
    hide Reaches, PlacesInv;
    InvReached(acts, t);
  }

  /** Once stopped, no job starts and the count never rises. */
  lemma {:induction false} NothingStartsAfterStop(s: State, acts: seq<Action>, t: State)
    requires s.stopped && Reaches(s, acts, t)
    ensures t.stopped && t.jobs.Keys == s.jobs.Keys && t.waiting <= s.waiting
    decreases |acts|
  {
    if acts != [] {
      StoppedStep(s, acts[0]);
      hide Do, Enabled;
      NothingStartsAfterStop(Do(s, acts[0]), acts[1..], t);
    }
  }

  lemma StoppedStep(s: State, a: Action)
    requires s.stopped && Enabled(s, a)
    ensures Do(s, a).stopped && Do(s, a).jobs.Keys == s.jobs.Keys && Do(s, a).waiting <= s.waiting
  {
  }

  /** When a stop has seen the wait group empty, every job is over, for good, and has
      left its one history entry. */
  lemma StoppedMeansQuiet(acts: seq<Action>, s: State, more: seq<Action>, t: State)
    requires Reaches(INITIAL, acts, s) && s.quiesced && Reaches(s, more, t)
    ensures t.jobs.Keys == s.jobs.Keys
    ensures forall j :: j in t.jobs ==> t.jobs[j].stage.Over? && t.jobs[j].appends == 1
  {
    hide Reaches, PlacesInv;
    InvReached(acts, s);
    InvRun(s, more, t);
    NothingStartsAfterStop(s, more, t);
    EmptyHasNone(Unfinished(t.jobs));
    forall j | j in t.jobs ensures t.jobs[j].stage.Over? {
      assert j !in Unfinished(t.jobs);
    }
  }

  lemma EmptyHasNone(s: set<nat>)
    ensures |s| == 0 ==> s == {}
  {
  }

  // ---- the scheduler object ----

  datatype RunResult = Launched | NotFound | AlreadyRunning

  class Scheduler {
    var started: bool
    var stopped: bool
    var running: map<string, bool>
    var waiting: nat
    /** The protocol state that this object implements. */
    ghost var spec: State

    ghost predicate Valid() reads this {
      && spec.started == started && spec.stopped == stopped && spec.waiting == waiting
      && (forall x :: x in running ==> running[x])
      && spec.running == running.Keys && Inv(spec)
    }

    constructor ()
      ensures Valid() && spec == INITIAL
    {
      started, stopped := false, false;
      running := map[];
      waiting := 0;
      spec := INITIAL;
      new;
      assert Unfinished(INITIAL.jobs) == {};
    }

    /** Take the schedule's place and a seat in the wait group, or refuse. */
    method Launch(schedule: string, ghost job: nat) returns (ok: bool)
      requires Valid() && job !in spec.jobs
      modifies this
      ensures Valid() && (ok <==> MayLaunch(old(spec), schedule))
      ensures spec == Do(old(spec), if ok then Action.Launch(job, schedule) else Refuse(schedule))
    {
      hide Inv;
      if stopped || (schedule in running && running[schedule]) {
        return false;
      }
      InvStep(spec, Action.Launch(job, schedule));
      spec := Do(spec, Action.Launch(job, schedule));
      running := running[schedule := true];
      waiting := waiting + 1;
      ok := true;
    }

    /** A manual run: unknown schedules and busy ones are told apart. */
    method RunNow(known: set<string>, schedule: string, ghost job: nat) returns (r: RunResult)
      requires Valid() && job !in spec.jobs
      modifies this
      ensures Valid()
      ensures r == if schedule !in known then NotFound
                   else if MayLaunch(old(spec), schedule) then Launched else AlreadyRunning
      ensures spec == if r.Launched? then Do(old(spec), Action.Launch(job, schedule)) else old(spec)
    {
      hide Inv;
      if schedule !in known {
        return NotFound;
      }
      var ok := Launch(schedule, job);
      r := if ok then Launched else AlreadyRunning;
    }

    /** The deferred clean-up of a job: give the place back. */
    method Release(schedule: string, ghost job: nat)
      requires Valid() && At(spec, job, Recorded) && spec.jobs[job].schedule == schedule
      modifies this`running, this`spec
      ensures Valid() && spec == Do(old(spec), Action.Release(job))
    {
      hide Inv;
      InvStep(spec, Action.Release(job));
      spec := Do(spec, Action.Release(job));
      running := running - {schedule};
    }

    /** `wg.Done()` never takes the counter below zero. */
    method Finish(ghost job: nat)
      requires Valid() && At(spec, job, Released)
      modifies this`waiting, this`spec
      ensures Valid() && spec == Do(old(spec), Action.Finish(job)) && old(waiting) > 0
    {
      hide PlacesInv, AppendInv;
      assert job in Unfinished(spec.jobs);
      InvStep(spec, Action.Finish(job));
      spec := Do(spec, Action.Finish(job));
      waiting := waiting - 1;
    }

    method Stop()
      requires Valid()
      modifies this`started, this`stopped, this`spec
      ensures Valid() && spec == Do(old(spec), Action.Stop)
    {
      hide Inv;
      InvStep(spec, Action.Stop);
      spec := Do(spec, Action.Stop);
      started := false;
      stopped := true;
    }
  }
}

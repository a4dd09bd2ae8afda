/** The speed test service: background jobs that write one shared status, each under
    the generation token it was started with. A job that hangs is superseded; what it
    still does afterwards must not be seen. */
module SpeedTest {
  import opened Text

  datatype NodeStatus = Pending | Testing | Done | Failed

  datatype Node = Node(id: string, status: NodeStatus, down: real, up: real)

  datatype Status = Status(phase: string, running: bool, error: string, nodes: seq<Node>)

  const DEFAULT_PICK := 3
  const MAX_NODES := 8

  /** Seconds after which a running job may be superseded. */
  function StaleGuard(n: nat): (d: nat)
    ensures n >= 4 ==> d == 90 * n
    ensures n < 4 ==> d == 300
  {
    var m := if n < DEFAULT_PICK then DEFAULT_PICK else n;
    if 90 * m < 300 then 300 else 90 * m
  }

  // ---- what the guarded sections write ----

  function Launched(phase: string): Status {
    Status(phase, true, "", [])
  }

  function Failing(st: Status, error: string): Status {
    st.(running := false, phase := "error", error := error)
  }

  function Finishing(st: Status): Status {
    st.(running := false, phase := "done")
  }

  function WithNode(st: Status, i: nat, n: Node -> Node): Status {
    if i < |st.nodes| then st.(nodes := st.nodes[i := n(st.nodes[i])]) else st
  }

  /** A result without any throughput counts as a failure. */
  function Measured(n: Node, ok: bool, down: real, up: real): Node {
    if !ok || (down == 0.0 && up == 0.0) then n.(status := Failed)
    else n.(status := Done, down := down, up := up)
  }

  function Marked(n: Node): Node {
    n.(status := Testing)
  }

  function PendingNodes(ids: seq<string>): (ns: seq<Node>)
    ensures |ns| == |ids| && forall k :: 0 <= k < |ids| ==> ns[k] == Node(ids[k], Pending, 0.0, 0.0)
  {
    if ids == [] then [] else PendingNodes(ids[..|ids| - 1]) + [Node(ids[|ids| - 1], Pending, 0.0, 0.0)]
  }

  function Chosen(ids: seq<string>): seq<string> {
    if |ids| > MAX_NODES then ids[..MAX_NODES] else ids
  }

  // ---- the protocol ----

  datatype Place =
    | Fresh
    | Installing
    | ToList
    | Listing
    | Marking(i: nat, n: nat)
    | Phasing(i: nat, n: nat)
    | Measuring(i: nat, n: nat)
    | ToFinish
    | Recording(nodes: seq<Node>)
    | InstallOnly
    | Gone
  {
    /** The job has not yet given up the status. */
    predicate Live() { !Recording? && !Gone? }
  }

  datatype Job = Job(want: seq<string>, at: Place)

  datatype Entry = Entry(gen: nat, nodes: seq<Node>)

  /** `jobs` holds every job ever started, by generation. */
  datatype State = State(gen: nat, st: Status, jobs: map<nat, Job>, history: seq<Entry>)

  const INITIAL := State(0, Status("idle", false, "", []), map[], [])

  datatype Action =
    | Run(ids: seq<string>, elapsed: nat)
    | StartInstall(elapsed: nat)
    | Check(g: nat, installed: bool)
    | Installed(g: nat, ok: bool)
    | List(g: nat)
    | Listed(g: nat, ok: bool, ids: seq<string>)
    | Mark(g: nat)
    | Phase(g: nat)
    | Measure(g: nat, ok: bool, down: real, up: real)
    | Finish(g: nat)
    | Record(g: nat)
    | InstallEnd(g: nat, ok: bool)
  {
    predicate Starts() { Run? || StartInstall? }
  }

  predicate Busy(st: Status, elapsed: nat, n: nat) {
    st.running && elapsed < StaleGuard(n)
  }

  predicate Enabled(s: State, a: Action) {
    match a
    case Run(ids, elapsed) => !Busy(s.st, elapsed, |ids|)
    case StartInstall(elapsed) => !Busy(s.st, elapsed, 0)
    case _ => a.g in s.jobs && MayStep(s.jobs[a.g], a)
  }

  predicate MayStep(j: Job, a: Action)
    requires !a.Starts()
  {
    match a
    case Check(_, _) => j.at.Fresh?
    case Installed(_, _) => j.at.Installing?
    case List(_) => j.at.ToList?
    case Listed(_, _, ids) => j.at.Listing? && (j.want != [] ==> ids == j.want)
    case Mark(_) => j.at.Marking?
    case Phase(_) => j.at.Phasing?
    case Measure(_, _, _, _) => j.at.Measuring?
    case Finish(_) => j.at.ToFinish?
    case Record(_) => j.at.Recording?
    case InstallEnd(_, _) => j.at.InstallOnly?
  }

  function Move(s: State, g: nat, to: Place): State
    requires g in s.jobs
  {
    s.(jobs := s.jobs[g := s.jobs[g].(at := to)])
  }

  /** `withGen`: write and go on if the token is current, otherwise leave. */
  function WithGen(s: State, g: nat, st: Status, to: Place): State
    requires g in s.jobs
  {
    if s.gen == g then Move(s, g, to).(st := st) else Move(s, g, Gone)
  }

  function Begun(s: State, phase: string, job: Job): State {
    State(s.gen + 1, Launched(phase), s.jobs[s.gen + 1 := job], s.history)
  }

  function AnyDone(nodes: seq<Node>): bool {
    exists n :: n in nodes && n.status.Done?
  }

  function Do(s: State, a: Action): State
    requires Enabled(s, a)
  {
    match a
    case Run(ids, _) => Begun(s, "starting", Job(Chosen(ids), Fresh))
    case StartInstall(_) => Begun(s, "installing", Job([], InstallOnly))
    case _ => Step(s, s.jobs[a.g], a)
  }

  function Step(s: State, j: Job, a: Action): State
    requires !a.Starts() && a.g in s.jobs && s.jobs[a.g] == j && MayStep(j, a)
  {
    match a
    case Check(g, installed) =>
      if installed then Move(s, g, ToList) else WithGen(s, g, s.st.(phase := "installing"), Installing)
    case Installed(g, ok) => if ok then Move(s, g, ToList) else WithGen(s, g, Failing(s.st, "install"), Gone)
    case List(g) => WithGen(s, g, s.st.(phase := "listing"), Listing)
    case Listed(g, ok, ids) =>
      if !ok || ids == [] then WithGen(s, g, Failing(s.st, "list"), Gone)
      else WithGen(s, g, s.st.(nodes := PendingNodes(ids)), Marking(0, |ids|))
    case Mark(g) => WithGen(s, g, WithNode(s.st, j.at.i, Marked), Phasing(j.at.i, j.at.n))
    case Phase(g) =>
      // the answer is not looked at here: a superseded job leaves at its next section
      Move(s, g, Measuring(j.at.i, j.at.n)).(st := if s.gen == g then s.st.(phase := "testing") else s.st)
    case Measure(g, ok, down, up) =>
      WithGen(s, g, WithNode(s.st, j.at.i, n => Measured(n, ok, down, up)),
              if j.at.i + 1 < j.at.n then Marking(j.at.i + 1, j.at.n) else ToFinish)
    case Finish(g) => WithGen(s, g, Finishing(s.st), Recording(s.st.nodes))
    case Record(g) =>
      Move(s, g, Gone).(history := if AnyDone(j.at.nodes) then [Entry(g, j.at.nodes)] + s.history else s.history)
    case InstallEnd(g, ok) =>
      WithGen(s, g, if ok then Finishing(s.st) else Failing(s.st, "install"), Gone)
  }

  ghost predicate Reaches(s: State, acts: seq<Action>, t: State)
    decreases |acts|
  {
    if acts == [] then t == s
    else Enabled(s, acts[0]) && Reaches(Do(s, acts[0]), acts[1..], t)
  }

  /** What a measurement of the current job writes: the node is done with its values if it
      worked and something came through, and failed otherwise; no other node changes. */
  lemma MeasurementTells(s: State, g: nat, ok: bool, down: real, up: real)
    requires Enabled(s, Measure(g, ok, down, up)) && s.gen == g && s.jobs[g].at.i < |s.st.nodes|
    ensures var i, nodes := s.jobs[g].at.i, Do(s, Measure(g, ok, down, up)).st.nodes;
      |nodes| == |s.st.nodes| && (forall k :: 0 <= k < |nodes| && k != i ==> nodes[k] == s.st.nodes[k])
      && nodes[i].id == s.st.nodes[i].id
      && (nodes[i].status == Done <==> ok && (down != 0.0 || up != 0.0))
      && (nodes[i].status == Failed <==> !(ok && (down != 0.0 || up != 0.0)))
      && (nodes[i].status == Done ==> nodes[i].down == down && nodes[i].up == up)
  {
  }

  // ---- superseded jobs are invisible ----

  /** A step of a job that is not the current one. */
  predicate Stale(s: State, a: Action) {
    !a.Starts() && a.g != s.gen
  }

  /** The same as far as the current generation goes. */
  ghost predicate Same(s: State, t: State) {
    s.gen == t.gen && s.st == t.st
    && (s.gen in s.jobs <==> t.gen in t.jobs) && (s.gen in s.jobs ==> s.jobs[s.gen] == t.jobs[s.gen])
  }

  /** No step of an older job changes the status, the token, or the current job. */
  lemma StaleStepIsInvisible(s: State, a: Action)
    requires Enabled(s, a) && Stale(s, a)
    ensures Do(s, a).st == s.st && Do(s, a).gen == s.gen && Same(s, Do(s, a))
  {
  }

  lemma CurrentStep(s: State, t: State, a: Action)
    requires Same(s, t) && Enabled(s, a) && !Stale(s, a)
    ensures Enabled(t, a) && Same(Do(s, a), Do(t, a))
  {
    hide PendingNodes, WithNode, Measured, StaleGuard, AnyDone;
  }

  /** The run with every step of a superseded job left out. */
  ghost function Current(s: State, acts: seq<Action>): seq<Action>
    decreases |acts|
  {
    if acts == [] then []
    else
      var rest := if Enabled(s, acts[0]) then Current(Do(s, acts[0]), acts[1..]) else [];
      if Stale(s, acts[0]) then rest else [acts[0]] + rest
  }

  /** Once a newer run has taken over, whatever the older jobs still do makes no
      difference: leaving all their steps out of a run leads to the same status. */
  lemma {:induction false} SupersededJobsDoNotMatter(s: State, u: State, acts: seq<Action>, t: State) returns (v: State)
    requires Same(s, u) && Reaches(s, acts, t)
    ensures Reaches(u, Current(s, acts), v) && Same(t, v) && v.st == t.st
    decreases |acts|
  {
    hide Do, Enabled, Same, Stale;
    if acts == [] {
      v := u;
      SameStatus(t, v);
    } else {
      var a, next := acts[0], Do(s, acts[0]);
      if Stale(s, a) {
        StaleStepIsInvisible(s, a);
        SameThrough(s, next, u);
        v := SupersededJobsDoNotMatter(next, u, acts[1..], t);
      } else {
        CurrentStep(s, u, a);
        v := SupersededJobsDoNotMatter(next, Do(u, a), acts[1..], t);
        var rest := Current(next, acts[1..]);
        assert ([a] + rest)[1..] == rest;
      }
    }
  }

  lemma SameStatus(s: State, t: State)
    requires Same(s, t)
    ensures s.st == t.st
  {
  }

  lemma SameThrough(s: State, next: State, u: State)
    requires Same(s, next) && Same(s, u)
    ensures Same(next, u)
  {
  }

  // ---- what every step keeps ----

  predicate Settled(n: Node) {
    n.status.Done? || n.status.Failed?
  }

  /** The status says "running" exactly while the current job is at it. */
  ghost predicate RunningInv(s: State) {
    && (forall g :: g in s.jobs ==> g <= s.gen)
    && (s.st.running <==> s.gen in s.jobs && s.jobs[s.gen].at.Live())
  }

  ghost predicate Progress(st: Status, i: nat, n: nat) {
    |st.nodes| == n && i < n && forall k :: 0 <= k < i ==> Settled(st.nodes[k])
  }

  /** The current job has settled all nodes before the one it is at. */
  ghost predicate ProgressInv(s: State) {
    s.gen in s.jobs ==>
      match s.jobs[s.gen].at {
        case Marking(i, n) => Progress(s.st, i, n)
        case Phasing(i, n) => Progress(s.st, i, n)
        case Measuring(i, n) => Progress(s.st, i, n)
        case ToFinish => forall k :: 0 <= k < |s.st.nodes| ==> Settled(s.st.nodes[k])
        case _ => true
      }
  }

  ghost predicate AllSettled(ns: seq<Node>) {
    forall n :: n in ns ==> Settled(n)
  }

  /** A job that is about to record holds settled nodes. */
  ghost predicate RecordingInv(s: State) {
    forall g :: g in s.jobs && s.jobs[g].at.Recording? ==> AllSettled(s.jobs[g].at.nodes)
  }

  /** Entries are of different generations whose jobs are gone, and hold settled nodes
      with a success among them. */
  ghost predicate HistoryInv(s: State) {
    && (forall i, j :: 0 <= i < j < |s.history| ==> s.history[i].gen != s.history[j].gen)
    && (forall e :: e in s.history ==> EntryInv(s, e))
  }

  ghost predicate EntryInv(s: State, e: Entry) {
    e.gen <= s.gen && e.gen in s.jobs && s.jobs[e.gen].at.Gone? && AnyDone(e.nodes) && AllSettled(e.nodes)
  }

  lemma RunningStep(s: State, a: Action)
    requires Enabled(s, a) && RunningInv(s)
    ensures RunningInv(Do(s, a))
  {
    hide PendingNodes, Measured, StaleGuard, AnyDone;
  }

  lemma ProgressStep(s: State, a: Action)
    requires Enabled(s, a) && ProgressInv(s)
    ensures ProgressInv(Do(s, a))
  {
    hide StaleGuard, AnyDone, Chosen;
  }

  lemma RecordingStep(s: State, a: Action)
    requires Enabled(s, a) && RecordingInv(s) && ProgressInv(s)
    ensures RecordingInv(Do(s, a))
  {
    hide StaleGuard, AnyDone, Chosen, PendingNodes, Measured, AllSettled;
    if a.Finish? && a.g == s.gen {
      SettledByIndex(s.st.nodes);
    }
  }

  lemma SettledByIndex(ns: seq<Node>)
    ensures AllSettled(ns) <==> forall k :: 0 <= k < |ns| ==> Settled(ns[k])
  {
  }

  /** No step brings a job back that is gone. */
  lemma EntryStays(s: State, a: Action, e: Entry)
    requires Enabled(s, a) && EntryInv(s, e)
    ensures EntryInv(Do(s, a), e)
  {
    hide StaleGuard, AnyDone, Chosen, PendingNodes, Measured, AllSettled, WithNode;
  }

  lemma HistoryStep(s: State, a: Action)
    requires Enabled(s, a) && HistoryInv(s) && RecordingInv(s) && RunningInv(s)
    ensures HistoryInv(Do(s, a))
  {
    hide StaleGuard, AnyDone, Chosen, PendingNodes, Measured, AllSettled, WithNode;
    var t := Do(s, a);
    forall e | e in t.history ensures EntryInv(t, e) {
      if e in s.history {
        EntryStays(s, a, e);
      }
    }
    if a.Record? {
      forall k | 0 <= k < |s.history| ensures s.history[k].gen != a.g {
        assert EntryInv(s, s.history[k]);
      }
    }
  }

  ghost predicate Inv(s: State) {
    RunningInv(s) && ProgressInv(s) && RecordingInv(s) && HistoryInv(s)
  }

  lemma {:induction false} InvRun(s: State, acts: seq<Action>, t: State)
    requires Inv(s) && Reaches(s, acts, t)
    ensures Inv(t)
    decreases |acts|
  {
    hide RunningInv, ProgressInv, RecordingInv, HistoryInv, Do, Enabled;
    if acts != [] {
      RunningStep(s, acts[0]);
      ProgressStep(s, acts[0]);
      RecordingStep(s, acts[0]);
      HistoryStep(s, acts[0]);
      InvRun(Do(s, acts[0]), acts[1..], t);
    }
  }

  lemma InvReached(acts: seq<Action>, t: State)
    requires Reaches(INITIAL, acts, t)
    ensures Inv(t)
  {
    hide Reaches;
    assert Inv(INITIAL);
    hide Inv;
    InvRun(INITIAL, acts, t);
  }

  // ---- the promises ----

  /** When the current generation finishes, every node is done or failed. */
  lemma FinishedMeansSettled(acts: seq<Action>, s: State, g: nat)
    requires Reaches(INITIAL, acts, s) && Enabled(s, Finish(g)) && g == s.gen
    ensures var t := Do(s, Finish(g)); !t.st.running && AllSettled(t.st.nodes)
  {
    hide Reaches, RunningInv, HistoryInv, RecordingInv, AllSettled;
    InvReached(acts, s);
    SettledByIndex(s.st.nodes);
  }

  /** Each generation adds at most one history entry, only once its job is gone, with
      settled nodes and at least one success. */
  lemma OneEntryPerGeneration(acts: seq<Action>, t: State)
    requires Reaches(INITIAL, acts, t)
    ensures forall i, j :: 0 <= i < j < |t.history| ==> t.history[i].gen != t.history[j].gen
    ensures forall e :: e in t.history ==> AnyDone(e.nodes) && AllSettled(e.nodes)
  {
    hide Reaches, RunningInv, ProgressInv, RecordingInv, AnyDone, AllSettled;
    InvReached(acts, t);
  }

  /** The status says that something runs exactly while the current job still has it. */
  lemma RunningIsHonest(acts: seq<Action>, t: State)
    requires Reaches(INITIAL, acts, t)
    ensures t.st.running <==> t.gen in t.jobs && t.jobs[t.gen].at.Live()
  {
    hide Reaches, ProgressInv, RecordingInv, HistoryInv;
    InvReached(acts, t);
  }
}

/** The speed test service as an object: every write to the status goes through a
    section that first compares the job's token with the current one. */
module SpeedService {
  import opened Text
  import opened SpeedTest

  /** What one node's test program reported. */
  datatype Outcome = Outcome(ok: bool, down: real, up: real)

  class Service {
    var gen: nat
    var phase: string
    var running: bool
    var error: string
    var nodes: seq<Node>
    var startedAt: nat
    var history: seq<seq<Node>>

    ghost function Now(): Status reads this {
      Status(phase, running, error, nodes)
    }

    constructor ()
      ensures Now() == INITIAL.st && gen == INITIAL.gen && history == []
    {
      gen, startedAt := 0, 0;
      phase, running, error, nodes := "idle", false, "", [];
      history := [];
    }

    /** Supersede whatever is there. */
    method Begin(p: string, clock: nat) returns (g: nat)
      modifies this
      ensures g == gen == old(gen) + 1 && Now() == Launched(p) && startedAt == clock && history == old(history)
    {
      gen := gen + 1;
      g := gen;
      phase, running, error, nodes := p, true, "", [];
      startedAt := clock;
    }

    /** Start a test unless one is running that is not overdue. */
    method Run(ids: seq<string>, clock: nat) returns (job: Option<(nat, seq<string>)>)
      requires startedAt <= clock
      modifies this
      ensures Busy(old(Now()), clock - old(startedAt), |ids|) ==>
        job.None? && gen == old(gen) && Now() == old(Now()) && startedAt == old(startedAt)
      ensures !Busy(old(Now()), clock - old(startedAt), |ids|) ==>
        job == Some((old(gen) + 1, Chosen(ids))) && gen == old(gen) + 1 && Now() == Launched("starting") && startedAt == clock
      ensures history == old(history)
    {
      if running && clock - startedAt < StaleGuard(|ids|) {
        return None;
      }
      var want := ids;
      if |want| > MAX_NODES {
        want := want[..MAX_NODES];
      }
      var g := Begin("starting", clock);
      job := Some((g, want));
    }

    method SetPhase(g: nat, p: string) returns (ok: bool)
      modifies this`phase
      ensures ok <==> g == gen
      ensures Now() == if ok then old(Now()).(phase := p) else old(Now())
    {
      if gen != g {
        return false;
      }
      phase := p;
      ok := true;
    }

    method SetNodes(g: nat, ns: seq<Node>) returns (ok: bool)
      modifies this`nodes
      ensures ok <==> g == gen
      ensures Now() == if ok then old(Now()).(nodes := ns) else old(Now())
    {
      if gen != g {
        return false;
      }
      nodes := ns;
      ok := true;
    }

    method UpdateNode(g: nat, i: int, f: Node -> Node) returns (ok: bool)
      modifies this`nodes
      ensures ok <==> g == gen
      ensures Now() == if ok && i >= 0 then WithNode(old(Now()), i, f) else old(Now())
    {
      if gen != g {
        return false;
      }
      if 0 <= i < |nodes| {
        nodes := nodes[i := f(nodes[i])];
      }
      ok := true;
    }

    method Fail(g: nat, message: string)
      modifies this`phase, this`running, this`error
      ensures Now() == if g == gen then Failing(old(Now()), message) else old(Now())
    {
      if gen == g {
        phase, running, error := "error", false, message;
      }
    }

    method Finish(g: nat)
      modifies this`phase, this`running, this`history
      ensures Now() == if g == gen then Finishing(old(Now())) else old(Now())
      ensures history == if g == gen && AnyDone(nodes) then [nodes] + old(history) else old(history)
    {
      if gen != g {
        return;
      }
      phase, running := "done", false;
      var any := false;
      for i := 0 to |nodes|
        invariant any <==> exists n :: n in nodes[..i] && n.status.Done?
      {
        assert nodes[..i + 1] == nodes[..i] + [nodes[i]];
        any := any || nodes[i].status.Done?;
      }
      assert nodes[..|nodes|] == nodes;
      if any {
        history := [nodes] + history;
      }
    }

    /** One node: mark it, run the program, settle it. */
    method TestNode(g: nat, i: nat, o: Outcome)
      requires g == gen && i < |nodes|
      modifies this`phase, this`nodes
      ensures |nodes| == |old(nodes)| && nodes == old(nodes)[i := nodes[i]] && SettledBy(old(nodes[i].id), o, nodes[i])
    {
      var ok := UpdateNode(g, i, Marked);
      ok := SetPhase(g, "testing");
      ok := UpdateNode(g, i, n => Measured(n, o.ok, o.down, o.up));
    }

    /** One node after the other. */
    method TestNodes(g: nat, ids: seq<string>, outcomes: seq<Outcome>)
      requires g == gen && nodes == PendingNodes(ids) && |outcomes| >= |ids|
      modifies this`phase, this`nodes
      ensures Tested(ids, outcomes, nodes)
    {
      hide SettledBy;
      for i := 0 to |ids|
        invariant |nodes| == |ids| && forall k :: i <= k < |ids| ==> nodes[k].id == ids[k]
        invariant forall k :: 0 <= k < i ==> SettledBy(ids[k], outcomes[k], nodes[k])
      {
        TestNode(g, i, outcomes[i]);
      }
    }

    /** A job that nobody supersedes while it runs, given what the programs it starts
        report: it ends with a failure, or with every node tested in turn. */
    method RunJob(g: nat, want: seq<string>, ready: bool, listed: bool, recommended: seq<string>, outcomes: seq<Outcome>)
      requires g == gen && running
      requires |outcomes| >= (if want == [] then |recommended| else |want|)
      modifies this`phase, this`running, this`error, this`nodes, this`history
      ensures !running
      ensures !ready || !listed || (want == [] && recommended == []) ==> phase == "error" && history == old(history)
      ensures ready && listed && !(want == [] && recommended == []) ==>
        phase == "done" &&
        Tested(if want == [] then recommended else want, outcomes, nodes) &&
        history == (if AnyDone(nodes) then [nodes] else []) + old(history)
    {
      hide Tested, AnyDone;
      if !ready {
        Fail(g, "install");
        return;
      }
      var ok := SetPhase(g, "listing");
      if !listed {
        Fail(g, "list");
        return;
      }
      var ids := want;
      if ids == [] {
        ids := recommended;
      }
      if ids == [] {
        Fail(g, "no node");
        return;
      }
      ok := SetNodes(g, PendingNodes(ids));
      TestNodes(g, ids, outcomes);
      Finish(g);
      assert [] + old(history) == old(history);
    }
  }

  ghost predicate SettledBy(id: string, o: Outcome, n: Node) {
    n.id == id &&
    (o.ok && !(o.down == 0.0 && o.up == 0.0) ==> n.status == Done && n.down == o.down && n.up == o.up) &&
    (!(o.ok && !(o.down == 0.0 && o.up == 0.0)) ==> n.status == Failed)
  }

  /** The nodes are the wanted ones in order, each settled by its own outcome. */
  ghost predicate Tested(ids: seq<string>, outcomes: seq<Outcome>, ns: seq<Node>) {
    |ns| == |ids| <= |outcomes| && forall k :: 0 <= k < |ids| ==> SettledBy(ids[k], outcomes[k], ns[k])
  }
}

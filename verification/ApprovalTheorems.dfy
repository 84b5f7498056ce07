/** What holds of every run of the approval protocol, and two things that do not. */
module ApprovalTheorems {
  import opened Wrappers
  import opened ApprovalState
  import opened ApprovalInvariant
  import opened ApprovalRuns

  predicate Initial(sys: System) {
    sys == Start(Fresh(sys.source.id, sys.source.operator, sys.source.limit, sys.source.hostEpoch, sys.source.maximum))
  }

  lemma {:induction false} RunKeeps(start: System, steps: seq<Step>)
    requires Initial(start)
    ensures SystemInvariant(Run(start, steps))
  {
    if steps != [] {
      RunKeeps(start, steps[..|steps| - 1]);
      StepKeeps(Run(start, steps[..|steps| - 1]), steps[|steps| - 1]);
    }
  }

  /** Whatever happened in between, the later state is an evolution of the earlier one. */
  lemma {:induction false} RunEvolves(start: System, steps: seq<Step>, i: nat)
    requires Initial(start) && i <= |steps|
    ensures Evolves(Run(start, steps[..i]).source, Run(start, steps).source)
    decreases |steps|
  {
    RunKeeps(start, steps[..i]);
    if i == |steps| {
      assert steps[..i] == steps;
      SameSound(Run(start, steps).source);
    } else {
      var before := steps[..|steps| - 1];
      assert before[..i] == steps[..i];
      RunEvolves(start, before, i);
      RunKeeps(start, before);
      StepKeeps(Run(start, before), steps[|steps| - 1]);
      EvolvesTransitive(Run(start, steps[..i]).source, Run(start, before).source, Run(start, steps).source);
    }
  }

  /** A satisfaction has at most one lease, ever: leases seen at any two moments of a run are the same. */
  lemma OneLeaseEver(start: System, steps: seq<Step>, i: nat, l: Lease, m: Lease)
    requires Initial(start) && i <= |steps|
    requires l in Run(start, steps[..i]).source.leases && m in Run(start, steps).source.leases
    requires Run(start, steps[..i]).source.leases[l].satisfaction == Run(start, steps).source.leases[m].satisfaction
    ensures l == m
  {
    RunEvolves(start, steps, i);
    RunKeeps(start, steps);
    assert ExecutionLeads(Run(start, steps[..i]).source.leases[l], Run(start, steps).source.leases[l]);
  }

  /**
    A lease never returns to "reserved" nor to "forwarding", and the executor and job it
    names can no longer change once it has left "reserved".
  */
  lemma PhasesNeverReentered(start: System, steps: seq<Step>, i: nat, l: Lease)
    requires Initial(start) && i <= |steps| && l in Run(start, steps[..i]).source.leases
    ensures l in Run(start, steps).source.leases
    ensures var a, b := Run(start, steps[..i]).source.leases[l], Run(start, steps).source.leases[l];
            a.satisfaction == b.satisfaction && a.broker == b.broker && a.baseContract == b.baseContract &&
            (b.phase == Reserved ==> a.phase == Reserved) &&
            (b.phase == Forwarding ==> a.phase == Reserved || a.phase == Forwarding) &&
            (b.phase == Settled ==> a.phase != Canceled && a.phase != Fenced) &&
            (a.phase != Reserved ==> a.executor == b.executor && a.job == b.job)
  {
    RunEvolves(start, steps, i);
    assert ExecutionLeads(Run(start, steps[..i]).source.leases[l], Run(start, steps).source.leases[l]);
  }

  /** At most one `begin` succeeds for a satisfaction, and at most one lease is granted to it. */
  lemma OneBegin(start: System, steps: seq<Step>, i: nat, j: nat)
    requires Initial(start) && i < j < |Run(start, steps).log|
    ensures var log := Run(start, steps).log;
            (log[i].Began? && log[j].Began? ==> log[i].proof != log[j].proof) &&
            (log[i].LeaseGranted? && log[j].LeaseGranted? ==> log[i].proof != log[j].proof)
  {
    RunKeeps(start, steps);
    assert Compatible(Run(start, steps).log[i], Run(start, steps).log[j]);
  }

  /** The ordering of any two events of a run, whichever comes first. */
  lemma InOrder(start: System, steps: seq<Step>, i: nat, j: nat)
    requires Initial(start) && i < j < |Run(start, steps).log|
    ensures Compatible(Run(start, steps).log[i], Run(start, steps).log[j])
  {
    hide Run, Compatible, SourceInvariant, AllJustified, IssuesKeepGeneration, GrantsFollowLiveness, CallsFit,
      UsesHaveBegun;
    RunKeeps(start, steps);
  }

  lemma ExecutedHasBegun(sys: System, j: nat)
    requires SystemInvariant(sys) && j < |sys.log| && sys.log[j].Executed?
    ensures BeganBefore(sys.log, j, sys.log[j].proof)
  {
    hide SourceInvariant, AllJustified, Ordered, IssuesKeepGeneration, GrantsFollowLiveness, CallsFit, BeganBefore;
  }

  /**
    An execution only verifies after a `begin` for the same satisfaction succeeded, and all
    executions verified for one satisfaction name the same lease, executor and job.
  */
  lemma ExecutionsAgree(start: System, steps: seq<Step>, j: nat)
    requires Initial(start) && j < |Run(start, steps).log| && Run(start, steps).log[j].Executed?
    ensures var log := Run(start, steps).log;
            (exists i :: 0 <= i < j && log[i].Began? && log[i].proof == log[j].proof && log[i].lease == log[j].lease) &&
            (forall k :: 0 <= k < |log| && log[k].Executed? && log[k].proof == log[j].proof ==> log[k] == log[j])
  {
    hide SystemInvariant, Initial, Run;
    var log := Run(start, steps).log;
    RunKeeps(start, steps);
    ExecutedHasBegun(Run(start, steps), j);
    var i :| 0 <= i < j && i < |log| && log[i].Began? && log[i].proof == log[j].proof;
    InOrder(start, steps, i, j);
    forall k | 0 <= k < |log| && log[k].Executed? && log[k].proof == log[j].proof ensures log[k] == log[j] {
      if k < j { InOrder(start, steps, k, j); } else if j < k { InOrder(start, steps, j, k); }
    }
  }

  /**
    Liveness is one-way. Once `_alive` was false for a proof it is never true again, and
    nothing is granted in that proof's name again.
  */
  lemma NeverAliveAgain(start: System, steps: seq<Step>, i: nat, j: nat)
    requires Initial(start) && i < j < |Run(start, steps).log|
    requires Run(start, steps).log[i].Evaluated? && !Run(start, steps).log[i].live
    ensures var log := Run(start, steps).log;
            !(log[j].Evaluated? && log[j].live && log[j].proof == log[i].proof) &&
            GrantedTo(log[j]) != Some(log[i].proof)
  {
    RunKeeps(start, steps);
    var log := Run(start, steps).log;
    assert Compatible(log[i], log[j]);
    if i < j - 1 { assert Compatible(log[i], log[j - 1]); }
  }

  /** An issue call that a fence overtakes does not succeed. */
  lemma NoIssueAcrossFence(start: System, steps: seq<Step>, i: nat, j: nat, k: nat)
    requires Initial(start) && i < j < k < |Run(start, steps).log|
    requires Run(start, steps).log[i].IssueStarted? && Run(start, steps).log[j].FenceRaised?
    ensures !(Run(start, steps).log[k].Issued? && Run(start, steps).log[k].call == Run(start, steps).log[i].call)
  {
    RunKeeps(start, steps);
    var log := Run(start, steps).log;
    assert Compatible(log[i], log[j]) && Compatible(log[j], log[k]);
    assert log[i] in log && log[k] in log;
  }

  /** After a fence no proof issued before it is found alive, and nothing is granted in its name. */
  lemma FenceEndsEarlierProofs(start: System, steps: seq<Step>, i: nat, j: nat, k: nat)
    requires Initial(start) && i < j < k < |Run(start, steps).log|
    requires Run(start, steps).log[i].Issued? && Run(start, steps).log[j].FenceRaised?
    ensures var log := Run(start, steps).log;
            !(log[k].Evaluated? && log[k].live && log[k].proof == log[i].proof) &&
            GrantedTo(log[k]) != Some(log[i].proof)
  {
    RunKeeps(start, steps);
    var log := Run(start, steps).log;
    assert Compatible(log[i], log[j]) && Compatible(log[j], log[k]) && Compatible(log[i], log[k]);
    if j < k - 1 { assert Compatible(log[j], log[k - 1]) && Compatible(log[i], log[k - 1]); }
  }

  /** The finite tables stay finite, and one resolution identity is fulfilled at most once. */
  lemma TablesBounded(start: System, steps: seq<Step>)
    requires Initial(start)
    ensures var s := Run(start, steps).source;
            |s.scopes| <= s.limit && |s.issued| <= s.limit && |s.leases| <= s.limit &&
            forall p, q :: p in s.issued && q in s.issued && p.satisfactionId == q.satisfactionId ==> p == q
  {
    RunKeeps(start, steps);
  }

  // ----- two expectations the protocol does not meet ---------------------------------------

  lemma RunSnoc(start: System, steps: seq<Step>, step: Step)
    ensures Run(start, steps + [step]) == Apply(Run(start, steps), step)
  {
    assert (steps + [step])[..|steps|] == steps;
  }

  /** Every verified execution of a lease is the one its `begin` named. */
  ghost predicate BeginDecides(executor: Option<Handle>, job: Option<Handle>) {
    forall start: System, steps: seq<Step>, p: Proof, l: Lease, broker: Handle, e: Option<Handle>, j: Option<Handle> ::
      Initial(start) && Began(p, l, broker, executor, job) in Run(start, steps).log &&
        Executed(p, l, e, j) in Run(start, steps).log
      ==> e == executor && j == job
  }

  // One run, step by step: a scope, a proof, and its reserved lease.
  const ORIGIN: Source := Fresh(1, 2, 8, 0, "maximum")
  const SCOPE: Scope := Scope(0, "scope", "contract")
  const CLAIM: Claim := Claim("action", "review", "configuration", Some("contract"))
  const PROOF: Proof := Proof(1, 1, "resolution")
  const LEASE: Lease := Lease(2, 1)
  const NOON: Clock := Reading(1.0)
  const ROW: Satisfaction := Satisfaction(SCOPE, CLAIM, 7, "receipt", 11.0, 0)

  const RESERVING: seq<Step> := [
    DoCreateScope(2, "scope", "contract", 0, "maximum"),
    StartIssue(2, SCOPE, "resolution", 10.0, CLAIM, true),
    Resume(0, true, NOON, true, Some((7, "receipt"))),
    StartReserve(2, PROOF, "contract", false, 5, NOON),
    Resume(1, true, NOON, true, None)]

  function Leased(executor: Option<Handle>, job: Option<Handle>, phase: Phase, used: set<Proof>): Source {
    Source(1, 2, 8, 0, "maximum", 0, 1.0, map[SCOPE := "scope"], map[PROOF := ROW],
           map[LEASE := Execution(PROOF, "contract", 5, executor, job, phase)], used, 3)
  }

  lemma ScopeCreated()
    ensures Apply(Start(ORIGIN), RESERVING[0]) ==
            System(ORIGIN.(scopes := map[SCOPE := "scope"], nextUid := 1), map[], 0, [])
  {
  }

  lemma IssueOpened(sys: System)
    requires sys == System(ORIGIN.(scopes := map[SCOPE := "scope"], nextUid := 1), map[], 0, [])
    ensures var t := Apply(sys, RESERVING[1]);
            t.source == sys.source && t.nextCall == 1 &&
            t.calls == map[0 := IssuePending(0, Request(SCOPE, "resolution", 10.0, CLAIM))]
  {
    hide ReserveCommit, BeginCommit, Recheck, ExecutionRecheck, CreateScope, VerifyCheck, ReceiptCheck, ReserveCheck,
      BindJob, BeginCheck, ExecutionCheck, Fence, Finish;
  }

  lemma ProofIssued(sys: System)
    requires sys == System(ORIGIN.(scopes := map[SCOPE := "scope"], nextUid := 1), map[], 0, [])
    ensures var t := Apply(Apply(sys, RESERVING[1]), RESERVING[2]);
            t.source == Leased(None, None, Reserved, {}).(leases := map[], nextUid := 2) && t.calls == map[] &&
              t.nextCall == 1
  {
    var a := Apply(sys, RESERVING[1]);
    IssueOpened(sys);
    IssueAnswered(a);
    hide Apply;
  }

  lemma IssueAnswered(a: System)
    requires a.source == ORIGIN.(scopes := map[SCOPE := "scope"], nextUid := 1) && a.nextCall == 1
    requires a.calls == map[0 := IssuePending(0, Request(SCOPE, "resolution", 10.0, CLAIM))]
    ensures var t := Apply(a, RESERVING[2]);
            t.source == Leased(None, None, Reserved, {}).(leases := map[], nextUid := 2) && t.calls == map[] &&
              t.nextCall == 1
  {
    hide ReserveCommit, BeginCommit, Recheck, ExecutionRecheck, CreateScope, VerifyCheck, ReceiptCheck, ReserveCheck,
      BindJob, BeginCheck, ExecutionCheck, Fence, Finish;
    assert a.calls - {0} == map[];
  }

  lemma LeaseReserved(sys: System)
    requires sys.source == Leased(None, None, Reserved, {}).(leases := map[], nextUid := 2) && sys.calls == map[] &&
             sys.nextCall == 1
    ensures var t := Apply(Apply(sys, RESERVING[3]), RESERVING[4]);
            t.source == Leased(None, None, Reserved, {}) && t.calls == map[] && t.nextCall == 2
  {
    var a := Apply(sys, RESERVING[3]);
    assert a.calls == map[1 := ReservePending(PROOF, ROW, "contract", 5)];
    assert a.calls - {1} == map[];
  }

  lemma ReservingRun()
    ensures var sys := Run(Start(ORIGIN), RESERVING);
            sys.source == Leased(None, None, Reserved, {}) && sys.calls == map[] && sys.nextCall == 2
  {
    hide Apply;
    ScopeCreated();
    var a := Apply(Start(ORIGIN), RESERVING[0]);
    ProofIssued(a);
    LeaseReserved(Apply(Apply(a, RESERVING[1]), RESERVING[2]));
    assert forall k :: 0 <= k < 5 ==> RESERVING[..k + 1] == RESERVING[..k] + [RESERVING[k]];
    assert RESERVING[..5] == RESERVING && RESERVING[..0] == [];
    RunSnoc(Start(ORIGIN), RESERVING[..0], RESERVING[0]);
    RunSnoc(Start(ORIGIN), RESERVING[..1], RESERVING[1]);
    RunSnoc(Start(ORIGIN), RESERVING[..2], RESERVING[2]);
    RunSnoc(Start(ORIGIN), RESERVING[..3], RESERVING[3]);
    RunSnoc(Start(ORIGIN), RESERVING[..4], RESERVING[4]);
  }

  /** The steps in which a `begin` that names no job is overtaken by a second binding. */
  function Overtaking(executor: Option<Handle>): seq<Step> {
    [DoBind(2, LEASE, 5, executor, None, NOON),
     StartBegin(2, LEASE, 5, executor, None, NOON),
     DoBind(2, LEASE, 5, Some(8), Some(9), NOON),
     Resume(2, true, NOON, true, None),
     StartExecution(LEASE, Some(8), Some(9), NOON),
     Resume(3, true, NOON, true, None)]
  }

  lemma BeginWaits(sys: System, executor: Option<Handle>)
    requires sys.source == Leased(None, None, Reserved, {}) && sys.calls == map[] && sys.nextCall == 2
    ensures var t := Apply(Apply(Apply(sys, Overtaking(executor)[0]), Overtaking(executor)[1]),
            Overtaking(executor)[2]);
            t.source == Leased(Some(8), Some(9), Reserved, {}) && t.nextCall == 3 &&
            t.calls == map[2 := BeginPending(LEASE, PROOF, ROW, 5, executor, None)]
  {
    var a := Apply(sys, Overtaking(executor)[0]);
    assert a.source == Leased(executor, None, Reserved, {});
    var b := Apply(a, Overtaking(executor)[1]);
    assert b.source == Leased(executor, None, Reserved, {});
  }

  lemma BeginOvertaken(sys: System, executor: Option<Handle>)
    requires sys.source == Leased(Some(8), Some(9), Reserved, {}) && sys.nextCall == 3
    requires sys.calls == map[2 := BeginPending(LEASE, PROOF, ROW, 5, executor, None)]
    ensures var t := Apply(sys, Overtaking(executor)[3]);
            t.source == Leased(Some(8), Some(9), Forwarding, {PROOF}) && t.calls == map[] && t.nextCall == 3 &&
            Began(PROOF, LEASE, 5, executor, None) in t.log
  {
    assert sys.calls - {2} == map[];
    var t := Apply(sys, Overtaking(executor)[3]);
    assert t.log[|t.log| - 1] == Began(PROOF, LEASE, 5, executor, None);
  }

  lemma OtherJobExecutes(sys: System, executor: Option<Handle>)
    requires sys.source == Leased(Some(8), Some(9), Forwarding, {PROOF}) && sys.calls == map[] && sys.nextCall == 3
    ensures var t := Apply(Apply(sys, Overtaking(executor)[4]), Overtaking(executor)[5]);
            Executed(PROOF, LEASE, Some(8), Some(9)) in t.log && sys.log <= t.log && t.source == sys.source
  {
    assert HasForwardingLease(sys.source.leases, PROOF) by {
      assert sys.source.leases[LEASE].phase == Forwarding;
    }
    var a := Apply(sys, Overtaking(executor)[4]);
    assert a.calls == map[3 := ExecutionPending(LEASE, PROOF, ROW, Some(8), Some(9))];
    var t := Apply(a, Overtaking(executor)[5]);
    assert t.log[|t.log| - 1] == Executed(PROOF, LEASE, Some(8), Some(9));
  }

  lemma RunSix(start: System, steps: seq<Step>, tail: seq<Step>)
    requires |tail| == 6
    ensures Run(start, steps + tail) ==
            Apply(
              Apply(Apply(Apply(Apply(Apply(Run(start, steps), tail[0]), tail[1]), tail[2]), tail[3]), tail[4]),
              tail[5])
  {
    hide Apply;
    forall k | 0 <= k < 6 ensures Run(start, steps + tail[..k + 1]) == Apply(Run(start, steps + tail[..k]), tail[k]) {
      assert steps + tail[..k + 1] == (steps + tail[..k]) + [tail[k]];
      RunSnoc(start, steps + tail[..k], tail[k]);
    }
    assert steps + tail[..0] == steps && tail[..6] == tail;
  }

  /**
    The executor and job a successful `begin` names are the ones that later execute, in
    every run, if and only if it names a job at all: with a missing job handle the lease can
    be bound to another job while the verifier is being asked.
  */
  lemma BeginDecidesExactlyWithJob(executor: Option<Handle>, job: Option<Handle>)
    ensures BeginDecides(executor, job) <==> job.Some?
  {
    if job.Some? {
      forall start: System, steps: seq<Step>, p: Proof, l: Lease, broker: Handle, e: Option<Handle>, j: Option<Handle> |
        Initial(start) && Began(p, l, broker, executor, job) in Run(start, steps).log &&
          Executed(p, l, e, j) in Run(start, steps).log
        ensures e == executor && j == job
      {
        BegunIsExecuted(start, steps, p, l, broker, executor, job, e, j);
      }
    } else {
      var start := Start(ORIGIN);
      var steps := RESERVING + Overtaking(executor);
      OvertakenRun(executor);
      assert Initial(start);
      if executor == Some(8) { assert None != Some(9); }
    }
  }

  lemma BegunIsExecuted(start: System, steps: seq<Step>, p: Proof, l: Lease, broker: Handle,
                        executor: Option<Handle>, job: Option<Handle>, e: Option<Handle>, j: Option<Handle>)
    requires Initial(start) && job.Some?
    requires Began(p, l, broker, executor, job) in Run(start, steps).log &&
             Executed(p, l, e, j) in Run(start, steps).log
    ensures e == executor && j == job
  {
    hide Run, SourceInvariant, Ordered, IssuesKeepGeneration, GrantsFollowLiveness, CallsFit, UsesHaveBegun;
    RunKeeps(start, steps);
    var s := Run(start, steps).source;
    assert Justified(s, Began(p, l, broker, executor, job)) && Justified(s, Executed(p, l, e, j));
  }

  lemma OvertakenRun(executor: Option<Handle>)
    ensures var log := Run(Start(ORIGIN), RESERVING + Overtaking(executor)).log;
            Began(PROOF, LEASE, 5, executor, None) in log && Executed(PROOF, LEASE, Some(8), Some(9)) in log
    ensures Run(Start(ORIGIN), RESERVING + Overtaking(executor)).source == Leased(Some(8), Some(9), Forwarding, {PROOF})
  {
    hide Apply;
    ReservingRun();
    var sys := Run(Start(ORIGIN), RESERVING);
    var tail := Overtaking(executor);
    RunSix(Start(ORIGIN), RESERVING, tail);
    BeginWaits(sys, executor);
    var t := Apply(Apply(Apply(sys, tail[0]), tail[1]), tail[2]);
    BeginOvertaken(t, executor);
    OtherJobExecutes(Apply(t, tail[3]), executor);
  }

  // ----- how long "settled" lasts -----------------------------------------------------------

  predicate IsSettled(s: Source, l: Lease) { l in s.leases && s.leases[l].phase == Settled }

  /** The operator's own `finish`, for this lease. */
  predicate Finishes(step: Step, l: Lease, operator: Handle) { step == DoFinish(operator, l) }

  lemma EvaluateKeepsLeases(s: Source, p: Proof, row: Satisfaction, clock: Clock)
    ensures var t := Evaluate(s, p, row, clock).0; t.leases == s.leases && t.used == s.used &&
                                                   t.nextUid == s.nextUid && t.id == s.id
  {
  }

  /** The first sections of calls, and a second look at a proof, leave every lease alone. */
  lemma CheckKeepsSettled(sys: System, step: Step, l: Lease)
    requires IsSettled(sys.source, l) && !step.DoBind? && !step.DoFinish? && !step.DoFence? && !step.Resume?
    ensures IsSettled(Apply(sys, step).source, l)
  {
    hide Evaluate, ClockUsable;
    forall p, row, clock ensures Evaluate(sys.source, p, row, clock).0.leases == sys.source.leases {
      EvaluateKeepsLeases(sys.source, p, row, clock);
    }
  }

  lemma BindKeepsSettled(sys: System, step: Step, l: Lease)
    requires IsSettled(sys.source, l) && step.DoBind?
    ensures IsSettled(Apply(sys, step).source, l)
  {
    hide Evaluate;
    var s := sys.source;
    if step.lease in s.leases && s.leases[step.lease].satisfaction in s.issued {
      var p := s.leases[step.lease].satisfaction;
      EvaluateKeepsLeases(s, p, s.issued[p], step.clock);
    }
  }

  lemma FenceKeepsSettled(s: Source, operator: Handle, l: Lease)
    requires IsSettled(s, l)
    ensures IsSettled(Fence(s, operator).0, l)
  {
  }

  lemma ContinueKeepsSettled(sys: System, call: nat, c: Call, clock: Clock, stable: bool,
                             native: Option<(Handle, Digest)>, l: Lease)
    requires SourceInvariant(sys.source) && IsSettled(sys.source, l)
    ensures IsSettled(Continue(sys, call, c, clock, stable, native).source, l)
  {
    hide Evaluate, SourceInvariant, ClockUsable;
    var s := sys.source;
    LeaseIsOld(s, l);
    forall p, row, at ensures var t := Evaluate(s, p, row, at).0; t.leases == s.leases && t.nextUid == s.nextUid {
      EvaluateKeepsLeases(s, p, row, at);
    }
  }

  lemma LeaseIsOld(s: Source, l: Lease)
    requires SourceInvariant(s) && l in s.leases
    ensures l.uid < s.nextUid && l.source == s.id
  {
    hide ScopesRecorded, ProofsRecorded, OneProofPerIdentity, OneLeasePerProof, UsedByForwarding, UsedHaveLeases;
  }

  /** One step leaves a settled lease settled unless it is the operator's `finish`, which cancels it. */
  lemma SettledStep(sys: System, step: Step, l: Lease)
    requires SourceInvariant(sys.source) && IsSettled(sys.source, l)
    ensures var t := Apply(sys, step).source;
            l in t.leases && (t.leases[l].phase == Settled <==> !Finishes(step, l, sys.source.operator)) &&
            (Finishes(step, l, sys.source.operator) ==> t.leases[l].phase == Canceled)
  {
    hide SourceInvariant, Continue, Fence;
    match step
    case DoBind(_, _, _, _, _, _) => BindKeepsSettled(sys, step, l);
    case DoFinish(operator, lease) => LeaseIsOld(sys.source, l);
    case DoFence(operator) => FenceKeepsSettled(sys.source, operator, l);
    case Resume(call, answer, clock, stable, native) =>
      if call in sys.calls && answer {
        ContinueKeepsSettled(sys.(calls := sys.calls - {call}), call, sys.calls[call], clock, stable, native, l);
      }
    case _ => CheckKeepsSettled(sys, step, l);
  }

  predicate Unfinished(steps: seq<Step>, i: nat, l: Lease, operator: Handle) {
    forall k :: i <= k < |steps| ==> !Finishes(steps[k], l, operator)
  }

  predicate OnceSettled(s: Source, l: Lease) { l in s.leases && s.leases[l].phase in {Settled, Canceled, Fenced} }

  /**
    In every run: a lease that was settled is still settled exactly if its operator did not
    finish it again since; otherwise it is canceled or fenced, for good.
  */
  lemma {:induction false} SettledLasts(start: System, steps: seq<Step>, i: nat, l: Lease)
    requires Initial(start) && i <= |steps| && IsSettled(Run(start, steps[..i]).source, l)
    ensures OnceSettled(Run(start, steps).source, l)
    ensures IsSettled(Run(start, steps).source, l) <==> Unfinished(steps, i, l, start.source.operator)
    decreases |steps|
  {
    hide Apply, Run, Initial, Finishes;
    if i == |steps| {
      assert steps[..i] == steps;
    } else {
      var before, last := steps[..|steps| - 1], steps[|steps| - 1];
      assert before[..i] == steps[..i] && steps == before + [last];
      SettledLasts(start, before, i, l);
      RunSnoc(start, before, last);
      KeepsSource(start, before);
      StepEvolves(start, before, last);
      PhaseNext(Run(start, before), last, l);
      assert Unfinished(steps, i, l, start.source.operator) <==>
             Unfinished(before, i, l, start.source.operator) && !Finishes(last, l, start.source.operator);
    }
  }

  lemma PhaseNext(sys: System, step: Step, l: Lease)
    requires SourceInvariant(sys.source) && Evolves(sys.source, Apply(sys, step).source) && OnceSettled(sys.source, l)
    ensures var t := Apply(sys, step).source;
            OnceSettled(t, l) && (IsSettled(t, l) <==> IsSettled(sys.source, l) &&
                                                       !Finishes(step, l, sys.source.operator))
  {
    hide Apply, SourceInvariant, Evolves, Finishes;
    LeaseAfterStep(sys.source, Apply(sys, step).source, l);
    if IsSettled(sys.source, l) { SettledStep(sys, step, l); }
  }

  lemma KeepsSource(start: System, steps: seq<Step>)
    requires Initial(start)
    ensures SourceInvariant(Run(start, steps).source) && Run(start, steps).source.operator == start.source.operator
  {
    hide SourceInvariant, SystemInvariant, Apply;
    RunKeeps(start, steps);
    RunEvolves(start, steps, 0);
    SourceOf(Run(start, steps));
  }

  lemma SourceOf(sys: System)
    requires SystemInvariant(sys)
    ensures SourceInvariant(sys.source)
  {
  }

  lemma StepEvolves(start: System, steps: seq<Step>, step: Step)
    requires Initial(start)
    ensures Evolves(Run(start, steps).source, Apply(Run(start, steps), step).source)
  {
    hide SourceInvariant, SystemInvariant, Apply, Run, Evolves;
    RunKeeps(start, steps);
    StepKeeps(Run(start, steps), step);
  }

  lemma LeaseAfterStep(s: Source, t: Source, l: Lease)
    requires Evolves(s, t) && l in s.leases
    ensures l in t.leases && PhaseLeads(s.leases[l].phase, t.leases[l].phase)
  {
    assert ExecutionLeads(s.leases[l], t.leases[l]);
  }

  /** "settled" is not final: after a run that settles a lease, a second `finish` cancels it. */
  lemma SettledIsNotFinal()
    ensures var steps := RESERVING + Overtaking(Some(8)) + [DoFinish(2, LEASE)];
            IsSettled(Run(Start(ORIGIN), steps).source, LEASE) &&
            Run(Start(ORIGIN), steps + [DoFinish(2, LEASE)]).source.leases[LEASE].phase == Canceled
  {
    var start, run := Start(ORIGIN), RESERVING + Overtaking(Some(8));
    var steps := run + [DoFinish(2, LEASE)];
    OvertakenRun(Some(8));
    RunSnoc(start, run, DoFinish(2, LEASE));
    RunSnoc(start, steps, DoFinish(2, LEASE));
    hide Run;
    FinishForwarding(Run(start, run));
    FinishSettled(Run(start, steps));
  }

  lemma FinishForwarding(sys: System)
    requires sys.source == Leased(Some(8), Some(9), Forwarding, {PROOF})
    ensures Apply(sys, DoFinish(2, LEASE)).source == Leased(Some(8), Some(9), Settled, {PROOF})
  {
  }

  lemma FinishSettled(sys: System)
    requires sys.source == Leased(Some(8), Some(9), Settled, {PROOF})
    ensures Apply(sys, DoFinish(2, LEASE)).source == Leased(Some(8), Some(9), Canceled, {PROOF})
  {
  }
}

/**
  Whole runs of the approval protocol.

  The lock is dropped for every lifecycle callback, so a call is a `Call` record that waits
  in `calls` until some later step answers it. A step is one locked section; its operands
  are the caller's arguments, the clock's answer and the verifier's answer, all arbitrary.
  `log` records what the sections evaluated and granted, in order.
*/
module ApprovalRuns {
  import opened Wrappers
  import opened ApprovalState
  import opened ApprovalInvariant

  datatype Call =
    | IssuePending(generation: nat, request: Request)
    | VerifyPending(proof: Proof, row: Satisfaction, scope: Scope, claim: Claim)
    | ReceiptPending(proof: Proof, row: Satisfaction, native: Handle, nativeDigest: Digest)
    | ReservePending(proof: Proof, row: Satisfaction, contract: Digest, broker: Handle)
    | BeginPending(lease: Lease, proof: Proof, row: Satisfaction, broker: Handle, executor: Option<Handle>,
      job: Option<Handle>)
    | ExecutionPending(lease: Lease, proof: Proof, row: Satisfaction, executor: Option<Handle>, job: Option<Handle>)

  /** What an issue was asked for. */
  datatype Request = Request(scope: Scope, satisfactionId: string, lifetime: real, claim: Claim)

  datatype Event =
    | IssueStarted(call: nat, generation: nat, request: Request)
    | Issued(call: nat, proof: Proof, generation: nat, request: Request, receipt: (Handle, Digest), at: Clock)
    | FenceRaised(generation: nat)
    | Evaluated(proof: Proof, live: bool, generation: nat)
    | Verified(proof: Proof, scope: Scope, claim: Claim)
    | ReceiptConfirmed(proof: Proof, native: Handle, nativeDigest: Digest)
    | LeaseGranted(proof: Proof, lease: Lease, contract: Digest, broker: Handle)
    | JobBound(proof: Proof, lease: Lease, broker: Handle, executor: Option<Handle>, job: Option<Handle>)
    | Began(proof: Proof, lease: Lease, broker: Handle, executor: Option<Handle>, job: Option<Handle>)
    | Executed(proof: Proof, lease: Lease, executor: Option<Handle>, job: Option<Handle>)
    | LeaseFinished(lease: Lease)

  datatype System = System(source: Source, calls: map<nat, Call>, nextCall: nat, log: seq<Event>)

  datatype Step =
    | DoCreateScope(operator: Handle, digest: Digest, capabilities: Digest, epoch: nat, maximum: Digest)
    | StartIssue(operator: Handle, scope: Scope, satisfactionId: string, lifetime: real, claim: Claim, authorized: bool)
    | StartVerify(proof: Proof, scope: Scope, claim: Claim, clock: Clock)
    | StartReceipt(proof: Proof, native: Handle, nativeDigest: Digest, clock: Clock)
    | StartReserve(operator: Handle, proof: Proof, contract: Digest, waives: bool, broker: Handle, clock: Clock)
    | DoBind(operator: Handle, lease: Lease, broker: Handle, executor: Option<Handle>, job: Option<Handle>,
      clock: Clock)
    | StartBegin(operator: Handle, lease: Lease, broker: Handle, executor: Option<Handle>, job: Option<Handle>,
      clock: Clock)
    | StartExecution(lease: Lease, executor: Option<Handle>, job: Option<Handle>, clock: Clock)
    | DoFinish(operator: Handle, lease: Lease)
    | DoFence(operator: Handle)
    | Resume(call: nat, answer: bool, clock: Clock, stable: bool, receipt: Option<(Handle, Digest)>)

  function Start(source: Source): System { System(source, map[], 0, []) }

  function Judged(proof: Proof, live: Liveness, generation: nat): seq<Event> {
    if live == Fault then [] else [Evaluated(proof, live == Alive, generation)]
  }

  /** Leaves the section with new state and events, and with a call waiting if one was opened. */
  function Leave(sys: System, t: Source, judged: seq<Event>, granted: seq<Event>, call: Option<Call>): System {
    match call
    case None => System(t, sys.calls, sys.nextCall, sys.log + (judged + granted))
    case Some(c) => System(t, sys.calls[sys.nextCall := c], sys.nextCall + 1, sys.log + (judged + granted))
  }

  function Apply(sys: System, step: Step): System {
    var s := sys.source;
    match step
    case DoCreateScope(operator, digest, capabilities, epoch, maximum) =>
      Leave(sys, CreateScope(s, operator, digest, capabilities, epoch, maximum).0, [], [], None)
    case StartIssue(operator, scope, id, lifetime, claim, authorized) =>
      if IssueAdmitted(s, operator, scope, id, lifetime, claim, authorized)
      then
        var request := Request(scope, id, lifetime, claim);
        Leave(sys, s, [], [IssueStarted(sys.nextCall, s.generation, request)],
              Some(IssuePending(s.generation, request)))
      else sys
    case StartVerify(proof, scope, claim, clock) =>
      var (t, live, stage) := VerifyCheck(s, proof, scope, claim, clock);
      Leave(sys, t, Judged(proof, live, t.generation), [],
            if stage.Some? && proof in s.issued then Some(VerifyPending(proof, s.issued[proof], scope, claim))
              else None)
    case StartReceipt(proof, native, nativeDigest, clock) =>
      var (t, live, stage) := ReceiptCheck(s, proof, native, nativeDigest, clock);
      Leave(sys, t, Judged(proof, live, t.generation), [],
            if stage.Some? && proof in s.issued then Some(ReceiptPending(proof, s.issued[proof], native, nativeDigest))
            else None)
    case StartReserve(operator, proof, contract, waives, broker, clock) =>
      var (t, live, ok) := ReserveCheck(s, operator, proof, contract, waives, clock);
      Leave(sys, t, Judged(proof, live, t.generation), [],
            if ok && proof in s.issued then Some(ReservePending(proof, s.issued[proof], contract, broker)) else None)
    case DoBind(operator, lease, broker, executor, job, clock) =>
      var (t, live, ok) := BindJob(s, operator, lease, broker, executor, job, clock);
      if lease !in s.leases then sys
      else Leave(sys, t, Judged(s.leases[lease].satisfaction, live, t.generation), if ok
        then [JobBound(s.leases[lease].satisfaction, lease, broker, executor, job)] else [], None)
    case StartBegin(operator, lease, broker, executor, job, clock) =>
      var (t, live, ok) := BeginCheck(s, operator, lease, broker, executor, job, clock);
      if lease !in s.leases || s.leases[lease].satisfaction !in s.issued then sys
      else
        var proof := s.leases[lease].satisfaction;
        Leave(sys, t, Judged(proof, live, t.generation), [],
              if ok then Some(BeginPending(lease, proof, s.issued[proof], broker, executor, job)) else None)
    case StartExecution(lease, executor, job, clock) =>
      var (t, live, ok) := ExecutionCheck(s, lease, executor, job, clock);
      if lease !in s.leases || s.leases[lease].satisfaction !in s.issued then sys
      else
        var proof := s.leases[lease].satisfaction;
        Leave(sys, t, Judged(proof, live, t.generation), [],
              if ok then Some(ExecutionPending(lease, proof, s.issued[proof], executor, job)) else None)
    case DoFinish(operator, lease) =>
      var (t, ok) := Finish(s, operator, lease);
      Leave(sys, t, [], if ok then [LeaseFinished(lease)] else [], None)
    case DoFence(operator) =>
      var (t, ok) := Fence(s, operator);
      Leave(sys, t, [], if ok then [FenceRaised(t.generation)] else [], None)
    case Resume(call, answer, clock, stable, native) =>
      if call !in sys.calls then sys
      else
        var rest := sys.(calls := sys.calls - {call});
        if !answer then rest else Continue(rest, call, sys.calls[call], clock, stable, native)
  }

  /** The second section of a call, after the verifier has said yes. */
  function Continue(sys: System, call: nat, c: Call, clock: Clock, stable: bool,
                    native: Option<(Handle, Digest)>): System {
    var s := sys.source;
    match c
    case IssuePending(generation, r) =>
      var (t, proof) :=
        IssueCommit(s, generation, r.scope, r.satisfactionId, r.lifetime, r.claim, stable, native, clock);
      var issued := if proof.Some? && native.Some? then [Issued(call, proof.value, generation, r, native.value, clock)]
                    else [];
      Leave(sys, t, [], issued, None)
    case VerifyPending(proof, row, scope, claim) =>
      var (t, live) := Recheck(s, proof, row, clock);
      Leave(sys, t, Judged(proof, live, t.generation), if live == Alive then [Verified(proof, scope, claim)] else [],
            None)
    case ReceiptPending(proof, row, approval, digest) =>
      var (t, live) := Recheck(s, proof, row, clock);
      Leave(sys, t, Judged(proof, live, t.generation),
            if live == Alive then [ReceiptConfirmed(proof, approval, digest)] else [], None)
    case ReservePending(proof, row, contract, broker) =>
      var (t, live, lease) := ReserveCommit(s, proof, row, contract, broker, clock);
      var granted := if lease.Some? then [LeaseGranted(proof, lease.value, contract, broker)] else [];
      Leave(sys, t, Judged(proof, live, t.generation), granted, None)
    case BeginPending(lease, proof, row, broker, executor, job) =>
      var (t, live, ok) := BeginCommit(s, lease, row, clock);
      Leave(sys, t, Judged(proof, live, t.generation), if ok then [Began(proof, lease, broker, executor, job)] else [],
            None)
    case ExecutionPending(lease, proof, row, executor, job) =>
      var (t, live, ok) := ExecutionRecheck(s, lease, row, clock);
      Leave(sys, t, Judged(proof, live, t.generation), if ok then [Executed(proof, lease, executor, job)] else [], None)
  }

  function Run(start: System, steps: seq<Step>): System {
    if steps == [] then start else Apply(Run(start, steps[..|steps| - 1]), steps[|steps| - 1])
  }

  // ----- the invariant of the whole system ------------------------------------------------

  ghost predicate Holds(s: Source, l: Lease, p: Proof) {
    l in s.leases && s.leases[l].satisfaction == p
  }

  ghost predicate Names(s: Source, l: Lease, executor: Option<Handle>, job: Option<Handle>) {
    l in s.leases && s.leases[l].executor == executor && s.leases[l].job == job
  }

  ghost predicate RowOf(s: Source, p: Proof, row: Satisfaction) {
    p in s.issued && s.issued[p] == row
  }

  /** A waiting call still describes the state it was admitted in. */
  ghost predicate CallFits(s: Source, c: Call) {
    match c
    case IssuePending(generation, _) => generation <= s.generation
    case VerifyPending(p, row, _, _) => RowOf(s, p, row)
    case ReceiptPending(p, row, _, _) => RowOf(s, p, row)
    case ReservePending(p, row, _, _) => RowOf(s, p, row)
    case BeginPending(l, p, row, _, executor, job) =>
      Holds(s, l, p) && RowOf(s, p, row) && (job.Some? ==> Names(s, l, executor, job))
    case ExecutionPending(l, p, row, executor, job) =>
      Holds(s, l, p) && RowOf(s, p, row) && Names(s, l, executor, job) && s.leases[l].phase != Reserved
  }

  /** What the state must still show for an event that is in the log. */
  ghost predicate Justified(s: Source, e: Event) {
    match e
    case IssueStarted(_, g, _) => g <= s.generation
    case Issued(_, p, g, _, _, _) => p in s.issued && s.issued[p].generation == g
    case FenceRaised(g) => g <= s.generation
    case Evaluated(p, live, g) =>
      p in s.issued && (live ==> s.issued[p].generation == g) && (!live ==> Spent(s, p))
    case Verified(p, _, _) => p in s.issued
    case ReceiptConfirmed(p, _, _) => p in s.issued
    case LeaseGranted(p, l, _, _) => Holds(s, l, p)
    case JobBound(p, l, _, executor, job) => Holds(s, l, p) && (job.Some? ==> Names(s, l, executor, job))
    case Began(p, l, _, executor, job) =>
      Holds(s, l, p) && p in s.used && s.leases[l].phase != Reserved && (job.Some? ==> Names(s, l, executor, job))
    case Executed(p, l, executor, job) =>
      Holds(s, l, p) && Names(s, l, executor, job) && p in s.used && s.leases[l].phase != Reserved
    case LeaseFinished(l) => l in s.leases
  }

  /** What the state must show at the moment an event is appended. */
  ghost predicate Admissible(s: Source, e: Event) {
    match e
    case Issued(_, p, g, _, _, _) => g == s.generation && p !in s.issued
    case FenceRaised(g) => g == s.generation + 1
    case Evaluated(p, live, g) => live ==> !Spent(s, p) && p in s.issued && s.issued[p].generation == g == s.generation
    case LeaseGranted(p, _, _, _) => !HasLease(s.leases, p)
    case Began(p, l, _, _, _) => p !in s.used && Holds(s, l, p)
    case Executed(p, l, executor, job) => Justified(s, e)
    case _ => true
  }

  /** What may not happen: `b` somewhere after `a`. */
  ghost predicate Compatible(a: Event, b: Event) {
    (a.Evaluated? && b.Evaluated? && !a.live && b.live ==> a.proof != b.proof) &&
    (a.Began? && b.Began? ==> a.proof != b.proof) &&
    (a.LeaseGranted? && b.LeaseGranted? ==> a.proof != b.proof) &&
    (a.Executed? && b.Executed? && a.proof == b.proof ==> a == b) &&
    (a.Began? && b.Executed? && a.proof == b.proof ==>
       a.lease == b.lease && (a.job.Some? ==> a.executor == b.executor && a.job == b.job)) &&
    (a.IssueStarted? && b.FenceRaised? ==> a.generation < b.generation) &&
    (a.Issued? && b.FenceRaised? ==> a.generation < b.generation) &&
    (a.FenceRaised? && b.Issued? ==> a.generation <= b.generation) &&
    (a.FenceRaised? && b.Evaluated? && b.live ==> a.generation <= b.generation) &&
    (a.Issued? && b.Evaluated? && b.live && a.proof == b.proof ==> a.generation == b.generation)
  }

  ghost predicate AllJustified(s: Source, log: seq<Event>) {
    forall e :: e in log ==> Justified(s, e)
  }

  ghost predicate Ordered(log: seq<Event>) {
    forall i, j :: 0 <= i < j < |log| ==> Compatible(log[i], log[j])
  }

  ghost predicate CallsFit(s: Source, calls: map<nat, Call>, nextCall: nat) {
    forall c :: c in calls ==> c < nextCall && CallFits(s, calls[c])
  }

  /** An issue call keeps the generation it started in until it is answered. */
  ghost predicate IssuesKeepGeneration(calls: map<nat, Call>, nextCall: nat, log: seq<Event>) {
    (forall e :: e in log && e.IssueStarted? ==>
       e.call < nextCall && (e.call in calls ==> calls[e.call].IssuePending? &&
                                                 calls[e.call].generation == e.generation)) &&
    (forall e, f :: e in log && f in log && e.IssueStarted? && f.Issued? && e.call == f.call ==>
       e.generation == f.generation)
  }

  /** The proof in whose name something was granted: these events need a live proof. */
  function GrantedTo(e: Event): Option<Proof> {
    match e
    case Verified(p, _, _) => Some(p)
    case ReceiptConfirmed(p, _, _) => Some(p)
    case LeaseGranted(p, _, _, _) => Some(p)
    case JobBound(p, _, _, _, _) => Some(p)
    case Began(p, _, _, _, _) => Some(p)
    case Executed(p, _, _, _) => Some(p)
    case _ => None
  }

  /** Every grant comes directly after its own proof was found alive. */
  ghost predicate GrantsFollowLiveness(log: seq<Event>) {
    forall i :: 0 <= i < |log| && GrantedTo(log[i]).Some? ==>
      i > 0 && log[i - 1].Evaluated? && log[i - 1].live && log[i - 1].proof == GrantedTo(log[i]).value
  }

  ghost predicate BeganBefore(log: seq<Event>, end: nat, p: Proof) {
    exists i :: 0 <= i < end && i < |log| && log[i].Began? && log[i].proof == p
  }

  /** Only a successful `begin` puts a proof into `used`, and only then can its execution verify. */
  ghost predicate UsesHaveBegun(used: set<Proof>, log: seq<Event>) {
    (forall p :: p in used ==> BeganBefore(log, |log|, p)) &&
    (forall k :: 0 <= k < |log| && log[k].Executed? ==> BeganBefore(log, k, log[k].proof))
  }

  ghost predicate SystemInvariant(sys: System) {
    GrantsFollowLiveness(sys.log) && UsesHaveBegun(sys.source.used, sys.log) &&
    SourceInvariant(sys.source) && CallsFit(sys.source, sys.calls, sys.nextCall) &&
    AllJustified(sys.source, sys.log) && Ordered(sys.log) && IssuesKeepGeneration(sys.calls, sys.nextCall, sys.log) &&
    (forall e :: e in sys.log && e.Issued? ==> e.call < sys.nextCall)
  }

  lemma JustifiedStable(a: Source, b: Source, e: Event)
    requires SourceInvariant(a) && Sound(a, b) && Justified(a, e)
    ensures Justified(b, e)
  {
    hide SourceInvariant, Spent, ScopesKept, ExecutionLeads, HasForwardingLease;
    if e.Evaluated? && !e.live {
      SpentForever(a, b, e.proof);
    }
    if e.LeaseGranted? || e.JobBound? || e.Began? || e.Executed? {
      LeaseStays(a.leases[e.lease], b.leases[e.lease]);
    }
  }

  lemma LeaseStays(a: Execution, b: Execution)
    requires ExecutionLeads(a, b)
    ensures a.satisfaction == b.satisfaction && (a.phase != Reserved ==> b.phase != Reserved)
    ensures a.job.Some? || a.phase != Reserved ==> a.executor == b.executor && a.job == b.job
  {
  }

  lemma CallFitsStable(a: Source, b: Source, c: Call)
    requires Evolves(a, b) && CallFits(a, c)
    ensures CallFits(b, c)
  {
  }

  lemma AdmissibleIsCompatible(s: Source, a: Event, b: Event)
    requires SourceInvariant(s) && Justified(s, a) && Admissible(s, b)
    ensures Compatible(a, b)
  {
    OneLease(s);
    hide SourceInvariant, Spent;
  }

  lemma OneLease(s: Source)
    requires SourceInvariant(s)
    ensures OneLeasePerProof(s.leases) && forall l, p :: Holds(s, l, p) ==> HasLease(s.leases, p)
  {
    hide ScopesRecorded, ProofsRecorded, OneProofPerIdentity, LeasesRecorded, OneLeasePerProof, UsedByForwarding,
      UsedHaveLeases;
  }

  lemma StillBegan(log: seq<Event>, events: seq<Event>, end: nat, p: Proof)
    requires end <= |log| && BeganBefore(log, end, p)
    ensures BeganBefore(log + events, end, p) && forall k :: end <= k ==> BeganBefore(log + events, k, p)
  {
    var i :| 0 <= i < end && i < |log| && log[i].Began? && log[i].proof == p;
    assert (log + events)[i] == log[i];
  }

  lemma UsesStillBegun(s: Source, t: Source, log: seq<Event>, events: seq<Event>)
    requires UsesHaveBegun(s.used, log)
    requires forall p :: p in t.used ==> p in s.used || BeganIn(events, p)
    requires forall e :: e in events && e.Executed? ==> e.proof in s.used
    ensures UsesHaveBegun(t.used, log + events)
  {
    var all := log + events;
    forall p | p in t.used ensures BeganBefore(all, |all|, p) {
      if p in s.used {
        StillBegan(log, events, |log|, p);
      } else {
        var i :| 0 <= i < |events| && events[i].Began? && events[i].proof == p;
        assert all[|log| + i] == events[i];
      }
    }
    forall k | 0 <= k < |all| && all[k].Executed? ensures BeganBefore(all, k, all[k].proof) {
      if k < |log| {
        StillBegan(log, events, k, log[k].proof);
      } else {
        assert all[k] == events[k - |log|];
        StillBegan(log, events, |log|, all[k].proof);
      }
    }
  }

  ghost predicate BeganIn(events: seq<Event>, p: Proof) {
    exists i :: 0 <= i < |events| && events[i].Began? && events[i].proof == p
  }

  /** Where a step may lead: the invariant again, in a source that moved forward. */
  ghost predicate Advanced(a: System, b: System) {
    SystemInvariant(b) && Sound(a.source, b.source)
  }

  /** The shape every step has: new sound state, admissible events, at most one call opened or closed. */
  lemma Advance(sys: System, t: Source, events: seq<Event>, calls: map<nat, Call>, nextCall: nat)
    requires SystemInvariant(sys) && Sound(sys.source, t) && sys.nextCall <= nextCall
    requires forall e :: e in events ==> Admissible(sys.source, e) && Justified(t, e)
    requires Ordered(events) && GrantsFollowLiveness(events)
    requires forall p :: p in t.used ==> p in sys.source.used || BeganIn(events, p)
    requires forall c :: c in calls ==>
               c < nextCall && ((c in sys.calls && calls[c] == sys.calls[c]) ||
                 (c >= sys.nextCall && CallFits(t, calls[c])))
    requires forall e :: e in events && e.IssueStarted? ==>
               e.call >= sys.nextCall && e.call < nextCall && e.call in calls &&
               calls[e.call].IssuePending? && calls[e.call].generation == e.generation
    requires forall e :: e in events && e.Issued? ==>
               e.call in sys.calls && sys.calls[e.call].IssuePending? && sys.calls[e.call].generation == e.generation
    requires forall e, f :: e in events && f in events && e.IssueStarted? && f.Issued? ==> e.call != f.call
    ensures Advanced(sys, System(t, calls, nextCall, sys.log + events))
  {
    hide SourceInvariant, Spent, HasForwardingLease, Compatible, CallFits, UsesHaveBegun;
    var log := sys.log + events;
    UsesStillBegun(sys.source, t, sys.log, events);
    forall e | e in log ensures Justified(t, e) {
      if e in sys.log { JustifiedStable(sys.source, t, e); }
    }
    forall i, j | 0 <= i < j < |log| ensures Compatible(log[i], log[j]) {
      if i < |sys.log| <= j {
        AdmissibleIsCompatible(sys.source, log[i], log[j]);
      } else if i >= |sys.log| {
        assert Compatible(events[i - |sys.log|], events[j - |sys.log|]);
      }
    }
    forall c | c in calls ensures c < nextCall && CallFits(t, calls[c]) {
      if c in sys.calls { CallFitsStable(sys.source, t, sys.calls[c]); }
    }
    assert CallsFit(t, calls, nextCall);
  }

  lemma OneEventOrdered(events: seq<Event>)
    requires |events| <= 1
    ensures Ordered(events)
  {
  }

  /** Leaving a section that evaluated one proof, granted at most one thing, and opened at most one call. */
  lemma LeaveKeeps(sys: System, t: Source, judged: seq<Event>, granted: seq<Event>, call: Option<Call>)
    requires SystemInvariant(sys) && Sound(sys.source, t)
    requires |judged| <= 1 && forall e :: e in judged ==> e.Evaluated? && Admissible(sys.source, e) && Justified(t, e)
    requires |granted| <= 1 && forall e :: e in granted ==>
               !e.IssueStarted? && !e.Issued? && !e.Evaluated? && !e.FenceRaised? && Admissible(sys.source, e) &&
                 Justified(t, e)
    requires call.Some? ==> CallFits(t, call.value)
    requires granted != [] && GrantedTo(granted[0]).Some? ==>
               judged != [] && judged[0].live && judged[0].proof == GrantedTo(granted[0]).value
    requires forall p :: p in t.used ==> p in sys.source.used || BeganIn(granted, p)
    ensures Advanced(sys, Leave(sys, t, judged, granted, call))
  {
    hide SourceInvariant, Sound, Justified, Admissible, AllJustified, CallFits, IssuesKeepGeneration;
    var calls := if call.Some? then sys.calls[sys.nextCall := call.value] else sys.calls;
    var nextCall := if call.Some? then sys.nextCall + 1 else sys.nextCall;
    forall c | c in calls
      ensures c < nextCall && ((c in sys.calls && calls[c] == sys.calls[c]) ||
              (c >= sys.nextCall && CallFits(t, calls[c])))
    {
    }
    forall p | p in t.used && p !in sys.source.used ensures BeganIn(judged + granted, p) {
      var i :| 0 <= i < |granted| && granted[i].Began? && granted[i].proof == p;
      assert (judged + granted)[|judged| + i] == granted[i];
    }
    forall i, j | 0 <= i < j < |judged + granted| ensures Compatible((judged + granted)[i], (judged + granted)[j]) {
      assert (judged + granted)[i] in judged && (judged + granted)[j] in granted;
    }
    Advance(sys, t, judged + granted, calls, nextCall);
  }

  lemma JudgedFits(s: Source, t: Source, p: Proof, live: Liveness)
    requires SourceInvariant(s) && Sound(s, t) && t.generation == s.generation
    requires live != Fault ==> p in s.issued
    requires (live == Dead ==> Spent(t, p)) && (live == Alive ==> !Spent(s, p))
    ensures forall e :: e in Judged(p, live, t.generation) ==> e.Evaluated? && Admissible(s, e) && Justified(t, e)
  {
    CurrentUnlessSpent(s, p);
    hide SourceInvariant, Spent;
    if live != Fault { assert p in t.issued && t.issued[p] == s.issued[p]; }
  }

  lemma CurrentUnlessSpent(s: Source, p: Proof)
    ensures p in s.issued && !Spent(s, p) ==> s.issued[p].generation == s.generation
  {
  }

  /** `EvaluateSound`, in the form the sections need. */
  lemma Judge(s: Source, p: Proof, clock: Clock)
    requires SourceInvariant(s) && p in s.issued
    ensures var (t, live) := Evaluate(s, p, s.issued[p], clock);
            Sound(s, t) && t == s.(lastNow := t.lastNow) &&
            forall e :: e in Judged(p, live, t.generation) ==> e.Evaluated? && Admissible(s, e) && Justified(t, e)
  {
    EvaluateSound(s, p, clock);
    var (t, live) := Evaluate(s, p, s.issued[p], clock);
    JudgedFits(s, t, p, live);
  }

  lemma DropCallKeeps(sys: System, call: nat)
    requires SystemInvariant(sys)
    ensures Advanced(sys, sys.(calls := sys.calls - {call}))
  {
    SameSound(sys.source);
  }

  lemma CreateScopeKeeps(sys: System, operator: Handle, digest: Digest, capabilities: Digest, epoch: nat,
                         maximum: Digest)
    requires SystemInvariant(sys)
    ensures Advanced(sys, Apply(sys, DoCreateScope(operator, digest, capabilities, epoch, maximum)))
  {
    CreateScopeSound(sys.source, operator, digest, capabilities, epoch, maximum);
    LeaveKeeps(sys, CreateScope(sys.source, operator, digest, capabilities, epoch, maximum).0, [], [], None);
  }

  lemma StartIssueKeeps(sys: System, step: Step)
    requires SystemInvariant(sys) && step.StartIssue?
    ensures Advanced(sys, Apply(sys, step))
  {
    hide SourceInvariant, Evolves, AllJustified, IssuesKeepGeneration, Ordered;
    SameSound(sys.source);
    if Apply(sys, step) != sys {
      var request := Request(step.scope, step.satisfactionId, step.lifetime, step.claim);
      var c := IssuePending(sys.source.generation, request);
      var granted := [IssueStarted(sys.nextCall, sys.source.generation, request)];
      assert [] + granted == granted;
      OneEventOrdered(granted);
      Advance(sys, sys.source, granted, sys.calls[sys.nextCall := c], sys.nextCall + 1);
    }
  }

  lemma StartCheckKeeps(sys: System, step: Step)
    requires SystemInvariant(sys) && (step.StartVerify? || step.StartReceipt? || step.StartReserve?)
    ensures Advanced(sys, Apply(sys, step))
  {
    hide SourceInvariant, Evolves, AllJustified, IssuesKeepGeneration, Ordered;
    var s := sys.source;
    SameSound(s);
    if step.proof in s.issued {
      Judge(s, step.proof, step.clock);
    }
    match step
    case StartVerify(proof, scope, claim, clock) =>
      var (t, live, stage) := VerifyCheck(s, proof, scope, claim, clock);
      LeaveKeeps(sys, t, Judged(proof, live, t.generation), [],
                 if stage.Some? && proof in s.issued then Some(VerifyPending(proof, s.issued[proof], scope, claim))
                 else None);
    case StartReceipt(proof, native, nativeDigest, clock) =>
      var (t, live, stage) := ReceiptCheck(s, proof, native, nativeDigest, clock);
      LeaveKeeps(sys, t, Judged(proof, live, t.generation), [],
                 if stage.Some? && proof in s.issued
                 then Some(ReceiptPending(proof, s.issued[proof], native, nativeDigest)) else None);
    case StartReserve(operator, proof, contract, waives, broker, clock) =>
      var (t, live, ok) := ReserveCheck(s, operator, proof, contract, waives, clock);
      LeaveKeeps(sys, t, Judged(proof, live, t.generation), [],
                 if ok && proof in s.issued then Some(ReservePending(proof, s.issued[proof], contract, broker))
                   else None);
  }

  lemma BindKeeps(sys: System, step: Step)
    requires SystemInvariant(sys) && step.DoBind?
    ensures Advanced(sys, Apply(sys, step))
  {
    hide SourceInvariant, Evolves, AllJustified, IssuesKeepGeneration, Ordered;
    var s := sys.source;
    BindSound(s, step.operator, step.lease, step.broker, step.executor, step.job, step.clock);
    var (t, live, ok) := BindJob(s, step.operator, step.lease, step.broker, step.executor, step.job, step.clock);
    if step.lease in s.leases {
      var p := s.leases[step.lease].satisfaction;
      JudgedFits(s, t, p, live);
      LeaveKeeps(sys, t, Judged(p, live, t.generation),
                 if ok then [JobBound(p, step.lease, step.broker, step.executor, step.job)] else [], None);
    }
  }

  lemma StartLeaseCheckKeeps(sys: System, step: Step)
    requires SystemInvariant(sys) && (step.StartBegin? || step.StartExecution?)
    ensures Advanced(sys, Apply(sys, step))
  {
    hide SourceInvariant, Evolves, AllJustified, IssuesKeepGeneration, Ordered;
    var s := sys.source;
    SameSound(s);
    if step.lease in s.leases && s.leases[step.lease].satisfaction in s.issued {
      var p := s.leases[step.lease].satisfaction;
      Judge(s, p, step.clock);
      match step
      case StartBegin(operator, lease, broker, executor, job, clock) =>
        var (t, live, ok) := BeginCheck(s, operator, lease, broker, executor, job, clock);
        LeaveKeeps(sys, t, Judged(p, live, t.generation), [],
                   if ok then Some(BeginPending(lease, p, s.issued[p], broker, executor, job)) else None);
      case StartExecution(lease, executor, job, clock) =>
        var (t, live, ok) := ExecutionCheck(s, lease, executor, job, clock);
        LeaveKeeps(sys, t, Judged(p, live, t.generation), [],
                   if ok then Some(ExecutionPending(lease, p, s.issued[p], executor, job)) else None);
    }
  }

  lemma FinishKeeps(sys: System, operator: Handle, lease: Lease)
    requires SystemInvariant(sys)
    ensures Advanced(sys, Apply(sys, DoFinish(operator, lease)))
  {
    hide SourceInvariant, Evolves, AllJustified, IssuesKeepGeneration, Ordered;
    FinishSound(sys.source, operator, lease);
    var (t, ok) := Finish(sys.source, operator, lease);
    LeaveKeeps(sys, t, [], if ok then [LeaseFinished(lease)] else [], None);
  }

  lemma RaiseFence(sys: System, t: Source, raised: seq<Event>)
    requires SystemInvariant(sys) && Sound(sys.source, t) && t.used == sys.source.used
    requires raised == [] || (raised == [FenceRaised(t.generation)] && t.generation == sys.source.generation + 1)
    ensures Advanced(sys, Leave(sys, t, [], raised, None))
  {
    hide SourceInvariant, Sound, AllJustified, IssuesKeepGeneration, Ordered, UsesHaveBegun;
    assert [] + raised == raised;
    OneEventOrdered(raised);
    Advance(sys, t, raised, sys.calls, sys.nextCall);
  }

  lemma FenceKeeps(sys: System, operator: Handle)
    requires SystemInvariant(sys)
    ensures Advanced(sys, Apply(sys, DoFence(operator)))
  {
    hide SourceInvariant, Evolves, AllJustified, IssuesKeepGeneration, Ordered, UsesHaveBegun, Spent, FencedLeases;
    FenceSound(sys.source, operator);
    var (t, ok) := Fence(sys.source, operator);
    RaiseFence(sys, t, if ok then [FenceRaised(t.generation)] else []);
  }

  /** The second section of an issue call, with the call itself still recorded. */
  lemma IssueKeeps(sys: System, call: nat, clock: Clock, stable: bool, native: Option<(Handle, Digest)>)
    requires SystemInvariant(sys) && call in sys.calls && sys.calls[call].IssuePending?
    ensures Advanced(sys, Continue(sys.(calls := sys.calls - {call}), call, sys.calls[call], clock, stable, native))
  {
    hide SourceInvariant, Evolves, AllJustified, IssuesKeepGeneration, Ordered, ReserveCommit, BeginCommit, Recheck,
      ExecutionRecheck, IdentityTaken, KnownScope;
    var s, c := sys.source, sys.calls[call];
    var r := c.request;
    IssueCommitSound(s, c.generation, r.scope, r.satisfactionId, r.lifetime, r.claim, stable, native, clock);
    var (t, proof) :=
      IssueCommit(s, c.generation, r.scope, r.satisfactionId, r.lifetime, r.claim, stable, native, clock);
    var granted := if proof.Some? then [Issued(call, proof.value, c.generation, r, native.value, clock)] else [];
    assert [] + granted == granted;
    OneEventOrdered(granted);
    Advance(sys, t, granted, sys.calls - {call}, sys.nextCall);
  }

  lemma ForwardingIsUsed(s: Source, l: Lease)
    requires SourceInvariant(s) && l in s.leases && s.leases[l].phase == Forwarding
    ensures s.leases[l].satisfaction in s.used
  {
  }

  lemma RecheckKeeps(sys: System, call: nat, c: Call, clock: Clock, stable: bool, native: Option<(Handle, Digest)>)
    requires SystemInvariant(sys) && CallFits(sys.source, c) &&
             (c.VerifyPending? || c.ReceiptPending? || c.ExecutionPending?)
    ensures Advanced(sys, Continue(sys, call, c, clock, stable, native))
  {
    hide SourceInvariant, Evolves, AllJustified, IssuesKeepGeneration, Ordered;
    var s := sys.source;
    SameSound(s);
    Judge(s, c.proof, clock);
    match c
    case VerifyPending(p, row, scope, claim) =>
      var (t, live) := Recheck(s, p, row, clock);
      LeaveKeeps(sys, t, Judged(p, live, t.generation), if live == Alive then [Verified(p, scope, claim)] else [],
                 None);
    case ReceiptPending(p, row, approval, digest) =>
      var (t, live) := Recheck(s, p, row, clock);
      LeaveKeeps(sys, t, Judged(p, live, t.generation),
                 if live == Alive then [ReceiptConfirmed(p, approval, digest)] else [], None);
    case ExecutionPending(l, p, row, executor, job) =>
      var (t, live, ok) := ExecutionRecheck(s, l, row, clock);
      if ok { ForwardingIsUsed(s, l); }
      LeaveKeeps(sys, t, Judged(p, live, t.generation), if ok then [Executed(p, l, executor, job)] else [], None);
  }

  lemma ReserveKeeps(sys: System, call: nat, c: Call, clock: Clock, stable: bool, native: Option<(Handle, Digest)>)
    requires SystemInvariant(sys) && CallFits(sys.source, c) && c.ReservePending?
    ensures Advanced(sys, Continue(sys, call, c, clock, stable, native))
  {
    hide SourceInvariant, Evolves, AllJustified, IssuesKeepGeneration, Ordered;
    var s := sys.source;
    ReserveCommitSound(s, c.proof, c.contract, c.broker, clock);
    var (t, live, lease) := ReserveCommit(s, c.proof, c.row, c.contract, c.broker, clock);
    JudgedFits(s, t, c.proof, live);
    LeaveKeeps(sys, t, Judged(c.proof, live, t.generation),
               if lease.Some? then [LeaseGranted(c.proof, lease.value, c.contract, c.broker)] else [], None);
  }

  lemma BeginKeeps(sys: System, call: nat, c: Call, clock: Clock, stable: bool, native: Option<(Handle, Digest)>)
    requires SystemInvariant(sys) && CallFits(sys.source, c) && c.BeginPending?
    ensures Advanced(sys, Continue(sys, call, c, clock, stable, native))
  {
    hide SourceInvariant, Evolves, AllJustified, IssuesKeepGeneration, Ordered;
    var s := sys.source;
    BeginCommitSound(s, c.lease, clock);
    var (t, live, ok) := BeginCommit(s, c.lease, c.row, clock);
    JudgedFits(s, t, c.proof, live);
    LeaveKeeps(sys, t, Judged(c.proof, live, t.generation),
               if ok then [Began(c.proof, c.lease, c.broker, c.executor, c.job)] else [], None);
  }

  /** Every locked section, entered in any state a run can reach, keeps the system invariant. */
  lemma StepKeeps(sys: System, step: Step)
    requires SystemInvariant(sys)
    ensures Advanced(sys, Apply(sys, step))
  {
    match step
    case DoCreateScope(o, d, c, e, m) => CreateScopeKeeps(sys, o, d, c, e, m);
    case StartIssue(_, _, _, _, _, _) => StartIssueKeeps(sys, step);
    case StartVerify(_, _, _, _) => StartCheckKeeps(sys, step);
    case StartReceipt(_, _, _, _) => StartCheckKeeps(sys, step);
    case StartReserve(_, _, _, _, _, _) => StartCheckKeeps(sys, step);
    case DoBind(_, _, _, _, _, _) => BindKeeps(sys, step);
    case StartBegin(_, _, _, _, _, _) => StartLeaseCheckKeeps(sys, step);
    case StartExecution(_, _, _, _) => StartLeaseCheckKeeps(sys, step);
    case DoFinish(o, l) => FinishKeeps(sys, o, l);
    case DoFence(o) => FenceKeeps(sys, o);
    case Resume(call, answer, clock, stable, receipt) =>
      DropCallKeeps(sys, call);
      if call in sys.calls && answer {
        var rest, c := sys.(calls := sys.calls - {call}), sys.calls[call];
        match c
        case IssuePending(_, _) => IssueKeeps(sys, call, clock, stable, receipt);
        case ReservePending(_, _, _, _) => ReserveKeeps(rest, call, c, clock, stable, receipt);
        case BeginPending(_, _, _, _, _, _) => BeginKeeps(rest, call, c, clock, stable, receipt);
        case _ => RecheckKeeps(rest, call, c, clock, stable, receipt);
      }
  }
}

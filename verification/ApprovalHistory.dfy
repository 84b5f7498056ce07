/**
  The log of a run decides what every call may do. An approval is what its issue event says:
  for one scope, one claim and one receipt, until a fence, its expiry, or the end of the one
  lease it began. Each section goes ahead exactly if the events before say so.
*/
module ApprovalHistory {
  import opened Wrappers
  import opened ApprovalState
  import opened ApprovalInvariant
  import opened ApprovalRuns
  import opened ApprovalTheorems

  // ----- what a log says ----------------------------------------------------------------------

  predicate Ends(e: Event, l: Lease) { e.FenceRaised? || (e.LeaseFinished? && e.lease == l) }

  predicate Touches(e: Event, l: Lease) { Ends(e, l) || (e.Began? && e.lease == l) }

  ghost predicate FencedSince(log: seq<Event>, i: nat) { exists k :: i < k < |log| && log[k].FenceRaised? }

  ghost predicate EndedSince(log: seq<Event>, i: nat, l: Lease) { exists k :: i < k < |log| && Ends(log[k], l) }

  ghost predicate TouchedSince(log: seq<Event>, i: nat, l: Lease) { exists k :: i < k < |log| && Touches(log[k], l) }

  /** The executor and job that a lease was bound to last. */
  function Handles(log: seq<Event>, l: Lease): (Option<Handle>, Option<Handle>) {
    if log == [] then (None, None)
    else
      var last := log[|log| - 1];
      if last.JobBound? && last.lease == l then (last.executor, last.job) else Handles(log[..|log| - 1], l)
  }

  ghost predicate IssueOf(log: seq<Event>, i: nat, p: Proof) { i < |log| && log[i].Issued? && log[i].proof == p }

  ghost predicate GrantOf(log: seq<Event>, i: nat, l: Lease) { i < |log| && log[i].LeaseGranted? && log[i].lease == l }

  ghost predicate BeginOf(log: seq<Event>, i: nat, p: Proof) { i < |log| && log[i].Began? && log[i].proof == p }

  /** The approval issued at `i` holds at this time: not fenced, not expired, and not used up. */
  ghost predicate LiveAt(log: seq<Event>, i: nat, now: real)
    requires i < |log| && log[i].Issued?
  {
    log[i].at.Reading? && now < log[i].at.now + log[i].request.lifetime && !FencedSince(log, i) &&
    forall j: nat :: BeginOf(log, j, log[i].proof) ==> !EndedSince(log, j, log[j].lease)
  }

  /** A lease that was granted and of which nothing else was heard than bindings. */
  ghost predicate Waiting(log: seq<Event>, l: Lease) { exists i: nat :: GrantOf(log, i, l) && !TouchedSince(log, i, l) }

  /** A lease that began and has not ended. */
  ghost predicate Running(log: seq<Event>, l: Lease) {
    exists i: nat :: i < |log| && log[i].Began? && log[i].lease == l && !EndedSince(log, i, l)
  }

  // ----- what an event does to the tables -----------------------------------------------------

  predicate SameTables(a: Source, b: Source) {
    a.issued == b.issued && a.leases == b.leases && a.used == b.used && a.generation == b.generation
  }

  /** An issue was asked for in the terms its scope allows. */
  predicate Fair(r: Request) {
    r.claim.contract == Some(r.scope.capabilities) && 0.0 < r.lifetime <= 300.0 && ValidIdentity(r.satisfactionId)
  }

  function RowFor(e: Event): Satisfaction
    requires e.Issued? && e.at.Reading?
  {
    Satisfaction(e.request.scope, e.request.claim, e.receipt.0, e.receipt.1, e.at.now + e.request.lifetime,
      e.generation)
  }

  ghost predicate Tells(a: Source, e: Event, b: Source) {
    match e
    case Issued(_, p, g, r, _, at) =>
      p !in a.issued && g == a.generation && Fair(r) && p.satisfactionId == r.satisfactionId && at.Reading? &&
      b.issued == a.issued[p := RowFor(e)] && SameTables(a, b.(issued := a.issued))
    case FenceRaised(g) =>
      b.generation == a.generation + 1 && b.leases == FencedLeases(a.leases) &&
      SameTables(a, b.(generation := a.generation, leases := a.leases))
    case LeaseGranted(p, l, contract, broker) =>
      l !in a.leases && b.leases == a.leases[l := Execution(p, contract, broker, None, None, Reserved)] &&
      SameTables(a, b.(leases := a.leases))
    case JobBound(p, l, broker, executor, job) =>
      l in a.leases && b.leases == a.leases[l := a.leases[l].(executor := executor, job := job)] &&
      SameTables(a, b.(leases := a.leases))
    case Began(p, l, broker, executor, job) =>
      l in a.leases && a.leases[l].satisfaction == p && a.leases[l].phase == Reserved &&
      b.leases == a.leases[l := a.leases[l].(phase := Forwarding)] && b.used == a.used + {p} &&
      SameTables(a, b.(leases := a.leases, used := a.used))
    case IssueStarted(_, g, r) => g == a.generation && Fair(r) && SameTables(a, b)
    case LeaseFinished(l) =>
      l in a.leases && b.leases == a.leases[l := a.leases[l].(phase := FinishedPhase(a.leases[l].phase))] &&
      SameTables(a, b.(leases := a.leases))
    case _ => SameTables(a, b)
  }

  // ----- the tables are what the log says -----------------------------------------------------

  ghost predicate RowTold(s: Source, e: Event)
    requires e.Issued?
  {
    e.at.Reading? && Fair(e.request) && e.proof.satisfactionId == e.request.satisfactionId &&
    e.proof in s.issued && s.issued[e.proof] == RowFor(e)
  }

  ghost predicate IssuesTold(s: Source, log: seq<Event>) {
    (forall i :: 0 <= i < |log| && log[i].Issued? ==> RowTold(s, log[i])) &&
    (forall p :: p in s.issued ==> exists i: nat :: IssueOf(log, i, p))
  }

  ghost predicate FencesTold(s: Source, log: seq<Event>) {
    forall i :: 0 <= i < |log| && (log[i].Issued? || log[i].IssueStarted?) ==>
      log[i].generation <= s.generation && (log[i].generation == s.generation <==> !FencedSince(log, i))
  }

  ghost predicate UsesTold(s: Source, log: seq<Event>) {
    forall p :: p in s.used <==> exists i: nat :: BeginOf(log, i, p)
  }

  ghost predicate GrantTold(s: Source, e: Event)
    requires e.LeaseGranted?
  {
    e.lease in s.leases && s.leases[e.lease].satisfaction == e.proof && s.leases[e.lease].baseContract == e.contract &&
    s.leases[e.lease].broker == e.broker
  }

  ghost predicate LeasesTold(s: Source, log: seq<Event>) {
    (forall i :: 0 <= i < |log| && log[i].LeaseGranted? ==> GrantTold(s, log[i])) &&
    (forall l :: l in s.leases ==> exists i: nat :: GrantOf(log, i, l))
  }

  ghost predicate WaitingTold(s: Source, log: seq<Event>) {
    forall l :: Waiting(log, l) <==> l in s.leases && s.leases[l].phase == Reserved
  }

  ghost predicate RunningTold(s: Source, log: seq<Event>) {
    (forall l :: Running(log, l) <==> l in s.leases && s.leases[l].phase == Forwarding) &&
    (forall i :: 0 <= i < |log| && log[i].Began? ==>
       log[i].lease in s.leases && s.leases[log[i].lease].satisfaction == log[i].proof &&
       s.leases[log[i].lease].phase != Reserved)
  }

  ghost predicate HandlesTold(s: Source, log: seq<Event>) {
    (forall l :: l in s.leases ==> (s.leases[l].executor, s.leases[l].job) == Handles(log, l)) &&
    (forall l :: l !in s.leases ==> Handles(log, l) == (None, None))
  }

  ghost predicate TablesTold(s: Source, log: seq<Event>) {
    IssuesTold(s, log) && FencesTold(s, log) && UsesTold(s, log) && LeasesTold(s, log) && WaitingTold(s, log) &&
    RunningTold(s, log) && HandlesTold(s, log)
  }

  lemma OneLater(log: seq<Event>, e: Event)
    ensures forall i :: 0 <= i < |log| ==> (FencedSince(log + [e], i) <==> FencedSince(log, i) || e.FenceRaised?)
    ensures forall i, l :: 0 <= i < |log| ==> (EndedSince(log + [e], i, l) <==> EndedSince(log, i, l) || Ends(e, l))
    ensures forall i, l :: 0 <= i < |log| ==>
              (TouchedSince(log + [e], i, l) <==> TouchedSince(log, i, l) || Touches(e, l))
    ensures !FencedSince(log + [e], |log|) && forall l :: !EndedSince(log + [e], |log|, l) &&
                                                       !TouchedSince(log + [e], |log|, l)
    ensures forall l :: Handles(log + [e], l) ==
                        if e.JobBound? && e.lease == l then (e.executor, e.job) else Handles(log, l)
  {
    var all := log + [e];
    assert all[..|log|] == log && all[|log|] == e;
    forall i | 0 <= i < |log| ensures FencedSince(all, i) <==> FencedSince(log, i) || e.FenceRaised? {
      if FencedSince(log, i) { var k :| i < k < |log| && log[k].FenceRaised?; assert all[k].FenceRaised?; }
    }
    hide Ends;
    forall i, l | 0 <= i < |log| ensures EndedSince(all, i, l) <==> EndedSince(log, i, l) || Ends(e, l) {
      if EndedSince(log, i, l) { var k :| i < k < |log| && Ends(log[k], l); assert Ends(all[k], l); }
      if Ends(e, l) { assert Ends(all[|log|], l); }
    }
    hide Touches;
    forall i, l | 0 <= i < |log| ensures TouchedSince(all, i, l) <==> TouchedSince(log, i, l) || Touches(e, l) {
      if TouchedSince(log, i, l) { var k :| i < k < |log| && Touches(log[k], l); assert Touches(all[k], l); }
      if Touches(e, l) { assert Touches(all[|log|], l); }
    }
  }

  lemma IssuesStep(a: Source, log: seq<Event>, e: Event, b: Source)
    requires IssuesTold(a, log) && Tells(a, e, b)
    ensures IssuesTold(b, log + [e])
  {
    hide Fair, RowFor;
    var all := log + [e];
    forall p | p in b.issued ensures exists i: nat :: IssueOf(all, i, p) {
      if p in a.issued {
        var i: nat :| IssueOf(log, i, p);
        assert IssueOf(all, i, p);
      } else {
        assert IssueOf(all, |log|, p);
      }
    }
  }

  lemma FencesStep(a: Source, log: seq<Event>, e: Event, b: Source)
    requires FencesTold(a, log) && Tells(a, e, b)
    ensures FencesTold(b, log + [e])
  {
    OneLater(log, e);
    hide FencedSince, Fair, RowFor, FencedLeases;
  }

  lemma UsesStep(a: Source, log: seq<Event>, e: Event, b: Source)
    requires UsesTold(a, log) && Tells(a, e, b)
    ensures UsesTold(b, log + [e])
  {
    hide Fair, RowFor, FencedLeases;
    var all := log + [e];
    forall p ensures p in b.used <==> exists i: nat :: BeginOf(all, i, p) {
      if exists i: nat :: BeginOf(log, i, p) {
        var i: nat :| BeginOf(log, i, p);
        assert BeginOf(all, i, p);
      }
      if e.Began? && e.proof == p { assert BeginOf(all, |log|, p); }
      if exists i: nat :: BeginOf(all, i, p) {
        var i: nat :| BeginOf(all, i, p);
        assert i < |log| ==> BeginOf(log, i, p);
      }
    }
  }

  lemma LeasesStep(a: Source, log: seq<Event>, e: Event, b: Source)
    requires LeasesTold(a, log) && Tells(a, e, b)
    ensures LeasesTold(b, log + [e])
  {
    hide Fair, RowFor;
    var all := log + [e];
    forall l | l in b.leases ensures exists i: nat :: GrantOf(all, i, l) {
      if l in a.leases {
        var i: nat :| GrantOf(log, i, l);
        assert GrantOf(all, i, l);
      } else {
        assert GrantOf(all, |log|, l);
      }
    }
  }

  lemma WaitingMore(log: seq<Event>, e: Event, l: Lease)
    ensures Waiting(log + [e], l) <==>
            (e.LeaseGranted? && e.lease == l) || (Waiting(log, l) && !Touches(e, l))
  {
    OneLater(log, e);
    hide TouchedSince, Touches;
    var all := log + [e];
    if Waiting(log, l) && !Touches(e, l) {
      var i: nat :| GrantOf(log, i, l) && !TouchedSince(log, i, l);
      assert GrantOf(all, i, l);
    }
    if e.LeaseGranted? && e.lease == l { assert GrantOf(all, |log|, l); }
    if Waiting(all, l) {
      var i: nat :| GrantOf(all, i, l) && !TouchedSince(all, i, l);
      assert i < |log| ==> GrantOf(log, i, l);
    }
  }

  lemma WaitingStep(a: Source, log: seq<Event>, e: Event, b: Source)
    requires WaitingTold(a, log) && Tells(a, e, b)
    ensures WaitingTold(b, log + [e])
  {
    hide Waiting, Fair, RowFor;
    forall l ensures Waiting(log + [e], l) <==> l in b.leases && b.leases[l].phase == Reserved {
      WaitingMore(log, e, l);
    }
  }

  lemma RunningMore(log: seq<Event>, e: Event, l: Lease)
    ensures Running(log + [e], l) <==> (e.Began? && e.lease == l) || (Running(log, l) && !Ends(e, l))
  {
    OneLater(log, e);
    hide EndedSince, Ends;
    var all := log + [e];
    if Running(log, l) && !Ends(e, l) {
      var i: nat :| 0 <= i < |log| && log[i].Began? && log[i].lease == l && !EndedSince(log, i, l);
      assert all[i].Began?;
    }
    if e.Began? && e.lease == l { assert all[|log|].Began?; }
    if Running(all, l) {
      var i: nat :| 0 <= i < |all| && all[i].Began? && all[i].lease == l && !EndedSince(all, i, l);
      assert i < |log| ==> log[i].Began?;
    }
  }

  lemma RunningStep(a: Source, log: seq<Event>, e: Event, b: Source)
    requires RunningTold(a, log) && Tells(a, e, b)
    ensures RunningTold(b, log + [e])
  {
    hide Running, Fair, RowFor;
    forall l ensures Running(log + [e], l) <==> l in b.leases && b.leases[l].phase == Forwarding {
      RunningMore(log, e, l);
    }
  }

  lemma HandlesStep(a: Source, log: seq<Event>, e: Event, b: Source)
    requires HandlesTold(a, log) && Tells(a, e, b)
    ensures HandlesTold(b, log + [e])
  {
    OneLater(log, e);
    hide Handles, Fair, RowFor;
  }

  lemma TablesStep(a: Source, log: seq<Event>, e: Event, b: Source)
    requires TablesTold(a, log) && Tells(a, e, b)
    ensures TablesTold(b, log + [e])
  {
    hide Tells, IssuesTold, FencesTold, UsesTold, LeasesTold, WaitingTold, RunningTold, HandlesTold;
    IssuesStep(a, log, e, b);
    FencesStep(a, log, e, b);
    UsesStep(a, log, e, b);
    LeasesStep(a, log, e, b);
    WaitingStep(a, log, e, b);
    RunningStep(a, log, e, b);
    HandlesStep(a, log, e, b);
  }

  // ----- what a waiting call and a new event are about ----------------------------------------

  /** A waiting call holds the row of its proof, and was let in with the operands that row allows. */
  ghost predicate PendingTold(s: Source, log: seq<Event>, id: nat, c: Call) {
    match c
    case IssuePending(g, r) => Fair(r) && IssueStarted(id, g, r) in log
    case VerifyPending(p, row, scope, claim) => RowOf(s, p, row) && row.scope == scope && row.claim == claim
    case ReceiptPending(p, row, native, digest) =>
      RowOf(s, p, row) && row.approval == native && row.approvalDigest == digest
    case ReservePending(p, row, contract, _) => RowOf(s, p, row) && contract == row.scope.capabilities
    case BeginPending(l, p, row, broker, _, _) => Holds(s, l, p) && RowOf(s, p, row) && s.leases[l].broker == broker
    case ExecutionPending(l, p, row, executor, job) =>
      Holds(s, l, p) && RowOf(s, p, row) && Names(s, l, executor, job) && s.leases[l].phase != Reserved
  }

  /** What the state shows of an event just before it is appended. */
  ghost predicate EventTold(s: Source, e: Event) {
    match e
    case Verified(p, scope, claim) => p in s.issued && s.issued[p].scope == scope && s.issued[p].claim == claim
    case ReceiptConfirmed(p, native, digest) =>
      p in s.issued && s.issued[p].approval == native && s.issued[p].approvalDigest == digest
    case LeaseGranted(p, _, contract, _) => p in s.issued && s.issued[p].scope.capabilities == contract
    case JobBound(p, l, broker, _, _) => Holds(s, l, p) && s.leases[l].broker == broker
    case Began(p, l, broker, _, _) => Holds(s, l, p) && s.leases[l].broker == broker
    case Executed(p, l, executor, job) =>
      Holds(s, l, p) && Names(s, l, executor, job) && s.leases[l].phase == Forwarding
    case _ => true
  }

  ghost predicate GrantedBy(log: seq<Event>, p: Proof, l: Lease, broker: Handle) {
    exists i: nat :: GrantOf(log, i, l) && log[i].proof == p && log[i].broker == broker
  }

  /** Something earlier in the log gives the event its right. */
  ghost predicate VouchedBy(log: seq<Event>, e: Event) {
    match e
    case Verified(p, scope, claim) =>
      exists i: nat :: IssueOf(log, i, p) && log[i].request.scope == scope && log[i].request.claim == claim
    case ReceiptConfirmed(p, native, digest) =>
      exists i: nat :: IssueOf(log, i, p) && log[i].receipt == (native, digest)
    case LeaseGranted(p, _, contract, _) =>
      exists i: nat :: IssueOf(log, i, p) && log[i].request.claim.contract == Some(contract)
    case JobBound(p, l, broker, _, _) => GrantedBy(log, p, l, broker)
    case Began(p, l, broker, _, _) => GrantedBy(log, p, l, broker)
    case Executed(p, l, executor, job) =>
      Running(log, l) && Handles(log, l) == (executor, job) && exists broker :: GrantedBy(log, p, l, broker)
    case Issued(call, _, g, request, _, _) => IssueStarted(call, g, request) in log
    case _ => true
  }

  lemma StateVouches(s: Source, log: seq<Event>, e: Event)
    requires TablesTold(s, log) && EventTold(s, e) &&
             (e.Issued? ==> IssueStarted(e.call, e.generation, e.request) in log)
    ensures VouchedBy(log, e)
  {
    hide FencesTold, UsesTold, WaitingTold;
    if e.Verified? || e.ReceiptConfirmed? || e.LeaseGranted? {
      var i: nat :| IssueOf(log, i, e.proof);
      IssuedAt(s, log, i);
    } else if e.JobBound? || e.Began? || e.Executed? {
      hide Running, Handles;
      var i: nat :| GrantOf(log, i, e.lease);
      assert GrantTold(s, log[i]);
      assert GrantedBy(log, e.proof, e.lease, s.leases[e.lease].broker);
      if e.Executed? { assert Handles(log, e.lease) == (e.executor, e.job) && Running(log, e.lease); }
    }
  }

  lemma IssuedAt(s: Source, log: seq<Event>, i: nat)
    requires IssuesTold(s, log) && i < |log| && log[i].Issued?
    ensures RowTold(s, log[i]) && s.issued[log[i].proof] == RowFor(log[i])
  {
  }

  /** The source and its log after a step: a proof was evaluated, and at most one thing happened. */
  ghost predicate Explains(sys: System, t: System, judged: seq<Event>, granted: seq<Event>) {
    t.log == sys.log + (judged + granted) && |judged| <= 1 && |granted| <= 1 &&
    (forall e :: e in judged ==> e.Evaluated?) && (granted == [] ==> SameTables(sys.source, t.source)) &&
    (forall e :: e in granted ==> Tells(sys.source, e, t.source) && EventTold(sys.source, e))
  }

  ghost predicate CallsTold(sys: System) {
    forall c :: c in sys.calls ==> c < sys.nextCall && PendingTold(sys.source, sys.log, c, sys.calls[c])
  }

  ghost predicate AllVouched(log: seq<Event>) { forall j :: 0 <= j < |log| ==> VouchedBy(log[..j], log[j]) }

  ghost predicate Told(sys: System) { TablesTold(sys.source, sys.log) && CallsTold(sys) && AllVouched(sys.log) }

  lemma PendingStays(a: Source, log: seq<Event>, b: Source, more: seq<Event>, id: nat, c: Call)
    requires PendingTold(a, log, id, c) && Evolves(a, b)
    ensures PendingTold(b, log + more, id, c)
  {
    hide ScopesKept, Fair;
  }

  lemma VouchedStays(log: seq<Event>, e: Event)
    requires AllVouched(log) && VouchedBy(log, e)
    ensures AllVouched(log + [e])
  {
    hide VouchedBy;
    var all := log + [e];
    assert all[..|log|] == log && forall j :: 0 <= j < |log| ==> all[..j] == log[..j];
  }

  /** One event more. */
  lemma EventNext(a: Source, log: seq<Event>, e: Event, b: Source)
    requires TablesTold(a, log) && AllVouched(log) && Tells(a, e, b) && EventTold(a, e)
    requires e.Issued? ==> IssueStarted(e.call, e.generation, e.request) in log
    ensures TablesTold(b, log + [e]) && AllVouched(log + [e])
  {
    hide Tells, TablesTold, AllVouched, EventTold;
    TablesStep(a, log, e, b);
    StateVouches(a, log, e);
    VouchedStays(log, e);
  }

  lemma NoEvent(a: Source, log: seq<Event>, b: Source)
    requires TablesTold(a, log) && SameTables(a, b)
    ensures TablesTold(b, log)
  {
    hide Fair, RowFor, FencedSince, Waiting, Running, Handles;
  }

  lemma ToldNext(sys: System, t: System, judged: seq<Event>, granted: seq<Event>)
    requires Told(sys) && Explains(sys, t, judged, granted) && Evolves(sys.source, t.source)
    requires granted != [] && granted[0].Issued? ==>
               IssueStarted(granted[0].call, granted[0].generation, granted[0].request) in sys.log
    requires forall c :: c in t.calls ==> c < t.nextCall && ((c in sys.calls && t.calls[c] == sys.calls[c]) ||
                                                             PendingTold(t.source, t.log, c, t.calls[c]))
    ensures Told(t)
  {
    hide TablesTold, AllVouched, Evolves, PendingTold, SameTables;
    var log := sys.log + judged;
    assert t.log == log + granted;
    if judged != [] {
      assert judged == [judged[0]] && judged[0].Evaluated?;
      SameAgain(sys.source);
      EventNext(sys.source, sys.log, judged[0], sys.source);
    } else {
      assert log == sys.log;
    }
    if granted != [] {
      assert granted == [granted[0]];
      EventNext(sys.source, log, granted[0], t.source);
    } else {
      assert t.log == log;
      NoEvent(sys.source, log, t.source);
    }
    forall c | c in t.calls ensures PendingTold(t.source, t.log, c, t.calls[c]) {
      if c in sys.calls && t.calls[c] == sys.calls[c] {
        assert PendingTold(sys.source, sys.log, c, sys.calls[c]);
        PendingStays(sys.source, sys.log, t.source, judged + granted, c, t.calls[c]);
      }
    }
  }

  lemma SameAgain(s: Source)
    ensures SameTables(s, s)
  {
  }

  /** Leaving a section, in the terms of the log. */
  lemma LeaveTold(sys: System, t: Source, judged: seq<Event>, granted: seq<Event>, call: Option<Call>)
    requires Told(sys) && Evolves(sys.source, t) && |judged| <= 1 && |granted| <= 1
    requires (forall e :: e in judged ==> e.Evaluated?) && (granted == [] ==> SameTables(sys.source, t))
    requires forall e :: e in granted ==>
               !e.Issued? && Tells(sys.source, e, t) && EventTold(sys.source, e)
    requires call.Some? ==> PendingTold(t, sys.log + (judged + granted), sys.nextCall, call.value)
    ensures Told(Leave(sys, t, judged, granted, call))
  {
    hide TablesTold, AllVouched, Evolves, PendingTold, Tells, EventTold, SameTables;
    ToldNext(sys, Leave(sys, t, judged, granted, call), judged, granted);
  }

  lemma JudgedOnly(proof: Proof, live: Liveness, generation: nat)
    ensures |Judged(proof, live, generation)| <= 1
    ensures forall e :: e in Judged(proof, live, generation) ==> e.Evaluated?
  {
  }

  // ----- every section, in the terms of the log -----------------------------------------------

  /** Evaluating changes no table. */
  lemma EvaluateQuiet(s: Source, p: Proof, row: Satisfaction, clock: Clock)
    ensures SameTables(s, Evaluate(s, p, row, clock).0)
  {
  }

  lemma ClaimTold(s: Source, log: seq<Event>, p: Proof)
    requires TablesTold(s, log) && p in s.issued
    ensures s.issued[p].claim.contract == Some(s.issued[p].scope.capabilities)
  {
    var i: nat :| IssueOf(log, i, p);
    IssuedAt(s, log, i);
  }

  lemma Invariants(sys: System)
    requires SystemInvariant(sys)
    ensures SourceInvariant(sys.source) && forall c :: c in sys.calls ==> CallFits(sys.source, sys.calls[c])
  {
  }

  lemma VerifyTells(s: Source, log: seq<Event>, proof: Proof, scope: Scope, claim: Claim, clock: Clock)
    requires TablesTold(s, log)
    ensures var (t, live, stage) := VerifyCheck(s, proof, scope, claim, clock);
            SameTables(s, t) &&
            (stage.Some? ==> proof in s.issued &&
                             PendingTold(t, log, 0, VerifyPending(proof, s.issued[proof], scope, claim)))
  {
    hide TablesTold, Evaluate;
    if proof in s.issued {
      EvaluateQuiet(s, proof, s.issued[proof], clock);
      ClaimTold(s, log, proof);
    }
  }

  lemma ReceiptTells(s: Source, log: seq<Event>, proof: Proof, native: Handle, digest: Digest, clock: Clock)
    ensures var (t, live, stage) := ReceiptCheck(s, proof, native, digest, clock);
            SameTables(s, t) &&
            (stage.Some? ==> proof in s.issued &&
                             PendingTold(t, log, 0, ReceiptPending(proof, s.issued[proof], native, digest)))
  {
    hide Evaluate;
    if proof in s.issued { EvaluateQuiet(s, proof, s.issued[proof], clock); }
  }

  lemma ReserveTells(s: Source, log: seq<Event>, operator: Handle, proof: Proof, contract: Digest, waives: bool,
                     broker: Handle, clock: Clock)
    ensures var (t, live, ok) := ReserveCheck(s, operator, proof, contract, waives, clock);
            SameTables(s, t) &&
            (ok ==> proof in s.issued &&
                    PendingTold(t, log, 0, ReservePending(proof, s.issued[proof], contract, broker)))
  {
    hide Evaluate;
    if proof in s.issued { EvaluateQuiet(s, proof, s.issued[proof], clock); }
  }

  lemma BindTells(s: Source, operator: Handle, lease: Lease, broker: Handle, executor: Option<Handle>,
                  job: Option<Handle>, clock: Clock)
    ensures var (t, live, ok) := BindJob(s, operator, lease, broker, executor, job, clock);
            if ok then
              lease in s.leases &&
              var e := JobBound(s.leases[lease].satisfaction, lease, broker, executor, job);
              Tells(s, e, t) && EventTold(s, e)
            else SameTables(s, t)
  {
    hide Evaluate;
    if lease in s.leases && s.leases[lease].satisfaction in s.issued {
      EvaluateQuiet(s, s.leases[lease].satisfaction, s.issued[s.leases[lease].satisfaction], clock);
    }
  }

  lemma BeginTells(s: Source, log: seq<Event>, operator: Handle, lease: Lease, broker: Handle,
                   executor: Option<Handle>, job: Option<Handle>, clock: Clock)
    ensures var (t, live, ok) := BeginCheck(s, operator, lease, broker, executor, job, clock);
            SameTables(s, t) &&
            (ok ==> lease in s.leases && s.leases[lease].satisfaction in s.issued &&
                    var p := s.leases[lease].satisfaction;
                    PendingTold(t, log, 0, BeginPending(lease, p, s.issued[p], broker, executor, job)))
  {
    hide Evaluate;
    if lease in s.leases && s.leases[lease].satisfaction in s.issued {
      EvaluateQuiet(s, s.leases[lease].satisfaction, s.issued[s.leases[lease].satisfaction], clock);
    }
  }

  lemma ExecutionTells(s: Source, log: seq<Event>, lease: Lease, executor: Option<Handle>, job: Option<Handle>,
                       clock: Clock)
    ensures var (t, live, ok) := ExecutionCheck(s, lease, executor, job, clock);
            SameTables(s, t) &&
            (ok ==> lease in s.leases && s.leases[lease].satisfaction in s.issued &&
                    var p := s.leases[lease].satisfaction;
                    PendingTold(t, log, 0, ExecutionPending(lease, p, s.issued[p], executor, job)))
  {
    hide Evaluate;
    if lease in s.leases && s.leases[lease].satisfaction in s.issued {
      EvaluateQuiet(s, s.leases[lease].satisfaction, s.issued[s.leases[lease].satisfaction], clock);
    }
  }

  lemma ScopeTells(s: Source, operator: Handle, digest: Digest, capabilities: Digest, epoch: nat, maximum: Digest)
    ensures SameTables(s, CreateScope(s, operator, digest, capabilities, epoch, maximum).0)
  {
  }

  lemma OtherTells(s: Source, operator: Handle, lease: Lease)
    ensures var (t, ok) := Finish(s, operator, lease);
            if ok then Tells(s, LeaseFinished(lease), t) else SameTables(s, t)
    ensures var (t, ok) := Fence(s, operator); if ok then Tells(s, FenceRaised(t.generation), t) else SameTables(s, t)
  {
    hide FencedLeases;
  }

  lemma IssueTells(s: Source, call: nat, g: nat, r: Request, stable: bool, native: Option<(Handle, Digest)>,
                   clock: Clock)
    requires SourceInvariant(s) && Fair(r)
    ensures var (t, proof) := IssueCommit(s, g, r.scope, r.satisfactionId, r.lifetime, r.claim, stable, native, clock);
            if proof.Some? then native.Some? && Tells(s, Issued(call, proof.value, g, r, native.value, clock), t)
            else SameTables(s, t)
  {
    hide SourceInvariant, Sound, Fair, IdentityTaken, KnownScope;
    IssueCommitSound(s, g, r.scope, r.satisfactionId, r.lifetime, r.claim, stable, native, clock);
  }

  lemma ReserveCommitTells(s: Source, p: Proof, row: Satisfaction, contract: Digest, broker: Handle, clock: Clock)
    requires SourceInvariant(s) && RowOf(s, p, row) && contract == row.scope.capabilities
    ensures var (t, live, lease) := ReserveCommit(s, p, row, contract, broker, clock);
            if lease.Some? then
              var e := LeaseGranted(p, lease.value, contract, broker);
              Tells(s, e, t) && EventTold(s, e)
            else SameTables(s, t)
  {
    EvaluateSound(s, p, clock);
    NewLease(Evaluate(s, p, row, clock).0);
    EvaluateQuiet(s, p, row, clock);
    hide SourceInvariant, Evolves, Evaluate, Spent, HasLease;
  }

  lemma NewLease(s: Source)
    requires SourceInvariant(s)
    ensures Lease(s.nextUid, s.id) !in s.leases
  {
  }

  lemma BeginCommitTells(s: Source, l: Lease, p: Proof, row: Satisfaction, broker: Handle, executor: Option<Handle>,
                         job: Option<Handle>, clock: Clock)
    requires Holds(s, l, p) && s.leases[l].broker == broker
    ensures var (t, live, ok) := BeginCommit(s, l, row, clock);
            if ok then
              var e := Began(p, l, broker, executor, job);
              Tells(s, e, t) && EventTold(s, e)
            else SameTables(s, t)
  {
    EvaluateQuiet(s, p, row, clock);
    hide Evaluate;
  }

  lemma RecheckTells(s: Source, p: Proof, row: Satisfaction, clock: Clock)
    ensures var (t, live) := Recheck(s, p, row, clock); SameTables(s, t) && (live == Alive ==> RowOf(s, p, row))
  {
    EvaluateQuiet(s, p, row, clock);
    hide Evaluate;
  }

  lemma ExecutionRecheckTells(s: Source, l: Lease, p: Proof, row: Satisfaction, executor: Option<Handle>,
                              job: Option<Handle>, clock: Clock)
    requires Holds(s, l, p) && Names(s, l, executor, job)
    ensures var (t, live, ok) := ExecutionRecheck(s, l, row, clock);
            SameTables(s, t) && (ok ==> EventTold(s, Executed(p, l, executor, job)))
  {
    EvaluateQuiet(s, p, row, clock);
    hide Evaluate;
  }

  lemma AnyLog(t: Source, log: seq<Event>, other: seq<Event>, i: nat, j: nat, c: Call)
    requires PendingTold(t, log, i, c) && !c.IssuePending?
    ensures PendingTold(t, other, j, c)
  {
  }

  // ----- every step ---------------------------------------------------------------------------

  lemma StartCheckTold(sys: System, step: Step)
    requires Told(sys) && (step.StartVerify? || step.StartReceipt? || step.StartReserve?)
    requires Evolves(sys.source, Apply(sys, step).source)
    ensures Told(Apply(sys, step))
  {
    hide VerifyCheck, ReceiptCheck, ReserveCheck, TablesTold, CallsTold, AllVouched, Evolves, Judged, PendingTold,
      CreateScope, BindJob, BeginCheck, ExecutionCheck, Finish, Fence, Continue, IssueAdmitted, SameTables;
    var s := sys.source;
    match step
    case StartVerify(proof, scope, claim, clock) =>
      var (t, live, stage) := VerifyCheck(s, proof, scope, claim, clock);
      VerifyTells(s, sys.log, proof, scope, claim, clock);
      JudgedOnly(proof, live, t.generation);
      var call := if stage.Some? then Some(VerifyPending(proof, s.issued[proof], scope, claim)) else None;
      CheckedTold(sys, t, Judged(proof, live, t.generation), call);
    case StartReceipt(proof, native, digest, clock) =>
      var (t, live, stage) := ReceiptCheck(s, proof, native, digest, clock);
      ReceiptTells(s, sys.log, proof, native, digest, clock);
      JudgedOnly(proof, live, t.generation);
      var call := if stage.Some? then Some(ReceiptPending(proof, s.issued[proof], native, digest)) else None;
      CheckedTold(sys, t, Judged(proof, live, t.generation), call);
    case StartReserve(operator, proof, contract, waives, broker, clock) =>
      var (t, live, ok) := ReserveCheck(s, operator, proof, contract, waives, clock);
      ReserveTells(s, sys.log, operator, proof, contract, waives, broker, clock);
      JudgedOnly(proof, live, t.generation);
      var call := if ok then Some(ReservePending(proof, s.issued[proof], contract, broker)) else None;
      CheckedTold(sys, t, Judged(proof, live, t.generation), call);
  }

  /** A section that evaluated and may have opened a call. */
  lemma CheckedTold(sys: System, t: Source, judged: seq<Event>, call: Option<Call>)
    requires Told(sys) && Evolves(sys.source, t) && |judged| <= 1 && SameTables(sys.source, t)
    requires forall e :: e in judged ==> e.Evaluated?
    requires call.Some? ==> !call.value.IssuePending? && PendingTold(t, sys.log, 0, call.value)
    ensures Told(Leave(sys, t, judged, [], call))
  {
    hide TablesTold, AllVouched, Evolves, PendingTold, Tells, EventTold, SameTables, CallsTold;
    if call.Some? { AnyLog(t, sys.log, sys.log + (judged + []), 0, sys.nextCall, call.value); }
    LeaveTold(sys, t, judged, [], call);
  }

  lemma StartLeaseTold(sys: System, step: Step)
    requires Told(sys) && (step.StartBegin? || step.StartExecution? || step.DoBind?)
    requires Evolves(sys.source, Apply(sys, step).source)
    ensures Told(Apply(sys, step))
  {
    hide VerifyCheck, ReceiptCheck, ReserveCheck, TablesTold, CallsTold, AllVouched, Evolves, Judged, PendingTold,
      CreateScope, BindJob, BeginCheck, ExecutionCheck, Finish, Fence, Continue, IssueAdmitted, SameTables, Tells,
      EventTold;
    var s := sys.source;
    if step.lease in s.leases {
      var p := s.leases[step.lease].satisfaction;
      match step
      case StartBegin(operator, lease, broker, executor, job, clock) =>
        var (t, live, ok) := BeginCheck(s, operator, lease, broker, executor, job, clock);
        BeginTells(s, sys.log, operator, lease, broker, executor, job, clock);
        JudgedOnly(p, live, t.generation);
        if p in s.issued {
          CheckedTold(sys, t, Judged(p, live, t.generation),
                      if ok then Some(BeginPending(lease, p, s.issued[p], broker, executor, job)) else None);
        }
      case StartExecution(lease, executor, job, clock) =>
        var (t, live, ok) := ExecutionCheck(s, lease, executor, job, clock);
        ExecutionTells(s, sys.log, lease, executor, job, clock);
        JudgedOnly(p, live, t.generation);
        if p in s.issued {
          CheckedTold(sys, t, Judged(p, live, t.generation),
                      if ok then Some(ExecutionPending(lease, p, s.issued[p], executor, job)) else None);
        }
      case DoBind(operator, lease, broker, executor, job, clock) =>
        var (t, live, ok) := BindJob(s, operator, lease, broker, executor, job, clock);
        BindTells(s, operator, lease, broker, executor, job, clock);
        JudgedOnly(p, live, t.generation);
        LeaveTold(sys, t, Judged(p, live, t.generation),
                  if ok then [JobBound(p, lease, broker, executor, job)] else [], None);
    }
  }

  lemma StartIssueTold(sys: System, step: Step)
    requires Told(sys) && step.StartIssue?
    ensures Told(Apply(sys, step))
  {
    hide TablesTold, CallsTold, AllVouched, Evolves, CreateScope, Continue, KnownScope, IdentityTaken;
    var s := sys.source;
    if Apply(sys, step) != sys {
      var r := Request(step.scope, step.satisfactionId, step.lifetime, step.claim);
      var e := IssueStarted(sys.nextCall, s.generation, r);
      assert [] + [e] == [e] && (sys.log + [e])[|sys.log|] == e;
      TickEvolves(s, s.lastNow);
      LeaveTold(sys, s, [], [e], Some(IssuePending(s.generation, r)));
    }
  }

  lemma OperatorTold(sys: System, step: Step)
    requires Told(sys) && (step.DoCreateScope? || step.DoFinish? || step.DoFence?)
    requires Evolves(sys.source, Apply(sys, step).source)
    ensures Told(Apply(sys, step))
  {
    hide TablesTold, CallsTold, AllVouched, Evolves, Finish, Fence, Continue, IssueAdmitted, SameTables, Tells;
    var s := sys.source;
    match step
    case DoCreateScope(operator, digest, capabilities, epoch, maximum) =>
      var t := CreateScope(s, operator, digest, capabilities, epoch, maximum).0;
      ScopeTells(s, operator, digest, capabilities, epoch, maximum);
      LeaveTold(sys, t, [], [], None);
    case DoFinish(operator, lease) =>
      OtherTells(s, operator, lease);
      var (t, ok) := Finish(s, operator, lease);
      LeaveTold(sys, t, [], if ok then [LeaseFinished(lease)] else [], None);
    case DoFence(operator) =>
      OtherTells(s, operator, Lease(0, 0));
      var (t, ok) := Fence(s, operator);
      LeaveTold(sys, t, [], if ok then [FenceRaised(t.generation)] else [], None);
  }

  /** The second section of a call that was taken off the list of waiting calls. */
  lemma ContinueTold(sys: System, rest: System, call: nat, clock: Clock, stable: bool,
                     native: Option<(Handle, Digest)>)
    requires Told(sys) && SourceInvariant(sys.source) && call in sys.calls
    requires rest == sys.(calls := sys.calls - {call})
    requires Evolves(sys.source, Continue(rest, call, sys.calls[call], clock, stable, native).source)
    ensures Told(Continue(rest, call, sys.calls[call], clock, stable, native))
  {
    hide TablesTold, AllVouched, Evolves, SourceInvariant, SameTables, Tells, EventTold, Judged, Recheck, Fair,
      IssueCommit, ReserveCommit, BeginCommit, ExecutionRecheck;
    var s, c := sys.source, sys.calls[call];
    assert PendingTold(s, sys.log, call, c);
    RestTold(sys, rest, call);
    hide PendingTold, CallsTold;
    match c
    case IssuePending(g, r) =>
      IssueWaits(s, sys.log, call, g, r);
      IssueTells(s, call, g, r, stable, native, clock);
      var (t, proof) := IssueCommit(s, g, r.scope, r.satisfactionId, r.lifetime, r.claim, stable, native, clock);
      var issued := if proof.Some? then [Issued(call, proof.value, g, r, native.value, clock)] else [];
      IssuedTold(rest, t, issued);
    case _ => AnswerTold(rest, call, c, clock, stable, native);
  }

  lemma IssueWaits(s: Source, log: seq<Event>, call: nat, g: nat, r: Request)
    requires PendingTold(s, log, call, IssuePending(g, r))
    ensures Fair(r) && IssueStarted(call, g, r) in log
  {
  }

  lemma RestTold(sys: System, rest: System, call: nat)
    requires Told(sys) && rest == sys.(calls := sys.calls - {call})
    ensures Told(rest)
  {
    hide TablesTold, AllVouched, PendingTold;
  }

  lemma IssuedTold(sys: System, t: Source, issued: seq<Event>)
    requires Told(sys) && Evolves(sys.source, t) && |issued| <= 1 && (issued == [] ==> SameTables(sys.source, t))
    requires forall e :: e in issued ==>
               e.Issued? && Tells(sys.source, e, t) && IssueStarted(e.call, e.generation, e.request) in sys.log
    ensures Told(Leave(sys, t, [], issued, None))
  {
    hide TablesTold, AllVouched, Evolves, PendingTold, Tells, SameTables;
    ToldNext(sys, Leave(sys, t, [], issued, None), [], issued);
  }

  lemma AnswerTold(sys: System, call: nat, c: Call, clock: Clock, stable: bool, native: Option<(Handle, Digest)>)
    requires Told(sys) && SourceInvariant(sys.source) && !c.IssuePending? && PendingTold(sys.source, sys.log, call, c)
    requires Evolves(sys.source, Continue(sys, call, c, clock, stable, native).source)
    ensures Told(Continue(sys, call, c, clock, stable, native))
  {
    hide TablesTold, AllVouched, CallsTold, Evolves, SourceInvariant, SameTables, Tells, Judged, Recheck, Fair,
      IssueCommit, ReserveCommit, BeginCommit, ExecutionRecheck;
    var s := sys.source;
    match c
    case VerifyPending(p, row, scope, claim) =>
      RecheckTells(s, p, row, clock);
      var (t, live) := Recheck(s, p, row, clock);
      JudgedOnly(p, live, t.generation);
      AnsweredTold(sys, t, Judged(p, live, t.generation), if live == Alive then [Verified(p, scope, claim)] else []);
    case ReceiptPending(p, row, approval, digest) =>
      RecheckTells(s, p, row, clock);
      var (t, live) := Recheck(s, p, row, clock);
      JudgedOnly(p, live, t.generation);
      AnsweredTold(sys, t, Judged(p, live, t.generation),
                   if live == Alive then [ReceiptConfirmed(p, approval, digest)] else []);
    case ReservePending(p, row, contract, broker) =>
      ReserveCommitTells(s, p, row, contract, broker, clock);
      var (t, live, lease) := ReserveCommit(s, p, row, contract, broker, clock);
      JudgedOnly(p, live, t.generation);
      AnsweredTold(sys, t, Judged(p, live, t.generation),
                   if lease.Some? then [LeaseGranted(p, lease.value, contract, broker)] else []);
    case BeginPending(l, p, row, broker, executor, job) =>
      BeginCommitTells(s, l, p, row, broker, executor, job, clock);
      var (t, live, ok) := BeginCommit(s, l, row, clock);
      JudgedOnly(p, live, t.generation);
      AnsweredTold(sys, t, Judged(p, live, t.generation), if ok then [Began(p, l, broker, executor, job)] else []);
    case ExecutionPending(l, p, row, executor, job) =>
      ExecutionRecheckTells(s, l, p, row, executor, job, clock);
      var (t, live, ok) := ExecutionRecheck(s, l, row, clock);
      JudgedOnly(p, live, t.generation);
      AnsweredTold(sys, t, Judged(p, live, t.generation), if ok then [Executed(p, l, executor, job)] else []);
  }

  /** A section that answered a call, granting at most one thing. */
  lemma AnsweredTold(sys: System, t: Source, judged: seq<Event>, granted: seq<Event>)
    requires Told(sys) && Evolves(sys.source, t) && |judged| <= 1 && |granted| <= 1
    requires (forall e :: e in judged ==> e.Evaluated?) && (granted == [] ==> SameTables(sys.source, t))
    requires forall e :: e in granted ==>
               !e.Issued? && EventTold(sys.source, e) &&
               (Tells(sys.source, e, t) ||
                ((e.Verified? || e.ReceiptConfirmed? || e.Executed?) && SameTables(sys.source, t)))
    ensures Told(Leave(sys, t, judged, granted, None))
  {
    hide TablesTold, AllVouched, CallsTold, Evolves, PendingTold, EventTold, SameTables;
    LeaveTold(sys, t, judged, granted, None);
  }

  lemma StepTold(sys: System, step: Step)
    requires SystemInvariant(sys) && Told(sys)
    ensures Told(Apply(sys, step))
  {
    hide SystemInvariant, SourceInvariant, Told, Evolves, Continue, Leave;
    StepKeeps(sys, step);
    Invariants(sys);
    if step.Resume? {
      hide VerifyCheck, ReceiptCheck, ReserveCheck, CreateScope, BindJob, BeginCheck, ExecutionCheck, Finish, Fence,
        IssueAdmitted, Judged, CallFits;
      if step.call in sys.calls {
        var rest := sys.(calls := sys.calls - {step.call});
        RestTold(sys, rest, step.call);
        if step.answer { ContinueTold(sys, rest, step.call, step.clock, step.stable, step.receipt); }
      }
    } else {
      hide Apply;
      match step
      case DoCreateScope(_, _, _, _, _) => OperatorTold(sys, step);
      case StartIssue(_, _, _, _, _, _) => StartIssueTold(sys, step);
      case StartVerify(_, _, _, _) => StartCheckTold(sys, step);
      case StartReceipt(_, _, _, _) => StartCheckTold(sys, step);
      case StartReserve(_, _, _, _, _, _) => StartCheckTold(sys, step);
      case DoFinish(_, _) => OperatorTold(sys, step);
      case DoFence(_) => OperatorTold(sys, step);
      case _ => StartLeaseTold(sys, step);
    }
  }

  /** In every run the tables, the waiting calls and the grants are what the log says. */
  lemma {:induction false} RunTold(start: System, steps: seq<Step>)
    requires Initial(start)
    ensures Reached(Run(start, steps))
  {
    RunKeeps(start, steps);
    if steps == [] {
      hide SystemInvariant;
      assert forall log: seq<Event>, l :: log == [] ==> !Waiting(log, l) && !Running(log, l);
    } else {
      hide SystemInvariant, Told, Apply;
      RunTold(start, steps[..|steps| - 1]);
      StepTold(Run(start, steps[..|steps| - 1]), steps[|steps| - 1]);
    }
  }

  // ----- what the log decides -----------------------------------------------------------------

  /** At most one begin of a proof, so its lease is running exactly if that has not ended. */
  lemma BegunOnce(sys: System, i: nat, j: nat)
    requires SystemInvariant(sys) && i < |sys.log| && j < |sys.log| && sys.log[i].Began? && sys.log[j].Began?
    requires sys.log[i].proof == sys.log[j].proof
    ensures i == j
  {
    hide SourceInvariant, AllJustified, IssuesKeepGeneration, GrantsFollowLiveness, CallsFit, UsesHaveBegun;
    BeginsDiffer(sys.log, i, j);
    BeginsDiffer(sys.log, j, i);
  }

  lemma BeginsDiffer(log: seq<Event>, i: nat, j: nat)
    requires Ordered(log)
    ensures i < j < |log| && log[i].Began? && log[j].Began? ==> log[i].proof != log[j].proof
  {
    assert i < j < |log| ==> Compatible(log[i], log[j]);
  }

  lemma ForwardingIff(sys: System, p: Proof)
    requires SystemInvariant(sys) && TablesTold(sys.source, sys.log)
    ensures p in sys.source.used ==>
              (HasForwardingLease(sys.source.leases, p) <==>
               forall j: nat :: BeginOf(sys.log, j, p) ==> !EndedSince(sys.log, j, sys.log[j].lease))
  {
    hide SystemInvariant, IssuesTold, FencesTold, LeasesTold, WaitingTold, HandlesTold, EndedSince;
    var s, log := sys.source, sys.log;
    if p in s.used {
      var i: nat :| BeginOf(log, i, p);
      var l := log[i].lease;
      forall j: nat | BeginOf(log, j, p) ensures i == j { BegunOnce(sys, i, j); }
      if HasForwardingLease(s.leases, p) {
        var m :| m in s.leases && s.leases[m].satisfaction == p && s.leases[m].phase == Forwarding;
        assert Running(log, m);
        var k: nat :| k < |log| && log[k].Began? && log[k].lease == m && !EndedSince(log, k, m);
        assert BeginOf(log, k, p);
      }
      if !EndedSince(log, i, l) {
        assert Running(log, l);
        assert s.leases[l].satisfaction == p && s.leases[l].phase == Forwarding;
      }
    }
  }

  /** `_alive` is what the log says of the approval, at a time that does not run backwards. */
  lemma AliveIff(sys: System, i: nat, p: Proof, clock: Clock)
    requires SystemInvariant(sys) && TablesTold(sys.source, sys.log) && IssueOf(sys.log, i, p)
    ensures p in sys.source.issued
    ensures Evaluate(sys.source, p, sys.source.issued[p], clock).1 == Alive <==>
            ClockUsable(sys.source, clock) && LiveAt(sys.log, i, clock.now)
  {
    hide SystemInvariant, SourceInvariant, CallFits, IssuesTold, UsesTold, LeasesTold, WaitingTold, RunningTold,
      HandlesTold, HasForwardingLease, EndedSince, FencedSince, Fair, Evaluate;
    IssuedAt(sys.source, sys.log, i);
    Invariants(sys);
    ForwardingIff(sys, p);
    UsedIff(sys.source, sys.log, p);
    AliveMeans(sys.source, p, clock);
  }

  lemma AliveMeans(s: Source, p: Proof, clock: Clock)
    requires SourceInvariant(s) && p in s.issued
    ensures Evaluate(s, p, s.issued[p], clock).1 == Alive <==>
            s.issued[p].generation == s.generation && ClockUsable(s, clock) && clock.now < s.issued[p].expiresAt &&
            (p in s.used ==> HasForwardingLease(s.leases, p))
  {
    ScopeKnown(s, p);
    hide SourceInvariant, HasForwardingLease, KnownScope;
  }

  lemma UsedIff(s: Source, log: seq<Event>, p: Proof)
    requires TablesTold(s, log)
    ensures p in s.used <==> exists j: nat :: BeginOf(log, j, p)
  {
  }

  /** The log holds an approval with these terms that is live now. */
  ghost predicate Approved(log: seq<Event>, p: Proof, scope: Scope, claim: Claim, now: real) {
    exists i: nat :: IssueOf(log, i, p) && log[i].request.scope == scope && log[i].request.claim == claim &&
                     LiveAt(log, i, now)
  }

  ghost predicate Live(log: seq<Event>, p: Proof, now: real) {
    exists i: nat :: IssueOf(log, i, p) && LiveAt(log, i, now)
  }

  lemma LiveIff(sys: System, p: Proof, clock: Clock)
    requires SystemInvariant(sys) && TablesTold(sys.source, sys.log)
    ensures p in sys.source.issued ==>
              (Evaluate(sys.source, p, sys.source.issued[p], clock).1 == Alive <==>
               ClockUsable(sys.source, clock) && Live(sys.log, p, clock.now))
    ensures p !in sys.source.issued && clock.Reading? ==> !Live(sys.log, p, clock.now)
  {
    hide SystemInvariant, Evaluate, LiveAt;
    if p in sys.source.issued {
      var i: nat :| IssueOf(sys.log, i, p);
      AliveIff(sys, i, p, clock);
      if clock.Reading? {
        forall j: nat | IssueOf(sys.log, j, p) ensures LiveAt(sys.log, i, clock.now) <==>
          LiveAt(sys.log, j, clock.now) {
          SameApproval(sys, i, j, clock);
        }
      }
    } else if clock.Reading? {
      forall i: nat ensures !IssueOf(sys.log, i, p) {
        if IssueOf(sys.log, i, p) { IssuedAt(sys.source, sys.log, i); }
      }
    }
  }

  lemma SameApproval(sys: System, i: nat, j: nat, clock: Clock)
    requires TablesTold(sys.source, sys.log) && clock.Reading?
    requires i < |sys.log| && j < |sys.log| && sys.log[i].Issued? && sys.log[j].Issued? &&
             sys.log[i].proof == sys.log[j].proof
    ensures LiveAt(sys.log, i, clock.now) <==> LiveAt(sys.log, j, clock.now)
  {
    IssuedAt(sys.source, sys.log, i);
    IssuedAt(sys.source, sys.log, j);
    hide UsesTold, LeasesTold, WaitingTold, RunningTold, HandlesTold, EndedSince, FencedSince;
  }

  /** The step opens a call, which then waits for its verifier. */
  predicate Opens(sys: System, step: Step) { Apply(sys, step).nextCall > sys.nextCall }

  /** The step ends with this event. */
  predicate Logs(sys: System, step: Step, e: Event) {
    var t := Apply(sys, step);
    |t.log| > |sys.log| && t.log[|t.log| - 1] == e
  }

  ghost predicate Leased(log: seq<Event>, p: Proof) {
    exists i: nat :: i < |log| && log[i].LeaseGranted? && log[i].proof == p
  }

  ghost predicate Named(log: seq<Event>, id: string) {
    exists i: nat :: i < |log| && log[i].Issued? && log[i].request.satisfactionId == id
  }

  /** A system as it is in some run. */
  ghost predicate Reached(sys: System) { SystemInvariant(sys) && Told(sys) }

  lemma RowOfIssue(sys: System, p: Proof)
    requires Reached(sys)
    ensures p in sys.source.issued <==> exists i: nat :: IssueOf(sys.log, i, p)
    ensures forall i: nat :: IssueOf(sys.log, i, p) ==>
              p in sys.source.issued && sys.source.issued[p].scope == sys.log[i].request.scope &&
              sys.source.issued[p].claim == sys.log[i].request.claim &&
              (sys.source.issued[p].approval, sys.source.issued[p].approvalDigest) == sys.log[i].receipt &&
              sys.source.issued[p].claim.contract == Some(sys.source.issued[p].scope.capabilities)
  {
    hide SystemInvariant, CallsTold, AllVouched, FencesTold, UsesTold, LeasesTold, WaitingTold, RunningTold,
      HandlesTold;
    forall i: nat | IssueOf(sys.log, i, p)
      ensures p in sys.source.issued && sys.source.issued[p].scope == sys.log[i].request.scope &&
              sys.source.issued[p].claim == sys.log[i].request.claim &&
              (sys.source.issued[p].approval, sys.source.issued[p].approvalDigest) == sys.log[i].receipt &&
              sys.source.issued[p].claim.contract == Some(sys.source.issued[p].scope.capabilities)
    {
      IssuedAt(sys.source, sys.log, i);
    }
  }

  lemma LiveOf(sys: System, p: Proof, clock: Clock)
    requires Reached(sys) && p in sys.source.issued
    ensures Evaluate(sys.source, p, sys.source.issued[p], clock).1 == Alive <==>
            ClockUsable(sys.source, clock) && Live(sys.log, p, clock.now)
    ensures forall i: nat :: IssueOf(sys.log, i, p) && ClockUsable(sys.source, clock) ==>
              (LiveAt(sys.log, i, clock.now) <==> Live(sys.log, p, clock.now))
  {
    hide SystemInvariant, CallsTold, AllVouched, TablesTold, LiveAt, Evaluate;
    LiveIff(sys, p, clock);
    forall i: nat | IssueOf(sys.log, i, p) && ClockUsable(sys.source, clock)
      ensures LiveAt(sys.log, i, clock.now) <==> Live(sys.log, p, clock.now)
    {
      forall j: nat | IssueOf(sys.log, j, p) ensures LiveAt(sys.log, i, clock.now) <==> LiveAt(sys.log, j, clock.now) {
        SameApproval(sys, i, j, clock);
      }
    }
  }

  /**
    A verification goes on to its verifier exactly for the scope and the claim that were approved,
    while that lives.
  */
  lemma VerifyIff(sys: System, p: Proof, scope: Scope, claim: Claim, clock: Clock)
    requires Reached(sys)
    ensures Opens(sys, StartVerify(p, scope, claim, clock)) <==>
            ClockUsable(sys.source, clock) && Approved(sys.log, p, scope, claim, clock.now)
  {
    hide SystemInvariant, Told, LiveAt, Evaluate, Live, CreateScope, ReceiptCheck, ReserveCheck, BindJob, BeginCheck,
      ExecutionCheck, Finish, Fence, Continue, IssueAdmitted, Judged, IssueOf, ClockUsable;
    RowOfIssue(sys, p);
    if p in sys.source.issued {
      LiveOf(sys, p, clock);
      var i: nat :| IssueOf(sys.log, i, p);
    }
  }

  /** A receipt is checked further exactly if it is the one recorded with a live approval. */
  lemma ReceiptIff(sys: System, p: Proof, native: Handle, digest: Digest, clock: Clock)
    requires Reached(sys)
    ensures Opens(sys, StartReceipt(p, native, digest, clock)) <==>
            ClockUsable(sys.source, clock) && Live(sys.log, p, clock.now) &&
            exists i: nat :: IssueOf(sys.log, i, p) && sys.log[i].receipt == (native, digest)
  {
    hide SystemInvariant, Told, LiveAt, Evaluate, Live, CreateScope, VerifyCheck, ReserveCheck, BindJob, BeginCheck,
      ExecutionCheck, Finish, Fence, Continue, IssueAdmitted, Judged, IssueOf, ClockUsable;
    RowOfIssue(sys, p);
    if p in sys.source.issued {
      LiveOf(sys, p, clock);
      var i: nat :| IssueOf(sys.log, i, p);
    }
  }

  lemma LeasedIff(sys: System, p: Proof)
    requires Reached(sys)
    ensures HasLease(sys.source.leases, p) <==> Leased(sys.log, p)
    ensures p in sys.source.used ==> HasLease(sys.source.leases, p)
  {
    Invariants(sys);
    UsedAreLeased(sys.source, p);
    hide SystemInvariant, SourceInvariant, CallFits, CallsTold, AllVouched, IssuesTold, FencesTold, UsesTold,
      WaitingTold, RunningTold, HandlesTold;
    var s, log := sys.source, sys.log;
    if HasLease(s.leases, p) {
      var l :| l in s.leases && s.leases[l].satisfaction == p;
      var i: nat :| GrantOf(log, i, l);
      assert GrantTold(s, log[i]);
    }
    if Leased(log, p) {
      var i: nat :| i < |log| && log[i].LeaseGranted? && log[i].proof == p;
      assert GrantTold(s, log[i]);
    }
  }

  lemma UsedAreLeased(s: Source, p: Proof)
    requires SourceInvariant(s)
    ensures p in s.used ==> HasLease(s.leases, p)
  {
  }

  /** A lease is reserved for the contract that was approved, once, by the operator, and without waived requirements. */
  lemma ReserveIff(sys: System, operator: Handle, p: Proof, contract: Digest, waives: bool, broker: Handle,
                   clock: Clock)
    requires Reached(sys)
    ensures Opens(sys, StartReserve(operator, p, contract, waives, broker, clock)) <==>
            operator == sys.source.operator && !waives && |sys.source.leases| < sys.source.limit &&
            ClockUsable(sys.source, clock) && Live(sys.log, p, clock.now) && !Leased(sys.log, p) &&
            exists i: nat :: IssueOf(sys.log, i, p) && sys.log[i].request.claim.contract == Some(contract)
  {
    hide SystemInvariant, Told, LiveAt, Evaluate, Live, CreateScope, VerifyCheck, ReceiptCheck, BindJob, BeginCheck,
      ExecutionCheck, Finish, Fence, Continue, IssueAdmitted, Judged, IssueOf, ClockUsable, HasLease, Leased;
    RowOfIssue(sys, p);
    LeasedIff(sys, p);
    if p in sys.source.issued {
      LiveOf(sys, p, clock);
      EvaluateQuiet(sys.source, p, sys.source.issued[p], clock);
      SameLimit(sys.source, p, sys.source.issued[p], clock);
      var i: nat :| IssueOf(sys.log, i, p);
    }
  }

  lemma SameLimit(s: Source, p: Proof, row: Satisfaction, clock: Clock)
    ensures Evaluate(s, p, row, clock).0 == s.(lastNow := Evaluate(s, p, row, clock).0.lastNow)
  {
  }

  /** What the log says of a lease. */
  lemma LeaseOf(sys: System, l: Lease, p: Proof, broker: Handle)
    requires Reached(sys)
    ensures GrantedBy(sys.log, p, l, broker) <==>
            l in sys.source.leases && sys.source.leases[l].satisfaction == p && sys.source.leases[l].broker == broker
    ensures Waiting(sys.log, l) <==> l in sys.source.leases && sys.source.leases[l].phase == Reserved
    ensures Running(sys.log, l) <==> l in sys.source.leases && sys.source.leases[l].phase == Forwarding
    ensures l in sys.source.leases ==>
              (sys.source.leases[l].executor, sys.source.leases[l].job) == Handles(sys.log, l) &&
              l.source == sys.source.id && sys.source.leases[l].satisfaction in sys.source.issued &&
              (sys.source.leases[l].phase == Reserved ==> sys.source.leases[l].satisfaction !in sys.source.used)
  {
    Invariants(sys);
    LeaseRecorded(sys.source, l);
    hide SystemInvariant, SourceInvariant, CallFits, CallsTold, AllVouched, IssuesTold, FencesTold, UsesTold, Handles,
      Waiting, Running;
    var s, log := sys.source, sys.log;
    if l in s.leases && s.leases[l].satisfaction == p && s.leases[l].broker == broker {
      var i: nat :| GrantOf(log, i, l);
      assert GrantTold(s, log[i]);
    }
    if GrantedBy(log, p, l, broker) {
      var i: nat :| GrantOf(log, i, l) && log[i].proof == p && log[i].broker == broker;
      assert GrantTold(s, log[i]);
    }
  }

  lemma LeaseRecorded(s: Source, l: Lease)
    requires SourceInvariant(s)
    ensures l in s.leases ==>
              l.source == s.id && s.leases[l].satisfaction in s.issued &&
              (s.leases[l].phase == Reserved ==> s.leases[l].satisfaction !in s.used)
  {
  }

  /** The lease was granted to this broker for an approval that is live now. */
  ghost predicate Held(sys: System, l: Lease, broker: Handle, clock: Clock) {
    ClockUsable(sys.source, clock) && exists p :: GrantedBy(sys.log, p, l, broker) && Live(sys.log, p, clock.now)
  }

  lemma HeldIff(sys: System, l: Lease, broker: Handle, clock: Clock)
    requires Reached(sys) && l in sys.source.leases
    ensures var p := sys.source.leases[l].satisfaction;
            p in sys.source.issued &&
            (Held(sys, l, broker, clock) <==>
             sys.source.leases[l].broker == broker &&
             Evaluate(sys.source, p, sys.source.issued[p], clock).1 == Alive)
  {
    hide SystemInvariant, Told, Live, Evaluate, GrantedBy, Waiting, Running, Handles;
    var p := sys.source.leases[l].satisfaction;
    forall q ensures GrantedBy(sys.log, q, l, broker) <==> q == p && sys.source.leases[l].broker == broker {
      LeaseOf(sys, l, q, broker);
    }
    LeaseOf(sys, l, p, broker);
    LiveOf(sys, p, clock);
  }

  /** A waiting lease is bound by its broker while no job is bound. */
  lemma BindIff(sys: System, operator: Handle, l: Lease, broker: Handle, executor: Option<Handle>, job: Option<Handle>,
                clock: Clock)
    requires Reached(sys)
    ensures (exists p :: Logs(sys, DoBind(operator, l, broker, executor, job, clock),
                              JobBound(p, l, broker, executor, job))) <==>
            operator == sys.source.operator && Waiting(sys.log, l) && Handles(sys.log, l).1 == None &&
            Held(sys, l, broker, clock)
  {
    hide SystemInvariant, Told, Evaluate, Live, Held, CreateScope, VerifyCheck, ReceiptCheck, ReserveCheck,
      BeginCheck, ExecutionCheck, Finish, Fence, Continue, IssueAdmitted, GrantedBy, Waiting, Running, Handles;
    LeaseOf(sys, l, Proof(0, 0, ""), broker);
    if l in sys.source.leases {
      HeldIff(sys, l, broker, clock);
      var (t, live, ok) := BindJob(sys.source, operator, l, broker, executor, job, clock);
      if ok {
        var e := JobBound(sys.source.leases[l].satisfaction, l, broker, executor, job);
        assert Logs(sys, DoBind(operator, l, broker, executor, job, clock), e);
      }
    }
  }

  /** A begin goes on to its verifier exactly for a waiting lease and the handles it was bound to. */
  lemma BeginIff(sys: System, operator: Handle, l: Lease, broker: Handle, executor: Option<Handle>,
                 job: Option<Handle>, clock: Clock)
    requires Reached(sys)
    ensures Opens(sys, StartBegin(operator, l, broker, executor, job, clock)) <==>
            operator == sys.source.operator && Waiting(sys.log, l) && Handles(sys.log, l) == (executor, job) &&
            Held(sys, l, broker, clock)
  {
    hide SystemInvariant, Told, Evaluate, Live, Held, CreateScope, VerifyCheck, ReceiptCheck, ReserveCheck, BindJob,
      ExecutionCheck, Finish, Fence, Continue, IssueAdmitted, GrantedBy, Waiting, Running, Handles, Judged;
    LeaseOf(sys, l, Proof(0, 0, ""), broker);
    if l in sys.source.leases { HeldIff(sys, l, broker, clock); }
  }

  /** An execution is checked further exactly for a running lease and the handles it was bound to. */
  lemma ExecutionIff(sys: System, l: Lease, executor: Option<Handle>, job: Option<Handle>, clock: Clock)
    requires Reached(sys)
    ensures Opens(sys, StartExecution(l, executor, job, clock)) <==>
            Running(sys.log, l) && Handles(sys.log, l) == (executor, job) &&
            exists broker :: Held(sys, l, broker, clock)
  {
    hide SystemInvariant, Told, Evaluate, Live, Held, CreateScope, VerifyCheck, ReceiptCheck, ReserveCheck, BindJob,
      BeginCheck, Finish, Fence, Continue, IssueAdmitted, GrantedBy, Waiting, Running, Handles, Judged;
    LeaseOf(sys, l, Proof(0, 0, ""), 0);
    if l in sys.source.leases {
      forall broker ensures Held(sys, l, broker, clock) ==> sys.source.leases[l].broker == broker {
        HeldIff(sys, l, broker, clock);
      }
      HeldIff(sys, l, sys.source.leases[l].broker, clock);
    }
  }

  lemma NamedIff(sys: System, id: string)
    requires Reached(sys)
    ensures IdentityTaken(sys.source.issued, id) <==> Named(sys.log, id)
  {
    hide SystemInvariant, CallsTold, AllVouched, FencesTold, UsesTold, LeasesTold, WaitingTold, RunningTold,
      HandlesTold;
    var s, log := sys.source, sys.log;
    if IdentityTaken(s.issued, id) {
      var p :| p in s.issued && p.satisfactionId == id;
      var i: nat :| IssueOf(log, i, p);
      IssuedAt(s, log, i);
    }
    if Named(log, id) {
      var i: nat :| i < |log| && log[i].Issued? && log[i].request.satisfactionId == id;
      IssuedAt(s, log, i);
    }
  }

  /** An issue goes on to its resolution exactly if the operator asks for a fair and new one within the maximum. */
  lemma IssueIff(sys: System, operator: Handle, r: Request, authorized: bool)
    requires Reached(sys)
    ensures Opens(sys, StartIssue(operator, r.scope, r.satisfactionId, r.lifetime, r.claim, authorized)) <==>
            operator == sys.source.operator && authorized && Fair(r) && KnownScope(sys.source.scopes, r.scope) &&
            |sys.source.issued| < sys.source.limit && !Named(sys.log, r.satisfactionId)
  {
    hide SystemInvariant, Told, CreateScope, VerifyCheck, ReceiptCheck, ReserveCheck, BindJob, BeginCheck,
      ExecutionCheck, Finish, Fence, Continue, Named, IdentityTaken, ValidIdentity, KnownScope;
    NamedIff(sys, r.satisfactionId);
  }

  /** What the answered call adds to the log if it succeeds. */
  function Success(s: Source, call: nat, c: Call, native: Option<(Handle, Digest)>, clock: Clock): Event {
    match c
    case IssuePending(g, r) =>
      Issued(call, Proof(s.nextUid, s.id, r.satisfactionId), g, r, if native.Some? then native.value else (0, ""),
        clock)
    case VerifyPending(p, _, scope, claim) => Verified(p, scope, claim)
    case ReceiptPending(p, _, approval, digest) => ReceiptConfirmed(p, approval, digest)
    case ReservePending(p, _, contract, broker) => LeaseGranted(p, Lease(s.nextUid, s.id), contract, broker)
    case BeginPending(l, p, _, broker, executor, job) => Began(p, l, broker, executor, job)
    case ExecutionPending(l, p, _, executor, job) => Executed(p, l, executor, job)
  }

  /** What the second section of a call still needs when its verifier has agreed. */
  ghost predicate StillGood(sys: System, call: nat, c: Call, clock: Clock, stable: bool,
                            native: Option<(Handle, Digest)>) {
    ClockUsable(sys.source, clock) &&
    match c
    case IssuePending(g, r) =>
      stable && native.Some? && KnownScope(sys.source.scopes, r.scope) && |sys.source.issued| < sys.source.limit &&
      !Named(sys.log, r.satisfactionId) &&
      exists i: nat :: i < |sys.log| && sys.log[i] == IssueStarted(call, g, r) && !FencedSince(sys.log, i)
    case VerifyPending(p, _, _, _) => Live(sys.log, p, clock.now)
    case ReceiptPending(p, _, _, _) => Live(sys.log, p, clock.now)
    case ReservePending(p, _, _, _) =>
      Live(sys.log, p, clock.now) && !Leased(sys.log, p) && |sys.source.leases| < sys.source.limit
    case BeginPending(l, p, _, _, _, _) => Live(sys.log, p, clock.now) && Waiting(sys.log, l)
    case ExecutionPending(l, p, _, _, _) => Live(sys.log, p, clock.now) && Running(sys.log, l)
  }

  /** An answered call succeeds exactly if what it was let in for still holds. */
  lemma AnswerIff(sys: System, call: nat, clock: Clock, stable: bool, native: Option<(Handle, Digest)>)
    requires Reached(sys) && call in sys.calls
    ensures var c := sys.calls[call];
            Logs(sys, Resume(call, true, clock, stable, native), Success(sys.source, call, c, native, clock)) <==>
            StillGood(sys, call, c, clock, stable, native)
  {
    hide SystemInvariant, Told, CreateScope, VerifyCheck, ReceiptCheck, ReserveCheck, BindJob, BeginCheck,
      ExecutionCheck, Finish, Fence, IssueAdmitted, Continue, StillGood, Success, Leave, CallFits;
    var rest := sys.(calls := sys.calls - {call});
    var c := sys.calls[call];
    WaitsFor(sys, call);
    match c
    case IssuePending(_, _) => IssueAnswer(sys, rest, call, c, clock, stable, native);
    case ReservePending(_, _, _, _) => ReserveAnswer(sys, rest, call, c, clock, stable, native);
    case BeginPending(_, _, _, _, _, _) => LeaseAnswer(sys, rest, call, c, clock, stable, native);
    case ExecutionPending(_, _, _, _, _) => LeaseAnswer(sys, rest, call, c, clock, stable, native);
    case _ => CheckAnswer(sys, rest, call, c, clock, stable, native);
  }

  lemma WaitsFor(sys: System, call: nat)
    requires Reached(sys) && call in sys.calls
    ensures PendingTold(sys.source, sys.log, call, sys.calls[call])
  {
    hide SystemInvariant, TablesTold, AllVouched, PendingTold;
  }

  ghost predicate Ended(sys: System, t: System, e: Event) { |t.log| > |sys.log| && t.log[|t.log| - 1] == e }

  lemma CheckAnswer(sys: System, rest: System, call: nat, c: Call, clock: Clock, stable: bool,
                    native: Option<(Handle, Digest)>)
    requires Reached(sys) && rest.source == sys.source && rest.log == sys.log
    requires (c.VerifyPending? || c.ReceiptPending?) && PendingTold(sys.source, sys.log, call, c)
    ensures Ended(sys, Continue(rest, call, c, clock, stable, native), Success(sys.source, call, c, native, clock)) <==>
            StillGood(sys, call, c, clock, stable, native)
  {
    hide SystemInvariant, Told, Evaluate, Live, ClockUsable;
    LiveOf(sys, c.proof, clock);
  }

  lemma ReserveAnswer(sys: System, rest: System, call: nat, c: Call, clock: Clock, stable: bool,
                      native: Option<(Handle, Digest)>)
    requires Reached(sys) && rest.source == sys.source && rest.log == sys.log
    requires c.ReservePending? && PendingTold(sys.source, sys.log, call, c)
    ensures Ended(sys, Continue(rest, call, c, clock, stable, native), Success(sys.source, call, c, native, clock)) <==>
            StillGood(sys, call, c, clock, stable, native)
  {
    hide SystemInvariant, Told, Evaluate, Live, ClockUsable, HasLease, Leased, IssueCommit, BeginCommit,
      ExecutionRecheck, Recheck;
    LiveOf(sys, c.proof, clock);
    LeasedIff(sys, c.proof);
    SameLimit(sys.source, c.proof, c.row, clock);
  }

  lemma LeaseAnswer(sys: System, rest: System, call: nat, c: Call, clock: Clock, stable: bool,
                    native: Option<(Handle, Digest)>)
    requires Reached(sys) && rest.source == sys.source && rest.log == sys.log
    requires (c.BeginPending? || c.ExecutionPending?) && PendingTold(sys.source, sys.log, call, c)
    ensures Ended(sys, Continue(rest, call, c, clock, stable, native), Success(sys.source, call, c, native, clock)) <==>
            StillGood(sys, call, c, clock, stable, native)
  {
    hide SystemInvariant, Told, Evaluate, Live, ClockUsable, Waiting, Running, IssueCommit, ReserveCommit, Recheck,
      GrantedBy;
    LiveOf(sys, c.proof, clock);
    LeaseOf(sys, c.lease, c.proof, 0);
  }

  lemma IssueAnswer(sys: System, rest: System, call: nat, c: Call, clock: Clock, stable: bool,
                    native: Option<(Handle, Digest)>)
    requires Reached(sys) && rest.source == sys.source && rest.log == sys.log
    requires c.IssuePending? && PendingTold(sys.source, sys.log, call, c)
    ensures Ended(sys, Continue(rest, call, c, clock, stable, native), Success(sys.source, call, c, native, clock)) <==>
            StillGood(sys, call, c, clock, stable, native)
  {
    hide SystemInvariant, Told, ClockUsable, ReserveCommit, BeginCommit, ExecutionRecheck, Recheck, Named, KnownScope,
      IdentityTaken, FencedSince, Fair;
    NamedIff(sys, c.request.satisfactionId);
    StartedIn(sys, call, c);
  }

  /** An issue is still in its generation exactly if no fence was raised since it started. */
  lemma StartedIn(sys: System, call: nat, c: Call)
    requires Reached(sys) && c.IssuePending? && PendingTold(sys.source, sys.log, call, c)
    ensures c.generation == sys.source.generation <==>
            exists i: nat :: i < |sys.log| && sys.log[i] == IssueStarted(call, c.generation, c.request) &&
                             !FencedSince(sys.log, i)
  {
    hide SystemInvariant, CallsTold, AllVouched, IssuesTold, UsesTold, LeasesTold, WaitingTold, RunningTold,
      HandlesTold, FencedSince, Fair;
    var i: nat :| i < |sys.log| && sys.log[i] == IssueStarted(call, c.generation, c.request);
  }

  // ----- in every run -------------------------------------------------------------------------

  /**
    Whatever succeeds was approved before: a verification for this scope and claim, a receipt
    and a contract of a lease by the issue of the same proof, a binding or a begin by the grant
    of the lease to the same broker, an execution by a begin that has not ended.
  */
  lemma GrantsAreVouched(start: System, steps: seq<Step>, j: nat)
    requires Initial(start) && j < |Run(start, steps).log|
    ensures var log := Run(start, steps).log; VouchedBy(log[..j], log[j])
  {
    RunTold(start, steps);
    hide SystemInvariant, Run, TablesTold, CallsTold, VouchedBy;
  }

  /** Only the operator of an issuer changes it or has it grant, bind or begin anything. */
  lemma OutsiderChangesNothing(sys: System, step: Step)
    requires step.DoCreateScope? || step.StartIssue? || step.StartReserve? || step.DoBind? || step.StartBegin? ||
             step.DoFinish? || step.DoFence?
    requires step.operator != sys.source.operator
    ensures Apply(sys, step) == sys
  {
    hide Evaluate, IssueCommit, ReserveCommit, BeginCommit, Recheck, ExecutionRecheck;
    assert sys.log + ([] + []) == sys.log;
  }

  /** A scope is created exactly for the operator, in the host's epoch and under its maximum, while there is room. */
  lemma ScopeIff(sys: System, operator: Handle, digest: Digest, capabilities: Digest, epoch: nat, maximum: Digest)
    requires Reached(sys)
    ensures var t := Apply(sys, DoCreateScope(operator, digest, capabilities, epoch, maximum)).source;
            (t.scopes != sys.source.scopes <==>
             operator == sys.source.operator && epoch == sys.source.hostEpoch && maximum == sys.source.maximum &&
             |sys.source.scopes| < sys.source.limit) &&
            (t.scopes != sys.source.scopes ==>
               var scope := Scope(sys.source.nextUid, digest, capabilities);
               scope !in sys.source.scopes && t.scopes == sys.source.scopes[scope := digest])
  {
    hide Told, IssueAdmitted, VerifyCheck, ReceiptCheck, ReserveCheck, BindJob, BeginCheck, ExecutionCheck, Finish;
    hide Fence, Continue;
    Invariants(sys);
    NewScope(sys.source, digest, capabilities);
    hide SystemInvariant, SourceInvariant, CallFits;
  }

  lemma NewScope(s: Source, digest: Digest, capabilities: Digest)
    requires SourceInvariant(s)
    ensures Scope(s.nextUid, digest, capabilities) !in s.scopes
  {
  }
}

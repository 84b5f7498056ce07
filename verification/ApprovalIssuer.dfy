/**
  The approval issuer as an object: one method for each locked section, each proved to do
  exactly what the function of the same name in `ApprovalState` says, and so to keep the
  protocol's invariant and only move the state forward; and the authority that enrolls
  issuers and fences all of them whenever it does.
*/
module ApprovalIssuer {
  import opened Wrappers
  import opened ApprovalState
  import opened ApprovalInvariant

  class ApprovalSource {
    const id: nat
    const key: string
    const barrier: Handle
    const operator: Handle
    const limit: nat
    const hostEpoch: nat
    const maximum: Digest
    var generation: nat
    var lastNow: real
    var scopes: map<Scope, Digest>
    var issued: map<Proof, Satisfaction>
    var leases: map<Lease, Execution>
    var used: set<Proof>
    var nextUid: nat

    function State(): Source
      reads this
    {
      Source(id, operator, limit, hostEpoch, maximum, generation, lastNow, scopes, issued, leases, used, nextUid)
    }

    constructor (id: nat, key: string, barrier: Handle, operator: Handle, limit: nat, hostEpoch: nat, maximum: Digest)
      ensures State() == Fresh(id, operator, limit, hostEpoch, maximum) && SourceInvariant(State())
      ensures this.key == key && this.barrier == barrier
    {
      this.id, this.key, this.barrier := id, key, barrier;
      this.operator, this.limit, this.hostEpoch, this.maximum := operator, limit, hostEpoch, maximum;
      generation, lastNow := 0, 0.0;
      scopes, issued, leases, used, nextUid := map[], map[], map[], {}, 0;
    }

    /** The lease was granted for the satisfaction that this row records. */
    predicate Secures(lease: Lease, row: Satisfaction)
      reads this
    {
      lease in leases && leases[lease].satisfaction in issued && issued[leases[lease].satisfaction] == row
    }

    method Now(clock: Clock) returns (ok: bool)
      modifies this`lastNow
      ensures ok == ClockUsable(old(State()), clock)
      ensures lastNow == if ok then clock.now else old(lastNow)
      ensures SourceInvariant(old(State())) ==> Sound(old(State()), State())
    {
      hide SourceInvariant, Evolves;
      if SourceInvariant(State()) { SameSound(State());
        if ClockUsable(State(), clock) { TickSound(State(), clock.now); } }
      ok := clock.Reading? && lastNow <= clock.now;
      if ok { lastNow := clock.now; }
    }

    method IsAlive(proof: Proof, row: Satisfaction, clock: Clock) returns (live: Liveness)
      modifies this`lastNow
      ensures (State(), live) == Evaluate(old(State()), proof, row, clock)
      ensures SourceInvariant(old(State())) ==> Sound(old(State()), State())
    {
      hide SourceInvariant, Sound;
      if SourceInvariant(State()) { SameSound(State()); }
      if proof.source != id || row.generation != generation { return Dead; }
      var ok := Now(clock);
      if !ok { return Fault; }
      if !(lastNow < row.expiresAt) || !KnownScope(scopes, row.scope) { return Dead; }
      if proof !in used || HasForwardingLease(leases, proof) { return Alive; }
      return Dead;
    }

    method CreateScope(operator: Handle, digest: Digest, capabilities: Digest, epoch: nat, maximum: Digest)
      returns (scope: Option<Scope>)
      modifies this`scopes, this`nextUid
      ensures (State(), scope) ==
              ApprovalState.CreateScope(old(State()), operator, digest, capabilities, epoch, maximum)
      ensures SourceInvariant(old(State())) ==> Sound(old(State()), State())
    {
      hide SourceInvariant, Evolves;
      if SourceInvariant(State()) { CreateScopeSound(State(), operator, digest, capabilities, epoch, maximum); }
      if operator != this.operator || |scopes| >= limit { return None; }
      if epoch != hostEpoch || maximum != this.maximum { return None; }
      var created := Scope(nextUid, digest, capabilities);
      nextUid := nextUid + 1;
      scopes := scopes[created := digest];
      return Some(created);
    }

    /** First section of `issue`: the generation that the second section must still find. */
    method IssueStart(operator: Handle, scope: Scope, satisfactionId: string, lifetime: real, claim: Claim,
                      authorized: bool)
      returns (started: Option<nat>)
      ensures started == if IssueAdmitted(State(), operator, scope, satisfactionId, lifetime, claim, authorized)
              then Some(generation)
                         else None
    {
      if operator != this.operator || !ValidIdentity(satisfactionId) || !(0.0 < lifetime <= 300.0) { return None; }
      if claim.contract.None? || !authorized { return None; }
      if !KnownScope(scopes, scope) || scope.capabilities != claim.contract.value { return None; }
      if |issued| >= limit || IdentityTaken(issued, satisfactionId) { return None; }
      return Some(generation);
    }

    method IssueCommit(generation: nat, scope: Scope, satisfactionId: string, lifetime: real, claim: Claim,
                       stable: bool, native: Option<(Handle, Digest)>, clock: Clock) returns (proof: Option<Proof>)
      modifies this`lastNow, this`issued, this`nextUid
      ensures (State(), proof) ==
              ApprovalState.IssueCommit(old(State()), generation, scope, satisfactionId, lifetime, claim, stable,
                native, clock)
      ensures SourceInvariant(old(State())) ==> Sound(old(State()), State())
    {
      hide SourceInvariant, Evolves;
      if SourceInvariant(State()) {
        IssueCommitSound(State(), generation, scope, satisfactionId, lifetime, claim, stable, native, clock);
      }
      if generation != this.generation || |issued| >= limit || IdentityTaken(issued, satisfactionId) { return None; }
      if !stable || !KnownScope(scopes, scope) || native.None? { return None; }
      var ok := Now(clock);
      if !ok { return None; }
      var created := Proof(nextUid, id, satisfactionId);
      nextUid := nextUid + 1;
      issued := issued[
        created := Satisfaction(scope, claim, native.value.0, native.value.1, lastNow + lifetime, generation)];
      return Some(created);
    }

    method VerifyCheck(proof: Proof, scope: Scope, claim: Claim, clock: Clock)
      returns (live: Liveness, stage: Option<Stage>)
      modifies this`lastNow
      ensures (State(), live, stage) == ApprovalState.VerifyCheck(old(State()), proof, scope, claim, clock)
      ensures SourceInvariant(old(State())) ==> Sound(old(State()), State())
    {
      hide SourceInvariant, Sound;
      if SourceInvariant(State()) { SameSound(State()); }
      if proof !in issued || scope != issued[proof].scope { return Fault, None; }
      var row := issued[proof];
      live := IsAlive(proof, row, clock);
      if live != Alive || claim.contract.None? { return live, None; }
      if claim.action != row.claim.action || claim.review != row.claim.review ||
         claim.configuration != row.claim.configuration || claim.contract.value != row.scope.capabilities {
        return live, None;
      }
      return live, Some(if proof in used then ExecutionStage else ReviewStage);
    }

    method ReceiptCheck(proof: Proof, native: Handle, nativeDigest: Digest, clock: Clock)
      returns (live: Liveness, stage: Option<Stage>)
      modifies this`lastNow
      ensures (State(), live, stage) == ApprovalState.ReceiptCheck(old(State()), proof, native, nativeDigest, clock)
      ensures SourceInvariant(old(State())) ==> Sound(old(State()), State())
    {
      hide SourceInvariant, Sound;
      if SourceInvariant(State()) { SameSound(State()); }
      if proof !in issued || issued[proof].approval != native || nativeDigest != issued[proof].approvalDigest {
        return Fault, None;
      }
      live := IsAlive(proof, issued[proof], clock);
      if live != Alive { return live, None; }
      return live, Some(if proof in used then ExecutionStage else ReviewStage);
    }

    method Recheck(proof: Proof, row: Satisfaction, clock: Clock) returns (live: Liveness)
      modifies this`lastNow
      ensures (State(), live) == ApprovalState.Recheck(old(State()), proof, row, clock)
      ensures SourceInvariant(old(State())) ==> Sound(old(State()), State())
    {
      hide SourceInvariant, Sound;
      if SourceInvariant(State()) { SameSound(State()); }
      if proof !in issued || issued[proof] != row { return Fault; }
      live := IsAlive(proof, row, clock);
    }

    method ReserveCheck(operator: Handle, proof: Proof, contract: Digest, waives: bool, clock: Clock)
      returns (live: Liveness, ok: bool)
      modifies this`lastNow
      ensures (State(), live, ok) == ApprovalState.ReserveCheck(old(State()), operator, proof, contract, waives, clock)
      ensures SourceInvariant(old(State())) ==> Sound(old(State()), State())
    {
      hide SourceInvariant, Sound;
      if SourceInvariant(State()) { SameSound(State()); }
      if operator != this.operator || proof !in issued { return Fault, false; }
      live := IsAlive(proof, issued[proof], clock);
      if live != Alive || proof in used { return live, false; }
      if contract != issued[proof].scope.capabilities || waives { return live, false; }
      ok := |leases| < limit && !HasLease(leases, proof);
    }

    method ReserveCommit(proof: Proof, row: Satisfaction, contract: Digest, broker: Handle, clock: Clock)
      returns (live: Liveness, lease: Option<Lease>)
      modifies this`lastNow, this`leases, this`nextUid
      ensures (State(), live, lease) == ApprovalState.ReserveCommit(old(State()), proof, row, contract, broker, clock)
      ensures old(SourceInvariant(State()) && proof in issued && issued[proof] == row) ==>
              Sound(old(State()), State()) && (lease.Some? ==> !HasLease(old(leases), proof))
    {
      hide SourceInvariant, Evolves;
      if SourceInvariant(State()) && proof in issued && issued[proof] == row {
        ReserveCommitSound(State(), proof, contract, broker, clock);
      }
      live := IsAlive(proof, row, clock);
      if live != Alive || proof in used || |leases| >= limit || HasLease(leases, proof) { return live, None; }
      var created := Lease(nextUid, id);
      nextUid := nextUid + 1;
      leases := leases[created := Execution(proof, contract, broker, None, None, Reserved)];
      return live, Some(created);
    }

    method BindJob(operator: Handle, lease: Lease, broker: Handle, executor: Option<Handle>, job: Option<Handle>,
                   clock: Clock)
      returns (live: Liveness, ok: bool)
      modifies this`lastNow, this`leases
      ensures (State(), live, ok) == ApprovalState.BindJob(old(State()), operator, lease, broker, executor, job, clock)
      ensures SourceInvariant(old(State())) ==> Sound(old(State()), State())
      ensures ok ==> lease in leases && leases[lease].executor == executor && leases[lease].job == job
    {
      hide SourceInvariant, Evolves;
      if SourceInvariant(State()) { BindSound(State(), operator, lease, broker, executor, job, clock); }
      if operator != this.operator || lease !in leases || lease.source != id { return Fault, false; }
      var row := leases[lease];
      if row.broker != broker || row.phase != Reserved || row.job.Some? || row.satisfaction !in issued {
        return Fault, false;
      }
      live := IsAlive(row.satisfaction, issued[row.satisfaction], clock);
      if live != Alive { return live, false; }
      leases := leases[lease := row.(executor := executor, job := job)];
      ok := true;
    }

    method BeginCheck(operator: Handle, lease: Lease, broker: Handle, executor: Option<Handle>, job: Option<Handle>,
                      clock: Clock)
      returns (live: Liveness, ok: bool)
      modifies this`lastNow
      ensures (State(), live, ok) ==
              ApprovalState.BeginCheck(old(State()), operator, lease, broker, executor, job, clock)
      ensures SourceInvariant(old(State())) ==> Sound(old(State()), State())
    {
      hide SourceInvariant, Sound;
      if SourceInvariant(State()) { SameSound(State()); }
      if operator != this.operator || lease !in leases || lease.source != id { return Fault, false; }
      var row := leases[lease];
      if row.broker != broker || row.executor != executor || row.job != job || row.phase != Reserved {
        return Fault, false;
      }
      if row.satisfaction in used || row.satisfaction !in issued { return Fault, false; }
      live := IsAlive(row.satisfaction, issued[row.satisfaction], clock);
      ok := live == Alive;
    }

    method BeginCommit(lease: Lease, row: Satisfaction, clock: Clock) returns (live: Liveness, ok: bool)
      modifies this`lastNow, this`leases, this`used
      ensures (State(), live, ok) == ApprovalState.BeginCommit(old(State()), lease, row, clock)
      ensures old(SourceInvariant(State()) && Secures(lease, row)) ==> Sound(old(State()), State())
      ensures ok ==> lease in leases && leases[lease].phase == Forwarding &&
                     leases[lease].satisfaction in used - old(used)
    {
      hide SourceInvariant, Evolves;
      if SourceInvariant(State()) && Secures(lease, row) {
        BeginCommitSound(State(), lease, clock);
      }
      if lease !in leases || leases[lease].phase != Reserved || leases[lease].satisfaction in used {
        return Fault, false;
      }
      var execution := leases[lease];
      live := IsAlive(execution.satisfaction, row, clock);
      if live != Alive { return live, false; }
      used := used + {execution.satisfaction};
      leases := leases[lease := execution.(phase := Forwarding)];
      ok := true;
    }

    method ExecutionCheck(lease: Lease, executor: Option<Handle>, job: Option<Handle>, clock: Clock)
      returns (live: Liveness, ok: bool)
      modifies this`lastNow
      ensures (State(), live, ok) == ApprovalState.ExecutionCheck(old(State()), lease, executor, job, clock)
      ensures SourceInvariant(old(State())) ==> Sound(old(State()), State())
    {
      hide SourceInvariant, Sound;
      if SourceInvariant(State()) { SameSound(State()); }
      if lease !in leases || lease.source != id { return Fault, false; }
      var row := leases[lease];
      if row.executor != executor || row.job != job || row.phase != Forwarding || row.satisfaction !in issued {
        return Fault, false;
      }
      live := IsAlive(row.satisfaction, issued[row.satisfaction], clock);
      ok := live == Alive;
    }

    method ExecutionRecheck(lease: Lease, row: Satisfaction, clock: Clock) returns (live: Liveness, ok: bool)
      modifies this`lastNow
      ensures (State(), live, ok) == ApprovalState.ExecutionRecheck(old(State()), lease, row, clock)
      ensures SourceInvariant(old(State())) ==> Sound(old(State()), State())
    {
      hide SourceInvariant, Sound;
      if SourceInvariant(State()) { SameSound(State()); }
      if lease !in leases || leases[lease].phase != Forwarding { return Fault, false; }
      live := IsAlive(leases[lease].satisfaction, row, clock);
      ok := live == Alive;
    }

    method Finish(operator: Handle, lease: Lease) returns (ok: bool)
      modifies this`leases
      ensures (State(), ok) == ApprovalState.Finish(old(State()), operator, lease)
      ensures SourceInvariant(old(State())) ==> Sound(old(State()), State())
      ensures ok ==> lease in leases && (leases[lease].phase == Settled || leases[lease].phase == Canceled)
    {
      hide SourceInvariant, Evolves;
      if SourceInvariant(State()) { FinishSound(State(), operator, lease); }
      if operator != this.operator || lease !in leases || lease.source != id { return false; }
      var row := leases[lease];
      leases := leases[lease := row.(phase := if row.phase == Forwarding then Settled else Canceled)];
      ok := true;
    }

    method Fence(operator: Handle) returns (ok: bool)
      modifies this`generation, this`leases
      ensures (State(), ok) == ApprovalState.Fence(old(State()), operator)
      ensures SourceInvariant(old(State())) ==> Sound(old(State()), State())
      ensures ok ==> forall l :: l in leases ==> leases[l].phase == Settled || leases[l].phase == Phase.Fenced
    {
      hide SourceInvariant, Evolves;
      if SourceInvariant(State()) { FenceSound(State(), operator); }
      if operator != this.operator { return false; }
      generation := generation + 1;
      var pending := leases.Keys;
      while pending != {}
        invariant pending <= leases.Keys == old(leases).Keys && generation == old(generation) + 1
        invariant forall l :: l in leases ==>
          leases[l] == if l in pending then old(leases)[l] else FencedLeases(old(leases))[l]
        decreases |pending|
      {
        var lease :| lease in pending;
        if leases[lease].phase != Settled {
          leases := leases[lease := leases[lease].(phase := Phase.Fenced)];
        }
        pending := pending - {lease};
      }
      assert leases == FencedLeases(old(leases));
      ok := true;
    }
  }

  /** Finite enrollment of issuers that share one operator, maximum and admission barrier. */
  class ApprovalAuthority {
    const operator: Handle
    const barrier: Handle
    const maximum: Digest
    const limit: nat
    var sources: map<string, ApprovalSource>
    var generation: nat

    ghost predicate Valid()
      reads this
    {
      forall k :: k in sources ==> sources[k].key == k && sources[k].operator == operator
    }

    predicate Admits(source: ApprovalSource, operator: Handle)
      reads this
    {
      operator == this.operator && source.operator == operator && source.barrier == barrier &&
      source.maximum == maximum && source.key !in sources && |sources| < limit
    }

    constructor (operator: Handle, barrier: Handle, maximum: Digest, limit: nat)
      ensures Valid() && sources == map[] && generation == 0
      ensures this.operator == operator && this.barrier == barrier && this.maximum == maximum && this.limit == limit
    {
      this.operator, this.barrier, this.maximum, this.limit := operator, barrier, maximum, limit;
      sources, generation := map[], 0;
    }

    method FenceAll(operator: Handle)
      requires Valid()
      modifies sources.Values
      ensures forall k :: k in sources ==>
              sources[k].State() == ApprovalState.Fence(old(sources[k].State()), operator).0
    {
      hide ApprovalState.Fence, ApprovalSource.State, SourceInvariant, Sound;
      ghost var before := map k | k in sources :: sources[k].State();
      var pending := sources.Keys;
      while pending != {}
        invariant pending <= sources.Keys
        invariant forall k :: k in sources ==>
                    sources[k].State() == (if k in pending then before[k]
                      else ApprovalState.Fence(before[k], operator).0)
        decreases |pending|
      {
        var k :| k in pending;
        assert forall other :: other in sources && other != k ==> sources[other] != sources[k];
        var fenced := sources[k].Fence(operator);
        assert sources[k].State() == ApprovalState.Fence(before[k], operator).0;
        pending := pending - {k};
      }
    }

    /**
      Enrolling fences every issuer already enrolled and the new one; a refusal touches
      nothing. `bound` says that the binding digests of the authority and of every enrolled
      issuer can be computed.
    */
    method Enroll(source: ApprovalSource, operator: Handle, bound: bool) returns (ok: bool)
      requires Valid()
      modifies this, source, sources.Values
      ensures Valid() && ok == (bound && old(Admits(source, operator)))
      ensures sources == if ok then old(sources)[source.key := source] else old(sources)
      ensures generation == if ok then old(generation) + 1 else old(generation)
      ensures forall k :: k in old(sources) ==>
                old(sources)[k].State() ==
                (if ok then ApprovalState.Fence(old(sources[k].State()), operator).0 else old(sources[k].State()))
      ensures source.State() == if ok then ApprovalState.Fence(old(source.State()), operator).0 else old(source.State())
    {
      hide ApprovalState.Fence, ApprovalSource.State, SourceInvariant, Sound;
      if operator != this.operator || source.operator != operator || source.barrier != barrier { return false; }
      if !bound { return false; }
      if source.maximum != maximum || source.key in sources || |sources| >= limit { return false; }
      FenceAll(operator);
      var fenced := source.Fence(operator);
      sources := sources[source.key := source];
      generation := generation + 1;
      ok := true;
    }
  }

  /**
    What an enrollment means for an issuer: no proof it issued before can be evaluated as
    alive, at any clock reading, in any state the issuer reaches from there.
  */
  lemma EnrollmentEndsProofs(before: Source, later: Source, operator: Handle, p: Proof, clock: Clock)
    requires SourceInvariant(before) && p in before.issued && operator == before.operator
    requires SourceInvariant(later) && Evolves(Fence(before, operator).0, later)
    ensures p in later.issued && Evaluate(later, p, later.issued[p], clock).1 != Alive
  {
    FenceSound(before, operator);
    SpentForever(Fence(before, operator).0, later, p);
    EvaluateSound(later, p, clock);
  }
}

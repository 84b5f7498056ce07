/**
  The state of one approval issuer and the effect of each of its locked sections.

  Python compares proofs, leases, scopes and handles by identity, so each of them carries
  a `uid` (or is a bare number) that no two objects share. A section that raises returns
  `None` (or `false`) together with the state it leaves behind: reading the clock moves
  `lastNow` even when the section goes on to refuse.
*/
module ApprovalState {
  import opened Wrappers

  type Digest = string
  type Handle = nat

  datatype Scope = Scope(uid: nat, digest: Digest, capabilities: Digest)
  datatype Proof = Proof(uid: nat, source: nat, satisfactionId: string)
  datatype Lease = Lease(uid: nat, source: nat)

  datatype Satisfaction = Satisfaction(
    scope: Scope, claim: Claim, approval: Handle, approvalDigest: Digest, expiresAt: real, generation: nat)

  /** What the caller presents: three digests, and the base contract if it can be derived. */
  datatype Claim = Claim(action: Digest, review: Digest, configuration: Digest, contract: Option<Digest>)

  datatype Phase = Reserved | Forwarding | Settled | Canceled | Fenced

  datatype Execution = Execution(
    satisfaction: Proof, baseContract: Digest, broker: Handle,
    executor: Option<Handle>, job: Option<Handle>, phase: Phase)

  datatype Source = Source(
    id: nat, operator: Handle, limit: nat, hostEpoch: nat, maximum: Digest,
    generation: nat, lastNow: real,
    scopes: map<Scope, Digest>, issued: map<Proof, Satisfaction>,
    leases: map<Lease, Execution>, used: set<Proof>, nextUid: nat)

  /** One answer of the injected clock; `Unavailable` is a non-number or a non-finite number. */
  datatype Clock = Reading(now: real) | Unavailable

  /** The outcome of `_alive`: `Fault` is the exception raised for an unusable clock. */
  datatype Liveness = Alive | Dead | Fault

  datatype Stage = ReviewStage | ExecutionStage

  function Fresh(id: nat, operator: Handle, limit: nat, hostEpoch: nat, maximum: Digest): Source {
    Source(id, operator, limit, hostEpoch, maximum, 0, 0.0, map[], map[], map[], {}, 0)
  }

  predicate ClockUsable(s: Source, clock: Clock) {
    clock.Reading? && s.lastNow <= clock.now
  }

  predicate HasForwardingLease(leases: map<Lease, Execution>, proof: Proof) {
    exists l | l in leases :: leases[l].satisfaction == proof && leases[l].phase == Forwarding
  }

  predicate HasLease(leases: map<Lease, Execution>, proof: Proof) {
    exists l | l in leases :: leases[l].satisfaction == proof
  }

  predicate KnownScope(scopes: map<Scope, Digest>, scope: Scope) {
    scope in scopes && scopes[scope] == scope.digest
  }

  predicate IdentityTaken(issued: map<Proof, Satisfaction>, satisfactionId: string) {
    exists p | p in issued :: p.satisfactionId == satisfactionId
  }

  /** `_alive`: the clock is read only when the generation is current. */
  function Evaluate(s: Source, proof: Proof, row: Satisfaction, clock: Clock): (Source, Liveness) {
    if proof.source != s.id || row.generation != s.generation then (s, Dead)
    else if !ClockUsable(s, clock) then (s, Fault)
    else
      var t := s.(lastNow := clock.now);
      if clock.now < row.expiresAt && KnownScope(t.scopes, row.scope) &&
         (proof in t.used ==> HasForwardingLease(t.leases, proof))
      then (t, Alive) else (t, Dead)
  }

  function CreateScope(s: Source, operator: Handle, digest: Digest, capabilities: Digest,
                       epoch: nat, maximum: Digest): (Source, Option<Scope>) {
    if operator != s.operator || |s.scopes| >= s.limit || epoch != s.hostEpoch || maximum != s.maximum
    then (s, None)
    else
      var scope := Scope(s.nextUid, digest, capabilities);
      (s.(scopes := s.scopes[scope := digest], nextUid := s.nextUid + 1), Some(scope))
  }

  predicate IdentityCharacter(c: char) {
    'a' <= c <= 'z' || 'A' <= c <= 'Z' || '0' <= c <= '9' || c == '_' || c == '-'
  }

  predicate ValidIdentity(id: string) {
    1 <= |id| <= 64 && forall i | 0 <= i < |id| :: IdentityCharacter(id[i])
  }

  /** First section of `issue`; `authorized` says the operator maximum covers the action. */
  predicate IssueAdmitted(s: Source, operator: Handle, scope: Scope, satisfactionId: string,
                          lifetime: real, claim: Claim, authorized: bool) {
    operator == s.operator && ValidIdentity(satisfactionId) && 0.0 < lifetime <= 300.0 &&
    claim.contract.Some? && authorized && KnownScope(s.scopes, scope) && scope.capabilities == claim.contract.value &&
    |s.issued| < s.limit && !IdentityTaken(s.issued, satisfactionId)
  }

  /**
    Second section of `issue`. `stable` says the base contract is still the one seen
    first; `native` is the receipt the host recorded, if it did.
  */
  function IssueCommit(s: Source, generation: nat, scope: Scope, satisfactionId: string, lifetime: real,
                       claim: Claim, stable: bool, native: Option<(Handle, Digest)>, clock: Clock)
    : (Source, Option<Proof>) {
    if generation != s.generation || |s.issued| >= s.limit || IdentityTaken(s.issued, satisfactionId) ||
       !stable || !KnownScope(s.scopes, scope) || native.None? || !ClockUsable(s, clock)
    then (s, None)
    else
      var proof := Proof(s.nextUid, s.id, satisfactionId);
      var row := Satisfaction(scope, claim, native.value.0, native.value.1, clock.now + lifetime, generation);
      (s.(lastNow := clock.now, issued := s.issued[proof := row], nextUid := s.nextUid + 1), Some(proof))
  }

  function StageOf(s: Source, proof: Proof): Stage {
    if proof in s.used then ExecutionStage else ReviewStage
  }

  /** First section of `verify`: the row to hold on to and the stage to ask about. */
  function VerifyCheck(s: Source, proof: Proof, scope: Scope, claim: Claim, clock: Clock)
    : (Source, Liveness, Option<Stage>) {
    if proof !in s.issued || scope != s.issued[proof].scope then (s, Fault, None)
    else
      var (t, live) := Evaluate(s, proof, s.issued[proof], clock);
      if live == Alive && claim.contract.Some? &&
         claim.action == s.issued[proof].claim.action && claim.review == s.issued[proof].claim.review &&
         claim.configuration == s.issued[proof].claim.configuration &&
         claim.contract.value == s.issued[proof].scope.capabilities
      then (t, live, Some(StageOf(t, proof))) else (t, live, None)
  }

  /** First section of `host_receipt_current`; the caller presents the receipt and its digest. */
  function ReceiptCheck(s: Source, proof: Proof, native: Handle, nativeDigest: Digest, clock: Clock)
    : (Source, Liveness, Option<Stage>) {
    if proof !in s.issued || s.issued[proof].approval != native || nativeDigest != s.issued[proof].approvalDigest
    then (s, Fault, None)
    else
      var (t, live) := Evaluate(s, proof, s.issued[proof], clock);
      (t, live, if live == Alive then Some(StageOf(t, proof)) else None)
  }

  /** Second section of `verify` and of `host_receipt_current`. */
  function Recheck(s: Source, proof: Proof, row: Satisfaction, clock: Clock): (Source, Liveness) {
    if proof !in s.issued || s.issued[proof] != row then (s, Fault) else Evaluate(s, proof, row, clock)
  }

  /** First section of `reserve_lease`; `waives` marks a contract with unknowns or a block. */
  function ReserveCheck(s: Source, operator: Handle, proof: Proof, contract: Digest, waives: bool, clock: Clock)
    : (Source, Liveness, bool) {
    if operator != s.operator || proof !in s.issued then (s, Fault, false)
    else
      var (t, live) := Evaluate(s, proof, s.issued[proof], clock);
      (t, live,
       live == Alive && proof !in t.used && contract == t.issued[proof].scope.capabilities && !waives &&
       |t.leases| < t.limit && !HasLease(t.leases, proof))
  }

  function ReserveCommit(s: Source, proof: Proof, row: Satisfaction, contract: Digest, broker: Handle, clock: Clock)
    : (Source, Liveness, Option<Lease>) {
    var (t, live) := Evaluate(s, proof, row, clock);
    if live != Alive || proof in t.used || |t.leases| >= t.limit || HasLease(t.leases, proof) then (t, live, None)
    else
      var lease := Lease(t.nextUid, t.id);
      var execution := Execution(proof, contract, broker, None, None, Reserved);
      (t.(leases := t.leases[lease := execution], nextUid := t.nextUid + 1), live, Some(lease))
  }

  /** `bind_job`; a handle may be Python's None. */
  function BindJob(s: Source, operator: Handle, lease: Lease, broker: Handle,
                   executor: Option<Handle>, job: Option<Handle>, clock: Clock)
    : (Source, Liveness, bool) {
    if operator != s.operator || lease !in s.leases || lease.source != s.id || s.leases[lease].broker != broker ||
       s.leases[lease].phase != Reserved || s.leases[lease].job.Some? || s.leases[lease].satisfaction !in s.issued
    then (s, Fault, false)
    else
      var row := s.leases[lease];
      var (t, live) := Evaluate(s, row.satisfaction, s.issued[row.satisfaction], clock);
      if live != Alive then (t, live, false)
      else (t.(leases := t.leases[lease := row.(executor := executor, job := job)]), live, true)
  }

  function BeginCheck(s: Source, operator: Handle, lease: Lease, broker: Handle,
                      executor: Option<Handle>, job: Option<Handle>, clock: Clock)
    : (Source, Liveness, bool) {
    if operator != s.operator || lease !in s.leases || lease.source != s.id || s.leases[lease].broker != broker ||
       s.leases[lease].executor != executor || s.leases[lease].job != job ||
       s.leases[lease].phase != Reserved || s.leases[lease].satisfaction in s.used ||
       s.leases[lease].satisfaction !in s.issued
    then (s, Fault, false)
    else
      var proof := s.leases[lease].satisfaction;
      var (t, live) := Evaluate(s, proof, s.issued[proof], clock);
      (t, live, live == Alive)
  }

  function BeginCommit(s: Source, lease: Lease, row: Satisfaction, clock: Clock): (Source, Liveness, bool) {
    if lease !in s.leases || s.leases[lease].phase != Reserved || s.leases[lease].satisfaction in s.used
    then (s, Fault, false)
    else
      var execution := s.leases[lease];
      var (t, live) := Evaluate(s, execution.satisfaction, row, clock);
      if live != Alive then (t, live, false)
      else (t.(used := t.used + {execution.satisfaction},
               leases := t.leases[lease := execution.(phase := Forwarding)]), live, true)
  }

  function ExecutionCheck(s: Source, lease: Lease, executor: Option<Handle>, job: Option<Handle>, clock: Clock)
    : (Source, Liveness, bool) {
    if lease !in s.leases || lease.source != s.id || s.leases[lease].executor != executor ||
       s.leases[lease].job != job || s.leases[lease].phase != Forwarding || s.leases[lease].satisfaction !in s.issued
    then (s, Fault, false)
    else
      var proof := s.leases[lease].satisfaction;
      var (t, live) := Evaluate(s, proof, s.issued[proof], clock);
      (t, live, live == Alive)
  }

  function ExecutionRecheck(s: Source, lease: Lease, row: Satisfaction, clock: Clock): (Source, Liveness, bool) {
    if lease !in s.leases || s.leases[lease].phase != Forwarding then (s, Fault, false)
    else
      var (t, live) := Evaluate(s, s.leases[lease].satisfaction, row, clock);
      (t, live, live == Alive)
  }

  function FinishedPhase(phase: Phase): Phase {
    if phase == Forwarding then Settled else Canceled
  }

  function Finish(s: Source, operator: Handle, lease: Lease): (Source, bool) {
    if operator != s.operator || lease !in s.leases || lease.source != s.id then (s, false)
    else (s.(leases := s.leases[lease := s.leases[lease].(phase := FinishedPhase(s.leases[lease].phase))]), true)
  }

  function FencedPhase(phase: Phase): Phase {
    if phase == Settled then Settled else Phase.Fenced
  }

  function FencedLeases(leases: map<Lease, Execution>): map<Lease, Execution> {
    map l | l in leases :: leases[l].(phase := FencedPhase(leases[l].phase))
  }

  function Fence(s: Source, operator: Handle): (Source, bool) {
    if operator != s.operator then (s, false)
    else (s.(generation := s.generation + 1, leases := FencedLeases(s.leases)), true)
  }

  // ----- what never goes back ----------------------------------------------------------

  /** Where a lease in phase `a` may be found later. */
  predicate PhaseLeads(a: Phase, b: Phase) {
    match a
    case Reserved => true
    case Forwarding => b != Reserved
    case Settled => b == Settled || b == Canceled || b == Fenced
    case Canceled => b == Canceled || b == Fenced
    case Fenced => b == Fenced || b == Canceled
  }

  predicate ExecutionLeads(a: Execution, b: Execution) {
    a.satisfaction == b.satisfaction && a.baseContract == b.baseContract && a.broker == b.broker &&
    PhaseLeads(a.phase, b.phase) &&
    (a.job.Some? || a.phase != Reserved ==> a.executor == b.executor && a.job == b.job)
  }

  ghost predicate ScopesKept(a: map<Scope, Digest>, b: map<Scope, Digest>) {
    forall sc :: sc in a ==> sc in b && b[sc] == a[sc]
  }

  ghost predicate IssuedKept(a: map<Proof, Satisfaction>, b: map<Proof, Satisfaction>) {
    forall p :: p in a ==> p in b && b[p] == a[p]
  }

  ghost predicate LeasesLead(a: map<Lease, Execution>, b: map<Lease, Execution>) {
    forall l :: l in a ==> l in b && ExecutionLeads(a[l], b[l])
  }

  /** The order every section respects: nothing recorded is forgotten or changed. */
  ghost predicate Evolves(a: Source, b: Source) {
    a.id == b.id && a.operator == b.operator && a.limit == b.limit &&
    a.generation <= b.generation && a.lastNow <= b.lastNow && a.nextUid <= b.nextUid && a.used <= b.used &&
    ScopesKept(a.scopes, b.scopes) && IssuedKept(a.issued, b.issued) && LeasesLead(a.leases, b.leases)
  }

  ghost predicate ScopesRecorded(scopes: map<Scope, Digest>, nextUid: nat) {
    forall sc :: sc in scopes ==> sc.uid < nextUid && scopes[sc] == sc.digest
  }

  ghost predicate ProofsRecorded(issued: map<Proof, Satisfaction>, scopes: map<Scope, Digest>, id: nat,
                                 generation: nat, nextUid: nat) {
    forall p :: p in issued ==>
      p.uid < nextUid && p.source == id && issued[p].generation <= generation && issued[p].scope in scopes
  }

  ghost predicate OneProofPerIdentity(issued: map<Proof, Satisfaction>) {
    forall p, q :: p in issued && q in issued && p.satisfactionId == q.satisfactionId ==> p == q
  }

  ghost predicate LeasesRecorded(leases: map<Lease, Execution>, issued: map<Proof, Satisfaction>, id: nat,
                                 nextUid: nat) {
    forall l :: l in leases ==> l.uid < nextUid && l.source == id && leases[l].satisfaction in issued
  }

  ghost predicate OneLeasePerProof(leases: map<Lease, Execution>) {
    forall l, m :: l in leases && m in leases && leases[l].satisfaction == leases[m].satisfaction ==> l == m
  }

  /** `used` holds a satisfaction exactly from the moment its lease starts forwarding. */
  ghost predicate UsedByForwarding(leases: map<Lease, Execution>, used: set<Proof>) {
    (forall l :: l in leases && leases[l].phase == Reserved ==> leases[l].satisfaction !in used) &&
    (forall l :: l in leases && leases[l].phase == Forwarding ==> leases[l].satisfaction in used)
  }

  ghost predicate UsedHaveLeases(leases: map<Lease, Execution>, used: set<Proof>) {
    forall p :: p in used ==> HasLease(leases, p)
  }

  ghost predicate WithinLimit(s: Source) {
    |s.scopes| <= s.limit && |s.issued| <= s.limit && |s.leases| <= s.limit
  }

  ghost predicate SourceInvariant(s: Source) {
    ScopesRecorded(s.scopes, s.nextUid) &&
    ProofsRecorded(s.issued, s.scopes, s.id, s.generation, s.nextUid) &&
    OneProofPerIdentity(s.issued) && LeasesRecorded(s.leases, s.issued, s.id, s.nextUid) &&
    OneLeasePerProof(s.leases) && UsedByForwarding(s.leases, s.used) && UsedHaveLeases(s.leases, s.used) &&
      WithinLimit(s)
  }

  /** No later reading of the clock can make this proof pass `_alive`. */
  ghost predicate Spent(s: Source, p: Proof) {
    p in s.issued &&
    (s.issued[p].generation != s.generation || s.issued[p].expiresAt <= s.lastNow ||
     (p in s.used && !HasForwardingLease(s.leases, p)))
  }

  lemma EvolvesTransitive(a: Source, b: Source, c: Source)
    requires Evolves(a, b) && Evolves(b, c)
    ensures Evolves(a, c)
  {
    hide ExecutionLeads;
    forall l | l in a.leases ensures l in c.leases && ExecutionLeads(a.leases[l], c.leases[l]) {
      LeadsOn(a.leases[l], b.leases[l], c.leases[l]);
    }
  }

  lemma LeadsOn(a: Execution, b: Execution, c: Execution)
    requires ExecutionLeads(a, b) && ExecutionLeads(b, c)
    ensures ExecutionLeads(a, c)
  {
  }

  /** Tables that do not change are kept. */
  lemma TablesKept(s: Source)
    ensures ScopesKept(s.scopes, s.scopes) && IssuedKept(s.issued, s.issued) && LeasesLead(s.leases, s.leases)
  {
  }

  lemma TickEvolves(s: Source, now: real)
    requires s.lastNow <= now
    ensures Evolves(s, s.(lastNow := now))
  {
    hide ScopesKept, IssuedKept, LeasesLead;
    TablesKept(s);
  }

  lemma EvaluateSound(s: Source, p: Proof, clock: Clock)
    requires SourceInvariant(s) && p in s.issued
    ensures var (t, live) := Evaluate(s, p, s.issued[p], clock);
            SourceInvariant(t) && Evolves(s, t) && t == s.(lastNow := t.lastNow) &&
            (live == Dead ==> Spent(t, p)) &&
            (live == Alive ==> !Spent(s, p) && s.issued[p].generation == s.generation)
  {
    hide ScopesRecorded, OneProofPerIdentity, LeasesRecorded, OneLeasePerProof, UsedByForwarding, UsedHaveLeases,
      Evolves, HasForwardingLease;
    TickEvolves(s, s.lastNow);
    if ClockUsable(s, clock) {
      TickEvolves(s, clock.now);
    }
    ScopeKnown(s, p);
  }

  lemma ScopeKnown(s: Source, p: Proof)
    requires ScopesRecorded(s.scopes, s.nextUid) &&
             ProofsRecorded(s.issued, s.scopes, s.id, s.generation, s.nextUid) && p in s.issued
    ensures KnownScope(s.scopes, s.issued[p].scope) && p.source == s.id
  {
  }

  /** Once its only lease has left "reserved" without forwarding, a proof never forwards again. */
  lemma NeverForwardsAgain(a: map<Lease, Execution>, b: map<Lease, Execution>, used: set<Proof>, p: Proof)
    requires LeasesLead(a, b) && OneLeasePerProof(b) && UsedByForwarding(a, used)
    requires p in used && HasLease(a, p) && !HasForwardingLease(a, p)
    ensures !HasForwardingLease(b, p)
  {
    var l :| l in a && a[l].satisfaction == p;
    assert ExecutionLeads(a[l], b[l]) && b[l].phase != Forwarding;
  }

  /** A spent proof stays spent however the source moves on. */
  lemma SpentForever(a: Source, b: Source, p: Proof)
    requires SourceInvariant(a) && SourceInvariant(b) && Evolves(a, b) && Spent(a, p)
    ensures Spent(b, p)
  {
    hide ScopesRecorded, OneProofPerIdentity, LeasesRecorded, OneLeasePerProof, UsedByForwarding, ScopesKept,
      LeasesLead, HasForwardingLease, HasLease;
    if p in a.used && !HasForwardingLease(a.leases, p) {
      assert HasLease(a.leases, p);
      NeverForwardsAgain(a.leases, b.leases, a.used, p);
    }
  }
}

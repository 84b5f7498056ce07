/** Every locked section keeps the issuer's invariant and only moves its state forward. */
module ApprovalInvariant {
  import opened Wrappers
  import opened ApprovalState

  /** What every section ensures of the state before and after it. */
  ghost predicate Sound(s: Source, t: Source) { SourceInvariant(t) && Evolves(s, t) }

  lemma SoundThen(a: Source, b: Source, c: Source)
    requires Evolves(a, b) && Sound(b, c)
    ensures Sound(a, c)
  {
    hide SourceInvariant, Evolves;
    EvolvesTransitive(a, b, c);
  }

  lemma SameSound(s: Source)
    requires SourceInvariant(s)
    ensures Sound(s, s)
  {
    hide SourceInvariant, Evolves;
    TickEvolves(s, s.lastNow);
  }

  lemma TickSound(s: Source, now: real)
    requires SourceInvariant(s) && s.lastNow <= now
    ensures Sound(s, s.(lastNow := now))
  {
    hide ScopesRecorded, ProofsRecorded, OneProofPerIdentity, LeasesRecorded, OneLeasePerProof, UsedByForwarding,
      UsedHaveLeases, Evolves;
    TickEvolves(s, now);
  }

  /** What is recorded stays recorded when the generation and the identities move on. */
  lemma StillRecorded(s: Source, scopes: map<Scope, Digest>, generation: nat, nextUid: nat)
    requires ScopesRecorded(s.scopes, s.nextUid) && LeasesRecorded(s.leases, s.issued, s.id, s.nextUid)
    requires ProofsRecorded(s.issued, s.scopes, s.id, s.generation, s.nextUid)
    requires ScopesKept(s.scopes, scopes) && s.generation <= generation && s.nextUid <= nextUid
    ensures ScopesRecorded(s.scopes, nextUid) && LeasesRecorded(s.leases, s.issued, s.id, nextUid)
    ensures ProofsRecorded(s.issued, scopes, s.id, generation, nextUid)
  {
  }

  lemma AddScope(scopes: map<Scope, Digest>, sc: Scope)
    requires ScopesRecorded(scopes, sc.uid)
    ensures var m := scopes[sc := sc.digest]; ScopesRecorded(m, sc.uid + 1) && ScopesKept(scopes, m) &&
                                              |m| <= |scopes| + 1
  {
  }

  lemma CreateScopeSound(s: Source, operator: Handle, digest: Digest, capabilities: Digest, epoch: nat, maximum: Digest)
    requires SourceInvariant(s)
    ensures Sound(s, CreateScope(s, operator, digest, capabilities, epoch, maximum).0)
  {
    hide ScopesRecorded, ProofsRecorded, OneProofPerIdentity, LeasesRecorded, OneLeasePerProof, UsedByForwarding,
      UsedHaveLeases, ScopesKept, IssuedKept, LeasesLead;
    TablesKept(s);
    var (t, scope) := CreateScope(s, operator, digest, capabilities, epoch, maximum);
    if scope.Some? {
      AddScope(s.scopes, scope.value);
      StillRecorded(s, t.scopes, t.generation, t.nextUid);
    }
  }

  lemma AddIssued(issued: map<Proof, Satisfaction>, p: Proof, row: Satisfaction)
    requires OneProofPerIdentity(issued) && !IdentityTaken(issued, p.satisfactionId)
    ensures p !in issued && OneProofPerIdentity(issued[p := row]) && IssuedKept(issued, issued[p := row])
  {
    forall q | q in issued ensures q.satisfactionId != p.satisfactionId {
    }
  }

  lemma RecordIssued(s: Source, p: Proof, row: Satisfaction)
    requires ProofsRecorded(s.issued, s.scopes, s.id, s.generation, s.nextUid) &&
             LeasesRecorded(s.leases, s.issued, s.id, s.nextUid)
    requires p.uid == s.nextUid && p.source == s.id && row.generation <= s.generation && row.scope in s.scopes
    ensures var m := s.issued[p := row];
            ProofsRecorded(m, s.scopes, s.id, s.generation, s.nextUid + 1) &&
              LeasesRecorded(s.leases, m, s.id, s.nextUid + 1)
  {
  }

  lemma IssueCommitSound(s: Source, generation: nat, scope: Scope, id: string, lifetime: real, claim: Claim,
                         stable: bool, native: Option<(Handle, Digest)>, clock: Clock)
    requires SourceInvariant(s)
    ensures var (t, proof) := IssueCommit(s, generation, scope, id, lifetime, claim, stable, native, clock);
            Sound(s, t) &&
            (proof.Some? ==> proof.value !in s.issued && proof.value in t.issued &&
                             t.issued[proof.value].generation == generation == s.generation == t.generation)
  {
    hide ScopesRecorded, ProofsRecorded, OneProofPerIdentity, LeasesRecorded, OneLeasePerProof, UsedByForwarding,
      UsedHaveLeases, ScopesKept, IssuedKept, LeasesLead, IdentityTaken;
    TablesKept(s);
    var (t, proof) := IssueCommit(s, generation, scope, id, lifetime, claim, stable, native, clock);
    if proof.Some? {
      AddIssued(s.issued, proof.value, t.issued[proof.value]);
      StillRecorded(s, s.scopes, s.generation, t.nextUid);
      RecordIssued(s, proof.value, t.issued[proof.value]);
    }
  }

  lemma AddLease(leases: map<Lease, Execution>, used: set<Proof>, l: Lease, e: Execution)
    requires OneLeasePerProof(leases) && UsedByForwarding(leases, used) && UsedHaveLeases(leases, used)
    requires l !in leases && e.phase == Reserved && e.satisfaction !in used && !HasLease(leases, e.satisfaction)
    ensures var m := leases[l := e];
            OneLeasePerProof(m) && UsedByForwarding(m, used) && UsedHaveLeases(m, used) && LeasesLead(leases, m)
  {
    var m := leases[l := e];
    forall p | p in used ensures HasLease(m, p) {
      assert HasLease(leases, p);
      var k :| k in leases && leases[k].satisfaction == p;
      assert m[k].satisfaction == p;
    }
  }

  lemma RecordLease(s: Source, l: Lease, e: Execution)
    requires LeasesRecorded(s.leases, s.issued, s.id, s.nextUid)
    requires l.uid == s.nextUid && l.source == s.id && e.satisfaction in s.issued
    ensures l !in s.leases && LeasesRecorded(s.leases[l := e], s.issued, s.id, s.nextUid + 1)
  {
  }

  lemma AddLeaseSound(s: Source, p: Proof, contract: Digest, broker: Handle)
    requires SourceInvariant(s) && p in s.issued && p !in s.used && !HasLease(s.leases, p) && |s.leases| < s.limit
    ensures var e := Execution(p, contract, broker, None, None, Reserved);
            Sound(s, s.(leases := s.leases[Lease(s.nextUid, s.id) := e], nextUid := s.nextUid + 1))
  {
    hide ScopesRecorded, ProofsRecorded, OneProofPerIdentity, LeasesRecorded, OneLeasePerProof, UsedByForwarding,
      UsedHaveLeases, ScopesKept, IssuedKept, LeasesLead, HasLease;
    TablesKept(s);
    var l := Lease(s.nextUid, s.id);
    var e := Execution(p, contract, broker, None, None, Reserved);
    RecordLease(s, l, e);
    AddLease(s.leases, s.used, l, e);
    StillRecorded(s, s.scopes, s.generation, s.nextUid + 1);
  }

  lemma ReserveCommitSound(s: Source, p: Proof, contract: Digest, broker: Handle, clock: Clock)
    requires SourceInvariant(s) && p in s.issued
    ensures var (t, live, lease) := ReserveCommit(s, p, s.issued[p], contract, broker, clock);
            Sound(s, t) && (live == Dead ==> Spent(t, p)) && (live == Alive ==> !Spent(s, p)) &&
            (lease.Some? ==> lease.value in t.leases && t.leases[lease.value].satisfaction == p &&
                             !HasLease(s.leases, p))
  {
    hide SourceInvariant, Evolves, Spent, HasLease, Evaluate;
    EvaluateSound(s, p, clock);
    var (t, live) := Evaluate(s, p, s.issued[p], clock);
    var (r, _, lease) := ReserveCommit(s, p, s.issued[p], contract, broker, clock);
    if lease.Some? {
      AddLeaseSound(t, p, contract, broker);
      SoundThen(s, t, r);
    }
  }

  lemma ReplaceLease(leases: map<Lease, Execution>, used: set<Proof>, l: Lease, e: Execution)
    requires l in leases && ExecutionLeads(leases[l], e)
    requires OneLeasePerProof(leases) && UsedHaveLeases(leases, used)
    ensures var m := leases[l := e];
            OneLeasePerProof(m) && UsedHaveLeases(m, used) && LeasesLead(leases, m)
  {
    var m := leases[l := e];
    forall p | p in used ensures HasLease(m, p) {
      assert HasLease(leases, p);
      var k :| k in leases && leases[k].satisfaction == p;
      assert m[k].satisfaction == p;
    }
  }

  lemma ReRecordLease(s: Source, l: Lease, e: Execution)
    requires LeasesRecorded(s.leases, s.issued, s.id, s.nextUid) && l in s.leases &&
             e.satisfaction == s.leases[l].satisfaction
    ensures LeasesRecorded(s.leases[l := e], s.issued, s.id, s.nextUid) && |s.leases[l := e]| == |s.leases|
  {
    assert s.leases[l := e].Keys == s.leases.Keys;
  }

  lemma ReplaceSound(s: Source, l: Lease, e: Execution)
    requires SourceInvariant(s) && l in s.leases && ExecutionLeads(s.leases[l], e)
    requires UsedByForwarding(s.leases[l := e], s.used)
    ensures Sound(s, s.(leases := s.leases[l := e]))
  {
    hide ScopesRecorded, ProofsRecorded, OneProofPerIdentity, LeasesRecorded, OneLeasePerProof, UsedByForwarding,
      UsedHaveLeases, ScopesKept, IssuedKept, LeasesLead;
    TablesKept(s);
    ReRecordLease(s, l, e);
    ReplaceLease(s.leases, s.used, l, e);
  }

  /** Replacing a lease without changing whether it is reserved or forwarding. */
  lemma SamePhaseUses(leases: map<Lease, Execution>, used: set<Proof>, l: Lease, e: Execution)
    requires UsedByForwarding(leases, used) && l in leases && e.satisfaction == leases[l].satisfaction
    requires e.phase == leases[l].phase || (e.phase != Reserved && e.phase != Forwarding)
    ensures UsedByForwarding(leases[l := e], used)
  {
  }

  lemma BindSound(s: Source, operator: Handle, l: Lease, broker: Handle,
                  executor: Option<Handle>, job: Option<Handle>, clock: Clock)
    requires SourceInvariant(s)
    ensures var (t, live, ok) := BindJob(s, operator, l, broker, executor, job, clock);
            Sound(s, t) && (ok ==> l in t.leases && t.leases[l].executor == executor && t.leases[l].job == job) &&
            (live != Fault ==> l in s.leases && s.leases[l].satisfaction in s.issued) &&
            (live == Dead ==> Spent(t, s.leases[l].satisfaction)) &&
            (live == Alive ==> !Spent(s, s.leases[l].satisfaction))
  {
    hide SourceInvariant, Evolves, Spent, Evaluate;
    SameSound(s);
    var (r, live, ok) := BindJob(s, operator, l, broker, executor, job, clock);
    if l in s.leases && s.leases[l].satisfaction in s.issued {
      var row := s.leases[l];
      EvaluateSound(s, row.satisfaction, clock);
      var (t, _) := Evaluate(s, row.satisfaction, s.issued[row.satisfaction], clock);
      if ok {
        UsesOf(t);
        SamePhaseUses(t.leases, t.used, l, row.(executor := executor, job := job));
        ReplaceSound(t, l, row.(executor := executor, job := job));
        SoundThen(s, t, r);
      }
    }
  }

  lemma UsesOf(s: Source)
    requires SourceInvariant(s)
    ensures UsedByForwarding(s.leases, s.used)
  {
  }

  lemma NowForwarding(leases: map<Lease, Execution>, used: set<Proof>, l: Lease)
    requires OneLeasePerProof(leases) && UsedByForwarding(leases, used) && UsedHaveLeases(leases, used) && l in leases
    ensures var p, m := leases[l].satisfaction, leases[l := leases[l].(phase := Forwarding)];
            UsedByForwarding(m, used + {p}) && UsedHaveLeases(m, used + {p})
  {
    var p, m := leases[l].satisfaction, leases[l := leases[l].(phase := Forwarding)];
    forall q | q in used + {p} ensures HasLease(m, q) {
      if q == p { assert m[l].satisfaction == q; } else {
        assert HasLease(leases, q);
        var k :| k in leases && leases[k].satisfaction == q;
        assert m[k].satisfaction == q;
      }
    }
  }

  lemma ForwardSound(s: Source, l: Lease)
    requires SourceInvariant(s) && l in s.leases && s.leases[l].phase == Reserved
    ensures var p := s.leases[l].satisfaction;
            Sound(s, s.(used := s.used + {p}, leases := s.leases[l := s.leases[l].(phase := Forwarding)]))
  {
    hide ScopesRecorded, ProofsRecorded, OneProofPerIdentity, LeasesRecorded, OneLeasePerProof, UsedByForwarding,
      UsedHaveLeases, ScopesKept, IssuedKept, LeasesLead;
    var e := s.leases[l].(phase := Forwarding);
    TablesKept(s);
    ReRecordLease(s, l, e);
    ReplaceLease(s.leases, s.used, l, e);
    NowForwarding(s.leases, s.used, l);
  }

  lemma BeginCommitSound(s: Source, l: Lease, clock: Clock)
    requires SourceInvariant(s) && l in s.leases
    ensures var p := s.leases[l].satisfaction;
            p in s.issued &&
            var (t, live, ok) := BeginCommit(s, l, s.issued[p], clock);
            Sound(s, t) && (live == Dead ==> Spent(t, p)) && (live == Alive ==> !Spent(s, p)) &&
            (ok ==> p !in s.used && p in t.used && l in t.leases && t.leases[l].phase == Forwarding)
  {
    hide SourceInvariant, Evolves, Spent, Evaluate;
    SameSound(s);
    LeaseIssued(s, l);
    var p := s.leases[l].satisfaction;
    EvaluateSound(s, p, clock);
    var (t, _) := Evaluate(s, p, s.issued[p], clock);
    var (r, _, ok) := BeginCommit(s, l, s.issued[p], clock);
    if ok {
      ForwardSound(t, l);
      SoundThen(s, t, r);
    }
  }

  lemma LeaseIssued(s: Source, l: Lease)
    requires SourceInvariant(s) && l in s.leases
    ensures s.leases[l].satisfaction in s.issued && l.source == s.id
  {
  }

  lemma FinishSound(s: Source, operator: Handle, l: Lease)
    requires SourceInvariant(s)
    ensures Sound(s, Finish(s, operator, l).0)
  {
    hide SourceInvariant, Evolves, UsedByForwarding;
    SameSound(s);
    if l in s.leases {
      var e := s.leases[l].(phase := FinishedPhase(s.leases[l].phase));
      UsesOf(s);
      SamePhaseUses(s.leases, s.used, l, e);
      ReplaceSound(s, l, e);
    }
  }

  lemma FencedLeasesSound(leases: map<Lease, Execution>, used: set<Proof>)
    requires OneLeasePerProof(leases) && UsedHaveLeases(leases, used)
    ensures var f := FencedLeases(leases);
            OneLeasePerProof(f) && UsedHaveLeases(f, used) && UsedByForwarding(f, used) && LeasesLead(leases, f)
    ensures |FencedLeases(leases)| == |leases|
  {
    var f := FencedLeases(leases);
    assert f.Keys == leases.Keys;
    forall p | p in used ensures HasLease(f, p) {
      assert HasLease(leases, p);
      var k :| k in leases && leases[k].satisfaction == p;
      assert f[k].satisfaction == p;
    }
  }

  lemma FencedRecorded(s: Source)
    requires LeasesRecorded(s.leases, s.issued, s.id, s.nextUid)
    ensures LeasesRecorded(FencedLeases(s.leases), s.issued, s.id, s.nextUid)
  {
  }

  /** No earlier generation's proof can pass again. */
  lemma OldGenerationSpent(s: Source, t: Source)
    requires ProofsRecorded(s.issued, s.scopes, s.id, s.generation, s.nextUid) && t.issued == s.issued &&
             s.generation < t.generation
    ensures forall p :: p in s.issued ==> Spent(t, p)
  {
    hide HasForwardingLease;
  }

  /** A fence turns every proof issued so far into a spent one, and stops every forwarding lease. */
  lemma FenceSound(s: Source, operator: Handle)
    requires SourceInvariant(s)
    ensures var (t, ok) := Fence(s, operator);
            Sound(s, t) && (ok ==> t.generation == s.generation + 1) &&
            (ok ==> forall p :: p in s.issued ==> Spent(t, p)) &&
            (ok ==> forall l :: l in t.leases ==> t.leases[l].phase != Forwarding && t.leases[l].phase != Reserved)
  {
    hide ScopesRecorded, ProofsRecorded, OneProofPerIdentity, LeasesRecorded, OneLeasePerProof, UsedByForwarding,
      UsedHaveLeases, ScopesKept, IssuedKept, LeasesLead, Spent;
    TablesKept(s);
    var (t, ok) := Fence(s, operator);
    if ok {
      FencedLeasesSound(s.leases, s.used);
      FencedRecorded(s);
      StillRecorded(s, s.scopes, t.generation, s.nextUid);
      OldGenerationSpent(s, t);
    }
  }
}

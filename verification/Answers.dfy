/**
  What each request is answered and what it changes, both ways: exactly when it is granted,
  exactly what each refusal means, and every field of what is then stored.
 */
module Answers {
  import opened Wrappers
  import opened Ipam
  import opened Tenancy
  import opened Rules
  import opened Registry
  import opened PeerStore
  import opened Gateway
  import opened Control
  import opened Leases

  /** The caller may hold some lease of the key. */
  ghost predicate MayLease(cfg: Config, s: State, e: Event)
    requires e.Enroll? || e.Heartbeat?
  {
    exists lease :: Bounded(cfg, s, e, lease)
  }

  lemma MayLeaseIff(cfg: Config, s: State, e: Event)
    requires e.Enroll? || e.Heartbeat?
    ensures MayLease(cfg, s, e) <==> Registered(cfg, s.list, e.key, e.claims.subject, e.at).Some?
  {
    var lease := Registered(cfg, s.list, e.key, e.claims.subject, e.at);
    if lease.Some? {
      assert Bounded(cfg, s, e, lease.value);
    }
  }

  // ---- enrollment ----

  /** The caller names one of their tenants, or has only one. */
  ghost predicate KnowsWhere(s: State, e: Event)
    requires e.Enroll?
  {
    var mine := Memberships(s.tenants, e.claims.member);
    if e.asked == "" then |mine| == 1 else e.asked in mine
  }

  ghost predicate Taken(s: State, e: Event)
    requires e.Enroll?
  {
    e.key in s.peers && s.peers[e.key].subject != e.claims.subject
  }

  ghost predicate NoneLeft(cfg: Config, s: State, e: Event)
    requires e.Enroll?
  {
    e.key !in s.peers && AllUsed(cfg.range, s.used)
  }

  lemma KnowsWhereIff(s: State, e: Event)
    requires e.Enroll?
    ensures KnowsWhere(s, e) <==> Choose(s.tenants, e.asked, e.claims.member).Chosen?
    ensures Choose(s.tenants, e.asked, e.claims.member).TenantRequired? <==> !KnowsWhere(s, e) && e.asked == ""
  {
    ChoiceIff(s.tenants, e.asked, e.claims.member);
    MembershipsIff(s.tenants, e.claims.member, DEFAULT_ID);
  }

  /** An enrollment is refused for the first thing that is wrong with it, and granted when nothing is. */
  lemma EnrollAnswer(cfg: Config, s: State, e: Event)
    requires e.Enroll?
    ensures var reply := Step(cfg, s, e).1;
            if cfg.parse(e.key).None? then reply == BadPublicKey
            else if !MayLease(cfg, s, e) then reply == KeyNotRegistered
            else if !KnowsWhere(s, e) then reply == (if e.asked == "" then ChooseOne else NotMember)
            else if Taken(s, e) then reply == KeyTaken
            else if NoneLeft(cfg, s, e) then reply == PoolExhausted
            else if e.fails then reply == GatewayError
            else reply.Enrolled?
  {
    MayLeaseIff(cfg, s, e);
    KnowsWhereIff(s, e);
  }

  /** Nothing but the used addresses differs. */
  ghost predicate SameButUsed(s: State, s': State) {
    s'.peers == s.peers && s'.device == s.device && s'.tenants == s.tenants && s'.list == s.list
  }

  /** A refused enrollment changes nothing; one the device fails touches at most the address its key holds. */
  lemma RefusalChangesNothing(cfg: Config, s: State, e: Event)
    requires e.Enroll? && !Step(cfg, s, e).1.Enrolled?
    ensures var (s', reply) := Step(cfg, s, e);
            && SameButUsed(s, s')
            && (reply != GatewayError || e.key !in s.peers ==> s' == s)
            && (reply == GatewayError && e.key in s.peers ==> s'.used == s.used - {s.peers[e.key].ip})
  {
    if EnrollOutcome(cfg, s, e).Undone? && e.key !in s.peers {
      assert IsLowestFree(cfg.range, s.used, EnrollOutcome(cfg, s, e).ip);
      assert s.used - {EnrollOutcome(cfg, s, e).ip} == s.used;
    }
  }

  /** What a granted enrollment stores, field by field. */
  ghost predicate Records(cfg: Config, s: State, e: Event, r: Record)
    requires e.Enroll?
  {
    && r.subject == e.claims.subject && r.email == e.claims.member.email
    && r.device == e.device && r.enrolledAt == e.at.put
    && (if e.key in s.peers then r.ip == s.peers[e.key].ip else IsLowestFree(cfg.range, s.used, r.ip))
    && Latest(cfg, s, e, r.lease)
    && (if e.asked == "" then Memberships(s.tenants, e.claims.member) == {r.tenant} else r.tenant == e.asked)
  }

  /**
    A granted enrollment: the caller's own record, in the tenant they asked for, at the
    address they had or the lowest free one, until the latest they may hold; the reply says
    so, the device gets that address alone, and nobody else is touched.
   */
  lemma EnrollEffect(cfg: Config, s: State, e: Event)
    requires e.Enroll? && Step(cfg, s, e).1.Enrolled?
    ensures var (s', reply) := Step(cfg, s, e);
            && e.key in s'.peers && Records(cfg, s, e, s'.peers[e.key])
            && reply == Enrolled(s'.peers[e.key].ip, s'.peers[e.key].lease)
            && s'.peers == s.peers[e.key := s'.peers[e.key]]
            && s'.used == s.used + (if e.key in s.peers then {} else {s'.peers[e.key].ip})
            && cfg.parse(e.key).Some? && cfg.parse(e.key).value in s'.device
            && Programs(s'.device[cfg.parse(e.key).value], s'.peers[e.key].ip)
            && (forall d | d != cfg.parse(e.key).value :: (d in s'.device <==> d in s.device) && (d in s.device ==> s'.device[d] == s.device[d]))
            && s'.tenants == s.tenants && s'.list == s.list
  {
    GrantIsLatest(cfg, s, e, e.key);
    ChoiceIff(s.tenants, e.asked, e.claims.member);
  }

  // ---- renewal ----

  ghost predicate Mine(s: State, key: string, claims: Claims) {
    key in s.peers && s.peers[key].subject == claims.subject
  }

  /**
    A renewal is granted exactly to whoever enrolled the key, while they belong to its tenant
    and may hold a lease of it. It then moves that key's lease to the latest they may hold,
    later or earlier than before, and changes nothing else at all.
   */
  lemma HeartbeatAnswer(cfg: Config, s: State, e: Event)
    requires e.Heartbeat?
    ensures var (s', reply) := Step(cfg, s, e);
            && (if !Mine(s, e.key, e.claims) then reply == NotEnrolled
                else if s.peers[e.key].tenant !in Memberships(s.tenants, e.claims.member) then reply == NotMember
                else if !MayLease(cfg, s, e) then reply == KeyNotRegistered
                else reply.Renewed?)
            && (if reply.Renewed?
                then Latest(cfg, s, e, reply.lease) && s' == s.(peers := s.peers[e.key := s.peers[e.key].(lease := reply.lease)])
                else s' == s)
  {
    MayLeaseIff(cfg, s, e);
  }

  /** Without a registry a device that renews in time has a full lease again from that moment on. */
  lemma RenewalExtends(cfg: Config, s: State, e: Event)
    requires e.Heartbeat? && !cfg.registry && Step(cfg, s, e).1.Renewed?
    ensures e.key in Step(cfg, s, e).0.peers && Step(cfg, s, e).0.peers[e.key].lease == e.at.lease + cfg.leaseTTL
  {
    GrantIsLatest(cfg, s, e, e.key);
    assert Bounded(cfg, s, e, e.at.lease + cfg.leaseTTL);
  }

  // ---- removal ----

  /** A stranger gets NotOwner and changes nothing; the owner's peer is gone from the store, and its address free. */
  lemma DeregisterAnswer(cfg: Config, s: State, key: string, claims: Claims, fails: bool)
    ensures var (s', reply) := Step(cfg, s, Deregister(key, claims, fails));
            && reply == (if key in s.peers && !Mine(s, key, claims) then NotOwner else NoContent)
            && (!Mine(s, key, claims) ==> s' == s)
            && (Mine(s, key, claims) ==>
                  && s'.peers == s.peers - {key} && s'.used == s.used - {s.peers[key].ip}
                  && s'.tenants == s.tenants && s'.list == s.list
                  && OffDevice(cfg, s, s', {key}, if fails then {key} else {}))
  {
    if Mine(s, key, claims) {
      DropOffDevice(cfg, s, {key}, if fails then {key} else {});
      assert (set k <- {key} :: s.peers[k].ip) == {s.peers[key].ip};
    }
  }

  /** A device peer goes exactly if some key dropped parses to it and its removal worked; the others stay as they are. */
  ghost predicate OffDevice(cfg: Config, s: State, s': State, gone: set<string>, failing: set<string>) {
    && (forall d :: d in s'.device <==> d in s.device && forall k <- gone | cfg.parse(k) == Some(d) :: k in failing)
    && (forall d <- s'.device :: d in s.device && s'.device[d] == s.device[d])
  }

  lemma DropOffDevice(cfg: Config, s: State, gone: set<string>, failing: set<string>)
    requires gone <= s.peers.Keys
    ensures OffDevice(cfg, s, Drop(cfg, s, gone, failing), gone, failing)
  {
    var s' := Drop(cfg, s, gone, failing);
    forall d ensures d in s'.device <==> d in s.device && forall k <- gone | cfg.parse(k) == Some(d) :: k in failing {
      if k :| k in gone && cfg.parse(k) == Some(d) && k !in failing {
        assert cfg.parse(k).value == d;
      }
    }
  }

  /** What a sweep over the store leaves: those it keeps as they were, the others' addresses free, the device as removals went. */
  ghost predicate Cleared(cfg: Config, s: State, s': State, keep: string -> bool, failing: set<string>) {
    && (forall k :: k in s'.peers <==> k in s.peers && keep(k))
    && (forall k <- s'.peers :: k in s.peers && s'.peers[k] == s.peers[k])
    && (forall ip :: ip in s'.used <==> ip in s.used && forall k <- s.peers | !keep(k) :: s.peers[k].ip != ip)
    && OffDevice(cfg, s, s', (set k <- s.peers | !keep(k)), failing)
    && s'.tenants == s.tenants && s'.list == s.list
  }

  lemma DropClears(cfg: Config, s: State, keep: string -> bool, failing: set<string>)
    ensures Cleared(cfg, s, Drop(cfg, s, (set k <- s.peers | !keep(k)), failing), keep, failing)
  {
    DropOffDevice(cfg, s, (set k <- s.peers | !keep(k)), failing);
  }

  /** The reaper clears exactly the leases that are over. */
  lemma ReapClears(cfg: Config, s: State, now: Time, failing: set<string>)
    ensures Cleared(cfg, s, Step(cfg, s, Reap(now, failing)).0, k => k in s.peers && now < s.peers[k].lease, failing)
  {
    var alive := k => k in s.peers && now < s.peers[k].lease;
    assert Lapsed(s, now) == set k <- s.peers | !alive(k);
    DropClears(cfg, s, alive, failing);
  }

  /** Reconciliation clears exactly the keys not allowed to their subjects. */
  lemma ReconcileClears(cfg: Config, s: State, allowed: (string, string) -> bool, failing: set<string>)
    ensures Cleared(cfg, s, Step(cfg, s, Reconcile(allowed, failing)).0, k => k in s.peers && allowed(k, s.peers[k].subject), failing)
  {
    var kept := k => k in s.peers && allowed(k, s.peers[k].subject);
    assert Disallowed(s, allowed) == set k <- s.peers | !kept(k);
    DropClears(cfg, s, kept, failing);
  }
}

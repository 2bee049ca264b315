/**
  Leases: where every stored lease comes from and what bounds it, what the reaper and
  reconciliation remove, and what is left once the provider falls silent.
 */
module Leases {
  import opened Wrappers
  import opened Registry
  import opened Control
  import opened Joint
  import opened Ownership
  import opened Witnesses

  /** The event enrolls k or renews its lease. */
  ghost predicate Grants(cfg: Config, s: State, e: Event, k: string) {
    || (e.Enroll? && e.key == k && EnrollStep(cfg, s, e).1.Enrolled?)
    || (e.Heartbeat? && e.key == k && HeartbeatStep(cfg, s, e).1.Renewed?)
  }

  /** A granted lease is at most the TTL away, and within the key's registration where keys are registered. */
  ghost predicate Bounded(cfg: Config, s: State, e: Event, lease: Time)
    requires e.Enroll? || e.Heartbeat?
  {
    && lease <= e.at.lease + cfg.leaseTTL
    && (cfg.registry ==>
          && s.list.Some? && e.at.list < s.list.value.expires
          && e.key in s.list.value.byKey
          && s.list.value.byKey[e.key].subject == e.claims.subject
          && e.at.reg < s.list.value.byKey[e.key].expires
          && lease <= s.list.value.byKey[e.key].expires)
  }

  lemma GrantSetsLease(cfg: Config, s: State, e: Event, k: string)
    requires Grants(cfg, s, e, k)
    ensures var s' := Step(cfg, s, e).0;
            k in s'.peers && Bounded(cfg, s, e, s'.peers[k].lease) && s'.peers[k].subject == e.claims.subject
  {
  }

  /** It is the latest lease within the bounds. */
  ghost predicate Latest(cfg: Config, s: State, e: Event, lease: Time)
    requires e.Enroll? || e.Heartbeat?
  {
    Bounded(cfg, s, e, lease) && forall t | Bounded(cfg, s, e, t) :: t <= lease
  }

  /** What is granted is the latest lease the bounds allow, and the reply tells the lease that is stored. */
  lemma GrantIsLatest(cfg: Config, s: State, e: Event, k: string)
    requires Grants(cfg, s, e, k)
    ensures var (s', reply) := Step(cfg, s, e);
            && k in s'.peers && Latest(cfg, s, e, s'.peers[k].lease)
            && reply == if e.Enroll? then Enrolled(s'.peers[k].ip, s'.peers[k].lease) else Renewed(s'.peers[k].lease)
  {
  }

  lemma OthersKeepLease(cfg: Config, s: State, e: Event, k: string)
    requires !Grants(cfg, s, e, k) && k in Step(cfg, s, e).0.peers
    ensures k in s.peers && Step(cfg, s, e).0.peers[k] == s.peers[k]
  {
    if e.Enroll? {
      EnrollEnds(cfg, s, e);
    }
  }

  /** Of the first n events, event i is the last one to grant k a lease. */
  ghost predicate LastGrant(cfg: Config, s: State, evs: seq<Event>, n: nat, i: nat, k: string)
    requires n <= |evs|
  {
    i < n && GrantsAt(cfg, s, evs, i, k) && forall j | i < j < n :: !GrantsAt(cfg, s, evs, j, k)
  }

  ghost predicate GrantsAt(cfg: Config, s: State, evs: seq<Event>, i: nat, k: string)
    requires i < |evs|
  {
    Grants(cfg, At(cfg, s, evs, i), evs[i], k)
  }

  lemma LeaseStep(cfg: Config, s: State, evs: seq<Event>, m: nat, k: string)
    requires m < |evs| && k in At(cfg, s, evs, m + 1).peers
    ensures GrantsAt(cfg, s, evs, m, k) ==> Latest(cfg, At(cfg, s, evs, m), evs[m], At(cfg, s, evs, m + 1).peers[k].lease)
    ensures !GrantsAt(cfg, s, evs, m, k) ==>
              && k in At(cfg, s, evs, m).peers
              && At(cfg, s, evs, m + 1).peers[k].lease == At(cfg, s, evs, m).peers[k].lease
  {
    RunStep(cfg, s, evs, m);
    if GrantsAt(cfg, s, evs, m, k) {
      GrantIsLatest(cfg, At(cfg, s, evs, m), evs[m], k);
    } else {
      OthersKeepLease(cfg, At(cfg, s, evs, m), evs[m], k);
    }
  }

  lemma LastGrantStays(cfg: Config, s: State, evs: seq<Event>, n: nat, i: nat, k: string)
    requires n < |evs| && LastGrant(cfg, s, evs, n, i, k) && !GrantsAt(cfg, s, evs, n, k)
    ensures LastGrant(cfg, s, evs, n + 1, i, k)
  {
    forall j | i < j < n + 1 ensures !GrantsAt(cfg, s, evs, j, k) {
      if j < n {
      } else {
        assert j == n;
      }
    }
  }

  /** Every stored lease was set by the last enrollment or renewal of its key: the latest that event's bounds allowed. */
  lemma {:induction false} LeaseOrigin(cfg: Config, s: State, evs: seq<Event>, n: nat, k: string) returns (i: nat)
    requires Init(cfg, s) && n <= |evs| && k in At(cfg, s, evs, n).peers
    ensures LastGrant(cfg, s, evs, n, i, k)
    ensures Latest(cfg, At(cfg, s, evs, i), evs[i], At(cfg, s, evs, n).peers[k].lease)
  {
    assert n > 0;
    LeaseStep(cfg, s, evs, n - 1, k);
    if GrantsAt(cfg, s, evs, n - 1, k) {
      i := n - 1;
    } else {
      i := LeaseOrigin(cfg, s, evs, n - 1, k);
      LastGrantStays(cfg, s, evs, n - 1, i, k);
    }
  }

  /**
    Reconciling against a list drops exactly the peers it no longer allows, frees exactly
    their addresses, and keeps the joint invariant.
   */
  lemma ReconcileIsExact(cfg: Config, s: State, allowed: (string, string) -> bool, failing: set<string>)
    requires JointInv(cfg, s)
    ensures var s' := Step(cfg, s, Reconcile(allowed, failing)).0;
            && (forall k :: k in s'.peers <==> k in s.peers && allowed(k, s.peers[k].subject))
            && (forall k <- s'.peers :: s'.peers[k] == s.peers[k])
            && (forall ip :: ip in s.used - s'.used <==> exists k :: k in s.peers && k !in s'.peers && s.peers[k].ip == ip)
            && JointInv(cfg, s')
  {
    StepKeepsJointIff(cfg, s, Reconcile(allowed, failing));
  }

  /** The provider's answer at instant t, as reconciliation asks it. */
  function ListAllows(list: Option<Listing>, t: Time): (string, string) -> bool {
    (key: string, subject: string) => Allowed(list, key, subject, t, t)
  }

  /**
    With an unexpired list the survivors are the peers listed, unexpired, and registered to
    the same subject; with one already expired, or none, nobody survives.
   */
  lemma ReconcileAtInstant(cfg: Config, s: State, t: Time, failing: set<string>)
    ensures var s' := Step(cfg, s, Reconcile(ListAllows(s.list, t), failing)).0;
            && (s.list.Some? && t < s.list.value.expires ==>
                  forall k :: k in s'.peers <==>
                    && k in s.peers && k in s.list.value.byKey
                    && t < s.list.value.byKey[k].expires
                    && s.list.value.byKey[k].subject == s.peers[k].subject)
            && (s.list.None? || s.list.value.expires <= t ==> s'.peers == map[])
  {
    var s' := Step(cfg, s, Reconcile(ListAllows(s.list, t), failing)).0;
    assert forall k :: k in s'.peers <==> k in s.peers && Allowed(s.list, k, s.peers[k].subject, t, t);
  }

  /**
    It happens to a key in good standing: on a fresh server with a registry, a key enrolled
    by its owner, still listed to them, its registration not over and (the TTL permitting)
    its lease not either, is dropped by a reconciliation once the list itself has expired.
   */
  lemma ExpiredListTearsDown(cfg: Config, k: string, failing: set<string>)
    requires cfg.registry && Room(cfg) && cfg.parse(k).Some?
    ensures Init(cfg, Bare(cfg))
    ensures var s := Run(cfg, Bare(cfg), [Offer([k])] + [EnrollOf(k, false)]);
            && k in s.peers && Vouches(s.list, k, s.peers[k].subject)
            && 1 < s.list.value.byKey[k].expires && (1 < cfg.leaseTTL ==> 1 < s.peers[k].lease)
            && s.list.value.expires <= 1
            && Step(cfg, s, Reconcile(ListAllows(s.list, 1), failing)).0.peers == map[]
  {
    BareIsInit(cfg);
    FirstEnrolls(cfg, [k]);
    EntriesAreIndexed([k]);
    ReconcileAtInstant(cfg, Run(cfg, Bare(cfg), [Offer([k])] + [EnrollOf(k, false)]), 1, failing);
  }

  // ---- keys taken back ----

  /** Every enrolled key is listed in the list in force, under the subject it is enrolled to. */
  ghost predicate Vouched(s: State) {
    forall k <- s.peers :: Vouches(s.list, k, s.peers[k].subject)
  }

  predicate Vouches(list: Option<Listing>, key: string, subject: string) {
    list.Some? && key in list.value.byKey && list.value.byKey[key].subject == subject
  }

  /** The event reconciles against the list in force, reading the clock anew for each peer as it likes. */
  ghost predicate Reconciles(s: State, e: Event) {
    && e.Reconcile?
    && forall k, subject | e.allowed(k, subject) :: exists t, t' :: Allowed(s.list, k, subject, t, t')
  }

  lemma ReconcileVouches(cfg: Config, s: State, e: Event)
    requires Reconciles(s, e)
    ensures Vouched(Step(cfg, s, e).0)
  {
    forall k <- Step(cfg, s, e).0.peers ensures Vouches(s.list, k, s.peers[k].subject) {
      assert e.allowed(k, s.peers[k].subject);
    }
  }

  lemma StepKeepsVouched(cfg: Config, s: State, e: Event)
    requires cfg.registry && Vouched(s) && (e.Refresh? ==> e.fetched.None?)
    ensures Vouched(Step(cfg, s, e).0)
  {
    var s' := Step(cfg, s, e).0;
    ListOnlyByRefresh(cfg, s, e);
    forall k <- s'.peers ensures Vouches(s'.list, k, s'.peers[k].subject) {
      if k in s.peers {
        KeyKeptIff(cfg, s, e, k);
        assert Vouches(s.list, k, s.peers[k].subject);
      } else {
        KeyEntersIff(cfg, s, e, k);
        GrantSetsLease(cfg, s, e, k);
      }
    }
  }

  /** Event i reconciles against the list in force, and no other list arrives before point n. */
  ghost predicate ReconciledSince(cfg: Config, s: State, evs: seq<Event>, i: nat, n: nat) {
    && i < n <= |evs|
    && Reconciles(At(cfg, s, evs, i), evs[i])
    && forall j | i < j < n :: evs[j].Refresh? ==> evs[j].fetched.None?
  }

  lemma {:induction false} VouchedSince(cfg: Config, s: State, evs: seq<Event>, i: nat, n: nat)
    requires cfg.registry && ReconciledSince(cfg, s, evs, i, n)
    ensures Vouched(At(cfg, s, evs, n)) && At(cfg, s, evs, n).list == At(cfg, s, evs, i).list
  {
    RunStep(cfg, s, evs, n - 1);
    if i < n - 1 {
      VouchedSince(cfg, s, evs, i, n - 1);
      StepKeepsVouched(cfg, At(cfg, s, evs, n - 1), evs[n - 1]);
      ListOnlyByRefresh(cfg, At(cfg, s, evs, n - 1), evs[n - 1]);
    } else {
      ReconcileVouches(cfg, At(cfg, s, evs, i), evs[i]);
      ListOnlyByRefresh(cfg, At(cfg, s, evs, i), evs[i]);
    }
  }

  /**
    A key taken back, or handed to somebody else: whoever had it enrolled is gone once that
    list is reconciled, and stays gone through every event until another list arrives.
   */
  lemma TakenBackStaysGone(cfg: Config, s: State, evs: seq<Event>, i: nat, n: nat, k: string, subject: string)
    requires cfg.registry && ReconciledSince(cfg, s, evs, i, n)
    requires !Vouches(At(cfg, s, evs, i).list, k, subject)
    ensures k in At(cfg, s, evs, n).peers ==> At(cfg, s, evs, n).peers[k].subject != subject
  {
    VouchedSince(cfg, s, evs, i, n);
    if k in At(cfg, s, evs, n).peers {
      assert Vouches(At(cfg, s, evs, n).list, k, At(cfg, s, evs, n).peers[k].subject);
    }
  }

  // ---- a silent provider ----

  /** The events that read the clock, and when their reading starts and ends. */
  predicate Timed(e: Event) {
    e.Enroll? || e.Heartbeat? || e.Reap? || e.Refresh?
  }

  function Begin(e: Event): Time
    requires Timed(e)
  {
    if e.Enroll? || e.Heartbeat? then e.at.lease else e.now
  }

  function End(e: Event): Time
    requires Timed(e)
  {
    if e.Enroll? || e.Heartbeat? then e.at.put else e.now
  }

  /** The clock never runs backwards, within an event or from one to the next. */
  ghost predicate ClockIsMonotone(evs: seq<Event>) {
    && (forall i | 0 <= i < |evs| && (evs[i].Enroll? || evs[i].Heartbeat?) :: Ticks(evs[i].at))
    && (forall i, j | 0 <= i < j < |evs| && Timed(evs[i]) && Timed(evs[j]) :: End(evs[i]) <= Begin(evs[j]))
  }

  /** Event i brought the list expiring at `expires`, still valid on arrival, and none came after it. */
  ghost predicate LastList(evs: seq<Event>, i: nat, expires: Time) {
    && i < |evs|
    && evs[i].Refresh? && evs[i].fetched.Some? && evs[i].fetched.value.expires == expires && evs[i].now < expires
    && forall j | i < j < |evs| :: evs[j].Refresh? ==> evs[j].fetched.None?
  }

  lemma ListOnlyByRefresh(cfg: Config, s: State, e: Event)
    requires e.Refresh? ==> e.fetched.None?
    ensures Step(cfg, s, e).0.list == s.list
  {
    if e.Enroll? {
      EnrollEnds(cfg, s, e);
    }
  }

  lemma {:induction false} ListStays(cfg: Config, s: State, evs: seq<Event>, i: nat, n: nat, expires: Time)
    requires LastList(evs, i, expires) && i < n <= |evs|
    ensures At(cfg, s, evs, n).list.Some? && At(cfg, s, evs, n).list.value.expires == expires
  {
    RunStep(cfg, s, evs, n - 1);
    if i < n - 1 {
      ListStays(cfg, s, evs, i, n - 1, expires);
      ListOnlyByRefresh(cfg, At(cfg, s, evs, n - 1), evs[n - 1]);
    }
  }

  /** With a registry, a grant reads the clock before the list in force expires. */
  lemma GrantsBeforeExpiry(cfg: Config, s: State, evs: seq<Event>, i: nat, j: nat, k: string, expires: Time)
    requires cfg.registry && ClockIsMonotone(evs) && LastList(evs, i, expires) && j < |evs|
    requires Grants(cfg, At(cfg, s, evs, j), evs[j], k)
    ensures evs[j].at.lease <= evs[j].at.list < expires
  {
    if j < i {
      assert End(evs[j]) <= Begin(evs[i]);
    } else {
      ListStays(cfg, s, evs, i, j, expires);
      GrantSetsLease(cfg, At(cfg, s, evs, j), evs[j], k);
    }
  }

  /**
    Once a provider has fallen silent: every lease in any later state ends before the last
    list's expiry plus the TTL.
   */
  lemma SilenceBoundsLeases(cfg: Config, s: State, evs: seq<Event>, i: nat, n: nat, expires: Time, k: string)
    requires Init(cfg, s) && cfg.registry && ClockIsMonotone(evs) && LastList(evs, i, expires)
    requires n <= |evs| && k in At(cfg, s, evs, n).peers
    ensures At(cfg, s, evs, n).peers[k].lease < expires + cfg.leaseTTL
  {
    var j := LeaseOrigin(cfg, s, evs, n, k);
    GrantsBeforeExpiry(cfg, s, evs, i, j, k, expires);
  }

  /** Nothing is enrolled or renewed by a request that reads the list once it has expired. */
  lemma SilenceAdmitsNobody(cfg: Config, s: State, evs: seq<Event>, i: nat, j: nat, expires: Time)
    requires cfg.registry && ClockIsMonotone(evs) && LastList(evs, i, expires) && j < |evs|
    requires (evs[j].Enroll? || evs[j].Heartbeat?) && expires <= evs[j].at.list
    ensures !Grants(cfg, At(cfg, s, evs, j), evs[j], evs[j].key)
    ensures At(cfg, s, evs, j + 1) == At(cfg, s, evs, j)
  {
    if Grants(cfg, At(cfg, s, evs, j), evs[j], evs[j].key) {
      GrantsBeforeExpiry(cfg, s, evs, i, j, evs[j].key, expires);
    }
    RunStep(cfg, s, evs, j);
    assert i < j;
    ListStays(cfg, s, evs, i, j, expires);
  }

  /** A reap once the TTL has passed too leaves nobody enrolled. */
  lemma SilenceEmptiesTheStore(cfg: Config, s: State, evs: seq<Event>, i: nat, j: nat, expires: Time)
    requires Init(cfg, s) && cfg.registry && ClockIsMonotone(evs) && LastList(evs, i, expires)
    requires j < |evs| && evs[j].Reap? && expires + cfg.leaseTTL <= evs[j].now
    ensures At(cfg, s, evs, j + 1).peers == map[]
  {
    RunStep(cfg, s, evs, j);
    var before := At(cfg, s, evs, j);
    forall k <- before.peers ensures before.peers[k].lease <= evs[j].now {
      SilenceBoundsLeases(cfg, s, evs, i, j, expires, k);
    }
    assert Lapsed(before, evs[j].now) == before.peers.Keys;
  }
}

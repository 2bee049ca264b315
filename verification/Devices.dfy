/**
  Agreement between the store and the WireGuard device, under any failures, and what a
  restart's sweep leaves behind.
 */
module Devices {
  import opened Wrappers
  import opened Ipv4
  import opened Ipam
  import opened Tenancy
  import opened Registry
  import opened PeerStore
  import opened Gateway
  import opened Control
  import opened Joint
  import opened Witnesses

  /** No two of these strings parse to one key. */
  ghost predicate InjectiveOn(cfg: Config, keys: iset<string>) {
    forall k <- keys, k' <- keys | cfg.parse(k).Some? && cfg.parse(k) == cfg.parse(k') :: k == k'
  }

  /** Every stored peer is on the device with exactly its stored address. */
  ghost predicate OnDevice(cfg: Config, s: State) {
    forall k <- s.peers ::
      && cfg.parse(k).Some?
      && cfg.parse(k).value in s.device
      && s.device[cfg.parse(k).value] == OneHost(s.peers[k].ip)
  }

  /** No two enrolled strings parse to one key. */
  ghost predicate NoAlias(cfg: Config, s: State) {
    forall k <- s.peers, k' <- s.peers | cfg.parse(k).Some? && cfg.parse(k) == cfg.parse(k') :: k == k'
  }

  lemma DropKeepsOnDevice(cfg: Config, s: State, gone: set<string>, failing: set<string>)
    requires NoAlias(cfg, s) && OnDevice(cfg, s) && gone <= s.peers.Keys
    ensures OnDevice(cfg, Drop(cfg, s, gone, failing))
  {
  }

  lemma AdmitKeepsOnDevice(cfg: Config, s: State, key: string, pub: DevKey, r: Record)
    requires OnDevice(cfg, s) && cfg.parse(key) == Some(pub) && NoAlias(cfg, Admit(s, key, pub, r))
    ensures OnDevice(cfg, Admit(s, key, pub, r))
  {
    assert key in Admit(s, key, pub, r).peers;
    assert forall k <- s.peers :: k in Admit(s, key, pub, r).peers;
  }

  lemma StepKeepsOnDevice(cfg: Config, s: State, e: Event)
    requires OnDevice(cfg, s) && NoAlias(cfg, s) && NoAlias(cfg, Step(cfg, s, e).0)
    ensures OnDevice(cfg, Step(cfg, s, e).0)
  {
    var s' := Step(cfg, s, e).0;
    if e.Enroll? {
      EnrollEnds(cfg, s, e);
      var o := EnrollOutcome(cfg, s, e);
      if o.Done? {
        AdmitKeepsOnDevice(cfg, s, e.key, o.pub, o.r);
      }
    } else {
      OtherEnds(cfg, s, e);
      if gone, failing :| gone <= s.peers.Keys && s' == Drop(cfg, s, gone, failing) {
        DropKeepsOnDevice(cfg, s, gone, failing);
      }
    }
  }

  /** While no two enrolled strings are one key, whatever fails, each stored peer is on the device at its address. */
  lemma {:induction false} AgreesWithoutAliases(cfg: Config, s: State, evs: seq<Event>)
    requires Init(cfg, s) && forall n: nat | n <= |evs| :: NoAlias(cfg, At(cfg, s, evs, n))
    ensures OnDevice(cfg, Run(cfg, s, evs))
  {
    if evs != [] {
      var n := |evs| - 1;
      forall i: nat | i <= n ensures NoAlias(cfg, At(cfg, s, evs[..n], i)) {
        assert evs[..n][..i] == evs[..i];
        assert NoAlias(cfg, At(cfg, s, evs, i));
      }
      AgreesWithoutAliases(cfg, s, evs[..n]);
      assert NoAlias(cfg, At(cfg, s, evs, n)) && NoAlias(cfg, At(cfg, s, evs, n + 1));
      RunStep(cfg, s, evs, n);
      StepKeepsOnDevice(cfg, Run(cfg, s, evs[..n]), evs[n]);
    }
  }

  // ---- runs on a set of strings ----

  /** Keys come from `keys`: where there is a registry, its lists name no other; where there is none, requests do not. */
  ghost predicate Draws(cfg: Config, e: Event, keys: iset<string>) {
    match e
    case Enroll(key, _, _, _, _, _) => cfg.registry || key in keys
    case Refresh(fetched, _) => cfg.registry && fetched.Some? ==> forall entry <- fetched.value.peers :: entry.key in keys
    case _ => true
  }

  /** A run of a fresh server that takes its keys from the set. */
  ghost predicate RunOn(cfg: Config, keys: iset<string>, s: State, evs: seq<Event>) {
    Init(cfg, s) && forall e <- evs :: Draws(cfg, e, keys)
  }

  /** Whatever is stored, or may come to be without another list, is one of `keys`. */
  ghost predicate Drawn(cfg: Config, s: State, keys: iset<string>) {
    && (forall k <- s.peers :: k in keys)
    && (cfg.registry && s.list.Some? ==> forall k <- s.list.value.byKey :: k in keys)
  }

  lemma ListingKeepsDrawn(cfg: Config, keys: iset<string>, s: State, fetched: Option<KeyList>, now: Time)
    requires Drawn(cfg, s, keys) && Draws(cfg, Refresh(fetched, now), keys)
    ensures Drawn(cfg, RefreshStep(s, fetched), keys)
  {
    if cfg.registry && fetched.Some? {
      forall k <- Index(fetched.value.peers) ensures k in keys {
        LastEntryDecides(fetched.value.peers, k);
        var i: nat :| Decides(fetched.value.peers, i, k);
        assert fetched.value.peers[i] in fetched.value.peers;
      }
    }
  }

  lemma StepKeepsDrawn(cfg: Config, keys: iset<string>, s: State, e: Event)
    requires Drawn(cfg, s, keys) && Draws(cfg, e, keys)
    ensures Drawn(cfg, Step(cfg, s, e).0, keys)
  {
    if e.Enroll? {
      if EnrollOutcome(cfg, s, e).Done? {
        assert Registered(cfg, s.list, e.key, e.claims.subject, e.at).Some?;
      }
    } else if e.Refresh? {
      ListingKeepsDrawn(cfg, keys, s, e.fetched, e.now);
    }
  }

  lemma {:induction false} RunKeepsDrawn(cfg: Config, keys: iset<string>, s: State, evs: seq<Event>)
    requires RunOn(cfg, keys, s, evs)
    ensures Drawn(cfg, Run(cfg, s, evs), keys)
  {
    if evs != [] {
      var n := |evs| - 1;
      RunKeepsDrawn(cfg, keys, s, evs[..n]);
      StepKeepsDrawn(cfg, keys, Run(cfg, s, evs[..n]), evs[n]);
    }
  }

  /**
    In every run whose keys come from a set with one string per key, even when additions and
    removals fail, each stored peer is on the device at its address. With a registry the set
    is only about the lists, whatever strings requests carry.
   */
  lemma RunKeepsOnDevice(cfg: Config, keys: iset<string>, s: State, evs: seq<Event>)
    requires RunOn(cfg, keys, s, evs) && InjectiveOn(cfg, keys)
    ensures OnDevice(cfg, Run(cfg, s, evs))
  {
    forall n: nat | n <= |evs| ensures NoAlias(cfg, At(cfg, s, evs, n)) {
      assert forall e <- evs[..n] :: e in evs;
      RunKeepsDrawn(cfg, keys, s, evs[..n]);
    }
    AgreesWithoutAliases(cfg, s, evs);
  }

  // ---- two strings for one key ----

  /**
    A second string for an enrolled key, whoever sends it, is enrolled as a key of its own if
    the registry (where there is one) gives it to them, a tenant is chosen, an address is
    left and the device works. The device's peer then moves to the new address, and the first
    string stays enrolled at the old one.
   */
  lemma AliasTakesOver(cfg: Config, s: State, e: Event, k: string)
    requires JointInv(cfg, s) && k in s.peers && cfg.parse(k).Some?
    requires e.Enroll? && e.key !in s.peers && cfg.parse(e.key) == cfg.parse(k)
    ensures var (s', reply) := Step(cfg, s, e);
            && (reply.Enrolled? <==>
                  && Registered(cfg, s.list, e.key, e.claims.subject, e.at).Some?
                  && Choose(s.tenants, e.asked, e.claims.member).Chosen?
                  && !AllUsed(cfg.range, s.used) && !e.fails)
            && (reply.Enrolled? ==>
                  && k in s'.peers && s'.peers[k] == s.peers[k]
                  && e.key in s'.peers && s'.peers[e.key].subject == e.claims.subject
                  && s'.peers[e.key].ip != s.peers[k].ip
                  && s'.device[cfg.parse(k).value] == OneHost(s'.peers[e.key].ip)
                  && !OnDevice(cfg, s'))
  {
    EnrollEnds(cfg, s, e);
  }

  ghost predicate RemovalsWork(e: Event) {
    match e
    case Deregister(_, _, fails) => !fails
    case Reap(_, failing) => failing == {}
    case Reconcile(_, failing) => failing == {}
    case _ => true
  }

  /** Two strings for one key, held by two subjects: the first owner's deregistration takes the second off the device. */
  ghost function AliasRun(k: string, k': string): seq<Event> {
    Crowding([k, k'], 2) + [Deregister(k, Caller(k), false)]
  }

  lemma AliasedKeysDisagree(cfg: Config, k: string, k': string)
    requires Room(cfg) && k != k' && cfg.parse(k).Some? && cfg.parse(k) == cfg.parse(k')
    ensures var s := Run(cfg, Bare(cfg), AliasRun(k, k'));
            k' in s.peers && s.peers[k'].subject == k' && cfg.parse(k').value !in s.device
  {
    AnyNumberOnOneAddress(cfg, [k, k']);
    FirstLeaves(cfg, Run(cfg, Bare(cfg), Crowding([k, k'], 2)), k, k');
    RunThen(cfg, Bare(cfg), Crowding([k, k'], 2), Deregister(k, Caller(k), false));
  }

  lemma FirstLeaves(cfg: Config, s: State, k: string, k': string)
    requires k != k' && cfg.parse(k).Some? && cfg.parse(k) == cfg.parse(k')
    requires k in s.peers && k' in s.peers && s.peers[k].subject == k
    ensures var s' := Step(cfg, s, Deregister(k, Caller(k), false)).0;
            k' in s'.peers && s'.peers[k'] == s.peers[k'] && cfg.parse(k').value !in s'.device
  {
  }

  lemma OfferDraws(cfg: Config, keys: iset<string>, ks: seq<string>)
    requires forall k <- ks :: k in keys
    ensures Draws(cfg, Offer(ks), keys)
  {
    EntriesAreIndexed(ks);
  }

  lemma {:induction false} CrowdingDraws(cfg: Config, keys: iset<string>, ks: seq<string>, n: nat)
    requires n <= |ks| && forall k <- ks :: k in keys
    ensures forall e <- Crowding(ks, n) :: Draws(cfg, e, keys) && RemovalsWork(e)
  {
    if n == 0 {
      OfferDraws(cfg, keys, ks);
    } else {
      CrowdingDraws(cfg, keys, ks, n - 1);
    }
  }

  /** A pool with no host beside the gateway's never enrolls anybody. */
  lemma NoRoomNoPeers(cfg: Config, s: State, evs: seq<Event>)
    requires Init(cfg, s) && !Room(cfg)
    ensures Run(cfg, s, evs).peers == map[]
  {
    RunKeepsSafe(cfg, s, evs);
  }

  /**
    Store and device agree in every run that takes its keys from a set if and only if no two
    strings of the set parse to one key, or the pool has no room for a device at all.
   */
  lemma AgreementIffInjective(cfg: Config, keys: iset<string>)
    ensures (forall s, evs | RunOn(cfg, keys, s, evs) :: OnDevice(cfg, Run(cfg, s, evs)))
            <==> InjectiveOn(cfg, keys) || !Room(cfg)
  {
    if InjectiveOn(cfg, keys) || !Room(cfg) {
      forall s, evs | RunOn(cfg, keys, s, evs) ensures OnDevice(cfg, Run(cfg, s, evs)) {
        if Room(cfg) {
          RunKeepsOnDevice(cfg, keys, s, evs);
        } else {
          NoRoomNoPeers(cfg, s, evs);
        }
      }
    } else {
      var s, evs, k := AliasesRun(cfg, keys);
    }
  }

  lemma FindAliases(cfg: Config, keys: iset<string>) returns (k: string, k': string)
    requires !InjectiveOn(cfg, keys)
    ensures k in keys && k' in keys && k != k' && cfg.parse(k).Some? && cfg.parse(k) == cfg.parse(k')
  {
    k, k' :| k in keys && k' in keys && cfg.parse(k).Some? && cfg.parse(k) == cfg.parse(k') && k != k';
  }

  lemma AliasesRun(cfg: Config, keys: iset<string>) returns (s: State, evs: seq<Event>, k: string)
    requires !InjectiveOn(cfg, keys) && Room(cfg)
    ensures RunOn(cfg, keys, s, evs) && forall e <- evs :: RemovalsWork(e)
    ensures var end := Run(cfg, s, evs);
            k in end.peers && cfg.parse(k).Some? && cfg.parse(k).value !in end.device
  {
    var k0, k1 := FindAliases(cfg, keys);
    BareIsInit(cfg);
    AliasedKeysDisagree(cfg, k0, k1);
    CrowdingDraws(cfg, keys, [k0, k1], 2);
    s, evs, k := Bare(cfg), AliasRun(k0, k1), k1;
  }

  // ---- the same without failed re-enrollments ----

  /** With one host beside the gateway's nobody is ever enrolled beside somebody else. */
  lemma AloneIsNoAlias(cfg: Config, s: State)
    requires JointInv(cfg, s) && !RoomForTwo(cfg)
    ensures NoAlias(cfg, s)
  {
    forall k <- s.peers, k' <- s.peers ensures k == k' {
      assert s.peers[k].ip == s.peers[k'].ip;
    }
  }

  /** A run on the set without a failed re-enrollment. */
  ghost predicate FaultlessRunOn(cfg: Config, keys: iset<string>, s: State, evs: seq<Event>) {
    RunOn(cfg, keys, s, evs) && NoFailedReenroll(cfg, s, evs)
  }

  lemma FaultlessAgrees(cfg: Config, keys: iset<string>, s: State, evs: seq<Event>)
    requires FaultlessRunOn(cfg, keys, s, evs) && (InjectiveOn(cfg, keys) || !RoomForTwo(cfg))
    ensures OnDevice(cfg, Run(cfg, s, evs))
  {
    if InjectiveOn(cfg, keys) {
      RunKeepsOnDevice(cfg, keys, s, evs);
    } else {
      JointThroughoutIff(cfg, s, evs);
      forall n: nat | n <= |evs| ensures NoAlias(cfg, At(cfg, s, evs, n)) {
        AloneIsNoAlias(cfg, At(cfg, s, evs, n));
      }
      AgreesWithoutAliases(cfg, s, evs);
    }
  }

  /** Enrolling both strings, with no failure of anything, is enough once there is room for two. */
  lemma PlainAliasesDisagree(cfg: Config, k: string, k': string)
    requires RoomForTwo(cfg) && k != k' && cfg.parse(k).Some? && cfg.parse(k) == cfg.parse(k')
    ensures NoFailedReenroll(cfg, Bare(cfg), PlainRun(k, k'))
    ensures !OnDevice(cfg, Run(cfg, Bare(cfg), PlainRun(k, k')))
  {
    var before := [Offer([k, k'])] + [EnrollOf(k, false)];
    BareIsInit(cfg);
    PlainRunIsFaultless(cfg, k, k');
    SecondIsFree(cfg);
    FirstEnrolls(cfg, [k, k']);
    RunKeepsJoint(cfg, Bare(cfg), before);
    SecondStringTakesOver(cfg, Run(cfg, Bare(cfg), before), k, k');
    RunThen(cfg, Bare(cfg), before, EnrollOf(k', false));
  }

  lemma SecondStringTakesOver(cfg: Config, s: State, k: string, k': string)
    requires k != k' && cfg.parse(k).Some? && cfg.parse(k) == cfg.parse(k')
    requires JointInv(cfg, s) && Open(cfg, s, [k, k']) && s.peers.Keys == {k} && !AllUsed(cfg.range, s.used)
    ensures !OnDevice(cfg, Step(cfg, s, EnrollOf(k', false)).0)
  {
    NewIsAdded(cfg, s, [k, k'], k');
    AliasTakesOver(cfg, s, EnrollOf(k', false), k);
  }

  /** Without failed re-enrollments the exact condition is the same, but for pools with room for one device only. */
  lemma FaultlessAgreementIff(cfg: Config, keys: iset<string>)
    ensures (forall s, evs | FaultlessRunOn(cfg, keys, s, evs) :: OnDevice(cfg, Run(cfg, s, evs)))
            <==> InjectiveOn(cfg, keys) || !RoomForTwo(cfg)
  {
    if InjectiveOn(cfg, keys) || !RoomForTwo(cfg) {
      forall s, evs | FaultlessRunOn(cfg, keys, s, evs) ensures OnDevice(cfg, Run(cfg, s, evs)) {
        FaultlessAgrees(cfg, keys, s, evs);
      }
    } else {
      var k, k' := FindAliases(cfg, keys);
      PlainAliasesDisagree(cfg, k, k');
      OfferDraws(cfg, keys, [k, k']);
      assert FaultlessRunOn(cfg, keys, Bare(cfg), PlainRun(k, k'));
    }
  }

  // ---- which device peers are this server's ----

  /** The device keys a run programmed: those of its successful enrollments. */
  ghost function Programmed(cfg: Config, s: State, evs: seq<Event>): set<DevKey> {
    if evs == [] then {}
    else
      var n := |evs| - 1;
      var before := Run(cfg, s, evs[..n]);
      Programmed(cfg, s, evs[..n]) + ProgrammedBy(cfg, before, evs[n])
  }

  ghost function ProgrammedBy(cfg: Config, s: State, e: Event): set<DevKey> {
    if e.Enroll? && Step(cfg, s, e).1.Enrolled? && cfg.parse(e.key).Some? then {cfg.parse(e.key).value} else {}
  }

  /**
    The device after a run: foreign peers as they were, and under each programmed key one
    host of the pool or nothing.
   */
  ghost predicate Provenance(cfg: Config, foreign: DevicePeers, mine: set<DevKey>, s: State) {
    && (forall d | d !in mine :: (d in s.device <==> d in foreign) && (d in foreign ==> s.device[d] == foreign[d]))
    && (forall d <- mine | d in s.device :: exists ip :: Host(cfg.range, ip) && s.device[d] == OneHost(ip))
    && (forall k <- s.peers :: cfg.parse(k).Some? && cfg.parse(k).value in mine)
  }

  lemma AdmitKeepsProvenance(cfg: Config, foreign: DevicePeers, mine: set<DevKey>, s: State, key: string, pub: DevKey, r: Record)
    requires Provenance(cfg, foreign, mine, s) && cfg.parse(key) == Some(pub) && Host(cfg.range, r.ip)
    ensures Provenance(cfg, foreign, mine + {pub}, Admit(s, key, pub, r))
  {
  }

  lemma DropKeepsProvenance(cfg: Config, foreign: DevicePeers, mine: set<DevKey>, s: State, gone: set<string>, failing: set<string>)
    requires Provenance(cfg, foreign, mine, s) && gone <= s.peers.Keys
    ensures Provenance(cfg, foreign, mine, Drop(cfg, s, gone, failing))
  {
  }

  lemma EnrollKeepsProvenance(cfg: Config, foreign: DevicePeers, mine: set<DevKey>, s: State, e: Event)
    requires Provenance(cfg, foreign, mine, s) && Safe(cfg, s) && e.Enroll?
    ensures Provenance(cfg, foreign, mine + ProgrammedBy(cfg, s, e), EnrollStep(cfg, s, e).0)
  {
    EnrollEnds(cfg, s, e);
    match EnrollOutcome(cfg, s, e) {
      case Done(pub, r) =>
        assert ProgrammedBy(cfg, s, e) == {pub};
        AdmitKeepsProvenance(cfg, foreign, mine, s, e.key, pub, r);
      case _ =>
        assert ProgrammedBy(cfg, s, e) == {} && mine + {} == mine;
    }
  }

  lemma StepKeepsProvenance(cfg: Config, foreign: DevicePeers, mine: set<DevKey>, s: State, e: Event)
    requires Provenance(cfg, foreign, mine, s) && Safe(cfg, s)
    ensures Provenance(cfg, foreign, mine + ProgrammedBy(cfg, s, e), Step(cfg, s, e).0)
  {
    if e.Enroll? {
      EnrollKeepsProvenance(cfg, foreign, mine, s, e);
    } else {
      var s' := Step(cfg, s, e).0;
      assert mine + ProgrammedBy(cfg, s, e) == mine;
      OtherEnds(cfg, s, e);
      if gone, failing :| gone <= s.peers.Keys && s' == Drop(cfg, s, gone, failing) {
        DropKeepsProvenance(cfg, foreign, mine, s, gone, failing);
      }
    }
  }

  lemma {:induction false} RunKeepsProvenance(cfg: Config, s: State, evs: seq<Event>)
    requires Init(cfg, s)
    ensures Provenance(cfg, s.device, Programmed(cfg, s, evs), Run(cfg, s, evs))
  {
    if evs != [] {
      var n := |evs| - 1;
      RunKeepsProvenance(cfg, s, evs[..n]);
      RunKeepsSafe(cfg, s, evs[..n]);
      StepKeepsProvenance(cfg, s.device, Programmed(cfg, s, evs[..n]), Run(cfg, s, evs[..n]), evs[n]);
    }
  }

  /**
    Restart: if the device held no peer of the swept shape before a run, then wherever the
    run stops, what a successful sweep removes is every peer the run programmed and still
    there, and what it leaves is the foreign peers never enrolled over, unchanged.
   */
  lemma SweepUndoesARun(cfg: Config, pool: Pool, s: State, evs: seq<Event>)
    requires Init(cfg, s) && ForPool(cfg, pool)
    requires OursKeys(s.device, pool) == {}
    ensures var device, mine := Run(cfg, s, evs).device, Programmed(cfg, s, evs);
            && (forall d :: d in OursKeys(device, pool) <==> d in device && d in mine)
            && device - OursKeys(device, pool) == s.device - mine
  {
    RunKeepsProvenance(cfg, s, evs);
    SweptShape(cfg, pool, s.device, Programmed(cfg, s, evs), Run(cfg, s, evs));
  }

  lemma SweptShape(cfg: Config, pool: Pool, foreign: DevicePeers, mine: set<DevKey>, s: State)
    requires ForPool(cfg, pool) && OursKeys(foreign, pool) == {} && Provenance(cfg, foreign, mine, s)
    ensures forall d :: d in OursKeys(s.device, pool) <==> d in s.device && d in mine
    ensures s.device - OursKeys(s.device, pool) == foreign - mine
  {
    forall d <- s.device ensures Ours(s.device[d], pool) <==> d in mine {
      if d !in mine {
        assert d in foreign && d !in OursKeys(foreign, pool);
      }
    }
  }

  // ---- runs in which removals work ----

  /** Every programmed key still on the device is a stored peer's. */
  ghost predicate NoLeftovers(cfg: Config, mine: set<DevKey>, s: State) {
    forall d <- mine | d in s.device :: exists k :: k in s.peers && cfg.parse(k) == Some(d)
  }

  lemma DropLeavesNothing(cfg: Config, mine: set<DevKey>, s: State, gone: set<string>)
    requires NoLeftovers(cfg, mine, s) && gone <= s.peers.Keys
    ensures NoLeftovers(cfg, mine, Drop(cfg, s, gone, {}))
  {
    var s' := Drop(cfg, s, gone, {});
    forall d <- mine | d in s'.device ensures exists k :: k in s'.peers && cfg.parse(k) == Some(d) {
      var k :| k in s.peers && cfg.parse(k) == Some(d);
      assert k !in gone;
      assert k in s'.peers;
    }
  }

  lemma OtherEndsCleanly(cfg: Config, s: State, e: Event)
    requires !e.Enroll? && RemovalsWork(e)
    ensures var s' := Step(cfg, s, e).0;
            || (s'.peers.Keys == s.peers.Keys && s'.device == s.device)
            || exists gone :: gone <= s.peers.Keys && s' == Drop(cfg, s, gone, {})
  {
    match e {
      case Deregister(key, claims, fails) =>
        if key in s.peers && s.peers[key].subject == claims.subject {
          assert {key} <= s.peers.Keys;
        }
      case Reap(now, failing) => assert Lapsed(s, now) <= s.peers.Keys;
      case Reconcile(allowed, failing) => assert Disallowed(s, allowed) <= s.peers.Keys;
      case _ =>
    }
  }

  lemma StepLeavesNothing(cfg: Config, mine: set<DevKey>, s: State, e: Event)
    requires NoLeftovers(cfg, mine, s) && RemovalsWork(e)
    ensures NoLeftovers(cfg, mine + ProgrammedBy(cfg, s, e), Step(cfg, s, e).0)
  {
    var s' := Step(cfg, s, e).0;
    if e.Enroll? {
      AdmitLeavesNothing(cfg, mine, s, e);
    } else {
      assert mine + ProgrammedBy(cfg, s, e) == mine;
      OtherEndsCleanly(cfg, s, e);
      if gone :| gone <= s.peers.Keys && s' == Drop(cfg, s, gone, {}) {
        DropLeavesNothing(cfg, mine, s, gone);
      } else {
        SameKeysLeaveNothing(cfg, mine, s, s');
      }
    }
  }

  lemma SameKeysLeaveNothing(cfg: Config, mine: set<DevKey>, s: State, s': State)
    requires NoLeftovers(cfg, mine, s) && s.peers.Keys <= s'.peers.Keys && s'.device == s.device
    ensures NoLeftovers(cfg, mine, s')
  {
    forall d <- mine | d in s'.device ensures exists k :: k in s'.peers && cfg.parse(k) == Some(d) {
      var k :| k in s.peers && cfg.parse(k) == Some(d);
      assert k in s'.peers;
    }
  }

  lemma AdmitLeavesNothing(cfg: Config, mine: set<DevKey>, s: State, e: Event)
    requires NoLeftovers(cfg, mine, s) && e.Enroll?
    ensures NoLeftovers(cfg, mine + ProgrammedBy(cfg, s, e), EnrollStep(cfg, s, e).0)
  {
    EnrollEnds(cfg, s, e);
    var s' := EnrollStep(cfg, s, e).0;
    forall d <- mine + ProgrammedBy(cfg, s, e) | d in s'.device
      ensures exists k :: k in s'.peers && cfg.parse(k) == Some(d)
    {
      if cfg.parse(e.key) == Some(d) && e.key in s'.peers {
      } else {
        assert d in s.device;
        var k :| k in s.peers && cfg.parse(k) == Some(d);
        assert k in s'.peers;
      }
    }
  }

  lemma {:induction false} NothingLeftOver(cfg: Config, s: State, evs: seq<Event>)
    requires Init(cfg, s) && forall e <- evs :: RemovalsWork(e)
    ensures NoLeftovers(cfg, Programmed(cfg, s, evs), Run(cfg, s, evs))
  {
    if evs != [] {
      var n := |evs| - 1;
      NothingLeftOver(cfg, s, evs[..n]);
      StepLeavesNothing(cfg, Programmed(cfg, s, evs[..n]), Run(cfg, s, evs[..n]), evs[n]);
    }
  }

  /** The device peers the run programmed are exactly the stored ones. */
  ghost predicate Managed(cfg: Config, mine: set<DevKey>, s: State) {
    && (forall d <- mine :: d in s.device <==> exists k :: k in s.peers && cfg.parse(k) == Some(d))
    && (forall k <- s.peers :: cfg.parse(k).Some? && cfg.parse(k).value in mine)
  }

  /** A run on the set in which no removal fails. */
  ghost predicate CleanRunOn(cfg: Config, keys: iset<string>, s: State, evs: seq<Event>) {
    RunOn(cfg, keys, s, evs) && forall e <- evs :: RemovalsWork(e)
  }

  lemma ManagedPeersAreStored(cfg: Config, keys: iset<string>, s: State, evs: seq<Event>)
    requires CleanRunOn(cfg, keys, s, evs) && (InjectiveOn(cfg, keys) || !Room(cfg))
    ensures Managed(cfg, Programmed(cfg, s, evs), Run(cfg, s, evs))
  {
    NothingLeftOver(cfg, s, evs);
    AgreementIffInjective(cfg, keys);
    RunKeepsProvenance(cfg, s, evs);
  }

  lemma AliasesAreUnmanaged(cfg: Config, keys: iset<string>) returns (s: State, evs: seq<Event>)
    requires !InjectiveOn(cfg, keys) && Room(cfg)
    ensures CleanRunOn(cfg, keys, s, evs) && !Managed(cfg, Programmed(cfg, s, evs), Run(cfg, s, evs))
  {
    var k;
    s, evs, k := AliasesRun(cfg, keys);
    RunKeepsProvenance(cfg, s, evs);
  }

  /** If no removal ever fails, the programmed device peers are exactly the stored ones, under the same exact condition. */
  lemma ManagedIffInjective(cfg: Config, keys: iset<string>)
    ensures (forall s, evs | CleanRunOn(cfg, keys, s, evs) :: Managed(cfg, Programmed(cfg, s, evs), Run(cfg, s, evs)))
            <==> InjectiveOn(cfg, keys) || !Room(cfg)
  {
    if InjectiveOn(cfg, keys) || !Room(cfg) {
      forall s, evs | CleanRunOn(cfg, keys, s, evs) ensures Managed(cfg, Programmed(cfg, s, evs), Run(cfg, s, evs)) {
        ManagedPeersAreStored(cfg, keys, s, evs);
      }
    } else {
      var s, evs := AliasesAreUnmanaged(cfg, keys);
    }
  }
}

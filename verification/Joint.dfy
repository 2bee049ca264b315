/**
  The joint invariant of store and pool: addresses are unique hosts, never the gateway's,
  and the pool's used set is exactly the gateway's address and the enrolled ones. Which
  steps keep it, exactly, and what holds of every run whatever fails.
 */
module Joint {
  import opened Wrappers
  import opened Ipv4
  import opened Ipam
  import opened Gateway
  import opened PeerStore
  import opened Control

  function Ips(peers: map<string, Record>): set<Ip4> {
    set k <- peers :: peers[k].ip
  }

  /** Every peer has a host address of the pool that is not the gateway's. */
  ghost predicate Placed(cfg: Config, s: State) {
    forall k <- s.peers :: Host(cfg.range, s.peers[k].ip) && s.peers[k].ip != cfg.gateway
  }

  ghost predicate Unique(s: State) {
    forall k <- s.peers, k' <- s.peers | s.peers[k].ip == s.peers[k'].ip :: k == k'
  }

  /** Nothing but the gateway's address and the enrolled ones is used: no address leaks. */
  ghost predicate NoLeak(cfg: Config, s: State) {
    && cfg.gateway in s.used
    && forall ip <- s.used | ip != cfg.gateway :: ip in Ips(s.peers)
  }

  ghost predicate Held(s: State) {
    forall k <- s.peers :: s.peers[k].ip in s.used
  }

  ghost predicate Safe(cfg: Config, s: State) {
    Placed(cfg, s) && NoLeak(cfg, s)
  }

  ghost predicate JointInv(cfg: Config, s: State) {
    Safe(cfg, s) && Unique(s) && Held(s)
  }

  /** The pool's used set is then exactly the gateway's address and the enrolled ones. */
  lemma UsedExactly(cfg: Config, s: State)
    requires JointInv(cfg, s)
    ensures s.used == {cfg.gateway} + Ips(s.peers)
  {
  }

  /** A re-enrollment by the owner that passed every check, and whose `AddPeer` fails. */
  ghost predicate FailedReenroll(cfg: Config, s: State, e: Event) {
    e.Enroll? && e.fails && e.key in s.peers && Refusal(cfg, s, e).None?
  }

  lemma DropKeepsSafe(cfg: Config, s: State, gone: set<string>, failing: set<string>)
    requires Safe(cfg, s) && gone <= s.peers.Keys
    ensures Safe(cfg, Drop(cfg, s, gone, failing))
  {
    var s' := Drop(cfg, s, gone, failing);
    forall ip <- s'.used | ip != cfg.gateway ensures ip in Ips(s'.peers) {
      var k :| k in s.peers && s.peers[k].ip == ip;
      assert k in s'.peers;
    }
  }

  lemma DropKeepsJoint(cfg: Config, s: State, gone: set<string>, failing: set<string>)
    requires JointInv(cfg, s) && gone <= s.peers.Keys
    ensures JointInv(cfg, Drop(cfg, s, gone, failing))
  {
    DropKeepsSafe(cfg, s, gone, failing);
  }

  /** An address an enrollment of key may take: its own, or a free host. */
  ghost predicate Takes(cfg: Config, s: State, key: string, ip: Ip4) {
    if key in s.peers then ip == s.peers[key].ip else Host(cfg.range, ip) && ip !in s.used
  }

  /** What each way an enrollment ends says about the address and the device key it used. */
  lemma EnrollEnds(cfg: Config, s: State, e: Event)
    requires e.Enroll?
    ensures var o := EnrollOutcome(cfg, s, e);
            && (FailedReenroll(cfg, s, e) <==> o.Undone? && e.key in s.peers)
            && (o.Refused? ==> !o.why.Enrolled? && !o.why.Renewed?)
            && (o.Undone? ==> Takes(cfg, s, e.key, o.ip))
            && (o.Done? ==>
                  && Takes(cfg, s, e.key, o.r.ip) && cfg.parse(e.key) == Some(o.pub)
                  && o.r.subject == e.claims.subject
                  && (e.key in s.peers ==> o.r.subject == s.peers[e.key].subject))
  {
    if Refusal(cfg, s, e).None? && Address(cfg, s, e.key).Some? && e.key !in s.peers {
      assert IsLowestFree(cfg.range, s.used, Address(cfg, s, e.key).value);
    }
  }

  lemma AdmitKeepsSafe(cfg: Config, s: State, key: string, pub: DevKey, r: Record)
    requires Safe(cfg, s) && Takes(cfg, s, key, r.ip)
    ensures Safe(cfg, Admit(s, key, pub, r))
  {
    var s' := Admit(s, key, pub, r);
    forall u <- s'.used | u != cfg.gateway ensures u in Ips(s'.peers) {
      if u == r.ip {
        assert key in s'.peers && s'.peers[key].ip == u;
      } else {
        var k :| k in s.peers && s.peers[k].ip == u;
        assert k in s'.peers && s'.peers[k].ip == u;
      }
    }
  }

  lemma AdmitKeepsJoint(cfg: Config, s: State, key: string, pub: DevKey, r: Record)
    requires JointInv(cfg, s) && Takes(cfg, s, key, r.ip)
    ensures JointInv(cfg, Admit(s, key, pub, r))
  {
    AdmitKeepsSafe(cfg, s, key, pub, r);
  }

  lemma GiveBackKeeps(cfg: Config, s: State, key: string, ip: Ip4)
    requires Safe(cfg, s) && Takes(cfg, s, key, ip)
    ensures Safe(cfg, GiveBack(s, ip))
    ensures key !in s.peers ==> GiveBack(s, ip) == s
    ensures key in s.peers ==> !Held(GiveBack(s, ip))
  {
  }

  lemma EnrollKeepsSafe(cfg: Config, s: State, e: Event)
    requires Safe(cfg, s) && e.Enroll?
    ensures Safe(cfg, EnrollStep(cfg, s, e).0)
  {
    EnrollEnds(cfg, s, e);
    match EnrollOutcome(cfg, s, e) {
      case Refused(_) =>
      case Undone(ip) => GiveBackKeeps(cfg, s, e.key, ip);
      case Done(pub, r) => AdmitKeepsSafe(cfg, s, e.key, pub, r);
    }
  }

  /** The same keys enrolled, by the same subjects, at the same addresses; pool and device unchanged. */
  ghost predicate SameHoldings(s: State, s': State) {
    && s'.used == s.used && s'.device == s.device && s'.peers.Keys == s.peers.Keys
    && forall k <- s.peers :: s'.peers[k].ip == s.peers[k].ip && s'.peers[k].subject == s.peers[k].subject
  }

  /** Some peers are dropped, with some removals failing. */
  ghost predicate Drops(cfg: Config, s: State, s': State) {
    exists gone, failing :: gone <= s.peers.Keys && s' == Drop(cfg, s, gone, failing)
  }

  lemma DropDrops(cfg: Config, s: State, gone: set<string>, failing: set<string>)
    requires gone <= s.peers.Keys
    ensures Drops(cfg, s, Drop(cfg, s, gone, failing))
  {
  }

  lemma RemovalEnds(cfg: Config, s: State, e: Event)
    requires e.Deregister? || e.Reap? || e.Reconcile?
    ensures var s' := Step(cfg, s, e).0; s' == s || Drops(cfg, s, s')
  {
    match e {
      case Deregister(key, claims, fails) =>
        if key in s.peers && s.peers[key].subject == claims.subject {
          DropDrops(cfg, s, {key}, if fails then {key} else {});
        }
      case Reap(now, failing) => DropDrops(cfg, s, Lapsed(s, now), failing);
      case Reconcile(allowed, failing) => DropDrops(cfg, s, Disallowed(s, allowed), failing);
    }
  }

  lemma QuietEnds(cfg: Config, s: State, e: Event)
    requires !e.Enroll? && !e.Deregister? && !e.Reap? && !e.Reconcile?
    ensures SameHoldings(s, Step(cfg, s, e).0)
  {
  }

  /** A step other than an enrollment drops some peers or leaves all holdings alone. */
  lemma OtherEnds(cfg: Config, s: State, e: Event)
    requires !e.Enroll?
    ensures SameHoldings(s, Step(cfg, s, e).0) || Drops(cfg, s, Step(cfg, s, e).0)
  {
    if e.Deregister? || e.Reap? || e.Reconcile? {
      RemovalEnds(cfg, s, e);
    } else {
      QuietEnds(cfg, s, e);
    }
  }

  lemma SameHoldingsKeeps(cfg: Config, s: State, s': State)
    requires SameHoldings(s, s')
    ensures Safe(cfg, s) ==> Safe(cfg, s')
    ensures JointInv(cfg, s) ==> JointInv(cfg, s')
  {
    if Safe(cfg, s) {
      forall ip <- s'.used | ip != cfg.gateway ensures ip in Ips(s'.peers) {
        var k :| k in s.peers && s.peers[k].ip == ip;
        assert k in s'.peers && s'.peers[k].ip == ip;
      }
    }
  }

  /** Whatever fails: every step keeps addresses placed and leaks none. */
  lemma StepKeepsSafe(cfg: Config, s: State, e: Event)
    requires Safe(cfg, s)
    ensures Safe(cfg, Step(cfg, s, e).0)
  {
    var s' := Step(cfg, s, e).0;
    if e.Enroll? {
      EnrollKeepsSafe(cfg, s, e);
    } else {
      OtherEnds(cfg, s, e);
      if gone, failing :| gone <= s.peers.Keys && s' == Drop(cfg, s, gone, failing) {
        DropKeepsSafe(cfg, s, gone, failing);
      } else {
        SameHoldingsKeeps(cfg, s, s');
      }
    }
  }

  lemma EnrollKeepsJoint(cfg: Config, s: State, e: Event)
    requires JointInv(cfg, s) && e.Enroll?
    ensures JointInv(cfg, EnrollStep(cfg, s, e).0) <==> !FailedReenroll(cfg, s, e)
  {
    EnrollEnds(cfg, s, e);
    match EnrollOutcome(cfg, s, e) {
      case Refused(_) =>
      case Undone(ip) => GiveBackKeeps(cfg, s, e.key, ip);
      case Done(pub, r) => AdmitKeepsJoint(cfg, s, e.key, pub, r);
    }
  }

  /** One step keeps the joint invariant if and only if it is not a failed re-enrollment. */
  lemma StepKeepsJointIff(cfg: Config, s: State, e: Event)
    requires JointInv(cfg, s)
    ensures JointInv(cfg, Step(cfg, s, e).0) <==> !FailedReenroll(cfg, s, e)
  {
    var s' := Step(cfg, s, e).0;
    if e.Enroll? {
      EnrollKeepsJoint(cfg, s, e);
    } else {
      OtherEnds(cfg, s, e);
      if gone, failing :| gone <= s.peers.Keys && s' == Drop(cfg, s, gone, failing) {
        DropKeepsJoint(cfg, s, gone, failing);
      } else {
        SameHoldingsKeeps(cfg, s, s');
      }
    }
  }

  lemma InitIsJoint(cfg: Config, s: State)
    requires Init(cfg, s)
    ensures JointInv(cfg, s)
  {
  }

  /** No event of the run is a failed re-enrollment. */
  ghost predicate NoFailedReenroll(cfg: Config, s: State, evs: seq<Event>) {
    forall i: nat | i < |evs| :: !FailsAt(cfg, s, evs, i)
  }

  /** Event i of the run is a failed re-enrollment. */
  ghost predicate FailsAt(cfg: Config, s: State, evs: seq<Event>, i: nat)
    requires i < |evs|
  {
    FailedReenroll(cfg, At(cfg, s, evs, i), evs[i])
  }

  lemma FailsAtPrefix(cfg: Config, s: State, evs: seq<Event>, n: nat, i: nat)
    requires i < n <= |evs|
    ensures FailsAt(cfg, s, evs[..n], i) <==> FailsAt(cfg, s, evs, i)
  {
    assert evs[..n][..i] == evs[..i];
  }

  /** Every run without a failed re-enrollment stays in the joint invariant. */
  lemma RunKeepsJoint(cfg: Config, s: State, evs: seq<Event>)
    requires Init(cfg, s) && NoFailedReenroll(cfg, s, evs)
    ensures JointInv(cfg, Run(cfg, s, evs))
  {
    UnhurtIff(cfg, s, evs);
    RunKeepsSound(cfg, s, evs);
    RunKeepsSafe(cfg, s, evs);
  }

  /** The joint invariant holds at every point of a run if and only if no event of it is a failed re-enrollment. */
  lemma JointThroughoutIff(cfg: Config, s: State, evs: seq<Event>)
    requires Init(cfg, s)
    ensures (forall n: nat | n <= |evs| :: JointInv(cfg, At(cfg, s, evs, n))) <==> NoFailedReenroll(cfg, s, evs)
  {
    if NoFailedReenroll(cfg, s, evs) {
      forall n: nat | n <= |evs| ensures JointInv(cfg, At(cfg, s, evs, n)) {
        forall i: nat | i < n ensures !FailsAt(cfg, s, evs[..n], i) {
          FailsAtPrefix(cfg, s, evs, n, i);
        }
        RunKeepsJoint(cfg, s, evs[..n]);
      }
    } else {
      var i: nat :| i < |evs| && FailsAt(cfg, s, evs, i);
      RunStep(cfg, s, evs, i);
      if JointInv(cfg, At(cfg, s, evs, i)) {
        StepKeepsJointIff(cfg, At(cfg, s, evs, i), evs[i]);
      }
    }
  }

  /** Every run at all leaks no address and never gives out the gateway's. */
  lemma {:induction false} RunKeepsSafe(cfg: Config, s: State, evs: seq<Event>)
    requires Init(cfg, s)
    ensures Safe(cfg, Run(cfg, s, evs))
  {
    if evs == [] {
      InitIsJoint(cfg, s);
    } else {
      var n := |evs| - 1;
      RunKeepsSafe(cfg, s, evs[..n]);
      StepKeepsSafe(cfg, Run(cfg, s, evs[..n]), evs[n]);
    }
  }

  // ---- runs with failed re-enrollments ----

  /** The addresses that failed re-enrollments of the run gave back. */
  ghost function Hurt(cfg: Config, s: State, evs: seq<Event>): set<Ip4> {
    if evs == [] then {}
    else
      var n := |evs| - 1;
      Hurt(cfg, s, evs[..n]) + HurtBy(cfg, Run(cfg, s, evs[..n]), evs[n])
  }

  ghost function HurtBy(cfg: Config, s: State, e: Event): set<Ip4> {
    if FailedReenroll(cfg, s, e) then {s.peers[e.key].ip} else {}
  }

  /** Addresses outside the set are held by one key each, and still used. */
  ghost predicate SoundOutside(s: State, hurt: set<Ip4>) {
    && (forall k <- s.peers, k' <- s.peers | s.peers[k].ip == s.peers[k'].ip && s.peers[k].ip !in hurt :: k == k')
    && (forall k <- s.peers | s.peers[k].ip !in hurt :: s.peers[k].ip in s.used)
  }

  lemma DropKeepsSound(cfg: Config, s: State, gone: set<string>, failing: set<string>, hurt: set<Ip4>)
    requires SoundOutside(s, hurt) && gone <= s.peers.Keys
    ensures SoundOutside(Drop(cfg, s, gone, failing), hurt)
  {
  }

  lemma EnrollKeepsSound(cfg: Config, s: State, e: Event, hurt: set<Ip4>)
    requires SoundOutside(s, hurt) && e.Enroll?
    ensures SoundOutside(EnrollStep(cfg, s, e).0, hurt + HurtBy(cfg, s, e))
  {
    EnrollEnds(cfg, s, e);
  }

  lemma StepKeepsSound(cfg: Config, s: State, e: Event, hurt: set<Ip4>)
    requires SoundOutside(s, hurt)
    ensures SoundOutside(Step(cfg, s, e).0, hurt + HurtBy(cfg, s, e))
  {
    var s' := Step(cfg, s, e).0;
    if e.Enroll? {
      EnrollKeepsSound(cfg, s, e, hurt);
    } else {
      OtherEnds(cfg, s, e);
      if gone, failing :| gone <= s.peers.Keys && s' == Drop(cfg, s, gone, failing) {
        DropKeepsSound(cfg, s, gone, failing, hurt);
      }
    }
  }

  /**
    In every run, whatever fails: an address that no failed re-enrollment gave back is held by
    at most one key, and while held is not given out.
   */
  lemma {:induction false} RunKeepsSound(cfg: Config, s: State, evs: seq<Event>)
    requires Init(cfg, s)
    ensures SoundOutside(Run(cfg, s, evs), Hurt(cfg, s, evs))
  {
    if evs != [] {
      var n := |evs| - 1;
      RunKeepsSound(cfg, s, evs[..n]);
      StepKeepsSound(cfg, Run(cfg, s, evs[..n]), evs[n], Hurt(cfg, s, evs[..n]));
    }
  }

  lemma NoFailureStep(cfg: Config, s: State, evs: seq<Event>)
    requires evs != []
    ensures var n := |evs| - 1;
            NoFailedReenroll(cfg, s, evs) <==>
              NoFailedReenroll(cfg, s, evs[..n]) && !FailedReenroll(cfg, Run(cfg, s, evs[..n]), evs[n])
  {
    var n := |evs| - 1;
    forall i: nat | i < n ensures FailsAt(cfg, s, evs[..n], i) <==> FailsAt(cfg, s, evs, i) {
      FailsAtPrefix(cfg, s, evs, n, i);
    }
    assert FailsAt(cfg, s, evs, n) <==> FailedReenroll(cfg, Run(cfg, s, evs[..n]), evs[n]);
  }

  /** No address is hurt exactly if no re-enrollment failed; the joint invariant is that case. */
  lemma {:induction false} UnhurtIff(cfg: Config, s: State, evs: seq<Event>)
    ensures Hurt(cfg, s, evs) == {} <==> NoFailedReenroll(cfg, s, evs)
  {
    if evs != [] {
      UnhurtIff(cfg, s, evs[..|evs| - 1]);
      NoFailureStep(cfg, s, evs);
      HurtStep(cfg, s, evs);
    }
  }

  lemma HurtStep(cfg: Config, s: State, evs: seq<Event>)
    requires evs != []
    ensures var n := |evs| - 1;
            Hurt(cfg, s, evs) == {} <==> Hurt(cfg, s, evs[..n]) == {} && !FailedReenroll(cfg, Run(cfg, s, evs[..n]), evs[n])
  {
    var n := |evs| - 1;
    var before, more := Hurt(cfg, s, evs[..n]), HurtBy(cfg, Run(cfg, s, evs[..n]), evs[n]);
    assert Hurt(cfg, s, evs) == before + more;
    assert more == {} <==> !FailedReenroll(cfg, Run(cfg, s, evs[..n]), evs[n]);
    assert forall ip :: ip in before + more <==> ip in before || ip in more;
  }

  /**
    What a failed re-enrollment costs: its address is free again while still held, and the
    next new device is given that same address if and only if no lower host was free.
   */
  lemma DoubleAssignment(cfg: Config, s: State, e: Event, e': Event)
    requires JointInv(cfg, s) && FailedReenroll(cfg, s, e)
    requires e'.Enroll? && !e'.fails && e'.key !in s.peers
    requires Refusal(cfg, Step(cfg, s, e).0, e').None?
    ensures var ip := s.peers[e.key].ip;
            var s'' := Step(cfg, Step(cfg, s, e).0, e').0;
            && e'.key in s''.peers && e.key in s''.peers && s''.peers[e.key].ip == ip
            && (s''.peers[e'.key].ip == ip <==> forall b: Ip4 | Host(cfg.range, b) && Val(b) < Val(ip) :: b in s.used)
  {
    var ip := s.peers[e.key].ip;
    var s' := Step(cfg, s, e).0;
    assert s' == GiveBack(s, ip);
    FreedIsNextIff(cfg.range, s.used, ip);
  }

  lemma FreedIsNextIff(r: Range, used: set<Ip4>, ip: Ip4)
    requires Host(r, ip) && ip in used
    ensures LowestFree(r, used - {ip}).Some?
    ensures LowestFree(r, used - {ip}).value == ip <==> forall b: Ip4 | Host(r, b) && Val(b) < Val(ip) :: b in used
  {
    var a := LowestFree(r, used - {ip});
    assert ip !in used - {ip};
    if forall b: Ip4 | Host(r, b) && Val(b) < Val(ip) :: b in used {
      assert Val(a.value) == Val(ip);
      ValInjective(a.value, ip);
    }
  }
}

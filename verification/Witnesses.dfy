/**
  Short runs of a fresh server: how many devices failed re-enrollments can put on one
  address, and the same keys enrolled without any failure.
 */
module Witnesses {
  import opened Wrappers
  import opened Ipv4
  import opened Ipam
  import opened Tenancy
  import opened Registry
  import opened PeerStore
  import opened Control
  import opened Joint

  /** Some host beside the gateway's. */
  ghost predicate Room(cfg: Config) {
    exists ip: Ip4 :: Host(cfg.range, ip) && ip != cfg.gateway
  }

  ghost predicate RoomForTwo(cfg: Config) {
    exists a: Ip4, b: Ip4 :: Host(cfg.range, a) && Host(cfg.range, b) && a != cfg.gateway && b != cfg.gateway && a != b
  }

  /** The first address given out on a fresh server. */
  ghost function First(cfg: Config): Ip4
    requires Room(cfg)
  {
    LowestFree(cfg.range, {cfg.gateway}).value
  }

  ghost function Caller(subject: string): Claims {
    Claims(subject, Member("", false, [], ""))
  }

  const NOON: Clock := Clock(0, 0, 0, 0)

  /** Every key of these runs is its own subject's. */
  ghost function EnrollOf(key: string, fails: bool): Event {
    Enroll(key, Caller(key), "", DeviceInfo("", ""), NOON, fails)
  }

  ghost function Entries(ks: seq<string>): seq<Entry> {
    if ks == [] then [] else Entries(ks[..|ks| - 1]) + [Entry(ks[|ks| - 1], Registration(ks[|ks| - 1], 2))]
  }

  /** A list of these keys; it expires before they do. */
  ghost function Offer(ks: seq<string>): Event {
    Refresh(Some(KeyList(1, Entries(ks))), 0)
  }

  ghost function Bare(cfg: Config): State {
    State(map[], {cfg.gateway}, map[], map[DEFAULT_ID := Tenant(DEFAULT_ID, "", [], [], [], [], [], 1)], None)
  }

  lemma BareIsInit(cfg: Config)
    ensures Init(cfg, Bare(cfg))
  {
  }

  lemma {:induction false} EntriesAreIndexed(ks: seq<string>)
    ensures forall k <- ks :: k in Index(Entries(ks)) && Index(Entries(ks))[k] == Registration(k, 2)
    ensures forall entry <- Entries(ks) :: entry.key in ks
  {
    if ks != [] {
      var n := |ks| - 1;
      EntriesAreIndexed(ks[..n]);
      assert Entries(ks)[..|Entries(ks)| - 1] == Entries(ks[..n]);
      assert forall k <- ks :: k in ks[..n] || k == ks[n];
    }
  }

  /** The tenants are as at the start, and the list in force, if it matters, is the one of ks. */
  ghost predicate Open(cfg: Config, s: State, ks: seq<string>) {
    && s.tenants == Bare(cfg).tenants
    && s.list == Some(Listing(1, Index(Entries(ks))))
  }

  lemma OfferOpens(cfg: Config, ks: seq<string>)
    ensures var s := Run(cfg, Bare(cfg), [Offer(ks)]);
            Open(cfg, s, ks) && s.peers == map[] && s.used == {cfg.gateway}
  {
    RunThen(cfg, Bare(cfg), [], Offer(ks));
  }

  /** A listed key that parses passes every check, enrolled already or not. */
  lemma NobodyRefuses(cfg: Config, s: State, ks: seq<string>, key: string, fails: bool)
    requires Open(cfg, s, ks) && key in ks && cfg.parse(key).Some?
    requires key in s.peers ==> s.peers[key].subject == key
    ensures Refusal(cfg, s, EnrollOf(key, fails)).None?
  {
    EntriesAreIndexed(ks);
    var nobody := Caller(key).member;
    assert !Has(s.tenants[DEFAULT_ID], nobody);
    assert Matching(s.tenants, nobody) == {};
    assert Memberships(s.tenants, nobody) == {DEFAULT_ID};
  }

  // ---- one address for everybody ----

  /** Each key in turn: enrolled, and enrolled again with its device operation failing. */
  ghost function Crowding(ks: seq<string>, n: nat): seq<Event>
    requires n <= |ks|
  {
    if n == 0 then [Offer(ks)]
    else Crowding(ks, n - 1) + [EnrollOf(ks[n - 1], false)] + [EnrollOf(ks[n - 1], true)]
  }

  ghost predicate Usable(cfg: Config, ks: seq<string>) {
    && (forall i, j | 0 <= i < j < |ks| :: ks[i] != ks[j])
    && (forall k <- ks :: cfg.parse(k).Some?)
  }

  /** The keys are enrolled, all at the first address, and the pool thinks it is free. */
  ghost predicate Crowded(cfg: Config, s: State, ks: seq<string>)
    requires Room(cfg)
  {
    && (forall k :: k in s.peers <==> k in ks)
    && (forall k <- s.peers :: s.peers[k].ip == First(cfg) && s.peers[k].subject == k)
    && s.used == {cfg.gateway}
  }

  /** s' is s with key enrolled beside the others, to itself, at ip. */
  ghost predicate Added(s: State, s': State, key: string, ip: Ip4) {
    && s'.peers.Keys == s.peers.Keys + {key}
    && (forall k <- s.peers :: s'.peers[k] == s.peers[k])
    && s'.peers[key].ip == ip && s'.peers[key].subject == key
    && s'.used == s.used + {ip}
  }

  lemma NewIsAdded(cfg: Config, s: State, ks: seq<string>, key: string)
    requires Open(cfg, s, ks) && key in ks && cfg.parse(key).Some? && key !in s.peers && !AllUsed(cfg.range, s.used)
    ensures var s' := Step(cfg, s, EnrollOf(key, false)).0;
            Open(cfg, s', ks) && Added(s, s', key, LowestFree(cfg.range, s.used).value)
  {
    NobodyRefuses(cfg, s, ks, key, false);
  }

  /** One more on a crowded server gets the first address too. */
  lemma CrowdGrows(cfg: Config, s: State, s': State, ks: seq<string>, n: nat)
    requires Room(cfg) && n < |ks| && Crowded(cfg, s, ks[..n]) && ks[n] !in s.peers && Added(s, s', ks[n], First(cfg))
    ensures s'.used == {cfg.gateway, First(cfg)} && Crowded(cfg, s'.(used := {cfg.gateway}), ks[..n + 1])
  {
    assert ks[..n + 1] == ks[..n] + [ks[n]];
  }

  lemma FailureFrees(cfg: Config, s: State, ks: seq<string>, key: string)
    requires Room(cfg) && Open(cfg, s, ks) && key in ks && cfg.parse(key).Some?
    requires key in s.peers && s.peers[key].subject == key && s.peers[key].ip == First(cfg)
    requires s.used == {cfg.gateway, First(cfg)}
    ensures Step(cfg, s, EnrollOf(key, true)).0 == s.(used := {cfg.gateway})
  {
    NobodyRefuses(cfg, s, ks, key, true);
    assert IsLowestFree(cfg.range, {cfg.gateway}, First(cfg));
  }

  lemma CrowdingStep(cfg: Config, s: State, ks: seq<string>, n: nat)
    requires Room(cfg) && Usable(cfg, ks) && n < |ks| && Open(cfg, s, ks) && Crowded(cfg, s, ks[..n])
    ensures var s' := Step(cfg, Step(cfg, s, EnrollOf(ks[n], false)).0, EnrollOf(ks[n], true)).0;
            Open(cfg, s', ks) && Crowded(cfg, s', ks[..n + 1])
  {
    var s' := Step(cfg, s, EnrollOf(ks[n], false)).0;
    NewIsAdded(cfg, s, ks, ks[n]);
    CrowdGrows(cfg, s, s', ks, n);
    FailureFrees(cfg, s', ks, ks[n]);
  }

  lemma CrowdingRuns(cfg: Config, ks: seq<string>, n: nat)
    requires n < |ks|
    ensures var s := Run(cfg, Bare(cfg), Crowding(ks, n));
            Run(cfg, Bare(cfg), Crowding(ks, n + 1)) == Step(cfg, Step(cfg, s, EnrollOf(ks[n], false)).0, EnrollOf(ks[n], true)).0
  {
    RunTwo(cfg, Bare(cfg), Crowding(ks, n), EnrollOf(ks[n], false), EnrollOf(ks[n], true));
  }

  lemma {:induction false} CrowdingCrowds(cfg: Config, ks: seq<string>, n: nat)
    requires Room(cfg) && Usable(cfg, ks) && n <= |ks|
    ensures var s := Run(cfg, Bare(cfg), Crowding(ks, n)); Open(cfg, s, ks) && Crowded(cfg, s, ks[..n])
  {
    if n == 0 {
      OfferOpens(cfg, ks);
    } else {
      CrowdingCrowds(cfg, ks, n - 1);
      CrowdingStep(cfg, Run(cfg, Bare(cfg), Crowding(ks, n - 1)), ks, n - 1);
      CrowdingRuns(cfg, ks, n - 1);
    }
  }

  lemma {:induction false} DistinctCount(ks: seq<string>)
    requires forall i, j | 0 <= i < j < |ks| :: ks[i] != ks[j]
    ensures |(set k <- ks)| == |ks|
  {
    if ks != [] {
      var n := |ks| - 1;
      DistinctCount(ks[..n]);
      assert (set k <- ks) == (set k <- ks[..n]) + {ks[n]};
    }
  }

  lemma CrowdIsShared(cfg: Config, s: State, ks: seq<string>)
    requires Room(cfg) && Usable(cfg, ks) && Crowded(cfg, s, ks)
    ensures |s.peers| == |ks|
    ensures |ks| > 1 ==> !Unique(s)
  {
    DistinctCount(ks);
    assert s.peers.Keys == set k <- ks;
    if |ks| > 1 {
      assert ks[0] in s.peers && ks[1] in s.peers && ks[0] != ks[1];
    }
  }

  /**
    On every pool with room for a device, however small, and for any keys, however many: a run
    of a fresh server leaves all of them enrolled, each to a subject of its own, at one
    address that the pool counts as free.
   */
  lemma AnyNumberOnOneAddress(cfg: Config, ks: seq<string>)
    requires Room(cfg) && Usable(cfg, ks)
    ensures var s := Run(cfg, Bare(cfg), Crowding(ks, |ks|));
            && Crowded(cfg, s, ks) && |s.peers| == |ks|
            && (|ks| > 1 ==> !Unique(s))
  {
    CrowdingCrowds(cfg, ks, |ks|);
    assert ks[..|ks|] == ks;
    CrowdIsShared(cfg, Run(cfg, Bare(cfg), Crowding(ks, |ks|)), ks);
  }

  /** Such a run has a failed re-enrollment: without one addresses would be unique. */
  lemma CrowdingFails(cfg: Config, ks: seq<string>)
    requires Room(cfg) && Usable(cfg, ks) && |ks| > 1
    ensures !NoFailedReenroll(cfg, Bare(cfg), Crowding(ks, |ks|))
  {
    AnyNumberOnOneAddress(cfg, ks);
    BareIsInit(cfg);
    if NoFailedReenroll(cfg, Bare(cfg), Crowding(ks, |ks|)) {
      RunKeepsJoint(cfg, Bare(cfg), Crowding(ks, |ks|));
    }
  }

  // ---- without a failure ----

  /** Two keys enrolled, one after the other, with no failure at all. */
  ghost function PlainRun(k: string, k': string): seq<Event> {
    [Offer([k, k'])] + [EnrollOf(k, false)] + [EnrollOf(k', false)]
  }

  lemma PlainRunIsFaultless(cfg: Config, k: string, k': string)
    ensures NoFailedReenroll(cfg, Bare(cfg), PlainRun(k, k'))
    ensures NoFailedReenroll(cfg, Bare(cfg), [Offer([k, k'])] + [EnrollOf(k, false)])
  {
  }

  lemma SecondIsFree(cfg: Config)
    requires RoomForTwo(cfg)
    ensures Room(cfg) && !AllUsed(cfg.range, {cfg.gateway, First(cfg)})
  {
    var a: Ip4, b: Ip4 :| Host(cfg.range, a) && Host(cfg.range, b) && a != cfg.gateway && b != cfg.gateway && a != b;
    assert a !in {cfg.gateway, First(cfg)} || b !in {cfg.gateway, First(cfg)};
  }

  lemma FirstEnrolls(cfg: Config, ks: seq<string>)
    requires Room(cfg) && ks != [] && cfg.parse(ks[0]).Some?
    ensures var s := Run(cfg, Bare(cfg), [Offer(ks)] + [EnrollOf(ks[0], false)]);
            && Open(cfg, s, ks)
            && s.peers.Keys == {ks[0]} && s.peers[ks[0]].ip == First(cfg) && s.peers[ks[0]].subject == ks[0]
            && s.used == {cfg.gateway, First(cfg)}
            && s.peers[ks[0]].lease == if cfg.registry && 2 < cfg.leaseTTL then 2 else cfg.leaseTTL
  {
    OfferOpens(cfg, ks);
    EntriesAreIndexed(ks);
    NobodyRefuses(cfg, Run(cfg, Bare(cfg), [Offer(ks)]), ks, ks[0], false);
    RunThen(cfg, Bare(cfg), [Offer(ks)], EnrollOf(ks[0], false));
  }
}

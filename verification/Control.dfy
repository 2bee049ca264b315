/**
  The enrollment state machine: every handler of the API, the reaper, reconciliation, list
  refreshes and tenant administration as one step on the whole in-memory state. Handlers
  are atomic steps here; what the device or the provider does is part of the event.
 */
module Control {
  import opened Wrappers
  import opened Ipv4
  import opened Ipam
  import opened Tenancy
  import opened Registry
  import opened Gateway
  import opened PeerStore

  /** Fixed for a run: the pool's range, the gateway's address, the lease TTL, whether a key registry is in use, key parsing. */
  datatype Config = Config(range: Range, gateway: Ip4, leaseTTL: int, registry: bool, parse: string -> Option<DevKey>)

  /** A configuration as the server derives it from its pool. */
  ghost predicate ForPool(cfg: Config, pool: Pool) {
    cfg.range == RangeOf(pool) && cfg.gateway == ServerIp(pool)
  }

  datatype Claims = Claims(subject: string, member: Member)

  datatype State = State(
    peers: map<string, Record>,
    used: set<Ip4>,
    device: DevicePeers,
    tenants: Table,
    list: Option<Listing>)

  /** The successive clock readings of one handler: for the lease, the list, the registration, the record. */
  datatype Clock = Clock(lease: Time, list: Time, reg: Time, put: Time)

  ghost predicate Ticks(c: Clock) {
    c.lease <= c.list <= c.reg <= c.put
  }

  /** `failing` and `fails` say which device operations fail. */
  datatype Event =
    | Enroll(key: string, claims: Claims, asked: string, device: DeviceInfo, at: Clock, fails: bool)
    | Heartbeat(key: string, claims: Claims, at: Clock)
    | Deregister(key: string, claims: Claims, fails: bool)
    | Reap(now: Time, failing: set<string>)
    | Reconcile(allowed: (string, string) -> bool, failing: set<string>)
    | Refresh(fetched: Option<KeyList>, now: Time)
    | CreateTenant(t: Tenant)
    | UpdateTenant(id: string, t: Tenant)
    | DeleteTenant(id: string)

  datatype Reply =
    | Enrolled(ip: Ip4, lease: Time) | Renewed(lease: Time) | NoContent
    | BadPublicKey | KeyNotRegistered | ChooseOne | NotMember | KeyTaken
    | PoolExhausted | GatewayError | NotEnrolled | NotOwner

  /** The latest a lease of key may run to, if the caller may hold one. */
  function Registered(cfg: Config, list: Option<Listing>, key: string, subject: string, at: Clock): Option<Time> {
    var lease := at.lease + cfg.leaseTTL;
    if !cfg.registry then Some(lease)
    else match Lookup(list, key, at.list, at.reg)
      case None => None
      case Some(r) => if r.subject != subject then None else Some(if r.expires < lease then r.expires else lease)
  }

  /** What `handleEnroll` checks before it touches any state, in its order: None when all pass. */
  ghost function Refusal(cfg: Config, s: State, e: Event): Option<Reply>
    requires e.Enroll?
  {
    var choice := Choose(s.tenants, e.asked, e.claims.member);
    if cfg.parse(e.key).None? then Some(BadPublicKey)
    else if Registered(cfg, s.list, e.key, e.claims.subject, e.at).None? then Some(KeyNotRegistered)
    else if choice.TenantRequired? then Some(ChooseOne)
    else if choice.NotAMember? then Some(NotMember)
    else if e.key in s.peers && s.peers[e.key].subject != e.claims.subject then Some(KeyTaken)
    else None
  }

  /** The address an enrollment that passed its checks goes for: the one held, or the lowest free. */
  function Address(cfg: Config, s: State, key: string): Option<Ip4> {
    if key in s.peers then Some(s.peers[key].ip) else LowestFree(cfg.range, s.used)
  }

  ghost function Admitted(cfg: Config, s: State, e: Event, ip: Ip4): Record
    requires e.Enroll? && Refusal(cfg, s, e).None?
  {
    var lease := Registered(cfg, s.list, e.key, e.claims.subject, e.at).value;
    var tenant := Choose(s.tenants, e.asked, e.claims.member).id;
    Record(e.claims.subject, e.claims.member.email, ip, e.device, e.at.put, lease, tenant)
  }

  /** Programs the device and records the peer; a fresh address was taken by the allocation. */
  ghost function Admit(s: State, key: string, pub: DevKey, r: Record): State {
    s.(peers := s.peers[key := r],
       used := if key in s.peers then s.used else s.used + {r.ip},
       device := s.device[pub := OneHost(r.ip)])
  }

  /** `AddPeer` failed: the address goes back to the pool, whether or not it was just taken. */
  ghost function GiveBack(s: State, ip: Ip4): State {
    s.(used := s.used - {ip})
  }

  /** How an enrollment ends: refused with nothing touched, undone by the device, or done. */
  datatype Outcome = Refused(why: Reply) | Undone(ip: Ip4) | Done(pub: DevKey, r: Record)

  ghost function EnrollOutcome(cfg: Config, s: State, e: Event): Outcome
    requires e.Enroll?
  {
    if Refusal(cfg, s, e).Some? then Refused(Refusal(cfg, s, e).value)
    else match Address(cfg, s, e.key)
      case None => Refused(PoolExhausted)
      case Some(ip) => if e.fails then Undone(ip) else Done(cfg.parse(e.key).value, Admitted(cfg, s, e, ip))
  }

  ghost function EnrollStep(cfg: Config, s: State, e: Event): (State, Reply)
    requires e.Enroll?
  {
    match EnrollOutcome(cfg, s, e)
    case Refused(why) => (s, why)
    case Undone(ip) => (GiveBack(s, ip), GatewayError)
    case Done(pub, r) => (Admit(s, e.key, pub, r), Enrolled(r.ip, r.lease))
  }

  ghost function HeartbeatStep(cfg: Config, s: State, e: Event): (State, Reply)
    requires e.Heartbeat?
  {
    if e.key !in s.peers || s.peers[e.key].subject != e.claims.subject then (s, NotEnrolled)
    else if s.peers[e.key].tenant !in Memberships(s.tenants, e.claims.member) then (s, NotMember)
    else match Registered(cfg, s.list, e.key, e.claims.subject, e.at)
      case None => (s, KeyNotRegistered)
      case Some(lease) => (s.(peers := s.peers[e.key := s.peers[e.key].(lease := lease)]), Renewed(lease))
  }

  /** Drops the peers of `gone`: from the store, the pool, and (where removal works) the device. */
  ghost function Drop(cfg: Config, s: State, gone: set<string>, failing: set<string>): State
    requires gone <= s.peers.Keys
  {
    s.(peers := s.peers - gone,
       used := s.used - (set k <- gone :: s.peers[k].ip),
       device := s.device - (set k <- gone | k !in failing && cfg.parse(k).Some? :: cfg.parse(k).value))
  }

  function Lapsed(s: State, now: Time): set<string> {
    set k <- s.peers | s.peers[k].lease <= now
  }

  function Disallowed(s: State, allowed: (string, string) -> bool): set<string> {
    set k <- s.peers | !allowed(k, s.peers[k].subject)
  }

  ghost function DeregisterStep(cfg: Config, s: State, key: string, claims: Claims, fails: bool): (State, Reply) {
    if key !in s.peers then (s, NoContent)
    else if s.peers[key].subject != claims.subject then (s, NotOwner)
    else (Drop(cfg, s, {key}, if fails then {key} else {}), NoContent)
  }

  function RefreshStep(s: State, fetched: Option<KeyList>): State {
    if fetched.None? then s
    else s.(list := Some(Listing(fetched.value.expires, Index(fetched.value.peers))))
  }

  ghost function Step(cfg: Config, s: State, e: Event): (State, Reply) {
    match e
    case Enroll(_, _, _, _, _, _) => EnrollStep(cfg, s, e)
    case Heartbeat(_, _, _) => HeartbeatStep(cfg, s, e)
    case Deregister(key, claims, fails) => DeregisterStep(cfg, s, key, claims, fails)
    case Reap(now, failing) => (Drop(cfg, s, Lapsed(s, now), failing), NoContent)
    case Reconcile(allowed, failing) => (Drop(cfg, s, Disallowed(s, allowed), failing), NoContent)
    case Refresh(fetched, _) => (RefreshStep(s, fetched), NoContent)
    case CreateTenant(t) => (s.(tenants := Create(s.tenants, t)), NoContent)
    case UpdateTenant(id, t) => (s.(tenants := Update(s.tenants, id, t)), NoContent)
    case DeleteTenant(id) => (s.(tenants := Delete(s.tenants, id)), NoContent)
  }

  /** The server as started: nobody enrolled, the gateway's address taken, only the default tenant. */
  ghost predicate Init(cfg: Config, s: State) {
    && s.peers == map[]
    && s.used == {cfg.gateway}
    && s.tenants.Keys == {DEFAULT_ID} && s.tenants[DEFAULT_ID].id == DEFAULT_ID
    && s.list == None
  }

  ghost function Run(cfg: Config, s: State, evs: seq<Event>): State {
    if evs == [] then s
    else Step(cfg, Run(cfg, s, evs[..|evs| - 1]), evs[|evs| - 1]).0
  }

  /** The state before event i of a run. */
  ghost function At(cfg: Config, s: State, evs: seq<Event>, i: nat): State
    requires i <= |evs|
  {
    Run(cfg, s, evs[..i])
  }

  lemma RunThen(cfg: Config, s: State, evs: seq<Event>, e: Event)
    ensures Run(cfg, s, evs + [e]) == Step(cfg, Run(cfg, s, evs), e).0
  {
    assert (evs + [e])[..|evs|] == evs;
  }

  lemma RunTwo(cfg: Config, s: State, evs: seq<Event>, e: Event, e': Event)
    ensures Run(cfg, s, evs + [e] + [e']) == Step(cfg, Step(cfg, Run(cfg, s, evs), e).0, e').0
  {
    RunThen(cfg, s, evs, e);
    RunThen(cfg, s, evs + [e], e');
  }

  lemma RunStep(cfg: Config, s: State, evs: seq<Event>, i: nat)
    requires i < |evs|
    ensures At(cfg, s, evs, i + 1) == Step(cfg, At(cfg, s, evs, i), evs[i]).0
  {
    assert evs[..i + 1][..i] == evs[..i];
  }
}

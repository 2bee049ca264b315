/**
  The API server over its live parts: store, allocator, device, key registry and tenant
  table are separate objects updated in place, and each handler is proved to take the whole
  of them through one step of the enrollment state machine.
 */
module Server {
  import opened Wrappers
  import opened Ipv4
  import opened Ipam
  import opened Tenancy
  import opened Registry
  import opened Gateway
  import opened PeerStore
  import opened Control
  import TenantStore

  /** Dropping one more peer after those of `gone`. */
  lemma DropOneMore(cfg: Config, s: State, gone: set<string>, k: string, failing: set<string>)
    requires gone <= s.peers.Keys && k in s.peers && k !in gone
    ensures var s1, s2 := Drop(cfg, s, gone, failing), Drop(cfg, s, gone + {k}, failing);
            && s2.peers == s1.peers - {k}
            && s2.used == s1.used - {s.peers[k].ip}
            && s2.device == (if k !in failing && cfg.parse(k).Some? then s1.device - {cfg.parse(k).value} else s1.device)
            && s2.tenants == s1.tenants && s2.list == s1.list
  {
    var d1 := set j <- gone | j !in failing && cfg.parse(j).Some? :: cfg.parse(j).value;
    var d2 := set j <- gone + {k} | j !in failing && cfg.parse(j).Some? :: cfg.parse(j).value;
    RemoveOneMore(s.peers, gone, k);
    assert (set j <- gone + {k} :: s.peers[j].ip) == (set j <- gone :: s.peers[j].ip) + {s.peers[k].ip};
    if k !in failing && cfg.parse(k).Some? {
      assert d2 == d1 + {cfg.parse(k).value};
      RemoveOneMore(s.device, d1, cfg.parse(k).value);
    } else {
      assert d2 == d1;
    }
  }

  lemma DropNone(cfg: Config, s: State, failing: set<string>)
    ensures Drop(cfg, s, {}, failing) == s
  {
    var none := Drop(cfg, s, {}, failing);
    assert none.peers == s.peers && none.used == s.used && none.device == s.device;
  }

  ghost function KeysBelow(ps: seq<Peer>, n: nat): set<string>
    requires n <= |ps|
  {
    set i | 0 <= i < n :: ps[i].publicKey
  }

  lemma SnapshotKeys(store: Store, ps: seq<Peer>, want: set<string>)
    requires store.Valid() && store.Snapshot(ps, want)
    ensures DistinctKeys(ps) && forall i | 0 <= i < |ps| :: ps[i].publicKey in store.peers && store.peers[ps[i].publicKey] == ps[i]
    ensures KeysBelow(ps, |ps|) == want
  {
    assert forall i | 0 <= i < |ps| :: ps[i] in ps;
    forall k <- want ensures k in KeysBelow(ps, |ps|) {
      assert store.peers[k] in ps;
    }
  }

  /** The keys of the first n peers that are not allowed. */
  ghost function Barred(ps: seq<Peer>, n: nat, allowed: (string, string) -> bool): set<string>
    requires n <= |ps|
  {
    set i | 0 <= i < n && !allowed(ps[i].publicKey, ps[i].subject) :: ps[i].publicKey
  }

  ghost predicate DistinctKeys(ps: seq<Peer>) {
    forall i, j | 0 <= i < j < |ps| :: ps[i].publicKey != ps[j].publicKey
  }

  lemma BarredNext(ps: seq<Peer>, n: nat, allowed: (string, string) -> bool)
    requires n < |ps| && DistinctKeys(ps)
    ensures ps[n].publicKey !in Barred(ps, n, allowed)
    ensures Barred(ps, n + 1, allowed) ==
              Barred(ps, n, allowed) + if allowed(ps[n].publicKey, ps[n].subject) then {} else {ps[n].publicKey}
  {
  }

  /** A snapshot of the whole store has every stored peer once, so what it bars is what the store holds disallowed. */
  lemma SnapshotIsOfAll(store: Store, ps: seq<Peer>, allowed: (string, string) -> bool)
    requires store.Valid() && store.Snapshot(ps, store.peers.Keys)
    ensures DistinctKeys(ps) && forall i | 0 <= i < |ps| :: ps[i].publicKey in store.peers && store.peers[ps[i].publicKey] == ps[i]
    ensures Barred(ps, |ps|, allowed) == set k <- store.Records() | !allowed(k, store.Records()[k].subject)
  {
    assert forall i | 0 <= i < |ps| :: ps[i] in ps;
    forall k <- store.Records() | !allowed(k, store.Records()[k].subject) ensures k in Barred(ps, |ps|, allowed) {
      assert store.peers[k] in ps;
    }
  }

  class Server {
    const cfg: Config
    const alloc: Allocator
    const store: Store
    const gw: Device
    const keys: Keys
    const tenants: TenantStore.Store

    /** The configured range is that of the allocator's pool. */
    ghost predicate Configured() {
      cfg.range == RangeOf(alloc.pool)
    }

    ghost predicate Valid()
      reads this, store, keys
    {
      && store.Valid() && keys.Valid()
    }

    ghost function View(): State
      reads this, alloc, store, store.peers.Values, gw, keys, tenants
    {
      State(store.Records(), alloc.used, gw.peers, tenants.Table(), keys.View())
    }

    /** A server at startup, on whatever device it finds. */
    constructor (pool: Pool, leaseTTL: int, registry: bool, parse: string -> Option<DevKey>, gw: Device,
                 routes: seq<string>, dns: seq<string>)
      ensures Configured() && Valid() && Init(cfg, View()) && Filed(tenants.Table())
      ensures cfg == Config(RangeOf(pool), ServerIp(pool), leaseTTL, registry, parse)
      ensures this.gw == gw && alloc.pool == pool
    {
      this.cfg := Config(RangeOf(pool), ServerIp(pool), leaseTTL, registry, parse);
      this.alloc := new Allocator(pool);
      this.store := new Store();
      this.gw := gw;
      this.keys := new Keys();
      this.tenants := new TenantStore.Store(routes, dns);
    }

    /** `registered`: whether the caller may hold a lease of key, and until when. */
    method MayHold(key: string, subject: string, at: Clock) returns (lease: Option<Time>)
      requires Valid()
      ensures lease == Registered(cfg, keys.View(), key, subject, at)
    {
      var until := at.lease + cfg.leaseTTL;
      if !cfg.registry {
        return Some(until);
      }
      var p := keys.LookupKey(key, at.list, at.reg);
      if p.None? || p.value.subject != subject {
        return None;
      }
      if p.value.expires < until {
        until := p.value.expires;
      }
      return Some(until);
    }

    /** The checks of an enrollment, in order; they change nothing. */
    method Clear(key: string, claims: Claims, asked: string, at: Clock, ghost e: Event)
      returns (refusal: Option<Reply>, lease: Time, tenant: string)
      requires Valid() && Filed(tenants.Table()) && e.Enroll? && e.key == key && e.claims == claims && e.asked == asked && e.at == at
      ensures refusal == Refusal(cfg, View(), e)
      ensures refusal.None? ==> Registered(cfg, View().list, key, claims.subject, at) == Some(lease)
      ensures refusal.None? ==> Choose(View().tenants, asked, claims.member) == Chosen(tenant)
    {
      lease, tenant := 0, "";
      if cfg.parse(key).None? {
        return Some(BadPublicKey), lease, tenant;
      }
      var expiry := MayHold(key, claims.subject, at);
      if expiry.None? {
        return Some(KeyNotRegistered), lease, tenant;
      }
      var choice := ChooseTenant(tenants.Table(), asked, claims.member);
      if choice.TenantRequired? {
        return Some(ChooseOne), lease, tenant;
      }
      if choice.NotAMember? {
        return Some(NotMember), lease, tenant;
      }
      var existing := store.Get(key);
      if existing != null && existing.subject != claims.subject {
        return Some(KeyTaken), lease, tenant;
      }
      return None, expiry.value, choice.id;
    }

    /** The address of a device already enrolled, or a fresh one. */
    method TakeAddress(key: string) returns (ip: Option<Ip4>)
      requires Configured() && Valid()
      modifies alloc
      ensures ip == Address(cfg, old(View()), key)
      ensures View() == if ip.Some? && key !in store.peers then old(View()).(used := old(View()).used + {ip.value}) else old(View())
    {
      var existing := store.Get(key);
      if existing != null {
        return Some(existing.ip);
      }
      ip := alloc.Allocate();
    }

    /** From an address to the recorded peer, once the checks have passed. */
    method Complete(key: string, pub: DevKey, r: Record, fails: bool) returns (ip: Option<Ip4>)
      requires Configured() && Valid()
      modifies alloc, store, gw
      ensures Valid()
      ensures ip == Address(cfg, old(View()), key)
      ensures View() == if ip.None? then old(View())
                        else if fails then GiveBack(old(View()), ip.value)
                        else Admit(old(View()), key, pub, r.(ip := ip.value))
    {
      ip := TakeAddress(key);
      if ip.Some? {
        var _ := Program(key, pub, r.(ip := ip.value), fails);
      }
    }

    method HandleEnroll(key: string, claims: Claims, asked: string, device: DeviceInfo, at: Clock, fails: bool)
      returns (reply: Reply)
      requires Configured() && Valid() && Filed(tenants.Table())
      modifies alloc, store, gw
      ensures Valid()
      ensures (View(), reply) == EnrollStep(cfg, old(View()), Enroll(key, claims, asked, device, at, fails))
    {
      ghost var s, e := View(), Enroll(key, claims, asked, device, at, fails);
      var refusal, lease, tenant := Clear(key, claims, asked, at, e);
      if refusal.Some? {
        return refusal.value;
      }
      var r := Record(claims.subject, claims.member.email, [0, 0, 0, 0], device, at.put, lease, tenant);
      var ip := Complete(key, cfg.parse(key).value, r, fails);
      reply := if ip.None? then PoolExhausted else if fails then GatewayError else Enrolled(ip.value, lease);
    }

    /** Adds the peer to the device and the store; if the device refuses, gives the address back. */
    method Program(key: string, pub: DevKey, r: Record, fails: bool) returns (ok: bool)
      requires Valid()
      modifies alloc, store, gw
      ensures Valid() && ok == !fails
      ensures View() == var s := old(View());
                        if ok then s.(peers := s.peers[key := r], device := s.device[pub := OneHost(r.ip)])
                        else GiveBack(s, r.ip)
    {
      ok := gw.AddPeer(pub, r.ip, fails);
      if !ok {
        alloc.Release(r.ip);
        return;
      }
      var p := new Peer(key, r);
      store.Put(p);
    }

    /** What a heartbeat is answered; nothing is changed yet. */
    method AnswerHeartbeat(key: string, claims: Claims, at: Clock) returns (reply: Reply)
      requires Valid() && Filed(tenants.Table())
      ensures reply == HeartbeatStep(cfg, View(), Heartbeat(key, claims, at)).1
    {
      var peer := store.Get(key);
      if peer == null || peer.subject != claims.subject {
        return NotEnrolled;
      }
      var member := IsMember(tenants.Table(), peer.tenant, claims.member);
      if !member {
        return NotMember;
      }
      var expiry := MayHold(key, claims.subject, at);
      if expiry.None? {
        return KeyNotRegistered;
      }
      return Renewed(expiry.value);
    }

    method SetLease(key: string, lease: Time)
      requires Valid() && key in store.peers
      modifies store.peers.Values
      ensures Valid()
      ensures View() == var s := old(View()); s.(peers := s.peers[key := s.peers[key].(lease := lease)])
    {
      ghost var s := View();
      var _ := store.Renew(key, lease);
      assert tenants.Table() == s.tenants && keys.View() == s.list;
    }

    method HandleHeartbeat(key: string, claims: Claims, at: Clock) returns (reply: Reply)
      requires Valid() && Filed(tenants.Table())
      modifies store.peers.Values
      ensures Valid()
      ensures (View(), reply) == HeartbeatStep(cfg, old(View()), Heartbeat(key, claims, at))
    {
      reply := AnswerHeartbeat(key, claims, at);
      if reply.Renewed? {
        SetLease(key, reply.lease);
      }
    }

    /** Removes one stored peer from the device, the store and the pool. */
    method DropPeer(p: Peer, failing: set<string>)
      requires store.Valid() && p.publicKey in store.peers && store.peers[p.publicKey] == p
      modifies alloc, store, gw
      ensures store.Valid() && store.peers == old(store.peers) - {p.publicKey}
      ensures store.Records() == old(store.Records()) - {p.publicKey}
      ensures alloc.used == old(alloc.used) - {p.ip}
      ensures gw.peers == if p.publicKey !in failing && cfg.parse(p.publicKey).Some?
                          then old(gw.peers) - {cfg.parse(p.publicKey).value} else old(gw.peers)
    {
      var pub := cfg.parse(p.publicKey);
      if pub.Some? {
        var _ := gw.RemovePeer(pub.value, p.publicKey in failing);
      }
      var _ := store.Delete(p.publicKey);
      alloc.Release(p.ip);
    }

    /** Removes one more peer after those of `done`. */
    method DropNext(p: Peer, failing: set<string>, ghost s: State, ghost done: set<string>)
      requires Valid() && p.publicKey in store.peers && store.peers[p.publicKey] == p
      requires done <= s.peers.Keys && View() == Drop(cfg, s, done, failing)
      modifies alloc, store, gw
      ensures Valid() && store.peers == old(store.peers) - {p.publicKey}
      ensures p.publicKey in s.peers && View() == Drop(cfg, s, done + {p.publicKey}, failing)
    {
      assert p.publicKey in View().peers && View().peers[p.publicKey].ip == p.ip;
      DropOneMore(cfg, s, done, p.publicKey, failing);
      DropPeer(p, failing);
    }

    method HandleDeregister(key: string, claims: Claims, fails: bool) returns (reply: Reply)
      requires Valid()
      modifies alloc, store, gw
      ensures Valid()
      ensures (View(), reply) == DeregisterStep(cfg, old(View()), key, claims, fails)
    {
      var peer := store.Get(key);
      if peer == null {
        return NoContent;
      }
      if peer.subject != claims.subject {
        return NotOwner;
      }
      DropNone(cfg, View(), if fails then {key} else {});
      DropNext(peer, if fails then {key} else {}, View(), {});
      assert {} + {key} == {key};
      return NoContent;
    }

    /** Removes the peers of a snapshot one by one, in the order it lists them. */
    method DropAll(ps: seq<Peer>, ghost gone: set<string>, failing: set<string>)
      requires Valid() && store.Snapshot(ps, gone)
      modifies alloc, store, gw
      ensures Valid()
      ensures gone <= old(View()).peers.Keys && View() == Drop(cfg, old(View()), gone, failing)
    {
      ghost var s, was := View(), store.peers;
      ghost var done: set<string> := {};
      DropNone(cfg, s, failing);
      SnapshotKeys(store, ps, gone);
      for i := 0 to |ps|
        invariant Valid() && done == KeysBelow(ps, i)
        invariant done <= s.peers.Keys && store.peers == was - done && View() == Drop(cfg, s, done, failing)
      {
        assert KeysBelow(ps, i + 1) == KeysBelow(ps, i) + {ps[i].publicKey} && ps[i].publicKey !in KeysBelow(ps, i);
        DropNext(ps[i], failing, s, done);
        RemoveOneMore(was, done, ps[i].publicKey);
        done := done + {ps[i].publicKey};
      }
    }

    method ReapExpired(now: Time, failing: set<string>)
      requires Valid()
      modifies alloc, store, gw
      ensures Valid()
      ensures View() == Drop(cfg, old(View()), Lapsed(old(View()), now), failing)
      ensures forall k :: k in View().peers <==> k in old(View()).peers && now < old(View()).peers[k].lease
    {
      var ps := store.Expired(now);
      DropAll(ps, Lapsed(View(), now), failing);
    }

    /** Looks at one more peer of the snapshot: drops it if it is no longer allowed. */
    method ReconcileNext(p: Peer, allowed: (string, string) -> bool, failing: set<string>,
                         ghost s: State, ghost was: map<string, Peer>, ghost done: set<string>)
      returns (ghost done': set<string>)
      requires Valid() && p.publicKey in store.peers && store.peers[p.publicKey] == p
      requires p.publicKey in was && p.publicKey !in done && store.peers == was - done
      requires done <= s.peers.Keys && View() == Drop(cfg, s, done, failing)
      modifies alloc, store, gw
      ensures Valid()
      ensures done' == if allowed(p.publicKey, p.subject) then done else done + {p.publicKey}
      ensures done' <= s.peers.Keys && store.peers == was - done' && View() == Drop(cfg, s, done', failing)
    {
      done' := done;
      if !allowed(p.publicKey, p.subject) {
        DropNext(p, failing, s, done);
        RemoveOneMore(was, done, p.publicKey);
        done' := done + {p.publicKey};
      }
    }

    /** Drops every stored peer `allowed` no longer allows, going once over a snapshot. */
    method Reconcile(allowed: (string, string) -> bool, failing: set<string>)
      requires Valid()
      modifies alloc, store, gw
      ensures Valid()
      ensures View() == Drop(cfg, old(View()), Disallowed(old(View()), allowed), failing)
    {
      ghost var s, was := View(), store.peers;
      var ps := store.List();
      ghost var done: set<string> := {};
      DropNone(cfg, s, failing);
      SnapshotIsOfAll(store, ps, allowed);
      for i := 0 to |ps|
        invariant Valid() && done == Barred(ps, i, allowed)
        invariant done <= s.peers.Keys && store.peers == was - done && View() == Drop(cfg, s, done, failing)
      {
        BarredNext(ps, i, allowed);
        done := ReconcileNext(ps[i], allowed, failing, s, was, done);
      }
    }

    /** A fetched list replaces the one in force; a failed fetch leaves it. */
    method RefreshKeys(fetched: Option<KeyList>) returns (ok: bool)
      requires Valid()
      modifies keys
      ensures Valid()
      ensures View() == RefreshStep(old(View()), fetched)
    {
      ok := keys.Refresh(fetched);
    }
  }

  /**
    Startup: sweep the device, and start only if that worked. The device the new server
    finds holds no peer of the swept shape, as its own next restart relies on.
   */
  method Startup(gw: Device, pool: Pool, leaseTTL: int, registry: bool, parse: string -> Option<DevKey>,
                 routes: seq<string>, dns: seq<string>, listFails: bool, failing: set<DevKey>)
    returns (server: Server?)
    modifies gw
    ensures server == null <==> listFails || !(OursKeys(old(gw.peers), pool) !! failing)
    ensures server != null ==>
              && server.Configured() && server.Valid() && Init(server.cfg, server.View()) && ForPool(server.cfg, pool)
              && server.View().device == old(gw.peers) - OursKeys(old(gw.peers), pool)
              && OursKeys(server.View().device, pool) == {}
  {
    var removed, ok, gone := Sweep(gw, pool, listFails, failing);
    if !ok {
      return null;
    }
    SweptIsClean(old(gw.peers), pool);
    server := new Server(pool, leaseTTL, registry, parse, gw, routes, dns);
  }
}

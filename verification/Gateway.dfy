/**
  The WireGuard device as a table of peers, what this server programs into it, and the
  sweep that clears a previous run's peers at startup.
 */
module Gateway {
  import opened Wrappers
  import opened Ipv4

  /** A parsed WireGuard public key. */
  type DevKey = seq<Byte>

  /** One allowed IP of a device peer: an address and the number of ones of its mask. */
  datatype AllowedIp = V4(ip: Ip4, ones: nat) | V6(ip6: seq<Byte>, ones: nat)

  type DevicePeers = map<DevKey, seq<AllowedIp>>

  /** The shape every enrolled peer is given: a single /32. */
  function OneHost(ip: Ip4): seq<AllowedIp> {
    [V4(ip, 32)]
  }

  /** Whether a peer has the shape this server gives: one /32 inside the pool. */
  predicate Ours(allowed: seq<AllowedIp>, pool: Pool) {
    |allowed| == 1 && allowed[0].V4? && allowed[0].ones == 32 && Lo(pool) <= Val(allowed[0].ip) <= Hi(pool)
  }

  /** The swept shape is exactly what `AddPeer` can have written for an address of the pool. */
  lemma OursIff(allowed: seq<AllowedIp>, pool: Pool)
    ensures Ours(allowed, pool) <==> exists ip: Ip4 :: Programs(allowed, ip) && Lo(pool) <= Val(ip) <= Hi(pool)
  {
    if Ours(allowed, pool) {
      assert allowed == [allowed[0]];
      assert Programs(allowed, allowed[0].ip);
    }
  }

  /** A single allowed IP: this address, with all 32 bits of its mask set. */
  predicate Programs(allowed: seq<AllowedIp>, ip: Ip4) {
    allowed == [V4(ip, 32)]
  }

  method IsOurs(allowed: seq<AllowedIp>, pool: Pool) returns (yes: bool)
    ensures yes <==> Ours(allowed, pool)
  {
    if |allowed| != 1 {
      return false;
    }
    var a := allowed[0];
    if a.V6? || a.ones != 32 {
      return false;
    }
    ContainsIsInterval(pool, a.ip);
    yes := Contains(pool, a.ip);
  }

  function OursKeys(peers: DevicePeers, pool: Pool): set<DevKey> {
    set k <- peers | Ours(peers[k], pool)
  }

  /** What a sweep leaves has nothing more to sweep. */
  lemma SweptIsClean(peers: DevicePeers, pool: Pool)
    ensures OursKeys(peers - OursKeys(peers, pool), pool) == {}
  {
  }

  /** The device; whether an operation on it fails is the caller's environment to say. */
  class Device {
    var peers: DevicePeers

    constructor (peers: DevicePeers)
      ensures this.peers == peers
    {
      this.peers := peers;
    }

    method AddPeer(pub: DevKey, ip: Ip4, fails: bool) returns (ok: bool)
      modifies this
      ensures ok == !fails
      ensures peers == if ok then old(peers)[pub := OneHost(ip)] else old(peers)
      ensures ok ==> Programs(peers[pub], ip)
    {
      ok := !fails;
      if ok {
        peers := peers[pub := OneHost(ip)];
      }
    }

    method RemovePeer(pub: DevKey, fails: bool) returns (ok: bool)
      modifies this
      ensures ok == !fails
      ensures peers == if ok then old(peers) - {pub} else old(peers)
    {
      ok := !fails;
      if ok {
        peers := peers - {pub};
      }
    }
  }

  /**
    Removes the peers of this server's shape, in whatever order the device lists them, and
    stops at the first removal that fails. `gone` is the set of peers it removed.
   */
  method Sweep(g: Device, pool: Pool, listFails: bool, failing: set<DevKey>)
    returns (removed: nat, ok: bool, ghost gone: set<DevKey>)
    modifies g
    ensures removed == |gone|
    ensures gone <= OursKeys(old(g.peers), pool) && gone !! failing
    ensures g.peers == old(g.peers) - gone
    ensures listFails ==> !ok && gone == {}
    ensures ok ==> gone == OursKeys(old(g.peers), pool)
    ensures ok <==> !listFails && OursKeys(old(g.peers), pool) !! failing
    ensures forall k <- gone :: exists ip: Ip4 :: Programs(old(g.peers)[k], ip) && Lo(pool) <= Val(ip) <= Hi(pool)
    ensures forall k <- old(g.peers) | k !in gone :: k in g.peers && g.peers[k] == old(g.peers)[k]
    ensures ok ==> forall k <- g.peers, ip: Ip4 | Lo(pool) <= Val(ip) <= Hi(pool) :: !Programs(g.peers[k], ip)
  {
    forall k <- g.peers ensures Ours(g.peers[k], pool) <==> exists ip: Ip4 :: Programs(g.peers[k], ip) && Lo(pool) <= Val(ip) <= Hi(pool) {
      OursIff(g.peers[k], pool);
    }
    removed, gone := 0, {};
    if listFails {
      ok := false;
      return;
    }
    var listed := g.peers;
    ghost var ours := OursKeys(listed, pool);
    var left := listed.Keys;
    while left != {}
      invariant left <= listed.Keys
      invariant forall k <- gone :: k in ours && k !in failing && k !in left
      invariant forall k <- ours :: k in gone || k in left
      invariant removed == |gone|
      invariant g.peers == listed - gone
      decreases left
    {
      var k :| k in left;
      left := left - {k};
      var mine := IsOurs(listed[k], pool);
      if mine {
        var done := g.RemovePeer(k, k in failing);
        if !done {
          ok := false;
          return;
        }
        removed := removed + 1;
        RemoveOneMore(listed, gone, k);
        gone := gone + {k};
      }
    }
    assert gone == ours;
    ok := true;
  }
}

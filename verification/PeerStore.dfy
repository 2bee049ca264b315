/** The store of enrolled peers: a map of shared, mutable peer objects. */
module PeerStore {
  import opened Ipv4
  import opened Registry

  datatype DeviceInfo = DeviceInfo(name: string, platform: string)

  /** A peer's fields as a value. */
  datatype Record = Record(
    subject: string, email: string, ip: Ip4, device: DeviceInfo,
    enrolledAt: Time, lease: Time, tenant: string)

  /** An enrolled device; only its lease changes after it is stored. */
  class Peer {
    const publicKey: string
    const subject: string
    const email: string
    const ip: Ip4
    const device: DeviceInfo
    const enrolledAt: Time
    var leaseExpiry: Time
    const tenant: string

    constructor (publicKey: string, r: Record)
      ensures this.publicKey == publicKey && Value() == r
    {
      this.publicKey := publicKey;
      subject, email, ip, device := r.subject, r.email, r.ip, r.device;
      enrolledAt, leaseExpiry, tenant := r.enrolledAt, r.lease, r.tenant;
    }

    function Value(): Record
      reads this
    {
      Record(subject, email, ip, device, enrolledAt, leaseExpiry, tenant)
    }
  }

  class Store {
    var peers: map<string, Peer>

    /** Every peer is stored under its own key, so no two keys share a peer object. */
    ghost predicate Valid()
      reads this
    {
      forall k <- peers :: peers[k].publicKey == k
    }

    ghost function Records(): map<string, Record>
      reads this, peers.Values
    {
      map k <- peers :: peers[k].Value()
    }

    constructor ()
      ensures Valid() && Records() == map[] && peers == map[]
    {
      peers := map[];
    }

    method Get(key: string) returns (p: Peer?)
      ensures p == if key in peers then peers[key] else null
    {
      p := if key in peers then peers[key] else null;
    }

    method Put(p: Peer)
      requires Valid()
      modifies this
      ensures Valid()
      ensures peers == old(peers)[p.publicKey := p]
      ensures Records() == old(Records())[p.publicKey := p.Value()]
    {
      peers := peers[p.publicKey := p];
    }

    method Delete(key: string) returns (p: Peer?)
      requires Valid()
      modifies this
      ensures Valid()
      ensures p == if key in old(peers) then old(peers)[key] else null
      ensures peers == old(peers) - {key}
      ensures Records() == old(Records()) - {key}
    {
      p := if key in peers then peers[key] else null;
      peers := peers - {key};
    }

    /** Writes the new lease through the stored, shared peer. */
    method Renew(key: string, expiry: Time) returns (ok: bool)
      requires Valid()
      modifies if key in peers then {peers[key]} else {}
      ensures ok <==> key in peers
      ensures Valid() && peers == old(peers)
      ensures Records() == if ok then old(Records())[key := old(Records())[key].(lease := expiry)] else old(Records())
    {
      if key !in peers {
        return false;
      }
      peers[key].leaseExpiry := expiry;
      ok := true;
    }

    /** A snapshot holds every stored peer that `want` picks once, in any order. */
    ghost predicate Snapshot(ps: seq<Peer>, want: set<string>)
      reads this
    {
      && (forall p <- ps :: p.publicKey in want && p.publicKey in peers && peers[p.publicKey] == p)
      && (forall k <- want :: k in peers && peers[k] in ps)
      && (forall i, j | 0 <= i < j < |ps| :: ps[i] != ps[j])
    }

    method Expired(now: Time) returns (out: seq<Peer>)
      requires Valid()
      ensures Snapshot(out, set k <- Records() | Records()[k].lease <= now)
    {
      out := [];
      var left := peers.Keys;
      while left != {}
        invariant left <= peers.Keys
        invariant Snapshot(out, set k <- Records() | Records()[k].lease <= now && k !in left)
        decreases left
      {
        var k :| k in left;
        left := left - {k};
        if !(now < peers[k].leaseExpiry) {
          out := out + [peers[k]];
        }
      }
    }

    method List() returns (out: seq<Peer>)
      requires Valid()
      ensures Snapshot(out, peers.Keys)
    {
      out := [];
      var left := peers.Keys;
      while left != {}
        invariant left <= peers.Keys
        invariant Snapshot(out, peers.Keys - left)
        decreases left
      {
        var k :| k in left;
        left := left - {k};
        out := out + [peers[k]];
      }
    }
  }
}

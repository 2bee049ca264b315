/**
  The provider's list of registered keys, as last fetched: who a key belongs to, until
  when, and the fail-closed lookup every enrollment and renewal goes through.
 */
module Registry {
  import opened Wrappers

  /** Instants, as nanoseconds. */
  type Time = int

  datatype Registration = Registration(subject: string, expires: Time)

  datatype Entry = Entry(key: string, reg: Registration)

  datatype KeyList = KeyList(expires: Time, peers: seq<Entry>)

  /** A list as the registry keeps it: indexed by key. */
  datatype Listing = Listing(expires: Time, byKey: map<string, Registration>)

  function Index(peers: seq<Entry>): map<string, Registration> {
    if peers == [] then map[]
    else Index(peers[..|peers| - 1])[peers[|peers| - 1].key := peers[|peers| - 1].reg]
  }

  /** Entry i decides for its key when no later entry repeats it. */
  predicate Decides(peers: seq<Entry>, i: nat, key: string) {
    i < |peers| && peers[i].key == key && forall j | i < j < |peers| :: peers[j].key != key
  }

  /** A key is indexed exactly when some entry lists it, and then as its last entry says. */
  lemma {:induction false} LastEntryDecides(peers: seq<Entry>, key: string)
    ensures key in Index(peers) <==> exists i: nat :: Decides(peers, i, key)
    ensures forall i: nat | Decides(peers, i, key) :: Index(peers)[key] == peers[i].reg
  {
    if peers != [] {
      var n := |peers| - 1;
      var init := peers[..n];
      if peers[n].key == key {
        assert Decides(peers, n, key);
      } else {
        LastEntryDecides(init, key);
        assert forall i: nat :: Decides(peers, i, key) <==> Decides(init, i, key);
      }
    }
  }

  /**
    `Lookup`: the registration of key, if the list has one and neither the list nor the
    registration has expired. The clock is read once for each comparison.
   */
  function Lookup(list: Option<Listing>, key: string, t: Time, t': Time): Option<Registration> {
    if list.None? || list.value.expires <= t then None
    else if key !in list.value.byKey || list.value.byKey[key].expires <= t' then None
    else Some(list.value.byKey[key])
  }

  predicate Allowed(list: Option<Listing>, key: string, subject: string, t: Time, t': Time) {
    match Lookup(list, key, t, t')
    case None => false
    case Some(r) => r.subject == subject
  }

  class Keys {
    var list: Option<KeyList>
    var byKey: map<string, Registration>

    ghost predicate Valid()
      reads this
    {
      byKey == if list.Some? then Index(list.value.peers) else map[]
    }

    /** The list in force, None before the first one; `byKey` is its index, kept beside it. */
    ghost function View(): Option<Listing>
      reads this
    {
      if list.None? then None else Some(Listing(list.value.expires, Index(list.value.peers)))
    }

    constructor ()
      ensures Valid() && View() == None
    {
      list, byKey := None, map[];
    }

    /** Keeps a fetched list; a failed fetch leaves the previous one. */
    method Refresh(fetched: Option<KeyList>) returns (ok: bool)
      requires Valid()
      modifies this
      ensures Valid()
      ensures ok == fetched.Some?
      ensures View() == match fetched
                        case None => old(View())
                        case Some(l) => Some(Listing(l.expires, Index(l.peers)))
    {
      if fetched.None? {
        return false;
      }
      var l := fetched.value;
      var index: map<string, Registration> := map[];
      for i := 0 to |l.peers|
        invariant index == Index(l.peers[..i])
      {
        assert l.peers[..i + 1][..i] == l.peers[..i];
        index := index[l.peers[i].key := l.peers[i].reg];
      }
      assert l.peers[..|l.peers|] == l.peers;
      list, byKey := fetched, index;
      ok := true;
    }

    method LookupKey(key: string, t: Time, t': Time) returns (r: Option<Registration>)
      requires Valid()
      ensures r == Lookup(View(), key, t, t')
    {
      if list.None? || !(t < list.value.expires) {
        return None;
      }
      if key !in byKey || !(t' < byKey[key].expires) {
        return None;
      }
      return Some(byKey[key]);
    }
  }
}

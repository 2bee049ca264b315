/** Every move of every interleaving keeps the broadcast invariant, and what follows from it. */
module BroadcastProof {
  import opened Wrappers
  import opened Tenancy
  import opened Broadcast

  /** Same tenants, and watchers that differ in their channels and streams at most. */
  predicate SameListing(h: Hub, h': Hub) {
    && h'.tenants == h.tenants && h'.nextSub == h.nextSub && |h'.watchers| == |h.watchers|
    && forall ch | 0 <= ch < |h.watchers| ::
         h'.watchers[ch].sub == h.watchers[ch].sub && h'.watchers[ch].home == h.watchers[ch].home
  }

  lemma SameListingKeeps(h: Hub, h': Hub)
    requires Listed(h) && SameListing(h, h')
    ensures Listed(h')
    ensures forall ch | 0 <= ch < |h.watchers| :: Registered(h', ch) <==> Registered(h, ch)
  {
  }

  lemma ReceiveKeeps(h: Hub, ch: nat)
    requires Inv(h) && ch < |h.watchers|
    ensures Inv(h.(watchers := h.watchers[ch := Receive(h.watchers[ch])]))
  {
    var h' := h.(watchers := h.watchers[ch := Receive(h.watchers[ch])]);
    SameListingKeeps(h, h');
    forall c | 0 <= c < |h'.watchers| ensures Open(h', c) && Served(h', c) {
      assert Open(h, c) && Served(h, c);
    }
  }

  lemma DrainKeeps(h: Hub, sub: nat)
    requires Inv(h)
    ensures Inv(Drain(h, sub))
  {
    var h' := Drain(h, sub);
    if h' != h {
      assert Lists(h.tenants, h.lock.id, sub);
      SameListingKeeps(h, h');
      forall c | 0 <= c < |h'.watchers| ensures Open(h', c) && Served(h', c) {
        assert Open(h, c) && Served(h, c);
      }
    }
  }

  /** The channel the broadcast sends on is open and empty: the send neither panics nor blocks. */
  lemma SendKeeps(h: Hub)
    requires Inv(h) && h.lock.Drained?
    ensures !h.watchers[h.lock.ch].closed && h.watchers[h.lock.ch].slot == None
    ensures Inv(Apply(h, SendMove))
  {
    var ch := h.lock.ch;
    assert Registered(h, ch) && Open(h, ch) && Served(h, ch);
    var h' := Apply(h, SendMove);
    SameListingKeeps(h, h');
    forall c | 0 <= c < |h'.watchers| ensures Open(h', c) && Served(h', c) {
      assert Open(h, c) && Served(h, c);
    }
  }

  lemma PushedKeeps(h: Hub)
    requires Inv(h)
    ensures Inv(Apply(h, PushedMove))
  {
    var h' := Apply(h, PushedMove);
    SameListingKeeps(h, h');
    forall c | 0 <= c < |h'.watchers| ensures Open(h', c) && Served(h', c) {
      assert Open(h, c) && Served(h, c);
    }
  }

  /** The channel a deletion closes is still open. */
  lemma CloseKeeps(h: Hub, sub: nat)
    requires Inv(h)
    ensures Inv(CloseNext(h, sub))
  {
    var h' := CloseNext(h, sub);
    if h' != h {
      assert Lists(h.tenants, h.lock.id, sub);
      assert Registered(h, sub) && Open(h, sub);
      SameListingKeeps(h, h');
      forall c | 0 <= c < |h'.watchers| ensures Open(h', c) && Served(h', c) {
        assert Open(h, c) && Served(h, c);
      }
    }
  }

  lemma DeletedKeeps(h: Hub)
    requires Inv(h)
    ensures Inv(Apply(h, DeletedMove))
  {
    var h' := Apply(h, DeletedMove);
    assert forall id, sub | Lists(h'.tenants, id, sub) :: Lists(h.tenants, id, sub);
    forall c | 0 <= c < |h'.watchers| ensures Open(h', c) && Served(h', c) {
      assert Open(h, c) && Served(h, c);
    }
  }

  /** The channel an unsubscribing watcher's close meets is still open. */
  lemma CloseUnlistedKeeps(h: Hub)
    requires Inv(h) && h.lock.Unlisted?
    ensures !h.watchers[h.lock.ch].closed
    ensures Inv(Apply(h, CloseUnlistedMove))
  {
    assert Open(h, h.lock.ch);
    var h' := Apply(h, CloseUnlistedMove);
    SameListingKeeps(h, h');
    forall c | 0 <= c < |h'.watchers| ensures Open(h', c) && Served(h', c) {
      assert Open(h, c) && Served(h, c);
    }
  }

  lemma CreateKeeps(h: Hub, t: Tenant, id: string)
    requires Inv(h) && h.lock.Free? && id !in h.tenants
    ensures Inv(h.(tenants := h.tenants[id := TenantState(t, map[])]))
  {
    var h' := h.(tenants := h.tenants[id := TenantState(t, map[])]);
    assert forall i, sub :: Lists(h'.tenants, i, sub) <==> Lists(h.tenants, i, sub);
    forall c | 0 <= c < |h'.watchers| ensures Open(h', c) && Served(h', c) {
      assert Open(h, c) && Served(h, c);
    }
  }

  /** An update puts every watcher of the tenant behind, and the broadcast has them all to do. */
  lemma UpdateKeeps(h: Hub, id: string, t: Tenant)
    requires Inv(h) && h.lock.Free?
    ensures Inv(StartUpdate(h, id, t))
  {
    var h' := StartUpdate(h, id, t);
    assert forall i, sub :: Lists(h'.tenants, i, sub) <==> Lists(h.tenants, i, sub);
    forall c | 0 <= c < |h'.watchers| ensures Open(h', c) && Served(h', c) {
      assert Open(h, c) && Served(h, c);
    }
  }

  lemma DeleteKeeps(h: Hub, id: string)
    requires Inv(h) && h.lock.Free?
    ensures Inv(StartDelete(h, id))
  {
    var h' := StartDelete(h, id);
    assert forall i, sub :: Lists(h'.tenants, i, sub) <==> Lists(h.tenants, i, sub);
    forall c | 0 <= c < |h'.watchers| ensures Open(h', c) && Served(h', c) {
      assert Open(h, c) && Served(h, c);
    }
  }

  lemma SubscribeKeeps(h: Hub, asked: string)
    requires Inv(h) && h.lock.Free?
    ensures Inv(Subscribe(h, asked))
  {
    var h' := Subscribe(h, asked);
    var n, home := |h.watchers|, Resolve(h.tenants, asked);
    assert forall i, sub :: Lists(h'.tenants, i, sub) <==> Lists(h.tenants, i, sub) || (i == home && sub == n);
    forall c | 0 <= c < |h'.watchers| ensures Open(h', c) && Served(h', c) {
      if c < n {
        assert Open(h, c) && Served(h, c);
      }
    }
  }

  lemma UnsubscribeKeeps(h: Hub, asked: string, sub: nat)
    requires Inv(h) && h.lock.Free?
    ensures Inv(Unsubscribe(h, asked, sub))
  {
    var h' := Unsubscribe(h, asked, sub);
    if h' != h {
      var home := Resolve(h.tenants, asked);
      assert Lists(h.tenants, home, sub);
      assert forall i, s :: Lists(h'.tenants, i, s) <==> Lists(h.tenants, i, s) && !(i == home && s == sub);
      forall c | 0 <= c < |h'.watchers| ensures Open(h', c) && Served(h', c) {
        assert Open(h, c) && Served(h, c);
      }
    }
  }

  /** No move of anybody breaks the invariant: in particular none panics and none blocks. */
  lemma ApplyKeeps(h: Hub, m: Move)
    requires Inv(h)
    ensures Inv(Apply(h, m))
  {
    match m {
      case ReceiveMove(ch) => if ch < |h.watchers| { ReceiveKeeps(h, ch); }
      case DrainMove(sub) => DrainKeeps(h, sub);
      case SendMove => if h.lock.Drained? { SendKeeps(h); }
      case PushedMove => PushedKeeps(h);
      case CloseMove(sub) => CloseKeeps(h, sub);
      case DeletedMove => DeletedKeeps(h);
      case CloseUnlistedMove => if h.lock.Unlisted? { CloseUnlistedKeeps(h); }
      case CreateMove(t) =>
        if h.lock.Free? && IdFor(t) != "" && IdFor(t) !in h.tenants {
          CreateKeeps(h, t.(id := IdFor(t), serial := 1), IdFor(t));
        }
      case UpdateMove(id, t) => if h.lock.Free? { UpdateKeeps(h, id, t); }
      case DeleteMove(id) => if h.lock.Free? { DeleteKeeps(h, id); }
      case SubscribeMove(asked) => if h.lock.Free? { SubscribeKeeps(h, asked); }
      case UnsubscribeMove(asked, sub) => if h.lock.Free? { UnsubscribeKeeps(h, asked, sub); }
    }
  }

  lemma {:induction false} RunKeeps(h: Hub, ms: seq<Move>)
    requires Inv(h)
    ensures Inv(Run(h, ms))
  {
    if ms != [] {
      RunKeeps(h, ms[..|ms| - 1]);
      ApplyKeeps(Run(h, ms[..|ms| - 1]), ms[|ms| - 1]);
    }
  }

  lemma InitInv(h: Hub)
    requires Init(h)
    ensures Inv(h)
  {
  }

  // ---- what every interleaving guarantees ----

  /** No send or close in any run panics, and no send ever blocks the lock holder. */
  lemma NeverStuck(h: Hub, ms: seq<Move>)
    requires Init(h)
    ensures Run(h, ms).lock != Panicked && Run(h, ms).lock != Blocked
  {
    InitInv(h);
    RunKeeps(h, ms);
  }

  /** Whenever the lock is free a channel is open exactly while it is registered. */
  lemma OpenIffRegistered(h: Hub, ms: seq<Move>, ch: nat)
    requires Init(h) && Run(h, ms).lock.Free? && ch < |Run(h, ms).watchers|
    ensures !Run(h, ms).watchers[ch].closed <==> Registered(Run(h, ms), ch)
  {
    InitInv(h);
    RunKeeps(h, ms);
    assert Open(Run(h, ms), ch);
  }

  /**
    Whenever the lock is free, a registered watcher has the current set waiting with a
    larger serial than it last saw, or an empty slot and the current set as the last it saw.
   */
  lemma NoLatestUpdateLost(h: Hub, ms: seq<Move>, ch: nat)
    requires Init(h) && Run(h, ms).lock.Free? && Registered(Run(h, ms), ch)
    ensures var end := Run(h, ms);
            var w, t := end.watchers[ch], end.tenants[end.watchers[ch].home].t;
            var x := RouteSet(t.allowedIPs, t.dns, t.serial);
            && w.seen != []
            && ((w.slot == Some(x) && Last(w).serial < x.serial) || (w.slot == None && Last(w) == x))
  {
    InitInv(h);
    RunKeeps(h, ms);
    assert Served(Run(h, ms), ch);
  }

  /** In every state of every run, what each watcher received has strictly increasing serials. */
  lemma SerialsIncrease(h: Hub, ms: seq<Move>, ch: nat)
    requires Init(h) && ch < |Run(h, ms).watchers|
    ensures Increasing(Run(h, ms).watchers[ch].seen)
  {
    InitInv(h);
    RunKeeps(h, ms);
    assert Served(Run(h, ms), ch);
  }

  // ---- unsubscribing ----

  /** An unsubscription from start to end. */
  function Unsubscribed(h: Hub, asked: string, sub: nat): Hub {
    Apply(Apply(h, UnsubscribeMove(asked, sub)), CloseUnlistedMove)
  }

  /**
    An unsubscription under the tenant the watcher asked for ends its registration if and
    only if that name still stands for the tenant it was put under; no other is touched.
   */
  lemma UnsubscribeEndsIff(h: Hub, ch: nat)
    requires Inv(h) && h.lock.Free? && ch < |h.watchers|
    ensures var w := h.watchers[ch];
            var h' := Unsubscribed(h, w.asked, w.sub);
            && h'.lock.Free? && |h'.watchers| == |h.watchers|
            && (Registered(h', ch) <==> Registered(h, ch) && Resolve(h.tenants, w.asked) != w.home)
            && (forall c | 0 <= c < |h.watchers| && c != ch ::
                  (Registered(h', c) <==> Registered(h, c)) && h'.watchers[c] == h.watchers[c])
  {
    var w := h.watchers[ch];
    var h1 := Apply(h, UnsubscribeMove(w.asked, w.sub));
    UnsubscribeKeeps(h, w.asked, w.sub);
    var home := Resolve(h.tenants, w.asked);
    if h1 != h {
      assert Lists(h.tenants, home, w.sub);
      assert forall i, s :: Lists(h1.tenants, i, s) <==> Lists(h.tenants, i, s) && !(i == home && s == w.sub);
      CloseUnlistedKeeps(h1);
    }
  }

  /** A watcher's name, home and id never change. */
  lemma {:induction false} IdentityIsStable(h: Hub, ms: seq<Move>, ch: nat)
    requires ch < |h.watchers|
    ensures ch < |Run(h, ms).watchers|
    ensures var w, w' := h.watchers[ch], Run(h, ms).watchers[ch];
            w'.asked == w.asked && w'.home == w.home && w'.sub == w.sub
  {
    if ms != [] {
      var before := Run(h, ms[..|ms| - 1]);
      IdentityIsStable(h, ms[..|ms| - 1], ch);
      ApplyKeepsIdentity(before, ms[|ms| - 1], ch);
    }
  }

  lemma ApplyKeepsIdentity(h: Hub, m: Move, ch: nat)
    requires ch < |h.watchers|
    ensures ch < |Apply(h, m).watchers|
    ensures var w, w' := h.watchers[ch], Apply(h, m).watchers[ch];
            w'.asked == w.asked && w'.home == w.home && w'.sub == w.sub
  {
  }

  ghost predicate Gone(h: Hub, ch: nat) {
    ch < |h.watchers| && !Registered(h, ch) && h.watchers[ch].closed
  }

  /**
    A watcher that subscribed while its tenant existed is gone once it unsubscribes, whatever
    any interleaving did in between: kept, deleted or recreated the tenant.
   */
  lemma WatcherIsGone(h: Hub, ms: seq<Move>, asked: string)
    requires Inv(h) && h.lock.Free? && asked in h.tenants
    requires Run(Subscribe(h, asked), ms).lock.Free?
    ensures var ch := |h.watchers|;
            var end := Run(Subscribe(h, asked), ms);
            Gone(Unsubscribed(end, asked, h.nextSub), ch)
  {
    var ch := |h.watchers|;
    var h1 := Subscribe(h, asked);
    SubscribeKeeps(h, asked);
    RunKeeps(h1, ms);
    IdentityIsStable(h1, ms, ch);
    var end := Run(h1, ms);
    UnsubscribeEndsIff(end, ch);
    var gone := Unsubscribed(end, asked, h.nextSub);
    ApplyKeeps(end, UnsubscribeMove(asked, h.nextSub));
    ApplyKeeps(Apply(end, UnsubscribeMove(asked, h.nextSub)), CloseUnlistedMove);
    assert Open(gone, ch);
  }

  /** One that subscribed to a name not yet taken stays registered if a tenant takes the name first. */
  lemma WatcherIsLeaked(h: Hub, t: Tenant)
    requires Inv(h) && h.lock.Free? && IdFor(t) != "" && IdFor(t) !in h.tenants
    ensures var id, ch := IdFor(t), |h.watchers|;
            var end := Apply(Subscribe(h, id), CreateMove(t));
            ch < |end.watchers| && Registered(Unsubscribed(end, id, h.nextSub), ch)
  {
    var id, ch := IdFor(t), |h.watchers|;
    var h1 := Subscribe(h, id);
    SubscribeKeeps(h, id);
    var end := Apply(h1, CreateMove(t));
    ApplyKeeps(h1, CreateMove(t));
    assert Lists(end.tenants, DEFAULT_ID, ch);
    UnsubscribeEndsIff(end, ch);
  }
}

/**
  The tenant store as it runs: each method takes the lock, works on the tenants and their
  channels one operation at a time, and lets any receivers run in between. `turns` says
  which receivers run at each point; every method is a run of the broadcast protocol.
 */
module TenantStore {
  import opened Wrappers
  import opened Tenancy
  import opened Broadcast
  import opened BroadcastProof
  import opened Rules

  lemma RunOne(h: Hub, m: Move)
    ensures Run(h, [m]) == Apply(h, m)
  {
    assert [m][..0] == [];
  }

  lemma {:induction false} RunAppend(h: Hub, a: seq<Move>, b: seq<Move>)
    ensures Run(h, a + b) == Run(Run(h, a), b)
  {
    if b == [] {
      assert a + b == a;
    } else {
      var n := |b| - 1;
      RunAppend(h, a, b[..n]);
      assert (a + b)[..|a + b| - 1] == a + b[..n];
      assert (a + b)[|a + b| - 1] == b[n];
    }
  }

  lemma RunThen(h: Hub, ms: seq<Move>, m: Move)
    ensures Run(h, ms + [m]) == Apply(Run(h, ms), m)
  {
    RunAppend(h, ms, [m]);
    RunOne(Run(h, ms), m);
  }

  /** A channel the lock holder has still to do is the one listed, and open. */
  lemma OpenTarget(h: Hub, sub: nat)
    requires Inv(h) && (h.lock.Pushing? || h.lock.Closing?) && sub in h.lock.todo
    ensures Channel(h, h.lock.id, sub) == Some(sub) && !h.watchers[sub].closed
  {
    assert Lists(h.tenants, h.lock.id, sub);
    assert Registered(h, sub) && Open(h, sub);
  }

  function TableOf(tenants: map<string, TenantState>): Tenancy.Table {
    map id <- tenants :: tenants[id].t
  }

  lemma TablePut(tenants: map<string, TenantState>, id: string, st: TenantState)
    ensures TableOf(tenants[id := st]) == TableOf(tenants)[id := st.t]
  {
  }

  lemma TableFile(tenants: map<string, TenantState>, t: Tenant, id: string)
    ensures id == "" || id in tenants ==> File(TableOf(tenants), t, id) == TableOf(tenants)
    ensures id != "" && id !in tenants ==>
              File(TableOf(tenants), t, id) == TableOf(tenants[id := TenantState(t.(id := id, serial := 1), map[])])
  {
    TablePut(tenants, id, TenantState(t.(id := id, serial := 1), map[]));
  }

  /** Receives only empty slots and close nothing. */
  ghost predicate OnlyReceived(ws: seq<Watcher>, ws': seq<Watcher>) {
    && |ws'| == |ws|
    && forall ch | 0 <= ch < |ws| :: ws'[ch].closed == ws[ch].closed && (ws[ch].slot == None ==> ws'[ch].slot == None)
  }

  method NameFor(t: Tenant) returns (id: string)
    ensures id == IdFor(t)
  {
    id := ComputeSlug(t.id);
    if id == "" {
      id := ComputeSlug(t.name);
    }
  }

  // ---- what updates and deletions come to ----

  /** The set waits in the channel, or it was the last one the watcher saw. */
  ghost predicate Holds(w: Watcher, x: RouteSet) {
    w.slot == Some(x) || (w.slot == None && w.seen != [] && w.seen[|w.seen| - 1] == x)
  }

  /** With the lock free, every watcher of a tenant has its current set, field by field. */
  lemma WatchersHave(h: Hub, id: string, t: Tenant)
    requires Inv(h) && h.lock.Free? && id in h.tenants && h.tenants[id].t == t
    ensures forall ch: nat | Registered(h, ch) && h.watchers[ch].home == id ::
              Holds(h.watchers[ch], RouteSet(t.allowedIPs, t.dns, t.serial))
  {
    forall ch: nat | Registered(h, ch) && h.watchers[ch].home == id
      ensures Holds(h.watchers[ch], RouteSet(t.allowedIPs, t.dns, t.serial))
    {
      assert Served(h, ch);
    }
  }

  /** A run that ends with one tenant fewer has closed that tenant's channels and no others. */
  lemma DeletedCloses(h: Hub, ms: seq<Move>, id: string)
    requires Inv(h) && h.lock.Free? && Inv(Run(h, ms)) && Run(h, ms).lock.Free?
    requires Run(h, ms).tenants == h.tenants - {id} && |Run(h, ms).watchers| == |h.watchers|
    ensures forall ch | 0 <= ch < |h.watchers| ::
              Run(h, ms).watchers[ch].closed <==> h.watchers[ch].closed || h.watchers[ch].home == id
  {
    var h' := Run(h, ms);
    forall ch | 0 <= ch < |h.watchers| ensures h'.watchers[ch].closed <==> h.watchers[ch].closed || h.watchers[ch].home == id {
      IdentityIsStable(h, ms, ch);
      ClosedUnless(h, h', id, ch);
    }
  }

  lemma ClosedUnless(h: Hub, h': Hub, id: string, ch: nat)
    requires OpenWhileRegistered(h) && h.lock.Free? && OpenWhileRegistered(h') && h'.lock.Free?
    requires h'.tenants == h.tenants - {id} && ch < |h.watchers| == |h'.watchers|
    requires h'.watchers[ch].home == h.watchers[ch].home && h'.watchers[ch].sub == h.watchers[ch].sub
    ensures h'.watchers[ch].closed <==> h.watchers[ch].closed || h.watchers[ch].home == id
  {
    assert Open(h, ch) && Open(h', ch);
  }

  // ---- how many channels are open ----

  ghost function OpenChannels(h: Hub): set<nat> {
    set ch | 0 <= ch < |h.watchers| && !h.watchers[ch].closed
  }

  /** The move is a subscription that goes through. */
  predicate Opens(h: Hub, m: Move) {
    m.SubscribeMove? && h.lock.Free?
  }

  /** The move closes a channel, for a deleted tenant or an unsubscription. */
  predicate Closes(h: Hub, m: Move) {
    || (m.CloseMove? && h.lock.Closing? && m.sub in h.lock.todo)
    || (m.CloseUnlistedMove? && h.lock.Unlisted?)
  }

  lemma SubscribeOpens(h: Hub, asked: string)
    requires Inv(h) && h.lock.Free?
    ensures |OpenChannels(Apply(h, SubscribeMove(asked)))| == |OpenChannels(h)| + 1
  {
    var ws, ws' := h.watchers, Apply(h, SubscribeMove(asked)).watchers;
    assert ws' == ws + [ws'[|ws|]] && !ws'[|ws|].closed;
    assert OpenChannels(Apply(h, SubscribeMove(asked))) == OpenChannels(h) + {|h.watchers|};
  }

  lemma CloseCloses(h: Hub, m: Move)
    requires Inv(h) && Closes(h, m)
    ensures |OpenChannels(Apply(h, m))| == |OpenChannels(h)| - 1
  {
    if m.CloseMove? {
      OpenTarget(h, m.sub);
    } else {
      CloseUnlistedKeeps(h);
    }
    var ch := if m.CloseMove? then m.sub else h.lock.ch;
    assert ch in OpenChannels(h);
    assert OpenChannels(Apply(h, m)) == OpenChannels(h) - {ch};
  }

  lemma OthersKeepOpen(h: Hub, m: Move)
    requires Inv(h) && !Opens(h, m) && !Closes(h, m)
    ensures OpenChannels(Apply(h, m)) == OpenChannels(h)
  {
  }

  ghost function Count(h: Hub, ms: seq<Move>, what: (Hub, Move) -> bool): nat {
    if ms == [] then 0
    else
      var n := |ms| - 1;
      Count(h, ms[..n], what) + if what(Run(h, ms[..n]), ms[n]) then 1 else 0
  }

  /** In every run the open channels are the subscriptions so far less the closes so far: none is lost or closed twice. */
  lemma {:induction false} OpenIsSubscribedLessClosed(h: Hub, ms: seq<Move>)
    requires Init(h)
    ensures |OpenChannels(Run(h, ms))| == Count(h, ms, Opens) - Count(h, ms, Closes)
  {
    if ms == [] {
      assert OpenChannels(h) == {};
    } else {
      var n := |ms| - 1;
      OpenIsSubscribedLessClosed(h, ms[..n]);
      InitInv(h);
      RunKeeps(h, ms[..n]);
      var before := Run(h, ms[..n]);
      if Opens(before, ms[n]) {
        SubscribeOpens(before, ms[n].asked);
      } else if Closes(before, ms[n]) {
        CloseCloses(before, ms[n]);
      } else {
        OthersKeepOpen(before, ms[n]);
      }
    }
  }

  class Store {
    var tenants: map<string, TenantState>
    var nextSub: nat
    /** The channels, each with the receiver at its other end. */
    var watchers: seq<Watcher>
    var lock: Lock

    ghost function View(): Hub
      reads this
    {
      Hub(tenants, nextSub, watchers, lock)
    }

    ghost predicate Valid()
      reads this
    {
      Inv(View()) && lock.Free?
    }

    /** The tenants without their watchers. */
    function Table(): Tenancy.Table
      reads this
    {
      TableOf(tenants)
    }

    constructor (allowedIPs: seq<string>, dns: seq<string>)
      ensures Valid() && Init(View())
      ensures Table() == map[DEFAULT_ID := Tenant(DEFAULT_ID, "Default", [], [], [], allowedIPs, dns, 1)]
    {
      tenants := map[DEFAULT_ID := TenantState(Tenant(DEFAULT_ID, "Default", [], [], [], allowedIPs, dns, 1), map[])];
      nextSub, watchers, lock := 0, [], Free;
      new;
      InitInv(View());
    }

    // ---- channels ----

    /** Sending needs an open channel, or it panics, and an empty one, or it blocks. */
    method SendOn(ch: nat, x: RouteSet)
      requires ch < |watchers| && !watchers[ch].closed && watchers[ch].slot == None
      modifies this`watchers
      ensures watchers == old(watchers)[ch := old(watchers)[ch].(slot := Some(x))]
    {
      watchers := watchers[ch := watchers[ch].(slot := Some(x))];
    }

    /** Closing needs an open channel, or it panics. */
    method CloseChannel(ch: nat)
      requires ch < |watchers| && !watchers[ch].closed
      modifies this`watchers
      ensures watchers == old(watchers)[ch := old(watchers)[ch].(closed := true)]
    {
      watchers := watchers[ch := watchers[ch].(closed := true)];
    }

    /** The receivers of `turn` receive, one after the other; none of them needs the lock. */
    method Receivers(turn: seq<nat>) returns (ghost ms: seq<Move>)
      modifies this`watchers
      ensures View() == Run(old(View()), ms)
      ensures OnlyReceived(old(watchers), watchers)
    {
      ms := [];
      for i := 0 to |turn|
        invariant View() == Run(old(View()), ms)
        invariant OnlyReceived(old(watchers), watchers)
      {
        RunThen(old(View()), ms, ReceiveMove(turn[i]));
        ReceiveOne(turn[i]);
        ms := ms + [ReceiveMove(turn[i])];
      }
    }

    method ReceiveOne(ch: nat)
      modifies this`watchers
      ensures View() == Apply(old(View()), ReceiveMove(ch)) && OnlyReceived(old(watchers), watchers)
    {
      if ch < |watchers| {
        watchers := watchers[ch := Receive(watchers[ch])];
      }
    }

    // ---- the store's methods ----

    method Subscribe(asked: string) returns (sub: nat, ch: nat, cur: RouteSet)
      requires Valid()
      modifies this
      ensures Valid() && View() == Apply(old(View()), SubscribeMove(asked))
      ensures sub == old(nextSub) && ch == |old(watchers)|
      ensures var home := if asked in old(tenants) then asked else DEFAULT_ID;
              var t := old(tenants)[home].t;
              && cur == RouteSet(t.allowedIPs, t.dns, t.serial)
              && watchers == old(watchers) + [Watcher(asked, home, sub, None, false, [cur])]
              && Lists(tenants, home, sub)
      ensures Table() == old(Table())
    {
      SubscribeKeeps(View(), asked);
      var home := if asked in tenants then asked else DEFAULT_ID;
      var st := tenants[home];
      sub, ch, cur := nextSub, |watchers|, Routes(st.t);
      nextSub := nextSub + 1;
      watchers := watchers + [Watcher(asked, home, sub, None, false, [cur])];
      tenants := tenants[home := st.(subs := st.subs[sub := ch])];
    }

    method Unsubscribe(asked: string, sub: nat)
      requires Valid()
      modifies this
      ensures Valid() && View() == Unsubscribed(old(View()), asked, sub)
      ensures Table() == old(Table())
    {
      UnsubscribeKeeps(View(), asked, sub);
      var home := if asked in tenants then asked else DEFAULT_ID;
      var st := tenants[home];
      if sub in st.subs {
        var ch := st.subs[sub];
        tenants := tenants[home := st.(subs := st.subs - {sub})];
        lock := Unlisted(ch);
        ghost var was := View();
        assert was == Apply(old(View()), UnsubscribeMove(asked, sub));
        CloseUnlistedKeeps(was);
        CloseChannel(ch);
        lock := Free;
      }
    }

    method Create(t: Tenant) returns (r: Option<Tenant>)
      requires Valid()
      modifies this
      ensures Valid() && View() == Apply(old(View()), CreateMove(t))
      ensures Table() == Tenancy.Create(old(Table()), t)
      ensures r.Some? <==> IdFor(t) != "" && IdFor(t) !in old(tenants)
      ensures r.Some? ==> Carries(r.value, t, IdFor(t), 1) && IdFor(t) in tenants && tenants[IdFor(t)] == TenantState(r.value, map[])
      ensures forall id <- old(tenants) :: id in tenants && tenants[id] == old(tenants)[id]
    {
      var id := NameFor(t);
      TableFile(tenants, t, id);
      if id == "" || id in tenants {
        return None;
      }
      var t' := t.(id := id, serial := 1);
      CreateKeeps(View(), t', id);
      tenants := tenants[id := TenantState(t', map[])];
      return Some(t');
    }

    /**
      Replaces a tenant, bumps its serial and pushes the new set: drains and refills each
      watcher's channel, with receivers running before and between the two operations.
     */
    method Update(id: string, u: Tenant, turns: nat -> seq<nat>) returns (r: Option<Tenant>, ghost ms: seq<Move>)
      requires Valid()
      modifies this
      ensures Valid() && View() == Run(old(View()), ms)
      ensures Table() == Tenancy.Update(old(Table()), id, u)
      ensures r.Some? <==> id in old(tenants)
      ensures r.Some? ==>
                && id in tenants && tenants[id].t == r.value
                && Carries(r.value, u, old(tenants)[id].t.id, old(tenants)[id].t.serial + 1)
      ensures r.Some? ==> forall ch: nat | Registered(View(), ch) && watchers[ch].home == id ::
                Holds(watchers[ch], RouteSet(u.allowedIPs, u.dns, old(tenants)[id].t.serial + 1))
      ensures forall other <- old(tenants) | other != id :: other in tenants && tenants[other] == old(tenants)[other]
    {
      if id !in tenants {
        return None, [];
      }
      var st := tenants[id];
      var t' := Updated(st.t, u);
      TablePut(tenants, id, st.(t := t'));
      RunOne(View(), UpdateMove(id, u));
      UpdateKeeps(View(), id, u);
      tenants := tenants[id := st.(t := t')];
      lock := Pushing(id, Routes(t'), st.subs.Keys);
      r, ms := Some(t'), [UpdateMove(id, u)];
      ghost var ms' := Push(id, Routes(t'), st.subs.Keys, turns);
      RunAppend(old(View()), ms, ms');
      ms := ms + ms';
      RunKeeps(old(View()), ms);
      WatchersHave(View(), id, t');
    }

    /** `broadcastLocked`, with the channels taken in any order. */
    method Push(id: string, x: RouteSet, subs: set<nat>, turns: nat -> seq<nat>) returns (ghost ms: seq<Move>)
      requires Inv(View()) && lock == Pushing(id, x, subs)
      modifies this`watchers, this`lock
      ensures lock == Free && View() == Run(old(View()), ms)
    {
      ms := [];
      var left, n := subs, 0;
      while left != {}
        invariant lock == Pushing(id, x, left)
        invariant View() == Run(old(View()), ms)
        decreases left
      {
        ghost var ms' := Receivers(turns(n));
        RunAppend(old(View()), ms, ms');
        ms := ms + ms';
        var sub :| sub in left;
        RunKeeps(old(View()), ms);
        OpenTarget(View(), sub);
        ms' := PushOne(id, x, left, sub, turns(n + 1));
        RunAppend(old(View()), ms, ms');
        ms := ms + ms';
        left, n := left - {sub}, n + 2;
      }
      RunThen(old(View()), ms, PushedMove);
      ms := ms + [PushedMove];
      lock := Free;
    }

    /** One channel of a broadcast: empty it, let receivers run, and send. */
    method PushOne(id: string, x: RouteSet, todo: set<nat>, sub: nat, turn: seq<nat>) returns (ghost ms: seq<Move>)
      requires lock == Pushing(id, x, todo) && sub in todo
      requires Channel(View(), id, sub) == Some(sub) && !watchers[sub].closed
      modifies this`watchers, this`lock
      ensures lock == Pushing(id, x, todo - {sub}) && View() == Run(old(View()), ms)
    {
      var ch := tenants[id].subs[sub];
      RunOne(View(), DrainMove(sub));
      watchers := watchers[ch := watchers[ch].(slot := None)];
      lock := Drained(id, x, todo - {sub}, ch);
      ms := [DrainMove(sub)];
      ghost var ms' := Receivers(turn);
      RunAppend(old(View()), ms, ms');
      ms := ms + ms';
      RunThen(old(View()), ms, SendMove);
      SendOn(ch, x);
      lock := Pushing(id, x, todo - {sub});
      ms := ms + [SendMove];
    }

    /** Closes every watcher's channel, then drops the tenant; never the default one. */
    method Delete(id: string, turns: nat -> seq<nat>) returns (ok: bool, ghost ms: seq<Move>)
      requires Valid()
      modifies this
      ensures Valid() && View() == Run(old(View()), ms)
      ensures Table() == Tenancy.Delete(old(Table()), id)
      ensures ok <==> id != DEFAULT_ID && id in old(tenants)
      ensures tenants == if ok then old(tenants) - {id} else old(tenants)
      ensures |watchers| == |old(watchers)|
      ensures forall ch | 0 <= ch < |watchers| :: watchers[ch].closed <==> old(watchers)[ch].closed || (ok && old(watchers)[ch].home == id)
    {
      if id == DEFAULT_ID || id !in tenants {
        return false, [];
      }
      ok, ms := true, [DeleteMove(id)];
      RunOne(View(), DeleteMove(id));
      DeleteKeeps(View(), id);
      lock := Closing(id, tenants[id].subs.Keys);
      ghost var ms' := CloseAll(id, tenants[id].subs.Keys, turns);
      RunAppend(old(View()), ms, ms');
      ms := ms + ms';
      RunThen(old(View()), ms, DeletedMove);
      ms := ms + [DeletedMove];
      tenants := tenants - {id};
      lock := Free;
      RunKeeps(old(View()), ms);
      DeletedCloses(old(View()), ms, id);
    }

    /** Closes the channels of a tenant being deleted, in any order, with receivers running in between. */
    method CloseAll(id: string, subs: set<nat>, turns: nat -> seq<nat>) returns (ghost ms: seq<Move>)
      requires Inv(View()) && lock == Closing(id, subs)
      modifies this`watchers, this`lock
      ensures lock == Closing(id, {}) && View() == Run(old(View()), ms) && |watchers| == |old(watchers)|
    {
      ms := [];
      var left, n := subs, 0;
      while left != {}
        invariant lock == Closing(id, left) && |watchers| == |old(watchers)|
        invariant View() == Run(old(View()), ms)
        decreases left
      {
        ghost var ms' := Receivers(turns(n));
        RunAppend(old(View()), ms, ms');
        ms := ms + ms';
        var sub :| sub in left;
        RunKeeps(old(View()), ms);
        OpenTarget(View(), sub);
        CloseOne(id, left, sub);
        RunThen(old(View()), ms, CloseMove(sub));
        ms := ms + [CloseMove(sub)];
        left, n := left - {sub}, n + 1;
      }
    }

    method CloseOne(id: string, todo: set<nat>, sub: nat)
      requires lock == Closing(id, todo) && sub in todo
      requires Channel(View(), id, sub) == Some(sub) && !watchers[sub].closed
      modifies this`watchers, this`lock
      ensures lock == Closing(id, todo - {sub}) && View() == Apply(old(View()), CloseMove(sub))
    {
      CloseChannel(tenants[id].subs[sub]);
      lock := Closing(id, todo - {sub});
    }

    /** The watchers registered across tenants are the channels still open. */
    method WatcherCount() returns (n: nat)
      requires Valid()
      ensures n == |OpenChannels(View())|
    {
      n := 0;
      var left := tenants.Keys;
      ghost var counted: set<nat> := {};
      while left != {}
        invariant left <= tenants.Keys
        invariant n == |counted|
        invariant forall ch :: ch in counted <==> 0 <= ch < |watchers| && Registered(View(), ch) && watchers[ch].home !in left
        decreases left
      {
        var id :| id in left;
        left := left - {id};
        ghost var more := tenants[id].subs.Keys;
        forall ch: nat ensures ch in more <==> Registered(View(), ch) && watchers[ch].home == id {
          assert ch in more <==> Lists(tenants, id, ch);
        }
        assert counted !! more;
        n := n + |tenants[id].subs|;
        counted := counted + more;
      }
      assert counted == OpenChannels(View()) by {
        forall ch | 0 <= ch < |watchers| ensures ch in counted <==> !watchers[ch].closed {
          assert Open(View(), ch);
        }
      }
    }
  }
}

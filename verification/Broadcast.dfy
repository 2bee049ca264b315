/**
  The route broadcast protocol: tenants push route sets to watchers through one-slot
  channels, drained and refilled under the store's lock while receivers run at any moment.
  Every lock holder's loop is split into its channel operations, so a run is an arbitrary
  interleaving of those with the receivers'.
 */
module Broadcast {
  import opened Wrappers
  import opened Tenancy

  datatype RouteSet = RouteSet(allowedIPs: seq<string>, dns: seq<string>, serial: nat)

  function Routes(t: Tenant): RouteSet {
    RouteSet(t.allowedIPs, t.dns, t.serial)
  }

  datatype TenantState = TenantState(t: Tenant, subs: map<nat, nat>)

  /**
    A watcher, numbered by the channel `Subscribe` made for it: the tenant it asked for, the
    one it was put under, its id there, its channel, and what its stream was given so far.
   */
  datatype Watcher = Watcher(
    asked: string, home: string, sub: nat,
    slot: Option<RouteSet>, closed: bool,
    seen: seq<RouteSet>)

  /** Where the holder of the store's lock is, `Free` when nobody holds it. */
  datatype Lock =
    | Free
    | Pushing(id: string, routes: RouteSet, todo: set<nat>)
    | Drained(id: string, routes: RouteSet, todo: set<nat>, ch: nat)
    | Closing(id: string, todo: set<nat>)
    | Unlisted(ch: nat)
    | Panicked
    | Blocked

  datatype Hub = Hub(tenants: map<string, TenantState>, nextSub: nat, watchers: seq<Watcher>, lock: Lock)

  datatype Move =
    | CreateMove(t: Tenant)
    | UpdateMove(id: string, t: Tenant)
    | DeleteMove(id: string)
    | SubscribeMove(asked: string)
    | UnsubscribeMove(asked: string, sub: nat)
    | DrainMove(sub: nat)
    | SendMove
    | PushedMove
    | CloseMove(sub: nat)
    | DeletedMove
    | CloseUnlistedMove
    | ReceiveMove(ch: nat)

  /** An unknown tenant stands for the default one. */
  function Resolve(tenants: map<string, TenantState>, id: string): string {
    if id in tenants then id else DEFAULT_ID
  }

  // ---- channel operations ----

  /** A receive that finds nothing leaves the receiver waiting. */
  function Receive(w: Watcher): Watcher {
    match w.slot
    case None => w
    case Some(x) => w.(slot := None, seen := w.seen + [x])
  }

  /** A send panics on a closed channel and blocks on a full one. */
  function Send(h: Hub, ch: nat, x: RouteSet, next: Lock): Hub
    requires ch < |h.watchers|
  {
    var w := h.watchers[ch];
    if w.closed then h.(lock := Panicked)
    else if w.slot.Some? then h.(lock := Blocked)
    else h.(watchers := h.watchers[ch := w.(slot := Some(x))], lock := next)
  }

  /** Closing a closed channel panics; a value in the slot can still be received. */
  function Close(h: Hub, ch: nat, next: Lock): Hub
    requires ch < |h.watchers|
  {
    if h.watchers[ch].closed then h.(lock := Panicked)
    else h.(watchers := h.watchers[ch := h.watchers[ch].(closed := true)], lock := next)
  }

  // ---- the methods of the store, up to their first channel operation ----

  function Subscribe(h: Hub, asked: string): Hub
    requires DEFAULT_ID in h.tenants
  {
    var home := Resolve(h.tenants, asked);
    var st := h.tenants[home];
    h.(tenants := h.tenants[home := st.(subs := st.subs[h.nextSub := |h.watchers|])],
       nextSub := h.nextSub + 1,
       watchers := h.watchers + [Watcher(asked, home, h.nextSub, None, false, [Routes(st.t)])])
  }

  function Unsubscribe(h: Hub, asked: string, sub: nat): Hub
    requires DEFAULT_ID in h.tenants
  {
    var home := Resolve(h.tenants, asked);
    var st := h.tenants[home];
    if sub !in st.subs then h
    else h.(tenants := h.tenants[home := st.(subs := st.subs - {sub})], lock := Unlisted(st.subs[sub]))
  }

  function StartUpdate(h: Hub, id: string, t: Tenant): Hub {
    if id !in h.tenants then h
    else
      var st := h.tenants[id];
      var t' := Updated(st.t, t);
      h.(tenants := h.tenants[id := st.(t := t')], lock := Pushing(id, Routes(t'), st.subs.Keys))
  }

  function StartDelete(h: Hub, id: string): Hub {
    if id == DEFAULT_ID || id !in h.tenants then h
    else h.(lock := Closing(id, h.tenants[id].subs.Keys))
  }

  function Create(h: Hub, t: Tenant): Hub {
    var id := IdFor(t);
    if id == "" || id in h.tenants then h
    else h.(tenants := h.tenants[id := TenantState(t.(id := id, serial := 1), map[])])
  }

  // ---- one move; a move that is not enabled changes nothing ----

  function Channel(h: Hub, id: string, sub: nat): Option<nat> {
    if id in h.tenants && sub in h.tenants[id].subs && h.tenants[id].subs[sub] < |h.watchers|
    then Some(h.tenants[id].subs[sub]) else None
  }

  function Drain(h: Hub, sub: nat): Hub {
    if h.lock.Pushing? && sub in h.lock.todo && Channel(h, h.lock.id, sub).Some? then
      var ch := Channel(h, h.lock.id, sub).value;
      h.(watchers := h.watchers[ch := h.watchers[ch].(slot := None)],
         lock := Drained(h.lock.id, h.lock.routes, h.lock.todo - {sub}, ch))
    else h
  }

  function CloseNext(h: Hub, sub: nat): Hub {
    if h.lock.Closing? && sub in h.lock.todo && Channel(h, h.lock.id, sub).Some?
    then Close(h, Channel(h, h.lock.id, sub).value, Closing(h.lock.id, h.lock.todo - {sub}))
    else h
  }

  function Apply(h: Hub, m: Move): Hub {
    match m
    case ReceiveMove(ch) =>
      if ch < |h.watchers| then h.(watchers := h.watchers[ch := Receive(h.watchers[ch])]) else h
    case DrainMove(sub) => Drain(h, sub)
    case SendMove =>
      if h.lock.Drained? && h.lock.ch < |h.watchers|
      then Send(h, h.lock.ch, h.lock.routes, Pushing(h.lock.id, h.lock.routes, h.lock.todo)) else h
    case PushedMove => if h.lock.Pushing? && h.lock.todo == {} then h.(lock := Free) else h
    case CloseMove(sub) => CloseNext(h, sub)
    case DeletedMove =>
      if h.lock.Closing? && h.lock.todo == {} then h.(tenants := h.tenants - {h.lock.id}, lock := Free) else h
    case CloseUnlistedMove =>
      if h.lock.Unlisted? && h.lock.ch < |h.watchers| then Close(h, h.lock.ch, Free) else h
    case CreateMove(t) => if h.lock.Free? then Create(h, t) else h
    case UpdateMove(id, t) => if h.lock.Free? then StartUpdate(h, id, t) else h
    case DeleteMove(id) => if h.lock.Free? then StartDelete(h, id) else h
    case SubscribeMove(asked) => if h.lock.Free? && DEFAULT_ID in h.tenants then Subscribe(h, asked) else h
    case UnsubscribeMove(asked, sub) => if h.lock.Free? && DEFAULT_ID in h.tenants then Unsubscribe(h, asked, sub) else h
  }

  function Run(h: Hub, ms: seq<Move>): Hub {
    if ms == [] then h else Apply(Run(h, ms[..|ms| - 1]), ms[|ms| - 1])
  }

  predicate Init(h: Hub) {
    && h.tenants.Keys == {DEFAULT_ID} && h.tenants[DEFAULT_ID].subs == map[]
    && h.nextSub == 0 && h.watchers == [] && h.lock.Free?
  }

  // ---- the invariant ----

  ghost predicate Lists(tenants: map<string, TenantState>, id: string, sub: nat) {
    id in tenants && sub in tenants[id].subs
  }

  ghost predicate Registered(h: Hub, ch: nat) {
    ch < |h.watchers| && Lists(h.tenants, h.watchers[ch].home, h.watchers[ch].sub)
  }

  /** Ids and channels are handed out once: whatever a tenant lists is that watcher's own. */
  ghost predicate Listed(h: Hub) {
    && DEFAULT_ID in h.tenants
    && h.nextSub == |h.watchers|
    && (forall ch | 0 <= ch < |h.watchers| :: h.watchers[ch].sub == ch)
    && (forall id, sub: nat | Lists(h.tenants, id, sub) ::
          h.tenants[id].subs[sub] == sub && sub < |h.watchers| && h.watchers[sub].home == id)
  }

  /** The deleter has closed this channel but not yet dropped its tenant. */
  ghost predicate ClosedByDelete(h: Hub, ch: nat) {
    h.lock.Closing? && ch < |h.watchers| && h.watchers[ch].home == h.lock.id && ch !in h.lock.todo
  }

  /** A channel is open exactly while it is registered, but for the one the lock holder is closing. */
  ghost predicate OpenWhileRegistered(h: Hub) {
    forall ch | 0 <= ch < |h.watchers| :: Open(h, ch)
  }

  ghost predicate Open(h: Hub, ch: nat)
    requires ch < |h.watchers|
  {
    !h.watchers[ch].closed <==> (Registered(h, ch) && !ClosedByDelete(h, ch)) || h.lock == Unlisted(ch)
  }

  /** What the lock holder relies on between two of its operations. */
  ghost predicate HolderInv(h: Hub) {
    match h.lock
    case Free => true
    case Pushing(id, x, todo) => Pushes(h, id, x, todo)
    case Drained(id, x, todo, ch) =>
      Pushes(h, id, x, todo) && Lists(h.tenants, id, ch) && ch !in todo && ch < |h.watchers| && h.watchers[ch].slot == None
    case Closing(id, todo) => id in h.tenants && id != DEFAULT_ID && forall sub <- todo :: Lists(h.tenants, id, sub)
    case Unlisted(ch) => ch < |h.watchers| && !Registered(h, ch)
    case Panicked => false
    case Blocked => false
  }

  ghost predicate Pushes(h: Hub, id: string, x: RouteSet, todo: set<nat>) {
    id in h.tenants && x == Routes(h.tenants[id].t) && forall sub <- todo :: Lists(h.tenants, id, sub)
  }

  ghost predicate Increasing(xs: seq<RouteSet>) {
    forall i, j | 0 <= i < j < |xs| :: xs[i].serial < xs[j].serial
  }

  function Last(w: Watcher): RouteSet
    requires w.seen != []
  {
    w.seen[|w.seen| - 1]
  }

  /** Received serials strictly increase, and a waiting one is larger still. */
  ghost predicate InOrder(w: Watcher) {
    && w.seen != []
    && Increasing(w.seen)
    && (w.slot.Some? ==> Last(w).serial < w.slot.value.serial)
  }

  /** The current set x is waiting, or it was the last one received. */
  ghost predicate UpToDate(w: Watcher, x: RouteSet)
    requires w.seen != []
  {
    w.slot == Some(x) || (w.slot == None && Last(w) == x)
  }

  /** All the watcher has, received or waiting, is older than x. */
  ghost predicate Behind(w: Watcher, x: RouteSet)
    requires w.seen != []
  {
    Last(w).serial < x.serial && (w.slot.Some? ==> w.slot.value.serial < x.serial)
  }

  /** The broadcast in progress has still to send to this channel. */
  ghost predicate Awaits(h: Hub, ch: nat) {
    || (h.lock.Pushing? && ch in h.lock.todo)
    || (h.lock.Drained? && (ch in h.lock.todo || ch == h.lock.ch))
  }

  ghost predicate Fresh(h: Hub, ch: nat)
    requires Registered(h, ch) && h.watchers[ch].seen != []
  {
    var x := Routes(h.tenants[h.watchers[ch].home].t);
    if Awaits(h, ch) then Behind(h.watchers[ch], x) else UpToDate(h.watchers[ch], x)
  }

  ghost predicate Served(h: Hub, ch: nat)
    requires ch < |h.watchers|
  {
    InOrder(h.watchers[ch]) && (Registered(h, ch) ==> Fresh(h, ch))
  }

  ghost predicate Delivery(h: Hub) {
    forall ch | 0 <= ch < |h.watchers| :: Served(h, ch)
  }

  ghost predicate Inv(h: Hub) {
    Listed(h) && OpenWhileRegistered(h) && HolderInv(h) && Delivery(h)
  }
}

/**
  The receiving side of the broadcast protocol: a `Watch` call subscribes, sends what its
  channel brings for as long as it lasts, and unsubscribes, while anybody else does
  anything; and whoever holds the store's lock always gets to release it.
 */
module RouteService {
  import opened Wrappers
  import opened Tenancy
  import opened Broadcast
  import opened BroadcastProof
  import opened TenantStore

  /** Anybody else's moves, in any interleaving. */
  method Others(st: Store, moves: seq<Move>)
    modifies st
    ensures st.View() == Run(old(st.View()), moves)
  {
    var h := Run(Hub(st.tenants, st.nextSub, st.watchers, st.lock), moves);
    st.tenants, st.nextSub, st.watchers, st.lock := h.tenants, h.nextSub, h.watchers, h.lock;
  }

  /** The operations the lock holder has still to do. */
  function Remaining(lock: Lock): nat {
    match lock
    case Pushing(_, _, todo) => 2 * |todo| + 1
    case Drained(_, _, todo, _) => 2 * |todo| + 2
    case Closing(_, todo) => |todo| + 1
    case Unlisted(_) => 1
    case _ => 0
  }

  /** The lock holder's next operation. */
  ghost predicate NextOf(lock: Lock, m: Move) {
    match lock
    case Pushing(_, _, todo) => if todo == {} then m == PushedMove else m.DrainMove? && m.sub in todo
    case Drained(_, _, _, _) => m == SendMove
    case Closing(_, todo) => if todo == {} then m == DeletedMove else m.CloseMove? && m.sub in todo
    case Unlisted(_) => m == CloseUnlistedMove
    case _ => false
  }

  lemma DrainProgresses(h: Hub, sub: nat)
    requires Inv(h) && h.lock.Pushing? && sub in h.lock.todo
    ensures Remaining(Apply(h, DrainMove(sub)).lock) < Remaining(h.lock)
  {
    OpenTarget(h, sub);
    assert |h.lock.todo - {sub}| == |h.lock.todo| - 1;
  }

  lemma CloseProgresses(h: Hub, sub: nat)
    requires Inv(h) && h.lock.Closing? && sub in h.lock.todo
    ensures Remaining(Apply(h, CloseMove(sub)).lock) < Remaining(h.lock)
  {
    OpenTarget(h, sub);
    assert |h.lock.todo - {sub}| == |h.lock.todo| - 1;
  }

  /** No operation of the lock holder can hang: each one gets it closer to releasing the lock. */
  lemma HolderProgresses(h: Hub, m: Move)
    requires Inv(h) && NextOf(h.lock, m)
    ensures Remaining(Apply(h, m).lock) < Remaining(h.lock)
  {
    match h.lock {
      case Pushing(_, _, todo) => if todo != {} { DrainProgresses(h, m.sub); }
      case Closing(_, todo) => if todo != {} { CloseProgresses(h, m.sub); }
      case Drained(_, _, _, _) => SendKeeps(h);
      case _ => CloseUnlistedKeeps(h);
    }
  }

  /** Whatever else happens leaves the holder where it is. */
  lemma OthersLeaveTheLock(h: Hub, m: Move)
    requires Inv(h) && !h.lock.Free? && !NextOf(h.lock, m)
    ensures Apply(h, m).lock == h.lock
  {
  }

  /** How many of the moves are, when they are made, the lock holder's next operation. */
  ghost function HolderMoves(h: Hub, ms: seq<Move>): nat {
    if ms == [] then 0
    else
      var n := |ms| - 1;
      HolderMoves(h, ms[..n]) + if NextOf(Run(h, ms[..n]).lock, ms[n]) then 1 else 0
  }

  /** While the lock is held, the holder's moves are counted off what it had to do; anybody's others cost nothing. */
  lemma {:induction false} HeldRunProgresses(h: Hub, ms: seq<Move>)
    requires Inv(h) && forall n: nat | n <= |ms| :: !Run(h, ms[..n]).lock.Free?
    ensures Remaining(Run(h, ms).lock) + HolderMoves(h, ms) <= Remaining(h.lock)
  {
    if ms != [] {
      var last := |ms| - 1;
      var init := ms[..last];
      assert forall n: nat | n <= last :: init[..n] == ms[..n];
      HeldRunProgresses(h, init);
      RunKeeps(h, init);
      assert !Run(h, ms[..last]).lock.Free?;
      if NextOf(Run(h, init).lock, ms[last]) {
        HolderProgresses(Run(h, init), ms[last]);
      } else {
        OthersLeaveTheLock(Run(h, init), ms[last]);
      }
    }
  }

  /**
    In any interleaving at all, once the lock holder has made as many moves as it had
    operations left, the lock has been released.
   */
  lemma HolderFinishes(h: Hub, ms: seq<Move>)
    requires Inv(h) && Remaining(h.lock) <= HolderMoves(h, ms)
    ensures exists n: nat :: n <= |ms| && Run(h, ms[..n]).lock.Free?
  {
    if forall n: nat | n <= |ms| :: !Run(h, ms[..n]).lock.Free? {
      assert ms[..|ms|] == ms;
      RunKeeps(h, ms);
      HeldRunProgresses(h, ms);
    }
  }

  lemma HolderHasNext(h: Hub) returns (m: Move)
    requires Inv(h) && !h.lock.Free?
    ensures NextOf(h.lock, m) && !m.ReceiveMove? && Remaining(Apply(h, m).lock) < Remaining(h.lock)
  {
    match h.lock {
      case Pushing(_, _, todo) =>
        if todo == {} {
          m := PushedMove;
        } else {
          var sub :| sub in todo;
          m := DrainMove(sub);
        }
      case Drained(_, _, _, _) => m := SendMove;
      case Closing(_, todo) =>
        if todo == {} {
          m := DeletedMove;
        } else {
          var sub :| sub in todo;
          m := CloseMove(sub);
        }
      case Unlisted(_) => m := CloseUnlistedMove;
    }
    HolderProgresses(h, m);
  }

  /** From every point the holder can go on to the end, and its own operations are enough. */
  lemma HolderCanFinish(h: Hub) returns (ms: seq<Move>)
    requires Inv(h)
    ensures Run(h, ms).lock.Free? && |ms| <= Remaining(h.lock) && forall m <- ms :: !m.ReceiveMove?
  {
    ms := [];
    while !Run(h, ms).lock.Free?
      invariant |ms| + Remaining(Run(h, ms).lock) <= Remaining(h.lock) && forall m <- ms :: !m.ReceiveMove?
      decreases Remaining(Run(h, ms).lock)
    {
      RunKeeps(h, ms);
      var m := HolderHasNext(Run(h, ms));
      RunThen(h, ms, m);
      ms := ms + [m];
    }
  }

  /** What a watcher was given changes only by its own receives. */
  lemma {:induction false} SeenIsPrivate(h: Hub, ms: seq<Move>, ch: nat)
    requires ch < |h.watchers| && forall m <- ms :: m != ReceiveMove(ch)
    ensures ch < |Run(h, ms).watchers| && Run(h, ms).watchers[ch].seen == h.watchers[ch].seen
  {
    if ms != [] {
      var n := |ms| - 1;
      assert forall m <- ms[..n] :: m in ms;
      SeenIsPrivate(h, ms[..n], ch);
      assert ms[n] in ms;
      OtherMovesKeepSeen(Run(h, ms[..n]), ms[n], ch);
    }
  }

  lemma OtherMovesKeepSeen(h: Hub, m: Move, ch: nat)
    requires ch < |h.watchers| && m != ReceiveMove(ch)
    ensures ch < |Apply(h, m).watchers| && Apply(h, m).watchers[ch].seen == h.watchers[ch].seen
  {
  }

  /** What was sent is what was received, but for the last when its send failed. */
  ghost predicate SentAll(seen: seq<RouteSet>, sent: seq<RouteSet>) {
    sent <= seen && |seen| <= |sent| + 1
  }

  /**
    The loop of `Watch`, over at most `rounds` turns. Before turn i the others move as they
    like; then the stream's context may be found done, whether or not something waits in the
    channel, and a send may fail.
   */
  method Listen(st: Store, ch: nat, rounds: nat, others: nat -> seq<Move>, done: nat -> bool, fails: nat -> bool)
      returns (sent: seq<RouteSet>, ghost ms: seq<Move>)
    requires ch < |st.watchers|
    requires forall i: nat, m <- others(i) :: m != ReceiveMove(ch)
    modifies st
    ensures st.View() == Run(old(st.View()), ms)
    ensures ch < |st.watchers| && SentAll(st.watchers[ch].seen, old(st.watchers)[ch].seen + sent)
    ensures (forall i: nat :: !fails(i)) ==> st.watchers[ch].seen == old(st.watchers)[ch].seen + sent
    ensures rounds > 0 && (forall i: nat :: !fails(i) && !done(i)) ==> st.watchers[ch].slot == None
  {
    sent, ms := [], [];
    for i := 0 to rounds
      invariant st.View() == Run(old(st.View()), ms)
      invariant ch < |st.watchers| && st.watchers[ch].seen == old(st.watchers)[ch].seen + sent
      invariant i > 0 ==> st.watchers[ch].slot == None
    {
      SeenIsPrivate(st.View(), others(i), ch);
      RunAppend(old(st.View()), ms, others(i));
      Others(st, others(i));
      ms := ms + others(i);
      if done(i) {
        break;
      }
      match st.watchers[ch].slot {
        case Some(x) =>
          RunThen(old(st.View()), ms, ReceiveMove(ch));
          st.watchers := st.watchers[ch := Receive(st.watchers[ch])];
          ms := ms + [ReceiveMove(ch)];
          if fails(i) {
            break;
          }
          sent := sent + [x];
        case None =>
          if st.watchers[ch].closed {
            break;
          }
      }
    }
  }

  /** The lock is obtained at some moment when nobody holds it, after any moves of the others. */
  ghost predicate Obtains(wait: Hub -> seq<Move>, ch: nat) {
    forall h | Inv(h) :: Run(h, wait(h)).lock.Free? && forall m <- wait(h) :: m != ReceiveMove(ch)
  }

  /** The deferred unsubscription: `wait` is what the others do until this call has the lock. */
  method Leave(st: Store, asked: string, sub: nat, ch: nat, wait: Hub -> seq<Move>) returns (ghost ms: seq<Move>)
    requires Inv(st.View()) && ch < |st.watchers| && Obtains(wait, ch)
    modifies st
    ensures st.Valid()
    ensures Run(old(st.View()), ms).lock.Free? && st.View() == Unsubscribed(Run(old(st.View()), ms), asked, sub)
    ensures ch < |st.watchers| && st.watchers[ch].seen == old(st.watchers)[ch].seen
  {
    var moves := wait(Hub(st.tenants, st.nextSub, st.watchers, st.lock));
    ms := moves;
    SeenIsPrivate(st.View(), ms, ch);
    RunKeeps(st.View(), ms);
    Others(st, moves);
    SeenIsPrivate(st.View(), [UnsubscribeMove(asked, sub), CloseUnlistedMove], ch);
    RunUnsubscribed(st.View(), asked, sub);
    st.Unsubscribe(asked, sub);
  }

  /** Nothing waits in the channel, and while it is registered and nobody is at work the last set sent is the current one. */
  ghost predicate CaughtUp(h: Hub, ch: nat, sent: seq<RouteSet>) {
    && ch < |h.watchers| && h.watchers[ch].slot == None && sent != []
    && (h.lock.Free? && Registered(h, ch) ==>
          var t := h.tenants[h.watchers[ch].home].t;
          sent[|sent| - 1] == RouteSet(t.allowedIPs, t.dns, t.serial))
  }

  lemma CatchesUp(h: Hub, ch: nat)
    requires Inv(h) && ch < |h.watchers| && h.watchers[ch].slot == None
    ensures CaughtUp(h, ch, h.watchers[ch].seen)
  {
    assert Served(h, ch);
  }

  /** What `Watch` sends once it has subscribed: the current set, and then what its loop brings. */
  method Stream(st: Store, ch: nat, cur: RouteSet, rounds: nat, others: nat -> seq<Move>,
                done: nat -> bool, firstFails: bool, fails: nat -> bool)
      returns (sent: seq<RouteSet>, ghost ms: seq<Move>)
    requires Inv(st.View()) && ch < |st.watchers| && st.watchers[ch].seen == [cur]
    requires forall i: nat, m <- others(i) :: m != ReceiveMove(ch)
    modifies st
    ensures st.View() == Run(old(st.View()), ms) && ch < |st.watchers|
    ensures sent == [] <==> firstFails
    ensures sent != [] ==> sent[0] == cur
    ensures Increasing(sent) && SentAll(st.watchers[ch].seen, sent)
    ensures !firstFails && (forall i: nat :: !fails(i)) ==> st.watchers[ch].seen == sent
    ensures rounds > 0 && !firstFails && (forall i: nat :: !fails(i) && !done(i)) ==> CaughtUp(st.View(), ch, sent)
  {
    sent, ms := [], [];
    if firstFails {
      return;
    }
    sent, ms := Listen(st, ch, rounds, others, done, fails);
    sent := [cur] + sent;
    RunKeeps(old(st.View()), ms);
    assert Served(st.View(), ch);
    if st.watchers[ch].slot == None {
      CatchesUp(st.View(), ch);
    }
  }

  /**
    A `Watch`. The others do as they like before each turn of its loop and while it waits for
    the lock at the end, but for receiving from the channel this call makes. What it sends
    starts with the set current at its subscription and has strictly increasing serials,
    nothing received is skipped, and when it returns, if the tenant existed when it
    subscribed, its channel is closed and listed nowhere. `end` is where its loop ended: a
    stream that was neither done nor failing has then been sent all there was.
   */
  method Watch(st: Store, asked: string, rounds: nat, others: nat -> seq<Move>, wait: Hub -> seq<Move>,
               done: nat -> bool, firstFails: bool, fails: nat -> bool)
      returns (sent: seq<RouteSet>, ghost end: Hub)
    requires st.Valid()
    requires forall i: nat, m <- others(i) :: m != ReceiveMove(|st.watchers|)
    requires Obtains(wait, |st.watchers|)
    modifies st
    ensures st.Valid()
    ensures sent == [] <==> firstFails
    ensures var t := old(st.tenants)[if asked in old(st.tenants) then asked else DEFAULT_ID].t;
            sent != [] ==> sent[0] == RouteSet(t.allowedIPs, t.dns, t.serial)
    ensures Increasing(sent)
    ensures asked in old(st.tenants) ==> Gone(st.View(), |old(st.watchers)|)
    ensures |old(st.watchers)| < |st.watchers| && SentAll(st.watchers[|old(st.watchers)|].seen, sent)
    ensures !firstFails && (forall i: nat :: !fails(i)) ==> st.watchers[|old(st.watchers)|].seen == sent
    ensures rounds > 0 && !firstFails && (forall i: nat :: !fails(i) && !done(i)) ==> CaughtUp(end, |old(st.watchers)|, sent)
  {
    ghost var h := st.View();
    var sub, ch, cur := st.Subscribe(asked);
    ghost var first := st.View();
    ghost var ms;
    sent, ms := Stream(st, ch, cur, rounds, others, done, firstFails, fails);
    RunKeeps(first, ms);
    end := st.View();
    ghost var rest := Leave(st, asked, sub, ch, wait);
    RunAppend(first, ms, rest);
    if asked in h.tenants {
      WatcherIsGone(h, ms + rest, asked);
    }
  }

  lemma RunUnsubscribed(h: Hub, asked: string, sub: nat)
    ensures Run(h, [UnsubscribeMove(asked, sub), CloseUnlistedMove]) == Unsubscribed(h, asked, sub)
  {
    RunThen(h, [UnsubscribeMove(asked, sub)], CloseUnlistedMove);
    RunOne(h, UnsubscribeMove(asked, sub));
    assert [UnsubscribeMove(asked, sub)] + [CloseUnlistedMove] == [UnsubscribeMove(asked, sub), CloseUnlistedMove];
  }
}

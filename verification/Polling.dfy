/**
  How a signal from the provider becomes a fetch of its key list: the poller of the event
  stream, the loop that fetches the list, and the one-slot kick between them, interleaved
  in any order; and the acknowledgements the poller sends back.
 */
module Polling {
  import opened Wrappers

  /** The fetch loop: about to fetch, fetching, waiting for the ticker or a kick, ended. */
  datatype Fetcher = Due | Fetching | Waiting | Ended

  /** The poller: between polls, waiting for an answer, about to kick, ended. */
  datatype PollerAt = Idle | Asking | Kicking | Over

  datatype Loops = Loops(kick: bool, fetcher: Fetcher, poller: PollerAt, hasStream: bool, acks: seq<string>)

  datatype Move =
    | Ask(setupWorks: bool)
    | Answer(jtis: seq<string>)
    | Fail
    | Kick
    | Start
    | Finish
    | Tick
    | TakeKick
    | StopPolling
    | StopFetching

  const START: Loops := Loops(false, Due, Idle, false, [])

  /** One move of either loop; a move that is not enabled changes nothing. */
  function Apply(s: Loops, m: Move): Loops {
    match m
    case Ask(works) =>
      if !s.poller.Idle? then s
      else if !s.hasStream && !works then s
      else s.(poller := Asking, hasStream := true)
    case Fail => if s.poller.Asking? then s.(poller := Idle, hasStream := false) else s
    case Answer(jtis) =>
      if s.poller.Asking? then s.(acks := jtis, poller := if jtis == [] then Idle else Kicking) else s
    case Kick => if s.poller.Kicking? then s.(kick := true, poller := Idle) else s
    case Start => if s.fetcher.Due? then s.(fetcher := Fetching) else s
    case Finish => if s.fetcher.Fetching? then s.(fetcher := Waiting) else s
    case Tick => if s.fetcher.Waiting? then s.(fetcher := Due) else s
    case TakeKick => if s.fetcher.Waiting? && s.kick then s.(kick := false, fetcher := Due) else s
    case StopPolling => if s.poller.Idle? then s.(poller := Over) else s
    case StopFetching => if s.fetcher.Waiting? then s.(fetcher := Ended) else s
  }

  function At(ms: seq<Move>, n: nat): Loops
    requires n <= |ms|
  {
    if n == 0 then START else Apply(At(ms, n - 1), ms[n - 1])
  }

  // ---- from an event to a fetch ----

  /** Move i brought events. */
  predicate Receives(ms: seq<Move>, i: nat)
    requires i < |ms|
  {
    At(ms, i).poller.Asking? && ms[i].Answer? && ms[i].jtis != []
  }

  /** Move i starts a fetch of the list. */
  predicate Starts(ms: seq<Move>, i: nat)
    requires i < |ms|
  {
    At(ms, i).fetcher.Due? && ms[i].Start?
  }

  /** A fetch is still owed: the kick waits, is about to be sent, or was just taken. */
  predicate Owed(s: Loops) {
    s.kick || s.poller.Kicking? || s.fetcher.Due?
  }

  /** Events received are followed by a fetch that starts after their receipt, or one is still owed. */
  lemma {:induction false} EventsAreServed(ms: seq<Move>, i: nat, n: nat)
    requires i < n <= |ms| && Receives(ms, i)
    ensures Owed(At(ms, n)) || exists j :: i < j < n && Starts(ms, j)
  {
    if i < n - 1 {
      EventsAreServed(ms, i, n - 1);
      if Owed(At(ms, n - 1)) && !Owed(At(ms, n)) {
        assert Starts(ms, n - 1);
      }
    }
  }

  /** At rest, what is owed is the kick in its slot. */
  lemma EventsServedOrKickPending(ms: seq<Move>, i: nat, n: nat)
    requires i < n <= |ms| && Receives(ms, i)
    requires !At(ms, n).poller.Kicking? && !At(ms, n).fetcher.Due?
    ensures At(ms, n).kick || exists j :: i < j < n && Starts(ms, j)
  {
    EventsAreServed(ms, i, n);
  }

  lemma {:induction false} AtPrefix(ms: seq<Move>, more: seq<Move>, n: nat)
    requires n <= |ms|
    ensures At(ms + more, n) == At(ms, n)
  {
    if n > 0 {
      AtPrefix(ms, more, n - 1);
    }
  }

  /** One trip of each loop. */
  const TRIP: seq<Move> := [Kick, Finish, TakeKick, Start]

  /** The loops never starve an event: wherever a run stands, one trip of each more and a fetch has started after its receipt. */
  lemma EventsCanBeServed(ms: seq<Move>, i: nat)
    requires i < |ms| && Receives(ms, i) && !At(ms, |ms|).fetcher.Ended?
    ensures exists j :: i < j < |ms + TRIP| && Starts(ms + TRIP, j)
  {
    var n, longer := |ms|, ms + TRIP;
    EventsAreServed(ms, i, n);
    AtPrefix(ms, TRIP, n);
    if Owed(At(ms, n)) {
      var s := At(ms, n);
      assert At(longer, n + 1) == Apply(s, Kick);
      assert At(longer, n + 2) == Apply(Apply(s, Kick), Finish);
      assert Starts(longer, n + 3);
    } else {
      var j :| i < j < n && Starts(ms, j);
      AtPrefix(ms, TRIP, j);
      assert Starts(longer, j);
    }
  }

  function Count(ms: seq<Move>, n: nat, what: (Loops, Move) -> bool): nat
    requires n <= |ms|
  {
    if n == 0 then 0 else Count(ms, n - 1, what) + if what(At(ms, n - 1), ms[n - 1]) then 1 else 0
  }

  predicate IsStart(s: Loops, m: Move) {
    s.fetcher.Due? && m.Start?
  }

  predicate IsTick(s: Loops, m: Move) {
    s.fetcher.Waiting? && m.Tick?
  }

  predicate IsReceipt(s: Loops, m: Move) {
    s.poller.Asking? && m.Answer? && m.jtis != []
  }

  /** Events buy no more than one extra fetch per poll that brought any, however forged they are. */
  lemma {:induction false} FetchesAreBounded(ms: seq<Move>, n: nat)
    requires n <= |ms|
    ensures var s := At(ms, n);
            Count(ms, n, IsStart) + (if s.fetcher.Due? then 1 else 0) + (if s.kick then 1 else 0) + (if s.poller.Kicking? then 1 else 0)
              <= 1 + Count(ms, n, IsTick) + Count(ms, n, IsReceipt)
  {
    if n > 0 {
      FetchesAreBounded(ms, n - 1);
    }
  }

  predicate IsFinish(s: Loops, m: Move) {
    s.fetcher.Fetching? && m.Finish?
  }

  predicate IsTake(s: Loops, m: Move) {
    s.fetcher.Waiting? && s.kick && m.TakeKick?
  }

  /**
    The fetch loop's accounts: the fetches started, and one if one is due, are the first, one
    for each tick and one for each kick taken; and no fetch starts before the last one is over.
   */
  lemma {:induction false} FetchesAreCounted(ms: seq<Move>, n: nat)
    requires n <= |ms|
    ensures Count(ms, n, IsStart) + (if At(ms, n).fetcher.Due? then 1 else 0) == 1 + Count(ms, n, IsTick) + Count(ms, n, IsTake)
    ensures Count(ms, n, IsStart) == Count(ms, n, IsFinish) + if At(ms, n).fetcher.Fetching? then 1 else 0
  {
    if n > 0 {
      FetchesAreCounted(ms, n - 1);
    }
  }

  // ---- the stream ----

  /** Move i is a poll that goes out. */
  predicate Polls(ms: seq<Move>, i: nat)
    requires i < |ms|
  {
    !At(ms, i).poller.Asking? && ms[i].Ask? && At(ms, i + 1).poller.Asking?
  }

  predicate Fails(ms: seq<Move>, i: nat)
    requires i < |ms|
  {
    At(ms, i).poller.Asking? && ms[i].Fail?
  }

  /** Move i is a poll that went out, and none of the moves after it up to n failed. */
  predicate PolledSince(ms: seq<Move>, i: nat, n: nat)
    requires n <= |ms|
  {
    i < n && Polls(ms, i) && forall j | i < j < n :: !Fails(ms, j)
  }

  /** There is a stream exactly if some poll went out and none has failed since: a failure forgets it. */
  lemma {:induction false} StreamIff(ms: seq<Move>, n: nat)
    requires n <= |ms|
    ensures At(ms, n).hasStream <==> exists i: nat :: PolledSince(ms, i, n)
  {
    if n > 0 {
      var last := n - 1;
      StreamIff(ms, last);
      if i: nat :| PolledSince(ms, i, last) {
        if !Fails(ms, last) {
          assert PolledSince(ms, i, n);
        }
      }
      if Polls(ms, last) {
        assert PolledSince(ms, last, n);
      }
      if i: nat :| PolledSince(ms, i, n) {
        if i < last {
          assert PolledSince(ms, i, last);
        }
      }
    }
  }

  /** A poll goes out exactly if the setup works, or one went out before and none has failed since. */
  lemma PollsIff(ms: seq<Move>, n: nat)
    requires n < |ms| && At(ms, n).poller.Idle? && ms[n].Ask?
    ensures Polls(ms, n) <==> ms[n].setupWorks || exists i: nat :: PolledSince(ms, i, n)
  {
    StreamIff(ms, n);
  }

  // ---- acknowledgements ----

  predicate Answered(ms: seq<Move>, i: nat)
    requires i < |ms|
  {
    At(ms, i).poller.Asking? && ms[i].Answer?
  }

  /** Of the first n moves, move i is the last poll that succeeded. */
  predicate LastAnswer(ms: seq<Move>, n: nat, i: nat)
    requires n <= |ms|
  {
    i < n && Answered(ms, i) && forall j | i < j < n :: !Answered(ms, j)
  }

  /**
    What is to be acknowledged is exactly what the last successful poll brought, kept across
    any failed ones; and a poller back from it has kicked for it in between.
   */
  lemma {:induction false} AcksAreLastAnswer(ms: seq<Move>, n: nat, i: nat)
    requires n <= |ms| && LastAnswer(ms, n, i)
    ensures At(ms, n).acks == ms[i].jtis
    ensures ms[i].jtis != [] && !At(ms, n).poller.Kicking? ==> exists k :: i < k < n && Kicks(ms, k)
  {
    if i < n - 1 {
      AcksAreLastAnswer(ms, n - 1, i);
      assert !Answered(ms, n - 1);
      if At(ms, n - 1).poller.Kicking? && !At(ms, n).poller.Kicking? {
        assert Kicks(ms, n - 1);
      }
    }
  }

  /** Anything to acknowledge comes from some successful poll. */
  lemma {:induction false} AcksHaveAnAnswer(ms: seq<Move>, n: nat) returns (i: nat)
    requires n <= |ms| && At(ms, n).acks != []
    ensures LastAnswer(ms, n, i)
  {
    if Answered(ms, n - 1) {
      i := n - 1;
    } else {
      i := AcksHaveAnAnswer(ms, n - 1);
    }
  }

  /** Move k leaves the kick pending for the events just received. */
  predicate Kicks(ms: seq<Move>, k: nat)
    requires k < |ms|
  {
    At(ms, k).poller.Kicking? && ms[k].Kick? && At(ms, k + 1).kick
  }

  /** Every event a poll acknowledges came in an earlier successful poll that left a kick pending. */
  lemma AcksWereKickedFor(ms: seq<Move>, n: nat, jti: string)
    requires n <= |ms| && At(ms, n).poller.Asking? && jti in At(ms, n).acks
    ensures exists i: nat, k: nat :: i < k < n && Receives(ms, i) && jti in ms[i].jtis && Kicks(ms, k)
  {
    var i := AcksHaveAnAnswer(ms, n);
    AcksAreLastAnswer(ms, n, i);
    assert Receives(ms, i);
    var k :| i < k < n && Kicks(ms, k);
  }

  // ---- the poller itself ----

  /** One turn of the poller as moves: ask, and then fail, or take the answer and kick. */
  function Turned(s: Loops, setupWorks: bool, answered: bool, jtis: seq<string>): Loops {
    var asked := Apply(s, Ask(setupWorks));
    if answered then Apply(Apply(asked, Answer(jtis)), Kick) else Apply(asked, Fail)
  }

  class Poller {
    var acks: seq<string>
    var hasStream: bool
    var kick: bool

    constructor ()
      ensures acks == [] && !hasStream && !kick
    {
      acks, hasStream, kick := [], false, false;
    }

    /**
      `Once`: a poll, after the setup when there is no stream. The answer is None when the call
      fails, else the events it brought; `sent` is what it acknowledged.
     */
    method Once(setupWorks: bool, answer: Option<set<string>>) returns (ok: bool, sent: Option<seq<string>>)
      modifies this
      ensures sent == if old(hasStream) || setupWorks then Some(old(acks)) else None
      ensures ok <==> sent.Some? && answer.Some?
      ensures hasStream == sent.Some?
      ensures !ok ==> acks == old(acks) && kick == old(kick)
      ensures ok ==>
                && (forall jti :: jti in acks <==> jti in answer.value) && |acks| == |answer.value|
                && kick == (old(kick) || answer.value != {})
    {
      if !hasStream {
        if !setupWorks {
          return false, None;
        }
        hasStream := true;
      }
      sent := Some(acks);
      if answer.None? {
        return false, sent;
      }
      acks := [];
      var left := answer.value;
      while left != {}
        invariant hasStream && kick == old(kick) && left <= answer.value
        invariant forall jti :: jti in acks <==> jti in answer.value && jti !in left
        invariant |acks| == |answer.value| - |left|
        decreases left
      {
        var jti :| jti in left;
        acks := acks + [jti];
        left := left - {jti};
      }
      if answer.value != {} {
        kick := true;
      }
      ok := true;
    }

    /** The poller between turns, beside a fetch loop at f. */
    ghost function View(f: Fetcher): Loops
      reads this
    {
      Loops(kick, f, Idle, hasStream, acks)
    }

    /** One turn of `Run`, as moves of the poller; a failed poll forgets the stream, to set it up again. */
    method Turn(setupWorks: bool, answer: Option<set<string>>) returns (ok: bool)
      modifies this
      ensures ok <==> (old(hasStream) || setupWorks) && answer.Some?
      ensures forall f :: View(f) == Turned(old(View(f)), setupWorks, answer.Some?, acks)
      ensures ok ==> hasStream && (forall jti :: jti in acks <==> jti in answer.value) && kick == (old(kick) || answer.value != {})
      ensures !ok ==> !hasStream && acks == old(acks) && kick == old(kick)
    {
      var sent;
      ok, sent := Once(setupWorks, answer);
      if !ok {
        hasStream := false;
      } else {
        assert acks == [] <==> answer.value == {};
      }
    }
  }
}

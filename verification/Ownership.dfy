/** Who holds a key, at which address, and the only ways a key leaves the store. */
module Ownership {
  import opened Ipv4
  import opened Tenancy
  import opened Control
  import opened Joint

  /** The owner's deregistration, a reap at or after the lease's end, or a reconcile that disallows it. */
  ghost predicate Leaves(s: State, e: Event, k: string)
    requires k in s.peers
  {
    match e
    case Deregister(key, claims, _) => key == k && claims.subject == s.peers[k].subject
    case Reap(now, _) => s.peers[k].lease <= now
    case Reconcile(allowed, _) => !allowed(k, s.peers[k].subject)
    case _ => false
  }

  /** A stored key leaves exactly in those three ways, and otherwise keeps its subject and address. */
  lemma KeyKeptIff(cfg: Config, s: State, e: Event, k: string)
    requires k in s.peers
    ensures var s' := Step(cfg, s, e).0;
            && (k in s'.peers <==> !Leaves(s, e, k))
            && (k in s'.peers ==> s'.peers[k].subject == s.peers[k].subject && s'.peers[k].ip == s.peers[k].ip)
  {
    if e.Enroll? {
      EnrollEnds(cfg, s, e);
    }
  }

  /** The event is subject's successful enrollment of a key not enrolled before, at ip. */
  ghost predicate Enters(cfg: Config, s: State, e: Event, k: string, subject: string, ip: Ip4) {
    && k !in s.peers
    && e.Enroll? && e.key == k && e.claims.subject == subject
    && EnrollStep(cfg, s, e).1.Enrolled? && EnrollStep(cfg, s, e).1.ip == ip
  }

  lemma KeyEntersIff(cfg: Config, s: State, e: Event, k: string)
    requires k !in s.peers
    ensures var s' := Step(cfg, s, e).0;
            && (k in s'.peers <==> e.Enroll? && e.key == k && EnrollStep(cfg, s, e).1.Enrolled?)
            && (k in s'.peers ==> Enters(cfg, s, e, k, s'.peers[k].subject, s'.peers[k].ip))
  {
    if e.Enroll? {
      EnrollEnds(cfg, s, e);
    }
  }

  /** While a key stays enrolled its subject and address never change, over any run. */
  lemma {:induction false} HoldingIsStable(cfg: Config, s: State, evs: seq<Event>, i: nat, j: nat, k: string)
    requires i <= j <= |evs|
    requires forall n | i <= n <= j :: k in At(cfg, s, evs, n).peers
    ensures At(cfg, s, evs, j).peers[k].subject == At(cfg, s, evs, i).peers[k].subject
    ensures At(cfg, s, evs, j).peers[k].ip == At(cfg, s, evs, i).peers[k].ip
  {
    if i < j {
      HoldingIsStable(cfg, s, evs, i, j - 1, k);
      RunStep(cfg, s, evs, j - 1);
      KeyKeptIff(cfg, At(cfg, s, evs, j - 1), evs[j - 1], k);
    }
  }

  /** A key that was enrolled and is no longer left by one of the three ways in between. */
  lemma {:induction false} WhyGone(cfg: Config, s: State, evs: seq<Event>, i: nat, j: nat, k: string) returns (n: nat)
    requires i <= j <= |evs|
    requires k in At(cfg, s, evs, i).peers && k !in At(cfg, s, evs, j).peers
    ensures i <= n < j && k in At(cfg, s, evs, n).peers && Leaves(At(cfg, s, evs, n), evs[n], k)
  {
    assert i != j;
    n := j - 1;
    if k in At(cfg, s, evs, n).peers {
      RunStep(cfg, s, evs, n);
      KeyKeptIff(cfg, At(cfg, s, evs, n), evs[n], k);
    } else {
      n := WhyGone(cfg, s, evs, i, n, k);
    }
  }

  /** At point n the key is enrolled to this subject at this address. */
  ghost predicate HeldAt(cfg: Config, s: State, evs: seq<Event>, n: nat, k: string, subject: string, ip: Ip4)
    requires n <= |evs|
  {
    var peers := At(cfg, s, evs, n).peers;
    k in peers && peers[k].subject == subject && peers[k].ip == ip
  }

  ghost predicate EntersAt(cfg: Config, s: State, evs: seq<Event>, n: nat, k: string, subject: string, ip: Ip4)
    requires n < |evs|
  {
    Enters(cfg, At(cfg, s, evs, n), evs[n], k, subject, ip)
  }

  lemma HeldBefore(cfg: Config, s: State, evs: seq<Event>, n: nat, k: string, subject: string, ip: Ip4)
    requires n < |evs| && HeldAt(cfg, s, evs, n + 1, k, subject, ip)
    ensures if k in At(cfg, s, evs, n).peers then HeldAt(cfg, s, evs, n, k, subject, ip) else EntersAt(cfg, s, evs, n, k, subject, ip)
  {
    RunStep(cfg, s, evs, n);
    if k in At(cfg, s, evs, n).peers {
      KeyKeptIff(cfg, At(cfg, s, evs, n), evs[n], k);
    } else {
      KeyEntersIff(cfg, At(cfg, s, evs, n), evs[n], k);
    }
  }

  /** A key that was not enrolled and now is entered by an enrollment in between: its holder's, at the address it has. */
  lemma {:induction false} WhyHere(cfg: Config, s: State, evs: seq<Event>, i: nat, j: nat, k: string, subject: string, ip: Ip4)
    returns (n: nat)
    requires i <= j <= |evs|
    requires k !in At(cfg, s, evs, i).peers && HeldAt(cfg, s, evs, j, k, subject, ip)
    ensures i <= n < j && EntersAt(cfg, s, evs, n, k, subject, ip)
  {
    assert i != j;
    n := j - 1;
    HeldBefore(cfg, s, evs, n, k, subject, ip);
    if k in At(cfg, s, evs, n).peers {
      n := WhyHere(cfg, s, evs, i, n, k, subject, ip);
    }
  }

  // ---- tenants ----

  /** In every run the table keeps the default tenant and files every tenant under its own slug. */
  lemma {:induction false} TableIsFiled(cfg: Config, s: State, evs: seq<Event>)
    requires Init(cfg, s)
    ensures Filed(Run(cfg, s, evs).tenants) && Slugged(Run(cfg, s, evs).tenants)
  {
    if evs != [] {
      var n := |evs| - 1;
      var before := Run(cfg, s, evs[..n]);
      TableIsFiled(cfg, s, evs[..n]);
      TableStep(cfg, before, evs[n]);
    } else {
      SeedTable(s.tenants[DEFAULT_ID]);
      assert s.tenants == map[DEFAULT_ID := s.tenants[DEFAULT_ID]];
    }
  }

  lemma TableStep(cfg: Config, s: State, e: Event)
    requires Filed(s.tenants) && Slugged(s.tenants)
    ensures Filed(Step(cfg, s, e).0.tenants) && Slugged(Step(cfg, s, e).0.tenants)
  {
    match e {
      case CreateTenant(t) => CreateKept(s.tenants, t);
      case UpdateTenant(id, t) => UpdateKept(s.tenants, t, id);
      case DeleteTenant(id) => DeleteKept(s.tenants, id);
      case _ =>
    }
  }

  /** Every enrollment and renewal that succeeds is in an existing tenant the caller then belongs to. */
  lemma SuccessIsMembership(cfg: Config, s: State, evs: seq<Event>, i: nat)
    requires Init(cfg, s) && i < |evs|
    requires evs[i].Enroll? || evs[i].Heartbeat?
    ensures var before := At(cfg, s, evs, i);
            var (after, reply) := Step(cfg, before, evs[i]);
            reply.Enrolled? || reply.Renewed? ==>
              && evs[i].key in after.peers
              && after.peers[evs[i].key].tenant in before.tenants
              && after.peers[evs[i].key].tenant in Memberships(before.tenants, evs[i].claims.member)
  {
    TableIsFiled(cfg, s, evs[..i]);
    MembershipStep(cfg, At(cfg, s, evs, i), evs[i]);
  }

  lemma MembershipStep(cfg: Config, s: State, e: Event)
    requires Filed(s.tenants) && (e.Enroll? || e.Heartbeat?)
    ensures var (s', reply) := Step(cfg, s, e);
            reply.Enrolled? || reply.Renewed? ==>
              && e.key in s'.peers
              && s'.peers[e.key].tenant in s.tenants
              && s'.peers[e.key].tenant in Memberships(s.tenants, e.claims.member)
  {
    if e.Enroll? {
      if Refusal(cfg, s, e).None? {
        assert Choose(s.tenants, e.asked, e.claims.member).Chosen?;
      }
    }
  }
}

/**
  Tenants and who belongs to them: the rules a person is matched on, the identifiers
  tenants are filed under, and the table of tenants with its create, update and delete.
  Strings are ASCII here: trimming, lower-casing and case folding act on ASCII letters.
 */
module Tenancy {
  import opened Wrappers

  const DEFAULT_ID: string := "default"

  datatype Tenant = Tenant(
    id: string, name: string,
    domains: seq<string>, groups: seq<string>, idps: seq<string>,
    allowedIPs: seq<string>, dns: seq<string>,
    serial: nat)

  /** The claims that membership rules look at. */
  datatype Member = Member(email: string, emailVerified: bool, groups: seq<string>, idp: string)

  // ---- strings ----

  const SPACES: set<char> := {' ', '\t', '\n', 11 as char, 12 as char, '\r'}

  const DASH: set<char> := {'-'}

  function TrimLeft(s: string, cut: set<char>): (r: string)
    ensures r != "" ==> r[0] !in cut
    ensures s != "" && s[0] !in cut ==> r == s
    ensures |r| <= |s| && r == s[|s| - |r|..]
  {
    if s == "" || s[0] !in cut then s else TrimLeft(s[1..], cut)
  }

  function TrimRight(s: string, cut: set<char>): (r: string)
    ensures r != "" ==> r[|r| - 1] !in cut
    ensures s != "" && s[|s| - 1] !in cut ==> r == s
    ensures r <= s
  {
    if s == "" || s[|s| - 1] !in cut then s else TrimRight(s[..|s| - 1], cut)
  }

  function Trim(s: string, cut: set<char>): string {
    TrimRight(TrimLeft(s, cut), cut)
  }

  function TrimSpace(s: string): string {
    Trim(s, SPACES)
  }

  function LowerChar(c: char): char {
    if 'A' <= c <= 'Z' then c - 'A' + 'a' else c
  }

  function ToLower(s: string): (r: string)
    ensures |r| == |s| && forall i | 0 <= i < |s| :: r[i] == LowerChar(s[i])
  {
    seq(|s|, i requires 0 <= i < |s| => LowerChar(s[i]))
  }

  predicate EqualFold(a: string, b: string) {
    ToLower(a) == ToLower(b)
  }

  /** The part of an address after its last '@', if it has one. */
  function Domain(email: string): Option<string> {
    if email == "" then None
    else if email[|email| - 1] == '@' then Some("")
    else match Domain(email[..|email| - 1])
      case None => None
      case Some(d) => Some(d + [email[|email| - 1]])
  }

  lemma {:induction false} DomainMeaning(email: string)
    ensures Domain(email).None? <==> '@' !in email
    ensures Domain(email).Some? ==>
              var d := Domain(email).value;
              |d| < |email| && '@' !in d && email == email[..|email| - |d| - 1] + "@" + d
  {
    if email != "" {
      var n := |email| - 1;
      assert email == email[..n] + [email[n]];
      if email[n] != '@' {
        DomainMeaning(email[..n]);
      }
    }
  }

  // ---- slug ----

  predicate IsAlnum(c: char) {
    'a' <= c <= 'z' || '0' <= c <= '9'
  }

  /** What slug writes for one character of the trimmed, lower-cased name. */
  function SlugChar(c: char): string {
    if IsAlnum(c) then [c]
    else if c == ' ' || c == '_' || c == '-' || c == '.' then "-"
    else ""
  }

  function SlugChars(s: string): string {
    if s == "" then "" else SlugChar(s[0]) + SlugChars(s[1..])
  }

  function Slug(s: string): string {
    Trim(SlugChars(ToLower(TrimSpace(s))), DASH)
  }

  method ComputeSlug(s: string) returns (r: string)
    ensures r == Slug(s)
  {
    var b := WriteSlug(ToLower(TrimSpace(s)));
    r := Trim(b, DASH);
  }

  method WriteSlug(t: string) returns (b: string)
    ensures b == SlugChars(t)
  {
    b := "";
    for i := 0 to |t|
      invariant b + SlugChars(t[i..]) == SlugChars(t)
    {
      ghost var was := b;
      if 'a' <= t[i] <= 'z' || '0' <= t[i] <= '9' {
        b := b + [t[i]];
      } else if t[i] == ' ' || t[i] == '_' || t[i] == '-' || t[i] == '.' {
        b := b + ['-'];
      }
      assert b == was + SlugChar(t[i]);
      SlugCharsNext(t, i, was);
    }
  }

  lemma SlugCharsNext(t: string, i: nat, b: string)
    requires i < |t|
    ensures b + SlugChars(t[i..]) == b + SlugChar(t[i]) + SlugChars(t[i + 1..])
  {
    assert t[i..][1..] == t[i + 1..];
  }

  /** Only a-z, 0-9 and '-', with no '-' at either end. */
  predicate SlugShaped(s: string) {
    && (forall c <- s :: IsAlnum(c) || c == '-')
    && (s != "" ==> s[0] != '-' && s[|s| - 1] != '-')
  }

  lemma {:induction false} SlugCharsAlphabet(s: string)
    ensures forall c <- SlugChars(s) :: IsAlnum(c) || c == '-'
    ensures (forall c <- s :: IsAlnum(c) || c == '-') ==> SlugChars(s) == s
  {
    if s != "" {
      SlugCharsAlphabet(s[1..]);
      assert s == [s[0]] + s[1..];
    }
  }

  lemma TrimLeftChars(s: string, cut: set<char>)
    ensures forall c <- TrimLeft(s, cut) :: c in s
  {
    var n := |s| - |TrimLeft(s, cut)|;
    assert forall c <- s[n..] :: c in s;
  }

  lemma TrimRightChars(s: string, cut: set<char>)
    ensures forall c <- TrimRight(s, cut) :: c in s
    ensures TrimRight(s, cut) != "" ==> TrimRight(s, cut)[0] == s[0]
  {
  }

  lemma TrimShape(s: string)
    requires forall c <- s :: IsAlnum(c) || c == '-'
    ensures SlugShaped(Trim(s, DASH))
  {
    TrimLeftChars(s, DASH);
    TrimRightChars(TrimLeft(s, DASH), DASH);
  }

  lemma SlugIsShaped(s: string)
    ensures SlugShaped(Slug(s))
  {
    var t := ToLower(TrimSpace(s));
    SlugCharsAlphabet(t);
    TrimShape(SlugChars(t));
  }

  lemma Untrimmed(s: string, cut: set<char>)
    requires s != "" ==> s[0] !in cut && s[|s| - 1] !in cut
    ensures Trim(s, cut) == s
  {
  }

  lemma ShapedIsTrimmed(s: string)
    requires SlugShaped(s)
    ensures TrimSpace(s) == s && Trim(s, DASH) == s
  {
    if s != "" {
      assert s[0] in s && s[|s| - 1] in s;
    }
    Untrimmed(s, SPACES);
    Untrimmed(s, DASH);
  }

  lemma ShapedIsLower(s: string)
    requires SlugShaped(s)
    ensures ToLower(s) == s
  {
    forall i | 0 <= i < |s| ensures LowerChar(s[i]) == s[i] {
      assert s[i] in s;
    }
  }

  lemma ShapedIsUntouched(s: string)
    requires SlugShaped(s)
    ensures Slug(s) == s
  {
    ShapedIsTrimmed(s);
    ShapedIsLower(s);
    SlugCharsAlphabet(s);
  }

  /** The fixpoints of slug are exactly the strings of its shape, and slug always lands on one. */
  lemma SlugFixpoints(s: string)
    ensures SlugShaped(Slug(s))
    ensures Slug(s) == s <==> SlugShaped(s)
  {
    SlugIsShaped(s);
    if SlugShaped(s) {
      ShapedIsUntouched(s);
    }
  }

  lemma SlugIdempotent(s: string)
    ensures Slug(Slug(s)) == Slug(s)
  {
    SlugFixpoints(s);
    SlugFixpoints(Slug(s));
  }

  // ---- membership ----

  predicate DomainRule(rule: string, domain: string) {
    EqualFold(TrimSpace(rule), domain)
  }

  predicate GroupRule(rule: string, groups: seq<string>) {
    TrimSpace(rule) != "" && TrimSpace(rule) in groups
  }

  predicate IdpRule(rule: string, idp: string) {
    TrimSpace(rule) == idp
  }

  /** Some rule of t matches m: a domain, of a verified address, or a group, or an institution. */
  predicate Has(t: Tenant, m: Member) {
    || (m.emailVerified && Domain(m.email).Some? && exists d <- t.domains :: DomainRule(d, Domain(m.email).value))
    || (exists g <- t.groups :: GroupRule(g, m.groups))
    || (m.idp != "" && exists p <- t.idps :: IdpRule(p, m.idp))
  }

  method AnyMatches(rules: seq<string>, matches: string -> bool) returns (yes: bool)
    ensures yes <==> exists r <- rules :: matches(r)
  {
    yes := false;
    for i := 0 to |rules|
      invariant !yes && forall j | 0 <= j < i :: !matches(rules[j])
    {
      if matches(rules[i]) {
        return true;
      }
    }
  }

  /** `has`: the three lists of rules in turn. */
  method Belongs(t: Tenant, m: Member) returns (yes: bool)
    ensures yes <==> Has(t, m)
  {
    if m.emailVerified {
      var domain := Domain(m.email);
      if domain.Some? {
        yes := AnyMatches(t.domains, d => DomainRule(d, domain.value));
        if yes {
          return;
        }
      }
    }
    yes := AnyMatches(t.groups, g => GroupRule(g, m.groups));
    if !yes && m.idp != "" {
      yes := AnyMatches(t.idps, p => IdpRule(p, m.idp));
    }
  }

  type Table = map<string, Tenant>

  /** The default tenant is there, and every tenant is filed under its own ID. */
  predicate Filed(ts: Table) {
    && DEFAULT_ID in ts
    && forall id <- ts :: ts[id].id == id
  }

  /** Every identifier is a nonempty slug. */
  predicate Slugged(ts: Table) {
    forall id <- ts :: id != "" && SlugShaped(id)
  }

  function Matching(ts: Table, m: Member): set<string> {
    set id <- ts | Has(ts[id], m)
  }

  /** The tenants whose rules match, or the default alone: the reference for `For`. */
  function Memberships(ts: Table, m: Member): set<string> {
    if Matching(ts, m) == {} then {DEFAULT_ID} else Matching(ts, m)
  }

  // ---- byte order of identifiers ----

  predicate Less(a: string, b: string) {
    b != "" && (a == "" || a[0] < b[0] || (a[0] == b[0] && Less(a[1..], b[1..])))
  }

  lemma {:induction false} LessTotal(a: string, b: string)
    ensures Less(a, b) || a == b || Less(b, a)
  {
    if a != "" && b != "" && a[0] == b[0] {
      LessTotal(a[1..], b[1..]);
      assert a == [a[0]] + a[1..] && b == [b[0]] + b[1..];
    }
  }

  lemma {:induction false} LessTransitive(a: string, b: string, c: string)
    requires Less(a, b) && Less(b, c)
    ensures Less(a, c)
  {
    if a != "" && a[0] == b[0] && b[0] == c[0] {
      LessTransitive(a[1..], b[1..], c[1..]);
    }
  }

  lemma {:induction false} LessIrreflexive(a: string)
    ensures !Less(a, a)
  {
    if a != "" {
      LessIrreflexive(a[1..]);
    }
  }

  predicate SortedById(ts: seq<Tenant>) {
    forall i, j | 0 <= i < j < |ts| :: Less(ts[i].id, ts[j].id)
  }

  /** Insertion keeps a list sorted by ID and adds one tenant to it. */
  function InsertById(t: Tenant, ts: seq<Tenant>): (r: seq<Tenant>)
    requires SortedById(ts) && forall u <- ts :: u.id != t.id
    ensures SortedById(r) && |r| == |ts| + 1
    ensures forall u :: u in r <==> u == t || u in ts
  {
    if ts == [] then [t]
    else if Less(t.id, ts[0].id) then
      HeadBelowAll(t, ts);
      [t] + ts
    else
      LessTotal(t.id, ts[0].id);
      assert forall u <- ts[1..] :: u in ts;
      var rest := InsertById(t, ts[1..]);
      assert ts == [ts[0]] + ts[1..];
      assert forall u <- rest :: Less(ts[0].id, u.id);
      [ts[0]] + rest
  }

  lemma HeadBelowAll(t: Tenant, ts: seq<Tenant>)
    requires ts != [] && SortedById(ts) && Less(t.id, ts[0].id)
    ensures forall u <- ts :: Less(t.id, u.id)
  {
    forall u <- ts ensures Less(t.id, u.id) {
      if u != ts[0] {
        LessTransitive(t.id, ts[0].id, u.id);
      }
    }
  }

  predicate DistinctIds(ts: seq<Tenant>) {
    forall i, j | 0 <= i < j < |ts| :: ts[i].id != ts[j].id
  }

  /** `sort.Slice` by ID, on a list without repeated IDs. */
  function SortById(ts: seq<Tenant>): (r: seq<Tenant>)
    requires DistinctIds(ts)
    ensures SortedById(r) && |r| == |ts|
    ensures forall u :: u in r <==> u in ts
  {
    if ts == [] then []
    else
      assert ts == [ts[0]] + ts[1..];
      var rest := SortById(ts[1..]);
      assert forall u <- rest :: u.id != ts[0].id;
      InsertById(ts[0], rest)
  }

  /** A list sorted by ID is determined by its members: no iteration order shows through. */
  lemma {:induction false} SortedIsUnique(a: seq<Tenant>, b: seq<Tenant>)
    requires SortedById(a) && SortedById(b)
    requires forall u :: u in a <==> u in b
    ensures a == b
  {
    if a == [] {
      assert forall i | 0 <= i < |b| :: b[i] in b;
    } else {
      assert a[0] in b;
      SameHead(a, b);
      assert a == [a[0]] + a[1..] && b == [b[0]] + b[1..];
      LessIrreflexive(a[0].id);
      assert forall u :: u in a[1..] <==> u in b[1..] by {
        forall u ensures u in a[1..] <==> u in b[1..] {
          assert u in a[1..] ==> u in a && u.id != a[0].id;
          assert u in b[1..] ==> u in b && u.id != a[0].id;
        }
      }
      SortedIsUnique(a[1..], b[1..]);
    }
  }

  lemma SameHead(a: seq<Tenant>, b: seq<Tenant>)
    requires a != [] && b != [] && SortedById(a) && SortedById(b)
    requires forall u :: u in a <==> u in b
    ensures a[0] == b[0]
  {
    assert a[0] in b && b[0] in a;
    if a[0] != b[0] {
      var i :| 0 < i < |b| && b[i] == a[0];
      var j :| 0 < j < |a| && a[j] == b[0];
      LessTransitive(a[0].id, b[0].id, a[0].id);
      LessIrreflexive(a[0].id);
    }
  }

  function Ids(ts: seq<Tenant>): set<string> {
    set t <- ts :: t.id
  }

  /** What `For` answers: the tenants of `Memberships`, in order of ID. */
  predicate Answers(ts: Table, m: Member, out: seq<Tenant>) {
    && SortedById(out)
    && Ids(out) == Memberships(ts, m)
    && forall t <- out :: t.id in ts && t == ts[t.id]
  }

  /** The answer is unique: the order in which the table is iterated never shows in it. */
  lemma AnswerIsUnique(ts: Table, m: Member, a: seq<Tenant>, b: seq<Tenant>)
    requires Answers(ts, m, a) && Answers(ts, m, b)
    ensures a == b
  {
    forall u ensures u in a <==> u in b {
      if u in a {
        assert u.id in Ids(b);
      }
      if u in b {
        assert u.id in Ids(a);
      }
    }
    SortedIsUnique(a, b);
  }

  method For(ts: Table, m: Member) returns (out: seq<Tenant>)
    requires Filed(ts)
    ensures Answers(ts, m, out)
    ensures out != []
    ensures forall id :: id in Ids(out) <==>
              if exists other <- ts :: Has(ts[other], m) then id in ts && Has(ts[id], m) else id == DEFAULT_ID
  {
    ghost var matching := Matching(ts, m);
    out := [];
    var left := ts.Keys;
    while left != {}
      invariant left <= ts.Keys
      invariant DistinctIds(out)
      invariant forall t <- out :: t.id in matching && t.id !in left && t == ts[t.id]
      invariant forall id <- matching | id !in left :: ts[id] in out
      decreases left
    {
      var id :| id in left;
      left := left - {id};
      var has := Belongs(ts[id], m);
      if has {
        out := out + [ts[id]];
      }
    }
    if |out| == 0 {
      out := [ts[DEFAULT_ID]];
    } else {
      assert out[0].id in matching;
      out := SortById(out);
      assert Ids(out) == matching;
    }
  }

  /** The search over an answer of `For`. */
  method HasId(ts: seq<Tenant>, id: string) returns (yes: bool)
    ensures yes <==> id in Ids(ts)
  {
    yes := false;
    for i := 0 to |ts|
      invariant !yes && forall j | 0 <= j < i :: ts[j].id != id
    {
      if ts[i].id == id {
        return true;
      }
    }
  }

  method IsMember(ts: Table, id: string, m: Member) returns (yes: bool)
    requires Filed(ts)
    ensures yes <==> id in Memberships(ts, m)
  {
    var all := For(ts, m);
    yes := HasId(all, id);
  }

  // ---- choosing the tenant of a session ----

  datatype Choice = Chosen(id: string) | TenantRequired | NotAMember

  ghost function Only(ids: set<string>): (id: string)
    requires |ids| == 1
    ensures ids == {id}
  {
    var id :| id in ids;
    assert |ids - {id}| == 0;
    assert ids == {id} + (ids - {id});
    id
  }

  /** A request naming a tenant needs membership there; one naming none needs exactly one membership. */
  ghost function Choose(ts: Table, asked: string, m: Member): (c: Choice)
    ensures c.Chosen? ==> c.id in Memberships(ts, m)
  {
    var mine := Memberships(ts, m);
    if asked == "" then if |mine| == 1 then Chosen(Only(mine)) else TenantRequired
    else if asked in mine then Chosen(asked)
    else NotAMember
  }

  lemma {:induction false} IdsCount(ts: seq<Tenant>)
    requires SortedById(ts)
    ensures |Ids(ts)| == |ts|
  {
    if ts != [] {
      IdsCount(ts[1..]);
      LessIrreflexive(ts[0].id);
      assert ts == [ts[0]] + ts[1..];
      assert Ids(ts) == Ids(ts[1..]) + {ts[0].id};
      assert ts[0].id !in Ids(ts[1..]);
    }
  }

  method ChooseTenant(ts: Table, asked: string, m: Member) returns (c: Choice)
    requires Filed(ts)
    ensures c == Choose(ts, asked, m)
  {
    var mine := For(ts, m);
    IdsCount(mine);
    if asked == "" {
      if |mine| == 1 {
        assert mine[0].id in Ids(mine);
        return Chosen(mine[0].id);
      }
      return TenantRequired;
    }
    var member := HasId(mine, asked);
    c := if member then Chosen(asked) else NotAMember;
  }

  // ---- the table ----

  /** The identifier `Create` files a tenant under; empty when neither ID nor name give one. */
  function IdFor(t: Tenant): string {
    if Slug(t.id) != "" then Slug(t.id) else Slug(t.name)
  }

  /** Files t under id, if that is an identifier and not taken. */
  function File(ts: Table, t: Tenant, id: string): Table {
    if id == "" || id in ts then ts else ts[id := t.(id := id, serial := 1)]
  }

  function Create(ts: Table, t: Tenant): Table {
    File(ts, t, IdFor(t))
  }

  /** A tenant after an update: everything replaced but its ID, and the serial bumped. */
  function Updated(t: Tenant, u: Tenant): Tenant {
    u.(id := t.id, serial := t.serial + 1)
  }

  function Update(ts: Table, id: string, u: Tenant): Table {
    if id in ts then ts[id := Updated(ts[id], u)] else ts
  }

  function Delete(ts: Table, id: string): Table {
    if id == DEFAULT_ID then ts else ts - {id}
  }

  lemma IdForIsSlug(t: Tenant)
    ensures SlugShaped(IdFor(t))
  {
    SlugIsShaped(t.id);
    SlugIsShaped(t.name);
  }

  lemma FileKept(ts: Table, t: Tenant, id: string)
    requires Filed(ts) && Slugged(ts) && SlugShaped(id)
    ensures Filed(File(ts, t, id)) && Slugged(File(ts, t, id))
  {
  }

  /** Every create, update and delete keeps the default tenant and files tenants under their slugs. */
  lemma CreateKept(ts: Table, t: Tenant)
    requires Filed(ts) && Slugged(ts)
    ensures Filed(Create(ts, t)) && Slugged(Create(ts, t))
  {
    IdForIsSlug(t);
    FileKept(ts, t, IdFor(t));
  }

  lemma UpdateKept(ts: Table, t: Tenant, id: string)
    requires Filed(ts) && Slugged(ts)
    ensures Filed(Update(ts, id, t)) && Slugged(Update(ts, id, t))
  {
  }

  lemma DeleteKept(ts: Table, id: string)
    requires Filed(ts) && Slugged(ts)
    ensures Filed(Delete(ts, id)) && Slugged(Delete(ts, id))
  {
  }

  lemma SeedTable(t: Tenant)
    requires t.id == DEFAULT_ID
    ensures Filed(map[DEFAULT_ID := t]) && Slugged(map[DEFAULT_ID := t])
  {
  }
}

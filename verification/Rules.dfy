/**
  What membership rules, identifiers and their order mean, said of the strings themselves:
  which addresses, groups and institutions a rule admits, how a name is spelled as an
  identifier, and the tables that creating, updating and deleting leave.
 */
module Rules {
  import opened Wrappers
  import opened Tenancy

  // ---- white space ----

  predicate IsSpace(c: char) {
    c == ' ' || 9 <= c as int <= 13
  }

  predicate Blank(s: string) {
    forall c <- s :: IsSpace(c)
  }

  /** Neither end is white space. */
  predicate Tight(word: string) {
    word != "" ==> !IsSpace(word[0]) && !IsSpace(word[|word| - 1])
  }

  /** s is the word with any white space around it. */
  ghost predicate Pads(s: string, word: string) {
    exists pre, post :: Blank(pre) && Blank(post) && s == pre + (word + post)
  }

  predicate AllIn(s: string, cut: set<char>) {
    forall c <- s :: c in cut
  }

  lemma SpacesAreBlank(s: string)
    ensures AllIn(s, SPACES) <==> Blank(s)
  {
  }

  lemma {:induction false} TrimLeftSkips(pre: string, s: string, cut: set<char>)
    requires AllIn(pre, cut)
    ensures TrimLeft(pre + s, cut) == TrimLeft(s, cut)
  {
    if pre == "" {
      assert pre + s == s;
    } else {
      assert (pre + s)[0] == pre[0] && (pre + s)[1..] == pre[1..] + s;
      TrimLeftSkips(pre[1..], s, cut);
    }
  }

  lemma {:induction false} TrimRightSkips(s: string, post: string, cut: set<char>)
    requires AllIn(post, cut)
    ensures TrimRight(s + post, cut) == TrimRight(s, cut)
  {
    if post == "" {
      assert s + post == s;
    } else {
      var n := |post| - 1;
      assert (s + post)[|s + post| - 1] == post[n] && (s + post)[..|s + post| - 1] == s + post[..n];
      TrimRightSkips(s, post[..n], cut);
    }
  }

  lemma {:induction false} LeftIsCut(s: string, cut: set<char>)
    ensures forall i | 0 <= i < |s| - |TrimLeft(s, cut)| :: s[i] in cut
  {
    if s != "" && s[0] in cut {
      LeftIsCut(s[1..], cut);
      assert forall i | 0 < i < |s| :: s[i] == s[1..][i - 1];
    }
  }

  lemma LeftSplits(s: string, cut: set<char>) returns (pre: string)
    ensures AllIn(pre, cut) && s == pre + TrimLeft(s, cut)
  {
    LeftIsCut(s, cut);
    pre := s[..|s| - |TrimLeft(s, cut)|];
  }

  lemma {:induction false} RightSplits(s: string, cut: set<char>) returns (post: string)
    ensures AllIn(post, cut) && s == TrimRight(s, cut) + post
  {
    if s == "" || s[|s| - 1] !in cut {
      post := "";
    } else {
      post := RightSplits(s[..|s| - 1], cut);
      post := post + [s[|s| - 1]];
    }
  }

  /** A string is what trimming cuts off its two ends, around what it leaves. */
  lemma TrimSplits(s: string, cut: set<char>) returns (pre: string, post: string)
    ensures AllIn(pre, cut) && AllIn(post, cut) && s == pre + (Trim(s, cut) + post)
  {
    pre := LeftSplits(s, cut);
    post := RightSplits(TrimLeft(s, cut), cut);
  }

  lemma {:induction false} TrimLeftThen(s: string, post: string, cut: set<char>)
    requires AllIn(post, cut)
    ensures TrimLeft(s + post, cut) == if TrimLeft(s, cut) == "" then "" else TrimLeft(s, cut) + post
  {
    if s == "" {
      assert s + post == post + "";
      TrimLeftSkips(post, "", cut);
    } else if s[0] in cut {
      assert (s + post)[0] == s[0] && (s + post)[1..] == s[1..] + post;
      TrimLeftThen(s[1..], post, cut);
    }
  }

  lemma TrimIgnoresRight(s: string, post: string, cut: set<char>)
    requires AllIn(post, cut)
    ensures Trim(s + post, cut) == Trim(s, cut)
  {
    TrimLeftThen(s, post, cut);
    TrimRightSkips(TrimLeft(s, cut), post, cut);
  }

  /** What trimming cuts can be added at either end without a difference. */
  lemma TrimIgnoresEnds(pre: string, s: string, post: string, cut: set<char>)
    requires AllIn(pre, cut) && AllIn(post, cut)
    ensures Trim(pre + (s + post), cut) == Trim(s, cut)
  {
    TrimLeftSkips(pre, s + post, cut);
    TrimIgnoresRight(s, post, cut);
  }

  /** Trimming gives a word exactly from the strings that are the word with white space around it. */
  lemma TrimSpaceIff(s: string, word: string)
    requires Tight(word)
    ensures TrimSpace(s) == word <==> Pads(s, word)
  {
    TrimSpacePads(s);
    if pre, post :| Blank(pre) && Blank(post) && s == pre + (word + post) {
      SpacesAreBlank(pre);
      SpacesAreBlank(post);
      TrimIgnoresEnds(pre, word, post, SPACES);
      TightIsUntrimmed(word);
    }
  }

  lemma TrimSpacePads(s: string)
    ensures Pads(s, TrimSpace(s))
  {
    var pre, post := TrimSplits(s, SPACES);
    SpacesAreBlank(pre);
    SpacesAreBlank(post);
  }

  lemma TightIsUntrimmed(word: string)
    requires Tight(word)
    ensures TrimSpace(word) == word
  {
    Untrimmed(word, SPACES);
  }

  lemma TrimmedIsTight(s: string)
    ensures Tight(TrimSpace(s)) && Pads(s, TrimSpace(s))
  {
    TrimSpacePads(s);
    EndsAreTight(TrimLeft(s, SPACES), TrimSpace(s));
  }

  lemma EndsAreTight(l: string, r: string)
    requires r == TrimRight(l, SPACES) && (l != "" ==> l[0] !in SPACES)
    ensures Tight(r)
  {
  }

  // ---- letter case ----

  predicate Letter(c: char) {
    'a' <= c <= 'z' || 'A' <= c <= 'Z'
  }

  /** The same character, or the two cases of one letter, which are 32 apart. */
  predicate SameLetter(a: char, b: char) {
    a == b || (Letter(a) && Letter(b) && (a as int - b as int == 32 || b as int - a as int == 32))
  }

  predicate SameUpToCase(a: string, b: string) {
    |a| == |b| && forall i | 0 <= i < |a| :: SameLetter(a[i], b[i])
  }

  lemma EqualFoldIff(a: string, b: string)
    ensures EqualFold(a, b) <==> SameUpToCase(a, b)
  {
    if EqualFold(a, b) {
      forall i | 0 <= i < |a| ensures SameLetter(a[i], b[i]) {
        assert ToLower(a)[i] == ToLower(b)[i];
      }
    }
  }

  // ---- membership ----

  predicate Address(email: string, name: string, domain: string) {
    email == name + "@" + domain && '@' !in domain
  }

  lemma DomainIff(email: string, domain: string)
    ensures Domain(email) == Some(domain) <==> exists name :: Address(email, name, domain)
  {
    DomainMeaning(email);
    if Domain(email) == Some(domain) {
      assert Address(email, email[..|email| - |domain| - 1], domain);
    }
    if name :| Address(email, name, domain) {
      assert email[|name|] == '@';
      AddressIsUnique(email, name, domain, email[..|email| - |Domain(email).value| - 1], Domain(email).value);
    }
  }

  /** The '@' before the domain is the last one, so there is one way to read an address. */
  lemma AddressIsUnique(email: string, a: string, d: string, a': string, d': string)
    requires Address(email, a, d) && Address(email, a', d')
    ensures d == d'
  {
    NotLonger(email, a, d, a', d');
    NotLonger(email, a', d', a, d);
    assert d == email[|a| + 1..] && d' == email[|a'| + 1..];
  }

  lemma NotLonger(email: string, a: string, d: string, a': string, d': string)
    requires Address(email, a, d) && Address(email, a', d')
    ensures |a'| <= |a|
  {
    assert email[|a'|] == '@';
    assert forall i | |a| < i < |email| :: email[i] == d[i - |a| - 1];
  }

  /** A verified address somewhere@domain is admitted by a rule that names the domain, however padded and in whatever case. */
  ghost predicate ByDomain(t: Tenant, m: Member) {
    m.emailVerified && exists name, domain, rule, word ::
      Address(m.email, name, domain) && rule in t.domains && Pads(rule, word) && Tight(word) && SameUpToCase(word, domain)
  }

  ghost predicate ByGroup(t: Tenant, m: Member) {
    exists rule <- t.groups, group <- m.groups :: group != "" && Tight(group) && Pads(rule, group)
  }

  ghost predicate ByInstitution(t: Tenant, m: Member) {
    m.idp != "" && Tight(m.idp) && exists rule <- t.idps :: Pads(rule, m.idp)
  }

  lemma DomainRuleIff(rule: string, domain: string)
    ensures DomainRule(rule, domain) <==> exists word :: Pads(rule, word) && Tight(word) && SameUpToCase(word, domain)
  {
    TrimmedIsTight(rule);
    EqualFoldIff(TrimSpace(rule), domain);
    if word :| Pads(rule, word) && Tight(word) && SameUpToCase(word, domain) {
      TrimSpaceIff(rule, word);
    }
  }

  lemma ByDomainIff(t: Tenant, m: Member)
    ensures ByDomain(t, m) <==>
              m.emailVerified && Domain(m.email).Some? && exists d <- t.domains :: DomainRule(d, Domain(m.email).value)
  {
    if ByDomain(t, m) {
      var name, domain, rule, word :|
        Address(m.email, name, domain) && rule in t.domains && Pads(rule, word) && Tight(word) && SameUpToCase(word, domain);
      DomainIff(m.email, domain);
      DomainRuleIff(rule, domain);
    }
    if m.emailVerified && Domain(m.email).Some? {
      if d :| d in t.domains && DomainRule(d, Domain(m.email).value) {
        DomainIff(m.email, Domain(m.email).value);
        DomainRuleIff(d, Domain(m.email).value);
      }
    }
  }

  lemma ByGroupIff(t: Tenant, m: Member)
    ensures ByGroup(t, m) <==> exists g <- t.groups :: GroupRule(g, m.groups)
  {
    forall rule <- t.groups, group <- m.groups | group != "" && Tight(group) ensures Pads(rule, group) <==> TrimSpace(rule) == group {
      TrimSpaceIff(rule, group);
    }
    forall rule <- t.groups ensures Tight(TrimSpace(rule)) {
      TrimmedIsTight(rule);
    }
  }

  lemma ByInstitutionIff(t: Tenant, m: Member)
    ensures ByInstitution(t, m) <==> m.idp != "" && exists p <- t.idps :: IdpRule(p, m.idp)
  {
    forall rule <- t.idps ensures TrimSpace(rule) == m.idp <==> Tight(m.idp) && Pads(rule, m.idp) {
      TrimmedIsTight(rule);
      if Tight(m.idp) {
        TrimSpaceIff(rule, m.idp);
      }
    }
  }

  /** Somebody belongs to a tenant exactly through one of its rules, each of which is enough alone. */
  lemma BelongsIff(t: Tenant, m: Member)
    ensures Has(t, m) <==> ByDomain(t, m) || ByGroup(t, m) || ByInstitution(t, m)
  {
    ByDomainIff(t, m);
    ByGroupIff(t, m);
    ByInstitutionIff(t, m);
  }

  /** Typing an address gets nobody anywhere: unverified, it makes no difference to any membership. */
  lemma UnverifiedIsIgnored(ts: Table, m: Member, email: string)
    requires !m.emailVerified
    ensures forall t :: Has(t, m) <==> Has(t, m.(email := email))
    ensures Memberships(ts, m) == Memberships(ts, m.(email := email))
  {
    assert Matching(ts, m) == Matching(ts, m.(email := email));
  }

  /** A verified address at a domain belongs wherever the domain is listed, in any case and padding. */
  lemma DomainAdmits(t: Tenant, m: Member, name: string, domain: string, rule: string, word: string)
    requires m.emailVerified && Address(m.email, name, domain)
    requires rule in t.domains && Pads(rule, word) && Tight(word) && SameUpToCase(word, domain)
    ensures Has(t, m)
  {
    BelongsIff(t, m);
  }

  /** A listed group that has a name, or a listed institution, is enough whatever the address. */
  lemma GroupAdmits(t: Tenant, m: Member, rule: string, word: string)
    requires word != "" && Tight(word) && Pads(rule, word)
    ensures rule in t.groups && word in m.groups ==> Has(t, m)
    ensures rule in t.idps && word == m.idp ==> Has(t, m)
  {
    BelongsIff(t, m);
  }

  lemma BlankIsNoWord(rule: string, word: string)
    requires Blank(rule) && Pads(rule, word) && Tight(word)
    ensures word == ""
  {
    var pre, post :| Blank(pre) && Blank(post) && rule == pre + (word + post);
    assert forall c <- word :: c in rule;
  }

  /** A tenant without rules has no members of its own, and blank group and institution rules admit nobody. */
  lemma BlankAdmitsNobody(t: Tenant, m: Member)
    requires t.domains == [] && (forall rule <- t.groups :: Blank(rule)) && (forall rule <- t.idps :: Blank(rule))
    ensures !Has(t, m)
  {
    BelongsIff(t, m);
    if rule, group :| rule in t.groups && group in m.groups && group != "" && Tight(group) && Pads(rule, group) {
      BlankIsNoWord(rule, group);
    }
    if rule :| rule in t.idps && Pads(rule, m.idp) && Tight(m.idp) {
      BlankIsNoWord(rule, m.idp);
    }
  }

  /** Only the rules decide: names, routes and serials do not. */
  lemma RulesDecide(t: Tenant, u: Tenant, m: Member)
    requires u.domains == t.domains && u.groups == t.groups && u.idps == t.idps
    ensures Has(t, m) <==> Has(u, m)
  {
  }

  /** The memberships are the tenants somebody belongs to; who belongs to none has the default one, and only that. */
  lemma MembershipsIff(ts: Table, m: Member, id: string)
    ensures id in Memberships(ts, m) <==>
              if exists other <- ts :: Has(ts[other], m) then id in ts && Has(ts[id], m) else id == DEFAULT_ID
    ensures |Memberships(ts, m)| > 0
  {
    if other :| other in ts && Has(ts[other], m) {
      assert other in Matching(ts, m);
    }
  }

  /**
    Nobody is put into a tenant they did not ask for: what is chosen is what was asked, or,
    when nothing was, the only membership; and the refusals say exactly what was wrong.
   */
  lemma ChoiceIff(ts: Table, asked: string, m: Member)
    ensures var c, mine := Choose(ts, asked, m), Memberships(ts, m);
            && (asked != "" ==> (c == Chosen(asked) <==> asked in mine) && (c.Chosen? ==> c.id == asked))
            && (asked == "" && c.Chosen? ==> mine == {c.id})
            && (c == TenantRequired <==> asked == "" && |mine| > 1)
            && (c == NotAMember <==> asked != "" && asked !in mine)
  {
    MembershipsIff(ts, m, DEFAULT_ID);
  }

  // ---- identifiers ----

  /** What slug turns into '-'. */
  predicate Separator(c: char) {
    c in " _-."
  }

  predicate Kept(c: char) {
    Letter(c) || '0' <= c <= '9' || Separator(c)
  }

  lemma {:induction false} SlugCharsAppend(a: string, b: string)
    ensures SlugChars(a + b) == SlugChars(a) + SlugChars(b)
  {
    if a == "" {
      assert a + b == b;
    } else {
      assert (a + b)[0] == a[0] && (a + b)[1..] == a[1..] + b;
      SlugCharsAppend(a[1..], b);
    }
  }

  lemma ToLowerAppend(a: string, b: string)
    ensures ToLower(a + b) == ToLower(a) + ToLower(b)
  {
  }

  function Spelled(s: string): string {
    SlugChars(ToLower(s))
  }

  lemma SpelledAppend(a: string, b: string)
    ensures Spelled(a + b) == Spelled(a) + Spelled(b)
  {
    ToLowerAppend(a, b);
    SlugCharsAppend(ToLower(a), ToLower(b));
  }

  lemma SpelledOne(c: char)
    ensures Spelled([c]) == SlugChar(LowerChar(c))
  {
    assert ToLower([c]) == [LowerChar(c)];
    assert SlugChars([LowerChar(c)]) == SlugChar(LowerChar(c)) + SlugChars("");
  }

  lemma SpelledNone()
    ensures Spelled("") == ""
  {
    assert ToLower("") == "";
  }

  lemma SpelledFirst(s: string)
    requires s != ""
    ensures Spelled(s) == SlugChar(LowerChar(s[0])) + Spelled(s[1..])
  {
    assert s == [s[0]] + s[1..];
    SpelledAppend([s[0]], s[1..]);
    SpelledOne(s[0]);
  }

  lemma {:induction false} BlankIsDashes(s: string)
    requires Blank(s)
    ensures AllIn(Spelled(s), DASH)
  {
    if s == "" {
      SpelledNone();
    } else {
      BlankIsDashes(s[1..]);
      SpelledFirst(s);
      assert IsSpace(s[0]);
    }
  }

  /** Trimming white space first makes no difference to a slug. */
  lemma SlugIsSpelled(s: string)
    ensures Slug(s) == Trim(Spelled(s), DASH)
  {
    var word := TrimSpace(s);
    TrimSpacePads(s);
    var pre, post :| Blank(pre) && Blank(post) && s == pre + (word + post);
    BlankIsDashes(pre);
    BlankIsDashes(post);
    SpelledAppend(pre, word + post);
    SpelledAppend(word, post);
    TrimIgnoresEnds(Spelled(pre), Spelled(word), Spelled(post), DASH);
  }

  lemma SpelledSame(s: string, s': string)
    requires Spelled(s) == Spelled(s')
    ensures Slug(s) == Slug(s')
  {
    SlugIsSpelled(s);
    SlugIsSpelled(s');
  }

  /** A character that is no letter, digit or separator is as good as not there, wherever it is. */
  lemma SlugIgnores(a: string, c: char, b: string)
    requires !Kept(c)
    ensures Slug(a + ([c] + b)) == Slug(a + b)
  {
    SpelledAppend(a, [c] + b);
    SpelledAppend([c], b);
    SpelledAppend(a, b);
    SpelledOne(c);
    assert Spelled([c]) == "";
    assert "" + Spelled(b) == Spelled(b);
    SpelledSame(a + ([c] + b), a + b);
  }

  lemma SeparatorIsDash(c: char)
    requires Separator(c)
    ensures Spelled([c]) == "-"
  {
    SpelledOne(c);
  }

  lemma DashesAreTrimmed(s: string)
    ensures Trim("-" + s, DASH) == Trim(s, DASH) && Trim(s + "-", DASH) == Trim(s, DASH)
  {
    TrimLeftSkips("-", s, DASH);
    TrimIgnoresRight(s, "-", DASH);
  }

  /** A separator at either end is as good as not there. */
  lemma SlugIgnoresEnds(s: string, c: char)
    requires Separator(c)
    ensures Slug([c] + s) == Slug(s) && Slug(s + [c]) == Slug(s)
  {
    SeparatorIsDash(c);
    SpelledAppend([c], s);
    SpelledAppend(s, [c]);
    SlugIsSpelled(s);
    SlugIsSpelled([c] + s);
    SlugIsSpelled(s + [c]);
    DashesAreTrimmed(Spelled(s));
  }

  predicate SpellsAt(s: string, r: string, i: nat)
    requires i < |s| == |r|
  {
    if Separator(s[i]) then r[i] == '-' else SameLetter(s[i], r[i]) && !('A' <= r[i] <= 'Z')
  }

  ghost predicate Spells(s: string, r: string) {
    |r| == |s| && forall i: nat | i < |s| :: SpellsAt(s, r, i)
  }

  lemma SpellsOneMore(s: string, r: string, d: char)
    requires s != "" && Spells(s[1..], r)
    requires if Separator(s[0]) then d == '-' else SameLetter(s[0], d) && !('A' <= d <= 'Z')
    ensures Spells(s, [d] + r)
  {
    forall i: nat | i < |s| ensures SpellsAt(s, [d] + r, i) {
      if i > 0 {
        assert SpellsAt(s[1..], r, i - 1);
      }
    }
  }

  lemma {:induction false} SpelledIsPointwise(s: string)
    requires forall c <- s :: Kept(c)
    ensures Spells(s, Spelled(s))
  {
    if s == "" {
      SpelledNone();
    } else {
      SpelledIsPointwise(s[1..]);
      SpelledFirst(s);
      assert Kept(s[0]);
      SpellsOneMore(s, Spelled(s[1..]), SlugChar(LowerChar(s[0]))[0]);
    }
  }

  lemma SpelledIsTight(s: string, r: string)
    requires Spells(s, r)
    requires s != "" ==> !Separator(s[0]) && !Separator(s[|s| - 1])
    ensures Trim(r, DASH) == r
  {
    if s != "" {
      assert SpellsAt(s, r, 0) && SpellsAt(s, r, |s| - 1);
    }
    Untrimmed(r, DASH);
  }

  /**
    Of letters, digits and inner separators, every separator becomes '-' and every letter its
    lower case, one for one. With the two lemmas above this determines every slug.
   */
  lemma SlugSpells(s: string)
    requires forall c <- s :: Kept(c)
    requires s != "" ==> !Separator(s[0]) && !Separator(s[|s| - 1])
    ensures Spells(s, Slug(s))
  {
    SlugIsSpelled(s);
    SpelledIsPointwise(s);
    SpelledIsTight(s, Spelled(s));
  }

  // ---- the order of identifiers ----

  /** a and b agree up to n, where a ends or has the smaller character. */
  predicate LessAt(a: string, b: string, n: nat) {
    n <= |a| && n < |b| && a[..n] == b[..n] && (n == |a| || a[n] < b[n])
  }

  lemma {:induction false} LessIff(a: string, b: string)
    ensures Less(a, b) <==> exists n: nat :: LessAt(a, b, n)
  {
    if a == "" || b == "" || a[0] != b[0] {
      if Less(a, b) {
        assert LessAt(a, b, 0);
      }
      if n: nat :| LessAt(a, b, n) {
        if n > 0 {
          assert a[..n][0] == b[..n][0];
        }
      }
    } else {
      LessIff(a[1..], b[1..]);
      if n: nat :| LessAt(a[1..], b[1..], n) {
        assert a[..n + 1] == [a[0]] + a[1..][..n] && b[..n + 1] == [b[0]] + b[1..][..n];
        assert LessAt(a, b, n + 1);
      }
      if n: nat :| LessAt(a, b, n) {
        assert n > 0;
        assert a[1..][..n - 1] == a[..n][1..] && b[1..][..n - 1] == b[..n][1..];
        assert LessAt(a[1..], b[1..], n - 1);
      }
    }
  }

  // ---- the table ----

  /** An ID that spells an identifier goes before any name; the name counts only without one. */
  lemma IdBeforeName(t: Tenant, name: string)
    ensures Slug(t.id) != "" ==> IdFor(t) == IdFor(t.(name := name)) == Slug(t.id)
    ensures Slug(t.id) == "" ==> IdFor(t) == Slug(t.name)
  {
  }

  /** t with an ID and a serial of its own: everything else is u's. */
  ghost predicate Carries(t: Tenant, u: Tenant, id: string, serial: nat) {
    && t.id == id && t.serial == serial
    && t.name == u.name && t.domains == u.domains && t.groups == u.groups && t.idps == u.idps
    && t.allowedIPs == u.allowedIPs && t.dns == u.dns
  }

  lemma FileIff(ts: Table, t: Tenant, id: string)
    ensures var ts' := File(ts, t, id);
            && (ts' != ts <==> id != "" && id !in ts)
            && (ts' != ts ==> ts'.Keys == ts.Keys + {id} && Carries(ts'[id], t, id, 1) && forall o <- ts :: ts'[o] == ts[o])
  {
    if id != "" && id !in ts {
      assert id in File(ts, t, id);
    }
  }

  /** Creating files exactly the new tenant, under an identifier nobody had, with serial 1; or it changes nothing. */
  lemma CreateIff(ts: Table, t: Tenant)
    ensures var ts', id := Create(ts, t), IdFor(t);
            && (ts' != ts <==> id != "" && id !in ts)
            && (ts' != ts ==> ts'.Keys == ts.Keys + {id} && Carries(ts'[id], t, id, 1) && forall o <- ts :: ts'[o] == ts[o])
  {
    FileIff(ts, t, IdFor(t));
  }

  /** Updating replaces everything of the one tenant but its ID, and counts its serial up by one. */
  lemma UpdateIff(ts: Table, id: string, u: Tenant)
    ensures var ts' := Update(ts, id, u);
            && ts'.Keys == ts.Keys && (forall o <- ts | o != id :: ts'[o] == ts[o])
            && (id in ts ==> Carries(ts'[id], u, ts[id].id, ts[id].serial + 1))
  {
  }

  lemma DeleteIff(ts: Table, id: string)
    ensures var ts' := Delete(ts, id);
            && (forall o :: o in ts' <==> o in ts && (o != id || o == DEFAULT_ID))
            && (forall o <- ts' :: ts'[o] == ts[o])
  {
  }
}

// `MailerUtils` (mailers.py): the address scanner that plays the part of
// `pattern.search`, the (name, address) tuples built from its match, and
// `is_email_valid`.
//
// The scanner follows the way Python's backtracking matcher resolves this
// pattern: `search` tries start positions from left to right; at each one the
// optional name group is tried first; the user part is the whole run of user
// characters (no '@' can sit inside it); the greedy `([\w\d.]+\.)+` ends at
// the LAST '.' of the domain run that a TLD follows.

module MailerUtils {
  import opened Values
  import opened AddressGrammar

  /** A `(name, email_address)` tuple; the name is `None` when the name group did not take part. */
  datatype NameEmail = NameEmail(name: Option<string>, email: string)

  datatype Span = Span(lo: nat, hi: nat)

  /** The spans of the `name` and `email` groups of a match. */
  datatype RegexMatch = RegexMatch(name: Option<Span>, email: Span)
  {
    /** Where the match starts. */
    function Start(): nat
    {
      if name.Some? then name.value.lo else email.lo
    }
  }

  /** A label of the domain closes just before `m` and a TLD follows: `m` can end `([\w\d.]+\.)+`. */
  predicate LabelEndsAt(s: string, at: nat, m: nat)
  {
    at + 3 <= m && m + 3 <= |s| && s[m - 1] == '.' && Tld(s[m..m + 3])
  }

  /** The largest `m' <= m` where the domain prefix after the '@' at `at` can end. */
  function LastLabelEnd(s: string, at: nat, m: nat): (r: Option<nat>)
    ensures r.Some? ==> r.value <= m && LabelEndsAt(s, at, r.value)
    ensures forall m': nat :: m' <= m && LabelEndsAt(s, at, m') ==> r.Some? && m' <= r.value
    decreases m
  {
    if m < at + 3 then None
    else if LabelEndsAt(s, at, m) then Some(m)
    else LastLabelEnd(s, at, m - 1)
  }

  /** The end of the `email` group when it is matched at `p`. */
  function EmailEnd(s: string, p: nat): (q: Option<nat>)
    requires p <= |s|
    ensures q.Some? ==> p < q.value <= |s|
  {
    var at := RunEnd(s, p, UserCls);
    if p < at < |s| && s[at] == '@' then
      var r := RunEnd(s, at + 1, DomainCls);
      match LastLabelEnd(s, at, r)
      case Some(m) => Some(m + 3)
      case None => None
    else None
  }

  /** The end of the name group when its '<' is at `lt`: trailing space belongs to `\s*`. */
  function TrimEnd(s: string, lo: nat, hi: nat): (k: nat)
    requires lo <= hi <= |s|
    ensures lo <= k <= hi
    ensures forall i :: k <= i < hi ==> IsSpace(s[i])
    ensures k > lo ==> !IsSpace(s[k - 1])
    decreases hi
  {
    if hi > lo && IsSpace(s[hi - 1]) then TrimEnd(s, lo, hi - 1) else hi
  }

  predicate WellFormed(m: RegexMatch, n: nat)
  {
    && m.email.lo <= m.email.hi <= n
    && (m.name.Some? ==> m.name.value.lo <= m.name.value.hi < m.email.lo)
  }

  /** The position of the '<' that closes a name group starting at `p`, if one can start there. */
  function NameOpen(s: string, p: nat): (lt: Option<nat>)
    requires p <= |s|
    ensures lt.Some? ==> p < lt.value < |s| && s[lt.value] == '<' && IsNameChar(s[p])
    ensures lt.Some? ==> forall k :: p <= k < lt.value ==> IsNameChar(s[k]) || IsSpace(s[k])
  {
    var lt := RunEnd(s, p, NameOrSpaceCls);
    if p < |s| && IsNameChar(s[p]) && lt < |s| && s[lt] == '<' then Some(lt) else None
  }

  /** The pattern matched at position `p`: with the name group if it can take part, else without. */
  function MatchAt(s: string, p: nat): (r: Option<RegexMatch>)
    requires p <= |s|
    ensures r.Some? ==> WellFormed(r.value, |s|) && r.value.Start() == p
  {
    var lt := NameOpen(s, p);
    if lt.Some? && EmailEnd(s, lt.value + 1).Some? then
      Some(RegexMatch(Some(Span(p, TrimEnd(s, p, lt.value))), Span(lt.value + 1, EmailEnd(s, lt.value + 1).value)))
    else
      match EmailEnd(s, p)
      case Some(q) => Some(RegexMatch(None, Span(p, q)))
      case None => None
  }

  /** `pattern.search(s)` from position `p` on. */
  function Search(s: string, p: nat): (r: Option<RegexMatch>)
    requires p <= |s|
    ensures r.Some? ==> WellFormed(r.value, |s|) && p <= r.value.Start()
    decreases |s| - p
  {
    match MatchAt(s, p)
    case Some(m) => Some(m)
    case None => if p < |s| then Search(s, p + 1) else None
  }

  /** `MailerUtils.get_name_email_tuple` */
  function GetNameEmailTuple(x: Option<string>): (r: Option<NameEmail>)
  {
    match x
    case None => None
    case Some(s) =>
      match Search(s, 0)
      case None => None
      case Some(m) =>
        var name := if m.name.Some? then Some(s[m.name.value.lo..m.name.value.hi]) else None;
        Some(NameEmail(name, s[m.email.lo..m.email.hi]))
  }

  /** `MailerUtils.is_email_valid` */
  function IsEmailValid(x: Option<string>): bool
  {
    x.Some? && GetNameEmailTuple(x).Some?
  }

  /** The list `get_name_email_tuples` builds, as a value (for use in contracts). */
  function TuplesOf(emails: Option<seq<Option<string>>>): seq<Option<NameEmail>>
  {
    match emails
    case None => []
    case Some(list) => seq(|list|, i requires 0 <= i < |list| => GetNameEmailTuple(list[i]))
  }

  /** `MailerUtils.get_name_email_tuples`: one tuple per input entry, in order; `None` gives `[]`. */
  method GetNameEmailTuples(emails: Option<seq<Option<string>>>) returns (tuples: seq<Option<NameEmail>>)
    ensures tuples == TuplesOf(emails)
    ensures emails.None? ==> tuples == []
    ensures emails.Some? ==> |tuples| == |emails.value|
    ensures emails.Some? ==> forall i :: 0 <= i < |tuples| ==> tuples[i] == GetNameEmailTuple(emails.value[i])
    ensures emails.Some? ==> forall i :: 0 <= i < |tuples| ==> (emails.value[i].None? ==> tuples[i].None?)
  {
    tuples := [];
    if emails.None? {
      return;
    }
    var list := emails.value;
    var i := 0;
    while i < |list|
      invariant 0 <= i <= |list|
      invariant |tuples| == i
      invariant forall k :: 0 <= k < i ==> tuples[k] == GetNameEmailTuple(list[k])
    {
      var t := GetNameEmailTuple(list[i]);
      tuples := tuples + [t];
      i := i + 1;
    }
  }

  // ---------------------------------------------------------------------
  // The scanner against the grammar

  /** What the email run at `p` looks like when some address starts there. */
  lemma AddressAt(s: string, p: nat, q: nat) returns (at: nat, m: nat)
    requires p <= q <= |s| && Address(s[p..q])
    ensures p < at && at + 3 <= m && q == m + 3
    ensures RunEnd(s, p, UserCls) == at && at < |s| && s[at] == '@'
    ensures LabelEndsAt(s, at, m) && m <= RunEnd(s, at + 1, DomainCls)
  {
    var a: nat, m0: nat :| AddressSplit(s[p..q], a, m0);
    DomainPrefixIsLabel(s[p..q][a + 1..m0]);
    UserRunAt(s, p, q, a);
    DomainRunAt(s, p, q, a, m0);
    at, m := p + a, p + m0;
  }

  /** The user part of an address at `p` is the whole user run there, and an '@' ends it. */
  lemma UserRunAt(s: string, p: nat, q: nat, a: nat)
    requires p <= q <= |s| && 0 < a < q - p
    requires UserPart(s[p..q][..a]) && s[p..q][a] == '@'
    ensures RunEnd(s, p, UserCls) == p + a && s[p + a] == '@'
  {
    var t := s[p..q];
    forall k | p <= k < p + a ensures InClass(s[k], UserCls) {
      assert s[k] == t[..a][k - p];
    }
    assert s[p + a] == t[a];
    RunEndIs(s, p, p + a, UserCls);
  }

  /** The domain label of an address at `p` lies within the domain run after its '@', and a TLD follows it. */
  lemma DomainRunAt(s: string, p: nat, q: nat, a: nat, m0: nat)
    requires p <= q <= |s| && AddressSplit(s[p..q], a, m0) && DomainLabel(s[p..q][a + 1..m0])
    ensures LabelEndsAt(s, p + a, p + m0) && p + m0 <= RunEnd(s, p + a + 1, DomainCls)
  {
    var t := s[p..q];
    var d := t[a + 1..m0];
    var at, m := p + a, p + m0;
    assert s[m - 1] == d[m0 - a - 2];
    assert s[m..m + 3] == t[m0..];
    forall k | at + 1 <= k < m ensures InClass(s[k], DomainCls) {
      assert s[k] == d[k - at - 1];
    }
    RunEndAtLeast(s, at + 1, m, DomainCls);
  }

  /** A run of `cls` characters from `i` to `j` means the longest run reaches at least `j`. */
  lemma RunEndAtLeast(s: string, i: nat, j: nat, cls: CharClass)
    requires i <= j <= |s|
    requires forall k :: i <= k < j ==> InClass(s[k], cls)
    ensures j <= RunEnd(s, i, cls)
  {
  }

  /** The email group found at `p` is an address. */
  lemma EmailEndSound(s: string, p: nat)
    requires p <= |s| && EmailEnd(s, p).Some?
    ensures Address(s[p..EmailEnd(s, p).value])
  {
    var at := RunEnd(s, p, UserCls);
    var r := RunEnd(s, at + 1, DomainCls);
    var m := LastLabelEnd(s, at, r).value;
    UserRunIsUserPart(s, p, at);
    DomainRunIsLabel(s, at + 1, m);
    DomainPrefixIsLabel(s[at + 1..m]);
    AddressOfParts(s, p, at, m);
  }

  /** A non-empty run of user characters is a user part. */
  lemma UserRunIsUserPart(s: string, p: nat, at: nat)
    requires p < at <= |s|
    requires forall k :: p <= k < at ==> InClass(s[k], UserCls)
    ensures UserPart(s[p..at])
  {
    forall k | 0 <= k < at - p ensures IsUserChar(s[p..at][k]) {
      assert InClass(s[p + k], UserCls);
    }
  }

  /** A run of domain characters ending in '.' is a domain label. */
  lemma DomainRunIsLabel(s: string, i: nat, m: nat)
    requires i + 2 <= m <= |s| && s[m - 1] == '.'
    requires forall k :: i <= k < m ==> InClass(s[k], DomainCls)
    ensures DomainLabel(s[i..m])
  {
    forall k | 0 <= k < m - i - 1 ensures IsDomainChar(s[i..m][k]) {
      assert InClass(s[i + k], DomainCls);
    }
  }

  /** A user part, '@', a domain prefix and a TLD, side by side, make an address. */
  lemma AddressOfParts(s: string, p: nat, at: nat, m: nat)
    requires p < at && at + 3 <= m && m + 3 <= |s|
    requires UserPart(s[p..at]) && s[at] == '@' && DomainPrefix(s[at + 1..m]) && Tld(s[m..m + 3])
    ensures Address(s[p..m + 3])
  {
    var t := s[p..m + 3];
    assert t[..at - p] == s[p..at];
    assert t[at - p + 1..m - p] == s[at + 1..m] by {
      forall k | at + 1 <= k < m ensures t[at - p + 1..m - p][k - at - 1] == s[k] {
        assert t[k - p] == s[k];
      }
    }
    assert t[m - p..] == s[m..m + 3];
    assert AddressSplit(t, at - p, m - p);
  }

  /** No address starting at `p` is longer than the email group found there. */
  lemma EmailEndComplete(s: string, p: nat, q: nat)
    requires p <= q <= |s| && Address(s[p..q])
    ensures EmailEnd(s, p).Some? && q <= EmailEnd(s, p).value
  {
    var at, m := AddressAt(s, p, q);
  }

  /** The email group at `p` is the longest address starting at `p`. */
  lemma EmailEndIsLongest(s: string, p: nat)
    requires p <= |s|
    ensures EmailEnd(s, p).Some? <==> exists q :: p <= q <= |s| && Address(s[p..q])
    ensures EmailEnd(s, p).Some? ==> Address(s[p..EmailEnd(s, p).value])
    ensures EmailEnd(s, p).Some? ==> forall q :: EmailEnd(s, p).value < q <= |s| ==> !Address(s[p..q])
  {
    if EmailEnd(s, p).Some? {
      EmailEndSound(s, p);
      forall q | EmailEnd(s, p).value < q <= |s| ensures !Address(s[p..q]) {
        if Address(s[p..q]) { EmailEndComplete(s, p, q); }
      }
    } else {
      forall q | p <= q <= |s| ensures !Address(s[p..q]) {
        if Address(s[p..q]) { EmailEndComplete(s, p, q); }
      }
    }
  }

  /** What a match found at `p` says about `s`. */
  ghost predicate MatchSound(s: string, m: RegexMatch)
    requires WellFormed(m, |s|)
  {
    && Address(s[m.email.lo..m.email.hi])
    && (m.name.Some? ==>
          && Name(s[m.name.value.lo..m.name.value.hi])
          && AllSpace(s[m.name.value.hi..m.email.lo - 1])
          && s[m.email.lo - 1] == '<')
  }

  /** The name group of a match at `p` whose '<' is at `lt`. */
  lemma NameGroupSound(s: string, p: nat, lt: nat)
    requires p < lt < |s| && IsNameChar(s[p])
    requires forall k :: p <= k < lt ==> IsNameChar(s[k]) || IsSpace(s[k])
    ensures Name(s[p..TrimEnd(s, p, lt)]) && AllSpace(s[TrimEnd(s, p, lt)..lt])
  {
    var hi := TrimEnd(s, p, lt);
    assert hi > p by { assert !IsSpace(s[p]); }
    var x := s[p..hi];
    assert NameChars(x) by {
      forall i | 0 <= i < |x| ensures IsNameChar(x[i]) || IsSpace(x[i]) {
        assert x[i] == s[p + i];
      }
      assert x[|x| - 1] == s[hi - 1];
    }
    NameIffNameChars(x);
    assert AllSpace(s[hi..lt]) by {
      forall i | 0 <= i < lt - hi ensures IsSpace(s[hi..lt][i]) { assert s[hi..lt][i] == s[hi + i]; }
    }
  }

  lemma MatchAtSound(s: string, p: nat)
    requires p <= |s| && MatchAt(s, p).Some?
    ensures MatchSound(s, MatchAt(s, p).value)
  {
    if NameOpen(s, p).Some? && EmailEnd(s, NameOpen(s, p).value + 1).Some? {
      NamedMatchSound(s, p);
    } else {
      BareMatchSound(s, p);
    }
  }

  /** The match with a name group: a name, space, '<' and an address. */
  lemma NamedMatchSound(s: string, p: nat)
    requires p <= |s| && NameOpen(s, p).Some? && EmailEnd(s, NameOpen(s, p).value + 1).Some?
    ensures MatchAt(s, p).Some? && MatchSound(s, MatchAt(s, p).value)
  {
    var l := NameOpen(s, p).value;
    var q := EmailEnd(s, l + 1).value;
    var hi := TrimEnd(s, p, l);
    assert MatchAt(s, p) == Some(RegexMatch(Some(Span(p, hi)), Span(l + 1, q)));
    EmailEndSound(s, l + 1);
    NameGroupSound(s, p, l);
    NamedPartsSound(s, p, hi, l, q);
  }

  /** The match without a name group: an address. */
  lemma BareMatchSound(s: string, p: nat)
    requires p <= |s| && MatchAt(s, p).Some?
    requires !(NameOpen(s, p).Some? && EmailEnd(s, NameOpen(s, p).value + 1).Some?)
    ensures MatchSound(s, MatchAt(s, p).value)
  {
    var q := EmailEnd(s, p).value;
    assert MatchAt(s, p) == Some(RegexMatch(None, Span(p, q)));
    EmailEndSound(s, p);
  }

  /** A name, space, '<' and an address laid side by side form a sound match. */
  lemma NamedPartsSound(s: string, p: nat, hi: nat, l: nat, q: nat)
    requires p <= hi <= l < q <= |s|
    requires Name(s[p..hi]) && AllSpace(s[hi..l]) && s[l] == '<' && Address(s[l + 1..q])
    ensures WellFormed(RegexMatch(Some(Span(p, hi)), Span(l + 1, q)), |s|)
    ensures MatchSound(s, RegexMatch(Some(Span(p, hi)), Span(l + 1, q)))
  {
  }

  /** An address starting at `p` makes the pattern match at `p`. */
  lemma MatchAtComplete(s: string, p: nat, q: nat)
    requires p <= q <= |s| && Address(s[p..q])
    ensures MatchAt(s, p).Some?
  {
    EmailEndComplete(s, p, q);
  }

  /** No substring starting at `p` is an address. */
  ghost predicate NoAddressAt(s: string, p: nat)
  {
    forall j :: p <= j <= |s| ==> !Address(s[p..j])
  }

  /** No substring starting at or after `p` is an address. */
  ghost predicate NoAddressFrom(s: string, p: nat)
  {
    forall i, j :: p <= i <= j <= |s| ==> !Address(s[i..j])
  }

  lemma NoAddressFromStep(s: string, p: nat)
    requires p < |s|
    ensures NoAddressFrom(s, p) <==> NoAddressAt(s, p) && NoAddressFrom(s, p + 1)
  {
    if NoAddressAt(s, p) && NoAddressFrom(s, p + 1) {
      forall i, j | p <= i <= j <= |s| ensures !Address(s[i..j]) {
        if i == p { assert NoAddressAt(s, p); } else { assert NoAddressFrom(s, p + 1); }
      }
    }
  }

  lemma NoAddressFromEnd(s: string)
    ensures NoAddressFrom(s, |s|) <==> NoAddressAt(s, |s|)
  {
  }

  /** A match at `p` holds an address at or after `p`. */
  lemma MatchAtHasAddress(s: string, p: nat)
    requires p <= |s| && MatchAt(s, p).Some?
    ensures !NoAddressFrom(s, p)
  {
    MatchAtSound(s, p);
    var m := MatchAt(s, p).value;
    assert p <= m.email.lo <= m.email.hi <= |s| && Address(s[m.email.lo..m.email.hi]);
  }

  /** No match at `p` means no address starts at `p`. */
  lemma NoMatchAtNoAddressAt(s: string, p: nat)
    requires p <= |s| && MatchAt(s, p).None?
    ensures NoAddressAt(s, p)
  {
    forall j | p <= j <= |s| ensures !Address(s[p..j]) {
      if Address(s[p..j]) { MatchAtComplete(s, p, j); }
    }
  }

  /** `search` from `p` fails exactly when no substring from `p` on is an address. */
  lemma {:induction false} SearchNoneIff(s: string, p: nat)
    requires p <= |s|
    ensures Search(s, p).None? <==> NoAddressFrom(s, p)
    decreases |s| - p
  {
    if MatchAt(s, p).Some? {
      MatchAtHasAddress(s, p);
      assert Search(s, p).Some?;
    } else {
      NoMatchAtNoAddressAt(s, p);
      if p < |s| {
        assert Search(s, p) == Search(s, p + 1);
        SearchNoneIff(s, p + 1);
        NoAddressFromStep(s, p);
      } else {
        assert Search(s, p).None?;
        NoAddressFromEnd(s);
      }
    }
  }

  /**
   * A match found from `p` on: its groups have the shape of the pattern, and
   * no address starts between `p` and the start of the match (search is leftmost).
   */
  lemma {:induction false} SearchSound(s: string, p: nat)
    requires p <= |s| && Search(s, p).Some?
    ensures MatchSound(s, Search(s, p).value)
    ensures forall i, j :: p <= i < Search(s, p).value.Start() && i <= j <= |s| ==> !Address(s[i..j])
    decreases |s| - p
  {
    if MatchAt(s, p).Some? {
      MatchAtSound(s, p);
    } else {
      assert p < |s| && Search(s, p) == Search(s, p + 1);
      SearchSound(s, p + 1);
      NoMatchAtNoAddressAt(s, p);
      NoAddressBeforeStep(s, p, Search(s, p).value.Start());
    }
  }

  /** Adding the position `p`, where no address starts, to a range where none starts. */
  lemma NoAddressBeforeStep(s: string, p: nat, e: nat)
    requires p < e && NoAddressAt(s, p)
    requires forall i, j :: p + 1 <= i < e && i <= j <= |s| ==> !Address(s[i..j])
    ensures forall i, j :: p <= i < e && i <= j <= |s| ==> !Address(s[i..j])
  {
    forall i, j | p <= i < e && i <= j <= |s| ensures !Address(s[i..j]) {
      if i == p { assert NoAddressAt(s, p); }
    }
  }

  // ---------------------------------------------------------------------
  // What get_name_email_tuple and is_email_valid promise

  /** `e` occurs in `s` at `i`. */
  ghost predicate OccursAt(s: string, i: nat, e: string)
  {
    i + |e| <= |s| && s[i..i + |e|] == e
  }

  /** `s` holds, from `i` on, the name `n`, space, the '<' at `lt` and the address `e`. */
  ghost predicate NamedAt(s: string, i: nat, n: string, lt: nat, e: string)
  {
    && i + |n| <= lt < |s|
    && s[i..i + |n|] == n && AllSpace(s[i + |n|..lt]) && s[lt] == '<'
    && OccursAt(s, lt + 1, e)
  }

  /** `get_name_email_tuple` fails on `None` and exactly when no substring is an address. */
  lemma TupleNoneIff(x: Option<string>)
    ensures GetNameEmailTuple(x).None? <==> x.None? || !HasAddress(x.value)
  {
    if x.Some? { SearchNoneIff(x.value, 0); }
  }

  /**
   * A tuple found is made of the pattern's groups: the email an address
   * occurring in the input, the name (if any) a name followed in the input by
   * space, '<' and that email.
   */
  lemma TupleSound(x: Option<string>)
    requires GetNameEmailTuple(x).Some?
    ensures Address(GetNameEmailTuple(x).value.email)
    ensures exists i: nat :: OccursAt(x.value, i, GetNameEmailTuple(x).value.email)
    ensures GetNameEmailTuple(x).value.name.Some? ==>
              var n := GetNameEmailTuple(x).value.name.value;
              var e := GetNameEmailTuple(x).value.email;
              exists i: nat, lt: nat :: NamedAt(x.value, i, n, lt, e)
  {
    var s := x.value;
    var m := Search(s, 0).value;
    var e := s[m.email.lo..m.email.hi];
    var name := if m.name.Some? then Some(s[m.name.value.lo..m.name.value.hi]) else None;
    assert GetNameEmailTuple(x) == Some(NameEmail(name, e));
    SearchSound(s, 0);
    MatchParts(s, m);
  }

  /** The groups of a sound match, read as the email and the name around it. */
  lemma MatchParts(s: string, m: RegexMatch)
    requires WellFormed(m, |s|) && MatchSound(s, m)
    ensures Address(s[m.email.lo..m.email.hi]) && OccursAt(s, m.email.lo, s[m.email.lo..m.email.hi])
    ensures m.name.Some? ==>
              NamedAt(s, m.name.value.lo, s[m.name.value.lo..m.name.value.hi], m.email.lo - 1, s[m.email.lo..m.email.hi])
  {
  }

  /** `is_email_valid` holds exactly when the input is present and some substring of it is an address. */
  lemma IsEmailValidIff(x: Option<string>)
    ensures IsEmailValid(x) <==> x.Some? && HasAddress(x.value)
  {
    TupleNoneIff(x);
  }

  /** Because the pattern is searched for, text around an address does not make the input invalid. */
  lemma JunkAroundAddressIsValid(s: string, before: string, e: string, after: string)
    requires s == before + e + after && Address(e)
    ensures IsEmailValid(Some(s))
  {
    assert s[|before|..|before| + |e|] == e;
    IsEmailValidIff(Some(s));
  }

  /** A bare address parses to `(None, address)`. */
  lemma BareAddressTuple(e: string)
    requires Address(e)
    ensures GetNameEmailTuple(Some(e)) == Some(NameEmail(None, e))
  {
    AddressChars(e);
    var lt := RunEnd(e, 0, NameOrSpaceCls);
    assert NameOpen(e, 0).None? by {
      if lt < |e| { assert IsUserChar(e[lt]) || e[lt] == '@'; }
    }
    assert e[0..|e|] == e;
    EmailEndBeforeClose(e, 0, |e|);
    assert MatchAt(e, 0) == Some(RegexMatch(None, Span(0, |e|)));
    assert Search(e, 0) == MatchAt(e, 0);
  }

  lemma RunEndIs(s: string, i: nat, j: nat, cls: CharClass)
    requires i <= j <= |s|
    requires forall k :: i <= k < j ==> InClass(s[k], cls)
    requires j < |s| ==> !InClass(s[j], cls)
    ensures RunEnd(s, i, cls) == j
  {
  }

  /** The tuple built from a match with a name group at the start of `s`. */
  lemma NamedMatchTuple(s: string, nEnd: nat, lt: nat, q: nat)
    requires nEnd <= lt < q <= |s|
    requires NameOpen(s, 0) == Some(lt) && EmailEnd(s, lt + 1) == Some(q) && TrimEnd(s, 0, lt) == nEnd
    ensures GetNameEmailTuple(Some(s)) == Some(NameEmail(Some(s[..nEnd]), s[lt + 1..q]))
  {
    var m := RegexMatch(Some(Span(0, nEnd)), Span(lt + 1, q));
    assert MatchAt(s, 0) == Some(m);
    TupleOfMatchAtStart(s, m);
    assert s[0..nEnd] == s[..nEnd];
  }

  /** A match at the very start is what the search finds, and the tuple holds its groups. */
  lemma TupleOfMatchAtStart(s: string, m: RegexMatch)
    requires MatchAt(s, 0) == Some(m)
    ensures GetNameEmailTuple(Some(s)) ==
              Some(NameEmail(if m.name.Some? then Some(s[m.name.value.lo..m.name.value.hi]) else None, s[m.email.lo..m.email.hi]))
  {
    assert Search(s, 0) == Some(m);
  }

  lemma NotAddressUnlessWordAtEnd(t: string)
    requires |t| == 0 || !IsWordChar(t[|t| - 1])
    ensures !Address(t)
  {
    if Address(t) { AddressChars(t); }
  }

  /** The email group after '<' stops where the address does when at most a '>' follows. */
  lemma EmailEndBeforeClose(s: string, lo: nat, q: nat)
    requires lo < q <= |s| && Address(s[lo..q])
    requires q == |s| || (q + 1 == |s| && s[q] == '>')
    ensures EmailEnd(s, lo) == Some(q)
  {
    EmailEndComplete(s, lo, q);
    if q < |s| {
      EmailEndNotOnClose(s, lo, q);
    }
  }

  /** The email group cannot take in a final '>'. */
  lemma EmailEndNotOnClose(s: string, lo: nat, q: nat)
    requires lo < q && q + 1 == |s| && s[q] == '>' && EmailEnd(s, lo).Some?
    ensures EmailEnd(s, lo).value != |s|
  {
    EmailEndSound(s, lo);
    if EmailEnd(s, lo).value == |s| {
      var t := s[lo..|s|];
      assert t[|t| - 1] == s[q];
      assert !IsWordChar('>');
      NotAddressUnlessWordAtEnd(t);
      assert false;
    }
  }

  /** A name followed by space and '<' opens the name group at 0 and ends it where the name ends. */
  lemma NameOpenAtStart(s: string, nEnd: nat, lt: nat)
    requires 0 < nEnd <= lt < |s|
    requires NameChars(s[..nEnd]) && AllSpace(s[nEnd..lt]) && s[lt] == '<'
    ensures NameOpen(s, 0) == Some(lt) && TrimEnd(s, 0, lt) == nEnd
  {
    var x := s[..nEnd];
    forall k | 0 <= k < lt ensures InClass(s[k], NameOrSpaceCls) {
      if k < nEnd { assert s[k] == x[k]; } else { assert s[k] == s[nEnd..lt][k - nEnd]; }
    }
    RunEndIs(s, 0, lt, NameOrSpaceCls);
    assert IsNameChar(s[0]) by { assert s[0] == x[0]; }
    var hi := TrimEnd(s, 0, lt);
    assert !IsSpace(s[nEnd - 1]) by { assert s[nEnd - 1] == x[nEnd - 1]; }
    forall k | nEnd <= k < lt ensures IsSpace(s[k]) { assert s[k] == s[nEnd..lt][k - nEnd]; }
  }

  /**
   * Positional form of NamedAddressTuple: a name ending at `nEnd`, space up to
   * the '<' at `lt`, an address up to `q`, and nothing or '>' after it.
   */
  lemma NamedAddressAt(s: string, nEnd: nat, lt: nat, q: nat)
    requires 0 < nEnd <= lt < q <= |s|
    requires NameChars(s[..nEnd]) && AllSpace(s[nEnd..lt]) && s[lt] == '<' && Address(s[lt + 1..q])
    requires q == |s| || (q + 1 == |s| && s[q] == '>')
    ensures GetNameEmailTuple(Some(s)) == Some(NameEmail(Some(s[..nEnd]), s[lt + 1..q]))
  {
    NameOpenAtStart(s, nEnd, lt);
    EmailEndBeforeClose(s, lt + 1, q);
    NamedMatchTuple(s, nEnd, lt, q);
  }

  /** `Name <address>` (and the same without '>') parses to `(Name, address)`. */
  lemma NamedAddressTuple(s: string, n: string, sp: string, e: string, close: string)
    requires s == n + sp + "<" + e + close
    requires Name(n) && AllSpace(sp) && Address(e) && (close == "" || close == ">")
    ensures GetNameEmailTuple(Some(s)) == Some(NameEmail(Some(n), e))
  {
    NameIffNameChars(n);
    var a := n + sp;
    var b := a + "<";
    var c := b + e;
    var lt, q := |a|, |c|;
    SliceOfAppend(c, close, 0, |n|);
    SliceOfAppend(b, e, 0, |n|);
    SliceOfAppend(a, "<", 0, |n|);
    SliceOfAppend(n, sp, 0, |n|);
    assert s[..|n|] == n by { assert n[0..|n|] == n; }
    SliceOfAppend(c, close, |n|, lt);
    SliceOfAppend(b, e, |n|, lt);
    SliceOfAppend(a, "<", |n|, lt);
    assert s[|n|..lt] == sp by { assert a[|n|..lt] == sp; }
    assert s[lt] == c[lt] == b[lt] == '<';
    SliceOfAppend(c, close, lt + 1, q);
    assert s[lt + 1..q] == e by { assert c[lt + 1..q] == e; }
    assert close == ">" ==> s[q] == '>';
    NamedAddressAt(s, |n|, lt, q);
  }

  /** A slice within the left part of a concatenation is a slice of that part. */
  lemma SliceOfAppend(x: string, y: string, i: nat, j: nat)
    requires i <= j <= |x|
    ensures (x + y)[i..j] == x[i..j]
  {
  }

  /** An address inside `s` contains an '@' of `s`. */
  lemma AddressHasAt(s: string, i: nat, j: nat)
    requires i <= j <= |s| && Address(s[i..j])
    ensures exists k :: i <= k < j && s[k] == '@'
  {
    var t := s[i..j];
    var at: nat, m: nat :| AddressSplit(t, at, m);
    assert s[i + at] == t[at];
  }

  /** A string without '@' holds no address. */
  lemma NoAtNoAddress(s: string)
    requires forall k :: 0 <= k < |s| ==> s[k] != '@'
    ensures !HasAddress(s)
  {
    forall i, j | 0 <= i <= j <= |s| ensures !Address(s[i..j]) {
      if Address(s[i..j]) { AddressHasAt(s, i, j); }
    }
  }

  /** A user part, '@', one domain label and a TLD make an address. */
  lemma AddressFromParts(u: string, d: string, tld: string)
    requires UserPart(u) && DomainLabel(d) && Tld(tld)
    ensures Address(u + "@" + d + tld)
  {
    var t := u + "@" + d + tld;
    var at := |u|;
    var m := |u| + 1 + |d|;
    assert t[..at] == u;
    assert t[at + 1..m] == d;
    assert t[m..] == tld;
    DomainPrefixIsLabel(d);
    assert AddressSplit(t, at, m);
  }

  // The cases mailr's tests (tests.py) name.

  /** `None`, the empty string and a word without '@' are not addresses. */
  lemma InvalidEmailExamples()
    ensures !IsEmailValid(None)
    ensures !IsEmailValid(Some("")) && !IsEmailValid(Some("blah"))
  {
    IsEmailValidIff(Some(""));
    IsEmailValidIff(Some("blah"));
    NoAtNoAddress("");
    NoAtNoAddress("blah");
  }

  /** "Amit Ruparel" is a name: two words and a space. */
  lemma AmitRuparelIsName()
    ensures Name("Amit Ruparel")
  {
    assert NameChars("Amit Ruparel");
    NameIffNameChars("Amit Ruparel");
  }

  /** `"ami@t.com"` is valid. */
  lemma BareEmailExample()
    ensures IsEmailValid(Some("ami@t.com"))
  {
    assert "ami" + "@" + "t." + "com" == "ami@t.com";
    AddressFromParts("ami", "t.", "com");
    BareAddressTuple("ami@t.com");
  }

  /** `"Amit Ruparel <amit@ruparel.com>"` is valid. */
  lemma NamedEmailExample()
    ensures IsEmailValid(Some("Amit Ruparel <amit@ruparel.com>"))
  {
    NamedEmailExampleSpelling();
    AddressFromParts("amit", "ruparel.", "com");
    AmitRuparelIsName();
    NamedAddressTuple("Amit Ruparel <amit@ruparel.com>", "Amit Ruparel", " ", "amit@ruparel.com", ">");
  }

  /** `"amitruparel@gmail.com"` parses to no name and the whole string. */
  lemma BareTupleExample()
    ensures GetNameEmailTuple(Some("amitruparel@gmail.com")) == Some(NameEmail(None, "amitruparel@gmail.com"))
  {
    assert "amitruparel" + "@" + "gmail." + "com" == "amitruparel@gmail.com";
    AddressFromParts("amitruparel", "gmail.", "com");
    BareAddressTuple("amitruparel@gmail.com");
  }

  /** `"Amit Ruparel <aa@gmail.com>"` parses to the name and the address inside the brackets. */
  lemma NamedTupleExample()
    ensures GetNameEmailTuple(Some("Amit Ruparel <aa@gmail.com>")) == Some(NameEmail(Some("Amit Ruparel"), "aa@gmail.com"))
  {
    NamedTupleExampleSpelling();
    AddressFromParts("aa", "gmail.", "com");
    AmitRuparelIsName();
    NamedAddressTuple("Amit Ruparel <aa@gmail.com>", "Amit Ruparel", " ", "aa@gmail.com", ">");
  }

  /** The parts the two named examples are built from, spelt out. */
  lemma NamedEmailExampleSpelling()
    ensures "amit" + "@" + "ruparel." + "com" == "amit@ruparel.com"
    ensures "Amit Ruparel" + " " + "<" + "amit@ruparel.com" + ">" == "Amit Ruparel <amit@ruparel.com>"
  {
  }

  lemma NamedTupleExampleSpelling()
    ensures "aa" + "@" + "gmail." + "com" == "aa@gmail.com"
    ensures "Amit Ruparel" + " " + "<" + "aa@gmail.com" + ">" == "Amit Ruparel <aa@gmail.com>"
  {
  }
}

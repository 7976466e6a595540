/** Which domain a host owns (verify.html and, word for word, verify-receipt.html):
    the prevailing rule of the Public Suffix List and the closed top-level domains. */
module PublicSuffix {
  import opened Wrappers
  import opened Strings

  type Labels = ls: seq<string> | ls != [] witness [""]

  /** A rule of the list's ICANN section; `ex` marks an exception rule. */
  datatype Rule = Rule(ex: bool, labels: Labels)

  /** The two published lists. */
  datatype Lists = Lists(rules: seq<Rule>, spec13: set<string>)

  datatype State = Pass | Fail | Unknown

  const CLOSED_TLDS: seq<string> := ["booking", "hotels"]

  predicate LabelChar(c: char) {
    'a' <= c <= 'z' || '0' <= c <= '9' || c == '-'
  }

  /** `/^(?!-)[a-z0-9-]{1,63}(?<!-)$/` */
  predicate IsLabel(s: string) {
    1 <= |s| <= 63 && (forall i :: 0 <= i < |s| ==> LabelChar(s[i])) && s[0] != '-' && s[|s| - 1] != '-'
  }

  predicate AllLabels(labels: seq<string>) {
    forall p :: p in labels ==> IsLabel(p)
  }

  /** The rule's labels, "*" for any, are the last labels of the name. */
  predicate Matches(rule: Rule, labels: seq<string>) {
    |rule.labels| <= |labels| &&
    forall i :: 0 <= i < |rule.labels| ==>
      rule.labels[i] == "*" || rule.labels[i] == labels[|labels| - |rule.labels| + i]
  }

  // ----------------------------------------------------------- the scan's result

  /** The labels of the suffix by the last matching exception rule, if there is one. */
  function LastException(rules: seq<Rule>, labels: seq<string>): Option<nat> {
    if rules == [] then None
    else
      var r := rules[|rules| - 1];
      if r.ex && Matches(r, labels) then Some(|r.labels| - 1) else LastException(rules[..|rules| - 1], labels)
  }

  /** The labels of the longest other matching rule, at least the 1 of the default rule "*". */
  function Longest(rules: seq<Rule>, labels: seq<string>): (n: nat)
    ensures n >= 1
  {
    if rules == [] then 1
    else
      var r := rules[|rules| - 1];
      var before := Longest(rules[..|rules| - 1], labels);
      if !r.ex && Matches(r, labels) && |r.labels| > before then |r.labels| else before
  }

  function SuffixLength(rules: seq<Rule>, labels: seq<string>): nat {
    var e := LastException(rules, labels);
    if e.Some? then e.value else Longest(rules, labels)
  }

  /** The name's last labels, one more than the suffix has. */
  function Registrable(rules: seq<Rule>, labels: seq<string>): seq<string>
    requires SuffixLength(rules, labels) < |labels|
  {
    labels[|labels| - SuffixLength(rules, labels) - 1..]
  }

  predicate ClosedTld(lists: Lists, tld: string) {
    tld in lists.spec13 || tld in CLOSED_TLDS
  }

  /** A host-owned domain: valid labels, one more than its public suffix, under an open domain. */
  function OwnedState(cd: string, lists: Option<Lists>): State {
    var labels := Split(cd, '.');
    if !AllLabels(labels) then Fail
    else if lists.None? then Unknown
    else if |labels| == SuffixLength(lists.value.rules, labels) + 1 && !ClosedTld(lists.value, labels[|labels| - 1])
    then Pass else Fail
  }

  method HostOwned(cd: string, lists: Option<Lists>) returns (state: State)
    ensures state == OwnedState(cd, lists)
  {
    var labels := Split(cd, '.');
    if !AllLabels(labels) {
      return Fail;
    }
    if lists.None? {
      return Unknown;
    }
    var rules := lists.value.rules;
    var exception: Option<nat> := None;
    var longest := 1;
    for i := 0 to |rules|
      invariant exception == LastException(rules[..i], labels)
      invariant longest == Longest(rules[..i], labels)
    {
      var r := rules[i];
      assert rules[..i + 1][..i] == rules[..i];
      if !Matches(r, labels) {
        continue;
      }
      if r.ex {
        exception := Some(|r.labels| - 1);
      } else {
        longest := if longest >= |r.labels| then longest else |r.labels|;
      }
    }
    assert rules[..|rules|] == rules;
    var suffix := if exception.Some? then exception.value else longest;
    if |labels| <= suffix {
      return Fail;
    }
    var registrable := Join(labels[|labels| - suffix - 1..], '.');
    SameNameSameLabels(cd, suffix + 1);
    if registrable != cd {
      return Fail;
    }
    if ClosedTld(lists.value, labels[|labels| - 1]) {
      return Fail;
    }
    return Pass;
  }

  /** Comparing the joined last n labels with the name is counting its labels. */
  lemma {:induction false} SameNameSameLabels(cd: string, n: nat)
    requires 0 < n <= |Split(cd, '.')|
    ensures Join(Split(cd, '.')[|Split(cd, '.')| - n..], '.') == cd <==> |Split(cd, '.')| == n
  {
    var labels := Split(cd, '.');
    var last := labels[|labels| - n..];
    JoinOfSplit(cd, '.');
    forall p | p in last ensures '.' !in p {
      assert p in labels;
    }
    SplitOfJoin(last, '.');
    if n == |labels| {
      assert last == labels;
    }
  }

  // ------------------------------------------------- the declarative algorithm

  /** Suffix length s is what the list's algorithm prescribes: an exception rule prevails; without
      one the longest matching rule does, the default rule "*" among them. */
  ghost predicate Prescribed(rules: seq<Rule>, labels: seq<string>, s: nat) {
    if exists r :: r in rules && r.ex && Matches(r, labels)
    then exists r :: r in rules && r.ex && Matches(r, labels) && s == |r.labels| - 1
    else
      && (s == 1 || exists r :: r in rules && Matches(r, labels) && s == |r.labels|)
      && s >= 1 && forall r :: r in rules && Matches(r, labels) ==> |r.labels| <= s
  }

  /** All matching exception rules have one length: so when at most one matches. */
  ghost predicate ExceptionsAgree(rules: seq<Rule>, labels: seq<string>) {
    forall a, b :: a in rules && b in rules && a.ex && b.ex && Matches(a, labels) && Matches(b, labels)
                   ==> |a.labels| == |b.labels|
  }

  lemma {:induction false} LastExceptionIsOne(rules: seq<Rule>, labels: seq<string>)
    ensures LastException(rules, labels).None? ==> forall r :: r in rules && r.ex ==> !Matches(r, labels)
    ensures LastException(rules, labels).Some? ==>
              exists r ::
                r in rules && r.ex && Matches(r, labels) && LastException(rules, labels).value == |r.labels| - 1
  {
    if rules != [] {
      var last, before := rules[|rules| - 1], rules[..|rules| - 1];
      LastExceptionIsOne(before, labels);
      assert rules == before + [last];
      assert last in rules;
      if !(last.ex && Matches(last, labels)) && LastException(before, labels).Some? {
        var r :| r in before && r.ex && Matches(r, labels) && LastException(before, labels).value == |r.labels| - 1;
        assert r in rules;
      }
    }
  }

  lemma {:induction false} LongestIsMaximum(rules: seq<Rule>, labels: seq<string>)
    ensures forall r :: r in rules && !r.ex && Matches(r, labels) ==> |r.labels| <= Longest(rules, labels)
    ensures Longest(rules, labels) == 1
         || exists r :: r in rules && !r.ex && Matches(r, labels) && |r.labels| == Longest(rules, labels)
  {
    if rules != [] {
      var last, before := rules[|rules| - 1], rules[..|rules| - 1];
      LongestIsMaximum(before, labels);
      assert rules == before + [last];
      assert last in rules;
      if Longest(rules, labels) == Longest(before, labels) != 1 {
        var r :| r in before && !r.ex && Matches(r, labels) && |r.labels| == Longest(before, labels);
        assert r in rules;
      }
    }
  }

  /** The one-pass scan finds a prescribed suffix, and where the matching exceptions agree there is no other. */
  lemma {:induction false} ScanIsPrescribed(rules: seq<Rule>, labels: seq<string>, s: nat)
    ensures Prescribed(rules, labels, SuffixLength(rules, labels))
    ensures ExceptionsAgree(rules, labels) && Prescribed(rules, labels, s) ==> s == SuffixLength(rules, labels)
  {
    LastExceptionIsOne(rules, labels);
    LongestIsMaximum(rules, labels);
  }

  // ----------------------------------------------------------------- rule order

  lemma SameMembers(a: seq<Rule>, b: seq<Rule>, r: Rule)
    requires multiset(a) == multiset(b)
    ensures r in a <==> r in b
  {
    assert r in a <==> r in multiset(a);
    assert r in b <==> r in multiset(b);
  }

  lemma {:induction false} ReorderingKeepsSuffix(a: seq<Rule>, b: seq<Rule>, labels: seq<string>)
    requires multiset(a) == multiset(b) && ExceptionsAgree(a, labels)
    ensures SuffixLength(a, labels) == SuffixLength(b, labels)
  {
    forall r ensures r in a <==> r in b {
      SameMembers(a, b, r);
    }
    ScanIsPrescribed(b, labels, 0);
    ScanIsPrescribed(a, labels, SuffixLength(b, labels));
  }

  /** The list with rule i moved to the end. */
  function MovedLast(rules: seq<Rule>, i: nat): (r: seq<Rule>)
    requires i < |rules|
    ensures multiset(r) == multiset(rules)
  {
    assert rules == rules[..i] + [rules[i]] + rules[i + 1..];
    rules[..i] + rules[i + 1..] + [rules[i]]
  }

  /** The suffix is independent of the order of the rules exactly when the exception rules that
      match the name agree. */
  lemma {:induction false} OrderIndependence(rules: seq<Rule>, labels: seq<string>)
    ensures (forall other :: multiset(other) == multiset(rules) ==>
             SuffixLength(other, labels) == SuffixLength(rules, labels))
       <==> ExceptionsAgree(rules, labels)
  {
    if ExceptionsAgree(rules, labels) {
      forall other | multiset(other) == multiset(rules)
        ensures SuffixLength(other, labels) == SuffixLength(rules, labels)
      {
        ReorderingKeepsSuffix(rules, other, labels);
      }
    } else {
      var a, b :| a in rules && b in rules && a.ex && b.ex && Matches(a, labels) && Matches(b, labels)
                  && |a.labels| != |b.labels|;
      var i :| 0 <= i < |rules| && rules[i] == a;
      var j :| 0 <= j < |rules| && rules[j] == b;
      assert SuffixLength(MovedLast(rules, i), labels) == |a.labels| - 1;
      assert SuffixLength(MovedLast(rules, j), labels) == |b.labels| - 1;
    }
  }

  // -------------------------------------------------------------- registrability

  /** A rule no longer than the kept end of a name matches the end exactly when it matches the name. */
  lemma MatchesEnd(r: Rule, labels: seq<string>, n: nat)
    requires n <= |labels|
    ensures Matches(r, labels[|labels| - n..]) <==> |r.labels| <= n && Matches(r, labels)
  {
    var end := labels[|labels| - n..];
    assert forall j :: 0 <= j < n ==> end[j] == labels[|labels| - n + j];
  }

  lemma {:induction false} LastExceptionOfEnd(rules: seq<Rule>, labels: seq<string>, n: nat)
    requires n <= |labels|
    ensures var e := LastException(rules, labels);
            var f := LastException(rules, labels[|labels| - n..]);
            (e.None? ==> f.None?) && (e.Some? && e.value + 1 == n ==> f == e)
  {
    if rules != [] {
      MatchesEnd(rules[|rules| - 1], labels, n);
      LastExceptionOfEnd(rules[..|rules| - 1], labels, n);
    }
  }

  lemma {:induction false} LongestOfEnd(rules: seq<Rule>, labels: seq<string>, n: nat)
    requires n <= |labels| && Longest(rules, labels) <= n
    ensures Longest(rules, labels[|labels| - n..]) == Longest(rules, labels)
  {
    if rules != [] {
      MatchesEnd(rules[|rules| - 1], labels, n);
      LongestOfEnd(rules[..|rules| - 1], labels, n);
    }
  }

  /** The registrable domain of any longer name is its own registrable domain. */
  lemma {:induction false} RegistrableIsIdempotent(rules: seq<Rule>, labels: seq<string>)
    requires SuffixLength(rules, labels) < |labels|
    ensures var domain := Registrable(rules, labels);
            && SuffixLength(rules, domain) == SuffixLength(rules, labels)
            && |domain| == SuffixLength(rules, domain) + 1
            && Registrable(rules, domain) == domain
  {
    var n := SuffixLength(rules, labels) + 1;
    LastExceptionOfEnd(rules, labels, n);
    if LastException(rules, labels).None? {
      LongestOfEnd(rules, labels, n);
    }
  }

  lemma {:induction false} OwnedByLabels(labels: Labels, lists: Lists)
    requires AllLabels(labels) && |labels| == SuffixLength(lists.rules, labels) + 1
    ensures OwnedState(Join(labels, '.'), Some(lists)) == if ClosedTld(lists, labels[|labels| - 1]) then Fail else Pass
  {
    forall p | p in labels ensures '.' !in p {
      LabelHasNoDot(p);
    }
    SplitOfJoin(labels, '.');
  }

  predicate EndsOpen(labels: seq<string>, lists: Lists)
    requires labels != []
  {
    !ClosedTld(lists, labels[|labels| - 1])
  }

  lemma {:induction false} OwnedTail(front: seq<string>, domain: Labels, lists: Lists)
    requires AllLabels(front + domain) && |domain| == SuffixLength(lists.rules, domain) + 1
    ensures OwnedState(Join(domain, '.'), Some(lists)) == if EndsOpen(front + domain, lists) then Pass else Fail
  {
    assert (front + domain)[|front + domain| - 1] == domain[|domain| - 1];
    forall p | p in domain ensures IsLabel(p) {
      assert p in front + domain;
    }
    OwnedByLabels(domain, lists);
  }

  lemma FrontAndEnd(labels: seq<string>, n: nat)
    requires n <= |labels|
    ensures labels[..|labels| - n] + labels[|labels| - n..] == labels
  {
  }

  /** So, unless its top-level domain is closed, it is a host-owned domain. */
  lemma {:induction false} RegistrableIsOwned(labels: Labels, lists: Lists)
    requires AllLabels(labels)
    requires SuffixLength(lists.rules, labels) < |labels|
    ensures OwnedState(Join(Registrable(lists.rules, labels), '.'), Some(lists))
         == if EndsOpen(labels, lists) then Pass else Fail
  {
    var domain := Registrable(lists.rules, labels);
    RegistrableIsIdempotent(lists.rules, labels);
    FrontAndEnd(labels, |domain|);
    OwnedTail(labels[..|labels| - |domain|], domain, lists);
  }

  lemma LabelHasNoDot(s: string)
    requires IsLabel(s)
    ensures '.' !in s
  {
  }
}

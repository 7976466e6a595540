/** The string operations the repository's code is written with. */
module Strings {

  function Split(s: string, c: char): (parts: seq<string>)
    ensures parts != []
    ensures forall p :: p in parts ==> c !in p
  {
    if s == "" then [""]
    else if s[0] == c then [""] + Split(s[1..], c)
    else
      var rest := Split(s[1..], c);
      [[s[0]] + rest[0]] + rest[1..]
  }

  function Join(parts: seq<string>, c: char): string
    requires parts != []
  {
    if |parts| == 1 then parts[0] else parts[0] + [c] + Join(parts[1..], c)
  }

  function DropPrefix(s: string, prefix: string): string {
    if prefix <= s then s[|prefix|..] else s
  }

  predicate EndsWith(s: string, suffix: string) {
    |suffix| <= |s| && s[|s| - |suffix|..] == suffix
  }

  predicate Contains(s: string, t: string) {
    t <= s || (s != "" && Contains(s[1..], t))
  }

  /** White space and line terminators, as `trim` knows them (section 22.1.3.32 of ECMA-262). */
  predicate IsSpace(c: char) {
    '\t' <= c <= '\r' || c in " \U{A0}\U{1680}\U{2028}\U{2029}\U{202F}\U{205F}\U{3000}\U{FEFF}"
    || '\U{2000}' <= c <= '\U{200A}'
  }

  function Trim(s: string): string {
    if s != "" && IsSpace(s[0]) then Trim(s[1..])
    else if s != "" && IsSpace(s[|s| - 1]) then Trim(s[..|s| - 1])
    else s
  }

  /** The longest beginning without any of `stops`. */
  function Until(s: string, stops: string): string {
    if s == "" || s[0] in stops then "" else [s[0]] + Until(s[1..], stops)
  }

  /** What follows the first c. */
  function After(s: string, c: char): string {
    if s == "" then "" else if s[0] == c then s[1..] else After(s[1..], c)
  }

  // ------------------------------------------------------------ split and join

  lemma {:induction false} JoinOfSplit(s: string, c: char)
    ensures Join(Split(s, c), c) == s
  {
    if s != "" {
      JoinOfSplit(s[1..], c);
      var rest := Split(s[1..], c);
      if s[0] == c {
        assert ([""] + rest)[1..] == rest;
      } else {
        var parts := Split(s, c);
        assert parts[1..] == rest[1..];
        if |rest| == 1 {
          assert Join(rest, c) == rest[0];
        } else {
          assert Join(rest, c) == rest[0] + [c] + Join(rest[1..], c);
        }
      }
    }
  }

  lemma Regroup(x: string, p: seq<string>, q: seq<string>)
    requires p != []
    ensures [x + (p + q)[0]] + (p + q)[1..] == ([x + p[0]] + p[1..]) + q
  {
    assert (p + q)[1..] == p[1..] + q;
  }

  /** Splitting two strings glued by the separator gives the parts of both. */
  lemma {:induction false} SplitOfGlued(a: string, b: string, c: char)
    ensures Split(a + [c] + b, c) == Split(a, c) + Split(b, c)
  {
    var whole := a + [c] + b;
    if a == "" {
      assert whole[1..] == b;
    } else {
      var tail := a[1..];
      assert whole[1..] == tail + [c] + b;
      SplitOfGlued(tail, b, c);
      if a[0] != c {
        Regroup([a[0]], Split(tail, c), Split(b, c));
      }
    }
  }

  lemma {:induction false} SplitOfPart(s: string, c: char)
    requires c !in s
    ensures Split(s, c) == [s]
  {
    if s != "" {
      SplitOfPart(s[1..], c);
      assert [s[0]] + s[1..] == s;
    }
  }

  lemma {:induction false} SplitOfJoin(parts: seq<string>, c: char)
    requires parts != [] && forall p :: p in parts ==> c !in p
    ensures Split(Join(parts, c), c) == parts
  {
    SplitOfPart(parts[0], c);
    if |parts| > 1 {
      SplitOfJoin(parts[1..], c);
      SplitOfGlued(parts[0], Join(parts[1..], c), c);
    }
  }

  lemma {:induction false} JoinOfTwo(a: seq<string>, b: seq<string>, c: char)
    requires a != [] && b != []
    ensures Join(a + b, c) == Join(a, c) + [c] + Join(b, c)
  {
    if |a| == 1 {
      assert (a + b)[1..] == b;
    } else {
      assert (a + b)[1..] == a[1..] + b;
      JoinOfTwo(a[1..], b, c);
    }
  }

  predicate EndsWithLabels(a: seq<string>, b: seq<string>) {
    |b| < |a| && a[|a| - |b|..] == b
  }

  lemma {:induction false} SuffixGivesLabels(front: string, b: string, c: char)
    ensures EndsWithLabels(Split(front + [c] + b, c), Split(b, c))
  {
    SplitOfGlued(front, b, c);
  }

  lemma {:induction false} LabelsGiveSuffix(a: string, b: string, c: char)
    requires EndsWithLabels(Split(a, c), Split(b, c))
    ensures EndsWith(a, [c] + b)
  {
    var la, lb := Split(a, c), Split(b, c);
    var front := la[..|la| - |lb|];
    JoinOfSplit(a, c);
    JoinOfSplit(b, c);
    assert la == front + lb;
    JoinOfTwo(front, lb, c);
    GluedEndsWith(Join(front, c), b, c);
  }

  lemma GluedEndsWith(a: string, b: string, c: char)
    ensures EndsWith(a + [c] + b, [c] + b)
  {
    assert a + [c] + b == a + ([c] + b);
  }

  /** A dotted name ends in "." and another exactly when the other's labels end its own. */
  lemma {:induction false} SuffixIsLabelSuffix(a: string, b: string, c: char)
    ensures EndsWith(a, [c] + b) <==> EndsWithLabels(Split(a, c), Split(b, c))
  {
    if EndsWith(a, [c] + b) {
      var front := a[..|a| - |b| - 1];
      assert a == front + [c] + b by {
        assert a == front + a[|a| - |b| - 1..];
      }
      SuffixGivesLabels(front, b, c);
    }
    if EndsWithLabels(Split(a, c), Split(b, c)) {
      LabelsGiveSuffix(a, b, c);
    }
  }
}

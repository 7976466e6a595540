/** JSON documents as JSON.parse gives them, and the comparison of verify.html that
    disregards member order. */
module Documents {
  import opened Wrappers

  datatype Json =
    | Null
    | Bool(b: bool)
    | Num(n: real)
    | Str(s: string)
    | Arr(items: seq<Json>)
    | Obj(members: seq<Member>)

  datatype Member = Member(key: string, value: Json)

  /** A Number as JavaScript has it. */
  datatype JsNumber = NaN | Finite(x: real) | Infinite(positive: bool)

  /** A JavaScript value read from a document: None is `undefined`. */
  type Value = Option<Json>

  function Find(members: seq<Member>, key: string): (v: Value)
    ensures v.Some? ==> exists i :: 0 <= i < |members| && members[i] == Member(key, v.value)
    ensures v.None? ==> forall i :: 0 <= i < |members| ==> members[i].key != key
  {
    if members == [] then None
    else if members[0].key == key then Some(members[0].value)
    else Find(members[1..], key)
  }

  /** `v?.key`: undefined for everything that is not an object with that member. */
  function Get(v: Value, key: string): Value {
    if v.Some? && v.value.Obj? then Find(v.value.members, key) else None
  }

  /** `typeof v === "object" && v !== null` */
  predicate IsObject(v: Value) {
    v.Some? && (v.value.Obj? || v.value.Arr?)
  }

  /** `===` between values of two documents: separately parsed objects are never identical. */
  predicate StrictlyEqual(a: Value, b: Value) {
    a == b && !IsObject(a)
  }

  /** `Number.isInteger`, with the integer. */
  function AsInteger(v: Value): Option<int> {
    if v.Some? && v.value.Num? && v.value.n.Floor as real == v.value.n then Some(v.value.n.Floor) else None
  }

  /** The values JavaScript takes for true. */
  predicate Truthy(v: Value) {
    v.Some? &&
    match v.value
    case Null => false
    case Bool(b) => b
    case Num(n) => n != 0.0
    case Str(s) => s != ""
    case _ => true
  }

  function AsString(v: Value): Option<string> {
    if v.Some? && v.value.Str? then Some(v.value.s) else None
  }

  // --------------------------------------------------------- the comparison

  /** `sameJson` */
  predicate SameJson(a: Json, b: Json)
    decreases a, 1
  {
    if a.Arr? || a.Obj? then
      if a.Arr? && b.Arr? then |a.items| == |b.items| && SameItems(a.items, b.items)
      else a.Obj? && b.Obj? && |a.members| == |b.members| && SameMembers(a.members, b.members)
    else a == b
  }

  predicate SameItems(xs: seq<Json>, ys: seq<Json>)
    requires |xs| == |ys|
    decreases xs, 0
  {
    xs == [] || (SameJson(xs[0], ys[0]) && SameItems(xs[1..], ys[1..]))
  }

  predicate SameMembers(ms: seq<Member>, others: seq<Member>)
    decreases ms, 0
  {
    ms == [] ||
    (var v := Find(others, ms[0].key);
     v.Some? && SameJson(ms[0].value, v.value) && SameMembers(ms[1..], others))
  }

  // ------------------------------------------------- what a document denotes

  /** JSON values as mathematics has them: sequences and finite maps. */
  datatype Datum =
    | DNull
    | DBool(b: bool)
    | DNum(n: real)
    | DStr(s: string)
    | DArr(items: seq<Datum>)
    | DObj(members: map<string, Datum>)

  function Denote(j: Json): Datum
    decreases j, 1
  {
    match j
    case Null => DNull
    case Bool(b) => DBool(b)
    case Num(n) => DNum(n)
    case Str(s) => DStr(s)
    case Arr(items) => DArr(DenoteItems(items))
    case Obj(members) => DObj(DenoteMembers(members))
  }

  function DenoteItems(items: seq<Json>): seq<Datum>
    decreases items, 0
  {
    if items == [] then [] else [Denote(items[0])] + DenoteItems(items[1..])
  }

  function DenoteMembers(members: seq<Member>): map<string, Datum>
    decreases members, 0
  {
    if members == [] then map[]
    else DenoteMembers(members[1..])[members[0].key := Denote(members[0].value)]
  }

  /** No parsed object holds one name twice. */
  predicate UniqueNames(members: seq<Member>) {
    forall i, j :: 0 <= i < j < |members| ==> members[i].key != members[j].key
  }

  predicate WellFormed(j: Json)
    decreases j, 1
  {
    match j
    case Arr(items) => AllItemsFormed(items)
    case Obj(members) => UniqueNames(members) && AllMembersFormed(members)
    case _ => true
  }

  predicate AllItemsFormed(items: seq<Json>)
    decreases items, 0
  {
    items == [] || (WellFormed(items[0]) && AllItemsFormed(items[1..]))
  }

  predicate AllMembersFormed(members: seq<Member>)
    decreases members, 0
  {
    members == [] || (WellFormed(members[0].value) && AllMembersFormed(members[1..]))
  }

  function Names(members: seq<Member>): set<string> {
    set i | 0 <= i < |members| :: members[i].key
  }

  lemma FoundIsFormed(members: seq<Member>, key: string)
    requires AllMembersFormed(members) && Find(members, key).Some?
    ensures WellFormed(Find(members, key).value)
  {
  }

  lemma {:induction false} DenoteMembersIsMap(members: seq<Member>)
    ensures DenoteMembers(members).Keys == Names(members)
    ensures forall k :: k in Names(members) ==>
              Find(members, k).Some? && DenoteMembers(members)[k] == Denote(Find(members, k).value)
  {
    if members != [] {
      var rest := members[1..];
      DenoteMembersIsMap(rest);
      assert Names(members) == {members[0].key} + Names(rest) by {
        forall i | 0 < i < |members| ensures members[i].key in Names(rest) {
          assert rest[i - 1] == members[i];
        }
        forall i | 0 <= i < |rest| ensures rest[i].key in Names(members) {
          assert rest[i] == members[i + 1];
        }
      }
    }
  }

  lemma {:induction false} NamesCount(members: seq<Member>)
    requires UniqueNames(members)
    ensures |Names(members)| == |members|
  {
    if members != [] {
      var rest := members[..|members| - 1];
      var last := members[|members| - 1].key;
      NamesCount(rest);
      assert Names(members) == Names(rest) + {last};
      assert last !in Names(rest);
    }
  }

  lemma EqualBySize(a: set<string>, b: set<string>)
    requires a <= b && |a| == |b|
    ensures a == b
  {
    assert |b - a| == 0;
  }

  // ------------------------------------------------------------ the theorem

  /** The comparison holds exactly when the two documents denote the same value. */
  lemma {:induction false} SameJsonIsEquality(a: Json, b: Json)
    requires WellFormed(a) && WellFormed(b)
    ensures SameJson(a, b) <==> Denote(a) == Denote(b)
    decreases a, 1
  {
    if a.Arr? && b.Arr? {
      DenoteItemsLength(a.items);
      DenoteItemsLength(b.items);
      if |a.items| == |b.items| {
        SameItemsIsEquality(a.items, b.items);
      }
    } else if a.Obj? && b.Obj? {
      SameMembersIsInclusion(a.members, b.members);
      InclusionBySize(a.members, b.members);
    }
  }

  /** One object's members are among those of another. */
  predicate Included(ms: seq<Member>, others: seq<Member>) {
    forall k :: k in DenoteMembers(ms) ==>
      k in DenoteMembers(others) && DenoteMembers(others)[k] == DenoteMembers(ms)[k]
  }

  lemma {:induction false} InclusionBySize(a: seq<Member>, b: seq<Member>)
    requires UniqueNames(a) && UniqueNames(b)
    ensures |a| == |b| && Included(a, b) <==> DenoteMembers(a) == DenoteMembers(b)
  {
    DenoteMembersIsMap(a);
    DenoteMembersIsMap(b);
    NamesCount(a);
    NamesCount(b);
    if |a| == |b| && Included(a, b) {
      EqualBySize(DenoteMembers(a).Keys, DenoteMembers(b).Keys);
    }
  }

  lemma DenoteItemsLength(items: seq<Json>)
    ensures |DenoteItems(items)| == |items|
  {
  }

  lemma {:induction false} SameItemsIsEquality(xs: seq<Json>, ys: seq<Json>)
    requires |xs| == |ys| && AllItemsFormed(xs) && AllItemsFormed(ys)
    ensures SameItems(xs, ys) <==> DenoteItems(xs) == DenoteItems(ys)
    decreases xs, 0
  {
    if xs != [] {
      SameJsonIsEquality(xs[0], ys[0]);
      SameItemsIsEquality(xs[1..], ys[1..]);
      var dx, dy := DenoteItems(xs), DenoteItems(ys);
      assert dx[0] == Denote(xs[0]) && dx[1..] == DenoteItems(xs[1..]);
      assert dy[0] == Denote(ys[0]) && dy[1..] == DenoteItems(ys[1..]);
    }
  }

  lemma {:induction false} SameMembersIsInclusion(ms: seq<Member>, others: seq<Member>)
    requires AllMembersFormed(ms) && UniqueNames(ms) && AllMembersFormed(others)
    ensures SameMembers(ms, others) <==> Included(ms, others)
    decreases ms, 0
  {
    if ms != [] {
      var v := Find(others, ms[0].key);
      assert UniqueNames(ms[1..]);
      SameMembersIsInclusion(ms[1..], others);
      if v.Some? {
        FoundIsFormed(others, ms[0].key);
        SameJsonIsEquality(ms[0].value, v.value);
      }
      IncludedStep(ms, others);
    }
  }

  lemma IncludedStep(ms: seq<Member>, others: seq<Member>)
    requires ms != [] && UniqueNames(ms)
    ensures Included(ms, others) <==>
              var v := Find(others, ms[0].key);
              v.Some? && Denote(ms[0].value) == Denote(v.value) && Included(ms[1..], others)
  {
    DenoteMembersIsMap(ms[1..]);
    DenoteMembersIsMap(others);
    assert ms[0].key !in DenoteMembers(ms[1..]);
  }

  /** So it is an equivalence, and the order of members does not matter at any depth. */
  lemma {:induction false} SameJsonIsEquivalence(a: Json, b: Json, c: Json)
    requires WellFormed(a) && WellFormed(b) && WellFormed(c)
    ensures SameJson(a, a)
    ensures SameJson(a, b) <==> SameJson(b, a)
    ensures SameJson(a, b) && SameJson(b, c) ==> SameJson(a, c)
  {
    SameJsonIsEquality(a, a);
    SameJsonIsEquality(a, b);
    SameJsonIsEquality(b, a);
    SameJsonIsEquality(b, c);
    SameJsonIsEquality(a, c);
  }

  lemma {:induction false} MemberOrderIsIgnored(a: seq<Member>, b: seq<Member>)
    requires WellFormed(Obj(a)) && WellFormed(Obj(b))
    requires multiset(a) == multiset(b)
    ensures SameJson(Obj(a), Obj(b))
  {
    DenoteMembersIsMap(a);
    DenoteMembersIsMap(b);
    forall m | m in a ensures m in b { assert m in multiset(a); }
    forall m | m in b ensures m in a { assert m in multiset(b); }
    forall k ensures k in Names(a) <==> k in Names(b) {
      if k in Names(a) {
        assert Member(k, Find(a, k).value) in b;
      }
      if k in Names(b) {
        assert Member(k, Find(b, k).value) in a;
      }
    }
    assert Names(a) == Names(b);
    forall k | k in Names(a) ensures Find(a, k) == Find(b, k) {
      assert Member(k, Find(a, k).value) in b;
    }
    assert DenoteMembers(a) == DenoteMembers(b);
    SameJsonIsEquality(Obj(a), Obj(b));
  }
}

// Canonical manifests of packages/agents-registry: objects with their keys in one fixed order.
module CanonicalJson {

  // A JSON value; an object lists its members in enumeration order.
  datatype Json =
    | Null
    | Bool(b: bool)
    | Num(n: real)
    | Str(s: string)
    | Arr(items: seq<Json>)
    | Obj(members: seq<Member>)

  datatype Member = Member(key: string, value: Json)

  // The order in which the canonical object enumerates its keys.
  type KeyOrder = (string, string) -> bool

  // An order that may tie different keys, as a comparison by locale does.
  ghost predicate WeakOrder(less: KeyOrder) {
    && (forall a :: !less(a, a))
    && (forall a, b, c | less(a, b) && less(b, c) :: less(a, c))
    && (forall a, b, c | less(a, c) :: less(a, b) || less(b, c))
  }

  ghost predicate StrictTotalOrder(less: KeyOrder) {
    WeakOrder(less) && forall a, b | a != b :: less(a, b) || less(b, a)
  }

  predicate Tied(a: string, b: string, less: KeyOrder) {
    !less(a, b) && !less(b, a)
  }

  // Before what is not less, so that tied keys keep the order they came in.
  function Insert(m: Member, sorted: seq<Member>, less: KeyOrder): (r: seq<Member>)
    ensures multiset(r) == multiset(sorted) + multiset{m}
  {
    if sorted == [] then [m]
    else if less(sorted[0].key, m.key) then
      assert sorted == [sorted[0]] + sorted[1..];
      [sorted[0]] + Insert(m, sorted[1..], less)
    else [m] + sorted
  }

  function SortByKey(members: seq<Member>, less: KeyOrder): (r: seq<Member>)
    ensures multiset(r) == multiset(members)
  {
    if members == [] then []
    else
      assert members == [members[0]] + members[1..];
      Insert(members[0], SortByKey(members[1..], less), less)
  }

  lemma SameElements(a: seq<Member>, b: seq<Member>)
    requires multiset(a) == multiset(b)
    ensures |a| == |b|
    ensures forall m :: m in a <==> m in b
  {
    assert |a| == |multiset(a)| && |b| == |multiset(b)|;
    forall m ensures m in a <==> m in b {
      assert m in a <==> m in multiset(a);
      assert m in b <==> m in multiset(b);
    }
  }

  function StableJson(j: Json, less: KeyOrder): Json
    decreases j
  {
    match j
    case Arr(items) => Arr(seq(|items|, i requires 0 <= i < |items| => StableJson(items[i], less)))
    case Obj(members) =>
      var sorted := SortByKey(members, less);
      SameElements(sorted, members);
      Obj(seq(|sorted|, i requires 0 <= i < |sorted| =>
        assert sorted[i] in members; Member(sorted[i].key, StableJson(sorted[i].value, less))))
    case _ => j
  }

  function Keys(members: seq<Member>): set<string> {
    set m | m in members :: m.key
  }

  ghost predicate DistinctKeys(members: seq<Member>) {
    forall i, j | 0 <= i < j < |members| :: members[i].key != members[j].key
  }

  // No object lists a key twice.
  ghost predicate WellFormed(j: Json) {
    match j
    case Arr(items) => forall i | 0 <= i < |items| :: WellFormed(items[i])
    case Obj(members) => DistinctKeys(members) && forall i | 0 <= i < |members| :: WellFormed(members[i].value)
    case _ => true
  }

  // The same value, whatever the order of object keys at every depth.
  ghost predicate SameUpToKeyOrder(a: Json, b: Json) {
    match (a, b)
    case (Arr(xs), Arr(ys)) => |xs| == |ys| && forall i | 0 <= i < |xs| :: SameUpToKeyOrder(xs[i], ys[i])
    case (Obj(ms), Obj(ns)) =>
      && Keys(ms) == Keys(ns)
      && forall i, k | 0 <= i < |ms| && 0 <= k < |ns| && ms[i].key == ns[k].key ::
           SameUpToKeyOrder(ms[i].value, ns[k].value)
    case _ => a == b
  }

  ghost predicate Before(members: seq<Member>, x: string, y: string) {
    exists i, j :: 0 <= i < j < |members| && members[i].key == x && members[j].key == y
  }

  // A stable sort puts x before y.
  ghost predicate Leads(members: seq<Member>, x: string, y: string, less: KeyOrder) {
    less(x, y) || (!less(y, x) && Before(members, x, y))
  }

  ghost predicate InOrder(sorted: seq<Member>, members: seq<Member>, less: KeyOrder) {
    forall i, j | 0 <= i < j < |sorted| :: Leads(members, sorted[i].key, sorted[j].key, less)
  }

  // Tied keys come in the same order.
  ghost predicate SameTies(ms: seq<Member>, ns: seq<Member>, less: KeyOrder) {
    forall x, y | x in Keys(ms) && y in Keys(ms) && Tied(x, y, less) :: Before(ms, x, y) <==> Before(ns, x, y)
  }

  // The same value up to the order of the keys that are not tied, at every depth.
  ghost predicate SameUpToSort(a: Json, b: Json, less: KeyOrder) {
    match (a, b)
    case (Arr(xs), Arr(ys)) => |xs| == |ys| && forall i | 0 <= i < |xs| :: SameUpToSort(xs[i], ys[i], less)
    case (Obj(ms), Obj(ns)) =>
      && Keys(ms) == Keys(ns) && SameTies(ms, ns, less)
      && forall i, k | 0 <= i < |ms| && 0 <= k < |ns| && ms[i].key == ns[k].key ::
           SameUpToSort(ms[i].value, ns[k].value, less)
    case _ => a == b
  }

  // No object has two tied keys.
  ghost predicate NoTies(j: Json, less: KeyOrder) {
    match j
    case Arr(items) => forall i | 0 <= i < |items| :: NoTies(items[i], less)
    case Obj(members) =>
      && (forall i, k | 0 <= i < k < |members| :: !Tied(members[i].key, members[k].key, less))
      && (forall i | 0 <= i < |members| :: NoTies(members[i].value, less))
    case _ => true
  }

  lemma KeysMatch(a: seq<Member>, b: seq<Member>)
    requires forall m :: m in a <==> m in b
    ensures Keys(a) == Keys(b)
  {
  }

  lemma MemberAt(members: seq<Member>, key: string) returns (i: nat)
    requires key in Keys(members)
    ensures i < |members| && members[i].key == key
  {
    var m :| m in members && m.key == key;
    i :| 0 <= i < |members| && members[i] == m;
  }

  lemma InsertKeeps(m: Member, sorted: seq<Member>, less: KeyOrder)
    ensures forall x :: x in Insert(m, sorted, less) <==> x == m || x in sorted
  {
    forall x ensures x in Insert(m, sorted, less) <==> x == m || x in sorted {
      assert x in Insert(m, sorted, less) <==> x in multiset(Insert(m, sorted, less));
      assert x in sorted <==> x in multiset(sorted);
    }
  }

  lemma LeadsAfter(m: Member, rest: seq<Member>, less: KeyOrder)
    ensures forall x, y | Leads(rest, x, y, less) :: Leads([m] + rest, x, y, less)
    ensures forall k | k in Keys(rest) && !less(k, m.key) :: Leads([m] + rest, m.key, k, less)
  {
    var all := [m] + rest;
    forall x, y | Before(rest, x, y) ensures Before(all, x, y) {
      var i, j :| 0 <= i < j < |rest| && rest[i].key == x && rest[j].key == y;
      assert all[i + 1] == rest[i] && all[j + 1] == rest[j];
    }
    forall k | k in Keys(rest) ensures Before(all, m.key, k) {
      var i := MemberAt(rest, k);
      assert all[0] == m && all[i + 1] == rest[i];
    }
  }

  // Where the first of a list in order is not less than a key, no other is.
  lemma NoneLess(sorted: seq<Member>, members: seq<Member>, key: string, less: KeyOrder)
    requires WeakOrder(less) && InOrder(sorted, members, less) && sorted != [] && !less(sorted[0].key, key)
    ensures forall i | 0 <= i < |sorted| :: !less(sorted[i].key, key)
  {
    forall i | 0 <= i < |sorted| ensures !less(sorted[i].key, key) {
      if i > 0 {
        assert Leads(members, sorted[0].key, sorted[i].key, less);
      }
    }
  }

  lemma InFrontInOrder(m: Member, sorted: seq<Member>, members: seq<Member>, less: KeyOrder)
    requires InOrder(sorted, members, less)
        && forall i | 0 <= i < |sorted| :: Leads(members, m.key, sorted[i].key, less)
    ensures InOrder([m] + sorted, members, less)
  {
    var r := [m] + sorted;
    forall i, j | 0 <= i < j < |r| ensures Leads(members, r[i].key, r[j].key, less) {
      assert r[j] == sorted[j - 1];
      if i > 0 {
        assert Leads(members, sorted[i - 1].key, sorted[j - 1].key, less);
      }
    }
  }

  lemma {:induction false} InsertSorts(m: Member, sorted: seq<Member>, members: seq<Member>, less: KeyOrder)
    requires WeakOrder(less) && InOrder(sorted, members, less)
    requires forall i | 0 <= i < |sorted| && !less(sorted[i].key, m.key) :: Leads(members, m.key, sorted[i].key, less)
    ensures InOrder(Insert(m, sorted, less), members, less)
  {
    if sorted != [] && less(sorted[0].key, m.key) {
      var tail := sorted[1..];
      assert forall i | 0 <= i < |tail| :: tail[i] == sorted[i + 1];
      InsertSorts(m, tail, members, less);
      var r := Insert(m, tail, less);
      forall i | 0 <= i < |r| ensures Leads(members, sorted[0].key, r[i].key, less) {
        InsertKeeps(m, tail, less);
        if r[i] != m {
          assert r[i] in r;
          var k :| 0 <= k < |tail| && tail[k] == r[i];
          assert Leads(members, sorted[0].key, sorted[k + 1].key, less);
        }
      }
      InFrontInOrder(sorted[0], r, members, less);
    } else if sorted != [] {
      NoneLess(sorted, members, m.key, less);
      InFrontInOrder(m, sorted, members, less);
    }
  }

  lemma {:induction false} SortSorts(members: seq<Member>, less: KeyOrder)
    requires WeakOrder(less)
    ensures InOrder(SortByKey(members, less), members, less)
  {
    if members != [] {
      var m, rest := members[0], members[1..];
      var sorted := SortByKey(rest, less);
      assert [m] + rest == members;
      SortSorts(rest, less);
      LeadsAfter(m, rest, less);
      SameElements(sorted, rest);
      forall i | 0 <= i < |sorted| ensures sorted[i].key in Keys(rest) {
        assert sorted[i] in rest;
      }
      forall i, j | 0 <= i < j < |sorted| ensures Leads(members, sorted[i].key, sorted[j].key, less) {
        assert Leads(rest, sorted[i].key, sorted[j].key, less);
      }
      InsertSorts(m, sorted, members, less);
    }
  }

  // Distinct keys are led one way only.
  lemma LeadsOneWay(members: seq<Member>, x: string, y: string, less: KeyOrder)
    requires WeakOrder(less) && DistinctKeys(members) && Leads(members, x, y, less)
    ensures x != y && !Leads(members, y, x, less)
  {
  }

  // Lists with the same keys, both in order, list them in the same places.
  lemma {:induction false} InOrderIsUnique(a: seq<Member>, b: seq<Member>, members: seq<Member>, less: KeyOrder)
    requires WeakOrder(less) && DistinctKeys(members)
    requires InOrder(a, members, less) && InOrder(b, members, less) && Keys(a) == Keys(b)
    ensures |a| == |b| && forall i | 0 <= i < |a| :: a[i].key == b[i].key
  {
    assert b != [] ==> b[0].key in Keys(b);
    if a != [] {
      assert a[0].key in Keys(a);
      SameFirst(a, b, members, less);
      TailKeys(a, members, less);
      TailKeys(b, members, less);
      InOrderIsUnique(a[1..], b[1..], members, less);
      forall i | 0 <= i < |a| ensures a[i].key == b[i].key {
        if i > 0 {
          assert a[i] == a[1..][i - 1] && b[i] == b[1..][i - 1];
        }
      }
    }
  }

  lemma SameFirst(a: seq<Member>, b: seq<Member>, members: seq<Member>, less: KeyOrder)
    requires WeakOrder(less) && DistinctKeys(members) && a != [] && b != []
    requires InOrder(a, members, less) && InOrder(b, members, less) && Keys(a) == Keys(b)
    ensures a[0].key == b[0].key
  {
    assert a[0].key in Keys(a) && b[0].key in Keys(b);
    var i := MemberAt(b, a[0].key);
    var j := MemberAt(a, b[0].key);
    if i > 0 && j > 0 {
      LeadsOneWay(members, a[0].key, b[0].key, less);
    }
  }

  lemma TailKeys(a: seq<Member>, members: seq<Member>, less: KeyOrder)
    requires WeakOrder(less) && DistinctKeys(members) && InOrder(a, members, less) && a != []
    ensures Keys(a[1..]) == Keys(a) - {a[0].key}
  {
    forall k | k in Keys(a) - {a[0].key} ensures k in Keys(a[1..]) {
      var i := MemberAt(a, k);
      assert a[1..][i - 1] == a[i];
    }
    forall k | k in Keys(a[1..]) ensures k in Keys(a) - {a[0].key} {
      var i := MemberAt(a[1..], k);
      assert a[i + 1] == a[1..][i];
      LeadsOneWay(members, a[0].key, a[i + 1].key, less);
    }
  }

  // What canonicalising does to the members of an object.
  ghost predicate Canonical(members: seq<Member>, stable: seq<Member>, less: KeyOrder) {
    && InOrder(stable, members, less)
    && Keys(stable) == Keys(members)
    && (forall i | 0 <= i < |stable| :: exists k :: 0 <= k < |members| && Corresponds(members[k], stable[i], less))
  }

  ghost predicate Corresponds(m: Member, s: Member, less: KeyOrder) {
    s.key == m.key && s.value == StableJson(m.value, less)
  }

  lemma StableMembers(j: Json, less: KeyOrder)
    requires WeakOrder(less) && j.Obj?
    ensures StableJson(j, less).Obj? && Canonical(j.members, StableJson(j, less).members, less)
  {
    var sorted, stable := SortByKey(j.members, less), StableJson(j, less).members;
    SortSorts(j.members, less);
    SameElements(sorted, j.members);
    forall i | 0 <= i < |stable|
      ensures exists k :: 0 <= k < |j.members| && Corresponds(j.members[k], stable[i], less)
    {
      assert sorted[i] in j.members;
      var k :| 0 <= k < |j.members| && j.members[k] == sorted[i];
      assert Corresponds(j.members[k], stable[i], less);
    }
    forall i, k | 0 <= i < k < |stable| ensures Leads(j.members, stable[i].key, stable[k].key, less) {
      assert Leads(j.members, sorted[i].key, sorted[k].key, less);
    }
    KeysMatch(sorted, j.members);
    assert Keys(stable) == Keys(sorted) by {
      forall k | k in Keys(stable) ensures k in Keys(sorted) {
        var i :| 0 <= i < |stable| && stable[i].key == k;
        assert sorted[i] in sorted;
      }
      forall k | k in Keys(sorted) ensures k in Keys(stable) {
        var i :| 0 <= i < |sorted| && sorted[i].key == k;
        assert stable[i] in stable;
      }
    }
  }

  // Images are equal exactly when the values are equal up to the order of untied keys, at every depth.
  lemma {:induction false} StableJsonIsNormalForm(a: Json, b: Json, less: KeyOrder)
    requires WeakOrder(less) && WellFormed(a) && WellFormed(b)
    ensures StableJson(a, less) == StableJson(b, less) <==> SameUpToSort(a, b, less)
    decreases a
  {
    match (a, b) {
      case (Arr(xs), Arr(ys)) =>
        var sx, sy := StableJson(a, less).items, StableJson(b, less).items;
        forall i | 0 <= i < |xs| && i < |ys| ensures sx[i] == sy[i] <==> SameUpToSort(xs[i], ys[i], less) {
          StableJsonIsNormalForm(xs[i], ys[i], less);
        }
      case (Obj(ms), Obj(ns)) =>
        StableMembers(a, less);
        StableMembers(b, less);
        forall i, k | 0 <= i < |ms| && 0 <= k < |ns|
          ensures StableJson(ms[i].value, less) == StableJson(ns[k].value, less)
              <==> SameUpToSort(ms[i].value, ns[k].value, less)
        {
          StableJsonIsNormalForm(ms[i].value, ns[k].value, less);
        }
        if SameUpToSort(a, b, less) {
          SameMembersSameImage(ms, ns, StableJson(a, less).members, StableJson(b, less).members, less);
        }
        if StableJson(a, less) == StableJson(b, less) {
          SameImageSameMembers(ms, ns, StableJson(a, less).members, less);
          SameImageSameTies(ms, ns, StableJson(a, less).members, less);
        }
      case _ =>
    }
  }

  lemma SameTiesSameLeads(sorted: seq<Member>, ms: seq<Member>, ns: seq<Member>, less: KeyOrder)
    requires Keys(sorted) <= Keys(ms) && SameTies(ms, ns, less) && InOrder(sorted, ns, less)
    ensures InOrder(sorted, ms, less)
  {
    forall i, j | 0 <= i < j < |sorted| ensures Leads(ms, sorted[i].key, sorted[j].key, less) {
      assert Leads(ns, sorted[i].key, sorted[j].key, less);
      assert sorted[i].key in Keys(sorted) && sorted[j].key in Keys(sorted);
    }
  }

  lemma SameMembersSameImage(ms: seq<Member>, ns: seq<Member>, sm: seq<Member>, sn: seq<Member>, less: KeyOrder)
    requires WeakOrder(less) && DistinctKeys(ms) && DistinctKeys(ns)
    requires Canonical(ms, sm, less) && Canonical(ns, sn, less) && Keys(ms) == Keys(ns) && SameTies(ms, ns, less)
    requires forall i, k | 0 <= i < |ms| && 0 <= k < |ns| && ms[i].key == ns[k].key ::
               StableJson(ms[i].value, less) == StableJson(ns[k].value, less)
    ensures sm == sn
  {
    SameTiesSameLeads(sn, ms, ns, less);
    InOrderIsUnique(sm, sn, ms, less);
    forall i | 0 <= i < |sm| ensures sm[i] == sn[i] {
      var k :| 0 <= k < |ms| && Corresponds(ms[k], sm[i], less);
      var l :| 0 <= l < |ns| && Corresponds(ns[l], sn[i], less);
    }
  }

  lemma SameImageSameMembers(ms: seq<Member>, ns: seq<Member>, sm: seq<Member>, less: KeyOrder)
    requires DistinctKeys(ms) && DistinctKeys(ns)
    requires Canonical(ms, sm, less) && Canonical(ns, sm, less)
    ensures Keys(ms) == Keys(ns)
    ensures forall i, k | 0 <= i < |ms| && 0 <= k < |ns| && ms[i].key == ns[k].key ::
              StableJson(ms[i].value, less) == StableJson(ns[k].value, less)
  {
    forall i, k | 0 <= i < |ms| && 0 <= k < |ns| && ms[i].key == ns[k].key
      ensures StableJson(ms[i].value, less) == StableJson(ns[k].value, less)
    {
      assert ms[i] in ms && ms[i].key in Keys(ms);
      var p := MemberAt(sm, ms[i].key);
      var i' :| 0 <= i' < |ms| && Corresponds(ms[i'], sm[p], less);
      var k' :| 0 <= k' < |ns| && Corresponds(ns[k'], sm[p], less);
      assert i' == i && k' == k;
    }
  }

  // Tied keys stand in a list in order as they stand in what it orders.
  lemma TiesStay(sorted: seq<Member>, members: seq<Member>, x: string, y: string, less: KeyOrder)
    requires WeakOrder(less) && DistinctKeys(members) && InOrder(sorted, members, less)
    requires x in Keys(sorted) && y in Keys(sorted) && Tied(x, y, less)
    ensures Before(sorted, x, y) <==> Before(members, x, y)
  {
    if Before(sorted, x, y) {
      var i, j :| 0 <= i < j < |sorted| && sorted[i].key == x && sorted[j].key == y;
      assert Leads(members, sorted[i].key, sorted[j].key, less);
    }
    if Before(members, x, y) {
      var i := MemberAt(sorted, x);
      var j := MemberAt(sorted, y);
      LeadsOneWay(members, x, y, less);
      if j < i {
        assert Leads(members, sorted[j].key, sorted[i].key, less);
      }
    }
  }

  lemma SameImageSameTies(ms: seq<Member>, ns: seq<Member>, sm: seq<Member>, less: KeyOrder)
    requires WeakOrder(less) && DistinctKeys(ms) && DistinctKeys(ns)
    requires Canonical(ms, sm, less) && Canonical(ns, sm, less)
    ensures SameTies(ms, ns, less)
  {
    forall x, y | x in Keys(ms) && y in Keys(ms) && Tied(x, y, less) ensures Before(ms, x, y) <==> Before(ns, x, y) {
      TiesStay(sm, ms, x, y, less);
      TiesStay(sm, ns, x, y, less);
    }
  }

  lemma {:induction false} StableJsonIsWellFormed(j: Json, less: KeyOrder)
    requires WeakOrder(less) && WellFormed(j)
    ensures WellFormed(StableJson(j, less)) && SameUpToSort(StableJson(j, less), j, less)
    decreases j
  {
    match j {
      case Arr(items) =>
        forall i | 0 <= i < |items|
          ensures WellFormed(StableJson(items[i], less)) && SameUpToSort(StableJson(items[i], less), items[i], less)
        {
          StableJsonIsWellFormed(items[i], less);
        }
      case Obj(members) =>
        StableMembers(j, less);
        var stable := StableJson(j, less).members;
        forall k | 0 <= k < |members|
          ensures WellFormed(StableJson(members[k].value, less))
              && SameUpToSort(StableJson(members[k].value, less), members[k].value, less)
        {
          StableJsonIsWellFormed(members[k].value, less);
        }
        CanonicalIsWellFormed(members, stable, less);
      case _ =>
    }
  }

  lemma CanonicalIsWellFormed(members: seq<Member>, stable: seq<Member>, less: KeyOrder)
    requires WeakOrder(less) && DistinctKeys(members) && Canonical(members, stable, less)
    requires forall k | 0 <= k < |members| ::
      WellFormed(StableJson(members[k].value, less))
          && SameUpToSort(StableJson(members[k].value, less), members[k].value, less)
    ensures WellFormed(Obj(stable)) && SameUpToSort(Obj(stable), Obj(members), less)
  {
    forall i | 0 <= i < |stable| ensures WellFormed(stable[i].value) {
      var k :| 0 <= k < |members| && Corresponds(members[k], stable[i], less);
    }
    forall i, k | 0 <= i < k < |stable| ensures stable[i].key != stable[k].key {
      LeadsOneWay(members, stable[i].key, stable[k].key, less);
    }
    forall x, y | x in Keys(stable) && y in Keys(stable) && Tied(x, y, less)
      ensures Before(stable, x, y) <==> Before(members, x, y)
    {
      TiesStay(stable, members, x, y, less);
    }
    forall i, k | 0 <= i < |stable| && 0 <= k < |members| && stable[i].key == members[k].key
      ensures SameUpToSort(stable[i].value, members[k].value, less)
    {
      var l :| 0 <= l < |members| && Corresponds(members[l], stable[i], less);
      assert l == k;
    }
  }

  // Canonicalising twice is canonicalising once.
  lemma StableJsonIsIdempotent(j: Json, less: KeyOrder)
    requires WeakOrder(less) && WellFormed(j)
    ensures StableJson(StableJson(j, less), less) == StableJson(j, less)
  {
    StableJsonIsWellFormed(j, less);
    StableJsonIsNormalForm(StableJson(j, less), j, less);
  }

  /* Which orders of keys do not matter. */

  // Without ties, values equal up to key order are equal up to the order of untied keys, and conversely.
  lemma {:induction false} WithoutTies(a: Json, b: Json, less: KeyOrder)
    requires NoTies(a, less) && WellFormed(a) && WellFormed(b)
    ensures SameUpToSort(a, b, less) <==> SameUpToKeyOrder(a, b)
    decreases a
  {
    match (a, b) {
      case (Arr(xs), Arr(ys)) =>
        forall i | 0 <= i < |xs| && i < |ys|
          ensures SameUpToSort(xs[i], ys[i], less) <==> SameUpToKeyOrder(xs[i], ys[i])
        {
          WithoutTies(xs[i], ys[i], less);
        }
      case (Obj(ms), Obj(ns)) =>
        if Keys(ms) == Keys(ns) {
          NoTiesSameTies(ms, ns, less);
        }
        forall i, k | 0 <= i < |ms| && 0 <= k < |ns|
          ensures SameUpToSort(ms[i].value, ns[k].value, less) <==> SameUpToKeyOrder(ms[i].value, ns[k].value)
        {
          WithoutTies(ms[i].value, ns[k].value, less);
        }
      case _ =>
    }
  }

  lemma NoTiesSameTies(ms: seq<Member>, ns: seq<Member>, less: KeyOrder)
    requires DistinctKeys(ms) && DistinctKeys(ns)
    requires forall i, k | 0 <= i < k < |ms| :: !Tied(ms[i].key, ms[k].key, less)
    ensures SameTies(ms, ns, less)
  {
    forall x, y | x in Keys(ms) && y in Keys(ms) && Tied(x, y, less) ensures Before(ms, x, y) <==> Before(ns, x, y) {
      var i := MemberAt(ms, x);
      var k := MemberAt(ms, y);
      assert i == k;
    }
  }

  lemma {:induction false} SameAsItself(j: Json)
    requires WellFormed(j)
    ensures SameUpToKeyOrder(j, j)
  {
    match j {
      case Arr(items) =>
        forall i | 0 <= i < |items| ensures SameUpToKeyOrder(items[i], items[i]) {
          SameAsItself(items[i]);
        }
      case Obj(members) =>
        forall i | 0 <= i < |members| ensures SameUpToKeyOrder(members[i].value, members[i].value) {
          SameAsItself(members[i].value);
        }
      case _ =>
    }
  }

  // The same members with two of them swapped.
  function Swapped(members: seq<Member>, i: nat, k: nat): (r: seq<Member>)
    requires i < k < |members|
    ensures |r| == |members|
  {
    members[i := members[k]][k := members[i]]
  }

  lemma SwapIsReordering(members: seq<Member>, i: nat, k: nat, less: KeyOrder)
    requires i < k < |members| && WellFormed(Obj(members)) && Tied(members[i].key, members[k].key, less)
    ensures var swapped := Swapped(members, i, k);
      WellFormed(Obj(swapped)) && SameUpToKeyOrder(Obj(members), Obj(swapped)) && !SameTies(members, swapped, less)
  {
    var swapped := Swapped(members, i, k);
    SwapKeepsMembers(members, i, k);
    KeysMatch(members, swapped);
    forall p, q | 0 <= p < |members| && 0 <= q < |swapped| && members[p].key == swapped[q].key
      ensures SameUpToKeyOrder(members[p].value, swapped[q].value)
    {
      SameAsItself(members[p].value);
    }
    var x, y := members[i].key, members[k].key;
    assert members[i] in members && members[k] in members;
    assert Before(members, x, y);
  }

  lemma SwapKeepsMembers(members: seq<Member>, i: nat, k: nat)
    requires i < k < |members|
    ensures forall m :: m in members <==> m in Swapped(members, i, k)
  {
    var swapped := Swapped(members, i, k);
    forall m | m in members ensures m in swapped {
      var p :| 0 <= p < |members| && members[p] == m;
      assert swapped[if p == i then k else if p == k then i else p] == m;
    }
  }

  // A value with tied keys has a reordering that a stable sort does not undo.
  lemma {:induction false} TiesMatter(j: Json, less: KeyOrder) returns (r: Json)
    requires WellFormed(j) && !NoTies(j, less)
    ensures WellFormed(r) && SameUpToKeyOrder(j, r) && !SameUpToSort(j, r, less)
    decreases j
  {
    SameAsItself(j);
    match j {
      case Arr(items) =>
        var i :| 0 <= i < |items| && !NoTies(items[i], less);
        var item := TiesMatter(items[i], less);
        r := Arr(items[i := item]);
      case Obj(members) =>
        if i, k :| 0 <= i < k < |members| && Tied(members[i].key, members[k].key, less) {
          SwapIsReordering(members, i, k, less);
          r := Obj(Swapped(members, i, k));
        } else {
          var i :| 0 <= i < |members| && !NoTies(members[i].value, less);
          var value := TiesMatter(members[i].value, less);
          r := Obj(members[i := Member(members[i].key, value)]);
          ValueMatters(members, i, value, less);
        }
      case _ =>
    }
  }

  lemma ValueMatters(members: seq<Member>, i: nat, value: Json, less: KeyOrder)
    requires WellFormed(Obj(members)) && i < |members| && WellFormed(value)
    requires SameUpToKeyOrder(members[i].value, value) && !SameUpToSort(members[i].value, value, less)
    ensures var changed := Obj(members[i := Member(members[i].key, value)]);
      WellFormed(changed) && SameUpToKeyOrder(Obj(members), changed) && !SameUpToSort(Obj(members), changed, less)
  {
    var changed := members[i := Member(members[i].key, value)];
    forall k | k in Keys(members) ensures k in Keys(changed) {
      var p := MemberAt(members, k);
      assert changed[p] in changed;
    }
    forall k | k in Keys(changed) ensures k in Keys(members) {
      var p := MemberAt(changed, k);
      assert members[p] in members;
    }
    forall p, q | 0 <= p < |members| && 0 <= q < |changed| && members[p].key == changed[q].key
      ensures SameUpToKeyOrder(members[p].value, changed[q].value)
    {
      assert members[q].key == changed[q].key;
      assert p == q;
      SameAsItself(members[p].value);
    }
    assert members[i].key == changed[i].key;
  }

  // Every reordering of keys is undone exactly where no object has two tied keys.
  lemma KeyOrderIsUndoneExactly(a: Json, less: KeyOrder)
    requires WeakOrder(less) && WellFormed(a)
    ensures (forall b | WellFormed(b) && SameUpToKeyOrder(a, b) :: StableJson(b, less) == StableJson(a, less))
       <==> NoTies(a, less)
  {
    if NoTies(a, less) {
      forall b | WellFormed(b) && SameUpToKeyOrder(a, b) ensures StableJson(b, less) == StableJson(a, less) {
        WithoutTies(a, b, less);
        StableJsonIsNormalForm(a, b, less);
      }
    } else {
      var b := TiesMatter(a, less);
      StableJsonIsNormalForm(a, b, less);
    }
  }

  lemma {:induction false} TotalOrderHasNoTies(j: Json, less: KeyOrder)
    requires StrictTotalOrder(less) && WellFormed(j)
    ensures NoTies(j, less)
  {
    match j {
      case Arr(items) =>
        forall i | 0 <= i < |items| ensures NoTies(items[i], less) {
          TotalOrderHasNoTies(items[i], less);
        }
      case Obj(members) =>
        forall i | 0 <= i < |members| ensures NoTies(members[i].value, less) {
          TotalOrderHasNoTies(members[i].value, less);
        }
      case _ =>
    }
  }

  // sha256 of the printed value, which the model takes as given.
  type Digest = Json -> string

  function HashManifest(manifest: Json, less: KeyOrder, digest: Digest): string {
    digest(StableJson(manifest, less))
  }

  ghost predicate CollisionFree(digest: Digest) {
    forall x, y | digest(x) == digest(y) :: x == y
  }

  // Values equal up to the order of untied keys have one hash; with a digest without collisions, no others do.
  lemma HashesAgree(a: Json, b: Json, less: KeyOrder, digest: Digest)
    requires WeakOrder(less) && WellFormed(a) && WellFormed(b)
    ensures SameUpToSort(a, b, less) ==> HashManifest(a, less, digest) == HashManifest(b, less, digest)
    ensures CollisionFree(digest) && HashManifest(a, less, digest) == HashManifest(b, less, digest)
        ==> SameUpToSort(a, b, less)
  {
    StableJsonIsNormalForm(a, b, less);
  }

  // The hash of a manifest does not depend on key order if no object in it has two tied keys and, with a
  // digest without collisions, only then.
  lemma HashIgnoresKeyOrder(a: Json, less: KeyOrder, digest: Digest)
    requires WeakOrder(less) && WellFormed(a)
    ensures NoTies(a, less) ==>
              forall b | WellFormed(b) && SameUpToKeyOrder(a, b) ::
                HashManifest(b, less, digest) == HashManifest(a, less, digest)
    ensures CollisionFree(digest) && !NoTies(a, less) ==>
              exists b :: WellFormed(b) && SameUpToKeyOrder(a, b)
                  && HashManifest(b, less, digest) != HashManifest(a, less, digest)
  {
    KeyOrderIsUndoneExactly(a, less);
  }
}

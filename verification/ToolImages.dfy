// What a value is normalised to, and when two calls share a cache key, said of the values alone.
module ToolImages {
  import opened CanonicalJson
  import opened ToolValues

  function KeyTexts(entries: seq<Entry>, lib: Library): (r: seq<string>)
    ensures |r| == |entries|
  {
    seq(|entries|, i requires 0 <= i < |entries| => lib.str(entries[i].key))
  }

  ghost predicate First(texts: seq<string>, x: string, i: nat) {
    i < |texts| && texts[i] == x && forall k | 0 <= k < i :: texts[k] != x
  }

  /** The keys list every text once, in the order in which they first come up. */
  ghost predicate Lists(texts: seq<string>, keys: seq<string>) {
    && (forall x :: x in keys <==> x in texts)
    && (forall j, k | 0 <= j < k < |keys| :: keys[j] != keys[k])
    && (forall j, k, a, b | 0 <= j < k < |keys| && First(texts, keys[j], a) && First(texts, keys[k], b) :: a < b)
  }

  function TextOf(key: Any): string {
    if key.Text? then key.s else ""
  }

  function TextKeys(entries: seq<Entry>): (r: seq<string>)
    ensures |r| == |entries|
  {
    seq(|entries|, i requires 0 <= i < |entries| => TextOf(entries[i].key))
  }

  /** No later entry has a key with the same `str`. */
  ghost predicate LastUnder(entries: seq<Entry>, i: nat, lib: Library) {
    i < |entries| && forall k | i < k < |entries| :: lib.str(entries[k].key) != lib.str(entries[i].key)
  }

  /**
   * w is what v becomes: sequences become lists of the same length, element by element; a dictionary keeps,
   * under the `str` of each key, what its last value becomes; the other values are converted or stay.
   */
  ghost predicate Becomes(v: Any, w: Any, lib: Library)
    decreases v
  {
    match v
    case Decimal(d) => w == Float(lib.toFloat(d))
    case Bytes(b) => w == Text(lib.decode(b))
    case Object(_) => w == Text(lib.str(v))
    case List(items) => ItemsBecome(items, w, lib)
    case Tuple(items) => ItemsBecome(items, w, lib)
    case Set(items) => ItemsBecome(items, w, lib)
    case Dict(entries) =>
      && w.Dict? && (forall e | e in w.entries :: e.key.Text?)
      && Lists(KeyTexts(entries, lib), TextKeys(w.entries))
      && LastValuesBecome(entries, w.entries, lib)
    case _ => w == v
  }

  ghost predicate ItemsBecome(items: seq<Any>, w: Any, lib: Library)
    decreases items
  {
    w.List? && |w.items| == |items| && forall i | 0 <= i < |items| :: Becomes(items[i], w.items[i], lib)
  }

  ghost predicate LastValuesBecome(entries: seq<Entry>, r: seq<Entry>, lib: Library)
    decreases entries
  {
    forall i, j | 0 <= i < |entries| && 0 <= j < |r| && LastUnder(entries, i, lib)
                  && r[j].key == Text(lib.str(entries[i].key)) ::
        assert entries decreases to entries[i];
        Becomes(entries[i].value, r[j].value, lib)
  }

  /* Normalising does it. */

  lemma {:induction false} NormalizeBecomes(v: Any, lib: Library)
    ensures Becomes(v, Normalize(v, lib), lib)
    decreases v
  {
    match v
    case Dict(entries) => EntriesBecome(entries, lib);
    case List(items) => NormalizedItemsBecome(items, lib);
    case Tuple(items) => NormalizedItemsBecome(items, lib);
    case Set(items) => NormalizedItemsBecome(items, lib);
    case _ =>
  }

  lemma {:induction false} NormalizedItemsBecome(items: seq<Any>, lib: Library)
    ensures ItemsBecome(items, List(NormalizeItems(items, lib)), lib)
    decreases items
  {
    if items != [] {
      var n := |items| - 1;
      NormalizedItemsBecome(items[..n], lib);
      NormalizeBecomes(items[n], lib);
      var r, front := NormalizeItems(items, lib), NormalizeItems(items[..n], lib);
      forall i | 0 <= i < |items| ensures Becomes(items[i], r[i], lib) {
        if i < n {
          assert items[i] == items[..n][i] && r[i] == front[i];
          assert Becomes(items[..n][i], List(front).items[i], lib);
        }
      }
    }
  }

  /** Setting a key replaces its value where it is, or adds it at the end. */
  lemma {:induction false} AssignAt(entries: seq<Entry>, key: Any, value: Any) returns (j: nat)
    ensures j <= |entries|
    ensures forall k | 0 <= k < j :: entries[k].key != key
    ensures j < |entries| ==> entries[j].key == key && Assign(entries, key, value) == entries[j := Entry(key, value)]
    ensures j == |entries| ==> Assign(entries, key, value) == entries + [Entry(key, value)]
  {
    if entries == [] || entries[0].key == key {
      j := 0;
    } else {
      var k := AssignAt(entries[1..], key, value);
      j := k + 1;
      assert forall i | 0 < i < j :: entries[i] == entries[1..][i - 1];
    }
  }

  lemma ListsLonger(texts: seq<string>, keys: seq<string>, x: string)
    requires Lists(texts, keys)
    ensures x in texts ==> Lists(texts + [x], keys)
    ensures x !in texts ==> Lists(texts + [x], keys + [x])
  {
    var longer := texts + [x];
    forall y, i: nat | First(longer, y, i) && i < |texts| ensures First(texts, y, i) {
      forall k | 0 <= k < i ensures texts[k] != y {
        assert longer[k] == texts[k];
      }
    }
    if x in texts {
      forall y, i: nat | First(longer, y, i) && y in texts ensures i < |texts| {
        var m :| 0 <= m < |texts| && texts[m] == y;
        assert longer[m] == y;
      }
    } else {
      var all := keys + [x];
      forall y, i: nat | First(longer, y, i) && y in texts ensures i < |texts| {
        var m :| 0 <= m < |texts| && texts[m] == y;
        assert longer[m] == y;
      }
      forall j, k, a, b | 0 <= j < k < |all| && First(longer, all[j], a) && First(longer, all[k], b) ensures a < b {
        assert all[j] == keys[j] && keys[j] in keys;
        assert First(texts, keys[j], a);
        if k < |keys| {
          assert keys[k] in keys;
          assert First(texts, keys[k], b);
        } else {
          assert b == |texts|;
        }
      }
    }
  }

  lemma TextKeyIn(entries: seq<Entry>, x: string)
    requires forall e | e in entries :: e.key.Text?
    ensures x in TextKeys(entries) <==> exists j :: 0 <= j < |entries| && entries[j].key == Text(x)
  {
    if x in TextKeys(entries) {
      var j :| 0 <= j < |entries| && TextKeys(entries)[j] == x;
      assert entries[j] in entries;
    }
    forall j | 0 <= j < |entries| && entries[j].key == Text(x) ensures x in TextKeys(entries) {
      assert TextKeys(entries)[j] == x;
    }
  }

  lemma KeysListed(entries: seq<Entry>, last: Entry, front: seq<Entry>, value: Any, lib: Library)
    requires Lists(KeyTexts(entries, lib), TextKeys(front)) && forall e | e in front :: e.key.Text?
    ensures var x := lib.str(last.key);
            var r := Assign(front, Text(x), value);
            Lists(KeyTexts(entries + [last], lib), TextKeys(r)) && forall e | e in r :: e.key.Text?
  {
    var x := lib.str(last.key);
    var r := Assign(front, Text(x), value);
    var j := AssignAt(front, Text(x), value);
    AssignMembers(front, Text(x), value);
    ListsLonger(KeyTexts(entries, lib), TextKeys(front), x);
    TextKeyIn(front, x);
    assert KeyTexts(entries + [last], lib) == KeyTexts(entries, lib) + [x];
    assert TextKeys(r) == if j < |front| then TextKeys(front) else TextKeys(front) + [x];
  }

  lemma ValuesFollow(entries: seq<Entry>, last: Entry, front: seq<Entry>, value: Any, lib: Library)
    requires LastValuesBecome(entries, front, lib) && Becomes(last.value, value, lib)
    requires DistinctEntryKeys(front)
    ensures LastValuesBecome(entries + [last], Assign(front, Text(lib.str(last.key)), value), lib)
  {
    var x := lib.str(last.key);
    var r, longer := Assign(front, Text(x), value), entries + [last];
    var at := AssignAt(front, Text(x), value);
    forall i, j | 0 <= i < |longer| && 0 <= j < |r| && LastUnder(longer, i, lib)
                  && r[j].key == Text(lib.str(longer[i].key))
      ensures Becomes(longer[i].value, r[j].value, lib)
    {
      if i < |entries| {
        assert longer[|entries|] == last;
        assert lib.str(longer[i].key) != x && r[j] == front[j];
        forall k | i < k < |entries| ensures lib.str(entries[k].key) != lib.str(entries[i].key) {
          assert longer[k] == entries[k];
        }
        assert LastUnder(entries, i, lib);
      } else {
        assert j == at;
      }
    }
  }

  lemma {:induction false} EntriesBecome(entries: seq<Entry>, lib: Library)
    ensures Becomes(Dict(entries), Dict(NormalizeEntries(entries, lib)), lib)
    decreases entries
  {
    if entries != [] {
      var init, last := entries[..|entries| - 1], entries[|entries| - 1];
      assert entries decreases to last;
      EntriesBecome(init, lib);
      NormalizeBecomes(last.value, lib);
      NormalizeEntriesArePlain(init, lib);
      var front, value := NormalizeEntries(init, lib), Normalize(last.value, lib);
      KeysListed(init, last, front, value, lib);
      ValuesFollow(init, last, front, value, lib);
      assert init + [last] == entries;
    }
  }

  /* Nothing else is what a value becomes. */

  function Firsts(texts: seq<string>): seq<string> {
    if texts == [] then []
    else
      var front, x := texts[..|texts| - 1], texts[|texts| - 1];
      if x in front then Firsts(front) else Firsts(front) + [x]
  }

  lemma FirstOf(texts: seq<string>, x: string) returns (i: nat)
    requires x in texts
    ensures First(texts, x, i)
  {
    i := 0;
    while texts[i] != x
      invariant i < |texts| && forall k | 0 <= k < i :: texts[k] != x
      invariant exists m :: i <= m < |texts| && texts[m] == x
      decreases |texts| - i
    {
      i := i + 1;
    }
  }

  lemma FirstStaysFirst(texts: seq<string>, x: string, i: nat)
    requires texts != [] && First(texts[..|texts| - 1], x, i)
    ensures First(texts, x, i)
  {
    forall k | 0 <= k <= i ensures texts[k] == texts[..|texts| - 1][k] {}
  }

  // A text that is new at the end comes last in the list.
  lemma NewIsListedLast(texts: seq<string>, keys: seq<string>)
    requires texts != [] && Lists(texts, keys) && texts[|texts| - 1] !in texts[..|texts| - 1]
    ensures keys != [] && keys[|keys| - 1] == texts[|texts| - 1]
  {
    var n := |texts| - 1;
    var front, x := texts[..n], texts[n];
    assert x in texts;
    var j :| 0 <= j < |keys| && keys[j] == x;
    assert First(texts, x, n) by {
      forall k | 0 <= k < n ensures texts[k] != x {
        assert texts[k] == front[k];
      }
    }
    var y := keys[|keys| - 1];
    if j < |keys| - 1 {
      assert y in keys;
      var b := FirstOf(texts, y);
    }
  }

  lemma ListsShorter(texts: seq<string>, keys: seq<string>)
    requires texts != [] && Lists(texts, keys)
    ensures texts[|texts| - 1] in texts[..|texts| - 1] ==> Lists(texts[..|texts| - 1], keys)
    ensures texts[|texts| - 1] !in texts[..|texts| - 1] ==>
              keys != [] && keys[|keys| - 1] == texts[|texts| - 1] && Lists(texts[..|texts| - 1], keys[..|keys| - 1])
  {
    var n := |texts| - 1;
    var front, x := texts[..n], texts[n];
    assert texts == front + [x];
    forall y, i: nat | First(front, y, i) ensures First(texts, y, i) {
      FirstStaysFirst(texts, y, i);
    }
    if x !in front {
      NewIsListedLast(texts, keys);
      var less := keys[..|keys| - 1];
      assert keys == less + [x];
      forall j, k, a, b | 0 <= j < k < |less| && First(front, less[j], a) && First(front, less[k], b) ensures a < b {
        assert less[j] == keys[j] && less[k] == keys[k];
      }
      forall y ensures y in less <==> y in front {
        if y in less {
          var j :| 0 <= j < |less| && less[j] == y;
          assert keys[j] != keys[|keys| - 1];
          assert y in keys;
        }
        if y in front {
          assert y in keys;
        }
      }
    }
  }

  lemma SomeIn(keys: seq<string>)
    requires keys != []
    ensures exists x :: x in keys
  {
    assert keys[0] in keys;
  }

  lemma {:induction false} ListsExactly(texts: seq<string>, keys: seq<string>)
    requires Lists(texts, keys)
    ensures keys == Firsts(texts)
    decreases |texts|
  {
    if texts == [] {
      if keys != [] {
        SomeIn(keys);
      }
    } else {
      ListsShorter(texts, keys);
      var front, x := texts[..|texts| - 1], texts[|texts| - 1];
      if x in front {
        ListsExactly(front, keys);
      } else {
        ListsExactly(front, keys[..|keys| - 1]);
        assert keys == keys[..|keys| - 1] + [x];
      }
    }
  }

  lemma LastOf(entries: seq<Entry>, x: string, lib: Library) returns (i: nat)
    requires x in KeyTexts(entries, lib)
    ensures LastUnder(entries, i, lib) && lib.str(entries[i].key) == x
  {
    i := |entries| - 1;
    while lib.str(entries[i].key) != x
      invariant i < |entries| && forall k | i < k < |entries| :: lib.str(entries[k].key) != x
      invariant exists m :: 0 <= m <= i && KeyTexts(entries, lib)[m] == x
      decreases i
    {
      i := i - 1;
    }
  }

  lemma {:induction false} BecomesOnlyOne(v: Any, w: Any, x: Any, lib: Library)
    requires Becomes(v, w, lib) && Becomes(v, x, lib)
    ensures w == x
    decreases v
  {
    match v
    case Dict(entries) => EntriesBecomeOnlyOne(entries, w.entries, x.entries, lib);
    case List(items) => ItemsBecomeOnlyOne(items, w, x, lib);
    case Tuple(items) => ItemsBecomeOnlyOne(items, w, x, lib);
    case Set(items) => ItemsBecomeOnlyOne(items, w, x, lib);
    case _ =>
  }

  lemma {:induction false} ItemsBecomeOnlyOne(items: seq<Any>, w: Any, x: Any, lib: Library)
    requires ItemsBecome(items, w, lib) && ItemsBecome(items, x, lib)
    ensures w == x
    decreases items
  {
    forall i | 0 <= i < |items| ensures w.items[i] == x.items[i] {
      BecomesOnlyOne(items[i], w.items[i], x.items[i], lib);
    }
  }

  lemma {:induction false} EntriesBecomeOnlyOne(entries: seq<Entry>, r: seq<Entry>, q: seq<Entry>, lib: Library)
    requires (forall e | e in r :: e.key.Text?) && Lists(KeyTexts(entries, lib), TextKeys(r))
    requires (forall e | e in q :: e.key.Text?) && Lists(KeyTexts(entries, lib), TextKeys(q))
    requires LastValuesBecome(entries, r, lib) && LastValuesBecome(entries, q, lib)
    ensures r == q
    decreases entries
  {
    var texts := KeyTexts(entries, lib);
    ListsExactly(texts, TextKeys(r));
    ListsExactly(texts, TextKeys(q));
    assert |r| == |q|;
    forall j | 0 <= j < |r| ensures r[j] == q[j] {
      assert r[j] in r && q[j] in q;
      var x := TextKeys(r)[j];
      assert x == TextKeys(q)[j];
      assert x in TextKeys(r);
      var i := LastOf(entries, x, lib);
      assert entries decreases to entries[i];
      BecomesOnlyOne(entries[i].value, r[j].value, q[j].value, lib);
    }
  }

  /** A value becomes what it is normalised to, and nothing else. */
  lemma NormalizesExactly(v: Any, w: Any, lib: Library)
    ensures Becomes(v, w, lib) <==> w == Normalize(v, lib)
  {
    NormalizeBecomes(v, lib);
    if Becomes(v, w, lib) {
      BecomesOnlyOne(v, w, Normalize(v, lib), lib);
    }
  }

  /* Cache keys. */

  /** The same JSON value, whatever the order of the keys: scalars by their JSON text. */
  ghost predicate SameJson(v: Any, w: Any, lib: Library)
    decreases v
  {
    match v
    case List(items) =>
      w.List? && |w.items| == |items| && forall i | 0 <= i < |items| :: SameJson(items[i], w.items[i], lib)
    case Dict(entries) =>
      && w.Dict?
      && (forall x :: x in TextKeys(entries) <==> x in TextKeys(w.entries))
      && SameValues(entries, w.entries, lib)
    case _ => !w.List? && !w.Dict? && lib.scalar(v) == lib.scalar(w)
  }

  ghost predicate SameValues(entries: seq<Entry>, r: seq<Entry>, lib: Library)
    decreases entries
  {
    forall i, j | 0 <= i < |entries| && 0 <= j < |r| && entries[i].key == r[j].key ::
        assert entries decreases to entries[i];
        SameJson(entries[i].value, r[j].value, lib)
  }

  lemma {:induction false} ToItemsAt(items: seq<Any>, lib: Library, i: nat)
    requires i < |items|
    ensures ToItems(items, lib)[i] == ToJson(items[i], lib)
    decreases items
  {
    if i < |items| - 1 {
      ToItemsAt(items[..|items| - 1], lib, i);
    }
  }

  lemma {:induction false} ToMembersAt(entries: seq<Entry>, lib: Library, i: nat)
    requires i < |entries| && entries[i].key.Text?
    ensures ToMembers(entries, lib)[i] == Member(entries[i].key.s, ToJson(entries[i].value, lib))
    decreases entries
  {
    if i < |entries| - 1 {
      ToMembersAt(entries[..|entries| - 1], lib, i);
    }
  }

  lemma {:induction false} SameJsonExactly(v: Any, w: Any, lib: Library)
    requires Plain(v) && Plain(w)
    ensures SameUpToKeyOrder(ToJson(v, lib), ToJson(w, lib)) <==> SameJson(v, w, lib)
    decreases v
  {
    match v
    case List(items) =>
      if w.List? && |w.items| == |items| {
        forall i | 0 <= i < |items|
          ensures SameUpToKeyOrder(ToItems(items, lib)[i], ToItems(w.items, lib)[i])
             <==> SameJson(items[i], w.items[i], lib)
        {
          ToItemsAt(items, lib, i);
          ToItemsAt(w.items, lib, i);
          SameJsonExactly(items[i], w.items[i], lib);
        }
      }
    case Dict(entries) =>
      if w.Dict? {
        SameEntriesExactly(entries, w.entries, lib);
      }
    case _ =>
  }

  lemma MemberKeys(entries: seq<Entry>, lib: Library)
    requires PlainEntries(entries)
    ensures Keys(ToMembers(entries, lib)) == set x | x in TextKeys(entries)
  {
    var members := ToMembers(entries, lib);
    forall x ensures x in Keys(members) <==> x in TextKeys(entries) {
      if x in Keys(members) {
        var i := MemberAt(members, x);
        assert entries[i] in entries;
        ToMembersAt(entries, lib, i);
        assert TextKeys(entries)[i] == x;
      }
      if x in TextKeys(entries) {
        var i :| 0 <= i < |entries| && TextKeys(entries)[i] == x;
        assert entries[i] in entries;
        ToMembersAt(entries, lib, i);
        assert members[i] in members;
      }
    }
  }

  lemma {:induction false} SameMembersExactly(entries: seq<Entry>, r: seq<Entry>, lib: Library, i: nat, j: nat)
    requires PlainEntries(entries) && PlainEntries(r) && i < |entries| && j < |r|
    ensures var m, n := ToMembers(entries, lib)[i], ToMembers(r, lib)[j];
      && (m.key == n.key <==> entries[i].key == r[j].key)
      && (SameUpToKeyOrder(m.value, n.value) <==> SameJson(entries[i].value, r[j].value, lib))
    decreases entries, 0
  {
    assert entries[i] in entries && r[j] in r;
    ToMembersAt(entries, lib, i);
    ToMembersAt(r, lib, j);
    assert entries decreases to entries[i];
    SameJsonExactly(entries[i].value, r[j].value, lib);
  }

  lemma SameKeysExactly(entries: seq<Entry>, r: seq<Entry>, lib: Library)
    requires PlainEntries(entries) && PlainEntries(r)
    ensures Keys(ToMembers(entries, lib)) == Keys(ToMembers(r, lib))
       <==> forall x :: x in TextKeys(entries) <==> x in TextKeys(r)
  {
    MemberKeys(entries, lib);
    MemberKeys(r, lib);
    assert forall x :: x in Keys(ToMembers(entries, lib)) <==> x in TextKeys(entries);
    assert forall x :: x in Keys(ToMembers(r, lib)) <==> x in TextKeys(r);
  }

  lemma {:induction false} SameEntriesExactly(entries: seq<Entry>, r: seq<Entry>, lib: Library)
    requires PlainEntries(entries) && PlainEntries(r)
    ensures SameUpToKeyOrder(Obj(ToMembers(entries, lib)), Obj(ToMembers(r, lib)))
       <==> (forall x :: x in TextKeys(entries) <==> x in TextKeys(r)) && SameValues(entries, r, lib)
    decreases entries, 1
  {
    SameKeysExactly(entries, r, lib);
    var ms, ns := ToMembers(entries, lib), ToMembers(r, lib);
    forall i, j | 0 <= i < |entries| && 0 <= j < |r| ensures Agree(entries, r, ms, ns, i, j, lib) {
      SameMembersExactly(entries, r, lib, i, j);
    }
    ValuesAgree(entries, r, ms, ns, lib);
  }

  ghost predicate Agree(entries: seq<Entry>, r: seq<Entry>, ms: seq<Member>, ns: seq<Member>, i: nat, j: nat,
      lib: Library)
  {
    && i < |entries| == |ms| && j < |r| == |ns|
    && (ms[i].key == ns[j].key <==> entries[i].key == r[j].key)
    && (SameUpToKeyOrder(ms[i].value, ns[j].value) <==> SameJson(entries[i].value, r[j].value, lib))
  }

  lemma ValuesAgree(entries: seq<Entry>, r: seq<Entry>, ms: seq<Member>, ns: seq<Member>, lib: Library)
    requires |ms| == |entries| && |ns| == |r|
    requires forall i, j | 0 <= i < |entries| && 0 <= j < |r| :: Agree(entries, r, ms, ns, i, j, lib)
    ensures SameUpToKeyOrder(Obj(ms), Obj(ns)) <==> Keys(ms) == Keys(ns) && SameValues(entries, r, lib)
  {
    if SameUpToKeyOrder(Obj(ms), Obj(ns)) {
      forall i, j | 0 <= i < |entries| && 0 <= j < |r| && entries[i].key == r[j].key
        ensures SameJson(entries[i].value, r[j].value, lib)
      {
        assert Agree(entries, r, ms, ns, i, j, lib);
      }
    }
    if SameValues(entries, r, lib) {
      forall i, j | 0 <= i < |ms| && 0 <= j < |ns| && ms[i].key == ns[j].key
        ensures SameUpToKeyOrder(ms[i].value, ns[j].value)
      {
        assert Agree(entries, r, ms, ns, i, j, lib);
      }
    }
  }

  /** Two calls share a key exactly when their tools print alike and their payloads become the same JSON value. */
  lemma KeysAgreeOnImages(s: string, p: Any, pImage: Any, t: string, q: Any, qImage: Any, lib: Library)
    requires lib.Sound() && lib.CollisionFree()
    requires Becomes(p, pImage, lib) && Becomes(q, qImage, lib)
    ensures CacheKey(s, p, lib) == CacheKey(t, q, lib)
       <==> lib.scalar(Text(s)) == lib.scalar(Text(t)) && SameJson(pImage, qImage, lib)
  {
    KeysAgreeExactly(s, p, t, q, lib);
    NormalizesExactly(p, pImage, lib);
    NormalizesExactly(q, qImage, lib);
    NormalizeIsPlain(p, lib);
    NormalizeIsPlain(q, lib);
    SameJsonExactly(pImage, qImage, lib);
  }
}

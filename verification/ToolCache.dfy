// The tool runtime of agents/shared/tool_runtime.py: normalised values, cache
// keys, and a memo table that is read before a handler runs and written after.

module ToolValues {
  import opened CanonicalJson

  /** A Python value; a dictionary or a set lists what iterating over it yields. */
  datatype Any =
    | Nil
    | Truth(b: bool)
    | Whole(n: int)
    | Float(f: real)
    | Text(s: string)
    | Decimal(d: real)
    | Bytes(bytes: seq<bv8>)
    | Dict(entries: seq<Entry>)
    | List(items: seq<Any>)
    | Tuple(items: seq<Any>)
    | Set(items: seq<Any>)
    | Object(tag: int)

  datatype Entry = Entry(key: Any, value: Any)

  /**
   * Conversions of the Python library: a decimal to a float, bytes to text, anything to its `str`, and
   * the JSON text of a value that is neither a list nor a dictionary; then the order of the sorted keys
   * and the digest of the JSON text.
   */
  datatype Library = Library(
    toFloat: real -> real,
    decode: seq<bv8> -> string,
    str: Any -> string,
    scalar: Any -> string,
    less: KeyOrder,
    digest: Json -> string)
  {
    /** The `str` of a text is the text itself, and the keys are sorted by a total order. */
    ghost predicate Sound() {
      && (forall s :: str(Text(s)) == s)
      && StrictTotalOrder(less)
    }

    ghost predicate CollisionFree() {
      forall x, y :: digest(x) == digest(y) ==> x == y
    }
  }

  /** Setting a key of a dictionary: a key that is there keeps its place. */
  function Assign(entries: seq<Entry>, key: Any, value: Any): seq<Entry> {
    if entries == [] then [Entry(key, value)]
    else if entries[0].key == key then [Entry(key, value)] + entries[1..]
    else [entries[0]] + Assign(entries[1..], key, value)
  }

  function Normalize(v: Any, lib: Library): Any
    decreases v
  {
    match v
    case Nil => v
    case Truth(_) => v
    case Whole(_) => v
    case Float(_) => v
    case Text(_) => v
    case Decimal(d) => Float(lib.toFloat(d))
    case Bytes(b) => Text(lib.decode(b))
    case Dict(entries) => Dict(NormalizeEntries(entries, lib))
    case List(items) => List(NormalizeItems(items, lib))
    case Tuple(items) => List(NormalizeItems(items, lib))
    case Set(items) => List(NormalizeItems(items, lib))
    case Object(_) => Text(lib.str(v))
  }

  function NormalizeItems(items: seq<Any>, lib: Library): (r: seq<Any>)
    ensures |r| == |items|
    decreases items
  {
    if items == [] then []
    else NormalizeItems(items[..|items| - 1], lib) + [Normalize(items[|items| - 1], lib)]
  }

  function NormalizeEntries(entries: seq<Entry>, lib: Library): seq<Entry>
    decreases entries
  {
    if entries == [] then []
    else
      var last := entries[|entries| - 1];
      assert entries decreases to last;
      Assign(NormalizeEntries(entries[..|entries| - 1], lib), Text(lib.str(last.key)), Normalize(last.value, lib))
  }

  /** JSON has no other values: texts as keys, each once, and plain values at every depth. */
  ghost predicate Plain(v: Any)
    decreases v
  {
    match v
    case Dict(entries) =>
      && (forall e | e in entries :: e.key.Text? && Plain(e.value))
      && DistinctEntryKeys(entries)
    case List(items) => forall x | x in items :: Plain(x)
    case Nil => true
    case Truth(_) => true
    case Whole(_) => true
    case Float(_) => true
    case Text(_) => true
    case _ => false
  }

  ghost predicate DistinctEntryKeys(entries: seq<Entry>) {
    forall i, j | 0 <= i < j < |entries| :: entries[i].key != entries[j].key
  }

  ghost predicate PlainEntries(entries: seq<Entry>) {
    (forall e | e in entries :: e.key.Text? && Plain(e.value)) && DistinctEntryKeys(entries)
  }

  lemma {:induction false} AssignMembers(entries: seq<Entry>, key: Any, value: Any)
    ensures forall e :: e in Assign(entries, key, value) ==> e == Entry(key, value) || e in entries
  {
    if entries != [] && entries[0].key != key {
      AssignMembers(entries[1..], key, value);
    }
  }

  lemma {:induction false} AssignKeepsPlain(entries: seq<Entry>, key: Any, value: Any)
    requires PlainEntries(entries) && key.Text? && Plain(value)
    ensures PlainEntries(Assign(entries, key, value))
  {
    AssignMembers(entries, key, value);
    var r := Assign(entries, key, value);
    if entries != [] && entries[0].key != key {
      var rest := entries[1..];
      AssignKeepsPlain(rest, key, value);
      AssignMembers(rest, key, value);
      var tail := Assign(rest, key, value);
      forall i, j | 0 <= i < j < |r| ensures r[i].key != r[j].key {
        assert r[j] == tail[j - 1] && r[j] in tail;
      }
    }
  }

  lemma {:induction false} NormalizeIsPlain(v: Any, lib: Library)
    ensures Plain(Normalize(v, lib))
    decreases v
  {
    match v
    case Dict(entries) => NormalizeEntriesArePlain(entries, lib);
    case List(items) => NormalizeItemsArePlain(items, lib);
    case Tuple(items) => NormalizeItemsArePlain(items, lib);
    case Set(items) => NormalizeItemsArePlain(items, lib);
    case _ =>
  }

  lemma {:induction false} NormalizeItemsArePlain(items: seq<Any>, lib: Library)
    ensures forall x | x in NormalizeItems(items, lib) :: Plain(x)
    decreases items
  {
    if items != [] {
      NormalizeItemsArePlain(items[..|items| - 1], lib);
      NormalizeIsPlain(items[|items| - 1], lib);
    }
  }

  lemma {:induction false} NormalizeEntriesArePlain(entries: seq<Entry>, lib: Library)
    ensures PlainEntries(NormalizeEntries(entries, lib))
    decreases entries
  {
    if entries != [] {
      var last := entries[|entries| - 1];
      assert entries decreases to last;
      NormalizeEntriesArePlain(entries[..|entries| - 1], lib);
      NormalizeIsPlain(last.value, lib);
      AssignKeepsPlain(NormalizeEntries(entries[..|entries| - 1], lib), Text(lib.str(last.key)),
          Normalize(last.value, lib));
    }
  }

  lemma {:induction false} AssignNewKey(entries: seq<Entry>, key: Any, value: Any)
    requires forall e | e in entries :: e.key != key
    ensures Assign(entries, key, value) == entries + [Entry(key, value)]
  {
    if entries != [] {
      AssignNewKey(entries[1..], key, value);
      assert entries == [entries[0]] + entries[1..];
    }
  }

  /** Plain values are left as they are. */
  lemma {:induction false} PlainIsNormal(v: Any, lib: Library)
    requires Plain(v) && lib.Sound()
    ensures Normalize(v, lib) == v
    decreases v
  {
    match v
    case Dict(entries) => PlainEntriesAreNormal(entries, lib);
    case List(items) => PlainItemsAreNormal(items, lib);
    case _ =>
  }

  lemma {:induction false} PlainItemsAreNormal(items: seq<Any>, lib: Library)
    requires (forall x | x in items :: Plain(x)) && lib.Sound()
    ensures NormalizeItems(items, lib) == items
    decreases items
  {
    if items != [] {
      PlainItemsAreNormal(items[..|items| - 1], lib);
      PlainIsNormal(items[|items| - 1], lib);
    }
  }

  lemma {:induction false} PlainEntriesAreNormal(entries: seq<Entry>, lib: Library)
    requires PlainEntries(entries) && lib.Sound()
    ensures NormalizeEntries(entries, lib) == entries
    decreases entries
  {
    if entries != [] {
      var init, last := entries[..|entries| - 1], entries[|entries| - 1];
      assert entries decreases to last;
      PlainEntriesAreNormal(init, lib);
      PlainIsNormal(last.value, lib);
      assert Text(lib.str(last.key)) == last.key;
      AssignNewKey(init, last.key, last.value);
    }
  }

  /** Normalising twice is normalising once. */
  lemma NormalizeIsIdempotent(v: Any, lib: Library)
    requires lib.Sound()
    ensures Normalize(Normalize(v, lib), lib) == Normalize(v, lib)
  {
    NormalizeIsPlain(v, lib);
    PlainIsNormal(Normalize(v, lib), lib);
  }

  // --- cache keys --------------------------------------------------------------------

  /** The JSON value that is dumped; a scalar stands for its JSON text. */
  function ToJson(v: Any, lib: Library): Json
    decreases v
  {
    match v
    case Dict(entries) => Obj(ToMembers(entries, lib))
    case List(items) => Arr(ToItems(items, lib))
    case _ => Str(lib.scalar(v))
  }

  function ToItems(items: seq<Any>, lib: Library): (r: seq<Json>)
    ensures |r| == |items|
    decreases items
  {
    if items == [] then [] else ToItems(items[..|items| - 1], lib) + [ToJson(items[|items| - 1], lib)]
  }

  function ToMembers(entries: seq<Entry>, lib: Library): (r: seq<Member>)
    ensures |r| == |entries|
    decreases entries
  {
    if entries == [] then []
    else
      var last := entries[|entries| - 1];
      assert entries decreases to last;
      ToMembers(entries[..|entries| - 1], lib)
      + [Member(if last.key.Text? then last.key.s else lib.str(last.key), ToJson(last.value, lib))]
  }

  lemma {:induction false} PlainIsWellFormed(v: Any, lib: Library)
    requires Plain(v)
    ensures WellFormed(ToJson(v, lib))
    decreases v
  {
    match v
    case Dict(entries) => PlainMembersAreWellFormed(entries, lib);
    case List(items) => PlainItemsAreWellFormed(items, lib);
    case _ =>
  }

  lemma {:induction false} PlainItemsAreWellFormed(items: seq<Any>, lib: Library)
    requires forall x | x in items :: Plain(x)
    ensures forall i | 0 <= i < |items| :: WellFormed(ToItems(items, lib)[i])
    decreases items
  {
    if items != [] {
      PlainItemsAreWellFormed(items[..|items| - 1], lib);
      PlainIsWellFormed(items[|items| - 1], lib);
    }
  }

  lemma {:induction false} PlainMembersAreWellFormed(entries: seq<Entry>, lib: Library)
    requires PlainEntries(entries)
    ensures forall i | 0 <= i < |entries| ::
      ToMembers(entries, lib)[i].key == entries[i].key.s && WellFormed(ToMembers(entries, lib)[i].value)
    ensures DistinctKeys(ToMembers(entries, lib))
    decreases entries
  {
    if entries != [] {
      var last := entries[|entries| - 1];
      assert entries decreases to last;
      PlainMembersAreWellFormed(entries[..|entries| - 1], lib);
      PlainIsWellFormed(last.value, lib);
    }
  }

  /** What is dumped for a call: the tool and its normalised payload. */
  function Raw(tool: string, payload: Any, lib: Library): Json {
    Obj([Member("tool", ToJson(Text(tool), lib)), Member("payload", ToJson(Normalize(payload, lib), lib))])
  }

  function CacheKey(tool: string, payload: Any, lib: Library): string {
    lib.digest(StableJson(Raw(tool, payload, lib), lib.less))
  }

  /** The payloads dump to one JSON text once keys are sorted. */
  ghost predicate SamePayload(p: Any, q: Any, lib: Library) {
    SameUpToKeyOrder(ToJson(Normalize(p, lib), lib), ToJson(Normalize(q, lib), lib))
  }

  lemma RawIsWellFormed(tool: string, payload: Any, lib: Library)
    ensures WellFormed(Raw(tool, payload, lib))
  {
    NormalizeIsPlain(payload, lib);
    PlainIsWellFormed(Normalize(payload, lib), lib);
  }

  lemma RawsAgree(s: string, p: Any, t: string, q: Any, lib: Library)
    ensures SameUpToKeyOrder(Raw(s, p, lib), Raw(t, q, lib))
       <==> lib.scalar(Text(s)) == lib.scalar(Text(t)) && SamePayload(p, q, lib)
  {
    var ms, ns := Raw(s, p, lib).members, Raw(t, q, lib).members;
    assert ms[0].key == "tool" && ms[1].key == "payload" && ns[0].key == "tool" && ns[1].key == "payload";
    assert "tool" != "payload";
    assert Keys(ms) == {"tool", "payload"} == Keys(ns);
  }

  /** Two calls share a key exactly when tool and payload have the same JSON text, keys sorted. */
  lemma KeysAgreeExactly(s: string, p: Any, t: string, q: Any, lib: Library)
    requires lib.Sound() && lib.CollisionFree()
    ensures CacheKey(s, p, lib) == CacheKey(t, q, lib)
       <==> lib.scalar(Text(s)) == lib.scalar(Text(t)) && SamePayload(p, q, lib)
  {
    RawIsWellFormed(s, p, lib);
    RawIsWellFormed(t, q, lib);
    StableJsonIsNormalForm(Raw(s, p, lib), Raw(t, q, lib), lib.less);
    TotalOrderHasNoTies(Raw(s, p, lib), lib.less);
    WithoutTies(Raw(s, p, lib), Raw(t, q, lib), lib.less);
    RawsAgree(s, p, t, q, lib);
  }
}

// Version precedence, section 11 of Semantic Versioning 2.0.0. Build metadata has no part in it.
module SemVers {
  datatype PreId = Numeric(n: nat) | Alphanumeric(s: string)

  datatype SemVer = SemVer(major: nat, minor: nat, patch: nat, pre: seq<PreId>)

  predicate IsPlain(v: SemVer) {
    v.pre == []
  }

  function CompareNat(a: nat, b: nat): (c: int) {
    if a < b then -1 else if a > b then 1 else 0
  }

  // ASCII order.
  function CompareText(a: string, b: string): (c: int) {
    if a == "" then (if b == "" then 0 else -1)
    else if b == "" then 1
    else if a[0] != b[0] then CompareNat(a[0] as nat, b[0] as nat)
    else CompareText(a[1..], b[1..])
  }

  function ComparePreId(a: PreId, b: PreId): (c: int) {
    match (a, b)
    case (Numeric(m), Numeric(n)) => CompareNat(m, n)
    case (Numeric(_), Alphanumeric(_)) => -1
    case (Alphanumeric(_), Numeric(_)) => 1
    case (Alphanumeric(s), Alphanumeric(t)) => CompareText(s, t)
  }

  // Field by field; when all fields of the shorter list are equal, the longer list is greater.
  function CompareFields(a: seq<PreId>, b: seq<PreId>): (c: int) {
    if a == [] then (if b == [] then 0 else -1)
    else if b == [] then 1
    else
      var c := ComparePreId(a[0], b[0]);
      if c != 0 then c else CompareFields(a[1..], b[1..])
  }

  // A release is greater than its pre-releases.
  function ComparePre(a: seq<PreId>, b: seq<PreId>): (c: int) {
    if a == [] then (if b == [] then 0 else 1)
    else if b == [] then -1
    else CompareFields(a, b)
  }

  function CompareMain(a: SemVer, b: SemVer): (c: int) {
    if a.major != b.major then CompareNat(a.major, b.major)
    else if a.minor != b.minor then CompareNat(a.minor, b.minor)
    else CompareNat(a.patch, b.patch)
  }

  function Compare(a: SemVer, b: SemVer): (c: int) {
    var c := CompareMain(a, b);
    if c != 0 then c else ComparePre(a.pre, b.pre)
  }

  predicate Less(a: SemVer, b: SemVer) {
    Compare(a, b) < 0
  }

  /* Precedence is a total order: for each comparison, sign symmetry, equality and transitivity. */

  lemma {:induction false} TextOrder(a: string, b: string, c: string)
    ensures CompareText(a, b) == -CompareText(b, a)
    ensures CompareText(a, b) == 0 <==> a == b
    ensures CompareText(a, b) < 0 && CompareText(b, c) < 0 ==> CompareText(a, c) < 0
    decreases |a|
  {
    if a != "" && b != "" && a[0] == b[0] {
      TextOrder(a[1..], b[1..], if c == "" then "" else c[1..]);
      assert a == [a[0]] + a[1..] && b == [b[0]] + b[1..];
    }
  }

  lemma PreIdOrder(a: PreId, b: PreId, c: PreId)
    ensures ComparePreId(a, b) == -ComparePreId(b, a)
    ensures ComparePreId(a, b) == 0 <==> a == b
    ensures ComparePreId(a, b) < 0 && ComparePreId(b, c) < 0 ==> ComparePreId(a, c) < 0
  {
    if a.Alphanumeric? && b.Alphanumeric? {
      TextOrder(a.s, b.s, if c.Alphanumeric? then c.s else "");
    }
  }

  lemma {:induction false} FieldsOrder(a: seq<PreId>, b: seq<PreId>, c: seq<PreId>)
    ensures CompareFields(a, b) == -CompareFields(b, a)
    ensures CompareFields(a, b) == 0 <==> a == b
    ensures CompareFields(a, b) < 0 && CompareFields(b, c) < 0 ==> CompareFields(a, c) < 0
    decreases |a|
  {
    if a != [] && b != [] {
      PreIdOrder(a[0], b[0], if c == [] then a[0] else c[0]);
      if c != [] {
        PreIdOrder(b[0], c[0], a[0]);
        PreIdOrder(a[0], c[0], b[0]);
      }
      FieldsOrder(a[1..], b[1..], if c == [] then [] else c[1..]);
      assert a == [a[0]] + a[1..] && b == [b[0]] + b[1..];
    }
  }

  lemma PreOrder(a: seq<PreId>, b: seq<PreId>, c: seq<PreId>)
    ensures ComparePre(a, b) == -ComparePre(b, a)
    ensures ComparePre(a, b) == 0 <==> a == b
    ensures ComparePre(a, b) < 0 && ComparePre(b, c) < 0 ==> ComparePre(a, c) < 0
  {
    FieldsOrder(a, b, c);
  }

  // Precedence is a strict total order on versions.
  lemma PrecedenceOrder(a: SemVer, b: SemVer, c: SemVer)
    ensures Compare(a, b) == -Compare(b, a)
    ensures Compare(a, b) == 0 <==> a == b
    ensures Less(a, b) && Less(b, c) ==> Less(a, c)
  {
    PreOrder(a.pre, b.pre, c.pre);
  }

  /* Section 11, said without any comparison. */

  // At the first place where they differ, or where the first one ends.
  ghost predicate TextBefore(s: string, t: string) {
    exists k | 0 <= k <= |s| && k <= |t| :: TextBeforeAt(s, t, k)
  }

  predicate TextBeforeAt(s: string, t: string, k: nat)
    requires k <= |s| && k <= |t|
  {
    s[..k] == t[..k] && if k == |s| then k < |t| else k < |t| && s[k] < t[k]
  }

  // Numbers by value, texts by ASCII order, and a number before a text.
  ghost predicate IdBefore(a: PreId, b: PreId) {
    match (a, b)
    case (Numeric(m), Numeric(n)) => m < n
    case (Numeric(_), Alphanumeric(_)) => true
    case (Alphanumeric(_), Numeric(_)) => false
    case (Alphanumeric(s), Alphanumeric(t)) => TextBefore(s, t)
  }

  ghost predicate FieldsBefore(a: seq<PreId>, b: seq<PreId>) {
    exists k | 0 <= k <= |a| && k <= |b| :: FieldsBeforeAt(a, b, k)
  }

  ghost predicate FieldsBeforeAt(a: seq<PreId>, b: seq<PreId>, k: nat)
    requires k <= |a| && k <= |b|
  {
    a[..k] == b[..k] && if k == |a| then k < |b| else k < |b| && IdBefore(a[k], b[k])
  }

  // Major, minor and patch, in this order; then a pre-release before its release, and pre-releases by field.
  ghost predicate Precedes(a: SemVer, b: SemVer) {
    || a.major < b.major
    || (a.major == b.major && a.minor < b.minor)
    || (a.major == b.major && a.minor == b.minor && a.patch < b.patch)
    || (a.major == b.major && a.minor == b.minor && a.patch == b.patch
        && a.pre != [] && (b.pre == [] || FieldsBefore(a.pre, b.pre)))
  }

  lemma {:induction false} TextBeforeTail(s: string, t: string)
    requires s != "" && t != ""
    ensures TextBefore(s, t) <==> s[0] < t[0] || (s[0] == t[0] && TextBefore(s[1..], t[1..]))
  {
    if s[0] < t[0] {
      assert TextBeforeAt(s, t, 0);
    }
    if s[0] == t[0] && TextBefore(s[1..], t[1..]) {
      var k :| 0 <= k <= |s[1..]| && k <= |t[1..]| && TextBeforeAt(s[1..], t[1..], k);
      assert s[..k + 1] == [s[0]] + s[1..][..k] && t[..k + 1] == [t[0]] + t[1..][..k];
      assert TextBeforeAt(s, t, k + 1);
    }
    if TextBefore(s, t) {
      var k :| 0 <= k <= |s| && k <= |t| && TextBeforeAt(s, t, k);
      if k > 0 {
        assert s[..k][0] == t[..k][0];
        assert s[1..][..k - 1] == s[..k][1..] && t[1..][..k - 1] == t[..k][1..];
        assert TextBeforeAt(s[1..], t[1..], k - 1);
      }
    }
  }

  lemma {:induction false} TextComparesAs(s: string, t: string)
    ensures CompareText(s, t) < 0 <==> TextBefore(s, t)
    decreases |s|
  {
    if s == "" {
      assert t != "" ==> TextBeforeAt(s, t, 0);
    } else if t != "" {
      TextBeforeTail(s, t);
      TextComparesAs(s[1..], t[1..]);
    }
  }

  lemma IdComparesAs(a: PreId, b: PreId)
    ensures ComparePreId(a, b) < 0 <==> IdBefore(a, b)
  {
    if a.Alphanumeric? && b.Alphanumeric? {
      TextComparesAs(a.s, b.s);
    }
  }

  lemma {:induction false} FieldsBeforeTail(a: seq<PreId>, b: seq<PreId>)
    requires a != [] && b != []
    ensures FieldsBefore(a, b) <==> IdBefore(a[0], b[0]) || (a[0] == b[0] && FieldsBefore(a[1..], b[1..]))
  {
    if IdBefore(a[0], b[0]) {
      assert FieldsBeforeAt(a, b, 0);
    }
    if a[0] == b[0] && FieldsBefore(a[1..], b[1..]) {
      var k :| 0 <= k <= |a[1..]| && k <= |b[1..]| && FieldsBeforeAt(a[1..], b[1..], k);
      assert a[..k + 1] == [a[0]] + a[1..][..k] && b[..k + 1] == [b[0]] + b[1..][..k];
      assert FieldsBeforeAt(a, b, k + 1);
    }
    if FieldsBefore(a, b) {
      var k :| 0 <= k <= |a| && k <= |b| && FieldsBeforeAt(a, b, k);
      if k > 0 {
        assert a[..k][0] == b[..k][0];
        assert a[1..][..k - 1] == a[..k][1..] && b[1..][..k - 1] == b[..k][1..];
        assert FieldsBeforeAt(a[1..], b[1..], k - 1);
      }
    }
  }

  lemma {:induction false} FieldsCompareAs(a: seq<PreId>, b: seq<PreId>)
    ensures CompareFields(a, b) < 0 <==> FieldsBefore(a, b)
    decreases |a|
  {
    if a == [] {
      assert b != [] ==> FieldsBeforeAt(a, b, 0);
    } else if b != [] {
      FieldsBeforeTail(a, b);
      FieldsCompareAs(a[1..], b[1..]);
      IdComparesAs(a[0], b[0]);
      PreIdOrder(a[0], b[0], b[0]);
    }
  }

  // Precedence is that of section 11.
  lemma LessIsPrecedes(a: SemVer, b: SemVer)
    ensures Less(a, b) <==> Precedes(a, b)
  {
    FieldsCompareAs(a.pre, b.pre);
  }
}

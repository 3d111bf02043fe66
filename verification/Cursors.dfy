// Page cursors of packages/agents-registry: the offset in decimal, as base64url.
module Cursors {
  import opened Wrappers
  import opened PromptText

  type byte = b: nat | b < 256
  type sextet = v: nat | v < 64

  /* base64url without padding, section 5 of RFC 4648. */

  function Letter(v: sextet): char {
    if v < 26 then 'A' + v as char
    else if v < 52 then 'a' + (v - 26) as char
    else if v < 62 then '0' + (v - 52) as char
    else if v == 62 then '-'
    else '_'
  }

  function Value(c: char): Option<sextet> {
    if 'A' <= c <= 'Z' then Some(c as nat - 'A' as nat)
    else if 'a' <= c <= 'z' then Some(c as nat - 'a' as nat + 26)
    else if '0' <= c <= '9' then Some(c as nat - '0' as nat + 52)
    else if c == '-' || c == '+' then Some(62)
    else if c == '_' || c == '/' then Some(63)
    else None
  }

  // The sextets of up to three bytes.
  function Sextets(x: byte, y: byte, z: byte): (v: (sextet, sextet, sextet, sextet)) {
    (x / 4, x % 4 * 16 + y / 16, y % 16 * 4 + z / 64, z % 64)
  }

  // The first n letters that up to three bytes give.
  function EncodeGroup(x: byte, y: byte, z: byte, n: nat): string
    requires 2 <= n <= 4
  {
    var v := Sextets(x, y, z);
    [Letter(v.0), Letter(v.1), Letter(v.2), Letter(v.3)][..n]
  }

  function EncodeBytes(bs: seq<byte>): string {
    if bs == [] then ""
    else if |bs| == 1 then EncodeGroup(bs[0], 0, 0, 2)
    else if |bs| == 2 then EncodeGroup(bs[0], bs[1], 0, 3)
    else EncodeGroup(bs[0], bs[1], bs[2], 4) + EncodeBytes(bs[3..])
  }

  // Characters outside the alphabet are skipped.
  function Values(s: string): seq<sextet> {
    if s == "" then []
    else (match Value(s[0]) case Some(v) => [v] case None => []) + Values(s[1..])
  }

  // The three bytes that four sextets hold.
  function First(a: int, b: int): byte
    requires 0 <= a < 64 && 0 <= b < 64
  {
    a * 4 + b / 16
  }

  function Second(b: int, c: int): byte
    requires 0 <= b < 64 && 0 <= c < 64
  {
    b % 16 * 16 + c / 4
  }

  function Third(c: int, d: int): byte
    requires 0 <= c < 64 && 0 <= d < 64
  {
    c % 4 * 64 + d
  }

  function Bytes(vs: seq<sextet>): seq<byte> {
    if |vs| < 2 then []
    else if |vs| == 2 then [First(vs[0], vs[1])]
    else if |vs| == 3 then [First(vs[0], vs[1]), Second(vs[1], vs[2])]
    else [First(vs[0], vs[1]), Second(vs[1], vs[2]), Third(vs[2], vs[3])] + Bytes(vs[4..])
  }

  function DecodeBytes(s: string): seq<byte> {
    Bytes(Values(s))
  }

  lemma LetterValue(v: sextet)
    ensures Value(Letter(v)) == Some(v)
  {
  }

  lemma {:induction false} ValuesOfLetters(vs: seq<sextet>, rest: string)
    ensures Values(Letters(vs) + rest) == vs + Values(rest)
  {
    if vs == [] {
      assert Letters(vs) + rest == rest;
    } else {
      assert (Letters(vs) + rest)[1..] == Letters(vs[1..]) + rest;
      LetterValue(vs[0]);
      ValuesOfLetters(vs[1..], rest);
    }
  }

  function Letters(vs: seq<sextet>): string {
    seq(|vs|, i requires 0 <= i < |vs| => Letter(vs[i]))
  }

  // Splitting three bytes into sextets and putting them together again.
  lemma SextetsRejoin(x: byte, y: byte, z: byte)
    ensures var v := Sextets(x, y, z);
            First(v.0, v.1) == x && Second(v.1, v.2) == y && Third(v.2, v.3) == z
  {
  }

  lemma ValuesOfGroup(x: byte, y: byte, z: byte, n: nat, rest: string)
    requires 2 <= n <= 4
    ensures var v := Sextets(x, y, z);
            Values(EncodeGroup(x, y, z, n) + rest) == [v.0, v.1, v.2, v.3][..n] + Values(rest)
  {
    var v := Sextets(x, y, z);
    var vs: seq<sextet> := [v.0, v.1, v.2, v.3][..n];
    ValuesOfLetters(vs, rest);
    assert Letters(vs) == EncodeGroup(x, y, z, n);
  }

  lemma DecodeGroup(x: byte, y: byte, z: byte, n: nat)
    requires 2 <= n <= 4
    ensures n == 2 && y == z == 0 ==> DecodeBytes(EncodeGroup(x, y, z, n)) == [x]
    ensures n == 3 && z == 0 ==> DecodeBytes(EncodeGroup(x, y, z, n)) == [x, y]
  {
    ValuesOfGroup(x, y, z, n, "");
    SextetsRejoin(x, y, z);
    assert EncodeGroup(x, y, z, n) + "" == EncodeGroup(x, y, z, n);
  }

  lemma DecodeFullGroup(x: byte, y: byte, z: byte, rest: string)
    ensures DecodeBytes(EncodeGroup(x, y, z, 4) + rest) == [x, y, z] + DecodeBytes(rest)
  {
    var v := Sextets(x, y, z);
    var vs: seq<sextet> := [v.0, v.1, v.2, v.3];
    ValuesOfGroup(x, y, z, 4, rest);
    SextetsRejoin(x, y, z);
    assert vs[..4] == vs && (vs + Values(rest))[4..] == Values(rest);
  }

  // Decoding undoes encoding, for every byte string.
  lemma {:induction false} DecodeEncodeBytes(bs: seq<byte>)
    ensures DecodeBytes(EncodeBytes(bs)) == bs
  {
    if |bs| == 1 {
      DecodeGroup(bs[0], 0, 0, 2);
    } else if |bs| == 2 {
      DecodeGroup(bs[0], bs[1], 0, 3);
    } else if |bs| > 2 {
      DecodeFullGroup(bs[0], bs[1], bs[2], EncodeBytes(bs[3..]));
      DecodeEncodeBytes(bs[3..]);
      assert bs == [bs[0], bs[1], bs[2]] + bs[3..];
    }
  }

  /* Decimal numbers. */

  function Digit(d: nat): char
    requires d < 10
  {
    '0' + d as char
  }

  // String(n)
  function Decimal(n: nat): (s: string)
    ensures s != ""
  {
    if n < 10 then [Digit(n)] else Decimal(n / 10) + [Digit(n % 10)]
  }

  predicate IsDigit(c: char) {
    '0' <= c <= '9'
  }

  // The longest prefix of digits.
  function DigitPrefix(s: string): string {
    if s == "" || !IsDigit(s[0]) then "" else [s[0]] + DigitPrefix(s[1..])
  }

  function DigitValue(c: char): nat
    requires IsDigit(c)
  {
    c as nat - '0' as nat
  }

  function NumberOf(digits: string): nat
    requires forall c | c in digits :: IsDigit(c)
  {
    if digits == "" then 0
    else
      assert digits[|digits| - 1] in digits;
      NumberOf(digits[..|digits| - 1]) * 10 + DigitValue(digits[|digits| - 1])
  }

  lemma {:induction false} DigitPrefixIsDigits(s: string)
    ensures forall c | c in DigitPrefix(s) :: IsDigit(c)
  {
    if s != "" && IsDigit(s[0]) {
      DigitPrefixIsDigits(s[1..]);
    }
  }

  function ParseDigits(s: string): Option<nat> {
    var digits := DigitPrefix(s);
    DigitPrefixIsDigits(s);
    if digits == "" then None else Some(NumberOf(digits))
  }

  function Negated(n: Option<nat>): Option<int> {
    match n
    case Some(m) =>
      var i: int := m;
      Some(-i)
    case None => None
  }

  // Number.parseInt(s, 10); None is NaN.
  function ParseInt(s: string): Option<int> {
    ParseSigned(TrimLeft(s))
  }

  function ParseSigned(t: string): Option<int> {
    if t != "" && t[0] == '-' then Negated(ParseDigits(t[1..]))
    else if t != "" && t[0] == '+' then ParseDigits(t[1..])
    else ParseDigits(t)
  }

  lemma {:induction false} DecimalIsDigits(n: nat)
    ensures forall c | c in Decimal(n) :: IsDigit(c)
    ensures NumberOf(Decimal(n)) == n
  {
    if n >= 10 {
      DecimalIsDigits(n / 10);
      assert Decimal(n)[..|Decimal(n)| - 1] == Decimal(n / 10);
    }
  }

  lemma {:induction false} AllDigitsPrefix(s: string)
    requires forall c | c in s :: IsDigit(c)
    ensures DigitPrefix(s) == s
  {
    if s != "" {
      assert s[0] in s;
      AllDigitsPrefix(s[1..]);
    }
  }

  // String(n) of any integer.
  function Printed(n: int): string {
    if n < 0 then "-" + Decimal(-n) else Decimal(n)
  }

  lemma ParseDecimal(n: nat)
    ensures ParseDigits(Decimal(n)) == Some(n) && IsDigit(Decimal(n)[0])
  {
    var digits := Decimal(n);
    DecimalIsDigits(n);
    AllDigitsPrefix(digits);
    assert digits[0] in digits;
  }

  // Reading a printed number gives the number.
  lemma ParsePrinted(n: int)
    ensures ParseInt(Printed(n)) == Some(n)
  {
    var m: nat := if n < 0 then -n else n;
    var s := Printed(n);
    ParseDecimal(m);
    SkipsTo(s, 0, 0);
    if n < 0 {
      assert s[1..] == Decimal(m);
    }
  }

  /* Cursors. */

  // The printed offset is ASCII; a byte beyond ASCII belongs to no digit, sign or blank.
  function AsciiBytes(s: string): seq<byte> {
    seq(|s|, i requires 0 <= i < |s| => if s[i] < '\U{0080}' then s[i] as nat else 255)
  }

  function AsciiText(bs: seq<byte>): string {
    seq(|bs|, i requires 0 <= i < |bs| => if bs[i] < 128 then bs[i] as char else '\U{fffd}')
  }

  function EncodeCursor(value: int): string {
    EncodeBytes(AsciiBytes(Printed(value)))
  }

  function DecodeCursor(cursor: Option<string>): int {
    if cursor == None || cursor.value == "" then 0
    else
      match ParseInt(AsciiText(DecodeBytes(cursor.value)))
      case Some(n) => n
      case None => 0
  }

  // Every cursor the registry hands out reads back as the offset it was made from.
  lemma DecodeEncodeCursor(n: int)
    ensures DecodeCursor(Some(EncodeCursor(n))) == n
  {
    var s := Printed(n);
    DecimalIsDigits(if n < 0 then -n else n);
    DecodeEncodeBytes(AsciiBytes(s));
    assert EncodeBytes(AsciiBytes(s)) != "" by {
      assert |AsciiBytes(s)| > 0;
    }
    forall i | 0 <= i < |s| ensures AsciiText(AsciiBytes(s))[i] == s[i] {
      if s[i] != '-' {
        assert s[i] in Decimal(if n < 0 then -n else n);
      }
    }
    assert AsciiText(AsciiBytes(s)) == s;
    ParsePrinted(n);
  }

  /* Pages. */

  datatype Page<T> = Page(items: seq<T>, nextCursor: Option<string>)

  function Clamp(i: int, lo: int, hi: int): int {
    if i < lo then lo else if i > hi then hi else i
  }

  // list.slice(from, to): negative positions count from the end.
  function Slice<T>(list: seq<T>, from: int, to: int): seq<T> {
    var a := Clamp(if from < 0 then |list| + from else from, 0, |list|);
    var b := Clamp(if to < 0 then |list| + to else to, 0, |list|);
    if a < b then list[a..b] else []
  }

  function Limit(limit: Option<int>): (n: nat)
    ensures 1 <= n <= 100
  {
    Clamp(if limit.Some? then limit.value else 20, 1, 100)
  }

  // The page of an already filtered list that a cursor asks for.
  function ListPage<T>(filtered: seq<T>, limit: Option<int>, cursor: Option<string>): Page<T> {
    var n, offset := Limit(limit), DecodeCursor(cursor);
    Page(Slice(filtered, offset, offset + n),
         if offset + n < |filtered| then Some(EncodeCursor(offset + n)) else None)
  }

  // The pages met by following nextCursor from a cursor; the list does not change meanwhile.
  function Walk<T>(filtered: seq<T>, limit: Option<int>, cursor: Option<string>): (pages: seq<seq<T>>)
    ensures pages != []
    decreases |filtered| - DecodeCursor(cursor)
  {
    var page := ListPage(filtered, limit, cursor);
    if page.nextCursor == None then [page.items]
    else
      DecodeEncodeCursor(DecodeCursor(cursor) + Limit(limit));
      [page.items] + Walk(filtered, limit, page.nextCursor)
  }

  function Concat<T>(pages: seq<seq<T>>): seq<T> {
    if pages == [] then [] else pages[0] + Concat(pages[1..])
  }

  function PagesFor(items: nat, n: nat): nat
    requires n >= 1
  {
    if items <= n then 1 else 1 + PagesFor(items - n, n)
  }

  // The same pages, told by offset.
  function PagesFrom<T>(filtered: seq<T>, n: nat, offset: int): (pages: seq<seq<T>>)
    requires n >= 1
    ensures pages != []
    decreases |filtered| - offset
  {
    [Slice(filtered, offset, offset + n)]
    + if offset + n < |filtered| then PagesFrom(filtered, n, offset + n) else []
  }

  // Cursors carry the offset faithfully, from whatever cursor the walk starts.
  lemma {:induction false} WalkFollowsOffsets<T>(filtered: seq<T>, limit: Option<int>, cursor: Option<string>)
    ensures Walk(filtered, limit, cursor) == PagesFrom(filtered, Limit(limit), DecodeCursor(cursor))
    decreases |filtered| - DecodeCursor(cursor)
  {
    var n, offset := Limit(limit), DecodeCursor(cursor);
    if offset + n < |filtered| {
      DecodeEncodeCursor(offset + n);
      WalkFollowsOffsets(filtered, limit, Some(EncodeCursor(offset + n)));
    }
  }

  lemma ConcatCons<T>(page: seq<T>, pages: seq<seq<T>>)
    ensures Concat([page] + pages) == page + Concat(pages)
  {
    assert ([page] + pages)[1..] == pages;
  }

  lemma SliceInside<T>(list: seq<T>, n: nat, offset: nat)
    requires n >= 1 && offset <= |list|
    ensures Slice(list, offset, offset + n) == if offset + n < |list| then list[offset..offset + n] else list[offset..]
  {
  }

  lemma {:induction false} PagesFromAre<T>(filtered: seq<T>, n: nat, offset: nat)
    requires n >= 1 && offset <= |filtered|
    ensures Concat(PagesFrom(filtered, n, offset)) == filtered[offset..]
    ensures |PagesFrom(filtered, n, offset)| == PagesFor(|filtered| - offset, n)
    decreases |filtered| - offset
  {
    SliceInside(filtered, n, offset);
    if offset + n < |filtered| {
      PagesFromAre(filtered, n, offset + n);
      ConcatCons(filtered[offset..offset + n], PagesFrom(filtered, n, offset + n));
      assert filtered[offset..] == filtered[offset..offset + n] + filtered[offset + n..];
    } else {
      ConcatCons(filtered[offset..], []);
      assert [filtered[offset..]] + [] == [filtered[offset..]];
    }
  }

  // ceil(items / n), and at least one.
  lemma {:induction false} PageCount(items: nat, n: nat)
    requires n >= 1
    ensures var pages := PagesFor(items, n);
            pages >= 1 && items <= pages * n && (pages > 1 ==> (pages - 1) * n < items)
  {
    if items > n {
      PageCount(items - n, n);
    }
  }

  lemma PagesYield<T>(filtered: seq<T>, n: nat, pages: seq<seq<T>>)
    requires n >= 1 && pages == PagesFrom(filtered, n, 0)
    ensures Concat(pages) == filtered && |pages| == PagesFor(|filtered|, n)
  {
    PagesFromAre(filtered, n, 0);
    assert filtered[0..] == filtered;
  }

  // Following cursors from the first page yields the whole list once, in order, in
  // max(1, ceil(length / limit)) pages, as PageCount spells out.
  lemma {:induction false} WalkYieldsEverythingOnce<T>(filtered: seq<T>, limit: Option<int>)
    ensures Concat(Walk(filtered, limit, None)) == filtered
    ensures |Walk(filtered, limit, None)| == PagesFor(|filtered|, Limit(limit))
  {
    WalkFollowsOffsets(filtered, limit, None);
    PagesYield(filtered, Limit(limit), Walk(filtered, limit, None));
  }

  // Each page but the last is full.
  lemma {:induction false} PagesAreFull<T>(filtered: seq<T>, n: nat, offset: nat, k: nat)
    requires n >= 1 && offset <= |filtered| && k < |PagesFrom(filtered, n, offset)|
    ensures var page := PagesFrom(filtered, n, offset)[k];
            |page| <= n && (k + 1 < |PagesFrom(filtered, n, offset)| ==> |page| == n)
    decreases k
  {
    if k > 0 {
      PagesAreFull(filtered, n, offset + n, k - 1);
    }
  }
}

// What the texts of a cursor are: the letters of base64url by the bits they carry, and decimal numbers by the
// places of their digits.
module CursorTexts {
  import opened Wrappers
  import opened PromptText
  import opened Cursors

  /* base64url. */

  function Power(base: nat, k: nat): nat {
    if k == 0 then 1 else base * Power(base, k - 1)
  }

  // The number whose digits these are.
  function Number(base: nat, digits: seq<nat>): nat {
    if digits == [] then 0 else Number(base, digits[..|digits| - 1]) * base + digits[|digits| - 1]
  }

  // Four or two zero bits fill the bits of the bytes up to a multiple of six.
  function Filling(bs: seq<byte>): nat {
    if |bs| % 3 == 1 then 16 else if |bs| % 3 == 2 then 4 else 1
  }

  // The letter for a number below 64: the capitals, the small letters, the digits, and two more.
  ghost predicate LetterFor(c: char, v: nat) {
    || (v < 26 && c == "ABCDEFGHIJKLMNOPQRSTUVWXYZ"[v])
    || (26 <= v < 52 && c == "abcdefghijklmnopqrstuvwxyz"[v - 26])
    || (52 <= v < 62 && c == "0123456789"[v - 52])
    || (v == 62 && c == '-') || (v == 63 && c == '_')
  }

  // Letter by letter, the text spells these numbers.
  ghost predicate Spells(text: string, digits: seq<nat>) {
    |text| == |digits| && forall i | 0 <= i < |text| :: LetterFor(text[i], digits[i])
  }

  lemma CapitalIs(v: nat)
    requires v < 26
    ensures "ABCDEFGHIJKLMNOPQRSTUVWXYZ"[v] == 'A' + v as char
  {
  }

  lemma SmallIs(v: nat)
    requires v < 26
    ensures "abcdefghijklmnopqrstuvwxyz"[v] == 'a' + v as char
  {
  }

  lemma DigitIs(v: nat)
    requires v < 10
    ensures "0123456789"[v] == '0' + v as char
  {
  }

  lemma LetterIs(v: sextet)
    ensures LetterFor(Letter(v), v)
  {
    if v < 26 {
      CapitalIs(v);
    } else if v < 52 {
      SmallIs(v - 26);
    } else if v < 62 {
      DigitIs(v - 52);
    }
  }

  lemma {:induction false} PowerSum(base: nat, j: nat, k: nat)
    ensures Power(base, j + k) == Power(base, j) * Power(base, k)
  {
    if j > 0 {
      PowerSum(base, j - 1, k);
      Associates(base, Power(base, j - 1), Power(base, k));
    }
  }

  lemma {:induction false} NumberOfConcat(base: nat, a: seq<nat>, b: seq<nat>)
    ensures Number(base, a + b) == Number(base, a) * Power(base, |b|) + Number(base, b)
  {
    if b == [] {
      assert a + b == a;
    } else {
      var front, last := b[..|b| - 1], b[|b| - 1];
      NumberOfConcat(base, a, front);
      assert (a + b)[..|a + b| - 1] == a + front;
      TimesBase(Number(base, a), Power(base, |front|), Number(base, front), base);
    }
  }

  lemma TimesBase(a: int, p: int, n: int, base: int)
    ensures (a * p + n) * base == a * (base * p) + n * base
  {
  }

  // The sextets of the bytes, one for each letter.
  function SextetsOf(bs: seq<byte>): seq<nat> {
    if bs == [] then []
    else if |bs| == 1 then
      var v := Sextets(bs[0], 0, 0);
      [v.0, v.1]
    else if |bs| == 2 then
      var v := Sextets(bs[0], bs[1], 0);
      [v.0, v.1, v.2]
    else
      var v := Sextets(bs[0], bs[1], bs[2]);
      [v.0, v.1, v.2, v.3] + SextetsOf(bs[3..])
  }

  lemma GroupSpells(x: byte, y: byte, z: byte, n: nat)
    requires 2 <= n <= 4
    ensures var v := Sextets(x, y, z);
            Spells(EncodeGroup(x, y, z, n), [v.0, v.1, v.2, v.3][..n])
  {
    var v := Sextets(x, y, z);
    LetterIs(v.0);
    LetterIs(v.1);
    LetterIs(v.2);
    LetterIs(v.3);
  }

  lemma {:induction false} EncodingSpells(bs: seq<byte>)
    ensures Spells(EncodeBytes(bs), SextetsOf(bs))
  {
    if |bs| == 1 {
      GroupSpells(bs[0], 0, 0, 2);
    } else if |bs| == 2 {
      GroupSpells(bs[0], bs[1], 0, 3);
    } else if |bs| > 2 {
      GroupSpells(bs[0], bs[1], bs[2], 4);
      EncodingSpells(bs[3..]);
    }
  }

  lemma NumberOfDigits(base: nat, a: nat, b: nat, c: nat, d: nat)
    ensures Number(base, [a]) == a
    ensures Number(base, [a, b]) == a * base + b
    ensures Number(base, [a, b, c]) == (a * base + b) * base + c
    ensures Number(base, [a, b, c, d]) == ((a * base + b) * base + c) * base + d
  {
    assert [a][..0] == [] && [a, b][..1] == [a] && [a, b, c][..2] == [a, b] && [a, b, c, d][..3] == [a, b, c];
  }

  // Three bytes make one number with their four sextets.
  lemma SextetsAreDigits(x: byte, y: byte, z: byte)
    ensures var v := Sextets(x, y, z);
            Number(256, [x, y, z]) == Number(64, [v.0, v.1, v.2, v.3])
  {
    var v := Sextets(x, y, z);
    NumberOfDigits(256, x, y, z, 0);
    NumberOfDigits(64, v.0, v.1, v.2, v.3);
  }

  lemma SmallPowers()
    ensures Power(64, 0) == 1 && Power(64, 1) == 64 && Power(64, 2) == 4096 && Power(64, 3) == 262144
    ensures Power(256, 0) == 1 && Power(256, 1) == 256 && Power(256, 2) == 65536
  {
    Powers(64);
    Powers(256);
  }

  lemma FewLettersFit(bs: seq<byte>)
    requires |bs| < 3
    ensures Power(64, |SextetsOf(bs)|) == Power(256, |bs|) * Filling(bs)
  {
    FewFitNumbers(|SextetsOf(bs)|, |bs|, Filling(bs));
  }

  lemma FewFitNumbers(n: nat, k: nat, f: nat)
    requires (n == k == 0 && f == 1) || (n == 2 && k == 1 && f == 16) || (n == 3 && k == 2 && f == 4)
    ensures Power(64, n) == Power(256, k) * f
  {
    SmallPowers();
  }

  lemma FullGroupsFit()
    ensures Power(64, 4) == Power(256, 3)
  {
    Powers(64);
    Powers(256);
  }

  lemma OneGroupMore(n: nat, k: nat, f: nat)
    requires Power(64, n) == Power(256, k) * f
    ensures Power(64, n + 4) == Power(256, k + 3) * f
  {
    FullGroupsFit();
    PowerSum(64, 4, n);
    PowerSum(256, 3, k);
    Associates(Power(256, 3), Power(256, k), f);
  }

  lemma {:induction false} LettersFit(bs: seq<byte>)
    ensures Power(64, |SextetsOf(bs)|) == Power(256, |bs|) * Filling(bs)
  {
    if |bs| < 3 {
      FewLettersFit(bs);
    } else {
      LettersFit(bs[3..]);
      OneGroupMore(|SextetsOf(bs[3..])|, |bs| - 3, Filling(bs[3..]));
    }
  }

  lemma Powers(base: nat)
    ensures Power(base, 0) == 1 && Power(base, 1) == base
    ensures Power(base, 2) == base * base && Power(base, 3) == base * (base * base)
    ensures Power(base, 4) == base * (base * (base * base))
  {
    PowerSum(base, 1, 1);
    PowerSum(base, 1, 2);
    PowerSum(base, 1, 3);
  }

  lemma Associates(a: int, b: int, c: int)
    ensures a * (b * c) == a * b * c
  {
  }

  lemma TwoFactors(g: int, p: int, n: int, f: int)
    ensures (g * p + n) * f == g * (p * f) + n * f
  {
  }

  lemma OneByteNumber(x: byte)
    ensures Number(64, SextetsOf([x])) == Number(256, [x]) * 16
  {
    var v := Sextets(x, 0, 0);
    NumberOfDigits(64, v.0, v.1, 0, 0);
    NumberOfDigits(256, x, 0, 0, 0);
  }

  lemma TwoBytesNumber(x: byte, y: byte)
    ensures Number(64, SextetsOf([x, y])) == Number(256, [x, y]) * 4
  {
    var v := Sextets(x, y, 0);
    NumberOfDigits(64, v.0, v.1, v.2, 0);
    NumberOfDigits(256, x, y, 0, 0);
  }

  // A group in front, whatever follows.
  lemma GroupNumber(group: seq<byte>, rest: seq<byte>, sextets: seq<nat>, more: seq<nat>, fill: nat)
    requires Number(64, sextets) == Number(256, group)
    requires Number(64, more) == Number(256, rest) * fill && Power(64, |more|) == Power(256, |rest|) * fill
    ensures Number(64, sextets + more) == Number(256, group + rest) * fill
  {
    NumberOfConcat(64, sextets, more);
    NumberOfConcat(256, group, rest);
    TwoFactors(Number(256, group), Power(256, |rest|), Number(256, rest), fill);
  }

  lemma FirstGroup(bs: seq<byte>) returns (group: seq<byte>, sextets: seq<nat>)
    requires |bs| > 2
    ensures bs == group + bs[3..] && SextetsOf(bs) == sextets + SextetsOf(bs[3..])
    ensures Number(64, sextets) == Number(256, group) && Filling(bs) == Filling(bs[3..])
  {
    var v := Sextets(bs[0], bs[1], bs[2]);
    SextetsAreDigits(bs[0], bs[1], bs[2]);
    group, sextets := [bs[0], bs[1], bs[2]], [v.0, v.1, v.2, v.3];
  }

  lemma {:induction false} SextetsNumber(bs: seq<byte>)
    ensures Number(64, SextetsOf(bs)) == Number(256, bs) * Filling(bs)
  {
    if |bs| == 1 {
      OneByteNumber(bs[0]);
      assert bs == [bs[0]];
    } else if |bs| == 2 {
      TwoBytesNumber(bs[0], bs[1]);
      assert bs == [bs[0], bs[1]];
    } else if |bs| > 2 {
      var group, sextets := FirstGroup(bs);
      SextetsNumber(bs[3..]);
      LettersFit(bs[3..]);
      GroupNumber(group, bs[3..], sextets, SextetsOf(bs[3..]), Filling(bs));
    }
  }

  // A cursor's letters are the digits in base 64 of the number that its bytes are in base 256, filled up with zero
  // bits: section 4 of RFC 4648, with the alphabet of its section 5 and no padding.
  lemma EncodingIsBase64(bs: seq<byte>) returns (digits: seq<nat>)
    ensures Spells(EncodeBytes(bs), digits) && |digits| == (8 * |bs| + 5) / 6
    ensures Number(64, digits) == Number(256, bs) * Filling(bs)
  {
    digits := SextetsOf(bs);
    EncodingSpells(bs);
    SextetsNumber(bs);
    SextetCount(bs);
  }

  lemma {:induction false} SextetCount(bs: seq<byte>)
    ensures |SextetsOf(bs)| == (8 * |bs| + 5) / 6
  {
    if |bs| > 2 {
      SextetCount(bs[3..]);
    }
  }

  /* Reading any text as base64url. */

  // The letters of both alphabets of RFC 4648 have values, and no other character has.
  lemma ValueExactly(c: char, v: sextet)
    ensures Value(c) == Some(v) <==> LetterFor(c, v) || (v == 62 && c == '+') || (v == 63 && c == '/')
  {
    if v < 26 {
      CapitalIs(v);
    } else if v < 52 {
      SmallIs(v - 26);
    } else if v < 62 {
      DigitIs(v - 52);
    }
  }

  // Other characters are skipped.
  lemma {:induction false} ValuesOfConcat(s: string, t: string)
    ensures Values(s + t) == Values(s) + Values(t)
  {
    if s == "" {
      assert s + t == t;
    } else {
      assert (s + t)[1..] == s[1..] + t;
      ValuesOfConcat(s[1..], t);
    }
  }

  /* Decimal numbers. */

  // The value of a digit and the digits after it, by places.
  function DigitsNumber(digits: string): int
    requires forall c | c in digits :: IsDigit(c)
  {
    if digits == "" then 0
    else
      assert digits[0] in digits;
      (digits[0] as nat - 48) * Power(10, |digits| - 1) + DigitsNumber(digits[1..])
  }

  ghost predicate AllDigits(s: string) {
    forall c | c in s :: IsDigit(c)
  }

  lemma {:induction false} PlacesOfDigits(digits: string, last: char)
    requires AllDigits(digits) && IsDigit(last)
    ensures AllDigits(digits + [last])
    ensures DigitsNumber(digits + [last]) == DigitsNumber(digits) * 10 + (last as nat - 48)
  {
    var longer := digits + [last];
    if digits == "" {
      assert longer[1..] == "" && Power(10, 0) == 1;
    } else {
      assert digits[0] in digits;
      PlacesOfDigits(digits[1..], last);
      assert longer[1..] == digits[1..] + [last];
      PlaceShifts(digits[0] as nat - 48, Power(10, |digits| - 1));
    }
  }

  lemma PlaceShifts(d: nat, p: nat)
    ensures d * (10 * p) == d * p * 10
  {
  }

  lemma {:induction false} NumberOfIs(digits: string)
    requires AllDigits(digits)
    ensures NumberOf(digits) == DigitsNumber(digits)
  {
    if digits != "" {
      var front, last := digits[..|digits| - 1], digits[|digits| - 1];
      assert last in digits;
      NumberOfIs(front);
      PlacesOfDigits(front, last);
      assert front + [last] == digits;
    }
  }

  // Blanks, at most one sign, digits, and anything that does not go on with a digit.
  ghost predicate Numeral(s: string, pad: string, sign: string, digits: string, rest: string) {
    && s == pad + (sign + (digits + rest)) && Blank(pad) && (sign == "" || sign == "+" || sign == "-")
    && digits != "" && AllDigits(digits) && (rest == "" || !IsDigit(rest[0]))
  }

  lemma {:induction false} DigitPrefixIs(digits: string, rest: string)
    requires AllDigits(digits) && (rest == "" || !IsDigit(rest[0]))
    ensures DigitPrefix(digits + rest) == digits
  {
    if digits == "" {
      assert digits + rest == rest;
    } else {
      assert digits[0] in digits;
      DigitPrefixIs(digits[1..], rest);
      assert (digits + rest)[1..] == digits[1..] + rest;
    }
  }

  lemma TrimLeftIs(pad: string, text: string)
    requires Blank(pad) && text != "" && !IsSpace(text[0])
    ensures TrimLeft(pad + text) == text
  {
    var s := pad + text;
    assert forall i | 0 <= i < |pad| :: s[i] == pad[i];
    SkipsTo(s, 0, |pad|);
  }

  lemma ParseDigitsIs(digits: string, rest: string)
    requires digits != "" && AllDigits(digits) && (rest == "" || !IsDigit(rest[0]))
    ensures ParseDigits(digits + rest).Some? && ParseDigits(digits + rest).value == DigitsNumber(digits)
  {
    DigitPrefixIs(digits, rest);
    NumberOfIs(digits);
  }

  // A numeral is read as the value of its digits, with its sign.
  lemma ReadsNumeral(s: string, pad: string, sign: string, digits: string, rest: string)
    requires Numeral(s, pad, sign, digits, rest)
    ensures ParseInt(s) == Some(if sign == "-" then -DigitsNumber(digits) else DigitsNumber(digits))
  {
    var text := sign + (digits + rest);
    assert digits[0] in digits;
    TrimLeftIs(pad, text);
    ParseDigitsIs(digits, rest);
    if sign == "" {
      assert text == digits + rest;
    } else {
      assert text[1..] == digits + rest;
    }
  }

  lemma MakesNumeral(s: string, pad: string, t: string, sign: string, body: string, digits: string, rest: string)
    requires s == pad + t && t == sign + body && body == digits + rest
    requires Blank(pad) && (sign == "" || sign == "+" || sign == "-")
    requires digits != "" && AllDigits(digits) && (rest == "" || !IsDigit(rest[0]))
    ensures Numeral(s, pad, sign, digits, rest)
  {
  }

  lemma SignCut(t: string) returns (sign: string, body: string)
    requires ParseSigned(t).Some?
    ensures t == sign + body && (sign == "" || sign == "+" || sign == "-") && ParseDigits(body).Some?
  {
    var n := if t != "" && (t[0] == '-' || t[0] == '+') then 1 else 0;
    sign, body := t[..n], t[n..];
  }

  lemma BodyCut(body: string) returns (digits: string, rest: string)
    requires ParseDigits(body).Some?
    ensures body == digits + rest && digits != "" && AllDigits(digits) && (rest == "" || !IsDigit(rest[0]))
  {
    digits, rest := DigitPrefix(body), "";
    DigitPrefixIsDigits(body);
    DigitPrefixEnds(body);
    rest := body[|digits|..];
    Cut(body, |digits|);
  }

  // Nothing else is a number.
  lemma ReadsOnlyNumerals(s: string)
    requires ParseInt(s).Some?
    ensures exists pad, sign, digits, rest :: Numeral(s, pad, sign, digits, rest)
  {
    var f := SkipSpaces(s, 0);
    SpacesSkipped(s, 0);
    Cut(s, f);
    var sign, body := SignCut(s[f..]);
    var digits, rest := BodyCut(body);
    MakesNumeral(s, s[..f], s[f..], sign, body, digits, rest);
  }

  lemma Cut(s: string, n: nat)
    requires n <= |s|
    ensures s == s[..n] + s[n..]
  {
  }

  lemma {:induction false} SpacesSkipped(s: string, i: nat)
    requires i <= |s|
    ensures Spaces(s, i, SkipSpaces(s, i))
    decreases |s| - i
  {
    if i < |s| && IsSpace(s[i]) {
      SpacesSkipped(s, i + 1);
    }
  }

  lemma {:induction false} DigitPrefixEnds(s: string)
    ensures var n := |DigitPrefix(s)|;
            n <= |s| && s[..n] == DigitPrefix(s) && (n == |s| || !IsDigit(s[n]))
  {
    if s != "" && IsDigit(s[0]) {
      DigitPrefixEnds(s[1..]);
      var n := |DigitPrefix(s[1..])|;
      assert s[..n + 1] == [s[0]] + s[1..][..n];
    }
  }

  // An offset is printed in decimal places, without a leading zero, and cursors without a number start over.
  lemma {:induction false} DecimalIs(n: nat)
    ensures AllDigits(Decimal(n)) && DigitsNumber(Decimal(n)) == n
    ensures n > 0 ==> Decimal(n)[0] != '0'
  {
    DecimalIsDigits(n);
    NumberOfIs(Decimal(n));
    if n >= 10 {
      DecimalIs(n / 10);
    }
  }

  lemma OtherCursorsStartOver(cursor: Option<string>)
    requires cursor == None || cursor == Some("")
        || (forall pad, sign, digits, rest :: !Numeral(AsciiText(DecodeBytes(cursor.value)), pad, sign, digits, rest))
    ensures DecodeCursor(cursor) == 0
  {
    if cursor.Some? && cursor.value != "" && ParseInt(AsciiText(DecodeBytes(cursor.value))).Some? {
      ReadsOnlyNumerals(AsciiText(DecodeBytes(cursor.value)));
    }
  }
}

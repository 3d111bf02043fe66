// Text operations that the prompt generator and the docs generator share.
module PromptText {

  // JavaScript white space and line terminators: what trim removes and \s matches.
  predicate IsSpace(c: char) {
    || '\t' <= c <= '\r' || c == ' ' || c == '\U{00a0}' || c == '\U{1680}' || '\U{2000}' <= c <= '\U{200a}'
    || c == '\U{2028}' || c == '\U{2029}' || c == '\U{202f}' || c == '\U{205f}' || c == '\U{3000}' || c == '\U{feff}'
  }

  predicate IsUpper(c: char) {
    'A' <= c <= 'Z'
  }

  // The first index at or after i without white space.
  function SkipSpaces(s: string, i: nat): (f: nat)
    requires i <= |s|
    ensures i <= f <= |s|
    decreases |s| - i
  {
    if i == |s| || !IsSpace(s[i]) then i else SkipSpaces(s, i + 1)
  }

  // The last index at or before j with no white space just before it.
  function SkipSpacesBack(s: string, j: nat): (l: nat)
    requires j <= |s|
    ensures l <= j
  {
    if j == 0 || !IsSpace(s[j - 1]) then j else SkipSpacesBack(s, j - 1)
  }

  function TrimLeft(s: string): string {
    s[SkipSpaces(s, 0)..]
  }

  function TrimRight(s: string): string {
    s[..SkipSpacesBack(s, |s|)]
  }

  function Trim(s: string): string {
    TrimRight(TrimLeft(s))
  }

  // lines.join("\n")
  function Join(lines: seq<string>): string {
    if lines == [] then ""
    else if |lines| == 1 then lines[0]
    else lines[0] + "\n" + Join(lines[1..])
  }

  // s.split("\n")
  function Split(s: string): (lines: seq<string>)
    ensures lines != []
  {
    if s == "" then [""]
    else
      var rest := Split(s[1..]);
      if s[0] == '\n' then [""] + rest else [[s[0]] + rest[0]] + rest[1..]
  }

  ghost predicate SingleLine(s: string) {
    forall i | 0 <= i < |s| :: s[i] != '\n'
  }

  lemma {:induction false} JoinConcat(a: seq<string>, b: seq<string>)
    requires a != [] && b != []
    ensures Join(a + b) == Join(a) + "\n" + Join(b)
  {
    if |a| == 1 {
      assert (a + b)[1..] == b;
    } else {
      JoinConcat(a[1..], b);
      assert (a + b)[1..] == a[1..] + b;
    }
  }

  lemma {:induction false} SplitLine(line: string, rest: string)
    requires SingleLine(line)
    ensures Split(line + "\n" + rest) == [line] + Split(rest)
    ensures Split(line) == [line]
  {
    if line == "" {
      assert line + "\n" + rest == "\n" + rest;
      assert ("\n" + rest)[1..] == rest;
    } else {
      SplitLine(line[1..], rest);
      assert (line + "\n" + rest)[1..] == line[1..] + "\n" + rest;
      assert [line[0]] + line[1..] == line;
    }
  }

  // Splitting undoes joining, for single-line items.
  lemma {:induction false} SplitJoin(lines: seq<string>)
    requires lines != [] && forall l | l in lines :: SingleLine(l)
    ensures Split(Join(lines)) == lines
  {
    SplitLine(lines[0], Join(lines[1..]));
    if |lines| > 1 {
      SplitJoin(lines[1..]);
    }
  }

  /* Trimming cuts between the first and the last character that is not white space. */

  ghost predicate Blank(s: string) {
    Spaces(s, 0, |s|)
  }

  ghost predicate Spaces(s: string, a: nat, b: nat) {
    b <= |s| && forall i | a <= i < b :: IsSpace(s[i])
  }

  lemma {:induction false} SkipsTo(s: string, i: nat, f: nat)
    requires i <= f <= |s| && Spaces(s, i, f) && (f == |s| || !IsSpace(s[f]))
    ensures SkipSpaces(s, i) == f
    decreases f - i
  {
    if i < f {
      SkipsTo(s, i + 1, f);
    }
  }

  lemma {:induction false} SkipsBackTo(s: string, j: nat, l: nat)
    requires l <= j <= |s| && Spaces(s, l, j) && (l == 0 || !IsSpace(s[l - 1]))
    ensures SkipSpacesBack(s, j) == l
  {
    if l < j {
      SkipsBackTo(s, j - 1, l);
    }
  }

  lemma TrimBlank(s: string)
    requires Blank(s)
    ensures Trim(s) == ""
  {
    SkipsTo(s, 0, |s|);
  }

  // f and l are the first and the last visible character.
  ghost predicate Visible(s: string, f: nat, l: nat) {
    f <= l < |s| && Spaces(s, 0, f) && Spaces(s, l + 1, |s|) && !IsSpace(s[f]) && !IsSpace(s[l])
  }

  lemma TrimCuts(s: string, f: nat, l: nat)
    requires Visible(s, f, l)
    ensures Trim(s) == s[f..l + 1]
  {
    SkipsTo(s, 0, f);
    var rest := s[f..];
    SkipsBackTo(rest, |rest|, l - f + 1);
    assert rest[..l - f + 1] == s[f..l + 1];
  }

  lemma VisibleEnds(s: string) returns (f: nat, l: nat)
    requires !Blank(s)
    ensures Visible(s, f, l)
  {
    f := 0;
    while IsSpace(s[f])
      invariant f < |s| && Spaces(s, 0, f)
      decreases |s| - f
    {
      f := f + 1;
    }
    l := |s| - 1;
    while IsSpace(s[l])
      invariant f <= l < |s| && Spaces(s, l + 1, |s|)
      decreases l
    {
      l := l - 1;
    }
  }

  // A text that starts and ends visibly is its own trimming.
  ghost predicate Trimmed(s: string) {
    s != "" && !IsSpace(s[0]) && !IsSpace(s[|s| - 1])
  }

  lemma TrimIsTrimmed(s: string)
    ensures Trim(s) == "" || Trimmed(Trim(s))
    ensures Trimmed(s) ==> Trim(s) == s
    ensures Trim(Trim(s)) == Trim(s)
  {
    if Blank(s) {
      TrimBlank(s);
    } else {
      var f, l := VisibleEnds(s);
      TrimCuts(s, f, l);
      var t := s[f..l + 1];
      TrimCuts(t, 0, |t| - 1);
    }
  }

  lemma TrimPadded(s: string, pad: string)
    requires Trimmed(s) && Blank(pad)
    ensures Trim(s + pad) == s
  {
    TrimCuts(s + pad, 0, |s| - 1);
  }

  // Cutting off a later part with a visible character in it changes what trimming leaves.
  lemma TrimOfPrefixDiffers(s: string, p: nat, q: nat)
    requires p <= q < |s| && !IsSpace(s[q])
    ensures Trim(s[..p]) != Trim(s)
  {
    var f, l := VisibleEnds(s);
    TrimCuts(s, f, l);
    var t := s[..p];
    if Blank(t) {
      TrimBlank(t);
    } else {
      var g, m := VisibleEnds(t);
      TrimCuts(t, g, m);
      assert |Trim(t)| == m + 1 - g < l + 1 - f;
    }
  }
}

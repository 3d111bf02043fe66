// The compiled prompt printed by the collection generator and read back by the docs generator.
module PromptGenerator {
  import opened PromptText

  // toLowerCase, which the model takes as given.
  type Lowering = string -> string

  function Lowered(values: seq<string>, lower: Lowering): set<string> {
    set v | v in values :: lower(v)
  }

  // Trimmed, non-blank values; of those equal ignoring case, the first.
  function Unique(values: seq<string>, lower: Lowering): seq<string> {
    if values == [] then []
    else
      var result := Unique(values[..|values| - 1], lower);
      var value := Trim(values[|values| - 1]);
      if value == "" || lower(value) in Lowered(result, lower) then result else result + [value]
  }

  // result is values[i] trimmed, and no value before it is equal to it ignoring case.
  ghost predicate FirstOfKind(values: seq<string>, lower: Lowering, result: string, i: nat) {
    && i < |values| && result == Trim(values[i]) != ""
    && forall j | 0 <= j < i :: Trim(values[j]) == "" || lower(Trim(values[j])) != lower(result)
  }

  ghost predicate Increasing(idx: seq<nat>) {
    forall k, m | 0 <= k < m < |idx| :: idx[k] < idx[m]
  }

  // Every non-blank value is represented.
  ghost predicate Represented(values: seq<string>, lower: Lowering, seen: set<string>) {
    forall j | 0 <= j < |values| && Trim(values[j]) != "" :: lower(Trim(values[j])) in seen
  }

  lemma LoweredGrows(values: seq<string>, value: string, lower: Lowering)
    ensures Lowered(values + [value], lower) == Lowered(values, lower) + {lower(value)}
  {
    assert value in values + [value];
    forall v | v in values ensures lower(v) in Lowered(values + [value], lower) {
      assert v in values + [value];
    }
  }

  // The result holds the first value of each kind, in the order of the values, and every kind.
  lemma {:induction false} UniqueKeepsFirsts(values: seq<string>, lower: Lowering) returns (idx: seq<nat>)
    ensures var result := Unique(values, lower);
            && |idx| == |result| && Increasing(idx)
            && (forall k | 0 <= k < |idx| :: FirstOfKind(values, lower, result[k], idx[k]))
            && Represented(values, lower, Lowered(result, lower))
  {
    if values == [] {
      idx := [];
    } else {
      var n := |values| - 1;
      var result, value := Unique(values[..n], lower), Trim(values[n]);
      idx := UniqueKeepsFirsts(values[..n], lower);
      forall k | 0 <= k < |idx| ensures FirstOfKind(values, lower, result[k], idx[k]) {
        FirstStays(values, lower, result[k], idx[k]);
      }
      RepresentedStays(values, lower, Lowered(result, lower));
      if value != "" && lower(value) !in Lowered(result, lower) {
        NewIsFirst(values, lower, Lowered(result, lower));
        LoweredGrows(result, value, lower);
        idx := idx + [n];
      }
    }
  }

  lemma FirstStays(values: seq<string>, lower: Lowering, result: string, i: nat)
    requires values != [] && FirstOfKind(values[..|values| - 1], lower, result, i)
    ensures FirstOfKind(values, lower, result, i) && i < |values| - 1
  {
    forall j | 0 <= j < i ensures values[j] == values[..|values| - 1][j] {}
  }

  lemma RepresentedStays(values: seq<string>, lower: Lowering, seen: set<string>)
    requires values != [] && Represented(values[..|values| - 1], lower, seen)
    ensures forall more | Trim(values[|values| - 1]) != "" ==> lower(Trim(values[|values| - 1])) in seen + more ::
              Represented(values, lower, seen + more)
    ensures (Trim(values[|values| - 1]) != "" ==> lower(Trim(values[|values| - 1])) in seen)
        ==> Represented(values, lower, seen)
  {
    forall j | 0 <= j < |values| - 1 && Trim(values[j]) != "" ensures lower(Trim(values[j])) in seen {
      assert values[..|values| - 1][j] == values[j];
    }
  }

  lemma NewIsFirst(values: seq<string>, lower: Lowering, seen: set<string>)
    requires values != [] && Represented(values[..|values| - 1], lower, seen)
    requires var value := Trim(values[|values| - 1]); value != "" && lower(value) !in seen
    ensures FirstOfKind(values, lower, Trim(values[|values| - 1]), |values| - 1)
  {
    forall j | 0 <= j < |values| - 1 && Trim(values[j]) != "" ensures lower(Trim(values[j])) in seen {
      assert values[..|values| - 1][j] == values[j];
    }
  }

  ghost predicate Distinct(values: seq<string>, lower: Lowering) {
    forall i, j | 0 <= i < j < |values| :: lower(values[i]) != lower(values[j])
  }

  lemma DistinctGrows(values: seq<string>, value: string, lower: Lowering)
    requires Distinct(values, lower) && lower(value) !in Lowered(values, lower)
    ensures Distinct(values + [value], lower)
  {
    var longer := values + [value];
    forall i, j | 0 <= i < j < |longer| ensures lower(longer[i]) != lower(longer[j]) {
      assert longer[i] == values[i] && values[i] in values;
      if j < |values| {
        assert longer[j] == values[j];
        assert lower(values[i]) != lower(values[j]);
      }
    }
  }

  // No two results are equal ignoring case, and each is trimmed.
  lemma {:induction false} UniqueIsUnique(values: seq<string>, lower: Lowering)
    ensures var r := Unique(values, lower);
            Distinct(r, lower) && forall v | v in r :: Trimmed(v)
  {
    if values != [] {
      UniqueIsUnique(values[..|values| - 1], lower);
      TrimIsTrimmed(values[|values| - 1]);
      var front, r := Unique(values[..|values| - 1], lower), Unique(values, lower);
      var value := Trim(values[|values| - 1]);
      if r != front {
        DistinctGrows(front, value, lower);
      }
    }
  }

  // The loop over a set of what was seen.
  method UniqueStrings(values: seq<string>, lower: Lowering) returns (result: seq<string>)
    ensures result == Unique(values, lower)
  {
    var seen: set<string> := {};
    result := [];
    var i := 0;
    while i < |values|
      invariant 0 <= i <= |values|
      invariant result == Unique(values[..i], lower)
      invariant seen == Lowered(result, lower)
    {
      assert values[..i + 1][..i] == values[..i];
      var value := Trim(values[i]);
      i := i + 1;
      if value == "" {
        continue;
      }
      var normalized := lower(value);
      if normalized in seen {
        continue;
      }
      LoweredGrows(result, value, lower);
      seen := seen + {normalized};
      result := result + [value];
    }
    assert values[..i] == values;
  }

  datatype Section = Section(heading: string, body: seq<string>)

  datatype PromptInput = PromptInput(
    name: string, mission: string,
    whenToUse: seq<string>, inputs: seq<string>, outputs: seq<string>, objectives: seq<string>,
    rules: seq<string>, tools: seq<string>, guardrails: seq<string>, qualityChecklist: seq<string>,
    outputFormat: string)

  // The constant bullet items of the fixed sections; their wording is not part of the model.
  datatype FixedText = FixedText(
    reasoning: seq<string>, autonomous: seq<string>, cadence: seq<string>, priority: seq<string>,
    escalation: seq<string>, learning: seq<string>)

  function Bullets(items: seq<string>): seq<string> {
    seq(|items|, i requires 0 <= i < |items| => "- " + items[i])
  }

  function GuardrailItems(input: PromptInput): seq<string> {
    input.rules + input.guardrails +
    ["nunca misturar dados entre tenants",
     "nunca afirmar certeza quando a confianca for baixa",
     "sempre registrar motivo, proximo passo e risco relevante"]
  }

  function Guardrails(input: PromptInput, lower: Lowering): seq<string> {
    Unique(GuardrailItems(input), lower)
  }

  const SECTION_COUNT: nat := 15
  const GUARDRAILS: nat := 11
  const OUTPUT_FORMAT: nat := 14

  function HeadingOf(i: nat): string
    requires i < SECTION_COUNT
  {
    match i
    case 0 => "IDENTIDADE E MISSAO"
    case 1 => "QUANDO ACIONAR"
    case 2 => "ENTRADAS OBRIGATORIAS"
    case 3 => "RACIOCINIO OPERACIONAL ESPERADO"
    case 4 => "MODO DE OPERACAO AUTONOMA"
    case 5 => "ROTINA DE MONITORAMENTO E ANTECIPACAO"
    case 6 => "CRITERIOS DE PRIORIZACAO"
    case 7 => "CRITERIOS DE ESCALACAO"
    case 8 => "OBJETIVOS PRIORITARIOS"
    case 9 => "FERRAMENTAS ESPERADAS"
    case 10 => "SAIDAS OBRIGATORIAS"
    case 11 => "GUARDRAILS"
    case 12 => "CHECKLIST DE QUALIDADE"
    case 13 => "APRENDIZADO COMPARTILHADO"
    case _ => "FORMATO DE SAIDA"
  }

  // The items of the bullet sections; the mission and the output format are printed as they are.
  function ItemsOf(input: PromptInput, fixed: FixedText, lower: Lowering, i: nat): seq<string> {
    match i
    case 1 => input.whenToUse
    case 2 => input.inputs
    case 3 => fixed.reasoning
    case 4 => fixed.autonomous
    case 5 => fixed.cadence
    case 6 => fixed.priority
    case 7 => fixed.escalation
    case 8 => input.objectives
    case 9 => input.tools
    case 10 => input.outputs
    case 11 => Guardrails(input, lower)
    case 12 => input.qualityChecklist
    case 13 => fixed.learning
    case _ => []
  }

  function BodyOf(input: PromptInput, fixed: FixedText, lower: Lowering, i: nat): seq<string> {
    if i == 0 then [input.mission]
    else if i == OUTPUT_FORMAT then [input.outputFormat]
    else Bullets(ItemsOf(input, fixed, lower, i))
  }

  function Sections(input: PromptInput, fixed: FixedText, lower: Lowering): seq<Section> {
    seq(SECTION_COUNT, i requires 0 <= i < SECTION_COUNT => Section(HeadingOf(i), BodyOf(input, fixed, lower, i)))
  }

  // Sections one after the other, a blank line between them.
  function SectionLines(sections: seq<Section>): seq<string> {
    if sections == [] then []
    else
      [sections[0].heading] + sections[0].body
      + (if |sections| == 1 then [] else [""] + SectionLines(sections[1..]))
  }

  function Intro(name: string): string {
    "Voce e o " + name + " da BirthHub 360 Official Collection."
  }

  function PrintSections(intro: string, sections: seq<Section>): string {
    Join([intro, ""] + SectionLines(sections))
  }

  function BuildCompiledPrompt(input: PromptInput, fixed: FixedText, lower: Lowering): string {
    PrintSections(Intro(input.name), Sections(input, fixed, lower))
  }
}

module PromptExtractor {
  import opened Wrappers
  import opened PromptText

  predicate HasPrefix(s: string, prefix: string) {
    |prefix| <= |s| && s[..|prefix|] == prefix
  }

  // Where the body starts when (?:^|\n)heading\n matches at i.
  function BodyAt(s: string, heading: string, i: nat): Option<nat>
    requires i <= |s|
  {
    if i == 0 && HasPrefix(s, heading + "\n") then Some(|heading| + 1)
    else if i < |s| && s[i] == '\n' && HasPrefix(s[i + 1..], heading + "\n") then Some(i + |heading| + 2)
    else None
  }

  // The leftmost match at or after i.
  function FirstBody(s: string, heading: string, i: nat): (r: Option<nat>)
    requires i <= |s|
    ensures r.Some? ==> r.value <= |s|
    decreases |s| - i
  {
    if BodyAt(s, heading, i).Some? then BodyAt(s, heading, i)
    else if i == |s| then None
    else FirstBody(s, heading, i + 1)
  }

  // Capitals and white space lead from q to a line end.
  predicate ReachesLineEnd(s: string, q: nat)
    decreases |s| - q
  {
    q < |s| && (s[q] == '\n' || ((IsUpper(s[q]) || IsSpace(s[q])) && ReachesLineEnd(s, q + 1)))
  }

  // \n[A-Z][A-Z\s]+\n matches at p; the class may run over line ends.
  predicate HeadingLike(s: string, p: nat) {
    && p + 2 < |s| && s[p] == '\n' && IsUpper(s[p + 1])
    && (IsUpper(s[p + 2]) || IsSpace(s[p + 2])) && ReachesLineEnd(s, p + 3)
  }

  // The lazy capture ends at the first heading-like position, or at the end of the text.
  function FirstStop(s: string, p: nat): (e: nat)
    requires p <= |s|
    ensures p <= e <= |s|
    decreases |s| - p
  {
    if p == |s| || HeadingLike(s, p) then p else FirstStop(s, p + 1)
  }

  function ExtractPromptSection(prompt: string, heading: string): string {
    match FirstBody(prompt, heading, 0)
    case None => ""
    case Some(b) => Trim(prompt[b..FirstStop(prompt, b)])
  }

  // The first index at or after i without a dash.
  function SkipDashes(line: string, i: nat): (n: nat)
    requires i <= |line|
    ensures i <= n <= |line|
    decreases |line| - i
  {
    if i == |line| || line[i] != '-' then i else SkipDashes(line, i + 1)
  }

  // line.replace(/^-+\s*/, ""): only after at least one dash.
  function StripBullet(line: string): string {
    if line != "" && line[0] == '-' then TrimLeft(line[SkipDashes(line, 0)..]) else line
  }

  // The item of a bullet line; no item for a line that is none, or is blank.
  function ItemOf(line: string): seq<string> {
    var trimmed := Trim(line);
    var item := Trim(StripBullet(trimmed));
    if trimmed != "" && trimmed[0] == '-' && item != "" then [item] else []
  }

  function BulletItems(lines: seq<string>): seq<string> {
    if lines == [] then [] else ItemOf(lines[0]) + BulletItems(lines[1..])
  }

  function ToBulletList(block: string): seq<string> {
    BulletItems(Split(block))
  }
}

module PromptRoundTrip {
  import opened Wrappers
  import opened PromptText
  import opened PromptExtractor

  /* Finding the heading. */

  // The text has the given line: it stands between line ends or text ends.
  ghost predicate LineAt(s: string, line: string, i: nat) {
    && i + |line| <= |s| && s[i..i + |line|] == line
    && (i == 0 || s[i - 1] == '\n')
    && (i + |line| == |s| || s[i + |line|] == '\n')
  }

  ghost predicate HasLine(s: string, line: string) {
    exists i: nat :: LineAt(s, line, i)
  }

  lemma {:induction false} FirstBodyReaches(s: string, heading: string, i: nat, j: nat)
    requires i <= j <= |s| && BodyAt(s, heading, j).Some?
    requires forall k | i <= k < j :: BodyAt(s, heading, k) == None
    ensures FirstBody(s, heading, i) == BodyAt(s, heading, j)
    decreases j - i
  {
    if i < j {
      FirstBodyReaches(s, heading, i + 1, j);
    }
  }

  lemma {:induction false} FirstBodyIsFirst(s: string, heading: string, i: nat, j: nat)
    requires i <= j <= |s| && BodyAt(s, heading, j).Some?
    ensures FirstBody(s, heading, i).Some? && FirstBody(s, heading, i).value <= j + |heading| + 2
    decreases j - i
  {
    if i < j && BodyAt(s, heading, i) == None {
      FirstBodyIsFirst(s, heading, i + 1, j);
    }
  }

  // A match before the end of pre is a whole line of pre.
  lemma EarlyMatchIsLine(pre: string, heading: string, rest: string, k: nat)
    requires SingleLine(heading) && heading != "" && k < |pre|
    requires BodyAt(pre + "\n" + heading + "\n" + rest, heading, k).Some?
    ensures HasLine(pre, heading)
  {
    var s := pre + "\n" + heading + "\n" + rest;
    var start := if k == 0 && HasPrefix(s, heading + "\n") then 0 else k + 1;
    assert s[start..][..|heading| + 1] == heading + "\n";
    forall r | start <= r < start + |heading| ensures s[r] == heading[r - start] != '\n' {
      assert s[r] == (heading + "\n")[r - start];
    }
    assert s[start + |heading|] == (heading + "\n")[|heading|];
    assert s[|pre|] == '\n';
    assert start + |heading| <= |pre|;
    assert pre[start..start + |heading|] == heading by {
      forall r | start <= r < start + |heading| ensures pre[r] == heading[r - start] {
        assert s[r] == pre[r];
      }
    }
    assert LineAt(pre, heading, start);
  }

  lemma LineIsPrefix(pre: string, heading: string, rest: string, i: nat)
    requires LineAt(pre, heading, i)
    ensures HasPrefix((pre + "\n" + heading + "\n" + rest)[i..], heading + "\n")
  {
    var s, p := pre + "\n" + heading + "\n" + rest, heading + "\n";
    forall q | 0 <= q < |p| ensures s[i..][q] == p[q] {
      if q < |heading| {
        assert s[i + q] == pre[i + q] == pre[i..i + |heading|][q];
      } else {
        assert s[i + q] == '\n';
      }
    }
    assert s[i..][..|p|] == p;
  }

  lemma EarlyLineMatches(pre: string, heading: string, rest: string)
    requires HasLine(pre, heading) && heading != ""
    ensures var s := pre + "\n" + heading + "\n" + rest;
            FirstBody(s, heading, 0).Some? && FirstBody(s, heading, 0).value < |pre| + |heading| + 2
  {
    var i: nat :| LineAt(pre, heading, i);
    LineIsPrefix(pre, heading, rest, i);
    FirstBodyBound(pre + "\n" + heading + "\n" + rest, heading, i);
  }

  lemma FirstBodyBound(s: string, heading: string, i: nat)
    requires i <= |s| && HasPrefix(s[i..], heading + "\n") && (i == 0 || s[i - 1] == '\n')
    ensures FirstBody(s, heading, 0).Some? && FirstBody(s, heading, 0).value <= i + |heading| + 1
  {
    if i == 0 {
      assert s[0..] == s;
      assert BodyAt(s, heading, 0) == Some(|heading| + 1);
    } else {
      assert s[i - 1 + 1..] == s[i..];
      FirstBodyIsFirst(s, heading, 0, i - 1);
    }
  }

  lemma OwnPlaceMatches(pre: string, heading: string, rest: string)
    requires pre != ""
    ensures var s := pre + "\n" + heading + "\n" + rest;
            BodyAt(s, heading, |pre|) == Some(|pre| + |heading| + 2)
  {
    var s := pre + "\n" + heading + "\n" + rest;
    assert s[|pre| + 1..][..|heading| + 1] == heading + "\n";
  }

  // The heading is found at its own place exactly when no earlier line equals it.
  lemma HeadingFound(pre: string, heading: string, rest: string)
    requires SingleLine(heading) && heading != "" && pre != ""
    ensures var s := pre + "\n" + heading + "\n" + rest;
            FirstBody(s, heading, 0) == Some(|pre| + |heading| + 2) <==> !HasLine(pre, heading)
  {
    var s := pre + "\n" + heading + "\n" + rest;
    if HasLine(pre, heading) {
      EarlyLineMatches(pre, heading, rest);
    } else {
      OwnPlaceMatches(pre, heading, rest);
      forall k | 0 <= k < |pre| ensures BodyAt(s, heading, k) == None {
        if BodyAt(s, heading, k).Some? {
          EarlyMatchIsLine(pre, heading, rest, k);
        }
      }
      FirstBodyReaches(s, heading, 0, |pre|);
    }
  }

  /* Finding the end of the section. */

  lemma {:induction false} FirstStopReaches(s: string, p: nat, e: nat)
    requires p <= e <= |s| && (e == |s| || HeadingLike(s, e))
    requires forall q | p <= q < e :: !HeadingLike(s, q)
    ensures FirstStop(s, p) == e
    decreases e - p
  {
    if p < e {
      FirstStopReaches(s, p + 1, e);
    }
  }

  // No line of the text but perhaps the first starts with a capital letter.
  ghost predicate NoCapitalLines(s: string) {
    forall q | 0 <= q < |s| - 1 && s[q] == '\n' :: !IsUpper(s[q + 1])
  }

  ghost predicate IsHeading(h: string) {
    |h| >= 2 && IsUpper(h[0]) && forall i | 0 <= i < |h| :: IsUpper(h[i]) || h[i] == ' '
  }

  lemma {:induction false} CapitalsReach(s: string, q: nat, e: nat)
    requires q <= e < |s| && s[e] == '\n' && forall r | q <= r < e :: IsUpper(s[r]) || s[r] == ' '
    ensures ReachesLineEnd(s, q)
    decreases e - q
  {
    if q < e {
      CapitalsReach(s, q + 1, e);
    }
  }

  // A section body runs up to the next heading.
  lemma StopsAtNextHeading(head: string, body: string, next: string, rest: string)
    requires NoCapitalLines(body) && IsHeading(next)
    ensures FirstStop(head + body + "\n" + next + "\n" + rest, |head|) == |head| + |body|
  {
    var s, e := head + body + "\n" + next + "\n" + rest, |head| + |body|;
    assert s[e + 1 + |next|] == '\n';
    assert forall q | e < q <= e + |next| :: s[q] == next[q - e - 1];
    CapitalsReach(s, e + 3, e + 1 + |next|);
    forall q | |head| <= q < e ensures !HeadingLike(s, q) {
      assert s[q] == body[q - |head|];
      if q + 1 < e {
        assert s[q + 1] == body[q + 1 - |head|];
      }
    }
    FirstStopReaches(s, |head|, e);
  }

  ghost predicate NoHeadingInside(s: string) {
    forall p | 0 <= p < |s| :: !HeadingLike(s, p)
  }

  lemma {:induction false} ReachShifts(head: string, body: string, q: nat)
    ensures ReachesLineEnd(head + body, |head| + q) <==> ReachesLineEnd(body, q)
    decreases |body| - q
  {
    if q < |body| {
      assert (head + body)[|head| + q] == body[q];
      ReachShifts(head, body, q + 1);
    }
  }

  lemma HeadingLikeShifts(head: string, body: string, p: nat)
    ensures HeadingLike(head + body, |head| + p) <==> HeadingLike(body, p)
  {
    ReachShifts(head, body, p + 3);
    if p + 2 < |body| {
      var s := head + body;
      assert s[|head| + p] == body[p] && s[|head| + p + 1] == body[p + 1] && s[|head| + p + 2] == body[p + 2];
    }
  }

  lemma WholeBodyStopsAtEnd(head: string, body: string)
    requires NoHeadingInside(body)
    ensures FirstStop(head + body, |head|) == |head + body|
  {
    forall q | |head| <= q < |head + body| ensures !HeadingLike(head + body, q) {
      HeadingLikeShifts(head, body, q - |head|);
    }
    FirstStopReaches(head + body, |head|, |head + body|);
  }

  lemma HeadingStopsEarly(head: string, body: string, p: nat)
    requires p < |body| && HeadingLike(body, p)
    ensures var e := FirstStop(head + body, |head|) - |head|;
            0 <= e <= p && HeadingLike(body, e)
  {
    var text := head + body;
    HeadingLikeShifts(head, body, p);
    FirstStopBefore(text, |head|, |head| + p);
    var e := FirstStop(text, |head|);
    HeadingLikeShifts(head, body, e - |head|);
  }

  lemma LastBodyWithHeadingDiffers(head: string, body: string, p: nat)
    requires p < |body| && HeadingLike(body, p)
    ensures Trim((head + body)[|head|..FirstStop(head + body, |head|)]) != Trim(body)
  {
    HeadingStopsEarly(head, body, p);
    var e := FirstStop(head + body, |head|) - |head|;
    assert (head + body)[|head|..|head| + e] == body[..e];
    TrimOfPrefixDiffers(body, e, e + 1);
  }

  // The last section is read back whole exactly when nothing in it looks like a heading.
  lemma LastBodyReadsBack(head: string, body: string)
    ensures Trim((head + body)[|head|..FirstStop(head + body, |head|)]) == Trim(body) <==> NoHeadingInside(body)
  {
    if NoHeadingInside(body) {
      WholeBodyStopsAtEnd(head, body);
      assert (head + body)[|head|..|head| + |body|] == body;
    } else {
      var p :| 0 <= p < |body| && HeadingLike(body, p);
      LastBodyWithHeadingDiffers(head, body, p);
    }
  }

  lemma {:induction false} FirstStopBefore(s: string, p: nat, q: nat)
    requires p <= q < |s| && HeadingLike(s, q)
    ensures FirstStop(s, p) <= q && HeadingLike(s, FirstStop(s, p))
    decreases q - p
  {
    if !HeadingLike(s, p) {
      FirstStopBefore(s, p + 1, q);
    }
  }
}

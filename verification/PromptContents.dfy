// What the compiled prompt holds, line by line and field by field, and what the docs generator takes for an item.
module PromptContents {
  import opened PromptText
  import opened PromptGenerator
  import opened PromptExtractor
  import opened PromptRoundTrip
  import opened PromptReadback

  /* The printed lines. */

  // The lines of all blocks, a blank line between two blocks.
  function Blocks(blocks: seq<seq<string>>): seq<string> {
    if blocks == [] then []
    else if |blocks| == 1 then blocks[0]
    else blocks[0] + [""] + Blocks(blocks[1..])
  }

  // One line for each item, a dash in front.
  function Listed(items: seq<string>): (lines: seq<string>)
    ensures |lines| == |items|
  {
    if items == [] then [] else ["- " + items[0]] + Listed(items[1..])
  }

  lemma {:induction false} BulletsAreListed(items: seq<string>)
    ensures Bullets(items) == Listed(items)
  {
    if items != [] {
      BulletsAreListed(items[1..]);
      assert Bullets(items) == ["- " + items[0]] + Bullets(items[1..]);
    }
  }

  function RequestBlocks(input: PromptInput): (blocks: seq<seq<string>>)
    ensures |blocks| == 3
  {
    [["IDENTIDADE E MISSAO", input.mission],
     ["QUANDO ACIONAR"] + Listed(input.whenToUse),
     ["ENTRADAS OBRIGATORIAS"] + Listed(input.inputs)]
  }

  function FixedBlocks(fixed: FixedText): (blocks: seq<seq<string>>)
    ensures |blocks| == 5
  {
    [["RACIOCINIO OPERACIONAL ESPERADO"] + Listed(fixed.reasoning),
     ["MODO DE OPERACAO AUTONOMA"] + Listed(fixed.autonomous),
     ["ROTINA DE MONITORAMENTO E ANTECIPACAO"] + Listed(fixed.cadence),
     ["CRITERIOS DE PRIORIZACAO"] + Listed(fixed.priority),
     ["CRITERIOS DE ESCALACAO"] + Listed(fixed.escalation)]
  }

  function DutyBlocks(input: PromptInput, guardrails: seq<string>): (blocks: seq<seq<string>>)
    ensures |blocks| == 4
  {
    [["OBJETIVOS PRIORITARIOS"] + Listed(input.objectives),
     ["FERRAMENTAS ESPERADAS"] + Listed(input.tools),
     ["SAIDAS OBRIGATORIAS"] + Listed(input.outputs),
     ["GUARDRAILS"] + Listed(guardrails)]
  }

  function ClosingBlocks(input: PromptInput, fixed: FixedText): (blocks: seq<seq<string>>)
    ensures |blocks| == 3
  {
    [["CHECKLIST DE QUALIDADE"] + Listed(input.qualityChecklist),
     ["APRENDIZADO COMPARTILHADO"] + Listed(fixed.learning),
     ["FORMATO DE SAIDA", input.outputFormat]]
  }

  // The blocks that the generator lists, in their order.
  function PromptBlocks(input: PromptInput, fixed: FixedText, guardrails: seq<string>): (blocks: seq<seq<string>>)
    ensures |blocks| == 15
  {
    RequestBlocks(input) + FixedBlocks(fixed) + DutyBlocks(input, guardrails) + ClosingBlocks(input, fixed)
  }

  // What the generator removes duplicates from.
  function RulesAndGuardrails(input: PromptInput): seq<string> {
    input.rules + (input.guardrails
    + ["nunca misturar dados entre tenants",
       "nunca afirmar certeza quando a confianca for baixa",
       "sempre registrar motivo, proximo passo e risco relevante"])
  }

  lemma GuardrailItemsAre(input: PromptInput)
    ensures GuardrailItems(input) == RulesAndGuardrails(input)
  {
    assert input.rules + input.guardrails
        + ["nunca misturar dados entre tenants",
           "nunca afirmar certeza quando a confianca for baixa",
           "sempre registrar motivo, proximo passo e risco relevante"] == RulesAndGuardrails(input);
  }

  function BlockOf(s: Section): seq<string> {
    [s.heading] + s.body
  }

  lemma {:induction false} SectionsAreBlocks(sections: seq<Section>, blocks: seq<seq<string>>)
    requires |sections| == |blocks| && forall i | 0 <= i < |blocks| :: BlockOf(sections[i]) == blocks[i]
    ensures SectionLines(sections) == Blocks(blocks)
  {
    if sections != [] {
      SectionsAreBlocks(sections[1..], blocks[1..]);
      assert BlockOf(sections[0]) == blocks[0];
    }
  }

  lemma RequestPrinted(input: PromptInput, fixed: FixedText, lower: Lowering, i: nat)
    requires i < 3
    ensures BlockOf(Section(HeadingOf(i), BodyOf(input, fixed, lower, i))) == RequestBlocks(input)[i]
  {
    BulletsAreListed(ItemsOf(input, fixed, lower, i));
  }

  lemma FixedPrinted(input: PromptInput, fixed: FixedText, lower: Lowering, i: nat)
    requires i < 5
    ensures BlockOf(Section(HeadingOf(3 + i), BodyOf(input, fixed, lower, 3 + i))) == FixedBlocks(fixed)[i]
  {
    BulletsAreListed(ItemsOf(input, fixed, lower, 3 + i));
  }

  lemma DutiesPrinted(input: PromptInput, fixed: FixedText, lower: Lowering, i: nat, guardrails: seq<string>)
    requires i < 4 && guardrails == Unique(RulesAndGuardrails(input), lower)
    ensures BlockOf(Section(HeadingOf(8 + i), BodyOf(input, fixed, lower, 8 + i))) == DutyBlocks(input, guardrails)[i]
  {
    GuardrailItemsAre(input);
    BulletsAreListed(ItemsOf(input, fixed, lower, 8 + i));
  }

  lemma ClosingPrinted(input: PromptInput, fixed: FixedText, lower: Lowering, i: nat)
    requires i < 3
    ensures BlockOf(Section(HeadingOf(12 + i), BodyOf(input, fixed, lower, 12 + i))) == ClosingBlocks(input, fixed)[i]
  {
    BulletsAreListed(ItemsOf(input, fixed, lower, 12 + i));
  }

  lemma BlockPrinted(input: PromptInput, fixed: FixedText, lower: Lowering, i: nat, guardrails: seq<string>)
    requires i < 15 && guardrails == Unique(RulesAndGuardrails(input), lower)
    ensures BlockOf(Section(HeadingOf(i), BodyOf(input, fixed, lower, i)))
         == if i < 3 then RequestBlocks(input)[i]
            else if i < 8 then FixedBlocks(fixed)[i - 3]
            else if i < 12 then DutyBlocks(input, guardrails)[i - 8]
            else ClosingBlocks(input, fixed)[i - 12]
  {
    if i < 3 {
      RequestPrinted(input, fixed, lower, i);
    } else if i < 8 {
      FixedPrinted(input, fixed, lower, i - 3);
    } else if i < 12 {
      DutiesPrinted(input, fixed, lower, i - 8, guardrails);
    } else {
      ClosingPrinted(input, fixed, lower, i - 12);
    }
  }

  lemma PiecesAt(a: seq<seq<string>>, b: seq<seq<string>>, c: seq<seq<string>>, d: seq<seq<string>>, i: nat)
    requires |a| == 3 && |b| == 5 && |c| == 4 && |d| == 3 && i < 15
    ensures (a + b + c + d)[i]
         == if i < 3 then a[i] else if i < 8 then b[i - 3] else if i < 12 then c[i - 8] else d[i - 12]
  {
  }

  lemma BlocksPrinted(input: PromptInput, fixed: FixedText, lower: Lowering, i: nat, guardrails: seq<string>)
    requires i < 15 && guardrails == Unique(RulesAndGuardrails(input), lower)
    ensures BlockOf(Section(HeadingOf(i), BodyOf(input, fixed, lower, i)))
         == PromptBlocks(input, fixed, guardrails)[i]
  {
    BlockPrinted(input, fixed, lower, i, guardrails);
    PiecesAt(RequestBlocks(input), FixedBlocks(fixed), DutyBlocks(input, guardrails), ClosingBlocks(input, fixed), i);
  }

  lemma IntroFirst(intro: string, blocks: seq<seq<string>>)
    requires blocks != []
    ensures Blocks([[intro]] + blocks) == [intro, ""] + Blocks(blocks)
  {
    assert ([[intro]] + blocks)[1..] == blocks;
  }

  lemma SectionsPrinted(intro: string, sections: seq<Section>, blocks: seq<seq<string>>)
    requires blocks != []
    requires |sections| == |blocks| && forall i | 0 <= i < |blocks| :: BlockOf(sections[i]) == blocks[i]
    ensures PrintSections(intro, sections) == Join(Blocks([[intro]] + blocks))
  {
    SectionsAreBlocks(sections, blocks);
    IntroFirst(intro, blocks);
  }

  // The compiled prompt is these lines, one under the other.
  lemma CompiledPromptIs(input: PromptInput, fixed: FixedText, lower: Lowering)
    ensures var intro := "Voce e o " + input.name + " da BirthHub 360 Official Collection.";
            var blocks := PromptBlocks(input, fixed, Unique(RulesAndGuardrails(input), lower));
            BuildCompiledPrompt(input, fixed, lower) == Join(Blocks([[intro]] + blocks))
  {
    var guardrails := Unique(RulesAndGuardrails(input), lower);
    var blocks := PromptBlocks(input, fixed, guardrails);
    var sections := Sections(input, fixed, lower);
    forall i | 0 <= i < |blocks| ensures BlockOf(sections[i]) == blocks[i] {
      BlocksPrinted(input, fixed, lower, i, guardrails);
    }
    SectionsPrinted(Intro(input.name), sections, blocks);
  }

  /* Reading the fields back. */

  // The k-th section after the mission, and what it lists.
  ghost predicate Lists(input: PromptInput, fixed: FixedText, k: nat, heading: string, items: seq<string>) {
    match k
    case 1 => heading == "QUANDO ACIONAR" && items == input.whenToUse
    case 2 => heading == "ENTRADAS OBRIGATORIAS" && items == input.inputs
    case 3 => heading == "RACIOCINIO OPERACIONAL ESPERADO" && items == fixed.reasoning
    case 4 => heading == "MODO DE OPERACAO AUTONOMA" && items == fixed.autonomous
    case 5 => heading == "ROTINA DE MONITORAMENTO E ANTECIPACAO" && items == fixed.cadence
    case 6 => heading == "CRITERIOS DE PRIORIZACAO" && items == fixed.priority
    case 7 => heading == "CRITERIOS DE ESCALACAO" && items == fixed.escalation
    case 8 => heading == "OBJETIVOS PRIORITARIOS" && items == input.objectives
    case 9 => heading == "FERRAMENTAS ESPERADAS" && items == input.tools
    case 10 => heading == "SAIDAS OBRIGATORIAS" && items == input.outputs
    case 12 => heading == "CHECKLIST DE QUALIDADE" && items == input.qualityChecklist
    case 13 => heading == "APRENDIZADO COMPARTILHADO" && items == fixed.learning
    case _ => false
  }

  lemma ListsItsField(input: PromptInput, fixed: FixedText, lower: Lowering, k: nat, heading: string,
          items: seq<string>)
    requires Lists(input, fixed, k, heading, items)
    ensures 1 <= k < 14 && HeadingOf(k) == heading && ItemsOf(input, fixed, lower, k) == items
  {
  }

  // Extracting the section of a heading and splitting it into bullets gives the field it was printed from.
  lemma FieldReadsBack(input: PromptInput, fixed: FixedText, lower: Lowering, k: nat, heading: string,
          items: seq<string>)
    requires Lists(input, fixed, k, heading, items)
    requires SingleLineInput(input, fixed, lower, k) && CleanItems(items) && !HasLine(input.mission, heading)
    ensures ToBulletList(ExtractPromptSection(BuildCompiledPrompt(input, fixed, lower), heading)) == items
  {
    ListsItsField(input, fixed, lower, k, heading, items);
    BulletSectionsReadBack(input, fixed, lower, k);
  }

  lemma GuardrailsHeading(k: nat, heading: string)
    requires k == 11 && heading == "GUARDRAILS"
    ensures HeadingOf(k) == heading
  {
  }

  lemma GuardrailsAreUnique(input: PromptInput, lower: Lowering)
    ensures Guardrails(input, lower) == Unique(RulesAndGuardrails(input), lower)
  {
    GuardrailItemsAre(input);
  }

  lemma EleventhItems(input: PromptInput, fixed: FixedText, lower: Lowering, k: nat, items: seq<string>)
    requires k == 11 && items == Guardrails(input, lower)
    ensures ItemsOf(input, fixed, lower, k) == items
  {
  }

  lemma ListedGuardrailsAreClean(input: PromptInput, lower: Lowering, items: seq<string>)
    requires SingleLineGuardrails(input) && items == Unique(RulesAndGuardrails(input), lower)
    ensures CleanItems(items)
  {
    GuardrailItemsAre(input);
    GuardrailsAreClean(input, lower);
  }

  lemma GuardrailsReadBackAs(input: PromptInput, fixed: FixedText, lower: Lowering, k: nat, heading: string,
          items: seq<string>)
    requires k == 11 && heading == "GUARDRAILS" && items == Unique(RulesAndGuardrails(input), lower)
    requires SingleLineInput(input, fixed, lower, k) && !HasLine(input.mission, heading)
    requires SingleLineGuardrails(input)
    ensures ToBulletList(ExtractPromptSection(BuildCompiledPrompt(input, fixed, lower), heading)) == items
  {
    GuardrailsHeading(k, heading);
    GuardrailsAreUnique(input, lower);
    EleventhItems(input, fixed, lower, k, items);
    ListedGuardrailsAreClean(input, lower, items);
    BulletSectionsReadBack(input, fixed, lower, k);
  }

  // Each text of read is the first of its kind in all, in the order of all, and every kind is there once.
  ghost predicate FirstsOf(read: seq<string>, all: seq<string>, lower: Lowering) {
    && Distinct(read, lower) && Represented(all, lower, Lowered(read, lower))
    && exists idx: seq<nat> | |idx| == |read| && Increasing(idx) ::
         forall k | 0 <= k < |idx| :: FirstOfKind(all, lower, read[k], idx[k])
  }

  lemma UniqueAreFirsts(all: seq<string>, lower: Lowering)
    ensures FirstsOf(Unique(all, lower), all, lower)
  {
    var idx := UniqueKeepsFirsts(all, lower);
    UniqueIsUnique(all, lower);
  }

  // The guardrails read back are the first of each kind of the rules, the guardrails and the three fixed lines.
  lemma GuardrailsAreFirsts(input: PromptInput, fixed: FixedText, lower: Lowering, heading: string)
    requires SingleLineInput(input, fixed, lower, 11) && heading == "GUARDRAILS" && !HasLine(input.mission, heading)
    requires SingleLineGuardrails(input)
    ensures var read := ToBulletList(ExtractPromptSection(BuildCompiledPrompt(input, fixed, lower), heading));
            FirstsOf(read, RulesAndGuardrails(input), lower)
  {
    var all := RulesAndGuardrails(input);
    GuardrailsReadBackAs(input, fixed, lower, 11, heading, Unique(all, lower));
    UniqueAreFirsts(all, lower);
  }

  /* Headings and items, said without searching. */

  // A capital, one or more capitals or spaces, and a line end: \n[A-Z][A-Z\s]+\n stands at p.
  lemma HeadingLikeExactly(s: string, p: nat)
    ensures HeadingLike(s, p) <==>
            exists e: nat :: p + 3 <= e < |s| && s[p] == '\n' && s[e] == '\n' && IsUpper(s[p + 1])
                && forall q | p + 2 <= q < e :: IsUpper(s[q]) || IsSpace(s[q])
  {
    if p + 2 < |s| {
      if e: nat :| p + 3 <= e < |s| && s[e] == '\n' && forall q | p + 2 <= q < e :: IsUpper(s[q]) || IsSpace(s[q]) {
        SpacesReach(s, p + 3, e);
      }
      if ReachesLineEnd(s, p + 3) {
        var e := LineEndOf(s, p + 3);
      }
    }
  }

  lemma {:induction false} SpacesReach(s: string, q: nat, e: nat)
    requires q <= e < |s| && s[e] == '\n' && forall r | q <= r < e :: IsUpper(s[r]) || IsSpace(s[r])
    ensures ReachesLineEnd(s, q)
    decreases e - q
  {
    if q < e {
      SpacesReach(s, q + 1, e);
    }
  }

  lemma {:induction false} LineEndOf(s: string, q: nat) returns (e: nat)
    requires ReachesLineEnd(s, q)
    ensures q <= e < |s| && s[e] == '\n' && forall r | q <= r < e :: IsUpper(s[r]) || IsSpace(s[r])
    decreases |s| - q
  {
    if s[q] == '\n' {
      e := q;
    } else {
      e := LineEndOf(s, q + 1);
    }
  }

  // A line equal to the heading ends, line end included, just before b.
  ghost predicate StartsAt(s: string, heading: string, b: nat) {
    && |heading| < b <= |s| && s[b - |heading| - 1..b] == heading + "\n"
    && (b == |heading| + 1 || s[b - |heading| - 2] == '\n')
  }

  lemma BodyAtStarts(s: string, heading: string, i: nat)
    requires i <= |s| && BodyAt(s, heading, i).Some?
    ensures var b := BodyAt(s, heading, i).value;
            StartsAt(s, heading, b) && i + |heading| < b <= i + |heading| + 2
  {
    var b := BodyAt(s, heading, i).value;
    var start := b - |heading| - 1;
    assert s[start..][..|heading| + 1] == s[start..b];
    if start == 0 {
      assert s[start..] == s;
    }
  }

  lemma StartIsBodyAt(s: string, heading: string, b: nat) returns (i: nat)
    requires StartsAt(s, heading, b)
    ensures i <= |s| && BodyAt(s, heading, i).Some? && BodyAt(s, heading, i).value <= b
    ensures i + |heading| < b
  {
    var start := b - |heading| - 1;
    assert s[start..][..|heading| + 1] == s[start..b];
    i := if start == 0 then 0 else start - 1;
    assert s[0..] == s;
  }

  lemma {:induction false} FirstBodyFrom(s: string, heading: string, i: nat) returns (j: nat)
    requires i <= |s|
    ensures i <= j && forall k | i <= k < j && k <= |s| :: BodyAt(s, heading, k).None?
    ensures FirstBody(s, heading, i).None? ==> j == |s| + 1
    ensures FirstBody(s, heading, i).Some? ==> j <= |s| && FirstBody(s, heading, i) == BodyAt(s, heading, j)
    decreases |s| - i
  {
    if BodyAt(s, heading, i).Some? {
      j := i;
    } else if i == |s| {
      j := |s| + 1;
    } else {
      j := FirstBodyFrom(s, heading, i + 1);
    }
  }

  ghost predicate FirstStart(s: string, heading: string, b: nat) {
    StartsAt(s, heading, b) && forall c | StartsAt(s, heading, c) :: b <= c
  }

  lemma FirstBodyStarts(s: string, heading: string)
    requires FirstBody(s, heading, 0).Some?
    ensures FirstStart(s, heading, FirstBody(s, heading, 0).value)
  {
    var j := FirstBodyFrom(s, heading, 0);
    BodyAtStarts(s, heading, j);
    forall c | StartsAt(s, heading, c) ensures FirstBody(s, heading, 0).value <= c {
      var i := StartIsBodyAt(s, heading, c);
    }
  }

  lemma StartIsFound(s: string, heading: string, b: nat)
    requires StartsAt(s, heading, b)
    ensures FirstBody(s, heading, 0).Some?
  {
    var i := StartIsBodyAt(s, heading, b);
    var j := FirstBodyFrom(s, heading, 0);
  }

  // Without a line that equals the heading and ends, nothing is extracted from a text.
  lemma ExtractsNothing(text: string, heading: string)
    requires forall c :: !StartsAt(text, heading, c)
    ensures ExtractPromptSection(text, heading) == ""
  {
    if FirstBody(text, heading, 0).Some? {
      FirstBodyStarts(text, heading);
    }
  }

  // Else it is what lies between the first such line and what looks like the next heading, or the end.
  lemma ExtractsBetween(text: string, heading: string, b: nat, e: nat)
    requires FirstStart(text, heading, b)
    requires b <= e <= |text| && (e == |text| || HeadingLike(text, e)) && forall q | b <= q < e :: !HeadingLike(text, q)
    ensures ExtractPromptSection(text, heading) == Trim(text[b..e])
  {
    StartIsFound(text, heading, b);
    FirstBodyStarts(text, heading);
    FirstStopReaches(text, b, e);
    ExtractedFrom(text, heading, b);
  }

  ghost predicate Dashes(s: string) {
    forall i | 0 <= i < |s| :: s[i] == '-'
  }

  // Dashes, white space and an item with white space around it all.
  ghost predicate BulletLine(line: string, dashes: string, gap: string, item: string) {
    && dashes != "" && Dashes(dashes) && Blank(gap) && Trimmed(item) && (gap == "" ==> item[0] != '-')
    && exists pad, end | Blank(pad) && Blank(end) :: line == pad + (dashes + gap + item) + end
  }

  // No visible text, or one that starts with no dash, or nothing but dashes.
  ghost predicate NoBullet(line: string) {
    || Blank(line)
    || exists f: nat, l: nat | Visible(line, f, l) ::
         line[f] != '-' || Dashes(line[f..l + 1])
  }

  lemma TrimMiddle(pad: string, s: string, end: string)
    requires Blank(pad) && Blank(end) && Trimmed(s)
    ensures Trim(pad + s + end) == s
  {
    var t := pad + s + end;
    forall i | 0 <= i < |pad| ensures IsSpace(t[i]) {
      assert t[i] == pad[i];
    }
    forall i | |pad| + |s| <= i < |t| ensures IsSpace(t[i]) {
      assert t[i] == end[i - |pad| - |s|];
    }
    TrimCuts(t, |pad|, |pad| + |s| - 1);
    assert t[|pad|..|pad| + |s|] == s;
  }

  lemma {:induction false} SkipsDashesTo(line: string, i: nat, n: nat)
    requires i <= n <= |line| && (forall k | i <= k < n :: line[k] == '-') && (n == |line| || line[n] != '-')
    ensures SkipDashes(line, i) == n
    decreases n - i
  {
    if i < n {
      SkipsDashesTo(line, i + 1, n);
    }
  }

  lemma StrippedIs(dashes: string, gap: string, item: string)
    requires dashes != "" && Dashes(dashes) && Blank(gap) && Trimmed(item) && (gap == "" ==> item[0] != '-')
    ensures StripBullet(dashes + gap + item) == item
  {
    var line := dashes + gap + item;
    var rest := gap + item;
    assert line == dashes + rest;
    assert forall k | 0 <= k < |dashes| :: line[k] == dashes[k];
    SkipsDashesTo(line, 0, |dashes|);
    assert line[|dashes|..] == rest;
    assert forall k | 0 <= k < |gap| :: rest[k] == gap[k];
    SkipsTo(rest, 0, |gap|);
    assert rest[|gap|..] == item;
  }

  // What a line is taken for: an item after at least one dash and any white space, or nothing.
  lemma BulletLineGivesItem(line: string, dashes: string, gap: string, item: string)
    requires BulletLine(line, dashes, gap, item)
    ensures ItemOf(line) == [item]
  {
    var text := dashes + gap + item;
    var pad, end :| Blank(pad) && Blank(end) && line == pad + text + end;
    assert text[0] == '-' && text[|text| - 1] == item[|item| - 1];
    TrimMiddle(pad, text, end);
    StrippedIs(dashes, gap, item);
    TrimIsTrimmed(item);
  }

  lemma NoBulletGivesNone(line: string)
    requires NoBullet(line)
    ensures ItemOf(line) == []
  {
    if Blank(line) {
      TrimBlank(line);
    } else {
      var f: nat, l: nat :| Visible(line, f, l) && (line[f] != '-' || Dashes(line[f..l + 1]));
      TrimCuts(line, f, l);
      var text := line[f..l + 1];
      if Dashes(text) {
        SkipsDashesTo(text, 0, |text|);
        assert text[|text|..] == "";
        TrimBlank("");
      }
    }
  }

  lemma DashesEnd(text: string) returns (n: nat)
    ensures n <= |text| && Dashes(text[..n]) && (n == |text| || text[n] != '-')
  {
    n := 0;
    while n < |text| && text[n] == '-'
      invariant n <= |text| && Dashes(text[..n])
    {
      n := n + 1;
    }
  }

  lemma SpacesEnd(text: string, n: nat) returns (m: nat)
    requires n <= |text|
    ensures n <= m <= |text| && Spaces(text, n, m) && (m == |text| || !IsSpace(text[m]))
  {
    m := n;
    while m < |text| && IsSpace(text[m])
      invariant n <= m <= |text| && Spaces(text, n, m)
    {
      m := m + 1;
    }
  }

  lemma BulletCut(text: string, n: nat, m: nat)
    requires Trimmed(text) && 0 < n <= m < |text| && Dashes(text[..n]) && text[n] != '-'
    requires Spaces(text, n, m) && !IsSpace(text[m])
    ensures BulletLine(text, text[..n], text[n..m], text[m..])
  {
    assert text == "" + (text[..n] + text[n..m] + text[m..]) + "";
    assert Blank("") && Blank(text[n..m]);
    assert text[m..][|text| - m - 1] == text[|text| - 1];
  }

  lemma BulletPadded(line: string, f: nat, l: nat, dashes: string, gap: string, item: string)
    requires Visible(line, f, l) && BulletLine(line[f..l + 1], dashes, gap, item)
    ensures BulletLine(line, dashes, gap, item)
  {
    var text := line[f..l + 1];
    var core := dashes + gap + item;
    var pad, end :| Blank(pad) && Blank(end) && text == pad + core + end;
    assert line == line[..f] + text + line[l + 1..];
    assert line == (line[..f] + pad) + core + (end + line[l + 1..]);
    assert Blank(line[..f] + pad) && Blank(end + line[l + 1..]);
  }

  lemma BulletOf(text: string) returns (dashes: string, gap: string, item: string)
    requires Trimmed(text) && text[0] == '-' && !Dashes(text)
    ensures BulletLine(text, dashes, gap, item)
  {
    var n := DashesEnd(text);
    var m := SpacesEnd(text, n);
    if n < |text| {
      BulletCut(text, n, m);
    } else {
      assert forall i | 0 <= i < |text| :: text[..n][i] == text[i];
      assert false;
    }
    dashes, gap, item := text[..n], text[n..m], text[m..];
  }

  // There is no other line.
  lemma EveryLineIsOneOrTheOther(line: string)
    ensures NoBullet(line) || exists dashes, gap, item :: BulletLine(line, dashes, gap, item)
  {
    if !NoBullet(line) {
      var f, l := VisibleEnds(line);
      assert line[f] == '-' && !Dashes(line[f..l + 1]);
      var dashes, gap, item := BulletOf(line[f..l + 1]);
      BulletPadded(line, f, l, dashes, gap, item);
    }
  }
}

// Reading a compiled prompt back undoes printing it.
module PromptReadback {
  import opened Wrappers
  import opened PromptText
  import opened PromptGenerator
  import opened PromptExtractor
  import opened PromptRoundTrip

  /* Any sectioned text. */

  function LinesBefore(intro: string, sections: seq<Section>, k: nat): (lines: seq<string>)
    requires k <= |sections|
    ensures lines != []
  {
    if k == 0 then [intro, ""]
    else LinesBefore(intro, sections, k - 1) + ([sections[k - 1].heading] + sections[k - 1].body + [""])
  }

  lemma {:induction false} LinesSplit(intro: string, sections: seq<Section>, k: nat)
    requires k < |sections|
    ensures [intro, ""] + SectionLines(sections) == LinesBefore(intro, sections, k) + SectionLines(sections[k..])
  {
    if k == 0 {
      assert sections[0..] == sections;
    } else {
      LinesSplit(intro, sections, k - 1);
      assert sections[k - 1..][1..] == sections[k..];
    }
  }

  // The text before section k, its heading line aside.
  function TextBefore(intro: string, sections: seq<Section>, k: nat): string
    requires k <= |sections|
  {
    Join(LinesBefore(intro, sections, k))
  }

  lemma TextSplit(intro: string, sections: seq<Section>, k: nat, more: seq<string>)
    requires k < |sections| && more != []
    requires SectionLines(sections[k..]) == [sections[k].heading] + more
    ensures PrintSections(intro, sections)
            == TextBefore(intro, sections, k) + "\n" + sections[k].heading + "\n" + Join(more)
  {
    LinesSplit(intro, sections, k);
    JoinConcat(LinesBefore(intro, sections, k), [sections[k].heading] + more);
    JoinConcat([sections[k].heading], more);
  }

  lemma HeadingIsSingleLine(h: string)
    requires IsHeading(h)
    ensures SingleLine(h) && h != ""
  {
  }

  lemma IntroIsVisible(intro: string, sections: seq<Section>, k: nat)
    requires k <= |sections|
    ensures TextBefore(intro, sections, k) != ""
  {
    LinesBeforeStart(intro, sections, k);
    var lines := LinesBefore(intro, sections, k);
    assert Join(lines) == intro + "\n" + Join(lines[1..]);
  }

  lemma {:induction false} LinesBeforeStart(intro: string, sections: seq<Section>, k: nat)
    requires k <= |sections|
    ensures |LinesBefore(intro, sections, k)| >= 2 && LinesBefore(intro, sections, k)[0] == intro
  {
    if k > 0 {
      LinesBeforeStart(intro, sections, k - 1);
    }
  }

  // The text around section k, when another section follows it.
  lemma MiddleText(intro: string, sections: seq<Section>, k: nat) returns (more: string, after: string)
    requires k + 1 < |sections| && (k + 2 == |sections| ==> sections[k + 1].body != [])
    ensures PrintSections(intro, sections) == TextBefore(intro, sections, k) + "\n" + sections[k].heading + "\n" + more
    ensures more == Join(sections[k].body + [""]) + "\n" + sections[k + 1].heading + "\n" + after
  {
    var next, rest := sections[k + 1], sections[k..];
    assert rest[1..] == sections[k + 1..];
    var tail := next.body + if |rest| == 2 then [] else [""] + SectionLines(sections[k + 1..][1..]);
    assert SectionLines(sections[k + 1..]) == [next.heading] + tail;
    var lines := sections[k].body + [""] + SectionLines(sections[k + 1..]);
    assert SectionLines(rest) == [sections[k].heading] + lines;
    TextSplit(intro, sections, k, lines);
    JoinConcat(sections[k].body + [""], [next.heading] + tail);
    JoinConcat([next.heading], tail);
    more, after := Join(lines), Join(tail);
  }

  // Extracting a section that another one follows gives its body, trimmed.
  lemma MiddleSectionReadsBack(intro: string, sections: seq<Section>, k: nat)
    requires k + 1 < |sections| && IsHeading(sections[k].heading) && IsHeading(sections[k + 1].heading)
    requires k + 2 == |sections| ==> sections[k + 1].body != []
    requires !HasLine(TextBefore(intro, sections, k), sections[k].heading)
    requires NoCapitalLines(Join(sections[k].body + [""]))
    ensures ExtractPromptSection(PrintSections(intro, sections), sections[k].heading)
        == Trim(Join(sections[k].body + [""]))
  {
    var h, pre, body := sections[k].heading, TextBefore(intro, sections, k), Join(sections[k].body + [""]);
    var more, after := MiddleText(intro, sections, k);
    IntroIsVisible(intro, sections, k);
    SectionExtracted(pre, h, body, sections[k + 1].heading, after);
    assert PrintSections(intro, sections)
        == pre + "\n" + h + "\n" + (body + "\n" + sections[k + 1].heading + "\n" + after);
  }

  lemma SectionExtracted(pre: string, h: string, body: string, next: string, after: string)
    requires IsHeading(h) && IsHeading(next) && pre != "" && !HasLine(pre, h) && NoCapitalLines(body)
    ensures ExtractPromptSection(pre + "\n" + h + "\n" + (body + "\n" + next + "\n" + after), h) == Trim(body)
  {
    var head := pre + "\n" + h + "\n";
    var more := body + "\n" + next + "\n" + after;
    HeadingIsSingleLine(h);
    HeadingFound(pre, h, more);
    assert head + more == head + body + "\n" + next + "\n" + after;
    BodyExtracted(head + more, h, head, body, next, after);
  }

  lemma BodyExtracted(text: string, h: string, head: string, body: string, next: string, after: string)
    requires text == head + body + "\n" + next + "\n" + after
    requires FirstBody(text, h, 0) == Some(|head|)
    requires IsHeading(next) && NoCapitalLines(body)
    ensures ExtractPromptSection(text, h) == Trim(body)
  {
    ExtractedFrom(text, h, |head|);
    StopsAtNextHeading(head, body, next, after);
    assert text[|head|..|head| + |body|] == body;
  }

  // Extracting the last section gives its body, trimmed, exactly when nothing in the body looks
  // like a heading.
  lemma LastSectionReadsBack(intro: string, sections: seq<Section>)
    requires sections != []
    requires var last := sections[|sections| - 1];
             && IsHeading(last.heading) && last.body != []
             && !HasLine(TextBefore(intro, sections, |sections| - 1), last.heading)
    ensures var last := sections[|sections| - 1];
            ExtractPromptSection(PrintSections(intro, sections), last.heading) == Trim(Join(last.body))
            <==> NoHeadingInside(Join(last.body))
  {
    var k := |sections| - 1;
    var last, pre := sections[k], TextBefore(intro, sections, k);
    assert sections[k..] == [last];
    TextSplit(intro, sections, k, last.body);
    IntroIsVisible(intro, sections, k);
    LastExtracted(PrintSections(intro, sections), pre, last.heading, Join(last.body));
  }

  lemma LastExtracted(text: string, pre: string, h: string, body: string)
    requires text == pre + "\n" + h + "\n" + body
    requires IsHeading(h) && pre != "" && !HasLine(pre, h)
    ensures ExtractPromptSection(text, h) == Trim(body) <==> NoHeadingInside(body)
  {
    var head := pre + "\n" + h + "\n";
    HeadingIsSingleLine(h);
    HeadingFound(pre, h, body);
    ExtractedFrom(text, h, |head|);
    LastBodyReadsBack(head, body);
    assert text == head + body;
  }

  lemma ExtractedFrom(text: string, h: string, b: nat)
    requires FirstBody(text, h, 0) == Some(b)
    ensures ExtractPromptSection(text, h) == Trim(text[b..FirstStop(text, b)])
  {
  }

  /* Bullets. */

  ghost predicate CleanItems(items: seq<string>) {
    forall x | x in items :: Trimmed(x) && SingleLine(x)
  }

  lemma BulletIsItem(x: string)
    requires Trimmed(x) && SingleLine(x)
    ensures SingleLine("- " + x) && Trimmed("- " + x)
    ensures ItemOf("- " + x) == [x]
  {
    var line := "- " + x;
    TrimIsTrimmed(line);
    TrimIsTrimmed(x);
    assert SkipDashes(line, 0) == 1;
    var rest := line[1..];
    assert rest == " " + x;
    SkipsTo(rest, 0, 1);
    assert rest[1..] == x;
  }

  lemma {:induction false} ItemsOfLines(lines: seq<string>, items: seq<string>)
    requires |lines| == |items| && forall i | 0 <= i < |lines| :: ItemOf(lines[i]) == [items[i]]
    ensures BulletItems(lines) == items
  {
    if lines != [] {
      ItemsOfLines(lines[1..], items[1..]);
    }
  }

  lemma BulletsAreItems(items: seq<string>)
    requires CleanItems(items)
    ensures BulletItems(Bullets(items)) == items
    ensures forall l | l in Bullets(items) :: SingleLine(l) && Trimmed(l) && l[0] == '-'
  {
    var lines := Bullets(items);
    forall i | 0 <= i < |items|
      ensures ItemOf(lines[i]) == [items[i]] && SingleLine(lines[i]) && Trimmed(lines[i]) && lines[i][0] == '-'
    {
      BulletIsItem(items[i]);
    }
    ItemsOfLines(lines, items);
  }

  lemma {:induction false} JoinTrimmed(lines: seq<string>)
    requires lines != [] && forall l | l in lines :: Trimmed(l)
    ensures Trimmed(Join(lines))
  {
    if |lines| > 1 {
      JoinTrimmed(lines[1..]);
      assert lines[0] in lines;
    }
  }

  lemma {:induction false} LowerStartsStayClear(lines: seq<string>)
    requires lines != [] && forall l | l in lines :: SingleLine(l) && (l == "" || !IsUpper(l[0]))
    ensures NoCapitalLines(Join(lines)) && (Join(lines) == "" || !IsUpper(Join(lines)[0]))
  {
    assert lines[0] in lines;
    if |lines| > 1 {
      LowerStartsStayClear(lines[1..]);
      var text, rest := Join(lines), Join(lines[1..]);
      assert text == lines[0] + "\n" + rest;
      forall q | 0 <= q < |text| - 1 && text[q] == '\n' ensures !IsUpper(text[q + 1]) {
        if q > |lines[0]| {
          assert rest[q - |lines[0]| - 1] == '\n';
          assert text[q + 1] == rest[q - |lines[0]|];
        } else if q == |lines[0]| {
          assert text[q + 1] == rest[0];
        }
      }
    }
  }

  // A printed bullet section is clear of heading-like lines and its items read back exactly.
  lemma BulletSectionReadsBack(items: seq<string>)
    requires CleanItems(items)
    ensures NoCapitalLines(Join(Bullets(items) + [""]))
    ensures ToBulletList(Trim(Join(Bullets(items) + [""]))) == items
  {
    var lines := Bullets(items);
    BulletsAreItems(items);
    LowerStartsStayClear(lines + [""]);
    if items == [] {
      assert lines + [""] == [""];
      TrimBlank("");
      assert BulletItems([""]) == [];
    } else {
      JoinConcat(lines, [""]);
      JoinTrimmed(lines);
      assert Join(lines) + "\n" + "" == Join(lines) + "\n";
      TrimPadded(Join(lines), "\n");
      SplitJoin(lines);
    }
  }

  // Section k extracted from the printed text and split into bullets.
  function ReadBack(intro: string, sections: seq<Section>, k: nat): seq<string>
    requires k < |sections|
  {
    ToBulletList(ExtractPromptSection(PrintSections(intro, sections), sections[k].heading))
  }

  lemma BulletsReadBackFrom(intro: string, sections: seq<Section>, k: nat, items: seq<string>)
    requires k + 1 < |sections| && (k + 2 == |sections| ==> sections[k + 1].body != [])
    requires IsHeading(sections[k].heading) && IsHeading(sections[k + 1].heading)
    requires !HasLine(TextBefore(intro, sections, k), sections[k].heading)
    requires sections[k].body == Bullets(items) && CleanItems(items)
    ensures ReadBack(intro, sections, k) == items
  {
    BulletSectionReadsBack(items);
    MiddleSectionReadsBack(intro, sections, k);
  }

  /* The compiled prompt. */

  lemma {:induction false} LineOfJoinIsLineOfPart(parts: seq<string>, h: string)
    requires parts != [] && SingleLine(h) && HasLine(Join(parts), h)
    ensures exists p :: p in parts && HasLine(p, h)
  {
    if |parts| == 1 {
      assert parts[0] in parts;
    } else {
      var rest := Join(parts[1..]);
      LineOfTwo(parts[0], rest, h);
      if HasLine(parts[0], h) {
        assert parts[0] in parts;
      } else {
        LineOfJoinIsLineOfPart(parts[1..], h);
        var p :| p in parts[1..] && HasLine(p, h);
        assert p in parts;
      }
    }
  }

  lemma LineOfTwo(a: string, b: string, h: string)
    requires SingleLine(h) && HasLine(a + "\n" + b, h)
    ensures HasLine(a, h) || HasLine(b, h)
  {
    var s := a + "\n" + b;
    var i: nat :| LineAt(s, h, i);
    forall r | i <= r < i + |h| ensures s[r] == h[r - i] {
      assert s[r] == s[i..i + |h|][r - i];
    }
    assert s[|a|] == '\n';
    if i <= |a| {
      assert i + |h| <= |a|;
      assert a[i..i + |h|] == s[i..i + |h|];
      assert LineAt(a, h, i);
    } else {
      var j := i - |a| - 1;
      assert b[j..j + |h|] == s[i..i + |h|];
      assert LineAt(b, h, j);
    }
  }

  lemma SingleLineHasOnlyItself(p: string, h: string)
    requires SingleLine(p) && HasLine(p, h)
    ensures p == h
  {
    var i: nat :| LineAt(p, h, i);
    assert i == 0;
  }

  ghost predicate AllSingleLine(items: seq<string>) {
    forall x | x in items :: SingleLine(x)
  }

  // The items printed up to section k hold no line ends, nor does the name.
  ghost predicate SingleLineInput(input: PromptInput, fixed: FixedText, lower: Lowering, k: nat) {
    SingleLine(input.name) && forall i | 1 <= i < k :: AllSingleLine(ItemsOf(input, fixed, lower, i))
  }

  lemma FirstHeadings(i: nat)
    requires i < 4
    ensures IsHeading(HeadingOf(i))
  {
  }

  lemma SecondHeadings(i: nat)
    requires 4 <= i < 6
    ensures IsHeading(HeadingOf(i))
  {
  }

  lemma ThirdHeadings(i: nat)
    requires 6 <= i < 9
    ensures IsHeading(HeadingOf(i))
  {
  }

  lemma FourthHeadings(i: nat)
    requires 9 <= i < 12
    ensures IsHeading(HeadingOf(i))
  {
  }

  lemma LastHeadings(i: nat)
    requires 12 <= i < 15
    ensures IsHeading(HeadingOf(i))
  {
  }

  lemma Headings(i: nat)
    requires i < SECTION_COUNT
    ensures IsHeading(HeadingOf(i))
  {
    if i < 4 {
      FirstHeadings(i);
    } else if i < 6 {
      SecondHeadings(i);
    } else if i < 9 {
      ThirdHeadings(i);
    } else if i < 12 {
      FourthHeadings(i);
    } else {
      LastHeadings(i);
    }
  }

  // What tells the headings apart: their length, and a letter where lengths are equal.
  function LengthOf(i: nat): nat {
    match i
    case 0 => 19 case 1 => 14 case 2 => 21 case 3 => 31 case 4 => 25 case 5 => 37 case 6 => 24
    case 7 => 22 case 8 => 22 case 9 => 21 case 10 => 19 case 11 => 10 case 12 => 22 case 13 => 25 case _ => 16
  }

  lemma HeadingLength(i: nat)
    requires i < SECTION_COUNT
    ensures |HeadingOf(i)| == LengthOf(i)
  {
  }

  lemma HeadingsDiffer(i: nat, j: nat)
    requires i < j < SECTION_COUNT
    ensures HeadingOf(i) != HeadingOf(j)
  {
    HeadingLength(i);
    HeadingLength(j);
    if LengthOf(i) == LengthOf(j) {
      assert HeadingOf(7)[1] == 'R' && HeadingOf(8)[1] == 'B' && HeadingOf(12)[1] == 'H';
      assert HeadingOf(0)[0] == 'I' && HeadingOf(10)[0] == 'S';
      assert HeadingOf(2)[0] == 'E' && HeadingOf(9)[0] == 'F' && HeadingOf(4)[0] == 'M' && HeadingOf(13)[0] == 'A';
    }
  }

  lemma IntroIsNoHeading(name: string)
    requires SingleLine(name)
    ensures SingleLine(Intro(name)) && !IsHeading(Intro(name))
  {
    assert Intro(name)[1] == 'o';
    var tail := " da BirthHub 360 Official Collection.";
    assert SingleLine(tail);
    forall i | 0 <= i < |Intro(name)| ensures Intro(name)[i] != '\n' {
      if i >= 9 + |name| {
        assert Intro(name)[i] == tail[i - 9 - |name|];
      }
    }
  }

  ghost predicate Lacks(lines: seq<string>, h: string) {
    forall p | p in lines :: !HasLine(p, h)
  }

  lemma BulletsLack(items: seq<string>, h: string)
    requires AllSingleLine(items) && IsHeading(h)
    ensures Lacks(Bullets(items), h)
  {
    forall p | p in Bullets(items) ensures !HasLine(p, h) {
      var i :| 0 <= i < |items| && p == "- " + items[i];
      assert items[i] in items && SingleLine(p) && p[0] != h[0];
      if HasLine(p, h) {
        SingleLineHasOnlyItself(p, h);
      }
    }
  }

  lemma {:induction false} LinesBeforeLack(intro: string, sections: seq<Section>, k: nat, h: string)
    requires k <= |sections| && IsHeading(h)
    requires SingleLine(intro) && !IsHeading(intro)
    requires forall i | 0 <= i < k :: IsHeading(sections[i].heading) && sections[i].heading != h
               && Lacks(sections[i].body, h)
    ensures Lacks(LinesBefore(intro, sections, k), h)
  {
    forall p | SingleLine(p) && p != h ensures !HasLine(p, h) {
      if HasLine(p, h) {
        SingleLineHasOnlyItself(p, h);
      }
    }
    if k > 0 {
      LinesBeforeLack(intro, sections, k - 1, h);
      HeadingIsSingleLine(sections[k - 1].heading);
    }
  }

  lemma NoEarlierLine(intro: string, sections: seq<Section>, k: nat, h: string)
    requires k <= |sections| && IsHeading(h)
    requires Lacks(LinesBefore(intro, sections, k), h)
    ensures !HasLine(TextBefore(intro, sections, k), h)
  {
    HeadingIsSingleLine(h);
    if HasLine(TextBefore(intro, sections, k), h) {
      LineOfJoinIsLineOfPart(LinesBefore(intro, sections, k), h);
    }
  }

  lemma SectionsLack(input: PromptInput, fixed: FixedText, lower: Lowering, k: nat, h: string)
    requires k <= OUTPUT_FORMAT && SingleLineInput(input, fixed, lower, k)
    requires !HasLine(input.mission, h) && IsHeading(h)
    ensures forall i | 0 <= i < k :: Lacks(BodyOf(input, fixed, lower, i), h)
  {
    forall i | 0 <= i < k ensures Lacks(BodyOf(input, fixed, lower, i), h) {
      if i > 0 {
        BulletsLack(ItemsOf(input, fixed, lower, i), h);
      }
    }
  }

  // Without such a line in the mission, no line before section k equals its heading.
  lemma NoLineBefore(input: PromptInput, fixed: FixedText, lower: Lowering, k: nat)
    requires 1 <= k < SECTION_COUNT
    requires SingleLineInput(input, fixed, lower, k) && !HasLine(input.mission, HeadingOf(k))
    ensures !HasLine(TextBefore(Intro(input.name), Sections(input, fixed, lower), k), HeadingOf(k))
  {
    var sections := Sections(input, fixed, lower);
    Headings(k);
    IntroIsNoHeading(input.name);
    SectionsLack(input, fixed, lower, k, HeadingOf(k));
    forall i | 0 <= i < k
      ensures IsHeading(sections[i].heading) && sections[i].heading != HeadingOf(k)
          && Lacks(sections[i].body, HeadingOf(k))
    {
      Headings(i);
      HeadingsDiffer(i, k);
    }
    LinesBeforeLack(Intro(input.name), sections, k, HeadingOf(k));
    NoEarlierLine(Intro(input.name), sections, k, HeadingOf(k));
  }

  ghost predicate SingleLineGuardrails(input: PromptInput) {
    forall i | 0 <= i < |GuardrailItems(input)| :: SingleLine(Trim(GuardrailItems(input)[i]))
  }

  lemma GuardrailsAreClean(input: PromptInput, lower: Lowering)
    requires SingleLineGuardrails(input)
    ensures CleanItems(Guardrails(input, lower))
  {
    var items := GuardrailItems(input);
    UniqueIsUnique(items, lower);
    var idx := UniqueKeepsFirsts(items, lower);
    forall x | x in Unique(items, lower) ensures SingleLine(x) {
      var k :| 0 <= k < |idx| && Unique(items, lower)[k] == x;
      assert FirstOfKind(items, lower, x, idx[k]);
    }
  }

  lemma {:induction false} PartLineIsJoinLine(parts: seq<string>, k: nat, h: string)
    requires k < |parts| && HasLine(parts[k], h)
    ensures HasLine(Join(parts), h)
  {
    if |parts| > 1 {
      var a, b := parts[0], Join(parts[1..]);
      var s := a + "\n" + b;
      if k == 0 {
        var i: nat :| LineAt(a, h, i);
        assert s[i..i + |h|] == a[i..i + |h|];
        assert LineAt(s, h, i);
      } else {
        PartLineIsJoinLine(parts[1..], k - 1, h);
        var i: nat :| LineAt(b, h, i);
        var j := i + |a| + 1;
        assert s[j..j + |h|] == b[i..i + |h|];
        assert s[j - 1] == if i == 0 then '\n' else b[i - 1];
        assert LineAt(s, h, j);
      }
    }
  }

  lemma {:induction false} MissionLinePersists(intro: string, sections: seq<Section>, k: nat)
    requires 1 <= k <= |sections| && |sections[0].body| == 1
    ensures |LinesBefore(intro, sections, k)| > 3 && LinesBefore(intro, sections, k)[3] == sections[0].body[0]
  {
    if k > 1 {
      MissionLinePersists(intro, sections, k - 1);
    }
  }

  // In the printed text, the body of section k is taken to start where it was printed.
  ghost predicate FoundAtOwnPlace(intro: string, sections: seq<Section>, k: nat)
    requires k < |sections|
  {
    FirstBody(PrintSections(intro, sections), sections[k].heading, 0)
    == Some(|TextBefore(intro, sections, k)| + |sections[k].heading| + 2)
  }

  // A heading that is looked for is found at its own place exactly when the mission has no such line.
  lemma HeadingFoundExactly(input: PromptInput, fixed: FixedText, lower: Lowering, k: nat)
    requires 1 <= k < SECTION_COUNT
    requires SingleLineInput(input, fixed, lower, k)
    ensures FoundAtOwnPlace(Intro(input.name), Sections(input, fixed, lower), k)
        <==> !HasLine(input.mission, HeadingOf(k))
  {
    var intro, sections := Intro(input.name), Sections(input, fixed, lower);
    if HasLine(input.mission, HeadingOf(k)) {
      MissionLineStands(intro, sections, k, HeadingOf(k));
    } else {
      NoLineBefore(input, fixed, lower, k);
    }
    Headings(k);
    FoundExactly(intro, sections, k);
  }

  lemma MissionLineStands(intro: string, sections: seq<Section>, k: nat, h: string)
    requires 1 <= k <= |sections| && |sections[0].body| == 1 && HasLine(sections[0].body[0], h)
    ensures HasLine(TextBefore(intro, sections, k), h)
  {
    MissionLinePersists(intro, sections, k);
    PartLineIsJoinLine(LinesBefore(intro, sections, k), 3, h);
  }

  lemma FoundExactly(intro: string, sections: seq<Section>, k: nat)
    requires k < |sections| && (k + 1 == |sections| ==> sections[k].body != []) && IsHeading(sections[k].heading)
    ensures FoundAtOwnPlace(intro, sections, k) <==> !HasLine(TextBefore(intro, sections, k), sections[k].heading)
  {
    HeadingIsSingleLine(sections[k].heading);
    IntroIsVisible(intro, sections, k);
    var more := TextFrom(intro, sections, k);
    HeadingFound(TextBefore(intro, sections, k), sections[k].heading, more);
  }

  lemma TextFrom(intro: string, sections: seq<Section>, k: nat) returns (more: string)
    requires k < |sections| && (k + 1 == |sections| ==> sections[k].body != [])
    ensures PrintSections(intro, sections) == TextBefore(intro, sections, k) + "\n" + sections[k].heading + "\n" + more
  {
    var rest := sections[k..];
    var lines := sections[k].body + if |rest| == 1 then [] else [""] + SectionLines(rest[1..]);
    TextSplit(intro, sections, k, lines);
    more := Join(lines);
  }

  // Reading any printed bullet section back gives exactly its items, when those are clean, what is
  // printed before them is single-line, and the mission has no line equal to the heading.
  lemma BulletSectionsReadBack(input: PromptInput, fixed: FixedText, lower: Lowering, k: nat)
    requires 1 <= k < OUTPUT_FORMAT
    requires SingleLineInput(input, fixed, lower, k) && CleanItems(ItemsOf(input, fixed, lower, k))
    requires !HasLine(input.mission, HeadingOf(k))
    ensures ReadBack(Intro(input.name), Sections(input, fixed, lower), k) == ItemsOf(input, fixed, lower, k)
  {
    Headings(k);
    Headings(k + 1);
    NoLineBefore(input, fixed, lower, k);
    BulletsReadBackFrom(Intro(input.name), Sections(input, fixed, lower), k, ItemsOf(input, fixed, lower, k));
  }

  // In particular the guardrails read back are the deduplicated rules and guardrails.
  lemma GuardrailsReadBack(input: PromptInput, fixed: FixedText, lower: Lowering)
    requires SingleLineInput(input, fixed, lower, GUARDRAILS)
    requires SingleLineGuardrails(input)
    requires !HasLine(input.mission, HeadingOf(GUARDRAILS))
    ensures ReadBack(Intro(input.name), Sections(input, fixed, lower), GUARDRAILS)
        == ItemsOf(input, fixed, lower, GUARDRAILS)
  {
    GuardrailsAreClean(input, lower);
    BulletSectionsReadBack(input, fixed, lower, GUARDRAILS);
  }

  // The output format is read back exactly when nothing in it looks like a heading.
  lemma OutputFormatReadsBack(input: PromptInput, fixed: FixedText, lower: Lowering)
    requires SingleLineInput(input, fixed, lower, OUTPUT_FORMAT)
    requires !HasLine(input.mission, HeadingOf(OUTPUT_FORMAT))
    ensures var read := ExtractPromptSection(BuildCompiledPrompt(input, fixed, lower), HeadingOf(OUTPUT_FORMAT));
            read == Trim(input.outputFormat) <==> NoHeadingInside(input.outputFormat)
  {
    Headings(OUTPUT_FORMAT);
    NoLineBefore(input, fixed, lower, OUTPUT_FORMAT);
    LastSectionReadsBack(Intro(input.name), Sections(input, fixed, lower));
  }

  // A format whose lines start with no capital letter, such as indented JSON, holds no heading.
  lemma NoCapitalLinesMeansNoHeading(s: string)
    requires NoCapitalLines(s)
    ensures NoHeadingInside(s)
  {
  }
}

// The default output format line by line, and its texts read back.
module OutputLines {
  import opened Wrappers
  import PromptText
  import opened OutputFormats

  /* The lines of indented JSON: what is nested stands two blanks further in. */

  function Indented(lines: seq<string>): (r: seq<string>)
    ensures |r| == |lines|
  {
    if lines == [] then [] else ["  " + lines[0]] + Indented(lines[1..])
  }

  function WithComma(lines: seq<string>): (r: seq<string>)
    requires lines != []
    ensures |r| == |lines|
  {
    lines[..|lines| - 1] + [lines[|lines| - 1] + ","]
  }

  function WithKey(key: string, lines: seq<string>): (r: seq<string>)
    requires lines != []
    ensures |r| == |lines|
  {
    [Quoted(key) + ": " + lines[0]] + lines[1..]
  }

  function Lines(v: Value): (lines: seq<string>)
    ensures lines != []
    decreases v
  {
    match v
    case Text(s) => [Quoted(s)]
    case List(items) => if items == [] then ["[]"] else ["["] + Indented(ItemLines(items)) + ["]"]
    case Record(fields) => if fields == [] then ["{}"] else ["{"] + Indented(FieldLines(fields)) + ["}"]
  }

  function ItemLines(items: seq<Value>): (lines: seq<string>)
    decreases items
  {
    if items == [] then []
    else if |items| == 1 then Lines(items[0])
    else WithComma(Lines(items[0])) + ItemLines(items[1..])
  }

  function FieldLines(fields: seq<Field>): (lines: seq<string>)
    decreases fields
  {
    if fields == [] then []
    else
      var first := fields[0];
      assert fields decreases to first;
      var lines := WithKey(first.key, Lines(first.value));
      if |fields| == 1 then lines else WithComma(lines) + FieldLines(fields[1..])
  }

  // Each line after a line end and the indentation.
  function Led(lines: seq<string>, indent: nat): string {
    if lines == [] then "" else NewLine(indent) + lines[0] + Led(lines[1..], indent)
  }

  lemma {:induction false} LedConcat(a: seq<string>, b: seq<string>, indent: nat)
    ensures Led(a + b, indent) == Led(a, indent) + Led(b, indent)
  {
    if a == [] {
      assert a + b == b;
    } else {
      LedConcat(a[1..], b, indent);
      assert (a + b)[1..] == a[1..] + b;
    }
  }

  lemma LedOne(line: string, indent: nat)
    ensures Led([line], indent) == NewLine(indent) + line
  {
    assert Led([line][1..], indent) == "";
  }

  lemma {:induction false} LedIndented(lines: seq<string>, indent: nat)
    ensures Led(Indented(lines), indent) == Led(lines, indent + 2)
  {
    if lines != [] {
      LedIndented(lines[1..], indent);
      assert NewLine(indent) + ("  " + lines[0]) == NewLine(indent + 2) + lines[0];
    }
  }

  lemma LedWithComma(lines: seq<string>, indent: nat)
    requires lines != []
    ensures Led(WithComma(lines), indent) == Led(lines, indent) + ","
  {
    var front, last := lines[..|lines| - 1], lines[|lines| - 1];
    LedConcat(front, [last + ","], indent);
    LedConcat(front, [last], indent);
    LedOne(last + ",", indent);
    LedOne(last, indent);
    assert lines == front + [last];
  }

  lemma LedWithKey(key: string, lines: seq<string>, text: string, indent: nat)
    requires lines != [] && NewLine(indent) + text == Led(lines, indent)
    ensures Led(WithKey(key, lines), indent) == NewLine(indent) + (Quoted(key) + ": " + text)
  {
    var more := Led(lines[1..], indent);
    assert NewLine(indent) + text == NewLine(indent) + (lines[0] + more);
    assert text == (NewLine(indent) + text)[|NewLine(indent)|..];
    assert text == lines[0] + more;
    assert WithKey(key, lines)[1..] == lines[1..];
  }

  // Brackets around led lines.
  lemma LedBrackets(open: string, inner: seq<string>, close: string, indent: nat)
    ensures Led([open] + Indented(inner) + [close], indent)
         == NewLine(indent) + (open + Led(inner, indent + 2) + NewLine(indent) + close)
  {
    LedConcat([open] + Indented(inner), [close], indent);
    LedConcat([open], Indented(inner), indent);
    LedOne(open, indent);
    LedOne(close, indent);
    LedIndented(inner, indent);
    FiveParts(NewLine(indent), open, Led(inner, indent + 2), NewLine(indent), close);
  }

  lemma FiveParts(a: string, b: string, c: string, d: string, e: string)
    ensures (a + b) + c + (d + e) == a + (b + c + d + e)
  {
  }

  lemma {:induction false} PrintLeads(v: Value, indent: nat)
    ensures NewLine(indent) + Print(v, indent) == Led(Lines(v), indent)
    decreases v
  {
    match v {
      case Text(s) => LedOne(Quoted(s), indent);
      case List(items) =>
        if items == [] {
          LedOne("[]", indent);
        } else {
          ItemsLead(items, indent + 2);
          LedBrackets("[", ItemLines(items), "]", indent);
        }
      case Record(fields) =>
        if fields == [] {
          LedOne("{}", indent);
        } else {
          FieldsLead(fields, indent + 2);
          LedBrackets("{", FieldLines(fields), "}", indent);
        }
    }
  }

  lemma {:induction false} ItemsLead(items: seq<Value>, indent: nat)
    ensures PrintItems(items, indent) == Led(ItemLines(items), indent)
    decreases items
  {
    if items != [] {
      PrintLeads(items[0], indent);
      ItemsLead(items[1..], indent);
      if |items| > 1 {
        LedWithComma(Lines(items[0]), indent);
        LedConcat(WithComma(Lines(items[0])), ItemLines(items[1..]), indent);
      }
    }
  }

  lemma {:induction false} FieldsLead(fields: seq<Field>, indent: nat)
    ensures PrintFields(fields, indent) == Led(FieldLines(fields), indent)
    decreases fields
  {
    if fields != [] {
      var first := fields[0];
      assert fields decreases to first;
      PrintLeads(first.value, indent);
      FieldsLead(fields[1..], indent);
      var lines, text := WithKey(first.key, Lines(first.value)), Print(first.value, indent);
      LedWithKey(first.key, Lines(first.value), text, indent);
      FieldPrinted(fields, lines, text, indent);
    }
  }

  lemma FieldPrinted(fields: seq<Field>, lines: seq<string>, text: string, indent: nat)
    requires fields != [] && lines == WithKey(fields[0].key, Lines(fields[0].value))
    requires text == Print(fields[0].value, indent)
    requires Led(lines, indent) == NewLine(indent) + (Quoted(fields[0].key) + ": " + text)
    requires PrintFields(fields[1..], indent) == Led(FieldLines(fields[1..]), indent)
    ensures PrintFields(fields, indent) == Led(FieldLines(fields), indent)
  {
    var rest := PrintFields(fields[1..], indent);
    FourParts(NewLine(indent), Quoted(fields[0].key), ": ", text);
    if |fields| > 1 {
      LedWithComma(lines, indent);
      LedConcat(WithComma(lines), FieldLines(fields[1..]), indent);
    } else {
      assert Led(lines, indent) + "" + rest == Led(lines, indent);
    }
  }

  lemma FourParts(a: string, b: string, c: string, d: string)
    ensures a + b + c + d == a + (b + c + d)
  {
  }

  lemma {:induction false} LedIsJoined(lines: seq<string>)
    requires lines != []
    ensures Led(lines, 0) == "\n" + PromptText.Join(lines)
  {
    assert NewLine(0) == "\n";
    if |lines| == 1 {
      LedOne(lines[0], 0);
      assert lines == [lines[0]];
    } else {
      LedIsJoined(lines[1..]);
    }
  }

  // The output format is these lines, one under the other.
  lemma FormatIsLines(agentId: string, outputs: seq<string>)
    ensures DefaultOutputFormat(agentId, outputs) == PromptText.Join(Lines(DefaultValue(agentId, outputs)))
  {
    var v := DefaultValue(agentId, outputs);
    PrintLeads(v, 0);
    LedIsJoined(Lines(v));
    assert NewLine(0) == "\n";
    assert ("\n" + Print(v, 0))[1..] == ("\n" + PromptText.Join(Lines(v)))[1..];
  }

  /* Reading a JSON string. */

  // The character that a backslash and one more stand for.
  function Named(c: char): Option<char> {
    match c
    case '"' => Some('"')
    case '\\' => Some('\\')
    case '/' => Some('/')
    case 'b' => Some('\U{8}')
    case 'f' => Some('\U{c}')
    case 'n' => Some('\n')
    case 'r' => Some('\r')
    case 't' => Some('\t')
    case _ => None
  }

  function HexValue(c: char): Option<nat> {
    if '0' <= c <= '9' then Some(c as nat - '0' as nat)
    else if 'a' <= c <= 'f' then Some(c as nat - 'a' as nat + 10)
    else if 'A' <= c <= 'F' then Some(c as nat - 'A' as nat + 10)
    else None
  }

  // The character below 256 that four hexadecimal digits give.
  function Coded(s: string): Option<char>
    requires |s| == 4
  {
    if s[0] == '0' && s[1] == '0' && HexValue(s[2]).Some? && HexValue(s[3]).Some?
    then Some((HexValue(s[2]).value * 16 + HexValue(s[3]).value) as char)
    else None
  }

  // What stands before the closing quote, and what comes after it.
  function ReadString(t: string): Option<(string, string)> {
    if t == "" || t[0] < ' ' then None
    else if t[0] == '"' then Some(("", t[1..]))
    else if t[0] != '\\' then After(t[0], ReadString(t[1..]))
    else if |t| >= 6 && t[1] == 'u' then
      match Coded(t[2..6])
      case Some(c) => After(c, ReadString(t[6..]))
      case None => None
    else if |t| >= 2 && Named(t[1]).Some? then After(Named(t[1]).value, ReadString(t[2..]))
    else None
  }

  function After(c: char, read: Option<(string, string)>): Option<(string, string)> {
    match read
    case None => None
    case Some(r) => Some(([c] + r.0, r.1))
  }

  lemma EscapedReads(c: char, t: string)
    ensures ReadString(Escaped(c) + t) == After(c, ReadString(t))
  {
  }

  // A printed text is read back as it was.
  lemma QuotedReadsBack(s: string, rest: string)
    ensures Quoted(s)[0] == '"' && ReadString(Quoted(s)[1..] + rest) == Some((s, rest))
  {
    var tail := "\"" + rest;
    assert tail[1..] == rest;
    EscapedAllReads(s, tail, rest);
    assert Quoted(s)[1..] + rest == EscapedAll(s) + tail;
  }

  lemma {:induction false} EscapedAllReads(s: string, tail: string, rest: string)
    requires ReadString(tail) == Some(("", rest))
    ensures ReadString(EscapedAll(s) + tail) == Some((s, rest))
  {
    if s == "" {
      assert EscapedAll(s) + tail == tail;
    } else {
      EscapedAllReads(s[1..], tail, rest);
      EscapedReads(s[0], EscapedAll(s[1..]) + tail);
      ThreeParts(Escaped(s[0]), EscapedAll(s[1..]), tail);
      assert [s[0]] + s[1..] == s;
    }
  }

  lemma ThreeParts(a: string, b: string, c: string)
    ensures a + b + c == a + (b + c)
  {
  }

  function KeysOf(fields: seq<Field>): seq<string> {
    seq(|fields|, i requires 0 <= i < |fields| => fields[i].key)
  }

  // The keys of the format, in their order.
  lemma FormatKeys(agentId: string, outputs: seq<string>)
    ensures KeysOf(DefaultValue(agentId, outputs).fields)
         == ["agent_id", "summary", "status", "leading_indicators", "emerging_risks", "opportunities_to_capture",
             "decisions_to_anticipate", "preventive_action_plan", "specialist_deliverables",
             "approvals_or_dependencies", "next_checkpoint", "confidence"]
  {
  }

  // A list of one record whose fields are all empty texts.
  ghost predicate AsksFor(v: Value, keys: seq<string>) {
    && v.List? && |v.items| == 1 && v.items[0].Record? && KeysOf(v.items[0].fields) == keys
    && forall f | f in v.items[0].fields :: f.value == Text("")
  }

  lemma FiveBlanks(v: Value, a: string, b: string, c: string, d: string, e: string)
    requires v == List([Record([Blank(a), Blank(b), Blank(c), Blank(d), Blank(e)])])
    ensures AsksFor(v, [a, b, c, d, e])
  {
  }

  // The two lists of records that it asks for.
  lemma FormatAsksFor(agentId: string, outputs: seq<string>)
    ensures var fields := DefaultValue(agentId, outputs).fields;
            && AsksFor(fields[6].value, ["decision", "why_now", "due_window", "owner", "recommended_action"])
            && AsksFor(fields[7].value, ["action", "owner", "deadline", "checkpoint", "expected_impact"])
  {
    var fields := DefaultValue(agentId, outputs).fields;
    FiveBlanks(fields[6].value, "decision", "why_now", "due_window", "owner", "recommended_action");
    FiveBlanks(fields[7].value, "action", "owner", "deadline", "checkpoint", "expected_impact");
  }

  // The format names the agent and asks for its first six outputs.
  lemma FormatHolds(agentId: string, outputs: seq<string>)
    ensures var fields := DefaultValue(agentId, outputs).fields;
            && |fields| == 12 && fields[0] == Field("agent_id", Text(agentId))
            && fields[8].key == "specialist_deliverables" && fields[8].value.List?
            && var items := fields[8].value.items;
               && |items| == (if |outputs| < 6 then |outputs| else 6)
               && forall i | 0 <= i < |items| :: items[i] == Text(outputs[i])
  {
  }
}

// The default output format of the collection generator: a fixed object printed as indented JSON.
module OutputFormats {
  import opened PromptText
  import opened PromptGenerator
  import opened PromptExtractor
  import opened PromptRoundTrip
  import opened PromptReadback

  datatype Value = Text(s: string) | List(items: seq<Value>) | Record(fields: seq<Field>)

  datatype Field = Field(key: string, value: Value)

  function HexDigit(n: nat): char
    requires n < 16
  {
    "0123456789abcdef"[n]
  }

  // A character inside a JSON string.
  function Escaped(c: char): string {
    if c == '"' then "\\\""
    else if c == '\\' then "\\\\"
    else if c == '\n' then "\\n"
    else if c == '\r' then "\\r"
    else if c == '\t' then "\\t"
    else if c == '\U{8}' then "\\b"
    else if c == '\U{c}' then "\\f"
    else if c < ' ' then "\\u00" + [HexDigit(c as nat / 16), HexDigit(c as nat % 16)]
    else [c]
  }

  function EscapedAll(s: string): string {
    if s == "" then "" else Escaped(s[0]) + EscapedAll(s[1..])
  }

  function Quoted(s: string): string {
    "\"" + EscapedAll(s) + "\""
  }

  // A line end and the indentation after it.
  function NewLine(indent: nat): string {
    "\n" + seq(indent, _ => ' ')
  }

  // JSON.stringify(v, null, 2), from an indentation on.
  function Print(v: Value, indent: nat): string
    decreases v
  {
    match v
    case Text(s) => Quoted(s)
    case List(items) => if items == [] then "[]" else "[" + PrintItems(items, indent + 2) + NewLine(indent) + "]"
    case Record(fields) => if fields == [] then "{}" else "{" + PrintFields(fields, indent + 2) + NewLine(indent) + "}"
  }

  function Separator(last: bool): string {
    if last then "" else ","
  }

  function PrintItems(items: seq<Value>, indent: nat): string
    decreases items
  {
    if items == [] then ""
    else NewLine(indent) + Print(items[0], indent) + Separator(|items| == 1) + PrintItems(items[1..], indent)
  }

  function PrintFields(fields: seq<Field>, indent: nat): string
    decreases fields
  {
    if fields == [] then ""
    else
      var first := fields[0];
      assert fields decreases to first;
      NewLine(indent) + Quoted(first.key) + ": " + Print(first.value, indent) + Separator(|fields| == 1)
      + PrintFields(fields[1..], indent)
  }

  function Blank(key: string): Field {
    Field(key, Text(""))
  }

  function DefaultValue(agentId: string, outputs: seq<string>): Value {
    var deliverables := if |outputs| <= 6 then outputs else outputs[..6];
    Record([
      Field("agent_id", Text(agentId)),
      Blank("summary"),
      Field("status", Text("stable | watch | critical")),
      Field("leading_indicators", List([])),
      Field("emerging_risks", List([])),
      Field("opportunities_to_capture", List([])),
      Field("decisions_to_anticipate", List([Record([
        Blank("decision"), Blank("why_now"), Blank("due_window"), Blank("owner"), Blank("recommended_action")])])),
      Field("preventive_action_plan", List([Record([
        Blank("action"), Blank("owner"), Blank("deadline"), Blank("checkpoint"), Blank("expected_impact")])])),
      Field("specialist_deliverables",
          List(seq(|deliverables|, i requires 0 <= i < |deliverables| => Text(deliverables[i])))),
      Field("approvals_or_dependencies", List([])),
      Blank("next_checkpoint"),
      Field("confidence", Text("low | medium | high"))])
  }

  function DefaultOutputFormat(agentId: string, outputs: seq<string>): string {
    Print(DefaultValue(agentId, outputs), 0)
  }

  /* No printed line starts with a capital. */

  lemma {:induction false} EscapedIsSingleLine(s: string)
    ensures SingleLine(EscapedAll(s))
  {
    if s != "" {
      EscapedIsSingleLine(s[1..]);
    }
  }

  // A piece of text that puts no capital at the start of a line, wherever it is appended.
  ghost predicate Calm(s: string) {
    NoCapitalLines(s) && (s != "" ==> !IsUpper(s[0]))
  }

  lemma CalmConcat(a: string, b: string)
    requires Calm(a) && Calm(b)
    ensures Calm(a + b)
  {
    var s := a + b;
    forall q | 0 <= q < |s| - 1 && s[q] == '\n' ensures !IsUpper(s[q + 1]) {
      if q >= |a| {
        assert s[q] == b[q - |a|] && s[q + 1] == b[q - |a| + 1];
      } else if q == |a| - 1 {
        assert s[q + 1] == b[0];
      }
    }
  }

  lemma QuotedIsCalm(s: string)
    ensures Calm(Quoted(s))
  {
    EscapedIsSingleLine(s);
  }

  lemma NewLineIsCalm(indent: nat)
    ensures Calm(NewLine(indent))
  {
  }

  lemma {:induction false} PrintIsCalm(v: Value, indent: nat)
    ensures Calm(Print(v, indent)) && Print(v, indent) != ""
    decreases v
  {
    match v {
      case Text(s) => QuotedIsCalm(s);
      case List(items) =>
        if items != [] {
          ItemsAreCalm(items, indent + 2);
          BracketsAreCalm("[", PrintItems(items, indent + 2), indent, "]");
        }
      case Record(fields) =>
        if fields != [] {
          FieldsAreCalm(fields, indent + 2);
          BracketsAreCalm("{", PrintFields(fields, indent + 2), indent, "}");
        }
    }
  }

  lemma BracketsAreCalm(open: string, inner: string, indent: nat, close: string)
    requires Calm(open) && Calm(inner) && Calm(close)
    ensures Calm(open + inner + NewLine(indent) + close)
  {
    NewLineIsCalm(indent);
    CalmConcat(open, inner);
    CalmConcat(open + inner, NewLine(indent));
    CalmConcat(open + inner + NewLine(indent), close);
  }

  lemma {:induction false} ItemsAreCalm(items: seq<Value>, indent: nat)
    ensures Calm(PrintItems(items, indent))
    decreases items
  {
    if items != [] {
      PrintIsCalm(items[0], indent);
      ItemsAreCalm(items[1..], indent);
      NewLineIsCalm(indent);
      var line := NewLine(indent) + Print(items[0], indent);
      CalmConcat(NewLine(indent), Print(items[0], indent));
      CalmConcat(line, Separator(|items| == 1));
      CalmConcat(line + Separator(|items| == 1), PrintItems(items[1..], indent));
    }
  }

  lemma {:induction false} FieldsAreCalm(fields: seq<Field>, indent: nat)
    ensures Calm(PrintFields(fields, indent))
    decreases fields
  {
    if fields != [] {
      var first := fields[0];
      assert fields decreases to first;
      PrintIsCalm(first.value, indent);
      FieldsAreCalm(fields[1..], indent);
      FieldIsCalm(first.key, Print(first.value, indent), indent);
      var line := NewLine(indent) + Quoted(first.key) + ": " + Print(first.value, indent);
      CalmConcat(line, Separator(|fields| == 1));
      CalmConcat(line + Separator(|fields| == 1), PrintFields(fields[1..], indent));
    }
  }

  lemma FieldIsCalm(key: string, text: string, indent: nat)
    requires Calm(text)
    ensures Calm(NewLine(indent) + Quoted(key) + ": " + text)
  {
    NewLineIsCalm(indent);
    QuotedIsCalm(key);
    CalmConcat(NewLine(indent), Quoted(key));
    CalmConcat(NewLine(indent) + Quoted(key), ": ");
    CalmConcat(NewLine(indent) + Quoted(key) + ": ", text);
  }

  lemma RecordIsTrimmed(v: Value)
    requires v.Record?
    ensures Trim(Print(v, 0)) == Print(v, 0)
  {
    var text := Print(v, 0);
    assert text[0] == '{' && text[|text| - 1] == '}';
    TrimIsTrimmed(text);
  }

  lemma DefaultFormatIsCalm(agentId: string, outputs: seq<string>)
    ensures var text := DefaultOutputFormat(agentId, outputs);
      NoHeadingInside(text) && Trim(text) == text
  {
    var text := DefaultOutputFormat(agentId, outputs);
    PrintIsCalm(DefaultValue(agentId, outputs), 0);
    NoCapitalLinesMeansNoHeading(text);
    RecordIsTrimmed(DefaultValue(agentId, outputs));
  }

  // The default output format is always read back as it was printed.
  lemma DefaultFormatReadsBack(input: PromptInput, fixed: FixedText, lower: Lowering, agentId: string,
          outputs: seq<string>)
    requires SingleLineInput(input, fixed, lower, OUTPUT_FORMAT)
    requires !HasLine(input.mission, HeadingOf(OUTPUT_FORMAT))
    requires input.outputFormat == DefaultOutputFormat(agentId, outputs)
    ensures ExtractPromptSection(BuildCompiledPrompt(input, fixed, lower), HeadingOf(OUTPUT_FORMAT))
        == input.outputFormat
  {
    DefaultFormatIsCalm(agentId, outputs);
    OutputFormatReadsBack(input, fixed, lower);
  }
}

/** The functions after the bars of a placeholder (agent-control/src/agent_type/templates_function.rs). Only
    `indent` exists. */
module PipeFunctions {
  import opened ConfigTypes
  import AgentTypeIds
  import Templates

  // ---- Parsing ----

  function Bar(t: string): (i: nat)
    ensures i <= |t| && (i < |t| ==> t[i] == '|')
  {
    if t == [] || t[0] == '|' then 0 else 1 + Bar(t[1..])
  }

  /** The text after each bar, up to the next one. */
  function Segments(functions: string): seq<string>
    decreases |functions|
  {
    var i := Bar(functions);
    if i == |functions| then []
    else
      var rest := functions[i + 1..];
      [rest[..Bar(rest)]] + Segments(rest)
  }

  function TrimStart(t: string): string {
    if t == [] || !Templates.Space(t[0]) then t else TrimStart(t[1..])
  }

  function TrimEnd(t: string): string {
    if t == [] || !Templates.Space(t[|t| - 1]) then t else TrimEnd(t[..|t| - 1])
  }

  function Trim(t: string): string {
    TrimEnd(TrimStart(t))
  }

  function Lowercase(t: string): string {
    seq(|t|, i requires 0 <= i < |t| => if 'A' <= t[i] <= 'Z' then t[i] - 'A' + 'a' else t[i])
  }

  const INDENT := "indent"
  const U8_MAX := 255

  /** The number of spaces of one `indent`, or nothing for another name or a missing or larger number. */
  function ParseIndent(segment: string): Option<nat> {
    var t := Lowercase(Trim(segment));
    if !(INDENT <= t) then None
    else
      var number := Trim(t[|INDENT|..]);
      if number == [] || !AgentTypeIds.AllDigits(number) || AgentTypeIds.Value(number) > U8_MAX then None
      else Some(AgentTypeIds.Value(number))
  }

  function ParseAll(segments: seq<string>): Option<seq<nat>> {
    if segments == [] then Some([])
    else
      var first, rest := ParseIndent(segments[0]), ParseAll(segments[1..]);
      if first.None? || rest.None? then None else Some([first.value] + rest.value)
  }

  /** `parse_function_list` */
  function Parse(functions: string): Option<seq<nat>> {
    ParseAll(Segments(functions))
  }

  // ---- Applying ----

  function Spaces(n: nat): string {
    seq(n, _ => ' ')
  }

  /** Each line break gets n spaces after it. */
  function Indent(value: string, n: nat): string {
    if value == [] then []
    else (if value[0] == '\n' then ['\n'] + Spaces(n) else [value[0]]) + Indent(value[1..], n)
  }

  function IndentAll(value: string, indents: seq<nat>): string
    decreases |indents|
  {
    if indents == [] then value else IndentAll(Indent(value, indents[0]), indents[1..])
  }

  /** Parses the functions, then applies them in order. */
  function Apply(functions: string, value: string): Attempt<string> {
    var indents := Parse(functions);
    if indents.None? then Failure(functions) else Success(IndentAll(value, indents.value))
  }

  function Sum(indents: seq<nat>): nat {
    if indents == [] then 0 else indents[0] + Sum(indents[1..])
  }

  lemma {:induction false} IndentAppend(a: string, b: string, n: nat)
    ensures Indent(a + b, n) == Indent(a, n) + Indent(b, n)
  {
    if a == [] {
      assert a + b == b;
    } else {
      var first := if a[0] == '\n' then ['\n'] + Spaces(n) else [a[0]];
      IndentAppend(a[1..], b, n);
      assert (a + b)[0] == a[0] && (a + b)[1..] == a[1..] + b;
      Regroup(first, Indent(a[1..], n), Indent(b, n));
    }
  }

  lemma {:induction false} NoBreakStays(value: string, n: nat)
    requires '\n' !in value
    ensures Indent(value, n) == value
  {
    if value != [] {
      NoBreakStays(value[1..], n);
      assert value == [value[0]] + value[1..];
    }
  }

  lemma {:induction false} NoIndentStays(value: string)
    ensures Indent(value, 0) == value
  {
    if value != [] {
      NoIndentStays(value[1..]);
      assert value == [value[0]] + value[1..] && ['\n'] + Spaces(0) == ['\n'];
    }
  }

  /** A line break is followed by that many spaces, and the text around it is indented on its own. */
  lemma IndentExactly(before: string, after: string, n: nat)
    ensures Indent(before + (['\n'] + after), n) == Indent(before, n) + (['\n'] + Spaces(n) + Indent(after, n))
    ensures |Spaces(n)| == n && forall i :: 0 <= i < n ==> Spaces(n)[i] == ' '
  {
    IndentAppend(before, ['\n'] + after, n);
    assert (['\n'] + after)[1..] == after;
  }

  lemma BreakTwice(a: nat, b: nat)
    ensures Indent(['\n'] + Spaces(a), b) == ['\n'] + Spaces(a + b)
  {
    var line := ['\n'] + Spaces(a);
    assert line[1..] == Spaces(a);
    NoBreakStays(Spaces(a), b);
    assert ['\n'] + Spaces(b) + Spaces(a) == ['\n'] + Spaces(a + b);
  }

  lemma {:induction false} IndentTwice(value: string, a: nat, b: nat)
    ensures Indent(Indent(value, a), b) == Indent(value, a + b)
  {
    if value != [] {
      var first := if value[0] == '\n' then ['\n'] + Spaces(a) else [value[0]];
      IndentTwice(value[1..], a, b);
      IndentAppend(first, Indent(value[1..], a), b);
      if value[0] == '\n' {
        BreakTwice(a, b);
      } else {
        NoBreakStays(first, b);
      }
    }
  }

  lemma {:induction false} IndentsAddUp(value: string, indents: seq<nat>)
    ensures IndentAll(value, indents) == Indent(value, Sum(indents))
    decreases |indents|
  {
    if indents == [] {
      NoIndentStays(value);
    } else {
      IndentsAddUp(Indent(value, indents[0]), indents[1..]);
      IndentTwice(value, indents[0], Sum(indents[1..]));
    }
  }

  /** Whether the functions fail does not depend on the value; if they do not, they indent it by the sum of
      their numbers. */
  lemma ApplyExact(functions: string, value: string)
    ensures Apply(functions, value).Failure? <==> Parse(functions).None?
    ensures Parse(functions).Some? ==> Apply(functions, value) == Success(Indent(value, Sum(Parse(functions).value)))
  {
    if Parse(functions).Some? {
      IndentsAddUp(value, Parse(functions).value);
    }
  }

  /** So they leave a value alone if it has no line break or they add up to nothing. */
  lemma ApplyKeeps(functions: string, value: string)
    requires Parse(functions).Some? && ('\n' !in value || Sum(Parse(functions).value) == 0)
    ensures Apply(functions, value) == Success(value)
  {
    ApplyExact(functions, value);
    if '\n' !in value {
      NoBreakStays(value, Sum(Parse(functions).value));
    } else {
      NoIndentStays(value);
    }
  }

  /** A function whose name does not start like `indent` does not parse. */
  lemma OtherNamesDoNotParse(segment: string)
    requires segment != [] && '|' !in segment && segment[0] != 'i' && segment[0] != 'I'
    requires !Templates.Space(segment[0]) && !Templates.Space(segment[|segment| - 1])
    ensures Parse("|" + segment).None?
  {
    OneSegment(segment);
    assert Trim(segment) == segment;
    assert Lowercase(segment)[0] != INDENT[0];
    assert ParseIndent(segment).None?;
  }

  lemma OneSegment(segment: string)
    requires '|' !in segment
    ensures Segments("|" + segment) == [segment]
  {
    var functions := "|" + segment;
    assert functions[1..] == segment;
    NoBar(segment);
    assert segment[..|segment|] == segment;
  }

  lemma {:induction false} NoBar(t: string)
    requires '|' !in t
    ensures Bar(t) == |t|
  {
    if t != [] {
      NoBar(t[1..]);
    }
  }
}

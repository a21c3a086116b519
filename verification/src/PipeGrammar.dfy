/** What the parts of a matched placeholder mean: its variable, and its functions
    (agent-control/src/agent_type/templates.rs, agent-control/src/agent_type/templates_function.rs). */
module PipeGrammar {
  import opened ConfigTypes
  import opened Templates
  import opened PlaceholderGrammar
  import AgentTypeIds
  import PipeFunctions

  // ---- The captures ----

  lemma {:induction false} FunctionsAreNoName(segments: seq<Segment>)
    requires AllValid(segments)
    ensures SegmentsText(segments) != [] ==> !NameChar(SegmentsText(segments)[0])
  {
    if segments != [] {
      var s := segments[0];
      assert SegmentsText(segments)[0] == if s.before != [] then s.before[0] else '|';
    }
  }

  /** A placeholder refers to the variable `nr-<namespace>:<name>` and applies its functions to it. */
  lemma CapturesExactly(p: string, namespace: string, name: string, segments: seq<Segment>)
    requires Matches(p, namespace, name, segments)
    ensures VariableOf(p) == "nr-" + (namespace + (":" + name))
    ensures FunctionsOf(p) == SegmentsText(segments)
  {
    var variable, functions := "nr-" + (namespace + (":" + name)), SegmentsText(segments);
    var inner := "nr-" + (namespace + (":" + (name + functions)));
    assert inner == variable + functions;
    assert p[2..|p| - 1] == inner;
    forall c | c in variable
      ensures NameChar(c)
    {
      var i :| 0 <= i < |variable| && variable[i] == c;
      if i >= 4 + |namespace| {
        assert c == name[i - 4 - |namespace|];
      }
    }
    FunctionsAreNoName(segments);
    NameIsLongest(variable, functions);
  }

  // ---- The functions ----

  lemma {:induction false} BarAfter(a: string, t: string)
    requires '|' !in a
    ensures PipeFunctions.Bar(a + t) == |a| + PipeFunctions.Bar(t)
  {
    if a == [] {
      assert a + t == t;
    } else {
      assert (a + t)[1..] == a[1..] + t;
      BarAfter(a[1..], t);
    }
  }

  lemma SegmentsFrom(t: string, rest: string)
    requires PipeFunctions.Bar(t) < |t| && rest == t[PipeFunctions.Bar(t) + 1..]
    ensures PipeFunctions.Segments(t) == [rest[..PipeFunctions.Bar(rest)]] + PipeFunctions.Segments(rest)
  {
  }

  lemma NoSegments(t: string)
    requires PipeFunctions.Bar(t) == |t|
    ensures PipeFunctions.Segments(t) == []
  {
  }

  /** The segments depend only on what follows the first bar. */
  lemma SameSegments(t: string, u: string)
    requires PipeFunctions.Bar(t) < |t| && PipeFunctions.Bar(u) < |u|
    requires t[PipeFunctions.Bar(t) + 1..] == u[PipeFunctions.Bar(u) + 1..]
    ensures PipeFunctions.Segments(t) == PipeFunctions.Segments(u)
  {
    SegmentsFrom(t, t[PipeFunctions.Bar(t) + 1..]);
    SegmentsFrom(u, t[PipeFunctions.Bar(t) + 1..]);
  }

  lemma SameRest(a: string, t: string, i: nat)
    requires i < |t|
    ensures (a + t)[|a| + i + 1..] == t[i + 1..]
  {
  }

  lemma SegmentsAfter(a: string, t: string)
    requires '|' !in a
    ensures PipeFunctions.Segments(a + t) == PipeFunctions.Segments(t)
  {
    BarAfter(a, t);
    if PipeFunctions.Bar(t) < |t| {
      SameRest(a, t, PipeFunctions.Bar(t));
      SameSegments(a + t, t);
    } else {
      NoSegments(t);
      NoSegments(a + t);
    }
  }

  lemma BarFree(s: Segment)
    requires s.Valid()
    ensures '|' !in s.before && '|' !in s.AfterBar()
  {
    var t := s.AfterBar();
    forall i | 0 <= i < |t|
      ensures t[i] != '|'
    {
      var j := i - |s.between|;
      if j >= 0 {
        assert t[i] == (s.word + (s.after + s.number))[j];
        var k := j - |s.word|;
        assert k >= 0 ==> t[i] == (s.after + s.number)[k];
      }
    }
  }

  /** The spaces before the next bar. */
  function Before(segments: seq<Segment>): string {
    if segments == [] then "" else segments[0].before
  }

  /** What follows each bar up to the next one. */
  function Bodies(segments: seq<Segment>): seq<string> {
    if segments == [] then [] else [segments[0].AfterBar() + Before(segments[1..])] + Bodies(segments[1..])
  }

  lemma BarOf(segments: seq<Segment>)
    requires AllValid(segments)
    ensures
      var t, i := SegmentsText(segments), PipeFunctions.Bar(SegmentsText(segments));
      t[..i] == Before(segments) && (segments != [] ==> i < |t|)
  {
    if segments != [] {
      var s, rest := segments[0], SegmentsText(segments[1..]);
      BarFree(s);
      assert SegmentsText(segments) == s.before + ("|" + (s.AfterBar() + rest));
      BarAfter(s.before, "|" + (s.AfterBar() + rest));
    }
  }

  lemma {:induction false} SegmentsAreBodies(segments: seq<Segment>)
    requires AllValid(segments)
    ensures PipeFunctions.Segments(SegmentsText(segments)) == Bodies(segments)
  {
    if segments != [] {
      var s, tail := segments[0], segments[1..];
      var rest := SegmentsText(tail);
      BarFree(s);
      BarOf(tail);
      SegmentsAreBodies(tail);
      assert SegmentsText(segments) == s.before + ("|" + (s.AfterBar() + rest));
      SegmentsAfter(s.before, "|" + (s.AfterBar() + rest));
      FirstSegment(s.AfterBar(), rest);
    }
  }

  lemma FirstSegment(body: string, rest: string)
    requires '|' !in body
    ensures PipeFunctions.Segments("|" + (body + rest))
         == [body + rest[..PipeFunctions.Bar(rest)]] + PipeFunctions.Segments(rest)
  {
    AfterTheBar(body + rest);
    BarAfter(body, rest);
    SegmentsAfter(body, rest);
    TakeBoth(body, rest, PipeFunctions.Bar(rest));
  }

  lemma AfterTheBar(t: string)
    ensures PipeFunctions.Segments("|" + t) == [t[..PipeFunctions.Bar(t)]] + PipeFunctions.Segments(t)
  {
    assert ("|" + t)[0] == '|' && ("|" + t)[1..] == t;
    SegmentsFrom("|" + t, t);
  }

  lemma TakeBoth(a: string, t: string, i: nat)
    requires i <= |t|
    ensures (a + t)[..|a| + i] == a + t[..i]
  {
  }

  // ---- One function ----

  lemma {:induction false} TrimStartExact(a: string, t: string)
    requires SpaceText(a) && (t != [] ==> !Space(t[0]))
    ensures PipeFunctions.TrimStart(a + t) == t
  {
    if a == [] {
      assert a + t == t;
    } else {
      assert (a + t)[1..] == a[1..] + t;
      TrimStartExact(a[1..], t);
    }
  }

  lemma {:induction false} TrimEndExact(t: string, b: string)
    requires SpaceText(b) && (t != [] ==> !Space(t[|t| - 1]))
    ensures PipeFunctions.TrimEnd(t + b) == t
  {
    if b == [] {
      assert t + b == t;
    } else {
      assert (t + b)[..|t + b| - 1] == t + b[..|b| - 1];
      TrimEndExact(t, b[..|b| - 1]);
    }
  }

  lemma TrimExact(a: string, t: string, b: string)
    requires SpaceText(a) && SpaceText(b) && t != [] && !Space(t[0]) && !Space(t[|t| - 1])
    ensures PipeFunctions.Trim(a + (t + b)) == t
  {
    TrimStartExact(a, t + b);
    TrimEndExact(t, b);
  }

  /** The function as it is parsed, without the spaces around it. */
  function Core(s: Segment): string {
    if s.number == [] then s.word else s.word + (s.after + s.number)
  }

  lemma CoreIsTrimmed(s: Segment, before: string)
    requires s.Valid() && SpaceText(before)
    ensures PipeFunctions.Trim(s.AfterBar() + before) == Core(s)
  {
    if s.number == [] {
      assert s.AfterBar() + before == s.between + (s.word + (s.after + before));
      TrimExact(s.between, s.word, s.after + before);
    } else {
      var core := s.word + (s.after + s.number);
      assert s.AfterBar() + before == s.between + (core + before);
      assert core[|core| - 1] == s.number[|s.number| - 1];
      TrimExact(s.between, core, before);
    }
  }

  lemma LowercaseOfCore(s: Segment)
    requires s.Valid()
    ensures PipeFunctions.Lowercase(Core(s))
         == PipeFunctions.Lowercase(s.word) + if s.number == [] then "" else s.after + s.number
  {
    var core, low := Core(s), PipeFunctions.Lowercase(s.word);
    if s.number != [] {
      forall i | 0 <= i < |core|
        ensures PipeFunctions.Lowercase(core)[i] == (low + (s.after + s.number))[i]
      {
        if i >= |s.word| {
          assert core[i] == (s.after + s.number)[i - |s.word|];
        }
      }
    } else {
      assert low + "" == low;
    }
  }

  /** It is `indent`, in any case, with a number of at most 255. */
  predicate IsIndent(s: Segment)
    requires s.Valid()
  {
    && PipeFunctions.Lowercase(s.word) == "indent" && s.number != []
    && DigitsOf(s.number) && AgentTypeIds.Value(s.number) <= 255
  }

  predicate DigitsOf(t: string) {
    AgentTypeIds.AllDigits(t)
  }

  lemma NumberIsDigits(t: string)
    requires NumberText(t)
    ensures AgentTypeIds.AllDigits(t)
  {
    forall c | c in t
      ensures AgentTypeIds.IsDigit(c)
    {
      var i :| 0 <= i < |t| && t[i] == c;
    }
  }

  lemma LetterIsNoDigits(low: string, t: string)
    requires low != [] && 'a' <= low[0] <= 'z'
    ensures
      var number := PipeFunctions.Trim(low + t);
      number == [] || !AgentTypeIds.AllDigits(number)
  {
    var number := PipeFunctions.Trim(low + t);
    TrimStartExact("", low + t);
    assert "" + (low + t) == low + t;
    TrimEndPrefix(low + t);
    if number != [] {
      assert number[0] == low[0] && number[0] in number;
    }
  }

  lemma {:induction false} TrimEndPrefix(t: string)
    ensures PipeFunctions.TrimEnd(t) <= t
  {
    if t != [] && Space(t[|t| - 1]) {
      TrimEndPrefix(t[..|t| - 1]);
    }
  }

  lemma {:induction false} TrimSpaces(t: string)
    requires SpaceText(t)
    ensures PipeFunctions.Trim(t) == []
  {
    TrimStartExact(t, "");
    assert t + "" == t;
  }

  lemma NoLetterAfter(s: Segment)
    requires s.Valid() && s.number != []
    ensures !('a' <= (s.after + s.number)[0] <= 'z')
  {
    assert (s.after + s.number)[0] == if s.after != [] then s.after[0] else s.number[0];
  }

  /** What follows the letters of `indent`. */
  lemma RestOfIndent(s: Segment)
    requires s.Valid() && PipeFunctions.INDENT <= PipeFunctions.Lowercase(Core(s))
    ensures
      var low := PipeFunctions.Lowercase(s.word);
      && |low| >= 6 && low[..6] == "indent"
      && PipeFunctions.Lowercase(Core(s))[6..] == low[6..] + if s.number == [] then "" else s.after + s.number
  {
    var low, whole := PipeFunctions.Lowercase(s.word), PipeFunctions.Lowercase(Core(s));
    LowercaseOfCore(s);
    assert forall i :: 0 <= i < 6 ==> 'a' <= PipeFunctions.INDENT[i] <= 'z';
    if s.number != [] {
      NoLetterAfter(s);
      assert whole[|low|] == (s.after + s.number)[0];
    }
    assert forall i :: 0 <= i < 6 ==> whole[i] == PipeFunctions.INDENT[i];
    assert low[..6] == whole[..6] == PipeFunctions.INDENT;
  }

  /** A function parses exactly if it is an `indent` with a number of at most 255, and gives that number. */
  lemma FunctionParsesExactly(s: Segment, before: string)
    requires s.Valid() && SpaceText(before)
    ensures PipeFunctions.ParseIndent(s.AfterBar() + before)
         == if IsIndent(s) then Some(AgentTypeIds.Value(s.number)) else None
  {
    var low, whole := PipeFunctions.Lowercase(s.word), PipeFunctions.Lowercase(Core(s));
    CoreIsTrimmed(s, before);
    LowercaseOfCore(s);
    NumberIsDigits(s.number);
    if PipeFunctions.INDENT <= whole {
      RestOfIndent(s);
      if |low| > 6 {
        var tail := if s.number == [] then "" else s.after + s.number;
        assert 'a' <= low[6] <= 'z';
        LetterIsNoDigits(low[6..], tail);
      } else if s.number == [] {
        assert low[6..] + "" == "";
        TrimSpaces("");
      } else {
        assert low == "indent" && low[6..] + (s.after + s.number) == s.after + (s.number + "");
        TrimExact(s.after, s.number, "");
      }
    } else if low == "indent" {
      assert false;
    }
  }

  predicate AllIndents(segments: seq<Segment>)
    requires AllValid(segments)
  {
    forall i :: 0 <= i < |segments| ==> IsIndent(segments[i])
  }

  function Numbers(segments: seq<Segment>): seq<nat>
    requires AllValid(segments) && AllIndents(segments)
  {
    if segments == [] then [] else [AgentTypeIds.Value(segments[0].number)] + Numbers(segments[1..])
  }

  lemma SegmentsSplit(segments: seq<Segment>)
    requires segments != [] && AllValid(segments)
    ensures segments[0].Valid() && AllValid(segments[1..]) && SpaceText(Before(segments[1..]))
    ensures AllIndents(segments) <==> IsIndent(segments[0]) && AllIndents(segments[1..])
  {
    var tail := segments[1..];
    assert forall i :: 0 <= i < |tail| ==> tail[i] == segments[i + 1];
    assert forall i :: 0 < i < |segments| ==> segments[i] == tail[i - 1];
    if tail != [] {
      assert tail[0].Valid();
    }
  }

  lemma {:induction false} BodiesParse(segments: seq<Segment>)
    requires AllValid(segments)
    ensures PipeFunctions.ParseAll(Bodies(segments)) == if AllIndents(segments) then Some(Numbers(segments)) else None
  {
    if segments != [] {
      var s, tail := segments[0], segments[1..];
      SegmentsSplit(segments);
      BodiesParse(tail);
      FunctionParsesExactly(s, Before(tail));
      assert Bodies(segments)[1..] == Bodies(tail);
    }
  }

  /** The functions of a placeholder parse exactly if each is an `indent`, in any case, with a number of at most 255;
      and they give those numbers, in order. */
  lemma FunctionsParseExactly(segments: seq<Segment>)
    requires AllValid(segments)
    ensures PipeFunctions.Parse(SegmentsText(segments))
         == if AllIndents(segments) then Some(Numbers(segments)) else None
  {
    SegmentsAreBodies(segments);
    BodiesParse(segments);
  }
}

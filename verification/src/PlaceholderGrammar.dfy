/** The regular expression for placeholders (agent-control/src/agent_type/templates.rs:23), written down piece by
    piece, and the proof that the automaton of module Templates accepts exactly its strings. */
module PlaceholderGrammar {
  import opened ConfigTypes
  import opened Templates

  // ---- The expression ----

  /** `[a-z]*` */
  predicate NamespaceText(t: string) {
    forall i :: 0 <= i < |t| ==> 'a' <= t[i] <= 'z'
  }

  /** `[a-zA-Z0-9\.\-_/:]*` */
  predicate NameText(t: string) {
    forall i :: 0 <= i < |t| ==>
      || 'a' <= t[i] <= 'z' || 'A' <= t[i] <= 'Z' || '0' <= t[i] <= '9'
      || t[i] == '.' || t[i] == '-' || t[i] == '_' || t[i] == '/' || t[i] == ':'
  }

  /** `\s*` */
  predicate SpaceText(t: string) {
    forall i :: 0 <= i < |t| ==> t[i] == ' ' || '\t' <= t[i] <= '\r'
  }

  /** `[a-zA-Z]*` */
  predicate WordText(t: string) {
    forall i :: 0 <= i < |t| ==> 'a' <= t[i] <= 'z' || 'A' <= t[i] <= 'Z'
  }

  /** `\d*` */
  predicate NumberText(t: string) {
    forall i :: 0 <= i < |t| ==> '0' <= t[i] <= '9'
  }

  /** One function: `\s*\|\s*[a-zA-Z]+\s*\d*` */
  datatype Segment = Segment(before: string, between: string, word: string, after: string, number: string) {
    predicate Valid() {
      && SpaceText(before) && SpaceText(between) && SpaceText(after)
      && WordText(word) && word != [] && NumberText(number)
    }

    function AfterBar(): string {
      between + (word + (after + number))
    }

    function Text(): string {
      before + ("|" + AfterBar())
    }
  }

  predicate AllValid(segments: seq<Segment>) {
    forall i :: 0 <= i < |segments| ==> segments[i].Valid()
  }

  function SegmentsText(segments: seq<Segment>): string {
    if segments == [] then "" else segments[0].Text() + SegmentsText(segments[1..])
  }

  /** The whole expression. */
  predicate Matches(p: string, namespace: string, name: string, segments: seq<Segment>) {
    && NamespaceText(namespace) && namespace != [] && NameText(name) && name != [] && AllValid(segments)
    && p == "${" + ("nr-" + (namespace + (":" + (name + SegmentsText(segments))))) + "}"
  }

  // ---- What matches is accepted ----

  function Run(at: Reading, t: string): Reading
    decreases |t|
  {
    if t == [] then at else Run(Read(at, t[0]), t[1..])
  }

  lemma {:induction false} AcceptsIsRun(at: Reading, t: string)
    ensures Accepts(at, t) <==> Run(at, t) in {Name, Word, AfterWord, Number}
    decreases |t|
  {
    if t != [] {
      AcceptsIsRun(Read(at, t[0]), t[1..]);
    }
  }

  lemma {:induction false} RunAppend(at: Reading, a: string, b: string)
    ensures Run(at, a + b) == Run(Run(at, a), b)
    decreases |a|
  {
    if a == [] {
      assert a + b == b;
    } else {
      assert (a + b)[1..] == a[1..] + b;
      RunAppend(Read(at, a[0]), a[1..], b);
    }
  }

  lemma {:induction false} RunNamespace(t: string)
    requires NamespaceText(t)
    ensures Run(Namespace, t) == Namespace
    ensures t != [] ==> Run(NamespaceStart, t) == Namespace
  {
    if t != [] {
      RunNamespace(t[1..]);
    }
  }

  lemma {:induction false} RunName(t: string)
    requires NameText(t)
    ensures Run(Name, t) == Name
    ensures t != [] ==> Run(NameStart, t) == Name
  {
    if t != [] {
      RunName(t[1..]);
    }
  }

  lemma {:induction false} RunSpaces(at: Reading, t: string)
    requires SpaceText(t) && at in {Name, BeforeBar, AfterBar, Word, AfterWord, Number}
    ensures Run(at, t)
         == if t == [] then at else if at in {Name, Number} then BeforeBar else if at == Word then AfterWord else at
    decreases |t|
  {
    if t != [] {
      RunSpaces(Read(at, t[0]), t[1..]);
    }
  }

  lemma {:induction false} RunWord(t: string)
    requires WordText(t)
    ensures Run(Word, t) == Word
    ensures t != [] ==> Run(AfterBar, t) == Word
  {
    if t != [] {
      RunWord(t[1..]);
    }
  }

  lemma {:induction false} RunNumber(at: Reading, t: string)
    requires NumberText(t) && at in {Word, AfterWord, Number}
    ensures Run(at, t) == if t == [] then at else Number
    decreases |t|
  {
    if t != [] {
      RunNumber(Read(at, t[0]), t[1..]);
    }
  }

  /** A function can follow the name or another function, and can be the last. */
  lemma RunSegment(at: Reading, s: Segment)
    requires s.Valid() && at in {Name, Word, AfterWord, Number}
    ensures Run(at, s.Text()) in {Word, AfterWord, Number}
  {
    var mid := Run(at, s.before);
    RunAppend(at, s.before, "|" + s.AfterBar());
    RunSpaces(at, s.before);
    assert ("|" + s.AfterBar())[1..] == s.AfterBar();
    assert Read(mid, '|') == AfterBar;
    RunAppend(AfterBar, s.between, s.word + (s.after + s.number));
    RunSpaces(AfterBar, s.between);
    RunAppend(AfterBar, s.word, s.after + s.number);
    RunWord(s.word);
    RunAppend(Word, s.after, s.number);
    RunSpaces(Word, s.after);
    RunNumber(Run(Word, s.after), s.number);
  }

  lemma {:induction false} RunSegments(at: Reading, segments: seq<Segment>)
    requires AllValid(segments) && at in {Name, Word, AfterWord, Number}
    ensures Run(at, SegmentsText(segments)) in {Name, Word, AfterWord, Number}
    decreases |segments|
  {
    if segments != [] {
      RunSegment(at, segments[0]);
      RunAppend(at, segments[0].Text(), SegmentsText(segments[1..]));
      RunSegments(Run(at, segments[0].Text()), segments[1..]);
    }
  }

  lemma RunOne(at: Reading, c: char)
    ensures Run(at, [c]) == Read(at, c)
  {
    assert [c][1..] == [];
  }

  lemma RunPrefix(t: string)
    ensures Run(N, "nr-" + t) == Run(NamespaceStart, t)
  {
    RunAppend(N, "nr-", t);
    assert "nr-" == ['n'] + (['r'] + ['-']);
    RunAppend(N, ['n'], ['r'] + ['-']);
    RunAppend(R, ['r'], ['-']);
    RunOne(N, 'n');
    RunOne(R, 'r');
    RunOne(Dash, '-');
  }

  lemma MatchIsAccepted(p: string, namespace: string, name: string, segments: seq<Segment>)
    requires Matches(p, namespace, name, segments)
    ensures IsPlaceholder(p)
  {
    var rest := name + SegmentsText(segments);
    var inner := "nr-" + (namespace + (":" + rest));
    RunPrefix(namespace + (":" + rest));
    RunAppend(NamespaceStart, namespace, ":" + rest);
    RunNamespace(namespace);
    assert (":" + rest)[1..] == rest;
    RunAppend(NameStart, name, SegmentsText(segments));
    RunName(name);
    RunSegments(Name, segments);
    AcceptsIsRun(N, inner);
    assert p == "${" + inner + "}" && p[2..|p| - 1] == inner;
  }

  // ---- What is accepted matches ----

  /** What is left of a name or of a function, and the functions that follow. */
  datatype Tail = Tail(name: string, between: string, word: string, after: string, number: string, rest: seq<Segment>) {
    predicate Valid() {
      && NameText(name) && SpaceText(between) && WordText(word) && SpaceText(after) && NumberText(number)
      && AllValid(rest)
    }

    /** The text that this is, for a reading that has got so far. */
    function Text(at: Reading): string {
      match at
      case Name => name + SegmentsText(rest)
      case AfterBar => between + (word + (after + (number + SegmentsText(rest))))
      case Word => word + (after + (number + SegmentsText(rest)))
      case AfterWord => after + (number + SegmentsText(rest))
      case Number => number + SegmentsText(rest)
      case _ => SegmentsText(rest)
    }
  }

  const NOTHING := Tail("", "", "", "", "", [])

  predicate Inside(at: Reading) {
    at in {Name, BeforeBar, AfterBar, Word, AfterWord, Number}
  }

  lemma OpenText(between: string, word: string, after: string, number: string, rest: string)
    ensures "" + ("|" + (between + (word + (after + number)))) + rest
         == "|" + (between + (word + (after + (number + rest))))
  {
    Regroup(after, number, rest);
    Regroup(word, after + number, rest);
    Regroup(between, word + (after + number), rest);
    Regroup("|", between + (word + (after + number)), rest);
  }

  /** A bar starts a function. */
  lemma OpenSegment(x: Tail) returns (y: Tail)
    requires x.Valid() && x.word != []
    ensures y.Valid() && y.rest != [] && SegmentsText(y.rest) == "|" + x.Text(AfterBar)
    ensures y == NOTHING.(rest := y.rest)
  {
    var s := Segment("", x.between, x.word, x.after, x.number);
    y := NOTHING.(rest := [s] + x.rest);
    assert y.rest[1..] == x.rest && AllValid(y.rest);
    OpenText(x.between, x.word, x.after, x.number, SegmentsText(x.rest));
  }

  /** A space before a bar belongs to the function after it. */
  lemma WidenSegment(c: char, x: Tail) returns (y: Tail)
    requires x.Valid() && x.rest != [] && Space(c)
    ensures y.Valid() && y.rest != [] && SegmentsText(y.rest) == [c] + SegmentsText(x.rest)
    ensures y == NOTHING.(rest := y.rest)
  {
    var s := x.rest[0];
    var wide := s.(before := [c] + s.before);
    y := NOTHING.(rest := [wide] + x.rest[1..]);
    assert y.rest[1..] == x.rest[1..];
    assert wide.Text() == [c] + s.Text();
  }

  predicate Fits(at: Reading, t: string, x: Tail) {
    && x.Valid() && x.Text(at) == t
    && (at == BeforeBar ==> x.rest != [])
    && (at == AfterBar ==> x.word != [])
  }

  lemma EmptyFits(at: Reading)
    requires at in {Name, Word, AfterWord, Number}
    ensures Fits(at, "", NOTHING)
  {
  }

  /** One character further. */
  lemma StepBack(at: Reading, c: char, t: string, x: Tail) returns (y: Tail)
    requires Inside(at) && Inside(Read(at, c)) && Fits(Read(at, c), t, x)
    ensures Fits(at, [c] + t, y)
  {
    if c == '|' {
      y := OpenSegment(x);
    } else if Read(at, c) == BeforeBar {
      y := WidenSegment(c, x);
    } else {
      y := Extend(at, c, t, x);
    }
  }

  lemma Extend(at: Reading, c: char, t: string, x: Tail) returns (y: Tail)
    requires Inside(at) && Inside(Read(at, c)) && Fits(Read(at, c), t, x) && c != '|' && Read(at, c) != BeforeBar
    ensures Fits(at, [c] + t, y)
  {
    match Read(at, c)
    case Name => y := ExtendName(c, t, x);
    case AfterBar => y := ExtendBetween(c, t, x);
    case Word => y := ExtendWord(at, c, t, x);
    case AfterWord => y := ExtendAfter(at, c, t, x);
    case Number => y := ExtendNumber(at, c, t, x);
  }

  lemma ExtendName(c: char, t: string, x: Tail) returns (y: Tail)
    requires Fits(Name, t, x) && NameChar(c)
    ensures Fits(Name, [c] + t, y)
  {
    y := x.(name := [c] + x.name);
    Regroup([c], x.name, SegmentsText(x.rest));
  }

  lemma ExtendBetween(c: char, t: string, x: Tail) returns (y: Tail)
    requires Fits(AfterBar, t, x) && Space(c)
    ensures Fits(AfterBar, [c] + t, y)
  {
    y := x.(between := [c] + x.between);
    Regroup([c], x.between, x.Text(Word));
  }

  lemma ExtendWord(at: Reading, c: char, t: string, x: Tail) returns (y: Tail)
    requires Fits(Word, t, x) && Letter(c) && at in {AfterBar, Word}
    ensures Fits(at, [c] + t, y)
  {
    y := x.(between := "", word := [c] + x.word);
    Regroup([c], x.word, x.Text(AfterWord));
    assert y.Text(Word) == [c] + t && y.Text(AfterBar) == "" + y.Text(Word) == y.Text(Word);
  }

  lemma ExtendAfter(at: Reading, c: char, t: string, x: Tail) returns (y: Tail)
    requires Fits(AfterWord, t, x) && Space(c) && at in {Word, AfterWord}
    ensures Fits(at, [c] + t, y)
  {
    y := x.(word := "", after := [c] + x.after);
    Regroup([c], x.after, x.Text(Number));
    assert y.Text(AfterWord) == [c] + t && y.Text(Word) == "" + y.Text(AfterWord) == y.Text(AfterWord);
  }

  lemma ExtendNumber(at: Reading, c: char, t: string, x: Tail) returns (y: Tail)
    requires Fits(Number, t, x) && Digit(c) && at in {Word, AfterWord, Number}
    ensures Fits(at, [c] + t, y)
  {
    y := x.(word := "", after := "", number := [c] + x.number);
    Regroup([c], x.number, SegmentsText(x.rest));
    assert y.Text(Number) == [c] + t && y.Text(AfterWord) == "" + y.Text(Number) == y.Text(Number);
    assert y.Text(Word) == "" + y.Text(AfterWord) == y.Text(AfterWord);
  }

  /** A reading that cannot end has to go on. */
  lemma GoesOn(at: Reading, t: string)
    requires Accepts(at, t) && at !in {Name, Word, AfterWord, Number}
    ensures t != [] && Read(at, t[0]) != Refused && Accepts(Read(at, t[0]), t[1..]) && t == [t[0]] + t[1..]
  {
    assert t != [];
    RefusedIsFinal(t[1..]);
  }

  lemma {:induction false} Decompose(at: Reading, t: string) returns (x: Tail)
    requires Inside(at) && Accepts(at, t)
    ensures Fits(at, t, x)
    decreases |t|
  {
    if t == [] {
      EmptyFits(at);
      x := NOTHING;
    } else {
      RefusedIsFinal(t[1..]);
      assert Inside(Read(at, t[0]));
      var y := Decompose(Read(at, t[0]), t[1..]);
      x := StepBack(at, t[0], t[1..], y);
      assert t == [t[0]] + t[1..];
    }
  }

  lemma DecomposeName(t: string) returns (name: string, segments: seq<Segment>)
    requires Accepts(NameStart, t)
    ensures NameText(name) && name != [] && AllValid(segments) && t == name + SegmentsText(segments)
  {
    GoesOn(NameStart, t);
    var x := Decompose(Name, t[1..]);
    name, segments := [t[0]] + x.name, x.rest;
    Regroup([t[0]], x.name, SegmentsText(x.rest));
  }

  /** The rest of a namespace, the name and the functions. */
  lemma {:induction false} DecomposeNamespace(t: string)
    returns (namespace: string, name: string, segments: seq<Segment>)
    requires Accepts(Namespace, t)
    ensures NamespaceText(namespace) && NameText(name) && name != [] && AllValid(segments)
    ensures t == namespace + (":" + (name + SegmentsText(segments)))
    decreases |t|
  {
    GoesOn(Namespace, t);
    if t[0] == ':' {
      name, segments := DecomposeName(t[1..]);
      namespace := "";
      assert t == "" + ([':'] + t[1..]);
    } else {
      var more;
      more, name, segments := DecomposeNamespace(t[1..]);
      namespace := [t[0]] + more;
      Regroup([t[0]], more, ":" + (name + SegmentsText(segments)));
    }
  }

  lemma AcceptedStart(t: string)
    requires Accepts(N, t)
    ensures |t| >= 4 && t == "nr-" + t[3..] && 'a' <= t[3] <= 'z' && Accepts(Namespace, t[4..])
  {
    GoesOn(N, t);
    GoesOn(R, t[1..]);
    assert t[1..][1..] == t[2..];
    GoesOn(Dash, t[2..]);
    assert t[2..][1..] == t[3..];
    GoesOn(NamespaceStart, t[3..]);
    assert t[3..][1..] == t[4..];
  }

  lemma AcceptedMatches(p: string) returns (namespace: string, name: string, segments: seq<Segment>)
    requires IsPlaceholder(p)
    ensures Matches(p, namespace, name, segments)
  {
    var t := p[2..|p| - 1];
    AcceptedStart(t);
    var more;
    more, name, segments := DecomposeNamespace(t[4..]);
    namespace := [t[3]] + more;
    Regroup([t[3]], more, ":" + (name + SegmentsText(segments)));
    assert t[3..] == [t[3]] + t[4..];
    assert p == "${" + t + "}";
  }

  /** A text is a placeholder if and only if it matches the expression. */
  lemma PlaceholderExactly(p: string)
    ensures IsPlaceholder(p) <==> exists namespace, name, segments :: Matches(p, namespace, name, segments)
  {
    if IsPlaceholder(p) {
      var namespace, name, segments := AcceptedMatches(p);
    }
    if exists namespace, name, segments :: Matches(p, namespace, name, segments) {
      var namespace, name, segments :| Matches(p, namespace, name, segments);
      MatchIsAccepted(p, namespace, name, segments);
    }
  }
}

/** Replacing placeholders such as `${nr-var:name|indent 2}` in a string
    (agent-control/src/agent_type/templates.rs). The code replaces all occurrences of one placeholder after
    the other; the meaning intended is a simultaneous substitution. */
module Templates {
  import opened ConfigTypes

  // ---- The placeholder grammar ----

  predicate Lower(c: char) {
    'a' <= c <= 'z'
  }

  predicate Letter(c: char) {
    'a' <= c <= 'z' || 'A' <= c <= 'Z'
  }

  predicate Digit(c: char) {
    '0' <= c <= '9'
  }

  predicate Space(c: char) {
    c == ' ' || '\t' <= c <= '\r'
  }

  predicate NameChar(c: char) {
    Letter(c) || Digit(c) || c == '.' || c == '-' || c == '_' || c == '/' || c == ':'
  }

  /** How far the text between the braces has been read: the letters `nr-`, a namespace, a colon, a name,
      and then functions, each a bar, a word and an optional number with spaces between them. */
  datatype Reading =
    | N | R | Dash | NamespaceStart | Namespace | NameStart | Name
    | BeforeBar | AfterBar | Word | AfterWord | Number | Refused

  function Read(at: Reading, c: char): Reading {
    match at
    case N => if c == 'n' then R else Refused
    case R => if c == 'r' then Dash else Refused
    case Dash => if c == '-' then NamespaceStart else Refused
    case NamespaceStart => if Lower(c) then Namespace else Refused
    case Namespace => if Lower(c) then Namespace else if c == ':' then NameStart else Refused
    case NameStart => if NameChar(c) then Name else Refused
    case Name => if NameChar(c) then Name else if Space(c) then BeforeBar else if c == '|' then AfterBar else Refused
    case BeforeBar => if Space(c) then BeforeBar else if c == '|' then AfterBar else Refused
    case AfterBar => if Space(c) then AfterBar else if Letter(c) then Word else Refused
    case Word =>
      if Letter(c) then Word else if Space(c) then AfterWord
      else if Digit(c) then Number else if c == '|' then AfterBar else Refused
    case AfterWord =>
      if Space(c) then AfterWord else if Digit(c) then Number else if c == '|' then AfterBar else Refused
    case Number => if Digit(c) then Number else if Space(c) then BeforeBar else if c == '|' then AfterBar else Refused
    case Refused => Refused
  }

  predicate Accepts(at: Reading, t: string)
    decreases |t|
  {
    if t == [] then at in {Name, Word, AfterWord, Number} else Accepts(Read(at, t[0]), t[1..])
  }

  predicate IsPlaceholder(t: string) {
    |t| >= 3 && t[0] == '$' && t[1] == '{' && t[|t| - 1] == '}' && Accepts(N, t[2..|t| - 1])
  }

  lemma {:induction false} RefusedIsFinal(t: string)
    ensures !Accepts(Refused, t)
  {
    if t != [] {
      RefusedIsFinal(t[1..]);
    }
  }

  lemma {:induction false} AcceptedChars(at: Reading, t: string)
    requires Accepts(at, t)
    ensures forall i :: 0 <= i < |t| ==> t[i] != '$' && t[i] != '}'
    decreases |t|
  {
    if t != [] {
      RefusedIsFinal(t[1..]);
      AcceptedChars(Read(at, t[0]), t[1..]);
    }
  }

  /** The dollar, and the closing brace, occur in a placeholder only at its ends. */
  predicate Delimited(p: string) {
    && |p| >= 3 && p[0] == '$' && p[|p| - 1] == '}'
    && (forall i :: 0 < i < |p| ==> p[i] != '$')
    && (forall i :: 0 <= i < |p| - 1 ==> p[i] != '}')
  }

  lemma PlaceholderIsDelimited(p: string)
    requires IsPlaceholder(p)
    ensures Delimited(p)
  {
    AcceptedChars(N, p[2..|p| - 1]);
    assert forall i :: 2 <= i < |p| - 1 ==> p[i] == p[2..|p| - 1][i - 2];
  }

  // ---- Finding placeholders ----

  function FirstBrace(t: string): (i: nat)
    ensures i <= |t|
    ensures i < |t| ==> t[i] == '}'
    ensures forall j :: 0 <= j < i ==> t[j] != '}'
  {
    if t == [] || t[0] == '}' then 0 else 1 + FirstBrace(t[1..])
  }

  /** The length of the placeholder at the start of a text, or zero. */
  function MatchLength(t: string): (n: nat)
    ensures n > 0 ==> n <= |t| && IsPlaceholder(t[..n])
  {
    var i := FirstBrace(t);
    if i < |t| && IsPlaceholder(t[..i + 1]) then i + 1 else 0
  }

  /** The first placeholder of a text, with the text before and after it. */
  datatype Found = Found(before: string, slot: string, after: string)

  function Find(t: string): (r: Option<Found>)
    ensures r.Some? ==> t == r.value.before + (r.value.slot + r.value.after) && IsPlaceholder(r.value.slot)
    ensures r.Some? ==> |r.value.after| < |t|
  {
    var n := MatchLength(t);
    if n > 0 then
      assert t == "" + (t[..n] + t[n..]);
      Some(Found("", t[..n], t[n..]))
    else if t == [] then None
    else
      match Find(t[1..])
      case None => None
      case Some(found) =>
        Regroup([t[0]], found.before, found.slot + found.after);
        assert t == [t[0]] + t[1..];
        Some(found.(before := [t[0]] + found.before))
  }

  /** A template is plain text with placeholders in it. */
  datatype Piece = Plain(text: string) | Slot(text: string)

  /** The leftmost placeholders that do not overlap, and the text between them. */
  function Pieces(t: string): seq<Piece>
    decreases |t|
  {
    match Find(t)
    case None => [Plain(t)]
    case Some(found) => [Plain(found.before), Slot(found.slot)] + Pieces(found.after)
  }

  function Text(pieces: seq<Piece>): string {
    if pieces == [] then "" else pieces[0].text + Text(pieces[1..])
  }

  predicate WellFormed(pieces: seq<Piece>) {
    forall piece :: piece in pieces && piece.Slot? ==> Delimited(piece.text)
  }

  predicate AllPlaceholders(slots: seq<string>) {
    forall i :: 0 <= i < |slots| ==> Delimited(slots[i])
  }

  /** The placeholders of a template, in order, with repetitions. */
  function Slots(pieces: seq<Piece>): (slots: seq<string>)
    ensures forall p :: Slot(p) in pieces ==> p in slots
    ensures forall p :: p in slots ==> Slot(p) in pieces
    ensures WellFormed(pieces) ==> AllPlaceholders(slots)
  {
    if pieces == [] then []
    else (if pieces[0].Slot? then [pieces[0].text] else []) + Slots(pieces[1..])
  }

  /** Where a text begins with a placeholder, that is what the search finds there. */
  lemma MatchIsUnique(t: string, p: string)
    requires IsPlaceholder(p) && p <= t
    ensures MatchLength(t) == |p|
  {
    PlaceholderIsDelimited(p);
    assert t[|p| - 1] == p[|p| - 1];
    assert forall i :: 0 <= i < |p| - 1 ==> t[i] == p[i];
    assert FirstBrace(t) == |p| - 1;
    assert t[..|p|] == p;
  }

  predicate Occurs(p: string, t: string, i: nat) {
    i + |p| <= |t| && t[i..i + |p|] == p
  }

  ghost predicate HasNoPlaceholder(t: string) {
    forall p, i: nat :: IsPlaceholder(p) ==> !Occurs(p, t, i)
  }

  lemma NoneWithFirst(t: string, rest: string)
    requires t != [] && MatchLength(t + rest) == 0 && HasNoPlaceholder(t[1..])
    ensures HasNoPlaceholder(t)
  {
    forall p, i: nat | IsPlaceholder(p)
      ensures !Occurs(p, t, i)
    {
      if i > 0 {
        assert !Occurs(p, t[1..], i - 1);
        assert i + |p| <= |t| ==> t[1..][i - 1..i - 1 + |p|] == t[i..i + |p|];
      } else if Occurs(p, t, 0) {
        MatchIsUnique(t + rest, p);
        assert false;
      }
    }
  }

  lemma FoundLater(t: string)
    requires t != [] && MatchLength(t) == 0
    ensures
      var found := Find(t[1..]);
      if found.None? then Find(t).None?
      else
        var before, rest := [t[0]] + found.value.before, found.value.slot + found.value.after;
        Find(t).Some? && Find(t).value.before == before && before[1..] == found.value.before && t == before + rest
  {
  }

  lemma {:induction false} FindIsFirst(t: string)
    ensures HasNoPlaceholder(if Find(t).Some? then Find(t).value.before else t)
  {
    if t != [] && MatchLength(t) == 0 {
      FindIsFirst(t[1..]);
      FoundLater(t);
      var found := Find(t[1..]);
      if found.Some? {
        NoneWithFirst([t[0]] + found.value.before, found.value.slot + found.value.after);
      } else {
        assert t + [] == t;
        NoneWithFirst(t, []);
      }
    }
  }

  ghost predicate Exact(piece: Piece) {
    if piece.Slot? then IsPlaceholder(piece.text) else HasNoPlaceholder(piece.text)
  }

  lemma TextOfTwo(first: Piece, second: Piece, rest: seq<Piece>)
    ensures Text([first, second] + rest) == first.text + (second.text + Text(rest))
  {
    var all := [first, second] + rest;
    assert all[1..] == [second] + rest && all[1..][1..] == rest;
  }

  /** The pieces make up the text, each slot is a placeholder, and the text between has none in it. */
  lemma {:induction false} PiecesExact(t: string)
    ensures Text(Pieces(t)) == t
    ensures forall piece :: piece in Pieces(t) ==> Exact(piece)
    decreases |t|
  {
    FindIsFirst(t);
    match Find(t)
    case None =>
      assert Exact(Plain(t));
      assert Text([Plain(t)]) == t + Text([]);
    case Some(found) =>
      assert Exact(Plain(found.before)) && Exact(Slot(found.slot));
      PiecesExact(found.after);
      TextOfTwo(Plain(found.before), Slot(found.slot), Pieces(found.after));
  }

  lemma PiecesAreWellFormed(t: string)
    ensures WellFormed(Pieces(t))
  {
    PiecesExact(t);
    forall piece | piece in Pieces(t) && piece.Slot?
      ensures Delimited(piece.text)
    {
      assert Exact(piece);
      PlaceholderIsDelimited(piece.text);
    }
  }

  // ---- Rendering ----

  /** The variables and the pipe functions; `None` is a variable without a final value. */
  datatype Environment = Environment(variables: map<string, Option<string>>, apply: (string, string) -> Attempt<string>)

  function NameLength(t: string): (n: nat)
    ensures n <= |t|
  {
    if t == [] || !NameChar(t[0]) then 0 else 1 + NameLength(t[1..])
  }

  /** The text between the braces. */
  function Inner(p: string): string {
    if |p| < 3 then "" else p[2..|p| - 1]
  }

  function VariableOf(p: string): string {
    Inner(p)[..NameLength(Inner(p))]
  }

  function FunctionsOf(p: string): string {
    Inner(p)[NameLength(Inner(p))..]
  }

  /** The value of one placeholder. */
  function Render(env: Environment, p: string): Attempt<string> {
    var name, functions := VariableOf(p), FunctionsOf(p);
    if name !in env.variables then Failure(name)
    else
      match env.variables[name]
      case None => Failure(p)
      case Some(value) => env.apply(functions, value)
  }

  lemma {:induction false} NameIsLongest(name: string, functions: string)
    requires (forall c :: c in name ==> NameChar(c)) && (functions != [] ==> !NameChar(functions[0]))
    ensures NameLength(name + functions) == |name|
  {
    if name == [] {
      assert name + functions == functions;
    } else {
      assert name[0] in name && (name + functions)[1..] == name[1..] + functions;
      NameIsLongest(name[1..], functions);
    }
  }

  /** The name before the first pipe decides the variable; what follows it is applied to the value. */
  lemma RenderExact(name: string, functions: string, env: Environment)
    requires (forall c :: c in name ==> NameChar(c)) && (functions != [] ==> !NameChar(functions[0]))
    ensures
      var p := "${" + (name + functions) + "}";
      var variable := if name in env.variables then env.variables[name] else None;
      && (variable.Some? ==> Render(env, p) == env.apply(functions, variable.value))
      && (variable.None? ==> Render(env, p) == Failure(if name in env.variables then p else name))
  {
    var p, inner := "${" + (name + functions) + "}", name + functions;
    assert p[2..|p| - 1] == inner;
    NameIsLongest(name, functions);
    assert inner[..|name|] == name && inner[|name|..] == functions;
  }

  /** `str::replace`: the leftmost occurrences that do not overlap. */
  function ReplaceAll(t: string, p: string, value: string): string
    requires p != []
    decreases |t|
  {
    if |t| < |p| then t
    else if p <= t then value + ReplaceAll(t[|p|..], p, value)
    else [t[0]] + ReplaceAll(t[1..], p, value)
  }

  /** What the loop computes: the placeholders of the input, one after the other, replaced everywhere in
      the text as it has become. */
  function Rewrite(t: string, slots: seq<string>, env: Environment): Attempt<string>
    requires AllPlaceholders(slots)
    decreases |slots|
  {
    if slots == [] then Success(t)
    else
      match Render(env, slots[0])
      case Failure(e) => Failure(e)
      case Success(value) => Rewrite(ReplaceAll(t, slots[0], value), slots[1..], env)
  }

  /** `template_string` */
  method TemplateString(s: string, env: Environment) returns (r: Attempt<string>)
    ensures WellFormed(Pieces(s)) && r == Rewrite(s, Slots(Pieces(s)), env)
  {
    PiecesAreWellFormed(s);
    var rendered := s;
    var slots := Slots(Pieces(s));
    for i := 0 to |slots|
      invariant AllPlaceholders(slots[i..])
      invariant Rewrite(s, slots, env) == Rewrite(rendered, slots[i..], env)
    {
      var value := Render(env, slots[i]);
      assert slots[i..][1..] == slots[i + 1..];
      if value.Failure? {
        return Failure(value.message);
      }
      rendered := ReplaceAll(rendered, slots[i], value.value);
    }
    r := Success(rendered);
  }

  /** What is meant: every placeholder becomes its value, all at once. */
  function Substitute(pieces: seq<Piece>, env: Environment): Attempt<string>
    requires WellFormed(pieces)
  {
    if pieces == [] then Success("")
    else
      var first := if pieces[0].Slot? then Render(env, pieces[0].text) else Success(pieces[0].text);
      match first
      case Failure(e) => Failure(e)
      case Success(value) =>
        match Substitute(pieces[1..], env)
        case Failure(e) => Failure(e)
        case Success(rest) => Success(value + rest)
  }

  // ---- When the loop does what is meant ----

  /** A placeholder could start at an offset of this text: they agree as far as both go. */
  predicate Begins(t: string, offset: nat, p: string)
    requires offset < |t|
  {
    var n := if |t| - offset < |p| then |t| - offset else |p|;
    t[offset..offset + n] == p[..n]
  }

  /** The placeholder neither occurs in this text nor starts at its end. */
  predicate Inert(t: string, p: string) {
    forall offset :: 0 <= offset < |t| ==> !Begins(t, offset, p)
  }

  lemma TailIsInert(t: string, p: string)
    requires t != [] && Inert(t, p)
    ensures Inert(t[1..], p)
  {
    forall offset | 0 <= offset < |t[1..]|
      ensures !Begins(t[1..], offset, p)
    {
      assert !Begins(t, offset + 1, p);
      var n := if |t| - (offset + 1) < |p| then |t| - (offset + 1) else |p|;
      assert t[1..][offset..offset + n] == t[offset + 1..offset + 1 + n];
    }
  }

  lemma InertIsNotAtStart(t: string, rest: string, p: string)
    requires t != [] && Inert(t, p)
    ensures !(p <= t + rest)
  {
    assert !Begins(t, 0, p);
  }

  lemma {:induction false} InertTextIsSkipped(t: string, rest: string, p: string, value: string)
    requires p != [] && Inert(t, p)
    ensures ReplaceAll(t + rest, p, value) == t + ReplaceAll(rest, p, value)
    decreases |t|
  {
    if t == [] {
      assert t + rest == rest;
    } else if |t + rest| < |p| {
      TooShort(t + rest, p, value);
      TooShort(rest, p, value);
    } else {
      InertIsNotAtStart(t, rest, p);
      TailIsInert(t, p);
      InertTextIsSkipped(t[1..], rest, p, value);
      assert (t + rest)[1..] == t[1..] + rest;
      Regroup([t[0]], t[1..], ReplaceAll(rest, p, value));
      assert t == [t[0]] + t[1..];
    }
  }

  lemma TooShort(t: string, p: string, value: string)
    requires p != [] && |t| < |p|
    ensures ReplaceAll(t, p, value) == t
  {
  }

  lemma BeginsAlike(t: string, offset: nat, p: string, i: nat)
    requires offset < |t| && Begins(t, offset, p) && i < |p| && offset + i < |t|
    ensures t[offset + i] == p[i]
  {
    var n := if |t| - offset < |p| then |t| - offset else |p|;
    assert t[offset..offset + n][i] == p[..n][i];
  }

  /** One placeholder is inert to another. */
  lemma OtherSlotIsInert(q: string, p: string)
    requires Delimited(p) && Delimited(q) && p != q
    ensures Inert(q, p)
  {
    forall offset | 0 <= offset < |q|
      ensures !Begins(q, offset, p)
    {
      if Begins(q, offset, p) {
        var n := if |q| - offset < |p| then |q| - offset else |p|;
        BeginsAlike(q, offset, p, 0);
        BeginsAlike(q, offset, p, n - 1);
        assert false;
      }
    }
  }

  /** Filling one placeholder wherever it stands. */
  function Fill(pieces: seq<Piece>, p: string, value: string): seq<Piece> {
    if pieces == [] then []
    else [if pieces[0] == Slot(p) then Plain(value) else pieces[0]] + Fill(pieces[1..], p, value)
  }

  predicate PlainInert(pieces: seq<Piece>, p: string) {
    forall piece :: piece in pieces && piece.Plain? ==> Inert(piece.text, p)
  }

  /** On text whose plain pieces are inert, `str::replace` fills the placeholder and nothing else. */
  lemma {:induction false} ReplaceAllFills(pieces: seq<Piece>, p: string, value: string)
    requires Delimited(p) && WellFormed(pieces) && PlainInert(pieces, p)
    ensures ReplaceAll(Text(pieces), p, value) == Text(Fill(pieces, p, value))
  {
    if pieces != [] {
      var first, rest := pieces[0], pieces[1..];
      ReplaceAllFills(rest, p, value);
      if first == Slot(p) {
        assert (p + Text(rest))[|p|..] == Text(rest);
      } else {
        if first.Slot? {
          OtherSlotIsInert(first.text, p);
        }
        InertTextIsSkipped(first.text, Text(rest), p, value);
      }
      assert Fill(pieces, p, value)[1..] == Fill(rest, p, value);
    }
  }

  lemma {:induction false} FillFacts(pieces: seq<Piece>, p: string, value: string)
    ensures forall piece :: piece in Fill(pieces, p, value) ==>
              piece == Plain(value) || (piece in pieces && piece != Slot(p))
    ensures Slot(p) in pieces ==> Plain(value) in Fill(pieces, p, value)
  {
    if pieces != [] {
      FillFacts(pieces[1..], p, value);
    }
  }

  lemma {:induction false} FillThenSubstitute(pieces: seq<Piece>, p: string, value: string, env: Environment)
    requires WellFormed(pieces) && Delimited(p) && Render(env, p) == Success(value)
    ensures WellFormed(Fill(pieces, p, value))
    ensures Substitute(Fill(pieces, p, value), env) == Substitute(pieces, env)
  {
    FillFacts(pieces, p, value);
    if pieces != [] {
      FillThenSubstitute(pieces[1..], p, value, env);
      assert Fill(pieces, p, value)[1..] == Fill(pieces[1..], p, value);
    }
  }

  /** The pieces to be rewritten with these placeholders, each inert to every placeholder. */
  predicate AllInert(pieces: seq<Piece>, slots: seq<string>) {
    forall p :: p in slots ==> PlainInert(pieces, p)
  }

  /** Each value is inert to the placeholders that are still to come, repetitions included. */
  predicate ValuesInert(slots: seq<string>, env: Environment) {
    forall i, j :: 0 <= i < j < |slots| && Render(env, slots[i]).Success? ==>
        Inert(Render(env, slots[i]).value, slots[j])
  }

  lemma {:induction false} PlainSubstitutes(pieces: seq<Piece>, env: Environment)
    requires WellFormed(pieces) && forall piece :: piece in pieces ==> piece.Plain?
    ensures Substitute(pieces, env) == Success(Text(pieces))
  {
    if pieces != [] {
      PlainSubstitutes(pieces[1..], env);
    }
  }

  /** The first placeholder without a value decides how rewriting fails. */
  lemma {:induction false} FailsLikeTheFirst(pieces: seq<Piece>, env: Environment)
    requires WellFormed(pieces)
    ensures AllPlaceholders(Slots(pieces))
    ensures forall t :: Rewrite(t, Slots(pieces), env).Failure? <==> Substitute(pieces, env).Failure?
    ensures forall t :: Substitute(pieces, env).Failure? ==> Rewrite(t, Slots(pieces), env) == Substitute(pieces, env)
  {
    if pieces != [] {
      FailsLikeTheFirst(pieces[1..], env);
      forall t
        ensures Rewrite(t, Slots(pieces), env).Failure? <==> Substitute(pieces, env).Failure?
        ensures Substitute(pieces, env).Failure? ==> Rewrite(t, Slots(pieces), env) == Substitute(pieces, env)
      {
        if pieces[0].Slot? {
          assert Slots(pieces)[1..] == Slots(pieces[1..]);
        } else {
          assert Slots(pieces) == Slots(pieces[1..]);
        }
      }
    }
  }

  lemma LaterValuesInert(slots: seq<string>, env: Environment)
    requires slots != [] && ValuesInert(slots, env)
    ensures ValuesInert(slots[1..], env)
  {
    var rest := slots[1..];
    forall i, j | 0 <= i < j < |rest| && Render(env, rest[i]).Success?
      ensures Inert(Render(env, rest[i]).value, rest[j])
    {
      assert rest[i] == slots[i + 1] && rest[j] == slots[j + 1];
    }
  }

  lemma {:induction false} RewriteSubstitutes(pieces: seq<Piece>, slots: seq<string>, env: Environment)
    requires WellFormed(pieces) && AllPlaceholders(slots)
    requires forall piece :: piece in pieces && piece.Slot? ==> piece.text in slots
    requires AllInert(pieces, slots) && ValuesInert(slots, env)
    requires forall p :: p in slots ==> Render(env, p).Success?
    ensures Rewrite(Text(pieces), slots, env) == Substitute(pieces, env)
    decreases |slots|
  {
    if slots == [] {
      PlainSubstitutes(pieces, env);
    } else {
      var p, rest := slots[0], slots[1..];
      var value := Render(env, p).value;
      var filled := Fill(pieces, p, value);
      ReplaceAllFills(pieces, p, value);
      FillFacts(pieces, p, value);
      FillThenSubstitute(pieces, p, value, env);
      assert forall q :: q in rest ==> q in slots;
      forall q | q in rest
        ensures PlainInert(filled, q)
      {
        var j :| 0 <= j < |rest| && rest[j] == q;
        assert slots[j + 1] == q && Inert(value, q);
      }
      LaterValuesInert(slots, env);
      RewriteSubstitutes(filled, rest, env);
    }
  }

  /** The loop fails exactly when the substitution does, with the same error, for every input; and it gives
      the same text whenever plain text is inert to the placeholders of the input and each value to those
      that come later. */
  lemma LoopIsSimultaneous(s: string, env: Environment)
    ensures WellFormed(Pieces(s))
    ensures
      var pieces, slots := Pieces(s), Slots(Pieces(s));
      && (Rewrite(s, slots, env).Failure? <==> Substitute(pieces, env).Failure?)
      && (Substitute(pieces, env).Failure? || (AllInert(pieces, slots) && ValuesInert(slots, env)) ==>
            Rewrite(s, slots, env) == Substitute(pieces, env))
  {
    PiecesAreWellFormed(s);
    var pieces, slots := Pieces(s), Slots(Pieces(s));
    PiecesExact(s);
    FailsLikeTheFirst(pieces, env);
    if Substitute(pieces, env).Success? && AllInert(pieces, slots) && ValuesInert(slots, env) {
      SuccessRendersAll(pieces, env);
      RewriteSubstitutes(pieces, slots, env);
    }
  }

  lemma {:induction false} SuccessRendersAll(pieces: seq<Piece>, env: Environment)
    requires WellFormed(pieces) && Substitute(pieces, env).Success?
    ensures forall p :: p in Slots(pieces) ==> Render(env, p).Success?
  {
    if pieces != [] {
      SuccessRendersAll(pieces[1..], env);
      forall p | p in Slots(pieces)
        ensures Render(env, p).Success?
      {
        assert p in Slots(pieces[1..]) || pieces[0] == Slot(p);
      }
    }
  }

  /** In particular: if dollars occur only where placeholders start, and in no value. */
  lemma DollarFreeIsInert(t: string, p: string)
    requires '$' !in t && Delimited(p)
    ensures Inert(t, p)
  {
    forall offset | 0 <= offset < |t|
      ensures !Begins(t, offset, p)
    {
      if Begins(t, offset, p) {
        BeginsAlike(t, offset, p, 0);
        assert false;
      }
    }
  }

  lemma DollarFreeTemplates(s: string, env: Environment)
    requires forall piece :: piece in Pieces(s) && piece.Plain? ==> '$' !in piece.text
    requires forall p :: p in Slots(Pieces(s)) && Render(env, p).Success? ==> '$' !in Render(env, p).value
    ensures WellFormed(Pieces(s)) && Rewrite(s, Slots(Pieces(s)), env) == Substitute(Pieces(s), env)
  {
    PiecesAreWellFormed(s);
    var pieces, slots := Pieces(s), Slots(Pieces(s));
    forall p, piece | p in slots && piece in pieces && piece.Plain?
      ensures Inert(piece.text, p)
    {
      DollarFreeIsInert(piece.text, p);
    }
    forall i, j | 0 <= i < j < |slots| && Render(env, slots[i]).Success?
      ensures Inert(Render(env, slots[i]).value, slots[j])
    {
      assert slots[i] in slots && Delimited(slots[i]) && Delimited(slots[j]);
      DollarFreeIsInert(Render(env, slots[i]).value, slots[j]);
    }
    LoopIsSimultaneous(s, env);
  }

  lemma OneSlot(p: string, rest: string)
    requires IsPlaceholder(p)
    ensures Pieces(p + rest) == [Plain(""), Slot(p)] + Pieces(rest)
  {
    MatchIsUnique(p + rest, p);
    assert (p + rest)[..|p|] == p && (p + rest)[|p|..] == rest;
    assert Find(p + rest) == Some(Found("", p, rest));
  }

  lemma TwoSlots(p: string, q: string)
    requires IsPlaceholder(p) && IsPlaceholder(q)
    ensures Pieces(p + q) == [Plain(""), Slot(p)] + ([Plain(""), Slot(q)] + [Plain("")])
  {
    OneSlot(p, q);
    OneSlot(q, "");
    assert q + "" == q;
  }

  /** A template that starts with a placeholder. */
  lemma FirstSlot(p: string, value: string, rest: seq<Piece>, text: string, env: Environment)
    requires Delimited(p) && WellFormed(rest)
    requires Render(env, p) == Success(value) && Substitute(rest, env) == Success(text)
    ensures
      var pieces := [Plain(""), Slot(p)] + rest;
      WellFormed(pieces) && Substitute(pieces, env) == Success(value + text)
  {
    var pieces := [Plain(""), Slot(p)] + rest;
    assert pieces[1..] == [Slot(p)] + rest && pieces[1..][1..] == rest;
    assert Substitute(pieces[1..], env) == Success(value + text);
    assert "" + (value + text) == value + text;
  }

  lemma FirstOfSlots(p: string, rest: seq<Piece>)
    ensures Slots([Plain(""), Slot(p)] + rest) == [p] + Slots(rest)
  {
    var pieces := [Plain(""), Slot(p)] + rest;
    assert pieces[1..] == [Slot(p)] + rest && pieces[1..][1..] == rest;
  }

  lemma ReplaceFirst(p: string, rest: string, value: string)
    requires p != []
    ensures ReplaceAll(p + rest, p, value) == value + ReplaceAll(rest, p, value)
  {
    assert (p + rest)[|p|..] == rest;
  }

  lemma ReplaceOnly(p: string, value: string)
    requires p != []
    ensures ReplaceAll(p, p, value) == value
  {
    assert p + "" == p && value + "" == value;
    ReplaceFirst(p, "", value);
  }

  /** It is not simultaneous in general: a value that is itself a later placeholder is expanded again, so
      the two differ unless that one renders to itself. */
  lemma ValueOfLaterPlaceholderIsExpanded(p: string, q: string, value: string, env: Environment)
    requires IsPlaceholder(p) && IsPlaceholder(q) && p != q
    requires Render(env, p) == Success(q) && Render(env, q) == Success(value)
    ensures WellFormed(Pieces(p + q)) && AllPlaceholders(Slots(Pieces(p + q)))
    ensures Rewrite(p + q, Slots(Pieces(p + q)), env) == Success(value + value)
    ensures Substitute(Pieces(p + q), env) == Success(q + value)
    ensures Rewrite(p + q, Slots(Pieces(p + q)), env) == Substitute(Pieces(p + q), env) <==> value == q
  {
    if value + value == q + value {
      assert |value| == |q| && value == (value + value)[..|value|] == (q + value)[..|q|] == q;
    }
    PlaceholderIsDelimited(p);
    PlaceholderIsDelimited(q);
    TwoSlots(p, q);
    SubstitutedOnce(p, q, value, env);
    ExpandedTwice(p, q, value, env);
  }

  lemma NothingLeft(env: Environment)
    ensures Substitute([Plain("")], env) == Success("") && Slots([Plain("")]) == []
  {
    assert [Plain("")][1..] == [];
    assert Substitute([], env) == Success("");
    assert "" + "" == "";
  }

  lemma SubstitutedOnce(p: string, q: string, value: string, env: Environment)
    requires Delimited(p) && Delimited(q)
    requires Render(env, p) == Success(q) && Render(env, q) == Success(value)
    ensures
      var pieces := [Plain(""), Slot(p)] + ([Plain(""), Slot(q)] + [Plain("")]);
      && WellFormed(pieces) && Slots(pieces) == [p, q]
      && Substitute(pieces, env) == Success(q + value)
  {
    var last := [Plain(""), Slot(q)] + [Plain("")];
    NothingLeft(env);
    FirstSlot(q, value, [Plain("")], "", env);
    assert value + "" == value;
    FirstSlot(p, q, last, value, env);
    SlotsOfTwo(p, q);
  }

  lemma SlotsOfTwo(p: string, q: string)
    ensures Slots([Plain(""), Slot(p)] + ([Plain(""), Slot(q)] + [Plain("")])) == [p, q]
  {
    FirstOfSlots(p, [Plain(""), Slot(q)] + [Plain("")]);
    FirstOfSlots(q, [Plain("")]);
    assert [Plain("")][1..] == [] && Slots([Plain("")]) == [] + Slots([]);
    assert [p] + ([q] + []) == [p, q];
  }

  lemma ExpandedTwice(p: string, q: string, value: string, env: Environment)
    requires Delimited(p) && Delimited(q) && p != q
    requires Render(env, p) == Success(q) && Render(env, q) == Success(value)
    ensures Rewrite(p + q, [p, q], env) == Success(value + value)
  {
    ReplaceFirst(p, q, q);
    OtherSlotIsInert(q, p);
    InertTextIsSkipped(q, "", p, q);
    TooShort("", p, q);
    assert q + "" == q;
    ReplaceFirst(q, q, value);
    ReplaceOnly(q, value);
    assert Rewrite(value + value, [], env) == Success(value + value);
    assert [p, q][1..] == [q] && [q][1..] == [];
    assert Rewrite(q + q, [q], env) == Success(value + value);
  }
}

/** Which templates are immune to the values put into them: for which of them replacing one placeholder after the
    other (agent-control/src/agent_type/templates.rs) equals substituting all at once, whatever the values. */
module TemplateImmunity {
  import opened ConfigTypes
  import opened Templates
  import PipeFunctions

  /** After plain text comes a placeholder or nothing. */
  predicate Separated(pieces: seq<Piece>) {
    forall i :: 0 <= i < |pieces| - 1 && pieces[i].Plain? ==> pieces[i + 1].Slot?
  }

  /** No plain piece has this placeholder in it. */
  ghost predicate FreeOf(pieces: seq<Piece>, p: string) {
    forall piece, i: nat :: piece in pieces && piece.Plain? ==> !Occurs(p, piece.text, i)
  }

  lemma {:induction false} PiecesAreSeparated(t: string)
    ensures Separated(Pieces(t)) && Pieces(t)[0].Plain?
    decreases |t|
  {
    if Find(t).Some? {
      PiecesAreSeparated(Find(t).value.after);
    }
  }

  lemma PiecesAreFree(t: string, p: string)
    requires IsPlaceholder(p)
    ensures FreeOf(Pieces(t), p)
  {
    PiecesExact(t);
    forall piece, i: nat | piece in Pieces(t) && piece.Plain?
      ensures !Occurs(p, piece.text, i)
    {
      assert Exact(piece);
    }
  }

  // ---- Replacing between placeholders ----

  /** A placeholder cannot start in plain text and reach into the placeholder that follows. */
  lemma {:induction false} PlainIsSkipped(t: string, rest: string, p: string, value: string)
    requires Delimited(p) && (forall i: nat :: !Occurs(p, t, i)) && (rest != [] ==> rest[0] == '$')
    ensures ReplaceAll(t + rest, p, value) == t + ReplaceAll(rest, p, value)
    decreases |t|
  {
    if t == [] {
      assert t + rest == rest;
    } else if |t + rest| < |p| {
      TooShort(t + rest, p, value);
      TooShort(rest, p, value);
    } else {
      NotAtStart(t, rest, p);
      forall i: nat
        ensures !Occurs(p, t[1..], i)
      {
        assert !Occurs(p, t, i + 1);
        assert i + |p| <= |t[1..]| ==> t[1..][i..i + |p|] == t[i + 1..i + 1 + |p|];
      }
      PlainIsSkipped(t[1..], rest, p, value);
      assert (t + rest)[1..] == t[1..] + rest;
      Regroup([t[0]], t[1..], ReplaceAll(rest, p, value));
      assert t == [t[0]] + t[1..];
    }
  }

  lemma NotAtStart(t: string, rest: string, p: string)
    requires t != [] && Delimited(p) && !Occurs(p, t, 0) && (rest != [] ==> rest[0] == '$')
    ensures !(p <= t + rest)
  {
    if |p| > |t| && rest != [] {
      assert p[|t|] != '$' && (t + rest)[|t|] == '$';
    }
  }

  lemma {:induction false} StartsWithDollar(pieces: seq<Piece>)
    requires WellFormed(pieces) && (pieces != [] ==> pieces[0].Slot?)
    ensures Text(pieces) != [] ==> Text(pieces)[0] == '$'
  {
    if pieces != [] {
      assert pieces[0] in pieces;
    }
  }

  /** Between separated placeholders `str::replace` fills the placeholder and nothing else, whatever the plain
      text. */
  lemma {:induction false} ReplaceAllAtSlots(pieces: seq<Piece>, p: string, value: string)
    requires Delimited(p) && WellFormed(pieces) && Separated(pieces) && FreeOf(pieces, p)
    ensures ReplaceAll(Text(pieces), p, value) == Text(Fill(pieces, p, value))
  {
    if pieces != [] {
      var first, rest := pieces[0], pieces[1..];
      assert Separated(rest) by {
        assert forall i :: 0 <= i < |rest| ==> rest[i] == pieces[i + 1];
      }
      ReplaceAllAtSlots(rest, p, value);
      assert Fill(pieces, p, value)[1..] == Fill(rest, p, value);
      assert first in pieces;
      if first == Slot(p) {
        ReplaceFirst(p, Text(rest), value);
      } else if first.Slot? {
        OtherSlotIsInert(first.text, p);
        InertTextIsSkipped(first.text, Text(rest), p, value);
      } else {
        StartsWithDollar(rest);
        PlainIsSkipped(first.text, Text(rest), p, value);
      }
    }
  }

  // ---- At most one placeholder ----

  lemma {:induction false} FilledSubstitutes(pieces: seq<Piece>, p: string, value: string, env: Environment)
    requires WellFormed(pieces) && Render(env, p) == Success(value)
    requires forall piece :: piece in pieces && piece.Slot? ==> piece == Slot(p)
    ensures Substitute(pieces, env) == Success(Text(Fill(pieces, p, value)))
  {
    if pieces != [] {
      FilledSubstitutes(pieces[1..], p, value, env);
      assert Fill(pieces, p, value)[1..] == Fill(pieces[1..], p, value);
    }
  }

  lemma SingleSlotIsFilled(s: string, p: string, value: string, env: Environment)
    requires WellFormed(Pieces(s)) && Slots(Pieces(s)) == [p] && Delimited(p) && Render(env, p) == Success(value)
    ensures ReplaceAll(s, p, value) == Text(Fill(Pieces(s), p, value))
    ensures Substitute(Pieces(s), env) == Success(Text(Fill(Pieces(s), p, value)))
  {
    var pieces := Pieces(s);
    PiecesExact(s);
    PiecesAreSeparated(s);
    assert p in Slots(pieces) && Exact(Slot(p));
    PiecesAreFree(s, p);
    ReplaceAllAtSlots(pieces, p, value);
    forall piece | piece in pieces && piece.Slot?
      ensures piece == Slot(p)
    {
      assert Slot(piece.text) in pieces && piece.text in Slots(pieces);
    }
    FilledSubstitutes(pieces, p, value, env);
  }

  lemma OnePlaceholderIsImmune(s: string, env: Environment)
    requires |Slots(Pieces(s))| <= 1
    ensures WellFormed(Pieces(s)) && Rewrite(s, Slots(Pieces(s)), env) == Substitute(Pieces(s), env)
  {
    var pieces, slots := Pieces(s), Slots(Pieces(s));
    PiecesAreWellFormed(s);
    if slots == [] {
      PiecesExact(s);
      assert forall piece :: piece in pieces && piece.Slot? ==> piece.text in slots;
      PlainSubstitutes(pieces, env);
    } else if Render(env, slots[0]).Success? {
      SingleSlotIsFilled(s, slots[0], Render(env, slots[0]).value, env);
      assert slots == [slots[0]] && slots[1..] == [];
    } else {
      FailsLikeTheFirst(pieces, env);
    }
  }

  // ---- Two placeholders or more ----

  /** Every occurrence of a placeholder becomes two of another. */
  function Double(pieces: seq<Piece>, p: string, q: string): seq<Piece> {
    if pieces == [] then []
    else (if pieces[0] == Slot(p) then [Slot(q), Slot(q)] else [pieces[0]]) + Double(pieces[1..], p, q)
  }

  function Count(pieces: seq<Piece>, p: string): nat {
    if pieces == [] then 0 else (if pieces[0] == Slot(p) then 1 else 0) + Count(pieces[1..], p)
  }

  function PlainLength(pieces: seq<Piece>): nat {
    if pieces == [] then 0 else (if pieces[0].Plain? then |pieces[0].text| else 0) + PlainLength(pieces[1..])
  }

  lemma PrependCount(piece: Piece, rest: seq<Piece>)
    ensures Text([piece] + rest) == piece.text + Text(rest)
    ensures |Slots([piece] + rest)| == |Slots(rest)| + if piece.Slot? then 1 else 0
    ensures PlainLength([piece] + rest) == PlainLength(rest) + if piece.Plain? then |piece.text| else 0
  {
    assert ([piece] + rest)[1..] == rest;
  }

  lemma DoubleStep(pieces: seq<Piece>, p: string, q: string)
    requires pieces != []
    ensures
      var rest := Double(pieces[1..], p, q);
      Double(pieces, p, q) == if pieces[0] == Slot(p) then [Slot(q)] + ([Slot(q)] + rest) else [pieces[0]] + rest
  {
    var rest := Double(pieces[1..], p, q);
    assert [Slot(q), Slot(q)] + rest == [Slot(q)] + ([Slot(q)] + rest);
  }

  lemma {:induction false} DoubleText(pieces: seq<Piece>, p: string, q: string)
    ensures Text(Double(pieces, p, q)) == Text(Fill(pieces, p, q + q))
  {
    if pieces != [] {
      var rest, filled := Double(pieces[1..], p, q), Fill(pieces[1..], p, q + q);
      DoubleText(pieces[1..], p, q);
      DoubleStep(pieces, p, q);
      if pieces[0] == Slot(p) {
        PrependCount(Slot(q), rest);
        PrependCount(Slot(q), [Slot(q)] + rest);
        PrependCount(Plain(q + q), filled);
        Regroup(q, q, Text(rest));
      } else {
        PrependCount(pieces[0], rest);
        PrependCount(pieces[0], filled);
      }
    }
  }

  lemma PrependPair(q: string, rest: seq<Piece>)
    ensures |Slots([Slot(q)] + ([Slot(q)] + rest))| == |Slots(rest)| + 2
    ensures PlainLength([Slot(q)] + ([Slot(q)] + rest)) == PlainLength(rest)
  {
    PrependCount(Slot(q), rest);
    PrependCount(Slot(q), [Slot(q)] + rest);
  }

  lemma {:induction false} DoubleCounts(pieces: seq<Piece>, p: string, q: string)
    ensures |Slots(Double(pieces, p, q))| == |Slots(pieces)| + Count(pieces, p)
    ensures PlainLength(Double(pieces, p, q)) == PlainLength(pieces)
  {
    if pieces != [] {
      var first, rest := pieces[0], Double(pieces[1..], p, q);
      DoubleCounts(pieces[1..], p, q);
      DoubleStep(pieces, p, q);
      if first == Slot(p) {
        PrependPair(q, rest);
      } else {
        PrependCount(first, rest);
      }
      PrependCount(first, pieces[1..]);
      assert pieces == [first] + pieces[1..];
    }
  }

  lemma {:induction false} DoubleMembers(pieces: seq<Piece>, p: string, q: string)
    ensures forall piece :: piece in Double(pieces, p, q) ==>
              piece == Slot(q) || (piece in pieces && piece != Slot(p))
  {
    if pieces != [] {
      DoubleMembers(pieces[1..], p, q);
    }
  }

  lemma {:induction false} DoubleIsSeparated(pieces: seq<Piece>, p: string, q: string)
    requires Separated(pieces)
    ensures Separated(Double(pieces, p, q))
    ensures pieces != [] && pieces[0].Slot? ==> Double(pieces, p, q) != [] && Double(pieces, p, q)[0].Slot?
    ensures pieces == [] ==> Double(pieces, p, q) == []
  {
    if pieces != [] {
      var rest := pieces[1..];
      assert Separated(rest) by {
        assert forall i :: 0 <= i < |rest| ==> rest[i] == pieces[i + 1];
      }
      DoubleIsSeparated(rest, p, q);
      assert pieces[0].Plain? && rest != [] ==> rest[0].Slot?;
    }
  }

  lemma OneMore(n: nat, length: nat)
    ensures (n + 1) * length == n * length + length
  {
  }

  lemma {:induction false} CountAll(pieces: seq<Piece>, q: string)
    requires forall piece :: piece in pieces && piece.Slot? ==> piece == Slot(q)
    ensures Count(pieces, q) == |Slots(pieces)|
    ensures |Text(pieces)| == PlainLength(pieces) + |Slots(pieces)| * |q|
  {
    if pieces != [] {
      var first, rest := pieces[0], pieces[1..];
      CountAll(rest, q);
      assert pieces == [first] + rest && first in pieces;
      PrependCount(first, rest);
      OneMore(|Slots(rest)|, |q|);
    }
  }

  lemma {:induction false} CountSome(pieces: seq<Piece>, p: string)
    requires Slot(p) in pieces
    ensures Count(pieces, p) >= 1
  {
    if pieces[0] != Slot(p) {
      CountSome(pieces[1..], p);
    }
  }

  /** Pieces that the loop may still have to rewrite with these placeholders; all others have become `q`. */
  ghost predicate Rewritable(pieces: seq<Piece>, slots: seq<string>, q: string) {
    && WellFormed(pieces) && Separated(pieces) && AllPlaceholders(slots) && Delimited(q)
    && (forall piece :: piece in pieces && piece.Slot? ==> piece.text in slots || piece.text == q)
    && (forall p :: p in slots ==> FreeOf(pieces, p))
  }

  lemma DoubleIsFree(pieces: seq<Piece>, p: string, q: string, x: string)
    requires FreeOf(pieces, x)
    ensures FreeOf(Double(pieces, p, q), x)
  {
    DoubleMembers(pieces, p, q);
    forall piece, i: nat | piece in Double(pieces, p, q) && piece.Plain?
      ensures !Occurs(x, piece.text, i)
    {
      assert piece in pieces;
    }
  }

  lemma DoubleStaysRewritable(pieces: seq<Piece>, slots: seq<string>, q: string)
    requires Rewritable(pieces, slots, q) && slots != []
    ensures Rewritable(Double(pieces, slots[0], q), slots[1..], q)
  {
    var p, rest := slots[0], slots[1..];
    assert forall i :: 0 <= i < |rest| ==> rest[i] == slots[i + 1];
    assert forall x :: x in slots ==> x == p || x in rest;
    DoubleMembers(pieces, p, q);
    DoubleIsSeparated(pieces, p, q);
    forall x | x in rest
      ensures FreeOf(Double(pieces, p, q), x)
    {
      DoubleIsFree(pieces, p, q, x);
    }
  }

  lemma RewriteStep(pieces: seq<Piece>, slots: seq<string>, q: string, env: Environment)
    requires Rewritable(pieces, slots, q) && slots != [] && Render(env, slots[0]) == Success(q + q)
    ensures Rewrite(Text(pieces), slots, env) == Rewrite(Text(Double(pieces, slots[0], q)), slots[1..], env)
  {
    assert slots[0] in slots;
    ReplaceAllAtSlots(pieces, slots[0], q + q);
    DoubleText(pieces, slots[0], q);
  }

  /** The placeholders that are still to be replaced. */
  function Pending(pieces: seq<Piece>, slots: seq<string>): nat {
    if pieces == [] then 0
    else (if pieces[0].Slot? && pieces[0].text in slots then 1 else 0) + Pending(pieces[1..], slots)
  }

  lemma PrependPending(piece: Piece, rest: seq<Piece>, slots: seq<string>)
    ensures Pending([piece] + rest, slots)
         == Pending(rest, slots) + if piece.Slot? && piece.text in slots then 1 else 0
  {
    assert ([piece] + rest)[1..] == rest;
  }

  lemma {:induction false} PendingAtMost(pieces: seq<Piece>, slots: seq<string>)
    ensures Pending(pieces, slots) <= |Slots(pieces)|
    ensures (forall piece :: piece in pieces && piece.Slot? ==> piece.text in slots) ==>
              Pending(pieces, slots) == |Slots(pieces)|
  {
    if pieces != [] {
      PendingAtMost(pieces[1..], slots);
      assert pieces[0] in pieces;
    }
  }

  /** Replacing one placeholder leaves those of the other names pending. */
  lemma {:induction false} PendingStep(pieces: seq<Piece>, slots: seq<string>, q: string)
    requires slots != []
    ensures Pending(Double(pieces, slots[0], q), slots[1..]) + Count(pieces, slots[0]) >= Pending(pieces, slots)
  {
    if pieces != [] {
      var p, first, rest := slots[0], pieces[0], Double(pieces[1..], slots[0], q);
      PendingStep(pieces[1..], slots, q);
      DoubleStep(pieces, p, q);
      if first == Slot(p) {
        PrependPending(Slot(q), rest, slots[1..]);
        PrependPending(Slot(q), [Slot(q)] + rest, slots[1..]);
      } else {
        PrependPending(first, rest, slots[1..]);
        assert first.Slot? && first.text in slots ==> first.text in slots[1..];
      }
    }
  }

  /** Where every placeholder renders to one of them twice, the loop doubles at least those that are pending, and
      does more if that one is still to come when the first is replaced. */
  lemma {:induction false} LoopDoubles(pieces: seq<Piece>, slots: seq<string>, q: string, env: Environment)
    returns (end: seq<Piece>)
    requires Rewritable(pieces, slots, q)
    requires forall p :: p in slots ==> Render(env, p) == Success(q + q)
    ensures Rewrite(Text(pieces), slots, env) == Success(Text(end))
    ensures forall piece :: piece in end && piece.Slot? ==> piece == Slot(q)
    ensures PlainLength(end) == PlainLength(pieces)
    ensures |Slots(end)| >= |Slots(pieces)| + Pending(pieces, slots)
    ensures slots != [] && q in slots[1..] && Slot(slots[0]) in pieces ==> |Slots(end)| > 2 * |Slots(pieces)|
    decreases |slots|
  {
    if slots == [] {
      end := pieces;
      NothingPending(pieces);
    } else {
      var p, rest := slots[0], slots[1..];
      var next := Double(pieces, p, q);
      assert p in slots && forall x :: x in rest ==> x in slots;
      RewriteStep(pieces, slots, q, env);
      DoubleCounts(pieces, p, q);
      DoubleStaysRewritable(pieces, slots, q);
      PendingStep(pieces, slots, q);
      end := LoopDoubles(next, rest, q, env);
      if q in rest && Slot(p) in pieces {
        CountSome(pieces, p);
        PendingAtMost(next, rest);
      }
    }
  }

  lemma {:induction false} NothingPending(pieces: seq<Piece>)
    ensures Pending(pieces, []) == 0
  {
    if pieces != [] {
      NothingPending(pieces[1..]);
    }
  }

  lemma {:induction false} SubstituteDoubles(pieces: seq<Piece>, q: string, env: Environment)
    requires WellFormed(pieces)
    requires forall piece :: piece in pieces && piece.Slot? ==> Render(env, piece.text) == Success(q + q)
    ensures Substitute(pieces, env).Success?
    ensures |Substitute(pieces, env).value| == PlainLength(pieces) + |Slots(pieces)| * (2 * |q|)
  {
    if pieces != [] {
      var first, rest := pieces[0], pieces[1..];
      SubstituteDoubles(rest, q, env);
      assert pieces == [first] + rest && first in pieces;
      PrependCount(first, rest);
      OneMore(|Slots(rest)|, 2 * |q|);
    }
  }

  type Functions = (string, string) -> Attempt<string>

  type Variables = map<string, Option<string>>

  /** All variables of these placeholders have this value. */
  function Constant(slots: seq<string>, value: string): (variables: Variables)
    ensures forall p :: p in slots ==> VariableOf(p) in variables && variables[VariableOf(p)] == Some(value)
  {
    var names := set p | p in slots :: VariableOf(p);
    map name | name in names :: Some(value)
  }

  /** The functions of all placeholders leave this value alone. */
  predicate Kept(slots: seq<string>, apply: Functions, value: string) {
    forall p :: p in slots ==> apply(FunctionsOf(p), value) == Success(value)
  }

  /** A template with two placeholders or more, equal or not, goes wrong for some values, if the functions let one
      that is not the first through. */
  lemma TwoPlaceholdersAreNot(s: string, apply: Functions, q: string) returns (variables: Variables)
    requires |Slots(Pieces(s))| >= 2 && q in Slots(Pieces(s))[1..] && Kept(Slots(Pieces(s)), apply, q + q)
    ensures
      var env := Environment(variables, apply);
      WellFormed(Pieces(s)) && Rewrite(s, Slots(Pieces(s)), env) != Substitute(Pieces(s), env)
  {
    var pieces, slots := Pieces(s), Slots(Pieces(s));
    variables := Constant(slots, q + q);
    var env := Environment(variables, apply);
    PiecesAreWellFormed(s);
    PiecesExact(s);
    PiecesAreSeparated(s);
    forall p | p in slots
      ensures FreeOf(pieces, p)
    {
      assert Exact(Slot(p));
      PiecesAreFree(s, p);
    }
    assert slots[0] in slots && q in slots && Delimited(q);
    assert forall piece :: piece in pieces && piece.Slot? ==> piece.text in slots;
    var end := LoopDoubles(pieces, slots, q, env);
    SubstituteDoubles(pieces, q, env);
    CountAll(end, q);
    Longer(|Slots(end)|, |slots|, |q|);
  }

  lemma Longer(a: nat, b: nat, length: nat)
    requires a > 2 * b && length > 0
    ensures a * length > b * (2 * length)
  {
    assert a * length >= (2 * b + 1) * length == b * (2 * length) + length;
  }

  /** Loop and simultaneous substitution agree, whatever the values of the variables. */
  ghost predicate Immune(s: string, apply: Functions)
    requires WellFormed(Pieces(s))
  {
    forall variables ::
      var env := Environment(variables, apply);
      Rewrite(s, Slots(Pieces(s)), env) == Substitute(Pieces(s), env)
  }

  /** With functions that leave every value alone, as where there are none, a template is immune exactly if it has
      at most one placeholder. */
  lemma ImmuneWithoutFunctionsExactly(s: string, apply: Functions)
    requires forall p, v :: p in Slots(Pieces(s)) ==> apply(FunctionsOf(p), v) == Success(v)
    ensures WellFormed(Pieces(s))
    ensures Immune(s, apply) <==> |Slots(Pieces(s))| <= 1
  {
    var slots := Slots(Pieces(s));
    PiecesAreWellFormed(s);
    if |slots| <= 1 {
      forall variables
        ensures Rewrite(s, slots, Environment(variables, apply)) == Substitute(Pieces(s), Environment(variables, apply))
      {
        OnePlaceholderIsImmune(s, Environment(variables, apply));
      }
    } else {
      assert slots[1] == slots[1..][0];
      var variables := TwoPlaceholdersAreNot(s, apply, slots[1]);
      var env := Environment(variables, apply);
      assert Rewrite(s, slots, env) != Substitute(Pieces(s), env);
    }
  }

  // ---- With the functions of the code ----

  /** Some placeholder has functions that do not parse. */
  predicate NeverRenders(slots: seq<string>) {
    exists p :: p in slots && PipeFunctions.Parse(FunctionsOf(p)).None?
  }

  lemma FailsAlike(s: string, env: Environment, p: string)
    requires p in Slots(Pieces(s)) && Render(env, p).Failure?
    ensures WellFormed(Pieces(s)) && Substitute(Pieces(s), env).Failure?
    ensures Rewrite(s, Slots(Pieces(s)), env) == Substitute(Pieces(s), env)
  {
    PiecesAreWellFormed(s);
    if Substitute(Pieces(s), env).Success? {
      SuccessRendersAll(Pieces(s), env);
      assert false;
    }
    FailsLikeTheFirst(Pieces(s), env);
  }

  lemma UnparsedFailsAlike(s: string, p: string, variables: Variables)
    requires p in Slots(Pieces(s)) && PipeFunctions.Parse(FunctionsOf(p)).None?
    ensures
      var env := Environment(variables, PipeFunctions.Apply);
      && WellFormed(Pieces(s)) && Substitute(Pieces(s), env).Failure?
      && Rewrite(s, Slots(Pieces(s)), env) == Substitute(Pieces(s), env)
  {
    var env := Environment(variables, PipeFunctions.Apply);
    assert Render(env, p).Failure?;
    FailsAlike(s, env, p);
  }

  /** A template with functions that do not parse fails alike for all values, however many placeholders it has. */
  lemma UnparsedIsImmune(s: string)
    ensures WellFormed(Pieces(s))
    ensures NeverRenders(Slots(Pieces(s))) ==>
              && Immune(s, PipeFunctions.Apply)
              && forall variables :: Substitute(Pieces(s), Environment(variables, PipeFunctions.Apply)).Failure?
  {
    PiecesAreWellFormed(s);
    if NeverRenders(Slots(Pieces(s))) {
      var p :| p in Slots(Pieces(s)) && PipeFunctions.Parse(FunctionsOf(p)).None?;
      forall variables: Variables {
        UnparsedFailsAlike(s, p, variables);
      }
    }
  }

  /** A placeholder after the first that no `indent` changes: it has no line break in it, or there is nothing to
      indent. */
  predicate Passes(slots: seq<string>) {
    exists j :: 1 <= j < |slots| &&
      ('\n' !in slots[j] || forall p :: p in slots ==> Indents(p) == 0)
  }

  function Indents(p: string): nat {
    var parsed := PipeFunctions.Parse(FunctionsOf(p));
    if parsed.None? then 0 else PipeFunctions.Sum(parsed.value)
  }

  /** The exact condition, which a caller can check on the template alone, for all templates but those that have
      line breaks inside every placeholder after the first and indent. */
  lemma ImmuneExactly(s: string)
    requires |Slots(Pieces(s))| >= 2 ==> Passes(Slots(Pieces(s)))
    ensures WellFormed(Pieces(s))
    ensures Immune(s, PipeFunctions.Apply) <==> |Slots(Pieces(s))| <= 1 || NeverRenders(Slots(Pieces(s)))
  {
    var slots := Slots(Pieces(s));
    PiecesAreWellFormed(s);
    if NeverRenders(slots) {
      UnparsedIsImmune(s);
    } else if |slots| <= 1 {
      forall variables
        ensures
          var env := Environment(variables, PipeFunctions.Apply);
          Rewrite(s, slots, env) == Substitute(Pieces(s), env)
      {
        OnePlaceholderIsImmune(s, Environment(variables, PipeFunctions.Apply));
      }
    } else {
      var j :| 1 <= j < |slots| && ('\n' !in slots[j] || forall p :: p in slots ==> Indents(p) == 0);
      var q := slots[j];
      assert q == slots[1..][j - 1];
      forall p | p in slots
        ensures PipeFunctions.Apply(FunctionsOf(p), q + q) == Success(q + q)
      {
        PipeFunctions.ApplyKeeps(FunctionsOf(p), q + q);
      }
      var variables := TwoPlaceholdersAreNot(s, PipeFunctions.Apply, q);
      var env := Environment(variables, PipeFunctions.Apply);
      assert Rewrite(s, slots, env) != Substitute(Pieces(s), env);
    }
  }
}

/** Filling the tree of an agent type's variables with configuration values
    (agent-control/src/agent_type/definition.rs). */
module VariableTree {
  import opened ConfigTypes

  datatype Tree<V> = End(value: V) | Mapping(children: map<string, Tree<V>>)

  datatype Json = Scalar(text: string) | Array(items: seq<Json>) | Object(fields: map<string, Json>)

  /** Setting a variable's final value, checked against its type. */
  type Merge<!V> = (V, Json) -> Attempt<V>

  const NOT_A_MAP := "invalid type, expected a map"

  // ---- Constraints ----

  /** `with_config` on a tree */
  function WithConfig<A, B>(t: Tree<A>, configure: A -> B): Tree<B> {
    match t
    case End(value) => End(configure(value))
    case Mapping(children) => Mapping(map k | k in children :: WithConfig(children[k], configure))
  }

  // ---- Values ----

  /** The tree with the values filled in, or nothing if one of them does not fit. Keys of the values that
      the tree does not have are ignored. */
  function Fill<V>(t: Tree<V>, value: Json, merge: Merge<V>): Option<Tree<V>>
    decreases t
  {
    match t
    case End(v) =>
      var merged := merge(v, value);
      if merged.Success? then Some(End(merged.value)) else None
    case Mapping(children) =>
      if !value.Object? then None
      else if forall k :: k in children && k in value.fields ==> Fill(children[k], value.fields[k], merge).Some? then
        Some(Mapping(map k | k in children ::
          if k in value.fields then Fill(children[k], value.fields[k], merge).value else children[k]))
      else None
  }

  /** The errors that filling can end with; which one does depends on the order of the keys. */
  predicate CanFailWith<V>(t: Tree<V>, value: Json, merge: Merge<V>, error: string)
    decreases t
  {
    match t
    case End(v) => merge(v, value) == Failure(error)
    case Mapping(children) =>
      if !value.Object? then error == NOT_A_MAP
      else exists k :: k in children && k in value.fields && CanFailWith(children[k], value.fields[k], merge, error)
  }

  /** `update_specs`: the keys are visited in any order. */
  method UpdateSpecs<V>(values: map<string, Json>, vars: map<string, Tree<V>>, merge: Merge<V>)
    returns (r: Attempt<map<string, Tree<V>>>)
    ensures r.Success? ==> Fill(Mapping(vars), Object(values), merge) == Some(Mapping(r.value))
    ensures r.Failure? ==> Fill(Mapping(vars), Object(values), merge) == None
    ensures r.Failure? ==> CanFailWith(Mapping(vars), Object(values), merge, r.message)
    decreases Mapping(vars)
  {
    var filled, remaining := vars, values.Keys;
    while remaining != {}
      invariant remaining <= values.Keys && filled.Keys == vars.Keys
      invariant forall k :: k in vars && k in values && k !in remaining ==>
                  Fill(vars[k], values[k], merge) == Some(filled[k])
      invariant forall k :: k in vars && (k in remaining || k !in values) ==> filled[k] == vars[k]
      decreases |remaining|
    {
      var key :| key in remaining;
      remaining := remaining - {key};
      if key in filled {
        assert vars[key] < Mapping(vars);
        match filled[key]
        case End(v) =>
          var merged := merge(v, values[key]);
          if merged.Failure? {
            return Failure(merged.message);
          }
          filled := filled[key := End(merged.value)];
        case Mapping(children) =>
          if !values[key].Object? {
            return Failure(NOT_A_MAP);
          }
          var inner := UpdateSpecs(values[key].fields, children, merge);
          if inner.Failure? {
            return Failure(inner.message);
          }
          filled := filled[key := Mapping(inner.value)];
      }
    }
    r := Success(filled);
    assert forall k :: k in vars && k in values ==> Fill(vars[k], values[k], merge) == Some(filled[k]);
    assert Fill(Mapping(vars), Object(values), merge).Some?;
    assert Fill(Mapping(vars), Object(values), merge).value.children == filled;
  }

  /** Filling fails exactly when there is an error it can fail with. */
  lemma {:induction false} FailureHasACause<V>(t: Tree<V>, value: Json, merge: Merge<V>)
    ensures Fill(t, value, merge).None? <==> exists error :: CanFailWith(t, value, merge, error)
    decreases t
  {
    match t
    case End(v) =>
      if merge(v, value).Failure? {
        assert CanFailWith(t, value, merge, merge(v, value).message);
      }
    case Mapping(children) =>
      if value.Object? {
        forall k | k in children && k in value.fields
          ensures Fill(children[k], value.fields[k], merge).None? <==>
                    exists error :: CanFailWith(children[k], value.fields[k], merge, error)
        {
          FailureHasACause(children[k], value.fields[k], merge);
        }
        if Fill(t, value, merge).None? {
          var k :| k in children && k in value.fields && Fill(children[k], value.fields[k], merge).None?;
          var error :| CanFailWith(children[k], value.fields[k], merge, error);
          assert CanFailWith(t, value, merge, error);
        }
      } else {
        assert CanFailWith(t, value, merge, NOT_A_MAP);
      }
  }

  // ---- Shape ----

  /** The same names at every depth, with leaves in the same places. */
  predicate SameShape<A, B>(a: Tree<A>, b: Tree<B>)
    decreases a
  {
    match a
    case End(_) => b.End?
    case Mapping(children) =>
      && b.Mapping? && children.Keys == b.children.Keys
      && forall k :: k in children ==> SameShape(children[k], b.children[k])
  }

  lemma {:induction false} ConfigKeepsShape<A, B>(t: Tree<A>, configure: A -> B)
    ensures SameShape(t, WithConfig(t, configure))
    decreases t
  {
    if t.Mapping? {
      forall k | k in t.children
        ensures SameShape(t.children[k], WithConfig(t.children[k], configure))
      {
        ConfigKeepsShape(t.children[k], configure);
      }
    }
  }

  lemma {:induction false} ShapesReflect<V>(t: Tree<V>)
    ensures SameShape(t, t)
    decreases t
  {
    if t.Mapping? {
      forall k | k in t.children
        ensures SameShape(t.children[k], t.children[k])
      {
        ShapesReflect(t.children[k]);
      }
    }
  }

  lemma {:induction false} ShapesChain<A, B, C>(a: Tree<A>, b: Tree<B>, c: Tree<C>)
    requires SameShape(a, b) && SameShape(b, c)
    ensures SameShape(a, c)
    decreases a
  {
    if a.Mapping? {
      forall k | k in a.children
        ensures SameShape(a.children[k], c.children[k])
      {
        ShapesChain(a.children[k], b.children[k], c.children[k]);
      }
    }
  }

  lemma {:induction false} FillKeepsShape<V>(t: Tree<V>, value: Json, merge: Merge<V>)
    requires Fill(t, value, merge).Some?
    ensures SameShape(t, Fill(t, value, merge).value)
    decreases t
  {
    if t.Mapping? {
      forall k | k in t.children
        ensures SameShape(t.children[k], Fill(t, value, merge).value.children[k])
      {
        if k in value.fields {
          FillKeepsShape(t.children[k], value.fields[k], merge);
        } else {
          ShapesReflect(t.children[k]);
        }
      }
    }
  }

  /** From the agent type's definition to its filled variables the shape stays the same. */
  lemma ConstrainedAndFilledKeepsShape<A, V>(definition: Tree<A>, configure: A -> V, value: Json, merge: Merge<V>)
    requires Fill(WithConfig(definition, configure), value, merge).Some?
    ensures SameShape(definition, Fill(WithConfig(definition, configure), value, merge).value)
  {
    var t := WithConfig(definition, configure);
    ConfigKeepsShape(definition, configure);
    FillKeepsShape(t, value, merge);
    ShapesChain(definition, t, Fill(t, value, merge).value);
  }

  // ---- What changes ----

  /** The node at a path of names. */
  function NodeAt<V>(t: Tree<V>, path: seq<string>): Option<Tree<V>>
    decreases |path|
  {
    if path == [] then Some(t)
    else if t.Mapping? && path[0] in t.children then NodeAt(t.children[path[0]], path[1..])
    else None
  }

  /** The value that addresses a path. */
  function JsonAt(value: Json, path: seq<string>): Option<Json>
    decreases |path|
  {
    if path == [] then Some(value)
    else if value.Object? && path[0] in value.fields then JsonAt(value.fields[path[0]], path[1..])
    else None
  }

  /** What a value may be put at: a leaf that accepts it, or a mapping if it is one. */
  predicate Fits<V>(t: Tree<V>, value: Json, merge: Merge<V>, path: seq<string>) {
    var node, addressed := NodeAt(t, path), JsonAt(value, path);
    node.Some? && addressed.Some? ==>
      match node.value
      case End(v) => merge(v, addressed.value).Success?
      case Mapping(_) => addressed.value.Object?
  }

  /** Filling succeeds exactly if every value fits where it is addressed. */
  lemma {:induction false} FillSucceedsExactly<V>(t: Tree<V>, value: Json, merge: Merge<V>)
    ensures Fill(t, value, merge).Some? <==> forall path :: Fits(t, value, merge, path)
    decreases t
  {
    if Fill(t, value, merge).Some? {
      forall path
        ensures Fits(t, value, merge, path)
      {
        if path != [] && t.Mapping? && path[0] in t.children && path[0] in value.fields {
          FillSucceedsExactly(t.children[path[0]], value.fields[path[0]], merge);
          assert Fits(t.children[path[0]], value.fields[path[0]], merge, path[1..]);
        }
      }
    } else {
      var path := Misfit(t, value, merge);
      assert !Fits(t, value, merge, path);
    }
  }

  /** A place where a value does not fit. */
  lemma {:induction false} Misfit<V>(t: Tree<V>, value: Json, merge: Merge<V>) returns (path: seq<string>)
    requires Fill(t, value, merge).None?
    ensures !Fits(t, value, merge, path)
    decreases t
  {
    path := [];
    if t.Mapping? && value.Object? {
      var k :| k in t.children && k in value.fields && Fill(t.children[k], value.fields[k], merge).None?;
      var rest := Misfit(t.children[k], value.fields[k], merge);
      path := [k] + rest;
      assert path[1..] == rest;
    }
  }

  /** Exactly the addressed leaves change, each to what its own value makes of it. */
  lemma {:induction false} OnlyAddressedLeavesChange<V>(t: Tree<V>, value: Json, merge: Merge<V>, path: seq<string>)
    requires Fill(t, value, merge).Some?
    ensures
      var before, after := NodeAt(t, path), NodeAt(Fill(t, value, merge).value, path);
      && (before.Some? <==> after.Some?)
      && (before.Some? ==>
            match JsonAt(value, path)
            case None => after == before
            case Some(json) => Fill(before.value, json, merge) == after)
    decreases |path|
  {
    if path != [] && t.Mapping? && path[0] in t.children && path[0] in value.fields {
      OnlyAddressedLeavesChange(t.children[path[0]], value.fields[path[0]], merge, path[1..]);
    }
  }

  /** A leaf that is addressed holds, after filling, what merging its own value into it gives; every other leaf
      holds what it held. */
  lemma {:induction false} LeafAfterFilling<V>(t: Tree<V>, value: Json, merge: Merge<V>, path: seq<string>, v: V)
    requires Fill(t, value, merge).Some? && NodeAt(t, path) == Some(End(v))
    ensures
      var after := NodeAt(Fill(t, value, merge).value, path);
      match JsonAt(value, path)
      case Some(json) => merge(v, json).Success? && after == Some(End(merge(v, json).value))
      case None => after == Some(End(v))
    decreases |path|
  {
    if path != [] && path[0] in value.fields {
      LeafAfterFilling(t.children[path[0]], value.fields[path[0]], merge, path[1..], v);
    }
  }

  /** Constraints are applied to every leaf, in its place. */
  lemma {:induction false} LeafAfterConstraints<A, B>(t: Tree<A>, configure: A -> B, path: seq<string>, a: A)
    requires NodeAt(t, path) == Some(End(a))
    ensures NodeAt(WithConfig(t, configure), path) == Some(End(configure(a)))
    decreases |path|
  {
    if path != [] {
      LeafAfterConstraints(t.children[path[0]], configure, path[1..], a);
    }
  }

  /** The part of the values that the tree has names for. */
  function Known<V>(t: Tree<V>, value: Json): Json
    decreases t
  {
    if t.End? || !value.Object? then value
    else Object(map k | k in value.fields && k in t.children :: Known(t.children[k], value.fields[k]))
  }

  /** Values without a name in the tree, at any depth, make no difference. */
  lemma {:induction false} UnknownKeysAreIgnored<V>(t: Tree<V>, value: Json, merge: Merge<V>)
    ensures Fill(t, Known(t, value), merge) == Fill(t, value, merge)
    decreases t
  {
    if t.Mapping? && value.Object? {
      forall k | k in t.children && k in value.fields
        ensures Fill(t.children[k], Known(t.children[k], value.fields[k]), merge)
                == Fill(t.children[k], value.fields[k], merge)
      {
        UnknownKeysAreIgnored(t.children[k], value.fields[k], merge);
      }
      var known := Known(t, value).fields;
      assert forall k :: k in t.children ==> (k in known <==> k in value.fields);
      assert forall k :: k in t.children && k in known ==>
          Fill(t.children[k], known[k], merge) == Fill(t.children[k], value.fields[k], merge);
      assert Fill(t, value, merge).Some? <==> Fill(t, Known(t, value), merge).Some?;
      if Fill(t, value, merge).Some? {
        assert Fill(t, Known(t, value), merge).value.children == Fill(t, value, merge).value.children;
      }
    }
  }
}

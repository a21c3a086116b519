/** Agent Control's dynamic configuration and how it is merged from the entries of a remote
    configuration (agent-control/src/agent_control/config.rs, agent-control/src/values/yaml_config.rs). */
module DynamicConfig {
  import opened ConfigTypes
  import opened ConfigRepository
  import opened AgentTypeIds

  type Agents = map<AgentId, AgentTypeId>

  datatype Versions = Versions(version: Option<string>, chart: Option<string>, cdChart: Option<string>)

  datatype Dynamic = Dynamic(agents: Agents, versions: Versions)

  datatype Json = Null | Text(text: string) | Object(fields: map<string, Json>)

  type Document = map<string, Json>

  const AGENTS_KEY := "agents"

  /** Decoding text into a document, a value into an agents map, and a document into versions. */
  datatype Decoders = Decoders(
    document: string -> Option<Document>,
    agents: Json -> Option<Agents>,
    versions: Document -> Option<Versions>)

  // ---- Disjoint unions ----

  /** `try_append` and `try_append_agents`: every key may appear once. */
  function Append<V>(a: map<string, V>, b: map<string, V>): Option<map<string, V>> {
    if a.Keys !! b.Keys then Some(a + b) else None
  }

  /** `try_append` as it is written: keys are inserted one by one, in the order the map yields them,
      and the first duplicate aborts. */
  method TryAppend<V>(a: map<string, V>, b: map<string, V>) returns (r: Option<map<string, V>>)
    ensures r == Append(a, b)
    ensures r.Some? <==> forall key :: key in a ==> key !in b
    ensures r.Some? ==> r.value.Keys == a.Keys + b.Keys
    ensures r.Some? ==> forall key :: key in r.value ==> r.value[key] == if key in a then a[key] else b[key]
  {
    var result := a;
    var todo := b.Keys;
    while todo != {}
      invariant todo <= b.Keys
      invariant a.Keys !! (b.Keys - todo)
      invariant result == a + map key | key in b.Keys - todo :: b[key]
    {
      var key :| key in todo;
      if key in result {
        assert key in a;
        return None;
      }
      result := result[key := b[key]];
      todo := todo - {key};
    }
    assert b.Keys - todo == b.Keys;
    assert result == a + b;
    return Some(result);
  }

  // ---- One entry ----

  datatype Entry = Entry(agents: Agents, rest: Document)

  /** An entry's text, decoded: its agents (none if the key is missing) and its other keys. */
  function ReadEntry(d: Decoders, text: string): Option<Entry> {
    var document := d.document(text);
    if document.None? then None
    else if AGENTS_KEY !in document.value then Some(Entry(map[], document.value))
    else
      var agents := d.agents(document.value[AGENTS_KEY]);
      if agents.None? then None else Some(Entry(agents.value, document.value - {AGENTS_KEY}))
  }

  /** An entry is read exactly if its text is a document and its agents, if it has any, decode; the agents are those
      under `agents`, and the rest is everything else. */
  lemma EntryExactly(d: Decoders, text: string)
    ensures
      var entry, document := ReadEntry(d, text), d.document(text);
      && (entry.Some? <==> document.Some? && ("agents" in document.value ==> d.agents(document.value["agents"]).Some?))
      && (entry.Some? ==>
            && (if "agents" in document.value then Some(entry.value.agents) == d.agents(document.value["agents"])
                else entry.value.agents == map[])
            && entry.value.rest.Keys == document.value.Keys - {"agents"}
            && forall key :: key in entry.value.rest ==> entry.value.rest[key] == document.value[key])
  {
  }

  /** The default configuration serialises to an empty agents map and no version. */
  const DEFAULT_DOCUMENT: Document := map[AGENTS_KEY := Object(map[])]

  /** The loop of `try_from`, over the entries in the order they are yielded. */
  function MergeEntries(d: Decoders, texts: seq<string>): Option<Entry> {
    if texts == [] then Some(Entry(map[], DEFAULT_DOCUMENT))
    else
      var merged := MergeEntries(d, texts[..|texts| - 1]);
      var entry := ReadEntry(d, texts[|texts| - 1]);
      if merged.None? || entry.None? then None
      else
        var agents := Append(merged.value.agents, entry.value.agents);
        var rest := Append(merged.value.rest, entry.value.rest);
        if agents.None? || rest.None? then None else Some(Entry(agents.value, rest.value))
  }

  function Merge(d: Decoders, texts: seq<string>): Option<Dynamic> {
    var merged := MergeEntries(d, texts);
    if merged.None? || d.versions(merged.value.rest).None? then None
    else Some(Dynamic(merged.value.agents, d.versions(merged.value.rest).value))
  }

  /** `AgentControlDynamicConfig::try_from` as it is written. */
  method TryFromRemote(d: Decoders, texts: seq<string>) returns (r: Option<Dynamic>)
    ensures r == Merge(d, texts)
  {
    var mergedAgents: Agents := map[];
    var remaining := DEFAULT_DOCUMENT;
    var i := 0;
    while i < |texts|
      invariant 0 <= i <= |texts|
      invariant MergeEntries(d, texts[..i]) == Some(Entry(mergedAgents, remaining))
    {
      assert texts[..i + 1][..i] == texts[..i];
      var document := d.document(texts[i]);
      if document.None? {
        PrefixFailureIsFailure(d, texts, i + 1);
        return None;
      }
      var yaml := document.value;
      if AGENTS_KEY in yaml {
        var agents := d.agents(yaml[AGENTS_KEY]);
        if agents.None? {
          PrefixFailureIsFailure(d, texts, i + 1);
          return None;
        }
        yaml := yaml - {AGENTS_KEY};
        var appended := TryAppend(mergedAgents, agents.value);
        if appended.None? {
          PrefixFailureIsFailure(d, texts, i + 1);
          return None;
        }
        mergedAgents := appended.value;
      } else {
        assert mergedAgents + map[] == mergedAgents;
      }
      var appended := TryAppend(remaining, yaml);
      if appended.None? {
        PrefixFailureIsFailure(d, texts, i + 1);
        return None;
      }
      remaining := appended.value;
      i := i + 1;
    }
    assert texts[..i] == texts;
    var versions := d.versions(remaining);
    if versions.None? {
      return None;
    }
    return Some(Dynamic(mergedAgents, versions.value));
  }

  lemma {:induction false} PrefixFailureIsFailure(d: Decoders, texts: seq<string>, n: nat)
    requires n <= |texts| && MergeEntries(d, texts[..n]).None?
    ensures MergeEntries(d, texts).None?
    decreases |texts|
  {
    if n == |texts| {
      assert texts[..n] == texts;
    } else {
      assert texts[..|texts| - 1][..n] == texts[..n];
      PrefixFailureIsFailure(d, texts[..|texts| - 1], n);
    }
  }

  // ---- The merge as a disjoint union ----

  predicate Readable(d: Decoders, texts: seq<string>) {
    forall i :: 0 <= i < |texts| ==> ReadEntry(d, texts[i]).Some?
  }

  /** Two entries that share no agent and no other key. */
  predicate Apart(a: Entry, b: Entry) {
    a.agents.Keys !! b.agents.Keys && a.rest.Keys !! b.rest.Keys
  }

  predicate PairwiseDisjoint(d: Decoders, texts: seq<string>)
    requires Readable(d, texts)
  {
    forall i, j :: 0 <= i < j < |texts| ==> Apart(ReadEntry(d, texts[i]).value, ReadEntry(d, texts[j]).value)
  }

  predicate SomeHasAgent(d: Decoders, texts: seq<string>, id: AgentId)
    requires Readable(d, texts)
  {
    exists i :: 0 <= i < |texts| && id in ReadEntry(d, texts[i]).value.agents
  }

  predicate SomeHasKey(d: Decoders, texts: seq<string>, key: string)
    requires Readable(d, texts)
  {
    exists i :: 0 <= i < |texts| && key in ReadEntry(d, texts[i]).value.rest
  }

  /** `merged` holds every binding of every entry, the default document, and nothing else. */
  ghost predicate IsUnion(d: Decoders, texts: seq<string>, merged: Entry)
    requires Readable(d, texts)
  {
    && (forall i :: 0 <= i < |texts| ==> Within(ReadEntry(d, texts[i]).value, merged))
    && (forall id :: id in merged.agents ==> SomeHasAgent(d, texts, id))
    && (forall key :: key in merged.rest ==> key == AGENTS_KEY || SomeHasKey(d, texts, key))
    && Lookup(merged.rest, AGENTS_KEY) == Some(Object(map[]))
  }

  predicate Within(part: Entry, whole: Entry) {
    && (forall id :: id in part.agents ==> id in whole.agents && whole.agents[id] == part.agents[id])
    && (forall key :: key in part.rest ==> key in whole.rest && whole.rest[key] == part.rest[key])
  }

  lemma RestHasNoAgents(d: Decoders, text: string)
    requires ReadEntry(d, text).Some?
    ensures AGENTS_KEY !in ReadEntry(d, text).value.rest
  {
  }

  lemma ApartFromUnion(d: Decoders, texts: seq<string>, merged: Entry, entry: Entry, i: nat)
    requires Readable(d, texts) && IsUnion(d, texts, merged) && Apart(merged, entry) && i < |texts|
    ensures Apart(ReadEntry(d, texts[i]).value, entry)
  {
    assert Within(ReadEntry(d, texts[i]).value, merged);
  }

  lemma ApartFromAll(d: Decoders, texts: seq<string>, merged: Entry, entry: Entry)
    requires Readable(d, texts) && IsUnion(d, texts, merged) && AGENTS_KEY !in entry.rest
    requires forall i :: 0 <= i < |texts| ==> Apart(ReadEntry(d, texts[i]).value, entry)
    ensures Apart(merged, entry)
  {
    forall id | id in merged.agents
      ensures id !in entry.agents
    {
      var i :| 0 <= i < |texts| && id in ReadEntry(d, texts[i]).value.agents;
      assert Apart(ReadEntry(d, texts[i]).value, entry);
    }
    forall key | key in merged.rest
      ensures key !in entry.rest
    {
      if key != AGENTS_KEY {
        var i :| 0 <= i < |texts| && key in ReadEntry(d, texts[i]).value.rest;
        assert Apart(ReadEntry(d, texts[i]).value, entry);
      }
    }
  }

  /** An entry shares nothing with the union exactly if it shares nothing with any part of it. */
  lemma UnionStep(d: Decoders, texts: seq<string>, merged: Entry, entry: Entry)
    requires Readable(d, texts) && IsUnion(d, texts, merged) && AGENTS_KEY !in entry.rest
    ensures Apart(merged, entry) <==> forall i :: 0 <= i < |texts| ==> Apart(ReadEntry(d, texts[i]).value, entry)
  {
    if Apart(merged, entry) {
      forall i | 0 <= i < |texts|
        ensures Apart(ReadEntry(d, texts[i]).value, entry)
      {
        ApartFromUnion(d, texts, merged, entry, i);
      }
    } else if forall i :: 0 <= i < |texts| ==> Apart(ReadEntry(d, texts[i]).value, entry) {
      ApartFromAll(d, texts, merged, entry);
    }
  }

  lemma WithinGrown(part: Entry, merged: Entry, entry: Entry)
    requires Apart(merged, entry) && (Within(part, merged) || part == entry)
    ensures Within(part, Entry(merged.agents + entry.agents, merged.rest + entry.rest))
  {
  }

  lemma SomeOf(d: Decoders, texts: seq<string>, x: string)
    requires texts != [] && Readable(d, texts)
    ensures
      var init, entry := texts[..|texts| - 1], ReadEntry(d, texts[|texts| - 1]).value;
      && (SomeHasAgent(d, init, x) || x in entry.agents ==> SomeHasAgent(d, texts, x))
      && (SomeHasKey(d, init, x) || x in entry.rest ==> SomeHasKey(d, texts, x))
  {
    var init := texts[..|texts| - 1];
    assert forall i :: 0 <= i < |init| ==> texts[i] == init[i];
    if SomeHasAgent(d, init, x) {
      var i :| 0 <= i < |init| && x in ReadEntry(d, init[i]).value.agents;
      assert x in ReadEntry(d, texts[i]).value.agents;
    }
    if SomeHasKey(d, init, x) {
      var i :| 0 <= i < |init| && x in ReadEntry(d, init[i]).value.rest;
      assert x in ReadEntry(d, texts[i]).value.rest;
    }
  }

  lemma UnionGrows(d: Decoders, texts: seq<string>, merged: Entry)
    requires texts != [] && Readable(d, texts)
    requires IsUnion(d, texts[..|texts| - 1], merged)
    requires Apart(merged, ReadEntry(d, texts[|texts| - 1]).value)
    ensures
      var entry := ReadEntry(d, texts[|texts| - 1]).value;
      IsUnion(d, texts, Entry(merged.agents + entry.agents, merged.rest + entry.rest))
  {
    var init, last := texts[..|texts| - 1], |texts| - 1;
    var entry := ReadEntry(d, texts[last]).value;
    var grown := Entry(merged.agents + entry.agents, merged.rest + entry.rest);
    RestHasNoAgents(d, texts[last]);
    forall i | 0 <= i < |texts|
      ensures Within(ReadEntry(d, texts[i]).value, grown)
    {
      assert i < last ==> texts[i] == init[i] && Within(ReadEntry(d, init[i]).value, merged);
      WithinGrown(ReadEntry(d, texts[i]).value, merged, entry);
    }
    forall id | id in grown.agents
      ensures SomeHasAgent(d, texts, id)
    {
      SomeOf(d, texts, id);
    }
    forall key | key in grown.rest && key != AGENTS_KEY
      ensures SomeHasKey(d, texts, key)
    {
      SomeOf(d, texts, key);
    }
  }

  /** Entries merge exactly when all can be read and no two share an agent or another key, and the
      result is their union. */
  lemma {:induction false} MergeEntriesExact(d: Decoders, texts: seq<string>)
    ensures MergeEntries(d, texts).Some? <==> Readable(d, texts) && PairwiseDisjoint(d, texts)
    ensures MergeEntries(d, texts).Some? ==> IsUnion(d, texts, MergeEntries(d, texts).value)
    decreases |texts|
  {
    if texts != [] {
      var init, last := texts[..|texts| - 1], texts[|texts| - 1];
      MergeEntriesExact(d, init);
      MergeStep(d, texts);
      ReadableSplit(d, texts);
      if Readable(d, texts) {
        PairsSplit(d, texts);
        if MergeEntries(d, init).Some? {
          OneMoreEntry(d, texts, MergeEntries(d, init).value);
        }
      }
    }
  }

  lemma ReadableSplit(d: Decoders, texts: seq<string>)
    requires texts != []
    ensures Readable(d, texts) <==> Readable(d, texts[..|texts| - 1]) && ReadEntry(d, texts[|texts| - 1]).Some?
  {
    var init := texts[..|texts| - 1];
    assert forall i :: 0 <= i < |init| ==> texts[i] == init[i];
  }

  lemma MergeStep(d: Decoders, texts: seq<string>)
    requires texts != []
    ensures
      var merged, entry := MergeEntries(d, texts[..|texts| - 1]), ReadEntry(d, texts[|texts| - 1]);
      MergeEntries(d, texts)
      == if merged.Some? && entry.Some? && Apart(merged.value, entry.value) then
           Some(Entry(merged.value.agents + entry.value.agents, merged.value.rest + entry.value.rest))
         else None
  {
  }

  /** One more entry can be merged into a union exactly if it shares nothing with any part of it. */
  lemma OneMoreEntry(d: Decoders, texts: seq<string>, merged: Entry)
    requires texts != [] && Readable(d, texts) && Readable(d, texts[..|texts| - 1])
    requires IsUnion(d, texts[..|texts| - 1], merged) && PairwiseDisjoint(d, texts[..|texts| - 1])
    ensures
      var entry := ReadEntry(d, texts[|texts| - 1]).value;
      && (Apart(merged, entry) <==> PairwiseDisjoint(d, texts))
      && (Apart(merged, entry) ==> IsUnion(d, texts, Entry(merged.agents + entry.agents, merged.rest + entry.rest)))
  {
    var init, last := texts[..|texts| - 1], texts[|texts| - 1];
    RestHasNoAgents(d, last);
    UnionStep(d, init, merged, ReadEntry(d, last).value);
    PairsSplit(d, texts);
    if Apart(merged, ReadEntry(d, last).value) {
      UnionGrows(d, texts, merged);
    }
  }

  lemma PairsSplit(d: Decoders, texts: seq<string>)
    requires texts != [] && Readable(d, texts)
    ensures Readable(d, texts[..|texts| - 1])
    ensures
      var init, entry := texts[..|texts| - 1], ReadEntry(d, texts[|texts| - 1]).value;
      PairwiseDisjoint(d, texts) <==>
        PairwiseDisjoint(d, init) && forall i :: 0 <= i < |init| ==> Apart(ReadEntry(d, init[i]).value, entry)
  {
    var init := texts[..|texts| - 1];
    assert forall i :: 0 <= i < |init| ==> texts[i] == init[i];
  }

  /** The merge succeeds exactly when every entry reads, agent ids and other keys are pairwise disjoint,
      and the union of the other keys decodes; and then it is that union. */
  lemma MergeExact(d: Decoders, texts: seq<string>)
    ensures Merge(d, texts).Some? <==>
              && Readable(d, texts) && PairwiseDisjoint(d, texts)
              && exists union :: IsUnion(d, texts, union) && d.versions(union.rest).Some?
    ensures Merge(d, texts).Some? ==>
              && Readable(d, texts)
              && exists union ::
                   && IsUnion(d, texts, union)
                   && d.versions(union.rest) == Some(Merge(d, texts).value.versions)
                   && Merge(d, texts).value.agents == union.agents
  {
    MergeEntriesExact(d, texts);
    if Readable(d, texts) && PairwiseDisjoint(d, texts) {
      OnlyUnion(d, texts, MergeEntries(d, texts).value);
    }
  }

  lemma OnlyUnion(d: Decoders, texts: seq<string>, merged: Entry)
    requires Readable(d, texts) && IsUnion(d, texts, merged)
    ensures forall union :: IsUnion(d, texts, union) ==> union == merged
  {
    forall union | IsUnion(d, texts, union)
      ensures union == merged
    {
      SameUnion(d, texts, texts, union, merged);
    }
  }

  lemma UnionIsUnique(d: Decoders, a: seq<string>, b: seq<string>, x: Entry, y: Entry)
    requires Readable(d, a) && Readable(d, b) && (forall t :: t in a ==> t in b)
    requires IsUnion(d, a, x) && IsUnion(d, b, y)
    ensures Within(x, y)
  {
    forall id | id in x.agents
      ensures id in y.agents && y.agents[id] == x.agents[id]
    {
      var i :| 0 <= i < |a| && id in ReadEntry(d, a[i]).value.agents;
      assert a[i] in b;
      var j :| 0 <= j < |b| && b[j] == a[i];
      assert Within(ReadEntry(d, a[i]).value, x) && Within(ReadEntry(d, b[j]).value, y);
    }
    forall key | key in x.rest
      ensures key in y.rest && y.rest[key] == x.rest[key]
    {
      if key == AGENTS_KEY {
        assert Lookup(x.rest, key) == Lookup(y.rest, key);
      } else {
        var i :| 0 <= i < |a| && key in ReadEntry(d, a[i]).value.rest;
        assert a[i] in b;
        var j :| 0 <= j < |b| && b[j] == a[i];
        assert Within(ReadEntry(d, a[i]).value, x) && Within(ReadEntry(d, b[j]).value, y);
      }
    }
  }

  const AGENT_CONFIG_PREFIX := "agentConfig"

  /** The names of the entries that hold agent configuration. */
  function AgentConfigs(configs: map<string, string>): set<string> {
    set name | name in configs && AGENT_CONFIG_PREFIX <= name
  }

  /** The entries that are merged are those whose names start with `agentConfig`. */
  lemma AgentConfigsExactly(configs: map<string, string>, name: string)
    ensures name in AgentConfigs(configs) <==> name in configs && |name| >= 11 && name[..11] == "agentConfig"
  {
  }

  function Texts(configs: map<string, string>, order: seq<string>): seq<string>
    requires forall name :: name in order ==> name in configs
  {
    seq(|order|, i requires 0 <= i < |order| => assert order[i] in order; configs[order[i]])
  }

  lemma DisjointSurvives(d: Decoders, configs: map<string, string>, a: seq<string>, b: seq<string>)
    requires Enumerates(a, AgentConfigs(configs)) && Enumerates(b, AgentConfigs(configs))
    requires Readable(d, Texts(configs, b)) && PairwiseDisjoint(d, Texts(configs, b))
    ensures Readable(d, Texts(configs, a)) && PairwiseDisjoint(d, Texts(configs, a))
  {
    var ta, tb := Texts(configs, a), Texts(configs, b);
    forall i | 0 <= i < |ta|
      ensures ReadEntry(d, ta[i]).Some?
    {
      assert a[i] in b;
      var i' :| 0 <= i' < |b| && b[i'] == a[i];
      assert ta[i] == tb[i'];
    }
    forall i, j | 0 <= i < j < |ta|
      ensures ReadEntry(d, ta[i]).value.agents.Keys !! ReadEntry(d, ta[j]).value.agents.Keys
      ensures ReadEntry(d, ta[i]).value.rest.Keys !! ReadEntry(d, ta[j]).value.rest.Keys
    {
      assert a[i] in b && a[j] in b && a[i] != a[j];
      var i' :| 0 <= i' < |b| && b[i'] == a[i];
      var j' :| 0 <= j' < |b| && b[j'] == a[j];
      assert ta[i] == tb[i'] && ta[j] == tb[j'];
      if i' < j' {
        assert ReadEntry(d, tb[i']).value.agents.Keys !! ReadEntry(d, tb[j']).value.agents.Keys;
      } else {
        assert ReadEntry(d, tb[j']).value.agents.Keys !! ReadEntry(d, tb[i']).value.agents.Keys;
      }
    }
  }

  lemma SameTexts(configs: map<string, string>, a: seq<string>, b: seq<string>)
    requires Enumerates(a, AgentConfigs(configs)) && Enumerates(b, AgentConfigs(configs))
    ensures forall t :: t in Texts(configs, a) ==> t in Texts(configs, b)
  {
    forall i | 0 <= i < |a|
      ensures Texts(configs, a)[i] in Texts(configs, b)
    {
      assert a[i] in b;
      var j :| 0 <= j < |b| && b[j] == a[i];
      assert Texts(configs, b)[j] == Texts(configs, a)[i];
    }
  }

  lemma SameUnion(d: Decoders, a: seq<string>, b: seq<string>, x: Entry, y: Entry)
    requires Readable(d, a) && Readable(d, b) && IsUnion(d, a, x) && IsUnion(d, b, y)
    requires (forall t :: t in a ==> t in b) && (forall t :: t in b ==> t in a)
    ensures x == y
  {
    UnionIsUnique(d, a, b, x, y);
    UnionIsUnique(d, b, a, y, x);
    MutuallyWithin(x, y);
  }

  lemma MutuallyWithin(x: Entry, y: Entry)
    requires Within(x, y) && Within(y, x)
    ensures x == y
  {
    assert x.agents == y.agents && x.rest == y.rest;
  }

  /** Success and result of the merge do not depend on the order in which the map yields its entries. */
  lemma MergeIsOrderIndependent(d: Decoders, configs: map<string, string>, a: seq<string>, b: seq<string>)
    requires Enumerates(a, AgentConfigs(configs)) && Enumerates(b, AgentConfigs(configs))
    ensures Merge(d, Texts(configs, a)) == Merge(d, Texts(configs, b))
  {
    var ta, tb := Texts(configs, a), Texts(configs, b);
    MergeEntriesExact(d, ta);
    MergeEntriesExact(d, tb);
    if Readable(d, ta) && PairwiseDisjoint(d, ta) {
      DisjointSurvives(d, configs, b, a);
      SameTexts(configs, a, b);
      SameTexts(configs, b, a);
      SameUnion(d, ta, tb, MergeEntries(d, ta).value, MergeEntries(d, tb).value);
    } else if Readable(d, tb) && PairwiseDisjoint(d, tb) {
      DisjointSurvives(d, configs, a, b);
    }
  }

  // ---- The stored form ----

  /** Agent types are stored by their printed names. */
  function Encode(agents: Agents, show: AgentTypeId -> string): map<AgentId, string> {
    map id | id in agents :: show(agents[id])
  }

  function Decode(stored: map<AgentId, string>, parse: string -> Parse<AgentTypeId>): Option<Agents> {
    if forall id :: id in stored ==> parse(stored[id]).Ok? then Some(map id | id in stored :: parse(stored[id]).value)
    else None
  }

  lemma CodecSurvives(agents: Agents, show: AgentTypeId -> string, parse: string -> Parse<AgentTypeId>)
    requires forall id :: id in agents ==> parse(show(agents[id])) == Ok(agents[id])
    ensures Decode(Encode(agents, show), parse) == Some(agents)
  {
    assert forall id :: id in agents ==> Encode(agents, show)[id] == show(agents[id]);
    assert Decode(Encode(agents, show), parse).value == agents;
  }

  /** Storing an agents map by printed names and reading it back loses nothing. */
  lemma StoredAgentsSurvive(agents: Agents)
    requires forall id :: id in agents ==> ValidId(agents[id])
    ensures Decode(Encode(agents, Print), TryFrom) == Some(agents)
  {
    forall id | id in agents
      ensures TryFrom(Print(agents[id])) == Ok(agents[id])
    {
      PrintedIdParses(agents[id]);
    }
    CodecSurvives(agents, Print, TryFrom);
  }
}

/** Writing a Kubernetes object only if it has changed (agent-control/src/k8s/dynamic_object.rs). */
module DynamicObjects {
  import opened ConfigTypes

  datatype Value = Null | Text(text: string) | Object(fields: map<string, Value>) | Other(id: nat)

  datatype Kind = Kind(apiVersion: string, name: string)

  const SECRET := Kind("v1", "Secret")
  const CONFIG_MAP := Kind("v1", "ConfigMap")

  /** An object whose kind is known at run time. `generated` stands for the metadata that Kubernetes sets. */
  datatype Resource = Resource(
    name: Option<string>,
    namespace: Option<string>,
    kind: Option<Kind>,
    data: Value,
    labels: Option<map<string, string>>,
    annotations: Option<map<string, string>>,
    generated: nat)

  /** Indexing of a JSON value: what is missing reads as null. */
  function Field(data: Value, key: string): Value {
    if data.Object? && key in data.fields then data.fields[key] else Null
  }

  function Fields(value: Value): map<string, Value> {
    if value.Object? then value.fields else map[]
  }

  // ---- Secrets ----

  type Encoder = string -> string

  /** The text entries of a map, encoded. */
  function Encoded(strings: map<string, Value>, encode: Encoder): map<string, Value> {
    map k | k in strings && strings[k].Text? :: Text(encode(strings[k].text))
  }

  /** The data of a Secret: `data`, overridden by the encoded entries of `stringData`. */
  function SecretData(data: Value, encode: Encoder): map<string, Value> {
    Fields(Field(data, "data")) + Encoded(Fields(Field(data, "stringData")), encode)
  }

  /** The entries are added one by one, in any order. */
  method Extend(data: map<string, Value>, strings: map<string, Value>, encode: Encoder)
    returns (merged: map<string, Value>)
    ensures merged == data + Encoded(strings, encode)
  {
    merged := data;
    var remaining := strings.Keys;
    ghost var done: map<string, Value> := map[];
    while remaining != {}
      invariant forall k :: k in remaining ==> k in strings && k !in done
      invariant forall k :: k in strings && k !in remaining ==> k in done
      invariant forall k :: k in done ==> k in strings && done[k] == strings[k]
      invariant merged == data + Encoded(done, encode)
      decreases |remaining|
    {
      var key :| key in remaining;
      var value := strings[key];
      AlsoEncoded(data, done, key, value, encode);
      if value.Text? {
        merged := merged[key := Text(encode(value.text))];
      }
      done := done[key := value];
      remaining := remaining - {key};
    }
    assert done == strings;
  }

  lemma AlsoEncoded(data: map<string, Value>, done: map<string, Value>, key: string, value: Value, encode: Encoder)
    requires key !in done
    ensures data + Encoded(done[key := value], encode)
         == if value.Text? then (data + Encoded(done, encode))[key := Text(encode(value.text))]
           else data + Encoded(done, encode)
  {
    assert Encoded(done[key := value], encode)
        == if value.Text? then Encoded(done, encode)[key := Text(encode(value.text))] else Encoded(done, encode);
  }

  /** `secrets_data_are_equal` */
  method SecretsDataAreEqual(manifest: Resource, stored: Resource, encode: Encoder) returns (equal: bool)
    ensures equal <==> SecretData(manifest.data, encode) == Fields(Field(stored.data, "data"))
  {
    var merged := Extend(Fields(Field(manifest.data, "data")), Fields(Field(manifest.data, "stringData")), encode);
    var data := Field(stored.data, "data");
    equal := if data.Object? then merged == data.fields else merged == map[];
  }

  /** The data of a Secret, key by key: a text under `stringData` counts, encoded, and else what is under `data`. */
  lemma SecretDataExactly(data: Value, encode: Encoder, key: string)
    ensures
      var merged, entry := SecretData(data, encode), Field(Field(data, "stringData"), key);
      && (entry.Text? ==> key in merged && merged[key] == Text(encode(entry.text)))
      && (!entry.Text? ==>
            && (key in merged <==> Field(data, "data").Object? && key in Field(data, "data").fields)
            && (key in merged ==> merged[key] == Field(data, "data").fields[key]))
  {
  }

  // ---- What is compared ----

  datatype Content = Secret(data: map<string, Value>) | ConfigMap(plain: Value, binaryData: Value) | Spec(spec: Value)

  /** What Agent Control sets up in an object. */
  datatype View = View(content: Content, labels: Option<map<string, string>>, annotations: Option<map<string, string>>)

  /** What an object in the cluster of this kind shows. */
  function ViewOf(kind: Kind, stored: Resource): View {
    View(
      if kind == SECRET then Secret(Fields(Field(stored.data, "data")))
      else if kind == CONFIG_MAP then ConfigMap(Field(stored.data, "data"), Field(stored.data, "binaryData"))
      else Spec(Field(stored.data, "spec")),
      stored.labels, stored.annotations)
  }

  /** What a manifest asks for. */
  function Wanted(kind: Kind, manifest: Resource, encode: Encoder): View {
    var view := ViewOf(kind, manifest);
    if kind == SECRET then view.(content := Secret(SecretData(manifest.data, encode))) else view
  }

  /** `object_contents_are_equal` */
  predicate ContentsAreEqual(manifest: Resource, stored: Resource, encode: Encoder) {
    if manifest.kind == Some(SECRET) then
      SecretData(manifest.data, encode) == Fields(Field(stored.data, "data"))
    else if manifest.kind == Some(CONFIG_MAP) then
      && Field(manifest.data, "data") == Field(stored.data, "data")
      && Field(manifest.data, "binaryData") == Field(stored.data, "binaryData")
    else Field(manifest.data, "spec") == Field(stored.data, "spec")
  }

  // ---- The cluster ----

  /** The objects of one kind, by namespace and name. */
  type Objects = map<(string, string), Resource>

  /** How the API server turns what is written into what it stores. */
  type Admission = Resource -> Resource

  datatype Manager = Manager(kind: Kind, namespace: string, encode: Encoder, admit: Admission)

  /** `has_changed`, with a cache that is up to date. */
  function HasChanged(m: Manager, objects: Objects, manifest: Resource): Attempt<bool> {
    if manifest.name.None? then Failure("missing name")
    else if (m.namespace, manifest.name.value) !in objects then Success(true)
    else
      var stored := objects[(m.namespace, manifest.name.value)];
      Success(
        || !ContentsAreEqual(manifest, stored, m.encode)
        || stored.labels != manifest.labels
        || stored.annotations != manifest.annotations)
  }

  /** What `apply` writes over an existing object. */
  function Modified(stored: Resource, manifest: Resource): Resource {
    stored.(data := manifest.data, labels := manifest.labels, annotations := manifest.annotations)
  }

  datatype Outcome = Outcome(objects: Objects, error: Option<string>)

  /** `apply`; `ok` tells whether the API calls succeed. */
  function Apply(m: Manager, objects: Objects, manifest: Resource, ok: bool): Outcome {
    if manifest.name.None? then Outcome(objects, Some("missing name"))
    else if manifest.namespace.None? then Outcome(objects, Some("missing namespace"))
    else if !ok then Outcome(objects, Some("API error"))
    else
      var key := (manifest.namespace.value, manifest.name.value);
      var written := if key in objects then Modified(objects[key], manifest) else manifest;
      Outcome(objects[key := m.admit(written)], None)
  }

  /** `apply_if_changed` */
  function ApplyIfChanged(m: Manager, objects: Objects, manifest: Resource, ok: bool): Outcome {
    match HasChanged(m, objects, manifest)
    case Failure(e) => Outcome(objects, Some(e))
    case Success(changed) => if changed then Apply(m, objects, manifest, ok) else Outcome(objects, None)
  }

  /** The manifests a manager is used for: those of its kind and namespace. */
  predicate Concerns(m: Manager, manifest: Resource) {
    manifest.kind == Some(m.kind) && manifest.namespace == Some(m.namespace) && manifest.name.Some?
  }

  function Key(m: Manager, manifest: Resource): (string, string)
    requires Concerns(m, manifest)
  {
    (m.namespace, manifest.name.value)
  }

  /** Nothing is to be done exactly when the object exists and shows what the manifest asks for. */
  lemma UnchangedExactly(m: Manager, objects: Objects, manifest: Resource)
    requires Concerns(m, manifest)
    ensures
      HasChanged(m, objects, manifest) == Success(false) <==>
        && Key(m, manifest) in objects
        && ViewOf(m.kind, objects[Key(m, manifest)]) == Wanted(m.kind, manifest, m.encode)
    ensures HasChanged(m, objects, manifest).Success?
  {
  }

  /** What counts as unchanged, kind by kind and field by field. */
  lemma UnchangedByKind(m: Manager, objects: Objects, manifest: Resource)
    requires Concerns(m, manifest) && (m.namespace, manifest.name.value) in objects
    ensures
      var stored := objects[(m.namespace, manifest.name.value)];
      HasChanged(m, objects, manifest) == Success(false) <==>
        && stored.labels == manifest.labels && stored.annotations == manifest.annotations
        && (m.kind == Kind("v1", "Secret") ==>
              SecretData(manifest.data, m.encode) == Fields(Field(stored.data, "data")))
        && (m.kind == Kind("v1", "ConfigMap") ==>
              && Field(manifest.data, "data") == Field(stored.data, "data")
              && Field(manifest.data, "binaryData") == Field(stored.data, "binaryData"))
        && (m.kind != Kind("v1", "Secret") && m.kind != Kind("v1", "ConfigMap") ==>
              Field(manifest.data, "spec") == Field(stored.data, "spec"))
  {
  }

  /** What a write stores: over an existing object it replaces data, labels and annotations and keeps everything else;
      else it creates the manifest. It fails for a manifest without a name or namespace, and if the calls do. */
  lemma ApplyExactly(m: Manager, objects: Objects, manifest: Resource, ok: bool)
    ensures
      var after := Apply(m, objects, manifest, ok);
      && (after.error.None? <==> manifest.name.Some? && manifest.namespace.Some? && ok)
      && (after.error.Some? ==> after.objects == objects)
      && (after.error.None? ==>
            var key := (manifest.namespace.value, manifest.name.value);
            && after.objects - {key} == objects - {key} && key in after.objects
            && (key !in objects ==> after.objects[key] == m.admit(manifest))
            && (key in objects ==>
                  exists written ::
                    && after.objects[key] == m.admit(written)
                    && written.data == manifest.data && written.labels == manifest.labels
                    && written.annotations == manifest.annotations
                    && written.name == objects[key].name && written.namespace == objects[key].namespace
                    && written.kind == objects[key].kind && written.generated == objects[key].generated))
  {
    if manifest.name.Some? && manifest.namespace.Some? && ok {
      var key := (manifest.namespace.value, manifest.name.value);
      if key in objects {
        assert Apply(m, objects, manifest, ok).objects[key] == m.admit(Modified(objects[key], manifest));
      }
    }
  }

  /** The server keeps what a manifest asks for. */
  predicate Keeps(m: Manager, written: Resource) {
    ViewOf(m.kind, m.admit(written)) == Wanted(m.kind, written, m.encode)
  }

  /** After a write the object counts as unchanged exactly if the server kept what was asked for;
      otherwise it is written again each time. */
  lemma QuietAfterApplyExactly(m: Manager, objects: Objects, manifest: Resource)
    requires Concerns(m, manifest)
    ensures
      var key := Key(m, manifest);
      var written := if key in objects then Modified(objects[key], manifest) else manifest;
      HasChanged(m, Apply(m, objects, manifest, true).objects, manifest) == Success(false) <==> Keeps(m, written)
  {
    UnchangedExactly(m, Apply(m, objects, manifest, true).objects, manifest);
  }

  // ---- A server that keeps what it is given ----

  /** Secrets are stored as `data` only; all else is stored as written, with fresh generated metadata. */
  function Admit(kind: Kind, encode: Encoder, version: nat, written: Resource): Resource {
    var stored := written.(generated := version);
    if kind != SECRET || !written.data.Object? then stored
    else
      var merged := Object(SecretData(written.data, encode));
      stored.(data := Object((written.data.fields - {"stringData"})["data" := merged]))
  }

  ghost predicate Faithful(m: Manager) {
    forall written :: m.admit(written) == Admit(m.kind, m.encode, m.admit(written).generated, written)
  }

  lemma FaithfulServerKeeps(m: Manager, written: Resource)
    requires Faithful(m)
    ensures Keeps(m, written)
  {
    assert m.admit(written) == Admit(m.kind, m.encode, m.admit(written).generated, written);
    if m.kind == SECRET && !written.data.Object? {
      assert SecretData(written.data, m.encode) == map[];
    }
  }

  /** Without an error the object shows what the manifest asks for, whatever was there before; nothing else
      changes; and an unchanged object is not written. */
  lemma ApplyIfChangedAchieves(m: Manager, objects: Objects, manifest: Resource, ok: bool)
    requires Faithful(m) && Concerns(m, manifest)
    ensures
      var key, after := Key(m, manifest), ApplyIfChanged(m, objects, manifest, ok);
      && (after.error.None? ==>
            && key in after.objects
            && ViewOf(m.kind, after.objects[key]) == Wanted(m.kind, manifest, m.encode)
            && HasChanged(m, after.objects, manifest) == Success(false))
      && (after.error.Some? ==> after.objects == objects)
      && after.objects - {key} == objects - {key}
      && ApplyIfChanged(m, after.objects, manifest, ok).objects == after.objects
  {
    var key := Key(m, manifest);
    UnchangedExactly(m, objects, manifest);
    if HasChanged(m, objects, manifest) == Success(true) && ok {
      FaithfulServerKeeps(m, if key in objects then Modified(objects[key], manifest) else manifest);
      QuietAfterApplyExactly(m, objects, manifest);
    }
  }

  // ---- Refinement over whole runs ----

  /** Two clusters show the same. */
  predicate SameViews(kind: Kind, a: Objects, b: Objects) {
    a.Keys == b.Keys && forall key :: key in a ==> ViewOf(kind, a[key]) == ViewOf(kind, b[key])
  }

  lemma StepRefines(m: Manager, a: Objects, b: Objects, manifest: Resource, ok: bool)
    requires Faithful(m) && Concerns(m, manifest) && SameViews(m.kind, a, b)
    ensures SameViews(m.kind, Apply(m, a, manifest, ok).objects, ApplyIfChanged(m, b, manifest, ok).objects)
    ensures Apply(m, a, manifest, ok).error.None? ==> ApplyIfChanged(m, b, manifest, ok).error.None?
  {
    var key := Key(m, manifest);
    UnchangedExactly(m, b, manifest);
    if ok {
      FaithfulServerKeeps(m, if key in a then Modified(a[key], manifest) else manifest);
      FaithfulServerKeeps(m, if key in b then Modified(b[key], manifest) else manifest);
    }
  }

  /** One thing that happens to the cluster: a manifest is applied, or somebody else changes an object. */
  datatype Event = Manifest(manifest: Resource, ok: bool) | Edit(key: (string, string), resource: Option<Resource>)

  function Edited(objects: Objects, key: (string, string), resource: Option<Resource>): Objects {
    if resource.Some? then objects[key := resource.value] else objects - {key}
  }

  predicate AllConcern(m: Manager, events: seq<Event>) {
    forall e :: e in events && e.Manifest? ==> Concerns(m, e.manifest)
  }

  function AlwaysApplied(m: Manager, objects: Objects, events: seq<Event>): Objects
    decreases |events|
  {
    if events == [] then objects
    else
      var before := AlwaysApplied(m, objects, events[..|events| - 1]);
      match events[|events| - 1]
      case Manifest(manifest, ok) => Apply(m, before, manifest, ok).objects
      case Edit(key, resource) => Edited(before, key, resource)
  }

  function AppliedIfChanged(m: Manager, objects: Objects, events: seq<Event>): Objects
    decreases |events|
  {
    if events == [] then objects
    else
      var before := AppliedIfChanged(m, objects, events[..|events| - 1]);
      match events[|events| - 1]
      case Manifest(manifest, ok) => ApplyIfChanged(m, before, manifest, ok).objects
      case Edit(key, resource) => Edited(before, key, resource)
  }

  /** Over any history of manifests, failed calls and foreign edits, writing only what has changed shows the
      same cluster as writing always. */
  lemma {:induction false} SkippingRefinesWriting(m: Manager, objects: Objects, events: seq<Event>)
    requires Faithful(m) && AllConcern(m, events)
    ensures SameViews(m.kind, AlwaysApplied(m, objects, events), AppliedIfChanged(m, objects, events))
    decreases |events|
  {
    if events != [] {
      var earlier, last := events[..|events| - 1], events[|events| - 1];
      SkippingRefinesWriting(m, objects, earlier);
      if last.Manifest? {
        StepRefines(m, AlwaysApplied(m, objects, earlier), AppliedIfChanged(m, objects, earlier),
                    last.manifest, last.ok);
      }
    }
  }

  // ---- What is not compared ----

  /** A field that is stored as it is written; a Secret's two data fields are stored merged. */
  predicate StoredAsWritten(kind: Kind, field: string) {
    kind == SECRET ==> field != "data" && field != "stringData"
  }

  lemma WrittenField(m: Manager, written: Resource, field: string)
    requires Faithful(m) && StoredAsWritten(m.kind, field)
    ensures Field(m.admit(written).data, field) == Field(written.data, field)
  {
    assert m.admit(written) == Admit(m.kind, m.encode, m.admit(written).generated, written);
  }

  /** For an object of any kind, a field ends as an unconditional write would leave it if and only if something
      that is compared has changed, which writes all fields, or the field was so already. */
  lemma FieldIsWrittenExactly(m: Manager, objects: Objects, manifest: Resource, field: string)
    requires Faithful(m) && Concerns(m, manifest) && Key(m, manifest) in objects && StoredAsWritten(m.kind, field)
    ensures
      var key := Key(m, manifest);
      Field(ApplyIfChanged(m, objects, manifest, true).objects[key].data, field)
      == Field(Apply(m, objects, manifest, true).objects[key].data, field) <==>
        || HasChanged(m, objects, manifest) == Success(true)
        || Field(objects[key].data, field) == Field(manifest.data, field)
  {
    UnchangedExactly(m, objects, manifest);
    WrittenField(m, Modified(objects[Key(m, manifest)], manifest), field);
  }

  const ROLE := Kind("rbac.authorization.k8s.io/v1", "Role")

  /** A Role has no `spec`, so a change to its rules is written exactly if its labels or annotations change
      as well. */
  lemma RoleRulesExactly(m: Manager, objects: Objects, manifest: Resource)
    requires Faithful(m) && Concerns(m, manifest) && m.kind == ROLE && Key(m, manifest) in objects
    requires Field(manifest.data, "spec") == Null && Field(objects[Key(m, manifest)].data, "spec") == Null
    requires Field(objects[Key(m, manifest)].data, "rules") != Field(manifest.data, "rules")
    ensures
      var stored, key := objects[Key(m, manifest)], Key(m, manifest);
      var after := ApplyIfChanged(m, objects, manifest, true);
      && after.error.None?
      && (Field(after.objects[key].data, "rules") == Field(manifest.data, "rules") <==>
            stored.labels != manifest.labels || stored.annotations != manifest.annotations)
  {
    UnchangedExactly(m, objects, manifest);
    WrittenField(m, Modified(objects[Key(m, manifest)], manifest), "rules");
    FieldIsWrittenExactly(m, objects, manifest, "rules");
  }

  // ---- The code that changes the cluster ----

  class Cluster {
    const manager: Manager
    var objects: Objects

    constructor (manager: Manager, objects: Objects)
      ensures this.manager == manager && this.objects == objects
    {
      this.manager := manager;
      this.objects := objects;
    }

    method ApplyObject(manifest: Resource, ok: bool) returns (error: Option<string>)
      modifies this
      ensures Outcome(objects, error) == Apply(manager, old(objects), manifest, ok)
    {
      if manifest.name.None? {
        return Some("missing name");
      }
      if manifest.namespace.None? {
        return Some("missing namespace");
      }
      if !ok {
        return Some("API error");
      }
      var key := (manifest.namespace.value, manifest.name.value);
      var written := manifest;
      if key in objects {
        written := objects[key];
        written := written.(data := manifest.data);
        written := written.(labels := manifest.labels);
        written := written.(annotations := manifest.annotations);
      }
      objects := objects[key := manager.admit(written)];
      error := None;
    }

    method ContentHasChanged(manifest: Resource, stored: Resource) returns (changed: bool)
      ensures changed <==> !ContentsAreEqual(manifest, stored, manager.encode)
    {
      if manifest.kind == Some(SECRET) {
        var equal := SecretsDataAreEqual(manifest, stored, manager.encode);
        return !equal;
      }
      if manifest.kind == Some(CONFIG_MAP) {
        return Field(manifest.data, "data") != Field(stored.data, "data")
               || Field(manifest.data, "binaryData") != Field(stored.data, "binaryData");
      }
      return Field(manifest.data, "spec") != Field(stored.data, "spec");
    }

    /** A write is due exactly unless the object exists and shows what the manifest asks for. */
    method ObjectHasChanged(manifest: Resource) returns (changed: Attempt<bool>)
      ensures changed == HasChanged(manager, objects, manifest)
      ensures Concerns(manager, manifest) ==>
                (changed == Success(false) <==>
                   && Key(manager, manifest) in objects
                   && ViewOf(manager.kind, objects[Key(manager, manifest)])
                      == Wanted(manager.kind, manifest, manager.encode))
    {
      if Concerns(manager, manifest) {
        UnchangedExactly(manager, objects, manifest);
      }
      if manifest.name.None? {
        return Failure("missing name");
      }
      var key := (manager.namespace, manifest.name.value);
      if key !in objects {
        return Success(true);
      }
      var stored := objects[key];
      var differs := ContentHasChanged(manifest, stored);
      if differs || stored.labels != manifest.labels {
        return Success(true);
      }
      return Success(stored.annotations != manifest.annotations);
    }

    method ApplyObjectIfChanged(manifest: Resource, ok: bool) returns (error: Option<string>)
      modifies this
      ensures Outcome(objects, error) == ApplyIfChanged(manager, old(objects), manifest, ok)
    {
      var changed := ObjectHasChanged(manifest);
      if changed.Failure? {
        return Some(changed.message);
      }
      if !changed.value {
        return None;
      }
      error := ApplyObject(manifest, ok);
    }
  }
}

/** The values shared by every component: configuration hashes, application states, stored remote
    configurations and the status reports sent over OpAMP. */
module ConfigTypes {

  datatype Option<+T> = None | Some(value: T)

  /** The outcome of a fallible collaborator; a failure carries its rendered message. */
  datatype Attempt<+T> = Success(value: T) | Failure(message: string)

  type AgentId = string
  type Hash = string

  predicate Distinct(order: seq<string>) {
    forall i, j :: 0 <= i < j < |order| ==> order[i] != order[j]
  }

  /** `order` is one of the orders in which a map with these keys may be walked. */
  ghost predicate Enumerates(order: seq<string>, keys: set<string>) {
    Distinct(order) && forall key :: key in order <==> key in keys
  }

  /** A YAML document, kept as its text. */
  type Yaml = string

  datatype ConfigState = Applying | Applied | Failed(message: string) {
    /** Applying a configuration ends in one of the two terminal states. */
    predicate Terminal() {
      !Applying?
    }
  }

  /** A remote configuration as it is persisted. */
  datatype RemoteConfig = RemoteConfig(yaml: Yaml, hash: Hash, state: ConfigState)

  /** One `RemoteConfigStatus` message handed to the OpAMP client. */
  datatype StatusReport = StatusReport(hash: Hash, state: ConfigState)

  /** The state most recently reported for `hash`, if it was ever reported. */
  function Latest(reports: seq<StatusReport>, hash: Hash): Option<ConfigState> {
    if reports == [] then None
    else
      var last := reports[|reports| - 1];
      if last.hash == hash then Some(last.state) else Latest(reports[..|reports| - 1], hash)
  }

  /** Sending a report changes what is known about its own hash and about no other. */
  lemma LatestAfterReport(reports: seq<StatusReport>, report: StatusReport)
    ensures Latest(reports + [report], report.hash) == Some(report.state)
    ensures forall hash :: hash != report.hash ==> Latest(reports + [report], hash) == Latest(reports, hash)
  {
    assert (reports + [report])[..|reports|] == reports;
  }

  lemma Regroup<T>(a: seq<T>, b: seq<T>, c: seq<T>)
    ensures a + b + c == a + (b + c)
  {
  }

  /** A string splits in one way only at its last separator. */
  lemma LastSeparator(a: string, b: string, c: string, d: string, separator: char)
    requires a + [separator] + b == c + [separator] + d
    requires separator !in b && separator !in d
    ensures a == c && b == d
  {
    var s := a + [separator] + b;
    assert s[|a|] == separator && s[|c|] == separator;
    assert forall k :: |a| < k < |s| ==> s[k] == b[k - |a| - 1];
    assert forall k :: |c| < k < |s| ==> s[k] == d[k - |c| - 1];
    assert |a| == |c|;
    assert s[..|a|] == a && s[..|a|] == c;
    assert s[|a| + 1..] == b && s[|a| + 1..] == d;
  }
}

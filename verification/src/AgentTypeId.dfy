/** Agent type identifiers `<namespace>/<name>:<version>` and the OCI tag built from them
    (agent-control/src/agent_type/agent_type_id.rs and agent-control/src/agent_type/oci.rs). */
module AgentTypeIds {
  import opened ConfigTypes

  const NAME_NAMESPACE_MAX_LENGTH: nat := 64
  const VERSION_MAX_LENGTH: nat := 14
  const U64_MAX: nat := 0xFFFF_FFFF_FFFF_FFFF

  datatype Version = Version(major: nat, minor: nat, patch: nat)

  datatype AgentTypeId = AgentTypeId(namespace: string, name: string, version: Version)

  datatype NameFormatError = Empty | TooLong(length: nat) | InvalidStart | InvalidEnd | InvalidCharacter(c: char)

  datatype IdError =
    | InvalidNamespace(reason: NameFormatError)
    | InvalidName(reason: NameFormatError)
    | InvalidVersion
    | ForbiddenSemVer
    | VersionTooLong(length: nat)

  datatype Parse<+T> = Ok(value: T) | Err(error: IdError)

  // ---- Decimal numbers ----

  predicate IsDigit(c: char) {
    '0' <= c <= '9'
  }

  function DigitValue(c: char): nat
    requires IsDigit(c)
  {
    c as int - '0' as int
  }

  function Digit(d: nat): (c: char)
    requires d < 10
    ensures IsDigit(c) && DigitValue(c) == d
  {
    ('0' as int + d) as char
  }

  predicate AllDigits(s: string) {
    forall c :: c in s ==> IsDigit(c)
  }

  function PrintNumber(n: nat): string {
    if n < 10 then [Digit(n)] else PrintNumber(n / 10) + [Digit(n % 10)]
  }

  function Value(s: string): nat
    requires AllDigits(s)
  {
    if s == [] then 0
    else
      assert s[|s| - 1] in s;
      10 * Value(s[..|s| - 1]) + DigitValue(s[|s| - 1])
  }

  function Power10(n: nat): nat {
    if n == 0 then 1 else 10 * Power10(n - 1)
  }

  /** A numeric identifier of a semantic version: digits, no leading zero, within 64 bits. */
  function ParseNumber(s: string): Option<nat> {
    if s == [] || !AllDigits(s) || (|s| > 1 && s[0] == '0') || Value(s) > U64_MAX then None else Some(Value(s))
  }

  lemma {:induction false} PrintNumberShape(n: nat)
    ensures PrintNumber(n) != [] && AllDigits(PrintNumber(n)) && Value(PrintNumber(n)) == n
    ensures |PrintNumber(n)| > 1 ==> PrintNumber(n)[0] != '0'
    ensures n != 0 ==> PrintNumber(n)[0] != '0'
  {
    if n >= 10 {
      PrintNumberShape(n / 10);
      var s := PrintNumber(n);
      assert s[..|s| - 1] == PrintNumber(n / 10);
    } else {
      assert [Digit(n)][..0] == [];
    }
  }

  lemma PrintStep(n: nat, d: nat)
    requires n > 0 && d < 10
    ensures PrintNumber(10 * n + d) == PrintNumber(n) + [Digit(d)]
  {
    assert (10 * n + d) / 10 == n && (10 * n + d) % 10 == d;
  }

  lemma ValueOfOne(s: string)
    requires |s| == 1 && AllDigits(s)
    ensures Value(s) == DigitValue(s[0]) < 10 && PrintNumber(Value(s)) == s
  {
    assert s[0] in s && s[..0] == [] && Value(s[..0]) == 0;
    assert Digit(DigitValue(s[0])) == s[0];
  }

  lemma {:induction false} PrintOfValue(s: string)
    requires s != [] && AllDigits(s) && (|s| > 1 ==> s[0] != '0')
    ensures PrintNumber(Value(s)) == s
    ensures s[0] != '0' ==> Value(s) > 0
  {
    if |s| == 1 {
      ValueOfOne(s);
    } else {
      var init, last := s[..|s| - 1], s[|s| - 1];
      assert last in s && init[0] == s[0];
      PrintOfValue(init);
      assert Value(s) == 10 * Value(init) + DigitValue(last);
      PrintStep(Value(init), DigitValue(last));
      assert s == init + [last] && Digit(DigitValue(last)) == last;
    }
  }

  lemma {:induction false} ValueBound(s: string)
    requires AllDigits(s)
    ensures Value(s) < Power10(|s|)
  {
    if s != [] {
      assert s[|s| - 1] in s;
      ValueBound(s[..|s| - 1]);
    }
  }

  lemma {:induction false} Power10Monotone(a: nat, b: nat)
    requires a <= b
    ensures Power10(a) <= Power10(b)
  {
    if a < b {
      Power10Monotone(a, b - 1);
    }
  }

  lemma Power10Of14()
    ensures Power10(14) == 100_000_000_000_000
  {
    assert Power10(4) == 10_000;
    assert Power10(8) == 100_000_000;
    assert Power10(12) == 1_000_000_000_000;
  }

  /** A number that fits in a version string cannot overflow 64 bits. */
  lemma ShortNumbersFit(s: string)
    requires AllDigits(s) && |s| <= VERSION_MAX_LENGTH
    ensures Value(s) <= U64_MAX
  {
    ValueBound(s);
    Power10Monotone(|s|, 14);
    Power10Of14();
  }

  // ---- Splitting ----

  function IndexOf(s: string, c: char): (i: nat)
    ensures i <= |s|
    ensures c !in s[..i]
    ensures i < |s| ==> s[i] == c
  {
    if s == [] || s[0] == c then 0
    else
      var j := IndexOf(s[1..], c);
      assert s[..j + 1] == [s[0]] + s[1..][..j];
      j + 1
  }

  /** `split_once(c).unwrap_or_default()` */
  function SplitOnce(s: string, c: char): (string, string) {
    var i := IndexOf(s, c);
    if i < |s| then (s[..i], s[i + 1..]) else ("", "")
  }

  lemma IndexOfIsFirst(s: string, c: char, i: nat)
    requires i < |s| && s[i] == c && c !in s[..i]
    ensures IndexOf(s, c) == i
  {
    var j := IndexOf(s, c);
    assert forall k :: 0 <= k < i ==> s[k] in s[..i];
    assert forall k :: 0 <= k < j ==> s[k] in s[..j];
  }

  lemma SplitOfJoin(a: string, c: char, b: string)
    requires c !in a
    ensures SplitOnce(a + [c] + b, c) == (a, b)
  {
    var s := a + [c] + b;
    assert s[..|a|] == a && s[|a| + 1..] == b;
    IndexOfIsFirst(s, c, |a|);
  }

  lemma JoinOfSplit(s: string, c: char)
    requires c in s
    ensures c !in SplitOnce(s, c).0
    ensures SplitOnce(s, c).0 + [c] + SplitOnce(s, c).1 == s
  {
    var i := IndexOf(s, c);
    assert s[..|s|] == s;
    assert i < |s|;
  }

  // ---- Versions ----

  function PrintVersion(v: Version): string {
    PrintNumber(v.major) + "." + PrintNumber(v.minor) + "." + PrintNumber(v.patch)
  }

  /** The semantic-version grammar on strings of digits and dots: exactly three numeric identifiers. */
  function ParseSemVer(s: string): Option<Version> {
    if '.' !in s then None
    else
      var (major, rest) := SplitOnce(s, '.');
      if '.' !in rest then None
      else
        var (minor, patch) := SplitOnce(rest, '.');
        if ParseNumber(major).None? || ParseNumber(minor).None? || ParseNumber(patch).None? then None
        else Some(Version(ParseNumber(major).value, ParseNumber(minor).value, ParseNumber(patch).value))
  }

  function ParseVersion(s: string): Parse<Version> {
    if exists c :: c in s && !IsDigit(c) && c != '.' then Err(ForbiddenSemVer)
    else if |s| > VERSION_MAX_LENGTH then Err(VersionTooLong(|s|))
    else if ParseSemVer(s).None? then Err(InvalidVersion)
    else Ok(ParseSemVer(s).value)
  }

  predicate ValidVersion(v: Version) {
    |PrintVersion(v)| <= VERSION_MAX_LENGTH
  }

  lemma ParseNumberExact(s: string, n: nat)
    requires |s| <= VERSION_MAX_LENGTH
    ensures ParseNumber(s) == Some(n) <==> s == PrintNumber(n)
  {
    PrintNumberShape(n);
    if AllDigits(s) {
      ShortNumbersFit(s);
      if s != [] && (|s| > 1 ==> s[0] != '0') {
        PrintOfValue(s);
      }
    }
  }

  lemma DigitsHaveNo(s: string, c: char)
    requires AllDigits(s) && !IsDigit(c)
    ensures c !in s
  {
  }

  lemma PrintVersionParts(v: Version)
    ensures SplitOnce(PrintVersion(v), '.').0 == PrintNumber(v.major)
    ensures SplitOnce(SplitOnce(PrintVersion(v), '.').1, '.') == (PrintNumber(v.minor), PrintNumber(v.patch))
    ensures '.' in PrintVersion(v) && '.' in SplitOnce(PrintVersion(v), '.').1
    ensures forall c :: c in PrintVersion(v) ==> IsDigit(c) || c == '.'
  {
    PrintNumberShape(v.major);
    PrintNumberShape(v.minor);
    PrintNumberShape(v.patch);
    DigitsHaveNo(PrintNumber(v.major), '.');
    DigitsHaveNo(PrintNumber(v.minor), '.');
    var rest := PrintNumber(v.minor) + ['.'] + PrintNumber(v.patch);
    assert PrintVersion(v) == PrintNumber(v.major) + ['.'] + rest;
    SplitOfJoin(PrintNumber(v.major), '.', rest);
    SplitOfJoin(PrintNumber(v.minor), '.', PrintNumber(v.patch));
    assert rest[|PrintNumber(v.minor)|] == '.';
  }

  lemma PrintedVersionParses(v: Version)
    requires ValidVersion(v)
    ensures ParseVersion(PrintVersion(v)) == Ok(v)
  {
    PrintVersionParts(v);
    ParseNumberExact(PrintNumber(v.major), v.major);
    ParseNumberExact(PrintNumber(v.minor), v.minor);
    ParseNumberExact(PrintNumber(v.patch), v.patch);
  }

  lemma PrintOfParts(v: Version, major: string, minor: string, patch: string)
    requires PrintNumber(v.major) == major && PrintNumber(v.minor) == minor && PrintNumber(v.patch) == patch
    ensures PrintVersion(v) == major + ['.'] + (minor + ['.'] + patch)
  {
  }

  lemma ParsedVersionPrints(s: string)
    requires ParseVersion(s).Ok?
    ensures PrintVersion(ParseVersion(s).value) == s
  {
    var v := ParseVersion(s).value;
    var (major, rest) := SplitOnce(s, '.');
    var (minor, patch) := SplitOnce(rest, '.');
    JoinOfSplit(s, '.');
    JoinOfSplit(rest, '.');
    ParseNumberExact(major, v.major);
    ParseNumberExact(minor, v.minor);
    ParseNumberExact(patch, v.patch);
    PrintOfParts(v, major, minor, patch);
  }

  /** Parsing a version accepts exactly the printed versions of at most 14 characters. */
  lemma ParseVersionExact(s: string, v: Version)
    ensures ParseVersion(s) == Ok(v) <==> ValidVersion(v) && s == PrintVersion(v)
    ensures ValidVersion(v) <==> |PrintVersion(v)| <= 14
  {
    if ValidVersion(v) {
      PrintedVersionParses(v);
    }
    if ParseVersion(s) == Ok(v) {
      ParsedVersionPrints(s);
    }
  }

  /** The numbers of a version are, from left to right, its major, minor and patch numbers, in decimal. */
  lemma VersionInOrder(major: nat, minor: nat, patch: nat)
    ensures
      var s := PrintNumber(major) + ['.'] + (PrintNumber(minor) + ['.'] + PrintNumber(patch));
      |s| <= 14 ==> ParseVersion(s) == Ok(Version(major, minor, patch))
    ensures PrintNumber(907) == "907"
  {
    var v := Version(major, minor, patch);
    var s := PrintNumber(major) + ['.'] + (PrintNumber(minor) + ['.'] + PrintNumber(patch));
    PrintOfParts(v, PrintNumber(major), PrintNumber(minor), PrintNumber(patch));
    ParseVersionExact(s, v);
    PrintStep(90, 7);
    PrintStep(9, 0);
  }

  // ---- Names ----

  predicate IsLower(c: char) {
    'a' <= c <= 'z'
  }

  predicate IsAlphabetic(c: char) {
    IsLower(c) || 'A' <= c <= 'Z'
  }

  predicate NameChar(c: char) {
    c == '_' || c == '.' || IsDigit(c) || IsLower(c)
  }

  function FirstInvalid(s: string): (r: Option<char>)
    ensures r.None? <==> forall c :: c in s ==> NameChar(c)
  {
    if s == [] then None
    else if !NameChar(s[0]) then Some(s[0])
    else
      assert forall c :: c in s <==> c == s[0] || c in s[1..];
      FirstInvalid(s[1..])
  }

  /** `validate_format`: the first rule violated, if any. */
  function ValidateFormat(s: string): Option<NameFormatError> {
    if s == [] then Some(Empty)
    else if |s| > NAME_NAMESPACE_MAX_LENGTH then Some(TooLong(|s|))
    else if !IsAlphabetic(s[0]) then Some(InvalidStart)
    else if !(IsAlphabetic(s[|s| - 1]) || IsDigit(s[|s| - 1])) then Some(InvalidEnd)
    else if FirstInvalid(s).Some? then Some(InvalidCharacter(FirstInvalid(s).value))
    else None
  }

  // ---- Identifiers ----

  function Print(id: AgentTypeId): string {
    id.namespace + "/" + id.name + ":" + PrintVersion(id.version)
  }

  function FromParts(name: string, namespace: string, version: string): Parse<AgentTypeId> {
    if ValidateFormat(namespace).Some? then Err(InvalidNamespace(ValidateFormat(namespace).value))
    else if ValidateFormat(name).Some? then Err(InvalidName(ValidateFormat(name).value))
    else if ParseVersion(version).Err? then Err(ParseVersion(version).error)
    else Ok(AgentTypeId(namespace, name, ParseVersion(version).value))
  }

  function TryFrom(s: string): Parse<AgentTypeId> {
    var (namespace, rest) := SplitOnce(s, '/');
    var (name, version) := SplitOnce(rest, ':');
    FromParts(name, namespace, version)
  }

  predicate ValidId(id: AgentTypeId) {
    ValidateFormat(id.namespace).None? && ValidateFormat(id.name).None? && ValidVersion(id.version)
  }

  /** Exactly the valid identifiers can be built from parts. */
  lemma FromPartsExact(name: string, namespace: string, version: string, id: AgentTypeId)
    ensures FromParts(name, namespace, version) == Ok(id) <==>
            ValidId(id) && id.name == name && id.namespace == namespace && PrintVersion(id.version) == version
  {
    ParseVersionExact(version, id.version);
  }

  /** Names and namespaces: 1 to 64 characters of `[a-z0-9._]`, a letter first and a letter or digit last. */
  lemma ValidateFormatExact(s: string)
    ensures ValidateFormat(s).None? <==>
            && 1 <= |s| <= 64
            && 'a' <= s[0] <= 'z'
            && ('a' <= s[|s| - 1] <= 'z' || '0' <= s[|s| - 1] <= '9')
            && forall i :: 0 <= i < |s| ==> 'a' <= s[i] <= 'z' || '0' <= s[i] <= '9' || s[i] == '.' || s[i] == '_'
  {
    if s != [] {
      assert s[0] in s && s[|s| - 1] in s;
      if forall i :: 0 <= i < |s| ==> 'a' <= s[i] <= 'z' || '0' <= s[i] <= '9' || s[i] == '.' || s[i] == '_' {
        forall c | c in s
          ensures NameChar(c)
        {
          var i :| 0 <= i < |s| && s[i] == c;
        }
      } else {
        var i :| 0 <= i < |s| && !('a' <= s[i] <= 'z' || '0' <= s[i] <= '9' || s[i] == '.' || s[i] == '_');
        assert s[i] in s && !NameChar(s[i]);
      }
    }
  }

  /** The namespace comes before the slash, the name before the colon, the version after it. */
  lemma PartsOfFullName(namespace: string, name: string, version: string)
    requires '/' !in namespace && ':' !in name
    ensures TryFrom(namespace + ['/'] + (name + [':'] + version)) == FromParts(name, namespace, version)
    ensures FromParts(name, namespace, version).Ok? ==>
              && FromParts(name, namespace, version).value.name == name
              && FromParts(name, namespace, version).value.namespace == namespace
  {
    SplitOfJoin(namespace, '/', name + [':'] + version);
    SplitOfJoin(name, ':', version);
  }

  lemma PrintShape(namespace: string, name: string, version: Version)
    ensures Print(AgentTypeId(namespace, name, version)) == namespace + ['/'] + (name + [':'] + PrintVersion(version))
  {
  }

  lemma PrintedIdParses(id: AgentTypeId)
    requires ValidId(id)
    ensures TryFrom(Print(id)) == Ok(id)
  {
    var tail := id.name + [':'] + PrintVersion(id.version);
    PrintShape(id.namespace, id.name, id.version);
    SplitOfJoin(id.namespace, '/', tail);
    SplitOfJoin(id.name, ':', PrintVersion(id.version));
    FromPartsExact(id.name, id.namespace, PrintVersion(id.version), id);
  }

  lemma ParsedIdPrints(s: string)
    requires TryFrom(s).Ok?
    ensures ValidId(TryFrom(s).value) && Print(TryFrom(s).value) == s
  {
    var id := TryFrom(s).value;
    var (namespace, rest) := SplitOnce(s, '/');
    var (name, version) := SplitOnce(rest, ':');
    FromPartsExact(name, namespace, version, id);
    SeparatorsPresent(s);
    JoinOfSplit(s, '/');
    JoinOfSplit(rest, ':');
    PrintShape(namespace, name, id.version);
  }

  /** Without a separator the fields default to empty strings, which are never valid names. */
  lemma SeparatorsPresent(s: string)
    requires TryFrom(s).Ok?
    ensures '/' in s && ':' in SplitOnce(s, '/').1
  {
    var rest := SplitOnce(s, '/').1;
    assert SplitOnce(s, '/').0 != "" && SplitOnce(rest, ':').0 != "";
    assert IndexOf(s, '/') < |s| && IndexOf(rest, ':') < |rest|;
  }

  /** Printing and parsing are mutually inverse: a string is accepted as `id` if and only if `id` is
      valid and the string is its printed form. */
  lemma RoundTrip(s: string, id: AgentTypeId)
    ensures TryFrom(s) == Ok(id) <==> ValidId(id) && s == Print(id)
  {
    if ValidId(id) {
      PrintedIdParses(id);
    }
    if TryFrom(s) == Ok(id) {
      ParsedIdPrints(s);
    }
  }

  // ---- OCI tags ----

  datatype Environment = Linux | Windows | K8s

  function EnvironmentPrefix(environment: Environment): string {
    match environment
    case Linux => "host-linux"
    case Windows => "host-windows"
    case K8s => "kubernetes"
  }

  function Tag(id: AgentTypeId, environment: Environment): string {
    EnvironmentPrefix(environment) + "-" + id.name + "-" + PrintVersion(id.version)
  }

  predicate TagStart(c: char) {
    IsAlphabetic(c) || IsDigit(c) || c == '_'
  }

  /** A tag as the OCI Distribution Specification defines it in "Pulling manifests". */
  predicate LegalTag(s: string) {
    && 1 <= |s| <= 128
    && TagStart(s[0])
    && forall c :: c in s ==> TagStart(c) || c == '.' || c == '-'
  }

  /** The tag in full. */
  lemma TagExactly(id: AgentTypeId, environment: Environment)
    ensures Tag(id, environment) == match environment
                                    case Linux => "host-linux-" + id.name + "-" + PrintVersion(id.version)
                                    case Windows => "host-windows-" + id.name + "-" + PrintVersion(id.version)
                                    case K8s => "kubernetes-" + id.name + "-" + PrintVersion(id.version)
  {
    assert "host-linux" + "-" == "host-linux-" && "host-windows" + "-" == "host-windows-";
    assert "kubernetes" + "-" == "kubernetes-";
  }

  predicate TagChars(s: string) {
    forall i :: 0 <= i < |s| ==> TagStart(s[i]) || s[i] == '.' || s[i] == '-'
  }

  lemma TagCharsJoin(a: string, b: string)
    requires TagChars(a) && TagChars(b)
    ensures TagChars(a + "-" + b)
  {
  }

  lemma NameIsTagChars(name: string)
    requires ValidateFormat(name).None?
    ensures TagChars(name) && '-' !in name
  {
    forall i | 0 <= i < |name|
      ensures NameChar(name[i])
    {
      assert name[i] in name;
    }
  }

  lemma VersionIsTagChars(version: Version)
    ensures TagChars(PrintVersion(version)) && '-' !in PrintVersion(version)
  {
    PrintVersionParts(version);
    var text := PrintVersion(version);
    forall i | 0 <= i < |text|
      ensures IsDigit(text[i]) || text[i] == '.'
    {
      assert text[i] in text;
    }
  }

  lemma TagsAreLegal(id: AgentTypeId, environment: Environment)
    requires ValidId(id)
    ensures LegalTag(Tag(id, environment))
  {
    var prefix, version := EnvironmentPrefix(environment), PrintVersion(id.version);
    NameIsTagChars(id.name);
    VersionIsTagChars(id.version);
    assert TagChars(prefix) && |prefix| <= 12;
    TagCharsJoin(prefix, id.name);
    TagCharsJoin(prefix + "-" + id.name, version);
    assert Tag(id, environment) == (prefix + "-" + id.name) + "-" + version;
    assert Tag(id, environment)[0] == prefix[0];
  }

  lemma PrefixDetermines(a: Environment, b: Environment)
    requires EnvironmentPrefix(a) == EnvironmentPrefix(b)
    ensures a == b
  {
    assert |EnvironmentPrefix(Windows)| == 12 && EnvironmentPrefix(Linux)[0] == 'h' && EnvironmentPrefix(K8s)[0] == 'k';
  }

  lemma VersionDetermines(a: Version, b: Version)
    requires ValidVersion(a) && ValidVersion(b) && PrintVersion(a) == PrintVersion(b)
    ensures a == b
  {
    ParseVersionExact(PrintVersion(a), a);
    ParseVersionExact(PrintVersion(a), b);
  }

  /** A tag determines the environment, the name and the version, and nothing more: identifiers that
      differ in their namespace only share their tag. */
  lemma TagDetermines(a: AgentTypeId, aEnv: Environment, b: AgentTypeId, bEnv: Environment)
    requires ValidId(a) && ValidId(b)
    ensures Tag(a, aEnv) == Tag(b, bEnv) <==> aEnv == bEnv && a.name == b.name && a.version == b.version
  {
    if Tag(a, aEnv) == Tag(b, bEnv) {
      NameIsTagChars(a.name);
      NameIsTagChars(b.name);
      VersionIsTagChars(a.version);
      VersionIsTagChars(b.version);
      TagParts(EnvironmentPrefix(aEnv), a.name, PrintVersion(a.version),
               EnvironmentPrefix(bEnv), b.name, PrintVersion(b.version));
      PrefixDetermines(aEnv, bEnv);
      VersionDetermines(a.version, b.version);
    }
  }

  lemma TagParts(prefix: string, name: string, version: string, prefix': string, name': string, version': string)
    requires '-' !in name && '-' !in name' && '-' !in version && '-' !in version'
    requires prefix + "-" + name + "-" + version == prefix' + "-" + name' + "-" + version'
    ensures prefix == prefix' && name == name' && version == version'
  {
    LastSeparator(prefix + "-" + name, version, prefix' + "-" + name', version', '-');
    LastSeparator(prefix, name, prefix', name', '-');
  }
}

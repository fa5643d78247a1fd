/** The Quadlet policy: which texts may be installed. */
module Policy {
  import opened Text
  import opened Quadlet
  import Disk
  import Names
  import PodmanArgs

  datatype QuadletFile = QuadletFile(fileName: string, contents: string)

  datatype QuadletPolicy = QuadletPolicy(
    requireContainerSection: bool, requireImage: bool, requireManagedLabel: bool,
    managedLabelKey: string, managedLabelValue: string,
    allowPrivileged: bool, allowHostNetwork: bool, allowHostPid: bool, allowHostIpc: bool, allowHostUserns: bool,
    allowDevices: bool, allowRootMount: bool, allowPodmanArgs: bool)

  datatype Installation = Installation(path: Disk.Path, unit: string)

  // ----- Values -----

  predicate Truthy(value: string) {
    var v := Lower(Trim(value));
    v == "1" || v == "yes" || v == "true" || v == "on"
  }

  predicate EqualsKey(value: string, expected: string) {
    Lower(Trim(value)) == Lower(expected)
  }

  predicate PartAt(s: string, part: string, i: nat) {
    i + |part| <= |s| && s[i..i + |part|] == part
  }

  ghost predicate Contains(s: string, part: string) {
    exists i: nat :: PartAt(s, part, i)
  }

  method FindPart(s: string, part: string) returns (found: bool)
    ensures found <==> Contains(s, part)
  {
    var i: nat := 0;
    while i + |part| <= |s|
      invariant forall j: nat :: j < i ==> !PartAt(s, part, j)
    {
      if PartAt(s, part, i) {
        return true;
      }
      i := i + 1;
    }
    found := false;
  }

  /** A source that names a place on the host, or could be made to. */
  ghost predicate HostPath(source: string) {
    source != "" &&
    (source[0] in "/.~$" || '/' in source || '\\' in source || '%' in source || Contains(source, ".."))
  }

  method IsHostPath(source: string) returns (b: bool)
    ensures b <==> HostPath(source)
  {
    var dots := FindPart(source, "..");
    b := source != "" && (source[0] in "/.~$" || '/' in source || '\\' in source || dots || '%' in source);
  }

  function VolumeSource(value: string): string {
    var t := Trim(value);
    Trim(t[..IndexOf(t, ':')])
  }

  /** The comma-separated fields `std::getline` yields. */
  function Fields(s: string): seq<string>
    decreases |s|
  {
    if s == "" then []
    else
      var i := IndexOf(s, ',');
      [s[..i]] + if i == |s| then [] else Fields(s[i + 1..])
  }

  function FieldKey(field: string): string {
    Trim(field[..IndexOf(field, '=')])
  }

  function FieldValue(field: string): string {
    var i := IndexOf(field, '=');
    if i == |field| then "" else Trim(field[i + 1..])
  }

  ghost predicate HostField(field: string) {
    var key := Lower(FieldKey(field));
    || (key == "type" && Lower(FieldValue(field)) == "bind")
    || ((key == "source" || key == "src" || key == "from") && HostPath(FieldValue(field)))
  }

  ghost predicate AnyHostField(fields: seq<string>) {
    fields != [] && (HostField(fields[0]) || AnyHostField(fields[1..]))
  }

  ghost predicate HostMount(value: string) {
    AnyHostField(Fields(Trim(value)))
  }

  method IsHostField(field: string) returns (b: bool)
    ensures b <==> HostField(field)
  {
    var key, val := Lower(FieldKey(field)), FieldValue(field);
    var host := IsHostPath(val);
    b := (key == "type" && Lower(val) == "bind") || ((key == "source" || key == "src" || key == "from") && host);
  }

  lemma FieldsUnfold(s: string)
    requires s != ""
    ensures var i := IndexOf(s, ',');
      Fields(s) == [s[..i]] + Fields(if i == |s| then "" else s[i + 1..])
  {
  }

  /** `host_path_mount`. */
  method IsHostMount(value: string) returns (b: bool)
    ensures b <==> HostMount(value)
  {
    var rest := Trim(value);
    while rest != ""
      invariant HostMount(value) <==> AnyHostField(Fields(rest))
      decreases |rest|
    {
      FieldsUnfold(rest);
      var i := IndexOf(rest, ',');
      var part := rest[..i];
      rest := if i == |rest| then "" else rest[i + 1..];
      assert ([part] + Fields(rest))[1..] == Fields(rest);
      var host := IsHostField(part);
      if host {
        return true;
      }
    }
    b := false;
  }

  /** Some comma-separated field of the value asks for a bind or names a host path. */
  lemma {:induction false} AnyHostFieldMeans(fields: seq<string>)
    ensures AnyHostField(fields) <==> exists f <- fields :: HostField(f)
  {
    if fields != [] {
      var rest := fields[1..];
      AnyHostFieldMeans(rest);
      if HostField(fields[0]) {
        assert fields[0] in fields;
      } else if AnyHostField(rest) {
        var f :| f in rest && HostField(f);
        assert f in fields;
      } else if f :| f in fields && HostField(f) {
        InFirstOrRest(fields, f);
        assert false;
      }
    }
  }

  lemma InFirstOrRest(s: seq<string>, x: string)
    requires x in s
    ensures x == s[0] || x in s[1..]
  {
    assert s == [s[0]] + s[1..];
  }

  // ----- PodmanArgs -----

  predicate StartsWithAssignment(value: string, option: string) {
    |value| > |option| && StartsWith(value, option) && value[|option|] == '='
  }

  function OptionValue(token: string, option: string): string {
    if StartsWithAssignment(token, option) then token[|option| + 1..] else ""
  }

  /** The token, with the one after it, gives the option the value. */
  predicate TokenHasValue(token: string, next: string, option: string, value: string) {
    var given := Lower(OptionValue(token, option));
    if given != "" then given == Lower(value)
    else Lower(token) == Lower(option) && Lower(next) == Lower(value)
  }

  predicate TokenIsOption(token: string, option: string) {
    Lower(token) == option || StartsWithAssignment(Lower(token), option)
  }

  predicate TokenDenied(token: string, next: string, p: QuadletPolicy) {
    || (!p.allowPrivileged && TokenIsOption(token, "--privileged"))
    || (!p.allowHostNetwork && (TokenHasValue(token, next, "--network", "host") || TokenHasValue(token, next, "--net", "host")))
    || (!p.allowHostPid && TokenHasValue(token, next, "--pid", "host"))
    || (!p.allowHostIpc && TokenHasValue(token, next, "--ipc", "host"))
    || (!p.allowHostUserns && TokenHasValue(token, next, "--userns", "host"))
    || (!p.allowDevices && TokenIsOption(token, "--device"))
    || (!p.allowRootMount && (TokenIsOption(token, "--volume") || TokenIsOption(token, "-v") || TokenIsOption(token, "--mount")))
  }

  function NextToken(tokens: seq<string>, i: nat): string {
    if i + 1 < |tokens| then tokens[i + 1] else ""
  }

  predicate DeniedAt(tokens: seq<string>, i: nat, p: QuadletPolicy) {
    i < |tokens| && TokenDenied(tokens[i], NextToken(tokens, i), p)
  }

  /** Some token, read with its successor, asks for something the policy withholds. */
  ghost predicate Denied(tokens: seq<string>, p: QuadletPolicy) {
    exists i: nat :: DeniedAt(tokens, i, p)
  }

  ghost predicate DeniedAmong(tokens: seq<string>, n: nat, p: QuadletPolicy) {
    exists i: nat :: i < n && DeniedAt(tokens, i, p)
  }

  lemma NextDenied(tokens: seq<string>, n: nat, p: QuadletPolicy)
    requires n < |tokens|
    ensures DeniedAmong(tokens, n + 1, p) <==> DeniedAmong(tokens, n, p) || DeniedAt(tokens, n, p)
    ensures DeniedAt(tokens, n, p) ==> Denied(tokens, p)
  {
    if DeniedAmong(tokens, n, p) {
      var i: nat :| i < n && DeniedAt(tokens, i, p);
      assert i < n + 1 && DeniedAt(tokens, i, p);
    }
    if DeniedAt(tokens, n, p) {
      assert n < n + 1 && DeniedAt(tokens, n, p);
    }
  }

  /** `denied_podman_arg`. */
  method DeniedPodmanArg(value: string, p: QuadletPolicy) returns (b: bool)
    ensures b <==> Denied(PodmanArgs.Split(value), p)
  {
    var parts := PodmanArgs.SplitPodmanArgs(value);
    b := false;
    for i := 0 to |parts|
      invariant b <==> DeniedAmong(parts, i, p)
    {
      NextDenied(parts, i, p);
      if TokenDenied(parts[i], NextToken(parts, i), p) {
        return true;
      }
    }
  }

  // ----- Labels -----

  predicate IsManaged(entry: string, p: QuadletPolicy) {
    FieldKey(entry) == p.managedLabelKey
  }

  predicate IsMatching(entry: string, p: QuadletPolicy) {
    IsManaged(entry, p) && FieldValue(entry) == p.managedLabelValue
  }

  ghost predicate SoleMatch(labels: seq<string>, i: nat, p: QuadletPolicy) {
    && i < |labels| && IsMatching(labels[i], p)
    && forall j :: 0 <= j < |labels| && IsManaged(labels[j], p) ==> j == i
  }

  /** Exactly one label has the managed key, and it has the managed value. */
  ghost predicate OneManagedLabel(labels: seq<string>, p: QuadletPolicy) {
    exists i: nat :: SoleMatch(labels, i, p)
  }

  ghost function Count(s: seq<string>, f: string -> bool): nat {
    if s == [] then 0 else Count(s[..|s| - 1], f) + (if f(s[|s| - 1]) then 1 else 0)
  }

  ghost predicate Sole(s: seq<string>, i: nat, f: string -> bool) {
    i < |s| && f(s[i]) && forall j :: 0 <= j < |s| && f(s[j]) ==> j == i
  }

  lemma {:induction false} CountBounds(s: seq<string>, f: string -> bool)
    ensures Count(s, f) == 0 <==> forall i :: 0 <= i < |s| ==> !f(s[i])
    ensures Count(s, f) == 1 <==> exists i: nat :: Sole(s, i, f)
  {
    if s != [] {
      var front, n := s[..|s| - 1], |s| - 1;
      CountBounds(front, f);
      assert forall i :: 0 <= i < n ==> front[i] == s[i];
      if Count(s, f) == 1 {
        if f(s[n]) {
          assert Sole(s, n, f);
        } else {
          var i: nat :| Sole(front, i, f);
          assert Sole(s, i, f);
        }
      }
      if i: nat :| Sole(s, i, f) {
        if i < n {
          assert Sole(front, i, f);
        }
      }
    }
  }

  /** `validate_managed_label`. */
  method ValidateManagedLabel(labels: seq<string>, p: QuadletPolicy) returns (ok: bool)
    ensures ok <==> OneManagedLabel(labels, p)
  {
    var matches, managed := 0, 0;
    ghost var isManaged, isMatching := (l: string) => IsManaged(l, p), (l: string) => IsMatching(l, p);
    for i := 0 to |labels|
      invariant managed == Count(labels[..i], isManaged)
      invariant matches == Count(labels[..i], isMatching)
    {
      assert labels[..i + 1][..i] == labels[..i];
      if FieldKey(labels[i]) == p.managedLabelKey {
        managed := managed + 1;
        if FieldValue(labels[i]) == p.managedLabelValue {
          matches := matches + 1;
        }
      }
    }
    assert labels[..|labels|] == labels;
    CountBounds(labels, isManaged);
    CountBounds(labels, isMatching);
    CountsDecideLabel(labels, p, isManaged, isMatching);
    ok := managed == 1 && matches == 1;
  }

  lemma CountsDecideLabel(labels: seq<string>, p: QuadletPolicy, managed: string -> bool, matching: string -> bool)
    requires forall l :: managed(l) <==> IsManaged(l, p)
    requires forall l :: matching(l) <==> IsMatching(l, p)
    ensures Count(labels, managed) == 1 && Count(labels, matching) == 1 <==> OneManagedLabel(labels, p)
  {
    CountBounds(labels, managed);
    CountBounds(labels, matching);
    if i: nat :| SoleMatch(labels, i, p) {
      assert Sole(labels, i, managed) && Sole(labels, i, matching);
    }
    if Count(labels, managed) == 1 && Count(labels, matching) == 1 {
      var i: nat, k: nat :| Sole(labels, i, managed) && Sole(labels, k, matching);
      assert SoleMatch(labels, i, p);
    }
  }

  // ----- Keys -----

  const ALLOWED: map<string, set<string>> := map[
    "Unit" := {"Description", "After", "Wants", "Requires", "Documentation"},
    "Container" := {"Image", "ContainerName", "Label", "Environment", "ReadOnly", "NoNewPrivileges", "DropCapability", "Network",
                    "Volume", "Mount", "UserNS", "PID", "IPCHost", "Device", "AddDevice", "Rootfs", "PodmanArgs"},
    "Service" := {"Restart", "TimeoutStartSec", "TimeoutStopSec"},
    "Install" := {"WantedBy"}]

  predicate DangerousServiceKey(key: string) {
    || StartsWith(key, "Exec") || key == "EnvironmentFile" || key == "LoadCredential" || key == "SetCredential"
    || key == "RootDirectory" || key == "RootImage" || key == "BindPaths" || key == "BindReadOnlyPaths"
    || key == "WorkingDirectory" || key == "User" || key == "Group"
  }

  /** Only listed sections with listed keys, none of which runs anything on the host. */
  ghost predicate AllowedKeys(m: Sections) {
    forall s <- m :: s in ALLOWED && forall k <- m[s] :: k in ALLOWED[s] && !DangerousServiceKey(k)
  }

  /** `validate_allowed_keys`. */
  method ValidateAllowedKeys(m: Sections) returns (ok: bool)
    ensures ok <==> AllowedKeys(m)
  {
    var sections := m.Keys;
    while sections != {}
      invariant sections <= m.Keys
      invariant forall s <- m :: s !in sections ==>
        s in ALLOWED && forall k <- m[s] :: k in ALLOWED[s] && !DangerousServiceKey(k)
      decreases |sections|
    {
      var section :| section in sections;
      if section !in ALLOWED {
        return false;
      }
      var keys := m[section].Keys;
      while keys != {}
        invariant keys <= m[section].Keys
        invariant forall k <- m[section] :: k !in keys ==> k in ALLOWED[section] && !DangerousServiceKey(k)
        decreases |keys|
      {
        var key :| key in keys;
        if DangerousServiceKey(key) || key !in ALLOWED[section] {
          return false;
        }
        keys := keys - {key};
      }
      sections := sections - {section};
    }
    ok := true;
  }

  // ----- The decision -----

  ghost predicate NamespacesPermitted(m: Sections, p: QuadletPolicy) {
    && (!p.allowHostNetwork ==> forall v <- Values(m, "Container", "Network") :: !EqualsKey(v, "host"))
    && (!p.allowHostPid ==> forall v <- Values(m, "Container", "PID") :: !EqualsKey(v, "host"))
    && (!p.allowHostIpc ==> forall v <- Values(m, "Container", "IPCHost") :: !Truthy(v))
    && (!p.allowHostUserns ==> forall v <- Values(m, "Container", "UserNS") :: !EqualsKey(v, "host"))
  }

  ghost predicate HostAccessPermitted(m: Sections, p: QuadletPolicy) {
    && (!p.allowDevices ==> forall v <- Values(m, "Container", "Device") :: Trim(v) == "")
    && (!p.allowDevices ==> forall v <- Values(m, "Container", "AddDevice") :: Trim(v) == "")
    && (!p.allowRootMount ==> forall v <- Values(m, "Container", "Volume") :: !HostPath(VolumeSource(v)))
    && (!p.allowRootMount ==> forall v <- Values(m, "Container", "Mount") :: !HostMount(v))
    && (!p.allowRootMount ==> forall v <- Values(m, "Container", "Rootfs") :: Trim(v) == "")
  }

  ghost predicate ArgsPermitted(m: Sections, p: QuadletPolicy) {
    && (!p.allowPodmanArgs ==> Values(m, "Container", "PodmanArgs") == [])
    && (forall v <- Values(m, "Container", "PodmanArgs") :: !Denied(PodmanArgs.Split(v), p))
  }

  ghost predicate Permitted(m: Sections, p: QuadletPolicy) {
    && (p.requireContainerSection ==> "Container" in m)
    && (p.requireImage ==> Values(m, "Container", "Image") != [])
    && AllowedKeys(m)
    && (p.requireManagedLabel ==> OneManagedLabel(Values(m, "Container", "Label"), p))
    && NamespacesPermitted(m, p)
    && HostAccessPermitted(m, p)
    && ArgsPermitted(m, p)
  }

  /** What `validate_quadlet_policy` accepts. */
  ghost predicate Admissible(f: QuadletFile, p: QuadletPolicy) {
    && Names.ValidQuadletFileName(f.fileName)
    && f.contents != "" && '\0' !in f.contents
    && Parse(f.contents).Ok?
    && Permitted(Parse(f.contents).value, p)
  }

  method AnyValue(values: seq<string>, bad: string -> bool) returns (found: bool)
    ensures found <==> exists v <- values :: bad(v)
  {
    for i := 0 to |values|
      invariant forall j :: 0 <= j < i ==> !bad(values[j])
    {
      if bad(values[i]) {
        return true;
      }
    }
    found := false;
  }

  method AnyHostVolume(values: seq<string>) returns (found: bool)
    ensures found <==> exists v <- values :: HostPath(VolumeSource(v))
  {
    for i := 0 to |values|
      invariant forall j :: 0 <= j < i ==> !HostPath(VolumeSource(values[j]))
    {
      var host := IsHostPath(VolumeSource(values[i]));
      if host {
        assert values[i] in values;
        return true;
      }
    }
    found := false;
  }

  method AnyHostMount(values: seq<string>) returns (found: bool)
    ensures found <==> exists v <- values :: HostMount(v)
  {
    found := false;
    for i := 0 to |values|
      invariant found <==> exists v <- values[..i] :: HostMount(v)
    {
      var host := IsHostMount(values[i]);
      if host {
        assert values[i] in values;
        return true;
      }
      assert values[..i + 1] == values[..i] + [values[i]];
    }
    assert values[..|values|] == values;
  }

  method AnyDeniedArg(values: seq<string>, p: QuadletPolicy) returns (found: bool)
    ensures found <==> values != [] && (!p.allowPodmanArgs || exists v <- values :: Denied(PodmanArgs.Split(v), p))
  {
    for i := 0 to |values|
      invariant i > 0 ==> p.allowPodmanArgs
      invariant forall j :: 0 <= j < i ==> !Denied(PodmanArgs.Split(values[j]), p)
    {
      if !p.allowPodmanArgs {
        return true;
      }
      var denied := DeniedPodmanArg(values[i], p);
      if denied {
        return true;
      }
    }
    found := false;
  }

  method NamespacesOk(m: Sections, p: QuadletPolicy) returns (ok: bool)
    ensures ok <==> NamespacesPermitted(m, p)
  {
    var network := AnyValue(Values(m, "Container", "Network"), v => EqualsKey(v, "host"));
    var pid := AnyValue(Values(m, "Container", "PID"), v => EqualsKey(v, "host"));
    var ipc := AnyValue(Values(m, "Container", "IPCHost"), v => Truthy(v));
    var userns := AnyValue(Values(m, "Container", "UserNS"), v => EqualsKey(v, "host"));
    ok := (p.allowHostNetwork || !network) && (p.allowHostPid || !pid) && (p.allowHostIpc || !ipc) && (p.allowHostUserns || !userns);
  }

  method HostAccessOk(m: Sections, p: QuadletPolicy) returns (ok: bool)
    ensures ok <==> HostAccessPermitted(m, p)
  {
    var device := AnyValue(Values(m, "Container", "Device"), v => Trim(v) != "");
    var addDevice := AnyValue(Values(m, "Container", "AddDevice"), v => Trim(v) != "");
    var volume := AnyHostVolume(Values(m, "Container", "Volume"));
    var mount := AnyHostMount(Values(m, "Container", "Mount"));
    var rootfs := AnyValue(Values(m, "Container", "Rootfs"), v => Trim(v) != "");
    ok := (p.allowDevices || (!device && !addDevice)) && (p.allowRootMount || (!volume && !mount && !rootfs));
  }

  /** `validate_quadlet_policy`: exactly the admissible files pass, and the error says whether the text was
      unreadable or forbidden. */
  method ValidateQuadletPolicy(f: QuadletFile, p: QuadletPolicy) returns (r: Result<(), ErrorKind>)
    ensures r.Ok? <==> Admissible(f, p)
    ensures r.Err? ==>
      (r.error.InvalidArgument? <==>
       !(Names.ValidQuadletFileName(f.fileName) && f.contents != "" && '\0' !in f.contents && Parse(f.contents).Ok?))
  {
    if !Names.ValidQuadletFileName(f.fileName) || f.contents == "" || '\0' in f.contents {
      return Err(InvalidArgument);
    }
    var parsed := ParseQuadlet(f.contents);
    if parsed.Err? {
      return Err(InvalidArgument);
    }
    var m := parsed.value.sections;
    if p.requireContainerSection && "Container" !in m {
      return Err(PolicyViolation);
    }
    if p.requireImage && Values(m, "Container", "Image") == [] {
      return Err(PolicyViolation);
    }
    var keys := ValidateAllowedKeys(m);
    if !keys {
      return Err(PolicyViolation);
    }
    if p.requireManagedLabel {
      var managed := ValidateManagedLabel(Values(m, "Container", "Label"), p);
      if !managed {
        return Err(PolicyViolation);
      }
    }
    var namespaces := NamespacesOk(m, p);
    var access := HostAccessOk(m, p);
    var args := AnyDeniedArg(Values(m, "Container", "PodmanArgs"), p);
    r := if namespaces && access && !args then Ok(()) else Err(PolicyViolation);
  }

  /** `QuadletInstaller::expected_install`: where an accepted Quadlet goes and the unit it becomes. */
  method ExpectedInstall(uid: nat, f: QuadletFile, p: QuadletPolicy, maxBytes: nat)
    returns (r: Result<Installation, ErrorKind>)
    ensures r.Ok? <==> |f.contents| <= maxBytes && Admissible(f, p)
    ensures r.Ok? ==> r.value.path == Disk.Path.Path(uid, f.fileName) && Names.ValidQuadletFileName(r.value.path.name)
    ensures r.Ok? ==> r.value.unit == Names.ServiceUnitName(f.fileName) && Names.SafeSystemdUnit(r.value.unit)
    ensures |f.contents| > maxBytes ==> r == Err(PolicyViolation)
  {
    if |f.contents| > maxBytes {
      return Err(PolicyViolation);
    }
    var valid := ValidateQuadletPolicy(f, p);
    match valid {
      case Err(kind) => r := Err(kind);
      case Ok(_) =>
        Names.DerivedUnitIsSafe(f.fileName);
        r := Ok(Installation(Disk.Path.Path(uid, f.fileName), Names.ServiceUnitName(f.fileName)));
    }
  }
}

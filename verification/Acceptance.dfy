/** What the policy accepts, said of the lines of a text: every key on the list, no line asking for what is
    withheld, and the required lines there. */
module Acceptance {
  import opened Text
  import opened Quadlet
  import opened Policy
  import opened Denials
  import opened Lines
  import Names
  import PodmanArgs
  import QuadletLaws

  // ----- Keys -----

  /** The keys a Quadlet may have. */
  predicate Listed(section: string, key: string) {
    || (section == "Unit" && (key == "Description" || key == "After" || key == "Wants" || key == "Requires" || key == "Documentation"))
    || (section == "Container" && ListedInContainer(key))
    || (section == "Service" && (key == "Restart" || key == "TimeoutStartSec" || key == "TimeoutStopSec"))
    || (section == "Install" && key == "WantedBy")
  }

  predicate ListedInContainer(key: string) {
    || key == "Image" || key == "ContainerName" || key == "Label" || key == "Environment" || key == "ReadOnly"
    || key == "NoNewPrivileges" || key == "DropCapability" || key == "Network" || key == "Volume" || key == "Mount"
    || key == "UserNS" || key == "PID" || key == "IPCHost" || key == "Device" || key == "AddDevice" || key == "Rootfs"
    || key == "PodmanArgs"
  }

  lemma ListExactly(section: string, key: string)
    ensures Listed(section, key) <==> section in ALLOWED && key in ALLOWED[section]
  {
  }

  lemma ExecBegins(key: string)
    requires StartsWith(key, "Exec")
    ensures |key| >= 4 && key[0] == 'E' && key[1] == 'x'
  {
    assert "Exec"[0] == 'E' && "Exec"[1] == 'x';
  }

  lemma ListedIsNoExec(section: string, key: string)
    requires Listed(section, key)
    ensures key != "" && !(|key| > 1 && key[0] == 'E' && key[1] == 'x')
  {
  }

  /** No dangerous service key is on the list, so the list alone decides. */
  lemma ListedIsHarmless(section: string, key: string)
    requires Listed(section, key)
    ensures !DangerousServiceKey(key)
  {
    ListedIsNoExec(section, key);
    if StartsWith(key, "Exec") {
      ExecBegins(key);
    }
  }

  // ----- Host paths -----

  /** A path on the host, or something that may become one. */
  ghost predicate OnHost(source: string) {
    source != "" &&
    (source[0] in "/.~$" || '/' in source || '\\' in source || '%' in source ||
     exists i: nat :: i + 1 < |source| && source[i] == '.' && source[i + 1] == '.')
  }

  lemma HostPathExactly(source: string)
    ensures HostPath(source) <==> OnHost(source)
  {
    if i: nat :| PartAt(source, "..", i) {
      assert source[i..i + 2][0] == '.' && source[i..i + 2][1] == '.';
    }
    if i: nat :| i + 1 < |source| && source[i] == '.' && source[i + 1] == '.' {
      assert source[i..i + 2] == "..";
      assert PartAt(source, "..", i);
    }
  }

  /** The source of a volume: what is before its first colon. */
  lemma VolumeSourceExactly(source: string, rest: string)
    requires ':' !in source
    ensures Trimmed(source) ==> VolumeSource(source) == source
    ensures Trimmed(source + ":" + rest) ==> VolumeSource(source + ":" + rest) == Trim(source)
  {
    IndexOfFirst(source, ':');
    IndexOfSplit(source, ':', rest);
    if Trimmed(source) {
      TrimFixed(source);
      assert source[..|source|] == source;
    }
    var value := source + ":" + rest;
    if Trimmed(value) {
      TrimFixed(value);
      assert value[..|source|] == source;
    }
  }

  /** The fields of a mount are what stands between its commas. */
  lemma FieldsExactly(field: string, rest: string)
    requires ',' !in field
    ensures field != "" ==> Fields(field) == [field]
    ensures Fields(field + "," + rest) == [field] + Fields(rest)
  {
    IndexOfFirst(field, ',');
    IndexOfSplit(field, ',', rest);
    var value := field + "," + rest;
    assert field[..|field|] == field && value[..|field|] == field && value[|field| + 1..] == rest;
  }

  lemma KeyAndValueExactly(key: string, value: string)
    requires '=' !in key
    ensures FieldKey(key + "=" + value) == Trim(key) && FieldValue(key + "=" + value) == Trim(value)
    ensures FieldKey(key) == Trim(key) && FieldValue(key) == ""
  {
    IndexOfFirst(key, '=');
    IndexOfSplit(key, '=', value);
    var field := key + "=" + value;
    assert key[..|key|] == key && field[..|key|] == key && field[|key| + 1..] == value;
  }

  /** A field of a mount that names the host. */
  lemma HostFieldExactly(key: string, value: string)
    requires '=' !in key
    ensures var k, v := Lower(Trim(key)), Trim(value);
      HostField(key + "=" + value) <==>
      (k == "type" && Lower(v) == "bind") || ((k == "source" || k == "src" || k == "from") && OnHost(v))
  {
    KeyAndValueExactly(key, value);
    HostPathExactly(Trim(value));
  }

  // ----- The multimap and the lines -----

  lemma {:induction false} CollectExactly(es: seq<Entry>, section: string, key: string, value: string)
    ensures value in Values(Collect(es), section, key) <==> Entry(section, key, value) in es
  {
    if es != [] {
      var front, last := es[..|es| - 1], es[|es| - 1];
      CollectExactly(front, section, key, value);
      LastOrFront(es, Entry(section, key, value));
      AddedValue(Collect(front), last, section, key, value);
    }
  }

  lemma LastOrFront(es: seq<Entry>, e: Entry)
    requires es != []
    ensures e in es <==> e in es[..|es| - 1] || e == es[|es| - 1]
  {
    assert es == es[..|es| - 1] + [es[|es| - 1]];
  }

  lemma AddedValue(m: Sections, e: Entry, section: string, key: string, value: string)
    ensures value in Values(Add(m, e), section, key) <==> value in Values(m, section, key) || Entry(section, key, value) == e
  {
    if section == e.section && key == e.key {
      assert Values(Add(m, e), section, key) == Values(m, section, key) + [e.value];
    }
  }

  ghost predicate HasKey(es: seq<Entry>, section: string, key: string) {
    exists e <- es :: e.section == section && e.key == key
  }

  ghost predicate HasSection(es: seq<Entry>, section: string) {
    exists e <- es :: e.section == section
  }

  lemma {:induction false} KeysExactly(es: seq<Entry>, section: string, key: string)
    ensures section in Collect(es) <==> HasSection(es, section)
    ensures section in Collect(es) && key in Collect(es)[section] <==> HasKey(es, section, key)
    ensures Values(Collect(es), section, key) != [] <==> HasKey(es, section, key)
  {
    if es != [] {
      var front, last := es[..|es| - 1], es[|es| - 1];
      KeysExactly(front, section, key);
      forall e: Entry ensures e in es <==> e in front || e == last {
        LastOrFront(es, e);
      }
    }
  }

  /** What the policy refuses a container. */
  ghost predicate Refused(key: string, value: string, p: QuadletPolicy) {
    || (key == "Network" && Lower(value) == "host" && !p.allowHostNetwork)
    || (key == "PID" && Lower(value) == "host" && !p.allowHostPid)
    || (key == "UserNS" && Lower(value) == "host" && !p.allowHostUserns)
    || (key == "IPCHost" && (Lower(value) == "1" || Lower(value) == "yes" || Lower(value) == "true" || Lower(value) == "on") && !p.allowHostIpc)
    || ((key == "Device" || key == "AddDevice") && value != "" && !p.allowDevices)
    || (!p.allowRootMount && MountsHost(key, value))
    || (key == "PodmanArgs" && (!p.allowPodmanArgs || AskForWithheld(PodmanArgs.Split(value), p)))
  }

  ghost predicate MountsHost(key: string, value: string) {
    || (key == "Rootfs" && value != "")
    || (key == "Volume" && OnHost(VolumeSource(value)))
    || (key == "Mount" && exists f <- Fields(value) :: HostField(f))
  }

  ghost predicate NothingRefused(m: Sections, p: QuadletPolicy) {
    forall key, value :: value in Values(m, "Container", key) ==> !Refused(key, value, p)
  }

  ghost predicate AllTrimmed(m: Sections) {
    forall key, value :: value in Values(m, "Container", key) ==> Trim(value) == value
  }

  /** One value of one key, as the policy looks at it. */
  lemma HostSpelled(value: string)
    requires Trim(value) == value
    ensures EqualsKey(value, "host") <==> Lower(value) == "host"
  {
    LowerKeeps("host");
  }

  lemma NamespaceFine(m: Sections, p: QuadletPolicy, key: string)
    requires AllTrimmed(m) && NothingRefused(m, p)
    requires (key == "Network" && !p.allowHostNetwork) || (key == "PID" && !p.allowHostPid) || (key == "UserNS" && !p.allowHostUserns)
    ensures forall v <- Values(m, "Container", key) :: !EqualsKey(v, "host")
  {
    forall v | v in Values(m, "Container", key) ensures !EqualsKey(v, "host") {
      assert Trim(v) == v && !Refused(key, v, p);
      HostSpelled(v);
    }
  }

  lemma IpcFine(m: Sections, p: QuadletPolicy)
    requires AllTrimmed(m) && NothingRefused(m, p) && !p.allowHostIpc
    ensures forall v <- Values(m, "Container", "IPCHost") :: !Truthy(v)
  {
    forall v | v in Values(m, "Container", "IPCHost") ensures !Truthy(v) {
      assert Trim(v) == v && !Refused("IPCHost", v, p);
    }
  }

  lemma NamespacesExactly(m: Sections, p: QuadletPolicy)
    requires AllTrimmed(m) && NothingRefused(m, p)
    ensures NamespacesPermitted(m, p)
  {
    if !p.allowHostNetwork {
      NamespaceFine(m, p, "Network");
    }
    if !p.allowHostPid {
      NamespaceFine(m, p, "PID");
    }
    if !p.allowHostUserns {
      NamespaceFine(m, p, "UserNS");
    }
    if !p.allowHostIpc {
      IpcFine(m, p);
    }
  }

  lemma EmptyFine(m: Sections, p: QuadletPolicy, key: string)
    requires AllTrimmed(m) && NothingRefused(m, p)
    requires ((key == "Device" || key == "AddDevice") && !p.allowDevices) || (key == "Rootfs" && !p.allowRootMount)
    ensures forall v <- Values(m, "Container", key) :: Trim(v) == ""
  {
    forall v | v in Values(m, "Container", key) ensures Trim(v) == "" {
      assert Trim(v) == v && !Refused(key, v, p);
    }
  }

  lemma VolumesFine(m: Sections, p: QuadletPolicy)
    requires NothingRefused(m, p) && !p.allowRootMount
    ensures forall v <- Values(m, "Container", "Volume") :: !HostPath(VolumeSource(v))
  {
    forall v | v in Values(m, "Container", "Volume") ensures !HostPath(VolumeSource(v)) {
      NotMounted("Volume", v, p);
      VolumeNotMounted(v);
    }
  }

  lemma NotMounted(key: string, value: string, p: QuadletPolicy)
    requires !p.allowRootMount && !Refused(key, value, p)
    ensures !MountsHost(key, value)
  {
  }

  lemma VolumeNotMounted(value: string)
    requires !MountsHost("Volume", value)
    ensures !HostPath(VolumeSource(value))
  {
    HostPathExactly(VolumeSource(value));
  }

  lemma MountNotMounted(value: string)
    requires !MountsHost("Mount", value) && Trim(value) == value
    ensures !HostMount(value)
  {
    AnyHostFieldMeans(Fields(value));
  }

  lemma MountsFine(m: Sections, p: QuadletPolicy)
    requires AllTrimmed(m) && NothingRefused(m, p) && !p.allowRootMount
    ensures forall v <- Values(m, "Container", "Mount") :: !HostMount(v)
  {
    forall v | v in Values(m, "Container", "Mount") ensures !HostMount(v) {
      assert Trim(v) == v;
      NotMounted("Mount", v, p);
      MountNotMounted(v);
    }
  }

  lemma HostAccessExactly(m: Sections, p: QuadletPolicy)
    requires AllTrimmed(m) && NothingRefused(m, p)
    ensures HostAccessPermitted(m, p)
  {
    if !p.allowDevices {
      EmptyFine(m, p, "Device");
      EmptyFine(m, p, "AddDevice");
    }
    if !p.allowRootMount {
      VolumesFine(m, p);
      MountsFine(m, p);
      EmptyFine(m, p, "Rootfs");
    }
  }

  lemma ArgsExactly(m: Sections, p: QuadletPolicy)
    requires NothingRefused(m, p)
    ensures ArgsPermitted(m, p)
  {
    forall v | v in Values(m, "Container", "PodmanArgs") ensures p.allowPodmanArgs && !Denied(PodmanArgs.Split(v), p) {
      assert !Refused("PodmanArgs", v, p);
      DeniedExactly(PodmanArgs.Split(v), p);
    }
    if Values(m, "Container", "PodmanArgs") != [] {
      assert Values(m, "Container", "PodmanArgs")[0] in Values(m, "Container", "PodmanArgs");
    }
  }

  lemma NamespaceRefused(m: Sections, p: QuadletPolicy, key: string, value: string)
    requires value in Values(m, "Container", key) && Trim(value) == value && Refused(key, value, p)
    requires key == "Network" || key == "PID" || key == "UserNS" || key == "IPCHost"
    ensures !NamespacesPermitted(m, p)
  {
    HostSpelled(value);
  }

  lemma AccessRefused(m: Sections, p: QuadletPolicy, key: string, value: string)
    requires value in Values(m, "Container", key) && Trim(value) == value
    requires ((key == "Device" || key == "AddDevice") && value != "" && !p.allowDevices) || (!p.allowRootMount && MountsHost(key, value))
    ensures !HostAccessPermitted(m, p)
  {
    if key == "Volume" {
      HostPathExactly(VolumeSource(value));
    } else if key == "Mount" {
      AnyHostFieldMeans(Fields(value));
    }
  }

  lemma RefusedIsNotPermitted(m: Sections, p: QuadletPolicy, key: string, value: string)
    requires AllTrimmed(m) && value in Values(m, "Container", key) && Refused(key, value, p)
    ensures !NamespacesPermitted(m, p) || !HostAccessPermitted(m, p) || !ArgsPermitted(m, p)
  {
    assert Trim(value) == value;
    if key == "PodmanArgs" {
      DeniedExactly(PodmanArgs.Split(value), p);
    } else if key == "Network" || key == "PID" || key == "UserNS" || key == "IPCHost" {
      NamespaceRefused(m, p, key, value);
    } else {
      AccessRefused(m, p, key, value);
    }
  }

  lemma PermittedExactly(m: Sections, p: QuadletPolicy)
    requires AllTrimmed(m)
    ensures NothingRefused(m, p) <==> NamespacesPermitted(m, p) && HostAccessPermitted(m, p) && ArgsPermitted(m, p)
  {
    if NothingRefused(m, p) {
      NamespacesExactly(m, p);
      HostAccessExactly(m, p);
      ArgsExactly(m, p);
    }
    if key, value :| value in Values(m, "Container", key) && Refused(key, value, p) {
      RefusedIsNotPermitted(m, p, key, value);
    }
  }

  ghost predicate LinesListed(es: seq<Entry>) {
    forall e <- es :: Listed(e.section, e.key)
  }

  ghost predicate LinesHarmless(es: seq<Entry>, p: QuadletPolicy) {
    forall e <- es :: e.section == "Container" ==> !Refused(e.key, e.value, p)
  }

  lemma ListedExactly(es: seq<Entry>)
    ensures AllowedKeys(Collect(es)) <==> LinesListed(es)
  {
    var m := Collect(es);
    if LinesListed(es) {
      forall s, k | s in m && k in m[s] ensures s in ALLOWED && k in ALLOWED[s] && !DangerousServiceKey(k) {
        KeysExactly(es, s, k);
        ListExactly(s, k);
        ListedIsHarmless(s, k);
      }
      forall s | s in m ensures s in ALLOWED {
        KeysExactly(es, s, "");
        var e :| e in es && e.section == s;
        ListExactly(s, e.key);
      }
    }
    if AllowedKeys(m) {
      forall e | e in es ensures Listed(e.section, e.key) {
        KeysExactly(es, e.section, e.key);
        assert HasKey(es, e.section, e.key);
        ListExactly(e.section, e.key);
      }
    }
  }

  lemma HarmlessExactly(es: seq<Entry>, p: QuadletPolicy)
    ensures NothingRefused(Collect(es), p) <==> LinesHarmless(es, p)
  {
    forall key, value ensures value in Values(Collect(es), "Container", key) <==> Entry("Container", key, value) in es {
      CollectExactly(es, "Container", key, value);
    }
    if NothingRefused(Collect(es), p) {
      forall e | e in es && e.section == "Container" ensures !Refused(e.key, e.value, p) {
        assert Entry("Container", e.key, e.value) in es;
      }
    }
  }

  lemma ReadIsTrimmed(text: string)
    requires Scan(text, 0, "").Ok?
    ensures AllTrimmed(Collect(Scan(text, 0, "").value.entries))
  {
    var es := Scan(text, 0, "").value.entries;
    QuadletLaws.ScanIsWellFormed(text, 0, "");
    forall key, value | value in Values(Collect(es), "Container", key) ensures Trim(value) == value {
      CollectExactly(es, "Container", key, value);
      TrimFixed(value);
    }
  }

  /** What the lines of an accepted text say. */
  ghost predicate Acceptable(es: seq<Entry>, p: QuadletPolicy) {
    && LinesListed(es) && LinesHarmless(es, p)
    && (p.requireContainerSection ==> HasSection(es, "Container"))
    && (p.requireImage ==> HasKey(es, "Container", "Image"))
    && (p.requireManagedLabel ==> OneManagedLabel(Values(Collect(es), "Container", "Label"), p))
  }

  lemma PermittedByLines(es: seq<Entry>, p: QuadletPolicy)
    requires AllTrimmed(Collect(es))
    ensures Permitted(Collect(es), p) <==> Acceptable(es, p)
  {
    KeysExactly(es, "Container", "Image");
    ListedExactly(es);
    HarmlessExactly(es, p);
    PermittedExactly(Collect(es), p);
  }

  /** The policy decision, from the lines alone: a Quadlet is accepted if and only if its name is valid, its text
      is not empty, holds no zero byte and can be read, every line has a listed key and asks for nothing withheld,
      and the required lines are there. */
  lemma LinesDecide(f: QuadletFile, p: QuadletPolicy)
    ensures Admissible(f, p) <==>
      && Names.ValidQuadletFileName(f.fileName) && f.contents != "" && '\0' !in f.contents
      && Scan(f.contents, 0, "").Ok? && Acceptable(Scan(f.contents, 0, "").value.entries, p)
  {
    if Scan(f.contents, 0, "").Ok? {
      ReadIsTrimmed(f.contents);
      PermittedByLines(Scan(f.contents, 0, "").value.entries, p);
    }
  }

  // ----- Lines of a text -----

  lemma OneSection(ts: seq<string>, i: nat, a: string, b: string)
    requires i <= |ts| && BelongsTo(ts, i, a) && BelongsTo(ts, i, b)
    ensures a == b
  {
    var j: nat :| LastHeader(ts, i, j) && a == HeaderName(ts[j]);
    var k: nat :| LastHeader(ts, i, k) && b == HeaderName(ts[k]);
    assert j == k;
  }

  /** Line `i` of the text, trimmed, is `key=value`, below the header of the section. */
  ghost predicate HasLine(text: string, i: nat, section: string, key: string, value: string) {
    var ts := TrimmedLines(text);
    i < |ts| && BelongsTo(ts, i, section) && ts[i] == key + "=" + value
  }

  /** A key and a value as they can stand in a line. */
  ghost predicate Plain(key: string, value: string) {
    key != "" && Trimmed(key) && Trimmed(value) && '=' !in key && key[0] !in "#;["
  }

  lemma InPrefix(t: string, i: nat, j: nat)
    requires i < j <= |t|
    ensures t[i] in t[..j]
  {
    assert t[..j][i] == t[i];
  }

  lemma OneEquals(t: string, i: nat, j: nat)
    requires EqualsAt(t, i) && EqualsAt(t, j)
    ensures i == j
  {
    if i < j {
      InPrefix(t, i, j);
    } else if j < i {
      InPrefix(t, j, i);
    }
  }

  lemma LineSays(ts: seq<string>, i: nat, section: string, key: string, value: string, e: Entry)
    requires i < |ts| && BelongsTo(ts, i, section) && ts[i] == key + "=" + value && Plain(key, value) && Says(ts, i, e)
    ensures e == Entry(section, key, value)
  {
    OneSection(ts, i, section, e.section);
    var t := ts[i];
    assert t[..|key|] == key && t[|key|] == '=' && t[|key| + 1..] == value;
    var eq: nat :| EqualsAt(t, eq) && e.key == Trim(t[..eq]) && e.value == Trim(t[eq + 1..]);
    OneEquals(t, eq, |key|);
    TrimFixed(key);
    TrimFixed(value);
  }

  /** What such a line says is read, if the text can be read at all. */
  lemma LineIsRead(text: string, i: nat, section: string, key: string, value: string)
    requires HasLine(text, i, section, key, value) && Plain(key, value) && Scan(text, 0, "").Ok?
    ensures Entry(section, key, value) in Scan(text, 0, "").value.entries
  {
    var ts := TrimmedLines(text);
    ReadExactly(text);
    var es := Scan(text, 0, "").value.entries;
    assert ts[i][0] == key[0];
    var e := SaidIsRead(ts, |ts|, es, i);
    LineSays(ts, i, section, key, value, e);
  }

  /** One line with a key that is not listed, or that asks for what is withheld, keeps a text from being accepted. */
  lemma BadLineIsRefused(f: QuadletFile, p: QuadletPolicy, i: nat, section: string, key: string, value: string)
    requires HasLine(f.contents, i, section, key, value) && Plain(key, value)
    requires !Listed(section, key) || (section == "Container" && Refused(key, value, p))
    ensures !Admissible(f, p)
  {
    LinesDecide(f, p);
    if Scan(f.contents, 0, "").Ok? {
      LineIsRead(f.contents, i, section, key, value);
      BadEntry(Scan(f.contents, 0, "").value.entries, Entry(section, key, value), p);
    }
  }

  lemma BadEntry(es: seq<Entry>, e: Entry, p: QuadletPolicy)
    requires e in es && (!Listed(e.section, e.key) || (e.section == "Container" && Refused(e.key, e.value, p)))
    ensures !LinesListed(es) || !LinesHarmless(es, p)
  {
  }

  lemma PodmanArgsRefused(value: string, p: QuadletPolicy)
    requires AskForWithheld(PodmanArgs.Split(value), p)
    ensures Refused("PodmanArgs", value, p)
  {
  }

  lemma PlainPodmanArgs(value: string)
    requires Trimmed(value)
    ensures Plain("PodmanArgs", value)
  {
  }

  /** However its arguments are quoted, spaced and spelled, a `PodmanArgs` line that asks for what the policy
      withholds keeps the text from being accepted. */
  lemma PodmanArgsLineIsRefused(f: QuadletFile, p: QuadletPolicy, i: nat, ws: seq<PodmanArgs.Word>, tail: string)
    requires PodmanArgs.LegalWords(ws, true) && AllSpace(tail) && AskForWithheld(PodmanArgs.MeantWords(ws), p)
    requires Trimmed(PodmanArgs.ShowWords(ws, tail))
    requires HasLine(f.contents, i, "Container", "PodmanArgs", PodmanArgs.ShowWords(ws, tail))
    ensures !Admissible(f, p)
  {
    var value := PodmanArgs.ShowWords(ws, tail);
    PodmanArgs.TokensReadBack(ws, tail);
    PodmanArgsRefused(value, p);
    PlainPodmanArgs(value);
    BadLineIsRefused(f, p, i, "Container", "PodmanArgs", value);
  }
}

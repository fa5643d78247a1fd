/** The container specification and its JSON text. */
module ContainerSpec {
  import opened Text
  import opened Json
  import opened JsonText

  datatype CpuLimits = CpuLimits(period: Option<int>, quota: Option<int>, shares: Option<int>, cpus: Option<string>)

  datatype MemoryLimits = MemoryLimits(limit: Option<int>, swap: Option<int>)

  datatype PidsLimits = PidsLimits(limit: Option<int>)

  datatype ResourceLimits = ResourceLimits(cpu: Option<CpuLimits>, memory: Option<MemoryLimits>, pids: Option<PidsLimits>)

  datatype Binding = Binding(key: string, value: string)

  /** `std::string::operator<`. */
  predicate Less(a: string, b: string) {
    b != "" && (a == "" || a[0] < b[0] || (a[0] == b[0] && Less(a[1..], b[1..])))
  }

  /** A `std::map<std::string, std::string>` as its iteration order presents it. */
  ghost predicate Ordered(m: seq<Binding>) {
    forall i, j :: 0 <= i < j < |m| ==> Less(m[i].key, m[j].key)
  }

  type SortedMap = m: seq<Binding> | Ordered(m) witness []

  datatype Spec = Spec(
    name: string, image: string, command: seq<string>, env: SortedMap, labels: SortedMap,
    readOnlyFilesystem: bool, capDrop: seq<string>, securityOpt: seq<string>, resourceLimits: Option<ResourceLimits>)

  // ----- Validation -----

  predicate HasControl(s: string) {
    exists c <- s :: c < ' '
  }

  predicate ValidContainerName(s: string) {
    && 0 < |s| <= 128
    && IsAlnum(s[0])
    && forall c <- s[1..] :: IsAlnum(c) || c == '_' || c == '.' || c == '-'
  }

  predicate ValidKey(s: string) {
    s != "" && !HasControl(s)
  }

  predicate ValidCpuset(s: string) {
    s != "" && forall c <- s :: IsDigit(c) || c == ',' || c == '-'
  }

  predicate Positive(v: Option<int>) {
    v.Some? ==> v.value > 0
  }

  predicate ValidLimits(r: ResourceLimits) {
    && (r.cpu.Some? ==>
          && Positive(r.cpu.value.period) && Positive(r.cpu.value.quota) && Positive(r.cpu.value.shares)
          && (r.cpu.value.cpus.Some? ==> ValidCpuset(r.cpu.value.cpus.value)))
    && (r.memory.Some? ==> Positive(r.memory.value.limit) && Positive(r.memory.value.swap))
    && (r.pids.Some? ==> Positive(r.pids.value.limit))
  }

  predicate WellNamed(s: Spec) {
    && ValidContainerName(s.name)
    && s.image != "" && !HasControl(s.image)
    && (forall b <- s.env :: ValidKey(b.key))
    && (forall b <- s.labels :: ValidKey(b.key))
  }

  /** `validate_container_spec`. */
  function ValidateContainerSpec(s: Spec): Result<(), ErrorKind> {
    if !WellNamed(s) then Err(InvalidArgument)
    else if s.resourceLimits.Some? && !ValidLimits(s.resourceLimits.value) then Err(PolicyViolation)
    else Ok(())
  }

  // ----- The tree a specification means -----

  function Bindings(m: seq<Binding>): Json {
    Object(seq(|m|, i requires 0 <= i < |m| => Member(m[i].key, String(m[i].value))))
  }

  function Integer(n: int): Json {
    Number(if n >= 0 then Decimal(n) else "-" + Decimal(-n))
  }

  /** A field that is written only when it has a value. */
  datatype Slot = Slot(name: string, value: Option<Json>)

  /** The members of the slots that are filled. */
  function Present(slots: seq<Slot>): seq<Member> {
    if slots == [] then []
    else
      var slot := slots[|slots| - 1];
      Present(slots[..|slots| - 1]) + if slot.value.Some? then [Member(slot.name, slot.value.value)] else []
  }

  function MaybeInteger(v: Option<int>): Option<Json> {
    if v.Some? then Some(Integer(v.value)) else None
  }

  function MaybeStrings(values: seq<string>): Option<Json> {
    if values != [] then Some(Strings(values)) else None
  }

  function MaybeBindings(m: seq<Binding>): Option<Json> {
    if m != [] then Some(Bindings(m)) else None
  }

  function CpuSlots(c: CpuLimits): seq<Slot> {
    [Slot("period", MaybeInteger(c.period)), Slot("quota", MaybeInteger(c.quota)), Slot("shares", MaybeInteger(c.shares)),
     Slot("cpus", if c.cpus.Some? then Some(String(c.cpus.value)) else None)]
  }

  function MemorySlots(m: MemoryLimits): seq<Slot> {
    [Slot("limit", MaybeInteger(m.limit)), Slot("swap", MaybeInteger(m.swap))]
  }

  function PidsSlots(p: PidsLimits): seq<Slot> {
    [Slot("limit", MaybeInteger(p.limit))]
  }

  function LimitsSlots(r: ResourceLimits): seq<Slot> {
    [Slot("cpu", if r.cpu.Some? then Some(Object(Present(CpuSlots(r.cpu.value)))) else None),
     Slot("memory", if r.memory.Some? then Some(Object(Present(MemorySlots(r.memory.value)))) else None),
     Slot("pids", if r.pids.Some? then Some(Object(Present(PidsSlots(r.pids.value)))) else None)]
  }

  function SpecSlots(s: Spec): seq<Slot> {
    [Slot("name", Some(String(s.name))), Slot("image", Some(String(s.image))),
     Slot("command", MaybeStrings(s.command)), Slot("env", MaybeBindings(s.env)), Slot("labels", MaybeBindings(s.labels)),
     Slot("read_only_filesystem", Some(Bool(s.readOnlyFilesystem))),
     Slot("cap_drop", MaybeStrings(s.capDrop)), Slot("security_opt", MaybeStrings(s.securityOpt)),
     Slot("resource_limits", if s.resourceLimits.Some? then Some(Object(Present(LimitsSlots(s.resourceLimits.value)))) else None)]
  }

  function TreeOf(s: Spec): Json {
    Object(Present(SpecSlots(s)))
  }

  // ----- The printers -----

  /** `append_json_string`. */
  method AppendJsonString(out: string, value: string) returns (r: string)
    ensures r == out + Quote(value)
  {
    r := out + "\"";
    assert value[0..] == value;
    ghost var goal := r + Escape(value);
    for i := 0 to |value|
      invariant r + Escape(value[i..]) == goal
    {
      EachCharStep(r, value, i, EscapeChar);
      r := r + EscapeChar(value[i]);
    }
    assert value[|value|..] == "" && r + "" == r;
    r := r + "\"";
    QuoteGroups(out, value);
  }

  lemma QuoteGroups(out: string, value: string)
    ensures out + "\"" + Escape(value) + "\"" == out + Quote(value)
  {
  }

  method JsonString(value: string) returns (r: string)
    ensures r == Print(String(value))
  {
    r := AppendJsonString("", value);
    NothingBefore(Quote(value));
  }

  lemma NothingBefore(s: string)
    ensures "" + s == s
  {
  }

  /** What is printed so far of an object or an array. */
  ghost predicate Prefixes(out: string, ms: seq<Member>) {
    out == "{" + PrintMembers(ms)
  }

  lemma {:induction false} PrintMembersAppends(ms: seq<Member>, m: Member)
    ensures PrintMembers(ms + [m]) == PrintMembers(ms) + ((if ms == [] then "" else ",") + PrintMember(m))
  {
    if ms == [] {
      assert ms + [m] == [m];
      NothingBefore(PrintMember(m));
      NothingBefore("" + PrintMember(m));
      assert PrintMember(m) + "" == PrintMember(m);
    } else {
      assert (ms + [m])[1..] == ms[1..] + [m];
      PrintMembersAppends(ms[1..], m);
      var tail := "," + PrintMember(m);
      PrintMembersUnfolds(ms, tail);
      if |ms| == 1 {
        assert ms[1..] == [];
        NothingBefore(PrintMember(m));
        NothingBefore("" + PrintMember(m));
      }
    }
  }

  /** `append_field`: one more member, with a comma in front unless it is the first. */
  method AppendField(out: string, first: bool, name: string, raw: string, ghost ms: seq<Member>, ghost v: Json)
    returns (r: string, stillFirst: bool)
    requires Prefixes(out, ms) && (first <==> ms == []) && raw == Print(v)
    ensures Prefixes(r, ms + [Member(name, v)]) && !stillFirst
  {
    r := out;
    if !first {
      r := r + ",";
    }
    stillFirst := false;
    ghost var before := r;
    r := AppendJsonString(r, name);
    r := r + ":";
    r := r + raw;
    FieldGroups(before, name, raw);
    ghost var comma := if first then "" else ",";
    assert before == out + comma;
    PrintMembersAppends(ms, Member(name, v));
    Enclosed("{", PrintMembers(ms), comma, PrintMember(Member(name, v)));
  }

  lemma FieldGroups(out: string, name: string, raw: string)
    ensures out + Quote(name) + ":" + raw == out + (Quote(name) + ":" + raw)
  {
  }

  lemma {:induction false} PrintItemsAppends(items: seq<Json>, v: Json)
    ensures PrintItems(items + [v]) == PrintItems(items) + ((if items == [] then "" else ",") + Print(v))
  {
    if items == [] {
      assert items + [v] == [v];
      NothingBefore(Print(v));
      NothingBefore("" + Print(v));
      assert Print(v) + "" == Print(v);
    } else {
      assert (items + [v])[1..] == items[1..] + [v];
      PrintItemsAppends(items[1..], v);
      var tail := "," + Print(v);
      PrintItemsUnfolds(items, tail);
      if |items| == 1 {
        assert items[1..] == [];
        NothingBefore(Print(v));
        NothingBefore("" + Print(v));
      }
    }
  }

  /** `json_string_array`. */
  method JsonStringArray(values: seq<string>) returns (out: string)
    ensures out == Print(Strings(values))
  {
    out := "[";
    var first := true;
    ghost var items := Strings(values).items;
    assert items[..0] == [];
    for i := 0 to |values|
      invariant out == "[" + PrintItems(items[..i]) && (first <==> i == 0)
    {
      ghost var comma := if first then "" else ",";
      ghost var before := out;
      if !first {
        out := out + ",";
      }
      first := false;
      out := AppendJsonString(out, values[i]);
      assert out == before + comma + Quote(values[i]);
      PrintItemsAppends(items[..i], items[i]);
      assert items[..i + 1] == items[..i] + [items[i]];
      Enclosed("[", PrintItems(items[..i]), comma, Quote(values[i]));
    }
    assert items[..|values|] == items;
    out := out + "]";
  }

  /** `json_string_map`. */
  method JsonStringMap(values: seq<Binding>) returns (out: string)
    ensures out == Print(Bindings(values))
  {
    out := "{";
    var first := true;
    ghost var ms := Bindings(values).members;
    assert ms[..0] == [];
    for i := 0 to |values|
      invariant Prefixes(out, ms[..i]) && (first <==> i == 0)
    {
      var raw := JsonString(values[i].value);
      assert ms[..i + 1] == ms[..i] + [Member(values[i].key, String(values[i].value))];
      out, first := AppendField(out, first, values[i].key, raw, ms[..i], String(values[i].value));
    }
    assert ms[..|values|] == ms;
    out := out + "}";
  }

  /** What has been printed of an object: its slots so far, and whether the next member needs no comma. */
  ghost predicate Printed(out: string, first: bool, slots: seq<Slot>) {
    Prefixes(out, Present(slots)) && (first <==> Present(slots) == [])
  }

  /** The text of an optional field. */
  function Raw(v: Option<Json>): Option<string> {
    if v.Some? then Some(Print(v.value)) else None
  }

  /** `append_field` under the condition that field `k` is set. */
  method AppendSlot(out: string, first: bool, name: string, raw: Option<string>, ghost slots: seq<Slot>, ghost k: nat)
    returns (r: string, stillFirst: bool)
    requires k < |slots| && slots[k].name == name && Printed(out, first, slots[..k])
    requires raw == Raw(slots[k].value)
    ensures Printed(r, stillFirst, slots[..k + 1])
  {
    assert slots[..k + 1][..k] == slots[..k];
    r, stillFirst := out, first;
    if raw.Some? {
      r, stillFirst := AppendField(out, first, name, raw.value, Present(slots[..k]), slots[k].value.value);
    } else {
      assert Present(slots[..k]) + [] == Present(slots[..k]);
    }
  }

  function Rendered(v: Option<int>): (r: Option<string>)
    ensures r == Raw(MaybeInteger(v))
  {
    if v.None? then None else if v.value >= 0 then Some(Decimal(v.value)) else Some("-" + Decimal(-v.value))
  }

  method MaybeQuoted(v: Option<string>) returns (raw: Option<string>)
    ensures raw == Raw(if v.Some? then Some(String(v.value)) else None)
  {
    raw := None;
    if v.Some? {
      var text := JsonString(v.value);
      raw := Some(text);
    }
  }

  method CpuFields(c: CpuLimits, ghost slots: seq<Slot>) returns (out: string)
    requires |slots| == 4
    requires slots[0] == Slot("period", MaybeInteger(c.period)) && slots[1] == Slot("quota", MaybeInteger(c.quota))
    requires slots[2] == Slot("shares", MaybeInteger(c.shares))
    requires slots[3] == Slot("cpus", if c.cpus.Some? then Some(String(c.cpus.value)) else None)
    ensures Prefixes(out, Present(slots))
  {
    var first := true;
    var cpus := MaybeQuoted(c.cpus);
    assert slots[..0] == [];
    out, first := AppendSlot("{", first, "period", Rendered(c.period), slots, 0);
    out, first := AppendSlot(out, first, "quota", Rendered(c.quota), slots, 1);
    out, first := AppendSlot(out, first, "shares", Rendered(c.shares), slots, 2);
    out, first := AppendSlot(out, first, "cpus", cpus, slots, 3);
    assert slots[..4] == slots;
  }

  method CpuJson(c: CpuLimits) returns (out: string)
    ensures out == Print(Object(Present(CpuSlots(c))))
  {
    out := CpuFields(c, CpuSlots(c));
    out := out + "}";
  }

  method MemoryJson(m: MemoryLimits) returns (out: string)
    ensures out == Print(Object(Present(MemorySlots(m))))
  {
    ghost var slots := MemorySlots(m);
    var first := true;
    out, first := AppendSlot("{", first, "limit", Rendered(m.limit), slots, 0);
    out, first := AppendSlot(out, first, "swap", Rendered(m.swap), slots, 1);
    assert slots[..2] == slots;
    out := out + "}";
  }

  method PidsJson(p: PidsLimits) returns (out: string)
    ensures out == Print(Object(Present(PidsSlots(p))))
  {
    ghost var slots := PidsSlots(p);
    var first := true;
    out, first := AppendSlot("{", first, "limit", Rendered(p.limit), slots, 0);
    assert slots[..1] == slots;
    out := out + "}";
  }

  method LimitsFields(cpu: Option<string>, memory: Option<string>, pids: Option<string>, ghost slots: seq<Slot>)
    returns (out: string)
    requires |slots| == 3
    requires slots[0].name == "cpu" && cpu == Raw(slots[0].value)
    requires slots[1].name == "memory" && memory == Raw(slots[1].value)
    requires slots[2].name == "pids" && pids == Raw(slots[2].value)
    ensures Prefixes(out, Present(slots))
  {
    var first := true;
    assert slots[..0] == [];
    out, first := AppendSlot("{", first, "cpu", cpu, slots, 0);
    out, first := AppendSlot(out, first, "memory", memory, slots, 1);
    out, first := AppendSlot(out, first, "pids", pids, slots, 2);
    assert slots[..3] == slots;
  }

  /** `resource_limits_json`. */
  method ResourceLimitsJson(r: ResourceLimits) returns (out: string)
    ensures out == Print(Object(Present(LimitsSlots(r))))
  {
    var cpu, memory, pids: Option<string> := None, None, None;
    if r.cpu.Some? {
      var text := CpuJson(r.cpu.value);
      cpu := Some(text);
    }
    if r.memory.Some? {
      var text := MemoryJson(r.memory.value);
      memory := Some(text);
    }
    if r.pids.Some? {
      var text := PidsJson(r.pids.value);
      pids := Some(text);
    }
    out := LimitsFields(cpu, memory, pids, LimitsSlots(r));
    out := out + "}";
  }

  method MaybeArray(values: seq<string>) returns (raw: Option<string>)
    ensures raw == Raw(MaybeStrings(values))
  {
    raw := None;
    if values != [] {
      var text := JsonStringArray(values);
      raw := Some(text);
    }
  }

  method MaybeMap(values: seq<Binding>) returns (raw: Option<string>)
    ensures raw == Raw(MaybeBindings(values))
  {
    raw := None;
    if values != [] {
      var text := JsonStringMap(values);
      raw := Some(text);
    }
  }

  /** The fields up to `labels`. */
  method IdentityJson(s: Spec, ghost slots: seq<Slot>) returns (out: string, first: bool)
    requires |slots| >= 5
    requires slots[0] == Slot("name", Some(String(s.name))) && slots[1] == Slot("image", Some(String(s.image)))
    requires slots[2] == Slot("command", MaybeStrings(s.command))
    requires slots[3] == Slot("env", MaybeBindings(s.env)) && slots[4] == Slot("labels", MaybeBindings(s.labels))
    ensures Printed(out, first, slots[..5])
  {
    first := true;
    var name := JsonString(s.name);
    var image := JsonString(s.image);
    var command := MaybeArray(s.command);
    var env := MaybeMap(s.env);
    var labels := MaybeMap(s.labels);
    assert slots[..0] == [];
    out, first := AppendSlot("{", first, "name", Some(name), slots, 0);
    out, first := AppendSlot(out, first, "image", Some(image), slots, 1);
    out, first := AppendSlot(out, first, "command", command, slots, 2);
    out, first := AppendSlot(out, first, "env", env, slots, 3);
    out, first := AppendSlot(out, first, "labels", labels, slots, 4);
  }

  /** The fields after `labels`. */
  method OtherFields(s: Spec, start: string, startFirst: bool, limits: Option<string>, ghost slots: seq<Slot>)
    returns (out: string)
    requires |slots| == 9 && Printed(start, startFirst, slots[..5])
    requires slots[5] == Slot("read_only_filesystem", Some(Bool(s.readOnlyFilesystem)))
    requires slots[6] == Slot("cap_drop", MaybeStrings(s.capDrop))
    requires slots[7] == Slot("security_opt", MaybeStrings(s.securityOpt))
    requires slots[8].name == "resource_limits" && limits == Raw(slots[8].value)
    ensures Prefixes(out, Present(slots))
  {
    var first: bool;
    var capDrop := MaybeArray(s.capDrop);
    var securityOpt := MaybeArray(s.securityOpt);
    var readOnly := if s.readOnlyFilesystem then "true" else "false";
    out, first := AppendSlot(start, startFirst, "read_only_filesystem", Some(readOnly), slots, 5);
    out, first := AppendSlot(out, first, "cap_drop", capDrop, slots, 6);
    out, first := AppendSlot(out, first, "security_opt", securityOpt, slots, 7);
    out, first := AppendSlot(out, first, "resource_limits", limits, slots, 8);
    assert slots[..9] == slots;
  }

  /** `to_podman_create_json`: the text of the tree the specification means, for every accepted one. */
  method ToPodmanCreateJson(s: Spec) returns (r: Result<string, ErrorKind>)
    ensures match ValidateContainerSpec(s)
            case Ok(_) => r == Ok(Print(TreeOf(s)))
            case Err(kind) => r == Err(kind)
  {
    var valid := ValidateContainerSpec(s);
    if valid.Err? {
      return Err(valid.error);
    }
    ghost var slots := SpecSlots(s);
    var out, first := IdentityJson(s, slots);
    var limits: Option<string> := None;
    if s.resourceLimits.Some? {
      var text := ResourceLimitsJson(s.resourceLimits.value);
      limits := Some(text);
    }
    out := OtherFields(s, out, first, limits, slots);
    r := Ok(out + "}");
  }
}

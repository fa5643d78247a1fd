/** The JSON of a container specification means that specification and nothing else; likewise label filters. */
module SpecLaws {
  import opened Text
  import opened Json
  import opened JsonText
  import opened ContainerSpec

  // ----- The text is readable -----

  lemma StringsPrintable(values: seq<string>)
    ensures Printable(Strings(values)) && NoDuplicates(Strings(values))
  {
  }

  lemma {:induction false} LessIsIrreflexive(a: string)
    ensures !Less(a, a)
    decreases |a|
  {
    if a != "" {
      LessIsIrreflexive(a[1..]);
    }
  }

  lemma BindingsPrintable(m: SortedMap)
    ensures Printable(Bindings(m)) && NoDuplicates(Bindings(m))
  {
    var ms := Bindings(m).members;
    forall i, j | 0 <= i < j < |ms| ensures ms[i].name != ms[j].name {
      assert Less(m[i].key, m[j].key);
      LessIsIrreflexive(m[i].key);
    }
  }

  lemma IntegerPrintable(n: int)
    requires n > 0
    ensures Printable(Integer(n)) && NoDuplicates(Integer(n))
  {
    var m: nat := n;
    assert Integer(n).lexeme == Decimal(m);
  }

  ghost predicate Distinct(slots: seq<Slot>) {
    forall i, j :: 0 <= i < j < |slots| ==> slots[i].name != slots[j].name
  }

  ghost predicate Sound(v: Option<Json>) {
    v.Some? ==> Printable(v.value) && NoDuplicates(v.value)
  }

  ghost predicate NamedIn(name: string, slots: seq<Slot>) {
    exists k :: 0 <= k < |slots| && slots[k].name == name
  }

  lemma {:induction false} PresentNames(slots: seq<Slot>)
    ensures forall i :: 0 <= i < |Present(slots)| ==> NamedIn(Present(slots)[i].name, slots)
  {
    if slots != [] {
      var front, n := slots[..|slots| - 1], |slots| - 1;
      PresentNames(front);
      forall i | 0 <= i < |Present(slots)| ensures NamedIn(Present(slots)[i].name, slots) {
        if i < |Present(front)| {
          var k :| 0 <= k < |front| && front[k].name == Present(front)[i].name;
          assert slots[k].name == Present(slots)[i].name;
        } else {
          assert slots[n].name == Present(slots)[i].name;
        }
      }
    }
  }

  /** The filled slots make an object that can be printed and has no duplicates. */
  lemma {:induction false} PresentIsSound(slots: seq<Slot>)
    requires Distinct(slots) && forall i :: 0 <= i < |slots| ==> Sound(slots[i].value)
    ensures Sound(Some(Object(Present(slots))))
  {
    if slots != [] {
      var front, slot := slots[..|slots| - 1], slots[|slots| - 1];
      PresentIsSound(front);
      PresentNames(front);
      var ms := Present(front);
      forall i | 0 <= i < |ms| ensures ms[i].name != slot.name {
        assert NamedIn(ms[i].name, front);
      }
    }
  }

  /** The value of the member of that name. */
  function Find(ms: seq<Member>, name: string): Option<Json> {
    if ms == [] then None
    else if ms[|ms| - 1].name == name then Some(ms[|ms| - 1].value)
    else Find(ms[..|ms| - 1], name)
  }

  lemma {:induction false} FindAbsent(slots: seq<Slot>, name: string)
    requires forall i :: 0 <= i < |slots| ==> slots[i].name != name
    ensures Find(Present(slots), name) == None
  {
    if slots != [] {
      var front, slot := slots[..|slots| - 1], slots[|slots| - 1];
      FindAbsent(front, name);
      FindInLast(Present(front), slot, name);
    }
  }

  lemma FindInLast(ms: seq<Member>, slot: Slot, name: string)
    ensures Find(ms + (if slot.value.Some? then [Member(slot.name, slot.value.value)] else []), name) ==
            if slot.value.Some? && slot.name == name then slot.value else Find(ms, name)
  {
    if slot.value.Some? {
      assert (ms + [Member(slot.name, slot.value.value)])[..|ms|] == ms;
    } else {
      assert ms + [] == ms;
    }
  }

  /** A member is there exactly when its slot is filled, with the value of the slot. */
  lemma {:induction false} FindPresent(slots: seq<Slot>, k: nat)
    requires Distinct(slots) && k < |slots|
    ensures Find(Present(slots), slots[k].name) == slots[k].value
  {
    var n := |slots| - 1;
    FindInLast(Present(slots[..n]), slots[n], slots[k].name);
    if k == n {
      FindAbsent(slots[..n], slots[k].name);
    } else {
      FindPresent(slots[..n], k);
    }
  }

  /** The fixed field names, told apart by their places. */
  function Place(name: string): nat {
    if name == "name" then 0 else if name == "image" then 1 else if name == "command" then 2
    else if name == "env" then 3 else if name == "labels" then 4 else if name == "read_only_filesystem" then 5
    else if name == "cap_drop" then 6 else if name == "security_opt" then 7 else 8
  }

  lemma SpecSlotsDistinct(s: Spec)
    ensures Distinct(SpecSlots(s))
  {
    var slots := SpecSlots(s);
    assert Place("resource_limits") == 8;
    forall i | 0 <= i < |slots| ensures Place(slots[i].name) == i {
    }
  }

  lemma CpuIsSound(c: CpuLimits)
    requires Positive(c.period) && Positive(c.quota) && Positive(c.shares)
    ensures Sound(Some(Object(Present(CpuSlots(c)))))
  {
    if c.period.Some? {
      IntegerPrintable(c.period.value);
    }
    if c.quota.Some? {
      IntegerPrintable(c.quota.value);
    }
    if c.shares.Some? {
      IntegerPrintable(c.shares.value);
    }
    PresentIsSound(CpuSlots(c));
  }

  lemma MemoryIsSound(m: MemoryLimits)
    requires Positive(m.limit) && Positive(m.swap)
    ensures Sound(Some(Object(Present(MemorySlots(m)))))
  {
    if m.limit.Some? {
      IntegerPrintable(m.limit.value);
    }
    if m.swap.Some? {
      IntegerPrintable(m.swap.value);
    }
    PresentIsSound(MemorySlots(m));
  }

  lemma PidsIsSound(p: PidsLimits)
    requires Positive(p.limit)
    ensures Sound(Some(Object(Present(PidsSlots(p)))))
  {
    if p.limit.Some? {
      IntegerPrintable(p.limit.value);
    }
    PresentIsSound(PidsSlots(p));
  }

  lemma LimitsAreSound(r: ResourceLimits)
    requires ValidLimits(r)
    ensures Sound(Some(Object(Present(LimitsSlots(r)))))
  {
    if r.cpu.Some? {
      CpuIsSound(r.cpu.value);
    }
    if r.memory.Some? {
      MemoryIsSound(r.memory.value);
    }
    if r.pids.Some? {
      PidsIsSound(r.pids.value);
    }
    PresentIsSound(LimitsSlots(r));
  }

  lemma SpecSlotsSound(s: Spec, i: nat)
    requires ValidateContainerSpec(s).Ok? && i < |SpecSlots(s)|
    ensures Sound(SpecSlots(s)[i].value)
  {
    if i == 2 {
      StringsPrintable(s.command);
    } else if i == 3 {
      BindingsPrintable(s.env);
    } else if i == 4 {
      BindingsPrintable(s.labels);
    } else if i == 6 {
      StringsPrintable(s.capDrop);
    } else if i == 7 {
      StringsPrintable(s.securityOpt);
    } else if i == 8 && s.resourceLimits.Some? {
      LimitsAreSound(s.resourceLimits.value);
    }
  }

  /** For every accepted specification the text is a JSON text, denotes exactly the intended tree, and names no
      member twice. */
  lemma SpecReadsBack(s: Spec)
    requires ValidateContainerSpec(s).Ok?
    ensures ReadJson(Print(TreeOf(s))) == Some(TreeOf(s))
    ensures NoDuplicates(TreeOf(s))
  {
    forall i | 0 <= i < |SpecSlots(s)| ensures Sound(SpecSlots(s)[i].value) {
      SpecSlotsSound(s, i);
    }
    SpecSlotsDistinct(s);
    PresentIsSound(SpecSlots(s));
    PrintReadsBack(TreeOf(s));
  }

  /** In the tree, required fields have the values of the specification and optional fields are present exactly
      when they are set. */
  lemma FieldsAreExact(s: Spec)
    ensures var ms := TreeOf(s).members;
      && Find(ms, "name") == Some(String(s.name))
      && Find(ms, "image") == Some(String(s.image))
      && Find(ms, "command") == MaybeStrings(s.command)
      && Find(ms, "env") == MaybeBindings(s.env)
      && Find(ms, "labels") == MaybeBindings(s.labels)
      && Find(ms, "read_only_filesystem") == Some(Bool(s.readOnlyFilesystem))
      && Find(ms, "cap_drop") == MaybeStrings(s.capDrop)
      && Find(ms, "security_opt") == MaybeStrings(s.securityOpt)
      && (Find(ms, "resource_limits").Some? <==> s.resourceLimits.Some?)
  {
    var slots := SpecSlots(s);
    SpecSlotsDistinct(s);
    forall k | 0 <= k < |slots| ensures Find(Present(slots), slots[k].name) == slots[k].value {
      FindPresent(slots, k);
    }
    assert slots[0].name == "name" && slots[1].name == "image" && slots[2].name == "command" && slots[3].name == "env";
    assert slots[4].name == "labels" && slots[5].name == "read_only_filesystem" && slots[6].name == "cap_drop";
    assert slots[7].name == "security_opt" && slots[8].name == "resource_limits";
  }

  lemma CpuDistinct(c: CpuLimits)
    ensures Distinct(CpuSlots(c))
  {
    var slots := CpuSlots(c);
    assert "period" != "quota" && "period"[0] != "shares"[0] && "period"[0] != "cpus"[0];
    assert "quota"[0] != "shares"[0] && "quota"[0] != "cpus"[0] && "shares"[0] != "cpus"[0];
  }

  /** Each limit stands in its group exactly when it is set, a group in the limits exactly when it is set. */
  lemma LimitsAreExact(r: ResourceLimits)
    ensures var ms := Present(LimitsSlots(r));
      && (r.cpu.None? ==> Find(ms, "cpu") == None)
      && (r.memory.None? ==> Find(ms, "memory") == None)
      && (r.pids.None? ==> Find(ms, "pids") == None)
      && (r.cpu.Some? ==>
            exists cpu :: Find(ms, "cpu") == Some(Object(cpu))
              && Find(cpu, "period") == MaybeInteger(r.cpu.value.period)
              && Find(cpu, "quota") == MaybeInteger(r.cpu.value.quota)
              && Find(cpu, "shares") == MaybeInteger(r.cpu.value.shares)
              && Find(cpu, "cpus") == (if r.cpu.value.cpus.Some? then Some(String(r.cpu.value.cpus.value)) else None))
      && (r.memory.Some? ==>
            exists memory :: Find(ms, "memory") == Some(Object(memory))
              && Find(memory, "limit") == MaybeInteger(r.memory.value.limit)
              && Find(memory, "swap") == MaybeInteger(r.memory.value.swap))
      && (r.pids.Some? ==>
            exists pids :: Find(ms, "pids") == Some(Object(pids)) && Find(pids, "limit") == MaybeInteger(r.pids.value.limit))
  {
    var slots := LimitsSlots(r);
    assert slots[0].name == "cpu" && slots[1].name == "memory" && slots[2].name == "pids";
    FindPresent(slots, 0);
    FindPresent(slots, 1);
    FindPresent(slots, 2);
    if r.cpu.Some? {
      CpuMembers(r.cpu.value);
    }
    if r.memory.Some? {
      var memory := MemorySlots(r.memory.value);
      assert memory[0].name == "limit" && memory[1].name == "swap";
      FindPresent(memory, 0);
      FindPresent(memory, 1);
    }
    if r.pids.Some? {
      var pids := PidsSlots(r.pids.value);
      assert pids[0].name == "limit";
      FindPresent(pids, 0);
    }
  }

  lemma CpuMembers(c: CpuLimits)
    ensures var cpu := Present(CpuSlots(c));
      && Find(cpu, "period") == MaybeInteger(c.period)
      && Find(cpu, "quota") == MaybeInteger(c.quota)
      && Find(cpu, "shares") == MaybeInteger(c.shares)
      && Find(cpu, "cpus") == (if c.cpus.Some? then Some(String(c.cpus.value)) else None)
  {
    var slots := CpuSlots(c);
    CpuDistinct(c);
    assert slots[0].name == "period" && slots[1].name == "quota" && slots[2].name == "shares" && slots[3].name == "cpus";
    forall k | 0 <= k < |slots| ensures Find(Present(slots), slots[k].name) == slots[k].value {
      FindPresent(slots, k);
    }
  }

  /** Positive integers are read back from their lexemes. */
  lemma IntegersReadBack(n: nat)
    ensures Integer(n).Number? && forall c <- Integer(n).lexeme :: IsDigit(c)
    ensures DecimalValue(Integer(n).lexeme) == n
  {
    DecimalReadsBack(n);
  }

  // ----- The text determines the specification -----

  lemma IntegersDiffer(a: Option<int>, b: Option<int>)
    requires Positive(a) && Positive(b) && MaybeInteger(a) == MaybeInteger(b)
    ensures a == b
  {
    if a.Some? {
      DecimalInjective(a.value, b.value);
    }
  }

  lemma StringsDiffer(a: seq<string>, b: seq<string>)
    requires Strings(a) == Strings(b)
    ensures a == b
  {
    forall i | 0 <= i < |a| ensures i < |b| && a[i] == b[i] {
      assert Strings(a).items[i] == Strings(b).items[i];
    }
    assert |Strings(a).items| == |Strings(b).items|;
  }

  lemma BindingsDiffer(a: seq<Binding>, b: seq<Binding>)
    requires Bindings(a) == Bindings(b)
    ensures a == b
  {
    assert |Bindings(a).members| == |Bindings(b).members|;
    forall i | 0 <= i < |a| ensures a[i] == b[i] {
      assert Bindings(a).members[i] == Bindings(b).members[i];
    }
  }

  lemma CpuDiffers(a: CpuLimits, b: CpuLimits)
    requires Present(CpuSlots(a)) == Present(CpuSlots(b))
    requires Positive(a.period) && Positive(a.quota) && Positive(a.shares)
    requires Positive(b.period) && Positive(b.quota) && Positive(b.shares)
    ensures a == b
  {
    CpuMembers(a);
    CpuMembers(b);
    IntegersDiffer(a.period, b.period);
    IntegersDiffer(a.quota, b.quota);
    IntegersDiffer(a.shares, b.shares);
  }

  lemma MemoryDiffers(a: MemoryLimits, b: MemoryLimits)
    requires Present(MemorySlots(a)) == Present(MemorySlots(b))
    requires Positive(a.limit) && Positive(a.swap) && Positive(b.limit) && Positive(b.swap)
    ensures a == b
  {
    assert MemorySlots(a)[0].name == MemorySlots(b)[0].name == "limit";
    assert MemorySlots(a)[1].name == MemorySlots(b)[1].name == "swap";
    FindPresent(MemorySlots(a), 0);
    FindPresent(MemorySlots(a), 1);
    FindPresent(MemorySlots(b), 0);
    FindPresent(MemorySlots(b), 1);
    IntegersDiffer(a.limit, b.limit);
    IntegersDiffer(a.swap, b.swap);
  }

  lemma PidsDiffer(a: PidsLimits, b: PidsLimits)
    requires Present(PidsSlots(a)) == Present(PidsSlots(b)) && Positive(a.limit) && Positive(b.limit)
    ensures a == b
  {
    FindPresent(PidsSlots(a), 0);
    FindPresent(PidsSlots(b), 0);
    IntegersDiffer(a.limit, b.limit);
  }

  /** The same members in the same slots come from the same values. */
  lemma SameSlot(a: seq<Slot>, b: seq<Slot>, k: nat)
    requires Distinct(a) && Distinct(b) && Present(a) == Present(b)
    requires k < |a| && k < |b| && a[k].name == b[k].name
    ensures a[k].value == b[k].value
  {
    FindPresent(a, k);
    FindPresent(b, k);
  }

  lemma LimitsDiffer(a: ResourceLimits, b: ResourceLimits)
    requires ValidLimits(a) && ValidLimits(b) && Present(LimitsSlots(a)) == Present(LimitsSlots(b))
    ensures a == b
  {
    SameSlot(LimitsSlots(a), LimitsSlots(b), 0);
    SameSlot(LimitsSlots(a), LimitsSlots(b), 1);
    SameSlot(LimitsSlots(a), LimitsSlots(b), 2);
    if a.cpu.Some? {
      CpuDiffers(a.cpu.value, b.cpu.value);
    }
    if a.memory.Some? {
      MemoryDiffers(a.memory.value, b.memory.value);
    }
    if a.pids.Some? {
      PidsDiffer(a.pids.value, b.pids.value);
    }
  }

  lemma LimitsOf(s: Spec)
    ensures Find(TreeOf(s).members, "resource_limits") ==
            if s.resourceLimits.Some? then Some(Object(Present(LimitsSlots(s.resourceLimits.value)))) else None
  {
    SpecSlotsDistinct(s);
    assert SpecSlots(s)[8].name == "resource_limits";
    FindPresent(SpecSlots(s), 8);
  }

  /** One tree, the same fields. */
  lemma SameFields(a: Spec, b: Spec)
    requires TreeOf(a) == TreeOf(b)
    ensures a.name == b.name && a.image == b.image && a.readOnlyFilesystem == b.readOnlyFilesystem
    ensures MaybeStrings(a.command) == MaybeStrings(b.command)
    ensures MaybeBindings(a.env) == MaybeBindings(b.env) && MaybeBindings(a.labels) == MaybeBindings(b.labels)
    ensures MaybeStrings(a.capDrop) == MaybeStrings(b.capDrop)
    ensures MaybeStrings(a.securityOpt) == MaybeStrings(b.securityOpt)
  {
    FieldsAreExact(a);
    FieldsAreExact(b);
  }

  lemma SameLimits(a: Spec, b: Spec)
    requires TreeOf(a) == TreeOf(b)
    requires ValidateContainerSpec(a).Ok? && ValidateContainerSpec(b).Ok?
    ensures a.resourceLimits == b.resourceLimits
  {
    LimitsOf(a);
    LimitsOf(b);
    if a.resourceLimits.Some? {
      LimitsDiffer(a.resourceLimits.value, b.resourceLimits.value);
    }
  }

  /** Two accepted specifications with one JSON text are the same specification: nothing is lost or confused. */
  lemma TextDeterminesSpec(a: Spec, b: Spec)
    requires ValidateContainerSpec(a).Ok? && ValidateContainerSpec(b).Ok?
    requires Print(TreeOf(a)) == Print(TreeOf(b))
    ensures a == b
  {
    SpecReadsBack(a);
    SpecReadsBack(b);
    SameFields(a, b);
    StringsDiffer(a.command, b.command);
    BindingsDiffer(a.env, b.env);
    BindingsDiffer(a.labels, b.labels);
    StringsDiffer(a.capDrop, b.capDrop);
    StringsDiffer(a.securityOpt, b.securityOpt);
    SameLimits(a, b);
  }

  // ----- Names -----

  predicate NameChar(c: char) {
    c in DIGITS || c in SMALL || c in CAPITAL || c in "_.-"
  }

  /** The names a container may have, letter by letter. */
  lemma ContainerNamesExactly(s: string)
    ensures ValidContainerName(s) <==>
      s != "" && |s| <= 128 && (s[0] in DIGITS || s[0] in SMALL || s[0] in CAPITAL) && forall c <- s[1..] :: NameChar(c)
  {
    if s != "" {
      AlnumExactly(s[0]);
      forall c | c in s[1..] ensures NameChar(c) <==> IsAlnum(c) || c == '_' || c == '.' || c == '-' {
        AlnumExactly(c);
      }
    }
  }

  /** The lists of processors a container may be given. */
  lemma CpusetsExactly(s: string)
    ensures ValidCpuset(s) <==> s != "" && forall c <- s :: c in DIGITS || c in ",-"
  {
    forall c | c in s ensures IsDigit(c) || c == ',' || c == '-' <==> c in DIGITS || c in ",-" {
      AlnumExactly(c);
    }
  }

  ghost predicate NoControl(s: string) {
    s != "" && forall i :: 0 <= i < |s| ==> s[i] as int >= 32
  }

  lemma KeysExactly(s: string)
    ensures ValidKey(s) <==> NoControl(s)
  {
    if NoControl(s) {
      forall c | c in s ensures c >= ' ' {
        var i :| 0 <= i < |s| && s[i] == c;
      }
    }
    if ValidKey(s) {
      forall i | 0 <= i < |s| ensures s[i] as int >= 32 {
        assert s[i] in s;
      }
    }
  }

  ghost predicate LimitsInOrder(r: ResourceLimits) {
    && (r.cpu.Some? && r.cpu.value.period.Some? ==> r.cpu.value.period.value >= 1)
    && (r.cpu.Some? && r.cpu.value.quota.Some? ==> r.cpu.value.quota.value >= 1)
    && (r.cpu.Some? && r.cpu.value.shares.Some? ==> r.cpu.value.shares.value >= 1)
    && (r.cpu.Some? && r.cpu.value.cpus.Some? ==> ValidCpuset(r.cpu.value.cpus.value))
    && (r.memory.Some? && r.memory.value.limit.Some? ==> r.memory.value.limit.value >= 1)
    && (r.memory.Some? && r.memory.value.swap.Some? ==> r.memory.value.swap.value >= 1)
    && (r.pids.Some? && r.pids.value.limit.Some? ==> r.pids.value.limit.value >= 1)
  }

  /** Which specifications are accepted, and which error the others get. */
  lemma AcceptedExactly(s: Spec)
    ensures var named := ValidContainerName(s.name) && NoControl(s.image)
        && (forall b <- s.env :: NoControl(b.key)) && (forall b <- s.labels :: NoControl(b.key));
      ValidateContainerSpec(s) ==
        if !named then Err(InvalidArgument)
        else if s.resourceLimits.Some? && !LimitsInOrder(s.resourceLimits.value) then Err(PolicyViolation)
        else Ok(())
  {
    KeysExactly(s.image);
    forall b: Binding ensures ValidKey(b.key) <==> NoControl(b.key) {
      KeysExactly(b.key);
    }
  }

}

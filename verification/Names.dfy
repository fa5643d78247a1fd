/** File, unit, lock and temporary names that deployments derive from a Quadlet file name. */
module Names {
  import opened Text

  const MAX_NAME := 255
  const QUADLET_SUFFIX := ".container"
  const SERVICE_SUFFIX := ".service"

  predicate SafeUnitFileChar(c: char) {
    IsAlnum(c) || c == '_' || c == '-' || c == '.' || c == '@'
  }

  /** `validate_quadlet_file_name`. */
  predicate ValidQuadletFileName(name: string) {
    && 0 < |name| <= MAX_NAME
    && name[0] != '.' && name[0] != '-'
    && (forall c <- name :: SafeUnitFileChar(c))
    && EndsWith(name, QUADLET_SUFFIX)
  }

  /** `service_unit_name_from_quadlet`, on the names it accepts. */
  function ServiceUnitName(name: string): string
    requires ValidQuadletFileName(name)
  {
    name[..|name| - |QUADLET_SUFFIX|] + SERVICE_SUFFIX
  }

  /** `safe_systemd_unit`. */
  predicate SafeSystemdUnit(unit: string) {
    && 0 < |unit| <= MAX_NAME
    && unit[0] != '-'
    && (forall c <- unit :: IsAlnum(c) || c == '_' || c == '-' || c == '.' || c == '@' || c == '\\')
    && (EndsWith(unit, ".service") || EndsWith(unit, ".socket") || EndsWith(unit, ".timer") || EndsWith(unit, ".target"))
  }

  /** The lock file of one (uid, unit). */
  function LockName(uid: nat, unit: string): string {
    Decimal(uid) + "-" + unit + ".lock"
  }

  /** The temporary file `atomic_write_file` tries at one attempt. */
  function TempName(finalName: string, pid: nat, attempt: nat): string {
    "." + finalName + ".tmp." + Decimal(pid) + "." + Decimal(attempt)
  }

  /** Every unit name a deployment derives is one the systemd layer accepts. */
  lemma DerivedUnitIsSafe(name: string)
    requires ValidQuadletFileName(name)
    ensures SafeSystemdUnit(ServiceUnitName(name))
  {
    var unit := ServiceUnitName(name);
    assert unit[|unit| - |SERVICE_SUFFIX|..] == SERVICE_SUFFIX;
    assert |name| > |QUADLET_SUFFIX| by {
      assert name[|name| - |QUADLET_SUFFIX|] == '.';
    }
    forall c | c in unit ensures IsAlnum(c) || c == '_' || c == '-' || c == '.' || c == '@' {
      var k :| 0 <= k < |unit| && unit[k] == c;
      if k < |name| - |QUADLET_SUFFIX| {
        assert name[k] in name;
      }
    }
  }

  lemma UnitDeterminesFile(a: string, b: string)
    requires ValidQuadletFileName(a) && ValidQuadletFileName(b)
    requires ServiceUnitName(a) == ServiceUnitName(b)
    ensures a == b
  {
    var stem := ServiceUnitName(a)[..|a| - |QUADLET_SUFFIX|];
    assert a == stem + QUADLET_SUFFIX;
    assert b == stem + QUADLET_SUFFIX;
  }

  /** Two deployments share a lock exactly when they share a Quadlet path. */
  lemma LockNamesAgree(uid1: nat, name1: string, uid2: nat, name2: string)
    requires ValidQuadletFileName(name1) && ValidQuadletFileName(name2)
    ensures LockName(uid1, ServiceUnitName(name1)) == LockName(uid2, ServiceUnitName(name2))
       <==> uid1 == uid2 && name1 == name2
  {
    var u1, u2 := ServiceUnitName(name1), ServiceUnitName(name2);
    if LockName(uid1, u1) == LockName(uid2, u2) {
      assert LockName(uid1, u1) == Decimal(uid1) + ['-'] + (u1 + ".lock");
      assert LockName(uid2, u2) == Decimal(uid2) + ['-'] + (u2 + ".lock");
      SplitAtFirst(Decimal(uid1), u1 + ".lock", Decimal(uid2), u2 + ".lock", '-');
      DecimalInjective(uid1, uid2);
      assert u1 == (u1 + ".lock")[..|u1 + ".lock"| - 5];
      assert u2 == (u2 + ".lock")[..|u2 + ".lock"| - 5];
      UnitDeterminesFile(name1, name2);
    }
  }

  /** Temporary names never collide, for any final names, process ids and attempts. */
  lemma TempNameInjective(f1: string, p1: nat, a1: nat, f2: string, p2: nat, a2: nat)
    requires TempName(f1, p1, a1) == TempName(f2, p2, a2)
    ensures f1 == f2 && p1 == p2 && a1 == a2
  {
    var front1, front2 := "." + f1 + ".tmp", "." + f2 + ".tmp";
    assert TempName(f1, p1, a1) == (front1 + ['.'] + Decimal(p1)) + ['.'] + Decimal(a1);
    assert TempName(f2, p2, a2) == (front2 + ['.'] + Decimal(p2)) + ['.'] + Decimal(a2);
    SplitAtLast(front1 + ['.'] + Decimal(p1), Decimal(a1), front2 + ['.'] + Decimal(p2), Decimal(a2), '.');
    SplitAtLast(front1, Decimal(p1), front2, Decimal(p2), '.');
    DecimalInjective(p1, p2);
    DecimalInjective(a1, a2);
    assert f1 == front1[1..|front1| - 4] && f2 == front2[1..|front2| - 4];
  }

  /** No temporary name is a name a Quadlet may have. */
  lemma TempNameIsHidden(f: string, pid: nat, attempt: nat)
    ensures !ValidQuadletFileName(TempName(f, pid, attempt))
  {
    assert TempName(f, pid, attempt)[0] == '.';
  }

  /** A Quadlet file name is the unit's name with another ending. */
  lemma UnitOfContainer(base: string)
    requires ValidQuadletFileName(base + ".container")
    ensures ServiceUnitName(base + ".container") == base + ".service"
  {
    var name := base + ".container";
    assert |QUADLET_SUFFIX| == |".container"|;
    assert name[..|name| - |QUADLET_SUFFIX|] == base;
  }

  predicate FileChar(c: char) {
    c in DIGITS || c in SMALL || c in CAPITAL || c in "_-.@"
  }

  /** The names a Quadlet may have, letter by letter. */
  lemma FileNamesExactly(name: string)
    ensures ValidQuadletFileName(name) <==>
      && |name| <= 255 && |name| >= 10 && name[|name| - 10..] == ".container"
      && name[0] !in ".-" && forall c <- name :: FileChar(c)
  {
    forall c | c in name ensures SafeUnitFileChar(c) <==> FileChar(c) {
      AlnumExactly(c);
    }
    assert |QUADLET_SUFFIX| == 10;
  }

  lemma LastLetter(name: string)
    requires ValidQuadletFileName(name)
    ensures name[|name| - 1] == 'r'
  {
    assert QUADLET_SUFFIX[|QUADLET_SUFFIX| - 1] == 'r';
  }

  lemma EveryLetter(name: string, i: nat)
    requires ValidQuadletFileName(name) && i < |name|
    ensures SafeUnitFileChar(name[i])
  {
    assert name[i] in name;
  }

  lemma DemoIsValid()
    ensures ValidQuadletFileName("demo.container") && ServiceUnitName("demo.container") == "demo.service"
  {
    assert "demo.container"[4..] == ".container";
    assert "demo" + ".container" == "demo.container" && "demo" + ".service" == "demo.service";
    FileNamesExactly("demo.container");
    UnitOfContainer("demo");
  }

  lemma OtherNamesAreNot()
    ensures !ValidQuadletFileName(".demo.container") && !ValidQuadletFileName("-demo.container")
    ensures !ValidQuadletFileName("de/mo.container") && !ValidQuadletFileName("demo.service")
  {
    if ValidQuadletFileName("de/mo.container") {
      EveryLetter("de/mo.container", 2);
    }
    if ValidQuadletFileName("demo.service") {
      LastLetter("demo.service");
    }
  }

  predicate UnitChar(c: char) {
    c in DIGITS || c in SMALL || c in CAPITAL || c in "_-.@\\"
  }

  ghost predicate HasEnding(s: string, ending: string) {
    exists base :: s == base + ending
  }

  lemma EndsExactly(s: string, ending: string)
    ensures EndsWith(s, ending) <==> HasEnding(s, ending)
  {
    if EndsWith(s, ending) {
      assert s == s[..|s| - |ending|] + ending;
    }
    if base :| s == base + ending {
      assert s[|s| - |ending|..] == ending;
    }
  }

  lemma UnitCharExactly(c: char)
    ensures UnitChar(c) <==> IsAlnum(c) || c == '_' || c == '-' || c == '.' || c == '@' || c == '\\'
  {
    AlnumExactly(c);
  }

  /** The unit names the systemd layer accepts, letter by letter. */
  lemma UnitNamesExactly(unit: string)
    ensures SafeSystemdUnit(unit) <==>
      && 0 < |unit| <= 255 && unit[0] != '-' && (forall c <- unit :: UnitChar(c))
      && (HasEnding(unit, ".service") || HasEnding(unit, ".socket") || HasEnding(unit, ".timer") || HasEnding(unit, ".target"))
  {
    EndsExactly(unit, ".service");
    EndsExactly(unit, ".socket");
    EndsExactly(unit, ".timer");
    EndsExactly(unit, ".target");
    forall c | c in unit ensures UnitChar(c) <==> IsAlnum(c) || c == '_' || c == '-' || c == '.' || c == '@' || c == '\\' {
      UnitCharExactly(c);
    }
  }

}

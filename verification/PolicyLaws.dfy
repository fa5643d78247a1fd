/** Laws of the policy decision, and what it guarantees for every file the installer ever leaves behind. */
module PolicyLaws {
  import opened Text
  import opened Quadlet
  import opened Policy
  import opened Disk
  import opened Machine
  import Names
  import PodmanArgs
  import Guarantees

  // ----- Monotonicity -----

  /** `q` forbids nothing `p` allows, with the same managed label. */
  ghost predicate Looser(p: QuadletPolicy, q: QuadletPolicy) {
    && (q.requireContainerSection ==> p.requireContainerSection)
    && (q.requireImage ==> p.requireImage)
    && (q.requireManagedLabel ==> p.requireManagedLabel)
    && q.managedLabelKey == p.managedLabelKey && q.managedLabelValue == p.managedLabelValue
    && (p.allowPrivileged ==> q.allowPrivileged)
    && (p.allowHostNetwork ==> q.allowHostNetwork)
    && (p.allowHostPid ==> q.allowHostPid)
    && (p.allowHostIpc ==> q.allowHostIpc)
    && (p.allowHostUserns ==> q.allowHostUserns)
    && (p.allowDevices ==> q.allowDevices)
    && (p.allowRootMount ==> q.allowRootMount)
    && (p.allowPodmanArgs ==> q.allowPodmanArgs)
  }

  lemma DeniedIsAntitone(tokens: seq<string>, p: QuadletPolicy, q: QuadletPolicy)
    requires Looser(p, q) && Denied(tokens, q)
    ensures Denied(tokens, p)
  {
    var i: nat :| DeniedAt(tokens, i, q);
    assert DeniedAt(tokens, i, p);
  }

  lemma SameLabelRule(labels: seq<string>, p: QuadletPolicy, q: QuadletPolicy)
    requires Looser(p, q) && OneManagedLabel(labels, p)
    ensures OneManagedLabel(labels, q)
  {
    var i: nat :| SoleMatch(labels, i, p);
    assert SoleMatch(labels, i, q);
  }

  lemma ArgsAreMonotone(m: Sections, p: QuadletPolicy, q: QuadletPolicy)
    requires Looser(p, q) && ArgsPermitted(m, p)
    ensures ArgsPermitted(m, q)
  {
    forall v <- Values(m, "Container", "PodmanArgs")
      ensures !Denied(PodmanArgs.Split(v), q)
    {
      if Denied(PodmanArgs.Split(v), q) {
        DeniedIsAntitone(PodmanArgs.Split(v), p, q);
      }
    }
  }

  /** Raising allow flags and lowering require flags never turns an acceptance into a refusal. */
  lemma AcceptanceIsMonotone(f: QuadletFile, p: QuadletPolicy, q: QuadletPolicy)
    requires Looser(p, q)
    ensures Admissible(f, p) ==> Admissible(f, q)
  {
    if Admissible(f, p) {
      PermissionIsMonotone(Parse(f.contents).value, p, q);
    }
  }

  lemma PermissionIsMonotone(m: Sections, p: QuadletPolicy, q: QuadletPolicy)
    requires Looser(p, q) && Permitted(m, p)
    ensures Permitted(m, q)
  {
    ArgsAreMonotone(m, p, q);
    if p.requireManagedLabel {
      SameLabelRule(Values(m, "Container", "Label"), p, q);
    }
  }

  // ----- Order of values -----

  /** The same multimap up to the order of the values of each key. */
  ghost predicate SameUpToOrder(m1: Sections, m2: Sections) {
    && m1.Keys == m2.Keys
    && forall s <- m1 :: m1[s].Keys == m2[s].Keys && forall k <- m1[s] :: multiset(m1[s][k]) == multiset(m2[s][k])
  }

  /** A text that stands at one place only has multiplicity one, and conversely. */
  lemma MultiplicityOne(s: seq<string>, i: nat)
    requires i < |s|
    ensures multiset(s)[s[i]] == 1 <==> forall j :: 0 <= j < |s| && s[j] == s[i] ==> j == i
  {
    var left, right := s[..i], s[i + 1..];
    assert s == left + [s[i]] + right;
    assert multiset(s) == multiset(left) + multiset{s[i]} + multiset(right);
    assert s[i] in left <==> exists j :: 0 <= j < i && s[j] == s[i];
    assert s[i] in right <==> exists j :: i < j < |s| && s[j] == s[i] by {
      assert forall j :: i < j < |s| ==> right[j - i - 1] == s[j];
      assert forall k :: 0 <= k < |right| ==> right[k] == s[k + i + 1];
    }
  }

  /** The label rule in terms of the multiset of labels alone. */
  ghost predicate LabelRule(labels: multiset<string>, x: string, p: QuadletPolicy) {
    labels[x] == 1 && IsMatching(x, p) && forall y <- labels :: IsManaged(y, p) ==> y == x
  }

  lemma LabelByMultiset(labels: seq<string>, p: QuadletPolicy)
    ensures OneManagedLabel(labels, p) <==> exists x :: LabelRule(multiset(labels), x, p)
  {
    if i: nat :| SoleMatch(labels, i, p) {
      MultiplicityOne(labels, i);
      assert forall y :: y in multiset(labels) <==> y in labels;
      assert LabelRule(multiset(labels), labels[i], p);
    }
    if x :| LabelRule(multiset(labels), x, p) {
      assert x in labels;
      var i :| 0 <= i < |labels| && labels[i] == x;
      MultiplicityOne(labels, i);
      assert forall j :: 0 <= j < |labels| ==> labels[j] in multiset(labels);
      assert SoleMatch(labels, i, p);
    }
  }

  lemma LabelsAreUnordered(a: seq<string>, b: seq<string>, p: QuadletPolicy)
    requires multiset(a) == multiset(b)
    ensures OneManagedLabel(a, p) <==> OneManagedLabel(b, p)
  {
    LabelByMultiset(a, p);
    LabelByMultiset(b, p);
  }

  lemma ValuesUpToOrder(m1: Sections, m2: Sections, key: string)
    requires SameUpToOrder(m1, m2)
    ensures var a, b := Values(m1, "Container", key), Values(m2, "Container", key);
      && multiset(a) == multiset(b)
      && (forall v :: v in a <==> v in b)
      && (a == [] <==> b == [])
  {
    var a, b := Values(m1, "Container", key), Values(m2, "Container", key);
    assert multiset(a) == multiset(b);
    assert forall v :: v in a <==> v in multiset(a);
    assert forall v :: v in b <==> v in multiset(b);
    assert |multiset(a)| == |a| && |multiset(b)| == |b|;
  }

  lemma OneWay(m1: Sections, m2: Sections, p: QuadletPolicy)
    requires SameUpToOrder(m1, m2) && Permitted(m1, p)
    ensures Permitted(m2, p)
  {
    ValuesUpToOrder(m1, m2, "Image");
    ValuesUpToOrder(m1, m2, "Label");
    LabelsAreUnordered(Values(m1, "Container", "Label"), Values(m2, "Container", "Label"), p);
    assert NamespacesPermitted(m2, p) by {
      ValuesUpToOrder(m1, m2, "Network");
      ValuesUpToOrder(m1, m2, "PID");
      ValuesUpToOrder(m1, m2, "IPCHost");
      ValuesUpToOrder(m1, m2, "UserNS");
    }
    assert HostAccessPermitted(m2, p) by {
      ValuesUpToOrder(m1, m2, "Device");
      ValuesUpToOrder(m1, m2, "AddDevice");
      ValuesUpToOrder(m1, m2, "Volume");
      ValuesUpToOrder(m1, m2, "Mount");
      ValuesUpToOrder(m1, m2, "Rootfs");
    }
    assert ArgsPermitted(m2, p) by {
      ValuesUpToOrder(m1, m2, "PodmanArgs");
    }
  }

  /** Reordering the values of a key never changes what is permitted, the exactly-one label rule included. */
  lemma PermissionIsUnordered(m1: Sections, m2: Sections, p: QuadletPolicy)
    requires SameUpToOrder(m1, m2)
    ensures Permitted(m1, p) <==> Permitted(m2, p)
  {
    if Permitted(m1, p) {
      OneWay(m1, m2, p);
    }
    if Permitted(m2, p) {
      OneWay(m2, m1, p);
    }
  }

  /** Two readable Quadlets of one name whose multimaps agree up to the order of values. */
  ghost predicate SameUpToValueOrder(f1: QuadletFile, f2: QuadletFile) {
    && f1.fileName == f2.fileName && f1.contents != "" && f2.contents != ""
    && '\0' !in f1.contents && '\0' !in f2.contents
    && Parse(f1.contents).Ok? && Parse(f2.contents).Ok?
    && SameUpToOrder(Parse(f1.contents).value, Parse(f2.contents).value)
  }

  /** Hence the decision on such files is the same. */
  lemma DecisionIsUnordered(f1: QuadletFile, f2: QuadletFile, p: QuadletPolicy)
    ensures SameUpToValueOrder(f1, f2) ==> (Admissible(f1, p) <==> Admissible(f2, p))
  {
    if SameUpToValueOrder(f1, f2) {
      PermissionIsUnordered(Parse(f1.contents).value, Parse(f2.contents).value, p);
    }
  }

  // ----- PodmanArgs -----

  /** Quoting and spacing cannot change the verdict on a `PodmanArgs` value. */
  lemma OneVerdictPerTokens(ws1: seq<PodmanArgs.Word>, tail1: string, ws2: seq<PodmanArgs.Word>, tail2: string, p: QuadletPolicy)
    requires PodmanArgs.LegalWords(ws1, true) && AllSpace(tail1) && PodmanArgs.LegalWords(ws2, true) && AllSpace(tail2)
    requires PodmanArgs.MeantWords(ws1) == PodmanArgs.MeantWords(ws2)
    ensures Denied(PodmanArgs.Split(PodmanArgs.ShowWords(ws1, tail1)), p)
       <==> Denied(PodmanArgs.Split(PodmanArgs.ShowWords(ws2, tail2)), p)
    ensures Denied(PodmanArgs.Split(PodmanArgs.ShowWords(ws1, tail1)), p) <==> Denied(PodmanArgs.MeantWords(ws1), p)
  {
    PodmanArgs.TokensReadBack(ws1, tail1);
    PodmanArgs.TokensReadBack(ws2, tail2);
  }

  // ----- Whole runs -----

  /** The configuration of deployments that share one installer. */
  ghost function InstallerConfig(p: QuadletPolicy, maxBytes: nat, initial: Fs): Config {
    Config((name, text) => Admissible(QuadletFile(name, text), p), maxBytes, initial)
  }

  ghost predicate Innocent(c: Config, p: QuadletPolicy, path: Path, found: Option<string>) {
    found.None? || found == Read(c.initial, path)
    || (|found.value| <= c.maxBytes && Admissible(QuadletFile(path.name, found.value), p))
  }

  /** Whole-run policy safety: after any number of deployments, rollbacks and crashes, in any interleaving, a
      Quadlet path is absent, as it was at first, or holds an admissible text within the size limit; and the
      same is true of whatever a power cut at that moment would leave. */
  lemma PolicySafety(p: QuadletPolicy, maxBytes: nat, initial: Fs, s: State, path: Path, after: Fs)
    requires var c := InstallerConfig(p, maxBytes, initial); Guarantees.Reachable(c, s)
    requires Names.ValidQuadletFileName(path.name) && CrashTo(s.fs, after)
    ensures var c := InstallerConfig(p, maxBytes, initial);
      Innocent(c, p, path, Read(s.fs, path)) && Innocent(c, p, path, Read(after, path))
  {
    var c := InstallerConfig(p, maxBytes, initial);
    Guarantees.OnlyAllowedFiles(c, s, path);
    Guarantees.CrashLeavesCompleteFiles(c, s, after, path);
  }
}

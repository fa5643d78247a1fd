/** The two normalisers of staged file paths: the service's and the deployment library's. */
module StagedPath {
  import opened Text

  /** A `std::filesystem::path` on POSIX: root directory, file names, trailing separator. */
  datatype FsPath = FsPath(rooted: bool, names: seq<string>, trailing: bool)

  ghost predicate WellFormed(p: FsPath) {
    (p.trailing ==> p.names != []) && forall n <- p.names :: n != "" && '/' !in n
  }

  const EMPTY := FsPath(false, [], false)
  const DOT := FsPath(false, ["."], false)

  /** What iterating over the path yields. */
  function Elements(p: FsPath): seq<string> {
    (if p.rooted then ["/"] else []) + p.names + (if p.trailing then [""] else [])
  }

  /** The place of the first name among the elements. */
  function Lead(p: FsPath): nat {
    if p.rooted then 1 else 0
  }

  /** `path /= element`, for an element of an iterated path. */
  function Append(p: FsPath, element: string): FsPath {
    if element == "/" then FsPath(true, [], false)
    else if element == "" then p.(trailing := p.names != [])
    else p.(names := p.names + [element], trailing := false)
  }

  function AppendAll(p: FsPath, elements: seq<string>): FsPath
    decreases |elements|
  {
    if elements == [] then p else AppendAll(Append(p, elements[0]), elements[1..])
  }

  /** One element of `lexically_normal`. */
  function NormalStep(p: FsPath, element: string): FsPath {
    if element == "." then p.(trailing := p.names != [])
    else if element == ".." then
      if p.names != [] && p.names[|p.names| - 1] != ".." then
        var up := p.names[..|p.names| - 1];
        p.(names := up, trailing := up != [])
      else if p.names == [] && p.rooted then p
      else p.(names := p.names + [".."], trailing := false)
    else Append(p, element)
  }

  function NormalAll(p: FsPath, elements: seq<string>): FsPath
    decreases |elements|
  {
    if elements == [] then p else NormalAll(NormalStep(p, elements[0]), elements[1..])
  }

  /** `lexically_normal`. */
  function Normal(p: FsPath): FsPath {
    if p == EMPTY then EMPTY
    else
      var r := NormalAll(EMPTY, Elements(p));
      if r == EMPTY then DOT
      else if r.trailing && r.names != [] && r.names[|r.names| - 1] == ".." then r.(trailing := false)
      else r
  }

  /** `path_component_is_safe`. */
  predicate Safe(element: string) {
    element != "" && element != "." && element != ".."
  }

  ghost predicate AllSafe(p: FsPath) {
    forall i :: 0 <= i < |Elements(p)| ==> Safe(Elements(p)[i])
  }

  datatype Refusal = UnsafeComponent | OutsideRoot | EmptyPath

  /** The path below the root: an absolute path loses the root's elements, a relative one stays. */
  function Below(root: FsPath, normalized: FsPath): Result<FsPath, Refusal> {
    if !normalized.rooted then Ok(normalized)
    else if Elements(Normal(root)) <= Elements(normalized) then
      Ok(AppendAll(EMPTY, Elements(normalized)[|Elements(Normal(root))|..]))
    else Err(OutsideRoot)
  }

  ghost function Checked(r: Result<FsPath, Refusal>): Result<FsPath, Refusal> {
    if r.Err? then r
    else if r.value == EMPTY || r.value == DOT then Err(EmptyPath)
    else if AllSafe(r.value) then r
    else Err(UnsafeComponent)
  }

  ghost function Staged(root: FsPath, requested: FsPath): Result<FsPath, Refusal> {
    Checked(Below(root, Normal(requested)))
  }

  ghost function Relative(root: FsPath, path: FsPath): Result<FsPath, Refusal> {
    if AllSafe(path) then Checked(Below(root, Normal(path))) else Err(UnsafeComponent)
  }

  // ----- The programs -----

  method ComponentsSafe(p: FsPath) returns (ok: bool)
    ensures ok <==> AllSafe(p)
  {
    var elements := Elements(p);
    for i := 0 to |elements|
      invariant forall j :: 0 <= j < i ==> Safe(elements[j])
    {
      if !Safe(elements[i]) {
        return false;
      }
    }
    ok := true;
  }

  /** The two iterators: past the root's elements, then the rest put together again. */
  method StripRoot(root: FsPath, normalized: FsPath) returns (r: Result<FsPath, Refusal>)
    requires normalized.rooted
    ensures r == Below(root, normalized)
  {
    var path, prefix := Elements(normalized), Elements(Normal(root));
    var i := 0;
    while i < |prefix|
      invariant 0 <= i <= |prefix| && i <= |path|
      invariant forall j :: 0 <= j < i ==> prefix[j] == path[j]
    {
      if i == |path| || path[i] != prefix[i] {
        return Err(OutsideRoot);
      }
      i := i + 1;
    }
    assert prefix <= path;
    var relative := EMPTY;
    ghost var rest := path[i..];
    while i < |path|
      invariant |prefix| <= i <= |path|
      invariant AppendAll(relative, path[i..]) == AppendAll(EMPTY, rest)
    {
      assert path[i..][0] == path[i] && path[i..][1..] == path[i + 1..];
      relative := Append(relative, path[i]);
      i := i + 1;
    }
    r := Ok(relative);
  }

  method Check(normalized: FsPath) returns (r: Result<FsPath, Refusal>)
    ensures r == Checked(Ok(normalized))
  {
    if normalized == EMPTY || normalized == DOT {
      return Err(EmptyPath);
    }
    var safe := ComponentsSafe(normalized);
    r := if safe then Ok(normalized) else Err(UnsafeComponent);
  }

  /** `staged_relative_path` of the service. */
  method StagedRelativePath(root: FsPath, requested: FsPath) returns (r: Result<FsPath, Refusal>)
    ensures r == Staged(root, requested)
  {
    var normalized := Normal(requested);
    if normalized.rooted {
      var below := StripRoot(root, normalized);
      if below.Err? {
        return below;
      }
      normalized := below.value;
    }
    r := Check(normalized);
  }

  /** `relative_staged_path` of the deployment library. */
  method RelativeStagedPath(root: FsPath, path: FsPath) returns (r: Result<FsPath, Refusal>)
    ensures r == Relative(root, path)
  {
    var raw := ComponentsSafe(path);
    if !raw {
      return Err(UnsafeComponent);
    }
    r := StagedRelativePath(root, path);
  }

  // ----- Laws -----

  lemma {:induction false} SafeNamesStay(p: FsPath, names: seq<string>)
    requires !p.trailing && forall n <- names :: Safe(n) && n != "/"
    ensures NormalAll(p, names) == p.(names := p.names + names)
    ensures AppendAll(p, names) == p.(names := p.names + names)
    decreases |names|
  {
    if names == [] {
      assert p.names + names == p.names;
    } else {
      assert names[0] in names && forall n <- names[1..] :: n in names;
      SafeNamesStay(p.(names := p.names + [names[0]]), names[1..]);
      assert p.names + [names[0]] + names[1..] == p.names + names;
    }
  }

  lemma SafeElements(p: FsPath)
    requires WellFormed(p) && AllSafe(p)
    ensures !p.trailing && forall n <- p.names :: Safe(n) && n != "/"
  {
    var e := Elements(p);
    if e != [] {
      assert Safe(e[|e| - 1]);
    }
    forall n | n in p.names ensures Safe(n) && n != "/" {
      var i :| 0 <= i < |p.names| && p.names[i] == n;
      assert e[Lead(p) + i] == n;
    }
  }

  /** A path of safe components has no trailing separator and is its own normal form. */
  lemma SafeIsNormal(p: FsPath)
    requires WellFormed(p) && AllSafe(p)
    ensures !p.trailing && Normal(p) == p
  {
    SafeElements(p);
    NamesAreTheTail(p, Lead(p));
    var root := FsPath(p.rooted, [], false);
    SafeNamesStay(root, p.names);
    assert p.names[0..] == p.names && [] + p.names == p.names;
    if p.rooted {
      assert Elements(p)[1..] == p.names;
    } else {
      assert Elements(p) == p.names;
    }
    if p.names != [] {
      assert Safe(p.names[|p.names| - 1]);
    }
  }

  lemma {:induction false} NormalAllShape(p: FsPath, elements: seq<string>)
    requires WellFormed(p)
    requires forall e <- elements :: e == "/" || '/' !in e
    ensures WellFormed(NormalAll(p, elements))
    decreases |elements|
  {
    if elements != [] {
      assert elements[0] in elements && forall e <- elements[1..] :: e in elements;
      var q := NormalStep(p, elements[0]);
      assert forall n <- q.names :: n in p.names || n == elements[0];
      NormalAllShape(q, elements[1..]);
    }
  }

  lemma NormalShape(p: FsPath)
    requires WellFormed(p)
    ensures WellFormed(Normal(p))
  {
    NormalAllShape(EMPTY, Elements(p));
  }

  /** Iterating and appending put a well-formed path together again. */
  lemma {:induction false} AppendNames(p: FsPath, names: seq<string>)
    requires forall n <- names :: n != "" && '/' !in n
    requires names == [] ==> !p.trailing
    ensures AppendAll(p, names) == FsPath(p.rooted, p.names + names, false)
    decreases |names|
  {
    if names == [] {
      assert p.names + names == p.names;
    } else {
      assert names[0] in names && forall n <- names[1..] :: n in names;
      assert names[0] != "/";
      AppendNames(Append(p, names[0]), names[1..]);
      assert p.names + [names[0]] + names[1..] == p.names + names;
    }
  }

  lemma {:induction false} AppendAllSplits(p: FsPath, a: seq<string>, b: seq<string>)
    ensures AppendAll(p, a + b) == AppendAll(AppendAll(p, a), b)
    decreases |a|
  {
    if a == [] {
      assert a + b == b;
    } else {
      assert (a + b)[1..] == a[1..] + b;
      AppendAllSplits(Append(p, a[0]), a[1..], b);
    }
  }

  lemma NamesAreTheTail(p: FsPath, k: nat)
    requires !p.trailing && Lead(p) <= k <= |Elements(p)|
    ensures k - Lead(p) <= |p.names|
    ensures Elements(p)[k..] == p.names[k - Lead(p)..]
  {
    assert Elements(p) == (if p.rooted then ["/"] else []) + p.names;
  }

  lemma WholePath(p: FsPath)
    requires WellFormed(p) && !p.trailing
    ensures AppendAll(EMPTY, Elements(p)) == p
  {
    if p.rooted {
      NamesAreTheTail(p, 1);
      assert Elements(p)[1..] == p.names[0..] == p.names;
      AppendNames(FsPath(true, [], false), p.names);
    } else {
      assert Elements(p) == p.names;
      AppendNames(EMPTY, p.names);
    }
    assert [] + p.names == p.names;
  }

  /** The elements of a well-formed path from some point on denote a path with those elements. */
  lemma TailElements(p: FsPath, k: nat)
    requires WellFormed(p) && k <= |Elements(p)|
    requires forall i :: k <= i < |Elements(p)| ==> Elements(p)[i] != ""
    ensures Elements(AppendAll(EMPTY, Elements(p)[k..])) == Elements(p)[k..]
    ensures WellFormed(AppendAll(EMPTY, Elements(p)[k..]))
  {
    var e := Elements(p);
    if k == |e| {
      assert e[k..] == [];
    } else {
      assert e[|e| - 1] != "";
      if k < Lead(p) {
        assert e[k..] == e;
        WholePath(p);
      } else {
        NamesAreTheTail(p, k);
        NamesPath(p.names[k - Lead(p)..], p);
      }
    }
  }

  lemma NamesPath(names: seq<string>, p: FsPath)
    requires WellFormed(p) && forall n <- names :: n in p.names
    ensures WellFormed(AppendAll(EMPTY, names)) && Elements(AppendAll(EMPTY, names)) == names
  {
    AppendNames(EMPTY, names);
    assert [] + names == names;
  }

  /** What is put together again is safe just when its elements were and there is one. */
  lemma TailIsSafe(p: FsPath, k: nat)
    requires WellFormed(p) && k <= |Elements(p)|
    ensures
      var r := AppendAll(EMPTY, Elements(p)[k..]);
      (r != EMPTY && AllSafe(r)) <==>
      (k < |Elements(p)| && forall i :: k <= i < |Elements(p)| ==> Safe(Elements(p)[i]))
  {
    var e := Elements(p);
    if k < |e| && p.trailing {
      assert e[|e| - 1] == "";
      TailWithSeparator(p, k);
    } else {
      forall i | k <= i < |e| ensures e[i] != "" {
        if i < |e| - 1 || !p.trailing {
          NameAt(p, i);
        }
      }
      TailElements(p, k);
      var r := AppendAll(EMPTY, e[k..]);
      assert forall i :: k <= i < |e| ==> e[k..][i - k] == e[i];
      assert Elements(r) == e[k..];
    }
  }

  lemma NameAt(p: FsPath, i: nat)
    requires WellFormed(p) && i < |Elements(p)|
    requires i < |Elements(p)| - 1 || !p.trailing
    ensures Elements(p)[i] != ""
  {
    var lead := Lead(p);
    if i >= lead {
      var n := p.names[i - lead];
      assert n in p.names && Elements(p)[i] == n;
    }
  }

  lemma RootedIsFirst(p: FsPath)
    requires WellFormed(p)
    ensures p.rooted <==> Elements(p) != [] && Elements(p)[0] == "/"
    ensures forall i :: 1 <= i < |Elements(p)| ==> Elements(p)[i] != "/"
  {
    var e, lead := Elements(p), Lead(p);
    forall i | lead <= i < |e| ensures e[i] != "/" {
      if i - lead < |p.names| {
        assert p.names[i - lead] in p.names;
      }
    }
  }

  lemma NormalIsSomething(p: FsPath)
    requires WellFormed(p) && p != EMPTY
    ensures Elements(Normal(p)) != []
  {
    NormalShape(p);
  }

  lemma NamesPutTogether(p: FsPath, k: nat)
    requires WellFormed(p) && !p.trailing && p.names != [] && k <= |Elements(p)|
    ensures var q := AppendAll(EMPTY, Elements(p)[k..]);
      !q.trailing && (q == EMPTY || q.names != [])
  {
    if k < Lead(p) {
      assert Elements(p)[k..] == Elements(p);
      WholePath(p);
    } else {
      NamesAreTheTail(p, k);
      var names := p.names[k - Lead(p)..];
      assert forall n <- names :: n in p.names;
      AppendNames(EMPTY, names);
      assert [] + names == names;
    }
  }

  lemma TrailingIsUnsafe(r: FsPath)
    requires r.trailing
    ensures !AllSafe(r)
  {
    assert Elements(r)[|Elements(r)| - 1] == "";
  }

  /** A trailing separator survives putting together, or nothing at all does. */
  lemma TailWithSeparator(p: FsPath, k: nat)
    requires WellFormed(p) && p.trailing && k < |Elements(p)|
    ensures
      var r := AppendAll(EMPTY, Elements(p)[k..]);
      r == EMPTY || !AllSafe(r)
  {
    var bare := p.(trailing := false);
    var front := Elements(bare)[k..];
    assert Elements(p) == Elements(bare) + [""];
    assert Elements(p)[k..] == front + [""];
    AppendAllSplits(EMPTY, front, [""]);
    assert [""][1..] == [];
    NamesPutTogether(bare, k);
    var q := AppendAll(EMPTY, front);
    assert AppendAll(EMPTY, Elements(p)[k..]) == Append(q, "");
    if q.names != [] {
      TrailingIsUnsafe(Append(q, ""));
    }
  }

  // ----- Main results -----

  /** An absolute path is accepted just when it lies properly below the root, through safe names. */
  lemma AbsoluteAccepted(root: FsPath, requested: FsPath)
    requires WellFormed(requested) && Normal(requested).rooted
    ensures
      var prefix, path := Elements(Normal(root)), Elements(Normal(requested));
      Staged(root, requested).Ok? <==>
      prefix < path && forall i :: |prefix| <= i < |path| ==> Safe(path[i])
  {
    NormalShape(requested);
    var prefix, path := Elements(Normal(root)), Elements(Normal(requested));
    if prefix <= path {
      TailIsSafe(Normal(requested), |prefix|);
      assert !Safe(Elements(DOT)[0]);
    }
  }

  /** What is accepted: safe names only, a path of its own, and the root puts it back in place. */
  lemma AcceptedShape(root: FsPath, requested: FsPath)
    requires WellFormed(requested) && Staged(root, requested).Ok?
    ensures
      var r := Staged(root, requested).value;
      && WellFormed(r) && AllSafe(r) && r != EMPTY
      && (Normal(requested).rooted ==>
            Elements(Normal(root)) + Elements(r) == Elements(Normal(requested)))
      && (!Normal(requested).rooted ==> r == Normal(requested))
  {
    NormalShape(requested);
    var n := Normal(requested);
    if n.rooted {
      var k := |Elements(Normal(root))|;
      AbsoluteAccepted(root, requested);
      TailElements(n, k);
      assert Elements(n)[..k] + Elements(n)[k..] == Elements(n);
    }
  }

  /** Only the empty root leaves an accepted path absolute. */
  lemma AcceptedIsRelative(root: FsPath, requested: FsPath)
    requires WellFormed(root) && WellFormed(requested) && root != EMPTY
    requires Staged(root, requested).Ok?
    ensures !Staged(root, requested).value.rooted
  {
    NormalShape(root);
    NormalShape(requested);
    AcceptedShape(root, requested);
    var n, r, prefix := Normal(requested), Staged(root, requested).value, Elements(Normal(root));
    RootedIsFirst(n);
    RootedIsFirst(r);
    if n.rooted {
      NormalIsSomething(root);
      assert Elements(n) == prefix + Elements(r);
      assert Elements(r) != [] ==> Elements(n)[|prefix|] == Elements(r)[0];
    }
  }

  /** What the service accepts, the library accepts too, and leaves as it is. */
  lemma FixedPoint(root: FsPath, requested: FsPath)
    requires WellFormed(root) && WellFormed(requested) && Staged(root, requested).Ok?
    ensures Relative(root, Staged(root, requested).value) == Staged(root, requested)
  {
    var r := Staged(root, requested).value;
    AcceptedShape(root, requested);
    SafeIsNormal(r);
    if root != EMPTY {
      AcceptedIsRelative(root, requested);
    } else if r.rooted {
      WholePath(r);
      assert Elements(r)[0..] == Elements(r);
    }
  }

  /** What the library accepts, without normalising: safe names all along, and below the root. */
  lemma LibraryAccepts(root: FsPath, path: FsPath)
    requires WellFormed(path)
    ensures
      Relative(root, path).Ok? <==>
      AllSafe(path) && path != EMPTY && (path.rooted ==> Elements(Normal(root)) < Elements(path))
    ensures Relative(root, path).Ok? ==>
      var r := Relative(root, path).value;
      && Relative(root, path) == Staged(root, path)
      && Elements(path) == (if path.rooted then Elements(Normal(root)) else []) + Elements(r)
  {
    assert !Safe(Elements(DOT)[0]);
    if AllSafe(path) {
      SafeIsNormal(path);
      if path.rooted {
        AbsoluteAccepted(root, path);
      }
      if Staged(root, path).Ok? {
        AcceptedShape(root, path);
      }
    }
  }

  /** A root spelled with a trailing separator lets no absolute path in. */
  lemma TrailingRootAcceptsNothing(root: FsPath, requested: FsPath)
    requires WellFormed(root) && WellFormed(requested)
    requires Normal(root).trailing && Normal(requested).rooted
    ensures Staged(root, requested).Err?
  {
    NormalShape(root);
    NormalShape(requested);
    var prefix, path := Elements(Normal(root)), Elements(Normal(requested));
    if prefix < path {
      assert path[|prefix| - 1] == prefix[|prefix| - 1] == "";
      NameAt(Normal(requested), |prefix| - 1);
    }
  }

  // ----- Normal forms -----

  lemma NormalFirst(p: FsPath, first: string, rest: seq<string>)
    ensures NormalAll(p, [first] + rest) == NormalAll(NormalStep(p, first), rest)
  {
    assert ([first] + rest)[1..] == rest;
  }

  lemma NameAndUp(p: FsPath, name: string)
    requires Safe(name) && name != "/"
    ensures NormalStep(NormalStep(p, name), "..") == p.(trailing := p.names != [])
  {
    assert (p.names + [name])[..|p.names|] == p.names;
  }

  /** A trailing separator does not matter once something follows. */
  lemma TrailingForgotten(p: FsPath, next: string)
    requires next != "" && (p.trailing ==> p.names != [])
    ensures NormalStep(p.(trailing := p.names != []), next) == NormalStep(p, next)
  {
  }

  /** A name followed by `..` cancels out, and `.` does too. */
  lemma DotsCancel(p: FsPath, name: string, next: string, rest: seq<string>)
    requires Safe(name) && name != "/" && next != "" && (p.trailing ==> p.names != [])
    ensures NormalAll(p, [name] + (["..", next] + rest)) == NormalAll(p, [next] + rest)
    ensures NormalAll(p, ["."] + ([next] + rest)) == NormalAll(p, [next] + rest)
  {
    var after := p.(trailing := p.names != []);
    NormalFirst(p, name, ["..", next] + rest);
    assert ["..", next] + rest == [".."] + ([next] + rest);
    NormalFirst(NormalStep(p, name), "..", [next] + rest);
    NameAndUp(p, name);
    NormalFirst(p, ".", [next] + rest);
    NormalFirst(after, next, rest);
    NormalFirst(p, next, rest);
    TrailingForgotten(p, next);
  }

  ghost predicate NoDots(names: seq<string>) {
    forall n <- names :: n != "." && n != ".."
  }

  lemma StepHasNoDots(p: FsPath, element: string)
    requires NoDots(p.names) && (p.rooted || element == "/")
    ensures NoDots(NormalStep(p, element).names) && NormalStep(p, element).rooted
  {
    var q := NormalStep(p, element);
    forall n | n in q.names ensures n != "." && n != ".." {
      assert n in p.names || n == element;
    }
  }

  lemma {:induction false} AllHaveNoDots(p: FsPath, elements: seq<string>)
    requires NoDots(p.names) && p.rooted
    ensures NoDots(NormalAll(p, elements).names) && NormalAll(p, elements).rooted
    decreases |elements|
  {
    if elements != [] {
      StepHasNoDots(p, elements[0]);
      AllHaveNoDots(NormalStep(p, elements[0]), elements[1..]);
    }
  }

  /** The normal form of an absolute path is absolute and has no dots left. */
  lemma NormalHasNoDots(p: FsPath)
    requires p.rooted
    ensures Normal(p).rooted && NoDots(Normal(p).names)
  {
    var e := Elements(p);
    assert e[0] == "/";
    StepHasNoDots(EMPTY, "/");
    AllHaveNoDots(NormalStep(EMPTY, "/"), e[1..]);
  }

  /** A path that is relative once normalised is accepted just when names are left, all of them safe. */
  lemma RelativeAccepted(root: FsPath, requested: FsPath)
    requires !Normal(requested).rooted
    ensures Staged(root, requested).Ok? <==> Normal(requested) != EMPTY && AllSafe(Normal(requested))
    ensures Staged(root, requested).Ok? ==> Staged(root, requested).value == Normal(requested)
  {
    assert !Safe(Elements(DOT)[0]);
  }

}

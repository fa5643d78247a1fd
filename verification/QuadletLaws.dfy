/** Laws of the Quadlet reader: texts compose line by line, layout does not matter, and printing inverts reading. */
module QuadletLaws {
  import opened Text
  import opened Quadlet

  // ----- Composition -----

  /** The number of the line before the one that follows `text` and a newline. */
  function LineAfter(text: string, number: nat): nat
    decreases |text|
  {
    var i := IndexOf(text, '\n');
    if i == |text| then number + 1 else LineAfter(text[i + 1..], number + 1)
  }

  lemma LineAfterSplits(line: string, rest: string, number: nat)
    requires '\n' !in line
    ensures LineAfter(line, number) == number + 1
    ensures LineAfter(line + "\n" + rest, number) == LineAfter(rest, number + 1)
  {
    IndexOfSplit(line, '\n', rest);
    assert (line + "\n" + rest)[|line| + 1..] == rest;
  }

  /** Reading starts with the first line, whatever follows. */
  ghost function ScanLine(l: Line, rest: string, number: nat, section: string): Result<Scanned, ParseError> {
    if l.Malformed? then Err(l.error) else Before(Emitted(l, section), Scan(rest, number, SectionAfter(l, section)))
  }

  lemma ScanFirstLine(line: string, rest: string, number: nat, section: string)
    requires '\n' !in line
    ensures Scan(line + "\n" + rest, number, section) == ScanLine(Classify(line, number + 1, section), rest, number + 1, section)
    ensures Scan(line, number, section) == ScanLine(Classify(line, number + 1, section), "", number + 1, section)
  {
    var text := line + "\n" + rest;
    IndexOfSplit(line, '\n', rest);
    assert FirstLine(text) == line && OtherLines(text) == rest;
    assert FirstLine(line) == line && OtherLines(line) == "";
    if line == "" {
      BlankLine(number + 1, section);
    }
    BeforeBefore([], [], Ok(Scanned([], section)));
  }

  lemma BlankLine(number: nat, section: string)
    ensures Classify("", number, section) == Ignored
  {
    TrimFixed("");
  }

  ghost function Then(r: Result<Scanned, ParseError>, rest: string, number: nat): Result<Scanned, ParseError> {
    match r
    case Ok(s) => Before(s.entries, Scan(rest, number, s.section))
    case Err(error) => Err(error)
  }

  lemma ThenBefore(es: seq<Entry>, r: Result<Scanned, ParseError>, rest: string, number: nat)
    ensures Then(Before(es, r), rest, number) == Before(es, Then(r, rest, number))
  {
    if r.Ok? {
      BeforeBefore(es, r.value.entries, Scan(rest, number, r.value.section));
    }
  }

  lemma ComposeLine(l: Line, rest: string, b: string, number: nat, section: string, end: nat)
    requires Scan(rest + "\n" + b, number, SectionAfter(l, section)) == Then(Scan(rest, number, SectionAfter(l, section)), b, end)
    ensures ScanLine(l, rest + "\n" + b, number, section) == Then(ScanLine(l, rest, number, section), b, end)
  {
    ThenBefore(Emitted(l, section), Scan(rest, number, SectionAfter(l, section)), b, end);
  }

  lemma LastLine(l: Line, b: string, number: nat, section: string)
    ensures ScanLine(l, b, number, section) == Then(ScanLine(l, "", number, section), b, number)
  {
    var section' := SectionAfter(l, section);
    ThenBefore(Emitted(l, section), Ok(Scanned([], section')), b, number);
    BeforeBefore([], [], Scan(b, number, section'));
  }

  /** Parser composition: reading `a`, a newline and `b` is reading `a`, then `b` from the line and section
      where `a` ends; an error in `a` is the error of the whole. */
  lemma {:induction false} Composition(a: string, b: string, number: nat, section: string)
    ensures Scan(a + "\n" + b, number, section) == Then(Scan(a, number, section), b, LineAfter(a, number))
    decreases |a|, 1
  {
    var line, rest := CutAtFirst(a, '\n');
    if IndexOf(a, '\n') == |a| {
      LineAfterSplits(line, "", number);
      ScanFirstLine(line, b, number, section);
      LastLine(Classify(line, number + 1, section), b, number + 1, section);
    } else {
      assert a + "\n" + b == line + "\n" + (rest + "\n" + b);
      LineAfterSplits(line, rest, number);
      ComposeStep(line, rest, b, number, section);
    }
  }

  lemma {:induction false} ComposeStep(line: string, rest: string, b: string, number: nat, section: string)
    requires '\n' !in line
    ensures Scan(line + "\n" + (rest + "\n" + b), number, section) ==
            Then(Scan(line + "\n" + rest, number, section), b, LineAfter(rest, number + 1))
    decreases |line| + 1 + |rest|, 0
  {
    ScanFirstLine(line, rest, number, section);
    ScanFirstLine(line, rest + "\n" + b, number, section);
    var l := Classify(line, number + 1, section);
    Composition(rest, b, number + 1, SectionAfter(l, section));
    ComposeLine(l, rest, b, number + 1, section, LineAfter(rest, number + 1));
  }

  function AddAll(m: Sections, es: seq<Entry>): Sections {
    if es == [] then m else Add(AddAll(m, es[..|es| - 1]), es[|es| - 1])
  }

  lemma {:induction false} CollectAppends(a: seq<Entry>, b: seq<Entry>)
    ensures Collect(a + b) == AddAll(Collect(a), b)
  {
    if b == [] {
      assert a + b == a;
    } else {
      assert (a + b)[..|a + b| - 1] == a + b[..|b| - 1];
      CollectAppends(a, b[..|b| - 1]);
    }
  }

  /** The same law for the multimaps `parse_quadlet` returns. */
  lemma ParseComposes(a: string, b: string)
    ensures Scan(a, 0, "").Err? ==> Parse(a + "\n" + b) == Parse(a)
    ensures Scan(a, 0, "").Ok? ==>
      var s := Scan(a, 0, "").value;
      Parse(a) == Ok(Collect(s.entries)) && Parse(a + "\n" + b) == Collected(Collect(s.entries), Scan(b, LineAfter(a, 0), s.section))
  {
    Composition(a, b, 0, "");
    var r := Scan(a, 0, "");
    if r.Ok? {
      BeforeCollects(r.value.entries, Scan(b, LineAfter(a, 0), r.value.section));
    }
  }

  /** The multimap so far, extended by what is read next. */
  ghost function Collected(m: Sections, r: Result<Scanned, ParseError>): Result<Sections, ParseError> {
    if r.Ok? then Ok(AddAll(m, r.value.entries)) else Err(r.error)
  }

  lemma BeforeCollects(es: seq<Entry>, r: Result<Scanned, ParseError>)
    ensures var whole := Before(es, r);
      (if whole.Ok? then Ok(Collect(whole.value.entries)) else Err(whole.error)) == Collected(Collect(es), r)
  {
    if r.Ok? {
      CollectAppends(es, r.value.entries);
    }
  }

  // ----- Layout -----

  function AtLine(error: ParseError, line: nat): ParseError {
    match error
    case EmptySectionName(_) => EmptySectionName(line)
    case MissingEquals(_) => MissingEquals(line)
    case KeyBeforeSection(_) => KeyBeforeSection(line)
    case EmptyKey(_) => EmptyKey(line)
  }

  /** The same error, `shift` lines further down. */
  ghost predicate SameError(e1: ParseError, e2: ParseError, shift: int) {
    e2.line == e1.line + shift && e2 == AtLine(e1, e2.line)
  }

  /** The same entries and section, or the same error `shift` lines further down. */
  ghost predicate SameReading(r1: Result<Scanned, ParseError>, r2: Result<Scanned, ParseError>, shift: int) {
    if r1.Ok? then r2 == r1 else r2.Err? && SameError(r1.error, r2.error, shift)
  }

  ghost predicate SameLine(l1: Line, l2: Line, shift: int) {
    if l1.Malformed? then l2.Malformed? && SameError(l1.error, l2.error, shift) else l1 == l2
  }

  /** Line numbers only show in errors, and there as they are: in a line ... */
  lemma NumberingOfLine(line: string, n1: nat, n2: nat, section: string)
    ensures SameLine(Classify(line, n1, section), Classify(line, n2, section), n2 - n1)
  {
  }

  lemma NumberingStep(l1: Line, l2: Line, rest: string, n1: nat, n2: nat, section: string)
    requires SameLine(l1, l2, n2 - n1)
    requires !l1.Malformed? ==>
      SameReading(Scan(rest, n1, SectionAfter(l1, section)), Scan(rest, n2, SectionAfter(l1, section)), n2 - n1)
    ensures SameReading(ScanLine(l1, rest, n1, section), ScanLine(l2, rest, n2, section), n2 - n1)
  {
  }

  /** ... and in a text. */
  lemma {:induction false} NumberingIsIrrelevant(text: string, n1: nat, n2: nat, section: string)
    ensures SameReading(Scan(text, n1, section), Scan(text, n2, section), n2 - n1)
    decreases |text|
  {
    if text != "" {
      var line, rest := FirstLine(text), OtherLines(text);
      var l1, l2 := Classify(line, n1 + 1, section), Classify(line, n2 + 1, section);
      NumberingOfLine(line, n1 + 1, n2 + 1, section);
      NumberingIsIrrelevant(rest, n1 + 1, n2 + 1, SectionAfter(l1, section));
      NumberingStep(l1, l2, rest, n1 + 1, n2 + 1, section);
    }
  }

  /** A blank line or a comment. */
  ghost predicate Skippable(line: string) {
    '\n' !in line && (Trim(line) == "" || Trim(line)[0] == '#' || Trim(line)[0] == ';')
  }

  lemma SkippableReads(line: string, rest: string, number: nat, section: string)
    requires Skippable(line)
    ensures Scan(line + "\n" + rest, number, section) == Scan(rest, number + 1, section)
    ensures Scan(line, number, section) == Ok(Scanned([], section))
  {
    ScanFirstLine(line, rest, number, section);
    BeforeBefore([], [], Scan(rest, number + 1, section));
    BeforeBefore([], [], Ok(Scanned([], section)));
  }

  /** Two texts that read the same wherever they stand, errors in the second `shift` lines further down. */
  ghost predicate Interchangeable(b1: string, b2: string, shift: int) {
    forall number: nat, section :: SameReading(Scan(b1, number, section), Scan(b2, number, section), shift)
  }

  /** A blank line or comment in front of a text changes nothing but the line of an error, by one. */
  lemma CommentInFront(line: string, text: string)
    requires Skippable(line)
    ensures Interchangeable(text, line + "\n" + text, 1)
  {
    forall number: nat, section
      ensures SameReading(Scan(text, number, section), Scan(line + "\n" + text, number, section), 1)
    {
      SkippableReads(line, text, number, section);
      NumberingIsIrrelevant(text, number, number + 1, section);
    }
  }

  /** Nor does one after it. */
  lemma CommentAtEnd(text: string, line: string, number: nat, section: string)
    requires Skippable(line)
    ensures Scan(text + "\n" + line, number, section) == Scan(text, number, section)
  {
    Composition(text, line, number, section);
    var r := Scan(text, number, section);
    if r.Ok? {
      SkippableReads(line, "", LineAfter(text, number), r.value.section);
      assert r.value.entries + [] == r.value.entries;
    }
  }

  /** After the reading of one text, another one or its like. */
  ghost predicate SameAfter(r: Result<Scanned, ParseError>, r1: Result<Scanned, ParseError>, r2: Result<Scanned, ParseError>, shift: int) {
    if r.Err? then r1 == r2 == r else SameReading(r1, r2, shift)
  }

  lemma ThenSame(r: Result<Scanned, ParseError>, b1: string, b2: string, number: nat, shift: int)
    requires Interchangeable(b1, b2, shift)
    ensures SameAfter(r, Then(r, b1, number), Then(r, b2, number), shift)
  {
  }

  /** Interchangeable texts may replace each other after any other text, whose errors are not affected; with
      `CommentInFront`, a comment or blank line may be inserted between any two lines. */
  lemma Congruence(a: string, b1: string, b2: string, shift: int, number: nat, section: string)
    requires Interchangeable(b1, b2, shift)
    ensures SameAfter(Scan(a, number, section), Scan(a + "\n" + b1, number, section), Scan(a + "\n" + b2, number, section), shift)
  {
    var r := Scan(a, number, section);
    ThenSame(r, b1, b2, LineAfter(a, number), shift);
    Composition(a, b1, number, section);
    Composition(a, b2, number, section);
  }

  function ToCrlf(text: string): string
    decreases |text|
  {
    var i := IndexOf(text, '\n');
    if i == |text| then text else text[..i] + "\r\n" + ToCrlf(text[i + 1..])
  }

  /** Turning every LF into CRLF changes nothing, not even an error's line number. */
  lemma {:induction false} CrlfIsIgnored(text: string, number: nat, section: string)
    ensures Scan(ToCrlf(text), number, section) == Scan(text, number, section)
    decreases |text|
  {
    var line, rest := CutAtFirst(text, '\n');
    if IndexOf(text, '\n') < |text| {
      var long := line + "\r";
      assert line + "\r\n" + ToCrlf(rest) == long + "\n" + ToCrlf(rest);
      assert long[..|long| - 1] == line;
      CarriageReturn(long, number + 1, section);
      ScanFirstLine(line, rest, number, section);
      ScanFirstLine(long, ToCrlf(rest), number, section);
      CrlfIsIgnored(rest, number + 1, SectionAfter(Classify(line, number + 1, section), section));
    }
  }

  // ----- Printing and the exact image -----

  /** An entry a Quadlet text can express. */
  ghost predicate WellFormed(e: Entry) {
    && Trimmed(e.section) && e.section != "" && '\n' !in e.section
    && Trimmed(e.key) && e.key != "" && '\n' !in e.key && '=' !in e.key
    && e.key[0] != '#' && e.key[0] != ';'
    && Trimmed(e.value) && '\n' !in e.value
    && !(e.key[0] == '[' && e.value != "" && e.value[|e.value| - 1] == ']')
  }

  function PrintEntry(e: Entry): string {
    "[" + e.section + "]\n" + (e.key + "=" + e.value + "\n")
  }

  /** The canonical text of a list of entries. */
  function Print(es: seq<Entry>): string {
    if es == [] then "" else PrintEntry(es[0]) + Print(es[1..])
  }

  lemma HeaderLineReads(name: string, number: nat, section: string)
    requires Trimmed(name) && name != ""
    ensures Classify("[" + name + "]", number, section) == Header(name)
  {
    var line := "[" + name + "]";
    TrimFixed(line);
    assert line[1..|line| - 1] == name;
    TrimFixed(name);
  }

  lemma KeyLineShape(e: Entry)
    requires WellFormed(e)
    ensures var line := e.key + "=" + e.value;
      && Trim(line) == line && line[0] != '#' && line[0] != ';' && !(line[0] == '[' && line[|line| - 1] == ']')
      && IndexOf(line, '=') == |e.key| && line[..|e.key|] == e.key && line[|e.key| + 1..] == e.value
  {
    var line := e.key + "=" + e.value;
    assert line[|line| - 1] == if e.value == "" then '=' else e.value[|e.value| - 1];
    TrimFixed(line);
    IndexOfSplit(e.key, '=', e.value);
  }

  lemma KeyLineClassified(t: string, number: nat, section: string)
    requires t != "" && t[0] != '#' && t[0] != ';' && !(t[0] == '[' && t[|t| - 1] == ']') && section != ""
    requires IndexOf(t, '=') < |t| && Trim(t[..IndexOf(t, '=')]) != ""
    ensures var eq := IndexOf(t, '=');
      ClassifyTrimmed(t, number, section) == Assignment(Trim(t[..eq]), Trim(t[eq + 1..]))
  {
  }

  lemma KeyLineReads(e: Entry, number: nat)
    requires WellFormed(e)
    ensures Classify(e.key + "=" + e.value, number, e.section) == Assignment(e.key, e.value)
  {
    KeyLineShape(e);
    TrimFixed(e.key);
    TrimFixed(e.value);
    KeyLineClassified(e.key + "=" + e.value, number, e.section);
  }

  lemma EntryReads(e: Entry, rest: string, number: nat, section: string)
    requires WellFormed(e)
    ensures Scan(PrintEntry(e) + rest, number, section) == Before([e], Scan(rest, number + 2, e.section))
  {
    var header, line := "[" + e.section + "]", e.key + "=" + e.value;
    assert PrintEntry(e) + rest == header + "\n" + (line + "\n" + rest);
    HeaderLineReads(e.section, number + 1, section);
    ScanFirstLine(header, line + "\n" + rest, number, section);
    KeyLineReads(e, number + 2);
    ScanFirstLine(line, rest, number + 1, e.section);
    BeforeBefore([], [e], Scan(rest, number + 2, e.section));
    assert [] + [e] == [e];
  }

  lemma EntryThenRest(e: Entry, rest: string, es: seq<Entry>, last: string, number: nat, section: string)
    requires WellFormed(e) && Scan(rest, number + 2, e.section) == Ok(Scanned(es, last))
    ensures Scan(PrintEntry(e) + rest, number, section) == Ok(Scanned([e] + es, last))
  {
    EntryReads(e, rest, number, section);
  }

  function LastSection(es: seq<Entry>, section: string): string {
    if es == [] then section else es[|es| - 1].section
  }

  lemma PrintOneMore(es: seq<Entry>, number: nat, section: string)
    requires es != [] && WellFormed(es[0])
    requires Scan(Print(es[1..]), number + 2, es[0].section) == Ok(Scanned(es[1..], LastSection(es[1..], es[0].section)))
    ensures Scan(Print(es), number, section) == Ok(Scanned(es, LastSection(es, section)))
  {
    EntryThenRest(es[0], Print(es[1..]), es[1..], LastSection(es[1..], es[0].section), number, section);
    assert [es[0]] + es[1..] == es;
  }

  /** Round trip: every list of well-formed entries is read back, in order, from its canonical text. */
  lemma {:induction false} PrintThenScan(es: seq<Entry>, number: nat, section: string)
    requires forall e <- es :: WellFormed(e)
    ensures Scan(Print(es), number, section) == Ok(Scanned(es, LastSection(es, section)))
    decreases |es|
  {
    if es != [] {
      assert es[0] in es && forall f <- es[1..] :: f in es;
      PrintThenScan(es[1..], number + 2, es[0].section);
      PrintOneMore(es, number, section);
    }
  }

  lemma PrintThenParse(es: seq<Entry>)
    requires forall e <- es :: WellFormed(e)
    ensures Parse(Print(es)) == Ok(Collect(es))
  {
    PrintThenScan(es, 0, "");
  }

  lemma TrimKeeps(s: string, t: string)
    requires forall c <- s :: c in t
    ensures forall c <- Trim(s) :: c in t
    ensures Trimmed(Trim(s))
  {
    var _, _ := TrimSplits(s);
  }

  /** What one line can contribute. */
  lemma ClassifiedIsWellFormed(line: string, number: nat, section: string)
    requires '\n' !in line
    ensures match Classify(line, number, section)
            case Header(name) => Trimmed(name) && name != "" && '\n' !in name
            case Assignment(key, value) =>
              section != "" && Trimmed(section) && '\n' !in section ==> WellFormed(Entry(section, key, value))
            case _ => true
  {
    var t := Trim(line);
    var _, _ := TrimSplits(line);
    match Classify(line, number, section) {
      case Header(_) => TrimKeeps(t[1..|t| - 1], t);
      case Assignment(key, value) => AssignmentIsWellFormed(t, section);
      case _ =>
    }
  }

  /** The key and the value cut from a trimmed line that is neither comment nor header. */
  lemma AssignmentIsWellFormed(t: string, section: string)
    requires Trimmed(t) && t != "" && '\n' !in t && t[0] != '#' && t[0] != ';'
    requires !(t[0] == '[' && t[|t| - 1] == ']')
    requires IndexOf(t, '=') < |t| && Trim(t[..IndexOf(t, '=')]) != ""
    ensures section != "" && Trimmed(section) && '\n' !in section ==>
              WellFormed(Entry(section, Trim(t[..IndexOf(t, '=')]), Trim(t[IndexOf(t, '=') + 1..])))
  {
    var k, v := CutAtFirst(t, '=');
    assert forall c <- k :: c in t;
    assert forall c <- v :: c in t;
    TrimKeeps(k, k);
    TrimKeeps(v, v);
    assert k != "" ==> k[0] == t[0];
    assert v != "" ==> v[|v| - 1] == t[|t| - 1];
    KeyStarts(k);
    ValueEnds(v);
  }

  lemma KeyStarts(k: string)
    requires k == "" || !IsSpace(k[0])
    ensures Trim(k) != "" ==> Trim(k)[0] == k[0]
  {
    assert TrimLeft(k) == k;
  }

  lemma ValueEnds(v: string)
    requires v == "" || !IsSpace(v[|v| - 1])
    ensures Trim(v) != "" ==> Trim(v)[|Trim(v)| - 1] == v[|v| - 1]
  {
    var m := TrimLeft(v);
    assert m != "" ==> m[|m| - 1] == v[|v| - 1];
    assert TrimRight(m) == m;
  }

  ghost predicate SectionOk(section: string) {
    section == "" || (Trimmed(section) && '\n' !in section)
  }

  /** Every successful reading yields only well-formed entries. */
  lemma {:induction false} ScanIsWellFormed(text: string, number: nat, section: string)
    requires SectionOk(section)
    ensures Scan(text, number, section).Ok? ==>
              forall e <- Scan(text, number, section).value.entries :: WellFormed(e)
    decreases |text|
  {
    if text != "" {
      var l := Classify(FirstLine(text), number + 1, section);
      var line, _ := CutAtFirst(text, '\n');
      ClassifiedIsWellFormed(line, number + 1, section);
      ScanIsWellFormed(OtherLines(text), number + 1, SectionAfter(l, section));
    }
  }

  /** Reading, printing and reading again gives the same entries. */
  lemma ScanPrintScan(text: string)
    requires Scan(text, 0, "").Ok?
    ensures var es := Scan(text, 0, "").value.entries;
      && Scan(Print(es), 0, "").Ok? && Scan(Print(es), 0, "").value.entries == es
      && Parse(Print(es)) == Parse(text)
  {
    ScanIsWellFormed(text, 0, "");
    PrintThenScan(Scan(text, 0, "").value.entries, 0, "");
  }

  /** The multimaps some text denotes: no empty section, no key without a value, well-formed parts. */
  ghost predicate Expressible(m: Sections) {
    forall s <- m :: m[s] != map[] && forall k <- m[s] :: m[s][k] != [] && forall v <- m[s][k] :: WellFormed(Entry(s, k, v))
  }

  lemma {:induction false} CollectedIsExpressible(es: seq<Entry>)
    requires forall e <- es :: WellFormed(e)
    ensures Expressible(Collect(es))
  {
    if es != [] {
      var front, e := es[..|es| - 1], es[|es| - 1];
      assert e in es && forall f <- front :: f in es;
      CollectedIsExpressible(front);
      AddKeepsExpressible(Collect(front), e);
    }
  }

  lemma AddKeepsExpressible(m: Sections, e: Entry)
    requires Expressible(m) && WellFormed(e)
    ensures Expressible(Add(m, e))
  {
    var m' := Add(m, e);
    forall s <- m'
      ensures m'[s] != map[]
      ensures forall k <- m'[s] :: m'[s][k] != [] && forall v <- m'[s][k] :: WellFormed(Entry(s, k, v))
    {
      if s == e.section {
        assert e.key in m'[s];
      }
    }
  }

  ghost function WithKey(m: Sections, s: string, k: string, vs: seq<string>): Sections {
    m[s := (if s in m then m[s] else map[])[k := vs]]
  }

  lemma AddValue(m: Sections, s: string, k: string, front: seq<string>, last: string)
    requires front == [] ==> s !in m || k !in m[s]
    ensures Add(if front == [] then m else WithKey(m, s, k, front), Entry(s, k, last)) == WithKey(m, s, k, front + [last])
  {
    var keys := if s in m then m[s] else map[];
    assert [] + [last] == [last];
    var half, full := keys[k := front], keys[k := front + [last]];
    assert half[k := front + [last]] == full;
    assert m[s := half][s := full] == m[s := full];
  }

  /** All values of one key, one entry each. */
  lemma {:induction false} ListValues(m: Sections, s: string, k: string, vs: seq<string>) returns (es: seq<Entry>)
    requires vs != [] && (s in m ==> k !in m[s])
    requires forall v <- vs :: WellFormed(Entry(s, k, v))
    ensures forall e <- es :: WellFormed(e)
    ensures AddAll(m, es) == WithKey(m, s, k, vs)
  {
    var front, last := vs[..|vs| - 1], vs[|vs| - 1];
    assert last in vs && forall v <- front :: v in vs;
    assert vs == front + [last];
    AddValue(m, s, k, front, last);
    if front == [] {
      es := [Entry(s, k, last)];
      assert es[..0] == [];
    } else {
      var init := ListValues(m, s, k, front);
      es := init + [Entry(s, k, last)];
      assert es[..|es| - 1] == init;
    }
  }

  lemma {:induction false} AddAllAppends(m: Sections, a: seq<Entry>, b: seq<Entry>)
    ensures AddAll(m, a + b) == AddAll(AddAll(m, a), b)
  {
    if b == [] {
      assert a + b == a;
    } else {
      assert (a + b)[..|a + b| - 1] == a + b[..|b| - 1];
      AddAllAppends(m, a, b[..|b| - 1]);
    }
  }

  lemma PickKey<K, V>(m: map<K, V>) returns (k: K, others: map<K, V>)
    requires m != map[]
    ensures k in m && others == m - {k} && k !in others && |others| < |m|
    ensures others[k := m[k]] == m
    ensures forall j <- others :: j in m && others[j] == m[j]
  {
    assert m != map[] ==> exists k :: k in m;
    k :| k in m;
    others := m - {k};
    assert others.Keys == m.Keys - {k};
    assert |others| == |others.Keys| && |m| == |m.Keys|;
  }

  lemma SetTwice<K, V>(m: map<K, V>, k: K, v: V, w: V)
    ensures m[k := v][k := w] == m[k := w]
  {
  }

  lemma {:induction false} ListKeys(m: Sections, s: string, keys: map<string, seq<string>>) returns (es: seq<Entry>)
    requires s !in m && keys != map[]
    requires forall k <- keys :: keys[k] != [] && forall v <- keys[k] :: WellFormed(Entry(s, k, v))
    ensures forall e <- es :: WellFormed(e)
    ensures AddAll(m, es) == m[s := keys]
    decreases |keys|
  {
    var k, others := PickKey(keys);
    if others == map[] {
      es := ListValues(m, s, k, keys[k]);
    } else {
      var front := ListKeys(m, s, others);
      var back := ListValues(m[s := others], s, k, keys[k]);
      es := front + back;
      AddAllAppends(m, front, back);
      SetTwice(m, s, others, keys);
    }
  }

  lemma {:induction false} ListSections(m: Sections) returns (es: seq<Entry>)
    requires Expressible(m)
    ensures forall e <- es :: WellFormed(e)
    ensures Collect(es) == m
    decreases |m|
  {
    if m == map[] {
      return [];
    }
    var s, others := PickKey(m);
    var front := ListSections(others);
    var back := ListKeys(others, s, m[s]);
    es := front + back;
    CollectAppends(front, back);
  }

  /** The exact image of `parse_quadlet`. */
  lemma ExactImage(m: Sections)
    ensures (exists text :: Parse(text) == Ok(m)) <==> Expressible(m)
  {
    if text :| Parse(text) == Ok(m) {
      ScanIsWellFormed(text, 0, "");
      CollectedIsExpressible(Scan(text, 0, "").value.entries);
    }
    if Expressible(m) {
      var es := ListSections(m);
      PrintThenParse(es);
      assert Parse(Print(es)) == Ok(m);
    }
  }
}

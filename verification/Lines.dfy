/** The Quadlet language said line by line, without reading it: which texts are refused, where and why, and what
    the others say. */
module Lines {
  import opened Text
  import opened Quadlet

  /** The lines of a text; a final line feed ends the last one. */
  function LinesOf(text: string): seq<string>
    decreases |text|
  {
    if text == "" then [] else [FirstLine(text)] + LinesOf(OtherLines(text))
  }

  // ----- What a line, trimmed, can be -----

  predicate Blank(t: string) {
    t == ""
  }

  predicate Comment(t: string) {
    t != "" && (t[0] == '#' || t[0] == ';')
  }

  predicate Skipped(t: string) {
    Blank(t) || Comment(t)
  }

  /** In square brackets, whatever is between them. */
  predicate Bracketed(t: string) {
    t != "" && t[0] == '[' && t[|t| - 1] == ']'
  }

  /** The place of the first equals sign. */
  ghost predicate EqualsAt(t: string, i: nat) {
    i < |t| && t[i] == '=' && '=' !in t[..i]
  }

  /** Is the text nothing but white space? */
  predicate White(s: string) {
    forall c <- s :: c in " \t\n\r" || c as int == 11 || c as int == 12
  }

  /** A header names a section. */
  ghost predicate Heads(t: string) {
    !Skipped(t) && Bracketed(t) && !White(t[1..|t| - 1])
  }

  /** Neither skipped nor a header: such a line has to be an assignment. */
  predicate Other(t: string) {
    !Skipped(t) && !Bracketed(t)
  }

  ghost predicate HeadedBefore(ts: seq<string>, i: nat)
    requires i <= |ts|
  {
    exists j :: 0 <= j < i && Heads(ts[j])
  }

  ghost predicate NamesKey(t: string) {
    exists e: nat :: EqualsAt(t, e) && !White(t[..e])
  }

  /** Line `i` is in order: skipped, a header with a name, or, after some header, an assignment to a key. */
  ghost predicate InOrder(ts: seq<string>, i: nat)
    requires i < |ts|
  {
    Skipped(ts[i]) || Heads(ts[i]) || (Other(ts[i]) && HeadedBefore(ts, i) && NamesKey(ts[i]))
  }

  /** What is wrong with a line that is not: a header without a name; else no equals sign; else no header before;
      else no key. */
  ghost predicate Fault(ts: seq<string>, i: nat, error: ParseError)
    requires i < |ts|
  {
    && error.line == i + 1
    && !Skipped(ts[i])
    && if Bracketed(ts[i]) then White(ts[i][1..|ts[i]| - 1]) && error.EmptySectionName?
       else if '=' !in ts[i] then error.MissingEquals?
       else if !HeadedBefore(ts, i) then error.KeyBeforeSection?
       else !NamesKey(ts[i]) && error.EmptyKey?
  }

  // ----- What the lines in order say -----

  function HeaderName(t: string): string {
    if Bracketed(t) && |t| > 1 then Trim(t[1..|t| - 1]) else ""
  }

  /** The last header before line `i`. */
  ghost predicate LastHeader(ts: seq<string>, i: nat, j: nat)
    requires i <= |ts|
  {
    j < i && Heads(ts[j]) && forall k :: j < k < i ==> !Heads(ts[k])
  }

  /** The section line `i` belongs to: the name in the last header before it. */
  ghost predicate BelongsTo(ts: seq<string>, i: nat, section: string)
    requires i <= |ts|
  {
    exists j: nat :: LastHeader(ts, i, j) && section == HeaderName(ts[j])
  }

  /** Line `i` says `e`. */
  ghost predicate Says(ts: seq<string>, i: nat, e: Entry)
    requires i < |ts|
  {
    && Other(ts[i]) && BelongsTo(ts, i, e.section)
    && exists eq: nat :: EqualsAt(ts[i], eq) && e.key == Trim(ts[i][..eq]) && e.value == Trim(ts[i][eq + 1..])
  }

  ghost predicate AllSaid(ts: seq<string>, n: nat, es: seq<Entry>)
    requires n <= |ts|
    decreases n
  {
    if n == 0 then es == []
    else if Other(ts[n - 1]) then
      es != [] && Says(ts, n - 1, es[|es| - 1]) && AllSaid(ts, n - 1, es[..|es| - 1])
    else AllSaid(ts, n - 1, es)
  }

  function TrimmedLines(text: string): seq<string> {
    var lines := LinesOf(text);
    seq(|lines|, i requires 0 <= i < |lines| => Trim(lines[i]))
  }

  // ----- Reading agrees -----

  lemma WhiteIsSpace(s: string)
    ensures White(s) <==> AllSpace(s)
    ensures White(s) <==> Trim(s) == ""
  {
    forall c | c in s ensures IsSpace(c) <==> (c in " \t\n\r" || c as int == 11 || c as int == 12) {
    }
    if AllSpace(s) {
      assert s == s + "" + "";
      TrimUnique(s, "", "");
    }
    var l, r := TrimSplits(s);
    if Trim(s) == "" {
      assert s == l + r;
    }
  }

  lemma FirstEquals(t: string, i: nat)
    requires EqualsAt(t, i)
    ensures IndexOf(t, '=') == i
  {
    assert t == t[..i] + "=" + t[i + 1..];
    IndexOfSplit(t[..i], '=', t[i + 1..]);
  }

  lemma EqualsFound(t: string)
    ensures if '=' in t then EqualsAt(t, IndexOf(t, '=')) else IndexOf(t, '=') == |t|
  {
    IndexOfFirst(t, '=');
    if '=' in t {
      assert IndexOf(t, '=') < |t|;
    }
  }

  /** The key of an assignment is named if the text before its first equals sign is not white. */
  lemma KeyNamed(t: string)
    requires '=' in t
    ensures EqualsAt(t, IndexOf(t, '='))
    ensures NamesKey(t) <==> Trim(t[..IndexOf(t, '=')]) != ""
  {
    EqualsFound(t);
    var eq := IndexOf(t, '=');
    WhiteIsSpace(t[..eq]);
    if NamesKey(t) {
      var i: nat :| EqualsAt(t, i) && !White(t[..i]);
      FirstEquals(t, i);
    }
  }

  /** After `i` lines in order: the current section, and the entries read. */
  ghost predicate SoFar(ts: seq<string>, i: nat, section: string, done: seq<Entry>)
    requires i <= |ts|
  {
    && (forall k :: 0 <= k < i ==> InOrder(ts, k))
    && (if HeadedBefore(ts, i) then section != "" && BelongsTo(ts, i, section) else section == "")
    && AllSaid(ts, i, done)
  }

  lemma HeadedStays(ts: seq<string>, i: nat)
    requires i < |ts| && !Heads(ts[i])
    ensures HeadedBefore(ts, i + 1) <==> HeadedBefore(ts, i)
  {
    if HeadedBefore(ts, i + 1) {
      var j :| 0 <= j < i + 1 && Heads(ts[j]);
      assert j < i;
    }
  }

  lemma LastHeaderStays(ts: seq<string>, i: nat, j: nat)
    requires i < |ts| && !Heads(ts[i]) && LastHeader(ts, i, j)
    ensures LastHeader(ts, i + 1, j)
  {
  }

  lemma BelongsStays(ts: seq<string>, i: nat, section: string)
    requires i < |ts| && !Heads(ts[i]) && BelongsTo(ts, i, section)
    ensures BelongsTo(ts, i + 1, section)
  {
    var j: nat :| LastHeader(ts, i, j) && section == HeaderName(ts[j]);
    LastHeaderStays(ts, i, j);
  }

  lemma NoNewHeader(ts: seq<string>, i: nat, section: string)
    requires i < |ts| && !Heads(ts[i])
    ensures HeadedBefore(ts, i + 1) <==> HeadedBefore(ts, i)
    ensures BelongsTo(ts, i, section) ==> BelongsTo(ts, i + 1, section)
  {
    HeadedStays(ts, i);
    if BelongsTo(ts, i, section) {
      BelongsStays(ts, i, section);
    }
  }

  lemma SkippedLine(ts: seq<string>, i: nat, section: string, done: seq<Entry>)
    requires i < |ts| && SoFar(ts, i, section, done) && Skipped(ts[i])
    ensures ClassifyTrimmed(ts[i], i + 1, section) == Ignored && InOrder(ts, i) && SoFar(ts, i + 1, section, done)
  {
    NoNewHeader(ts, i, section);
  }

  lemma BracketedLine(ts: seq<string>, i: nat, section: string, done: seq<Entry>)
    requires i < |ts| && SoFar(ts, i, section, done) && !Skipped(ts[i]) && Bracketed(ts[i])
    ensures var l := ClassifyTrimmed(ts[i], i + 1, section);
      if l.Malformed? then Fault(ts, i, l.error) else l.Header? && InOrder(ts, i) && SoFar(ts, i + 1, l.name, done)
  {
    var inner := ts[i][1..|ts[i]| - 1];
    WhiteIsSpace(inner);
    if Trim(inner) != "" {
      assert LastHeader(ts, i + 1, i);
    }
  }

  lemma OneMoreSaid(ts: seq<string>, i: nat, done: seq<Entry>, e: Entry)
    requires i < |ts| && AllSaid(ts, i, done) && Says(ts, i, e)
    ensures AllSaid(ts, i + 1, done + [e])
  {
    assert (done + [e])[..|done|] == done && (done + [e])[|done|] == e;
  }

  /** A line in order that is no header leaves the section. */
  lemma OneMoreInOrder(ts: seq<string>, i: nat, section: string, done: seq<Entry>, more: seq<Entry>)
    requires i < |ts| && SoFar(ts, i, section, done) && InOrder(ts, i) && !Heads(ts[i]) && AllSaid(ts, i + 1, more)
    ensures SoFar(ts, i + 1, section, more)
  {
    NoNewHeader(ts, i, section);
  }

  lemma SaysIt(ts: seq<string>, i: nat, section: string, eq: nat)
    requires i < |ts| && Other(ts[i]) && BelongsTo(ts, i, section) && EqualsAt(ts[i], eq)
    ensures Says(ts, i, Entry(section, Trim(ts[i][..eq]), Trim(ts[i][eq + 1..])))
  {
  }

  lemma AssignmentLine(ts: seq<string>, i: nat, section: string, done: seq<Entry>, eq: nat)
    requires i < |ts| && SoFar(ts, i, section, done) && Other(ts[i]) && section != "" && EqualsAt(ts[i], eq)
    requires NamesKey(ts[i])
    ensures var e := Entry(section, Trim(ts[i][..eq]), Trim(ts[i][eq + 1..]));
      InOrder(ts, i) && SoFar(ts, i + 1, section, done + [e])
  {
    var e := Entry(section, Trim(ts[i][..eq]), Trim(ts[i][eq + 1..]));
    SaysIt(ts, i, section, eq);
    OneMoreSaid(ts, i, done, e);
    assert InOrder(ts, i) && !Heads(ts[i]);
    OneMoreInOrder(ts, i, section, done, done + [e]);
  }

  lemma OtherClassified(t: string, number: nat, section: string)
    requires Other(t)
    ensures '=' !in t ==> ClassifyTrimmed(t, number, section) == Malformed(MissingEquals(number))
    ensures '=' in t ==>
      && EqualsAt(t, IndexOf(t, '='))
      && var eq := IndexOf(t, '=');
        ClassifyTrimmed(t, number, section) ==
        if section == "" then Malformed(KeyBeforeSection(number))
        else if !NamesKey(t) then Malformed(EmptyKey(number))
        else Assignment(Trim(t[..eq]), Trim(t[eq + 1..]))
  {
    EqualsFound(t);
    if '=' in t {
      KeyNamed(t);
    }
  }

  lemma OtherLine(ts: seq<string>, i: nat, section: string, done: seq<Entry>)
    requires i < |ts| && SoFar(ts, i, section, done) && Other(ts[i])
    ensures var l := ClassifyTrimmed(ts[i], i + 1, section);
      if l.Malformed? then Fault(ts, i, l.error)
      else l.Assignment? && InOrder(ts, i) && SoFar(ts, i + 1, section, done + [Entry(section, l.key, l.value)])
  {
    OtherClassified(ts[i], i + 1, section);
    if '=' in ts[i] && section != "" && NamesKey(ts[i]) {
      EqualsFound(ts[i]);
      AssignmentLine(ts, i, section, done, IndexOf(ts[i], '='));
    }
  }

  lemma LineRead(ts: seq<string>, i: nat, section: string, done: seq<Entry>)
    requires i < |ts| && SoFar(ts, i, section, done)
    ensures var l := ClassifyTrimmed(ts[i], i + 1, section);
      if l.Malformed? then Fault(ts, i, l.error)
      else InOrder(ts, i) && SoFar(ts, i + 1, SectionAfter(l, section), done + Emitted(l, section))
  {
    assert done + [] == done;
    if Skipped(ts[i]) {
      SkippedLine(ts, i, section, done);
    } else if Bracketed(ts[i]) {
      BracketedLine(ts, i, section, done);
    } else {
      OtherLine(ts, i, section, done);
    }
  }

  /** What a reading of the rest, from line `i` on, comes to. */
  ghost predicate EndsWell(ts: seq<string>, i: nat, done: seq<Entry>, r: Result<Scanned, ParseError>)
    requires i <= |ts|
  {
    match r
    case Ok(read) => (forall k :: 0 <= k < |ts| ==> InOrder(ts, k)) && AllSaid(ts, |ts|, done + read.entries)
    case Err(error) =>
      && i < error.line <= |ts| && Fault(ts, error.line - 1, error)
      && forall k :: 0 <= k < error.line - 1 ==> InOrder(ts, k)
  }

  lemma TrimmedLinesUnfold(text: string)
    requires text != ""
    ensures TrimmedLines(text) == [Trim(FirstLine(text))] + TrimmedLines(OtherLines(text))
  {
  }

  lemma TailOf(ts: seq<string>, i: nat, first: string, rest: seq<string>)
    requires i <= |ts| && ts[i..] == [first] + rest
    ensures i < |ts| && ts[i] == first && ts[i + 1..] == rest
  {
    assert ts[i..][0] == ts[i] && ts[i..][1..] == ts[i + 1..];
  }

  lemma NextLine(ts: seq<string>, i: nat, text: string)
    requires i <= |ts| && ts[i..] == TrimmedLines(text) && text != ""
    ensures i < |ts| && ts[i] == Trim(FirstLine(text)) && ts[i + 1..] == TrimmedLines(OtherLines(text))
  {
    TrimmedLinesUnfold(text);
    TailOf(ts, i, Trim(FirstLine(text)), TrimmedLines(OtherLines(text)));
  }

  /** If the rest after the next line ends well, so does the whole. */
  lemma StepEndsWell(ts: seq<string>, i: nat, text: string, section: string, done: seq<Entry>)
    requires i < |ts| && text != "" && ts[i] == Trim(FirstLine(text)) && SoFar(ts, i, section, done)
    requires var l := ClassifyTrimmed(ts[i], i + 1, section);
      !l.Malformed? ==>
      EndsWell(ts, i + 1, done + Emitted(l, section), Scan(OtherLines(text), i + 1, SectionAfter(l, section)))
    ensures EndsWell(ts, i, done, Scan(text, i, section))
  {
    LineRead(ts, i, section, done);
    var l := ClassifyTrimmed(ts[i], i + 1, section);
    if !l.Malformed? {
      EndsWellBefore(ts, i, done, Emitted(l, section), Scan(OtherLines(text), i + 1, SectionAfter(l, section)));
    }
  }

  lemma NothingLeft(ts: seq<string>, i: nat, section: string, done: seq<Entry>)
    requires i <= |ts| && ts[i..] == [] && SoFar(ts, i, section, done)
    ensures EndsWell(ts, i, done, Scan("", i, section))
  {
    assert i == |ts| && done + [] == done;
  }

  lemma {:induction false} RestRead(ts: seq<string>, i: nat, text: string, section: string, done: seq<Entry>)
    requires i <= |ts| && ts[i..] == TrimmedLines(text) && SoFar(ts, i, section, done)
    ensures EndsWell(ts, i, done, Scan(text, i, section))
    decreases |text|
  {
    if text == "" {
      NothingLeft(ts, i, section, done);
    } else {
      NextLine(ts, i, text);
      LineRead(ts, i, section, done);
      var l := ClassifyTrimmed(ts[i], i + 1, section);
      if !l.Malformed? {
        RestRead(ts, i + 1, OtherLines(text), SectionAfter(l, section), done + Emitted(l, section));
      }
      StepEndsWell(ts, i, text, section, done);
    }
  }

  lemma EndsWellBefore(ts: seq<string>, i: nat, done: seq<Entry>, more: seq<Entry>, r: Result<Scanned, ParseError>)
    requires i < |ts| && EndsWell(ts, i + 1, done + more, r)
    ensures EndsWell(ts, i, done, Before(more, r))
  {
    if r.Ok? {
      assert done + more + r.value.entries == done + (more + r.value.entries);
    }
  }

  lemma FaultIsNoOrder(ts: seq<string>, i: nat, error: ParseError)
    requires i < |ts| && Fault(ts, i, error)
    ensures !InOrder(ts, i)
  {
    if NamesKey(ts[i]) {
      var eq: nat :| EqualsAt(ts[i], eq) && !White(ts[i][..eq]);
      assert ts[i][eq] in ts[i];
    }
  }

  /** The domain of the reader, and its meaning, line by line: a text is read if and only if every line, trimmed,
      is blank, a comment, a header with a name, or an assignment to a key below some header; what is read is what
      the assignments say, in order; and otherwise the error has the number and the fault of the first line that
      is none of these. */
  lemma ReadExactly(text: string)
    ensures var ts, r := TrimmedLines(text), Scan(text, 0, "");
      && (r.Ok? <==> forall i :: 0 <= i < |ts| ==> InOrder(ts, i))
      && (r.Ok? ==> AllSaid(ts, |ts|, r.value.entries) && Parse(text) == Ok(Collect(r.value.entries)))
      && (r.Err? ==>
            && Parse(text) == Err(r.error)
            && 0 < r.error.line <= |ts| && Fault(ts, r.error.line - 1, r.error)
            && forall i :: 0 <= i < r.error.line - 1 ==> InOrder(ts, i))
  {
    var ts, r := TrimmedLines(text), Scan(text, 0, "");
    assert ts[0..] == ts;
    RestRead(ts, 0, text, "", []);
    WholeRead(ts, r);
  }

  lemma WholeRead(ts: seq<string>, r: Result<Scanned, ParseError>)
    requires EndsWell(ts, 0, [], r)
    ensures r.Ok? <==> forall i :: 0 <= i < |ts| ==> InOrder(ts, i)
    ensures r.Ok? ==> AllSaid(ts, |ts|, r.value.entries)
  {
    if r.Ok? {
      assert [] + r.value.entries == r.value.entries;
    } else {
      FaultIsNoOrder(ts, r.error.line - 1, r.error);
    }
  }

  /** Every assignment of a text that is read is among its entries. */
  lemma {:induction false} SaidIsRead(ts: seq<string>, n: nat, es: seq<Entry>, i: nat) returns (e: Entry)
    requires n <= |ts| && AllSaid(ts, n, es) && i < n && Other(ts[i])
    ensures e in es && Says(ts, i, e)
    decreases n
  {
    if i == n - 1 {
      e := es[|es| - 1];
    } else if Other(ts[n - 1]) {
      e := SaidIsRead(ts, n - 1, es[..|es| - 1], i);
    } else {
      e := SaidIsRead(ts, n - 1, es, i);
    }
  }
}

/** The Quadlet language as this library reads it: lines, sections, keys and values. */
module Quadlet {
  import opened Text

  datatype Entry = Entry(section: string, key: string, value: string)

  type Sections = map<string, map<string, seq<string>>>

  datatype ParseError =
    | EmptySectionName(line: nat)
    | MissingEquals(line: nat)
    | KeyBeforeSection(line: nat)
    | EmptyKey(line: nat)

  /** `ParsedQuadlet::add` on the multimap. */
  function Add(m: Sections, e: Entry): Sections {
    var section := if e.section in m then m[e.section] else map[];
    var values := if e.key in section then section[e.key] else [];
    m[e.section := section[e.key := values + [e.value]]]
  }

  function Collect(es: seq<Entry>): Sections {
    if es == [] then map[] else Add(Collect(es[..|es| - 1]), es[|es| - 1])
  }

  /** `ParsedQuadlet::values`. */
  function Values(m: Sections, section: string, key: string): seq<string> {
    if section in m && key in m[section] then m[section][key] else []
  }

  // ----- The reading of one line -----

  datatype Line = Ignored | Header(name: string) | Assignment(key: string, value: string) | Malformed(error: ParseError)

  function Classify(line: string, number: nat, section: string): Line {
    ClassifyTrimmed(Trim(line), number, section)
  }

  function ClassifyTrimmed(t: string, number: nat, section: string): Line {
    if t == "" || t[0] == '#' || t[0] == ';' then Ignored
    else if t[0] == '[' && t[|t| - 1] == ']' then
      var name := Trim(t[1..|t| - 1]);
      if name == "" then Malformed(EmptySectionName(number)) else Header(name)
    else
      var eq := IndexOf(t, '=');
      if eq == |t| then Malformed(MissingEquals(number))
      else if section == "" then Malformed(KeyBeforeSection(number))
      else
        var key := Trim(t[..eq]);
        if key == "" then Malformed(EmptyKey(number)) else Assignment(key, Trim(t[eq + 1..]))
  }

  // ----- The reading of a text, from a line number and a current section on -----

  datatype Scanned = Scanned(entries: seq<Entry>, section: string)

  function Before(es: seq<Entry>, r: Result<Scanned, ParseError>): Result<Scanned, ParseError> {
    if r.Ok? then Ok(Scanned(es + r.value.entries, r.value.section)) else r
  }

  function FirstLine(text: string): string {
    text[..IndexOf(text, '\n')]
  }

  function OtherLines(text: string): (rest: string)
    ensures text != "" ==> |rest| < |text|
  {
    var i := IndexOf(text, '\n');
    if i == |text| then "" else text[i + 1..]
  }

  function Emitted(l: Line, section: string): seq<Entry> {
    if l.Assignment? then [Entry(section, l.key, l.value)] else []
  }

  function SectionAfter(l: Line, section: string): string {
    if l.Header? then l.name else section
  }

  function Scan(text: string, number: nat, section: string): Result<Scanned, ParseError>
    decreases |text|
  {
    if text == "" then Ok(Scanned([], section))
    else
      var l := Classify(FirstLine(text), number + 1, section);
      if l.Malformed? then Err(l.error)
      else Before(Emitted(l, section), Scan(OtherLines(text), number + 1, SectionAfter(l, section)))
  }

  function Parse(text: string): Result<Sections, ParseError> {
    match Scan(text, 0, "")
    case Ok(s) => Ok(Collect(s.entries))
    case Err(error) => Err(error)
  }

  // ----- The program's own form -----

  class ParsedQuadlet {
    var sections: Sections

    constructor ()
      ensures sections == map[]
    {
      sections := map[];
    }

    method Insert(section: string, key: string, value: string)
      modifies this
      ensures sections == Add(old(sections), Entry(section, key, value))
    {
      ghost var before := sections;
      if section !in sections {
        sections := sections[section := map[]];
      }
      var keys := sections[section];
      ghost var found := keys;
      if key !in keys {
        keys := keys[key := []];
      }
      var longer := keys[key := keys[key] + [value]];
      assert longer == found[key := longer[key]];
      sections := sections[section := longer];
      assert sections == before[section := longer];
    }
  }

  lemma BeforeBefore(a: seq<Entry>, b: seq<Entry>, r: Result<Scanned, ParseError>)
    ensures Before(a, Before(b, r)) == Before(a + b, r)
    ensures Before([], r) == r
  {
    if r.Ok? {
      assert a + (b + r.value.entries) == (a + b) + r.value.entries;
      assert [] + r.value.entries == r.value.entries;
    }
  }

  /** A carriage return before the line feed is white space like any other. */
  lemma CarriageReturn(line: string, number: nat, section: string)
    requires line != "" && line[|line| - 1] == '\r'
    ensures Classify(line[..|line| - 1], number, section) == Classify(line, number, section)
  {
    assert line == line[..|line| - 1] + "\r";
    TrimTail(line[..|line| - 1], "\r");
  }

  /** The body of the parser's loop up to `add`: first the line, minus a trailing carriage return, is trimmed ... */
  method ReadLine(line: string, number: nat, section: string) returns (r: Line)
    ensures r == Classify(line, number, section)
  {
    var cut := line;
    if line != "" && line[|line| - 1] == '\r' {
      CarriageReturn(line, number, section);
      cut := line[..|line| - 1];
    }
    r := ReadTrimmed(Trim(cut), number, section);
  }

  /** ... then it is a comment, a header, an assignment or an error. */
  method ReadTrimmed(trimmed: string, number: nat, section: string) returns (r: Line)
    ensures r == ClassifyTrimmed(trimmed, number, section)
  {
    if trimmed == "" || trimmed[0] == '#' || trimmed[0] == ';' {
      return Ignored;
    }
    if trimmed[0] == '[' && trimmed[|trimmed| - 1] == ']' {
      var name := Trim(trimmed[1..|trimmed| - 1]);
      return if name == "" then Malformed(EmptySectionName(number)) else Header(name);
    }
    var eq := IndexOf(trimmed, '=');
    if eq == |trimmed| {
      return Malformed(MissingEquals(number));
    }
    if section == "" {
      return Malformed(KeyBeforeSection(number));
    }
    var key := Trim(trimmed[..eq]);
    if key == "" {
      return Malformed(EmptyKey(number));
    }
    r := Assignment(key, Trim(trimmed[eq + 1..]));
  }

  /** One turn of the parser's loop, after the entries `done`. */
  lemma ScanStep(done: seq<Entry>, text: string, number: nat, section: string)
    requires text != ""
    ensures var l := Classify(FirstLine(text), number + 1, section);
      Before(done, Scan(text, number, section)) ==
      if l.Malformed? then Err(l.error)
      else Before(done + Emitted(l, section), Scan(OtherLines(text), number + 1, SectionAfter(l, section)))
  {
    var l := Classify(FirstLine(text), number + 1, section);
    BeforeBefore(done, Emitted(l, section), Scan(OtherLines(text), number + 1, SectionAfter(l, section)));
  }

  lemma NothingRead(done: seq<Entry>, number: nat, section: string)
    ensures Before(done, Scan("", number, section)) == Ok(Scanned(done, section))
    ensures done + [] == done
  {
    assert done + [] == done;
  }

  lemma CollectOneMore(done: seq<Entry>, e: Entry)
    ensures Collect(done + [e]) == Add(Collect(done), e)
  {
    assert (done + [e])[..|done|] == done;
  }

  /** `parse_quadlet`: the loop reads exactly what `Parse` says, error and line number included. */
  method ParseQuadlet(contents: string) returns (r: Result<ParsedQuadlet, ParseError>)
    ensures match Parse(contents)
            case Ok(m) => r.Ok? && fresh(r.value) && r.value.sections == m
            case Err(error) => r == Err(error)
  {
    var parsed := new ParsedQuadlet();
    var rest, section, number := contents, "", 0;
    ghost var done: seq<Entry> := [];
    BeforeBefore([], [], Scan(contents, 0, ""));
    while rest != ""
      invariant fresh(parsed) && parsed.sections == Collect(done)
      invariant Scan(contents, 0, "") == Before(done, Scan(rest, number, section))
      decreases |rest|
    {
      ScanStep(done, rest, number, section);
      NothingRead(done, number, section);
      number := number + 1;
      var newline := IndexOf(rest, '\n');
      var line := ReadLine(rest[..newline], number, section);
      rest := if newline == |rest| then "" else rest[newline + 1..];
      match line {
        case Malformed(error) => return Err(error);
        case Ignored =>
        case Header(name) => section := name;
        case Assignment(key, value) =>
          CollectOneMore(done, Entry(section, key, value));
          done := done + [Entry(section, key, value)];
          parsed.Insert(section, key, value);
      }
    }
    NothingRead(done, number, section);
    r := Ok(parsed);
  }
}

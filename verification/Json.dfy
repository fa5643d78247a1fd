/** A reader for JSON texts, sections 2 to 7 of RFC 8259, over bytes; escapes above ASCII denote UTF-8. */
module Json {
  import opened Text

  datatype Json =
    | Null
    | Bool(b: bool)
    | Number(lexeme: string)
    | String(text: string)
    | Array(items: seq<Json>)
    | Object(members: seq<Member>)

  datatype Member = Member(name: string, value: Json)

  /** The array of some strings. */
  function Strings(values: seq<string>): Json {
    Array(seq(|values|, i requires 0 <= i < |values| => String(values[i])))
  }

  /** A value and the text after it. */
  type Reading<T> = Option<(T, string)>

  predicate IsWhite(c: char) {
    c == ' ' || c == '\t' || c == '\n' || c == '\r'
  }

  function Skip(s: string): (t: string)
    ensures |t| <= |s|
  {
    if s != "" && IsWhite(s[0]) then Skip(s[1..]) else s
  }

  // ----- Numbers -----

  function Digits(s: string): (n: nat)
    ensures n <= |s|
  {
    if s != "" && IsDigit(s[0]) then 1 + Digits(s[1..]) else 0
  }

  /** Where the fraction ends that may start at `i`; `None` for a point without digits. */
  function FractionEnd(s: string, i: nat): (r: Option<nat>)
    requires i <= |s|
    ensures r.Some? ==> i <= r.value <= |s|
  {
    if i < |s| && s[i] == '.' then
      var n := Digits(s[i + 1..]);
      if n == 0 then None else Some(i + 1 + n)
    else Some(i)
  }

  function ExponentEnd(s: string, i: nat): (r: Option<nat>)
    requires i <= |s|
    ensures r.Some? ==> i <= r.value <= |s|
  {
    if i < |s| && (s[i] == 'e' || s[i] == 'E') then
      var j := if i + 1 < |s| && (s[i + 1] == '+' || s[i + 1] == '-') then i + 2 else i + 1;
      var n := Digits(s[j..]);
      if n == 0 then None else Some(j + n)
    else Some(i)
  }

  function ReadNumber(s: string): (r: Reading<string>)
    ensures r.Some? ==> |r.value.1| < |s|
  {
    var sign := if s != "" && s[0] == '-' then 1 else 0;
    var n := Digits(s[sign..]);
    if n == 0 || (n > 1 && s[sign] == '0') then None
    else
      var fraction := FractionEnd(s, sign + n);
      if fraction.None? then None
      else
        var end := ExponentEnd(s, fraction.value);
        if end.None? then None else Some((s[..end.value], s[end.value..]))
  }

  // ----- Strings -----

  function HexCode(c: char): (r: Option<nat>)
    ensures r.Some? ==> r.value < 16
  {
    if '0' <= c <= '9' then Some((c - '0') as nat)
    else if 'a' <= c <= 'f' then Some((c - 'a') as nat + 10)
    else if 'A' <= c <= 'F' then Some((c - 'A') as nat + 10)
    else None
  }

  /** The code unit of four hex digits. */
  function CodeUnit(s: string): (r: Option<nat>)
    ensures r.Some? ==> |s| >= 4 && r.value < 0x10000
  {
    if |s| < 4 then None
    else
      var a, b, c, d := HexCode(s[0]), HexCode(s[1]), HexCode(s[2]), HexCode(s[3]);
      if a.None? || b.None? || c.None? || d.None? then None
      else Some(a.value * 0x1000 + b.value * 0x100 + c.value * 0x10 + d.value)
  }

  /** The UTF-8 bytes of a code point. */
  function Utf8(code: nat): string
    requires code < 0x110000
  {
    if code < 0x80 then [code as char]
    else if code < 0x800 then [(0xC0 + code / 0x40) as char, (0x80 + code % 0x40) as char]
    else if code < 0x10000 then
      [(0xE0 + code / 0x1000) as char, (0x80 + code / 0x40 % 0x40) as char, (0x80 + code % 0x40) as char]
    else
      [(0xF0 + code / 0x40000) as char, (0x80 + code / 0x1000 % 0x40) as char,
       (0x80 + code / 0x40 % 0x40) as char, (0x80 + code % 0x40) as char]
  }

  /** What follows a backslash; a surrogate counts only as half of a pair. */
  function ReadEscape(s: string): (r: Reading<string>)
    ensures r.Some? ==> |r.value.1| < |s|
  {
    if s == "" then None
    else
      match s[0]
      case '"' => Some(("\"", s[1..]))
      case '\\' => Some(("\\", s[1..]))
      case '/' => Some(("/", s[1..]))
      case 'b' => Some(([8 as char], s[1..]))
      case 'f' => Some(([12 as char], s[1..]))
      case 'n' => Some(("\n", s[1..]))
      case 'r' => Some(("\r", s[1..]))
      case 't' => Some(("\t", s[1..]))
      case 'u' => ReadUnicode(s[1..])
      case _ => None
  }

  function ReadUnicode(s: string): (r: Reading<string>)
    ensures r.Some? ==> |r.value.1| < |s|
  {
    var unit := CodeUnit(s);
    if unit.None? then None
    else if unit.value < 0xD800 || 0xE000 <= unit.value then Some((Utf8(unit.value), s[4..]))
    else if unit.value < 0xDC00 && |s| >= 10 && s[4] == '\\' && s[5] == 'u' then
      var low := CodeUnit(s[6..]);
      if low.Some? && 0xDC00 <= low.value < 0xE000
      then Some((Utf8(0x10000 + (unit.value - 0xD800) * 0x400 + (low.value - 0xDC00)), s[10..]))
      else None
    else None
  }

  /** The rest of a string, after its opening quotation mark. */
  function ReadString(s: string): (r: Reading<string>)
    ensures r.Some? ==> |r.value.1| < |s|
    decreases |s|
  {
    if s == "" || s[0] < ' ' then None
    else if s[0] == '"' then Some(("", s[1..]))
    else if s[0] == '\\' then
      var e := ReadEscape(s[1..]);
      if e.None? then None
      else
        var rest := ReadString(e.value.1);
        if rest.None? then None else Some((e.value.0 + rest.value.0, rest.value.1))
    else
      var rest := ReadString(s[1..]);
      if rest.None? then None else Some(([s[0]] + rest.value.0, rest.value.1))
  }

  // ----- Values -----

  function ReadLiteral(s: string, word: string, v: Json): (r: Reading<Json>)
    requires word != ""
    ensures r.Some? ==> |r.value.1| < |s|
  {
    if word <= s then Some((v, s[|word|..])) else None
  }

  function ReadValue(s: string): (r: Reading<Json>)
    ensures r.Some? ==> |r.value.1| < |s|
    decreases |s|, 0
  {
    if s == "" then None
    else if s[0] == '{' then
      var t := Skip(s[1..]);
      if t != "" && t[0] == '}' then Some((Object([]), t[1..]))
      else
        var ms := ReadMembers(t);
        if ms.None? then None else Some((Object(ms.value.0), ms.value.1))
    else if s[0] == '[' then
      var t := Skip(s[1..]);
      if t != "" && t[0] == ']' then Some((Array([]), t[1..]))
      else
        var es := ReadElements(t);
        if es.None? then None else Some((Array(es.value.0), es.value.1))
    else if s[0] == '"' then
      var text := ReadString(s[1..]);
      if text.None? then None else Some((String(text.value.0), text.value.1))
    else if s[0] == 't' then ReadLiteral(s, "true", Bool(true))
    else if s[0] == 'f' then ReadLiteral(s, "false", Bool(false))
    else if s[0] == 'n' then ReadLiteral(s, "null", Null)
    else
      var n := ReadNumber(s);
      if n.None? then None else Some((Number(n.value.0), n.value.1))
  }

  /** One or more values separated by commas, up to the closing bracket. */
  function ReadElements(s: string): (r: Reading<seq<Json>>)
    ensures r.Some? ==> |r.value.1| < |s|
    decreases |s|, 1
  {
    var v := ReadValue(s);
    if v.None? then None
    else
      var t := Skip(v.value.1);
      if t == "" then None
      else if t[0] == ']' then Some(([v.value.0], t[1..]))
      else if t[0] == ',' then
        var rest := ReadElements(Skip(t[1..]));
        if rest.None? then None else Some(([v.value.0] + rest.value.0, rest.value.1))
      else None
  }

  /** `"name": value`, from the opening quotation mark of the name. */
  function ReadMember(s: string): (r: Reading<Member>)
    ensures r.Some? ==> |r.value.1| < |s|
    decreases |s|, 1
  {
    if s == "" || s[0] != '"' then None
    else
      var name := ReadString(s[1..]);
      if name.None? then None
      else
        var t := Skip(name.value.1);
        if t == "" || t[0] != ':' then None
        else
          var v := ReadValue(Skip(t[1..]));
          if v.None? then None else Some((Member(name.value.0, v.value.0), v.value.1))
  }

  /** One or more members separated by commas, up to the closing brace. */
  function ReadMembers(s: string): (r: Reading<seq<Member>>)
    ensures r.Some? ==> |r.value.1| < |s|
    decreases |s|, 2
  {
    var m := ReadMember(s);
    if m.None? then None
    else
      var t := Skip(m.value.1);
      if t == "" then None
      else if t[0] == '}' then Some(([m.value.0], t[1..]))
      else if t[0] == ',' then
        var rest := ReadMembers(Skip(t[1..]));
        if rest.None? then None else Some(([m.value.0] + rest.value.0, rest.value.1))
      else None
  }

  /** A whole JSON text. */
  function ReadJson(s: string): Option<Json> {
    var v := ReadValue(Skip(s));
    if v.Some? && Skip(v.value.1) == "" then Some(v.value.0) else None
  }

  /** No object, at any depth, has two members of one name. */
  ghost predicate NoDuplicates(v: Json) {
    match v
    case Array(items) => forall i :: 0 <= i < |items| ==> NoDuplicates(items[i])
    case Object(ms) =>
      && (forall i, j :: 0 <= i < j < |ms| ==> ms[i].name != ms[j].name)
      && (forall i :: 0 <= i < |ms| ==> NoDuplicates(ms[i].value))
    case _ => true
  }
}

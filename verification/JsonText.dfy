/** The compact JSON text of a tree, and the proof that it reads back as exactly that tree. */
module JsonText {
  import opened Text
  import opened Json

  function LowerHex(n: nat): char
    requires n < 16
  {
    if n < 10 then '0' + n as char else 'a' + (n - 10) as char
  }

  /** One character of a string, as `append_json_string` writes it. */
  function EscapeChar(c: char): string {
    if c == '"' then "\\\""
    else if c == '\\' then "\\\\"
    else if c == 8 as char then "\\b"
    else if c == 12 as char then "\\f"
    else if c == '\n' then "\\n"
    else if c == '\r' then "\\r"
    else if c == '\t' then "\\t"
    else if c < ' ' then ['\\', 'u', '0', '0', LowerHex(c as nat / 16), LowerHex(c as nat % 16)]
    else [c]
  }

  function Escape(s: string): string {
    EachChar(s, EscapeChar)
  }

  function Quote(s: string): string {
    "\"" + Escape(s) + "\""
  }

  predicate Plain(c: char) {
    c >= ' ' && c != '"' && c != '\\'
  }

  lemma {:induction false} PlainEscape(s: string)
    requires forall c <- s :: Plain(c)
    ensures Escape(s) == s
  {
    if s != "" {
      assert s[0] in s && forall c <- s[1..] :: c in s;
      PlainEscape(s[1..]);
      assert s == [s[0]] + s[1..];
    }
  }

  /** Trees of strings, Booleans, natural numbers, arrays and objects. */
  ghost predicate Printable(v: Json) {
    match v
    case Number(lexeme) => exists n: nat :: lexeme == Decimal(n)
    case Array(items) => forall i :: 0 <= i < |items| ==> Printable(items[i])
    case Object(ms) => forall i :: 0 <= i < |ms| ==> Printable(ms[i].value)
    case _ => true
  }

  function Print(v: Json): string
    decreases v, 1
  {
    match v
    case Null => "null"
    case Bool(b) => if b then "true" else "false"
    case Number(lexeme) => lexeme
    case String(text) => Quote(text)
    case Array(items) => "[" + PrintItems(items) + "]"
    case Object(ms) => "{" + PrintMembers(ms) + "}"
  }

  function PrintItems(items: seq<Json>): string
    decreases items, 0
  {
    if items == [] then ""
    else Print(items[0]) + (if |items| == 1 then "" else "," + PrintItems(items[1..]))
  }

  function PrintMembers(ms: seq<Member>): string
    decreases ms, 0
  {
    if ms == [] then ""
    else PrintMember(ms[0]) + (if |ms| == 1 then "" else "," + PrintMembers(ms[1..]))
  }

  function PrintMember(m: Member): string
    decreases m, 0
  {
    Quote(m.name) + ":" + Print(m.value)
  }

  lemma Enclosed(open: string, body: string, close: string, rest: string)
    ensures open + body + close + rest == open + (body + (close + rest))
  {
  }

  lemma PrintMembersUnfolds(ms: seq<Member>, end: string)
    requires ms != []
    ensures PrintMembers(ms) + end ==
            PrintMember(ms[0]) + (if |ms| == 1 then end else "," + (PrintMembers(ms[1..]) + end))
  {
    var head := PrintMember(ms[0]);
    var more := PrintMembers(ms[1..]);
    var x := if |ms| == 1 then "" else "," + more;
    Reassociate(head, x, end);
    Reassociate(",", more, end);
    assert "" + end == end;
  }

  lemma PrintItemsUnfolds(items: seq<Json>, end: string)
    requires items != []
    ensures PrintItems(items) + end ==
            Print(items[0]) + (if |items| == 1 then end else "," + (PrintItems(items[1..]) + end))
  {
    var more := PrintItems(items[1..]);
    var x := if |items| == 1 then "" else "," + more;
    Reassociate(Print(items[0]), x, end);
    Reassociate(",", more, end);
    assert "" + end == end;
  }

  // ----- Strings read back -----

  lemma LowerHexReads(n: nat)
    requires n < 16
    ensures HexCode(LowerHex(n)) == Some(n)
  {
  }

  /** The text of a string whose first character was written as `code`. */
  ghost predicate CodeReads(c: char, code: string, rest: string) {
    var tail := ReadString(rest);
    ReadString(code + rest) == if tail.None? then None else Some(([c] + tail.value.0, tail.value.1))
  }

  lemma PlainReads(c: char, rest: string)
    requires c >= ' ' && c != '"' && c != '\\'
    ensures CodeReads(c, [c], rest)
  {
    assert ([c] + rest)[1..] == rest;
  }

  lemma ShortEscapeReads(c: char, e: char, rest: string)
    requires ReadEscape([e] + rest) == Some(([c], rest))
    ensures CodeReads(c, ['\\', e], rest)
  {
    assert (['\\', e] + rest)[1..] == [e] + rest;
  }

  lemma UnicodeEscapeReads(c: char, rest: string)
    requires c < ' '
    ensures var code := ['\\', 'u', '0', '0', LowerHex(c as nat / 16), LowerHex(c as nat % 16)];
      CodeReads(c, code, rest)
  {
    LowerHexReads(c as nat / 16);
    LowerHexReads(c as nat % 16);
    var u := ['0', '0', LowerHex(c as nat / 16), LowerHex(c as nat % 16)] + rest;
    assert CodeUnit(u) == Some(c as nat);
    assert u[4..] == rest;
    assert (['u'] + u)[1..] == u;
    var s := ['\\', 'u', '0', '0', LowerHex(c as nat / 16), LowerHex(c as nat % 16)] + rest;
    assert s[1..] == ['u'] + u;
  }

  lemma EscapedCharReads(c: char, rest: string)
    ensures CodeReads(c, EscapeChar(c), rest)
  {
    var code := EscapeChar(c);
    if |code| == 1 {
      PlainReads(c, rest);
    } else if |code| == 2 {
      assert ([code[1]] + rest)[1..] == rest;
      assert code == ['\\', code[1]];
      ShortEscapeReads(c, code[1], rest);
    } else {
      UnicodeEscapeReads(c, rest);
    }
  }

  lemma CodeThenText(c: char, code: string, t: string, text: string, rest: string)
    requires CodeReads(c, code, t) && ReadString(t) == Some((text, rest))
    ensures ReadString(code + t) == Some(([c] + text, rest))
  {
  }

  lemma {:induction false} EscapedReads(s: string, rest: string)
    ensures ReadString(Escape(s) + "\"" + rest) == Some((s, rest))
    decreases |s|
  {
    if s == "" {
      var tail := "\"" + rest;
      assert Escape(s) + "\"" + rest == tail && tail[1..] == rest;
    } else {
      var code, t := EscapeChar(s[0]), Escape(s[1..]) + "\"" + rest;
      ReassociateLast(code, Escape(s[1..]), "\"", rest);
      EscapedReads(s[1..], rest);
      EscapedCharReads(s[0], t);
      CodeThenText(s[0], code, t, s[1..], rest);
      assert s == [s[0]] + s[1..];
    }
  }

  lemma QuoteReads(s: string, rest: string)
    ensures (Quote(s) + rest)[0] == '"'
    ensures ReadString((Quote(s) + rest)[1..]) == Some((s, rest))
  {
    assert (Quote(s) + rest)[1..] == Escape(s) + "\"" + rest;
    EscapedReads(s, rest);
  }

  // ----- Numbers read back -----

  /** Where a value may end inside a compact text. */
  predicate Ends(rest: string) {
    rest == "" || rest[0] == ',' || rest[0] == ']' || rest[0] == '}'
  }

  lemma {:induction false} DigitsRead(s: string, rest: string)
    requires forall c <- s :: IsDigit(c)
    requires Ends(rest)
    ensures Digits(s + rest) == |s|
    decreases |s|
  {
    if s == "" {
      assert s + rest == rest;
    } else {
      assert s[0] in s && forall c <- s[1..] :: c in s;
      assert (s + rest)[1..] == s[1..] + rest;
      DigitsRead(s[1..], rest);
    }
  }

  lemma NoTail(s: string, i: nat)
    requires i <= |s| && Ends(s[i..])
    ensures FractionEnd(s, i) == Some(i) && ExponentEnd(s, i) == Some(i)
  {
    if i < |s| {
      assert s[i..][0] == s[i];
    }
  }

  lemma StartsWithDigit(n: nat, rest: string)
    ensures var s := Decimal(n) + rest; s != "" && IsDigit(s[0])
  {
    assert (Decimal(n) + rest)[0] == Decimal(n)[0];
    assert Decimal(n)[0] in Decimal(n);
  }

  lemma DecimalDigits(n: nat, rest: string)
    requires Ends(rest)
    ensures Digits(Decimal(n) + rest) == |Decimal(n)|
  {
    DigitsRead(Decimal(n), rest);
  }

  lemma NumberReads(n: nat, rest: string)
    requires Ends(rest)
    ensures ReadNumber(Decimal(n) + rest) == Some((Decimal(n), rest))
  {
    var s, k := Decimal(n) + rest, |Decimal(n)|;
    StartsWithDigit(n, rest);
    DecimalDigits(n, rest);
    assert s[0..] == s && s[0] == Decimal(n)[0];
    assert s[..k] == Decimal(n) && s[k..] == rest;
    NoTail(s, k);
  }

  // ----- Trees read back -----

  lemma FirstChar(v: Json, rest: string)
    requires Printable(v)
    ensures Print(v) != ""
    ensures var c := (Print(v) + rest)[0]; !IsWhite(c) && c != ']' && c != '}'
  {
    if v.Number? {
      var n: nat :| v.lexeme == Decimal(n);
      assert Print(v)[0] in Decimal(n);
    }
  }

  lemma SkipNothing(s: string)
    requires s == "" || !IsWhite(s[0])
    ensures Skip(s) == s
  {
  }

  lemma DigitBeginsNumber(s: string)
    requires s != "" && IsDigit(s[0])
    ensures ReadValue(s) == if ReadNumber(s).None? then None else Some((Number(ReadNumber(s).value.0), ReadNumber(s).value.1))
  {
  }

  lemma NumberValueReads(n: nat, rest: string)
    requires Ends(rest)
    ensures ReadValue(Decimal(n) + rest) == Some((Number(Decimal(n)), rest))
  {
    NumberReads(n, rest);
    StartsWithDigit(n, rest);
    DigitBeginsNumber(Decimal(n) + rest);
  }

  lemma LiteralReads(v: Json, rest: string)
    requires v.Bool? || v.Null?
    ensures ReadValue(Print(v) + rest) == Some((v, rest))
  {
    var s := Print(v) + rest;
    assert s[|Print(v)|..] == rest;
    assert Print(v) <= s;
  }

  lemma ArrayBodyReads(t: string, items: seq<Json>, rest: string)
    requires t != "" && !IsWhite(t[0]) && t[0] != ']' && ReadElements(t) == Some((items, rest))
    ensures ReadValue("[" + t) == Some((Array(items), rest))
  {
    assert ("[" + t)[1..] == t;
    SkipNothing(t);
  }

  lemma ItemsStart(items: seq<Json>, rest: string)
    requires items != [] && Printable(items[0])
    ensures PrintItems(items) != ""
    ensures var c := (PrintItems(items) + rest)[0]; !IsWhite(c) && c != ']'
  {
    FirstChar(items[0], "");
    assert Print(items[0])[0] == (Print(items[0]) + "")[0];
  }

  lemma ArrayReads(items: seq<Json>, rest: string)
    requires forall i :: 0 <= i < |items| ==> Printable(items[i])
    requires items != [] ==> ReadElements(PrintItems(items) + ("]" + rest)) == Some((items, rest))
    ensures ReadValue("[" + (PrintItems(items) + ("]" + rest))) == Some((Array(items), rest))
  {
    if items == [] {
      EmptyArrayReads(rest);
      assert "" + ("]" + rest) == "]" + rest;
    } else {
      ItemsStart(items, "]" + rest);
      ArrayBodyReads(PrintItems(items) + ("]" + rest), items, rest);
    }
  }

  lemma EmptyArrayReads(rest: string)
    ensures ReadValue("[" + ("]" + rest)) == Some((Array([]), rest))
  {
    var t := "]" + rest;
    assert ("[" + t)[1..] == t && t[1..] == rest;
    SkipNothing(t);
  }

  lemma ObjectBodyReads(t: string, ms: seq<Member>, rest: string)
    requires t != "" && t[0] == '"' && ReadMembers(t) == Some((ms, rest))
    ensures ReadValue("{" + t) == Some((Object(ms), rest))
  {
    assert ("{" + t)[1..] == t;
    SkipNothing(t);
  }

  lemma ObjectReads(ms: seq<Member>, rest: string)
    requires ms != [] ==> ReadMembers(PrintMembers(ms) + ("}" + rest)) == Some((ms, rest))
    ensures ReadValue("{" + (PrintMembers(ms) + ("}" + rest))) == Some((Object(ms), rest))
  {
    if ms == [] {
      EmptyObjectReads(rest);
      assert "" + ("}" + rest) == "}" + rest;
    } else {
      MembersStart(ms, "}" + rest);
      ObjectBodyReads(PrintMembers(ms) + ("}" + rest), ms, rest);
    }
  }

  lemma EmptyObjectReads(rest: string)
    ensures ReadValue("{" + ("}" + rest)) == Some((Object([]), rest))
  {
    var t := "}" + rest;
    assert ("{" + t)[1..] == t && t[1..] == rest;
    SkipNothing(t);
  }

  lemma MembersStart(ms: seq<Member>, rest: string)
    requires ms != []
    ensures PrintMembers(ms) != "" && (PrintMembers(ms) + rest)[0] == '"'
  {
    assert Quote(ms[0].name)[0] == '"';
  }

  lemma {:induction false} ValueReads(v: Json, rest: string)
    requires Printable(v) && Ends(rest)
    ensures ReadValue(Print(v) + rest) == Some((v, rest))
    decreases v, 1
  {
    match v {
      case Null => LiteralReads(v, rest);
      case Bool(_) => LiteralReads(v, rest);
      case Number(lexeme) =>
        var n: nat :| lexeme == Decimal(n);
        NumberValueReads(n, rest);
      case String(text) => QuoteReads(text, rest);
      case Array(items) =>
        if items != [] {
          ElementsRead(items, rest);
        }
        Enclosed("[", PrintItems(items), "]", rest);
        ArrayReads(items, rest);
      case Object(ms) =>
        if ms != [] {
          MembersRead(ms, rest);
        }
        Enclosed("{", PrintMembers(ms), "}", rest);
        ObjectReads(ms, rest);
    }
  }

  lemma LastElementReads(v: Json, text: string, rest: string)
    requires ReadValue(text) == Some((v, "]" + rest))
    ensures ReadElements(text) == Some(([v], rest))
  {
    SkipNothing("]" + rest);
    assert ("]" + rest)[1..] == rest;
  }

  lemma NextElementReads(v: Json, text: string, more: string, items: seq<Json>, rest: string)
    requires ReadValue(text) == Some((v, "," + more))
    requires more != "" && !IsWhite(more[0]) && ReadElements(more) == Some((items, rest))
    ensures ReadElements(text) == Some(([v] + items, rest))
  {
    SkipNothing("," + more);
    assert ("," + more)[1..] == more;
    SkipNothing(more);
  }

  lemma {:induction false} ElementsRead(items: seq<Json>, rest: string)
    requires items != [] && forall i :: 0 <= i < |items| ==> Printable(items[i])
    ensures ReadElements(PrintItems(items) + ("]" + rest)) == Some((items, rest))
    decreases items, 0
  {
    var v, end := items[0], "]" + rest;
    PrintItemsUnfolds(items, end);
    if |items| == 1 {
      ValueReads(v, end);
      LastElementReads(v, Print(v) + end, rest);
      assert items == [v];
    } else {
      var more := PrintItems(items[1..]) + end;
      ValueReads(v, "," + more);
      ElementsRead(items[1..], rest);
      ItemsStart(items[1..], end);
      NextElementReads(v, Print(v) + ("," + more), more, items[1..], rest);
      assert items == [v] + items[1..];
    }
  }

  lemma NameReads(name: string, body: string)
    requires body == "" || !IsWhite(body[0])
    requires ReadValue(body).Some?
    ensures ReadMember(Quote(name) + (":" + body)) == Some((Member(name, ReadValue(body).value.0), ReadValue(body).value.1))
  {
    var t := ":" + body;
    QuoteReads(name, t);
    SkipNothing(t);
    assert t[1..] == body;
    SkipNothing(body);
  }

  lemma MemberReads(m: Member, tail: string)
    requires Printable(m.value) && ReadValue(Print(m.value) + tail) == Some((m.value, tail))
    ensures ReadMember(PrintMember(m) + tail) == Some((m, tail))
  {
    FirstChar(m.value, tail);
    NameReads(m.name, Print(m.value) + tail);
    Enclosed(Quote(m.name), ":", Print(m.value), tail);
  }

  lemma LastMemberReads(m: Member, text: string, rest: string)
    requires ReadMember(text) == Some((m, "}" + rest))
    ensures ReadMembers(text) == Some(([m], rest))
  {
    SkipNothing("}" + rest);
    assert ("}" + rest)[1..] == rest;
  }

  lemma NextMemberReads(m: Member, text: string, more: string, ms: seq<Member>, rest: string)
    requires ReadMember(text) == Some((m, "," + more))
    requires more != "" && !IsWhite(more[0]) && ReadMembers(more) == Some((ms, rest))
    ensures ReadMembers(text) == Some(([m] + ms, rest))
  {
    SkipNothing("," + more);
    assert ("," + more)[1..] == more;
    SkipNothing(more);
  }

  lemma MembersStep(m: Member, more: string, ms: seq<Member>, rest: string)
    requires Printable(m.value) && ReadValue(Print(m.value) + ("," + more)) == Some((m.value, "," + more))
    requires more != "" && !IsWhite(more[0]) && ReadMembers(more) == Some((ms, rest))
    ensures ReadMembers(PrintMember(m) + ("," + more)) == Some(([m] + ms, rest))
  {
    MemberReads(m, "," + more);
    NextMemberReads(m, PrintMember(m) + ("," + more), more, ms, rest);
  }

  lemma LastMemberStep(m: Member, rest: string)
    requires Printable(m.value) && ReadValue(Print(m.value) + ("}" + rest)) == Some((m.value, "}" + rest))
    ensures ReadMembers(PrintMember(m) + ("}" + rest)) == Some(([m], rest))
  {
    MemberReads(m, "}" + rest);
    LastMemberReads(m, PrintMember(m) + ("}" + rest), rest);
  }

  lemma {:induction false} MembersRead(ms: seq<Member>, rest: string)
    requires ms != [] && forall i :: 0 <= i < |ms| ==> Printable(ms[i].value)
    ensures ReadMembers(PrintMembers(ms) + ("}" + rest)) == Some((ms, rest))
    decreases ms, 0
  {
    var m, end := ms[0], "}" + rest;
    PrintMembersUnfolds(ms, end);
    if |ms| == 1 {
      ValueReads(m.value, end);
      LastMemberStep(m, rest);
      assert ms == [m];
    } else {
      var more := PrintMembers(ms[1..]) + end;
      ValueReads(m.value, "," + more);
      MembersRead(ms[1..], rest);
      MembersStart(ms[1..], end);
      MembersStep(m, more, ms[1..], rest);
      assert ms == [m] + ms[1..];
    }
  }

  /** Every printable tree is read back from its compact text, exactly. */
  lemma PrintReadsBack(v: Json)
    requires Printable(v)
    ensures ReadJson(Print(v)) == Some(v)
  {
    FirstChar(v, "");
    ValueReads(v, "");
    assert Print(v) + "" == Print(v);
    SkipNothing(Print(v));
  }
}

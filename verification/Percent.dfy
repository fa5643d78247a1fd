/** Percent-encoding of URL components: sections 2.1 and 2.3 of RFC 3986. */
module Percent {
  import opened Text

  datatype DecodeError = IncompleteEscape | InvalidEscape

  /** Every character is a byte. */
  ghost predicate Bytes(s: string) {
    forall i :: 0 <= i < |s| ==> s[i] as int < 256
  }

  predicate Unreserved(c: char) {
    IsAlnum(c) || c == '-' || c == '_' || c == '.' || c == '~'
  }

  function HexDigit(n: nat): char
    requires n < 16
  {
    if n < 10 then '0' + n as char else 'A' + (n - 10) as char
  }

  /** `hex_value`: upper and lower case digits, -1 for anything else. */
  function HexValue(c: char): (v: int)
    ensures -1 <= v < 16
  {
    if '0' <= c <= '9' then (c - '0') as int
    else if 'a' <= c <= 'f' then (c - 'a') as int + 10
    else if 'A' <= c <= 'F' then (c - 'A') as int + 10
    else -1
  }

  /** The byte two hex digits denote. */
  function Unhex(a: char, b: char): Result<char, DecodeError> {
    var hi, lo := HexValue(a), HexValue(b);
    if hi < 0 || lo < 0 then Err(InvalidEscape) else Ok((hi * 16 + lo) as char)
  }

  function EncodeChar(c: char): string
    requires c as int < 256
  {
    if Unreserved(c) then [c] else ['%', HexDigit(c as int / 16), HexDigit(c as int % 16)]
  }

  function Encode(s: string): string
    requires Bytes(s)
  {
    if s == "" then "" else EncodeChar(s[0]) + Encode(s[1..])
  }

  function Cons(c: char, r: Result<string, DecodeError>): Result<string, DecodeError> {
    if r.Ok? then Ok([c] + r.value) else r
  }

  function Decode(s: string, plusAsSpace: bool): Result<string, DecodeError>
    decreases |s|
  {
    if s == "" then Ok("")
    else if s[0] == '+' && plusAsSpace then Cons(' ', Decode(s[1..], plusAsSpace))
    else if s[0] != '%' then Cons(s[0], Decode(s[1..], plusAsSpace))
    else if |s| < 3 then Err(IncompleteEscape)
    else
      var c := Unhex(s[1], s[2]);
      if c.Err? then Err(c.error) else Cons(c.value, Decode(s[3..], plusAsSpace))
  }

  lemma EncodeStep(input: string, i: nat, done: string)
    requires Bytes(input) && i < |input|
    ensures done + Encode(input[i..]) == done + EncodeChar(input[i]) + Encode(input[i + 1..])
  {
    assert input[i..][1..] == input[i + 1..];
    assert Encode(input[i..]) == EncodeChar(input[i]) + Encode(input[i + 1..]);
  }

  /** `url_encode_component`. */
  method UrlEncodeComponent(input: string) returns (out: string)
    requires Bytes(input)
    ensures out == Encode(input)
  {
    out := "";
    assert input[0..] == input && "" + Encode(input) == Encode(input);
    for i := 0 to |input|
      invariant out + Encode(input[i..]) == Encode(input)
    {
      EncodeStep(input, i, out);
      var c := input[i];
      var code := if Unreserved(c) then [c] else ['%', HexDigit(c as int / 16), HexDigit(c as int % 16)];
      out := out + code;
    }
    assert input[|input|..] == "" && out + "" == out;
  }

  function Prepend(done: string, r: Result<string, DecodeError>): Result<string, DecodeError> {
    if r.Ok? then Ok(done + r.value) else r
  }

  lemma PrependNothing(r: Result<string, DecodeError>)
    ensures Prepend("", r) == r
  {
    if r.Ok? {
      assert "" + r.value == r.value;
    }
  }

  lemma PrependCons(done: string, c: char, r: Result<string, DecodeError>)
    ensures Prepend(done, Cons(c, r)) == Prepend(done + [c], r)
  {
    if r.Ok? {
      assert done + ([c] + r.value) == done + [c] + r.value;
    }
  }

  /** What the decoder does at position `i`. */
  lemma DecodeAt(input: string, i: nat, plusAsSpace: bool)
    requires i < |input|
    ensures var c := input[i];
      Decode(input[i..], plusAsSpace) ==
      if c == '+' && plusAsSpace then Cons(' ', Decode(input[i + 1..], plusAsSpace))
      else if c != '%' then Cons(c, Decode(input[i + 1..], plusAsSpace))
      else if i + 2 >= |input| then Err(IncompleteEscape)
      else
        var u := Unhex(input[i + 1], input[i + 2]);
        if u.Err? then Err(u.error) else Cons(u.value, Decode(input[i + 3..], plusAsSpace))
  {
    var rest := input[i..];
    assert rest[1..] == input[i + 1..];
    if i + 2 < |input| {
      assert rest[3..] == input[i + 3..];
    }
  }

  /** `url_decode_component`. */
  method UrlDecodeComponent(input: string, plusAsSpace: bool) returns (r: Result<string, DecodeError>)
    ensures r == Decode(input, plusAsSpace)
  {
    var out := "";
    var i := 0;
    PrependNothing(Decode(input, plusAsSpace));
    assert input[0..] == input;
    while i < |input|
      invariant 0 <= i <= |input|
      invariant Prepend(out, Decode(input[i..], plusAsSpace)) == Decode(input, plusAsSpace)
    {
      DecodeAt(input, i, plusAsSpace);
      var c := input[i];
      if c == '+' && plusAsSpace {
        PrependCons(out, ' ', Decode(input[i + 1..], plusAsSpace));
        out := out + " ";
        i := i + 1;
        continue;
      }
      if c != '%' {
        PrependCons(out, c, Decode(input[i + 1..], plusAsSpace));
        out := out + [c];
        i := i + 1;
        continue;
      }
      if i + 2 >= |input| {
        return Err(IncompleteEscape);
      }
      var u := Unhex(input[i + 1], input[i + 2]);
      if u.Err? {
        return Err(u.error);
      }
      PrependCons(out, u.value, Decode(input[i + 3..], plusAsSpace));
      out := out + [u.value];
      i := i + 3;
    }
    assert input[i..] == "" && out + "" == out;
    r := Ok(out);
  }

  // ----- Laws -----

  lemma HexRoundTrip(c: char)
    requires c as int < 256
    ensures Unhex(HexDigit(c as int / 16), HexDigit(c as int % 16)) == Ok(c)
  {
    assert HexValue(HexDigit(c as int / 16)) == c as int / 16;
    assert HexValue(HexDigit(c as int % 16)) == c as int % 16;
  }

  /** Decoding undoes encoding, whether '+' means a space or itself. */
  lemma {:induction false} DecodeEncode(s: string, plusAsSpace: bool)
    requires Bytes(s)
    ensures Decode(Encode(s), plusAsSpace) == Ok(s)
    decreases |s|
  {
    if s != "" {
      var c := s[0];
      var code, rest := EncodeChar(c), Encode(s[1..]);
      DecodeEncode(s[1..], plusAsSpace);
      assert s == [c] + s[1..];
      var whole := code + rest;
      if Unreserved(c) {
        assert whole[0] == c && whole[1..] == rest;
      } else {
        HexRoundTrip(c);
        assert whole[0] == '%' && whole[1] == code[1] && whole[2] == code[2] && whole[3..] == rest;
      }
    }
  }

  /** The encoded text is made of unreserved characters and escapes only, so it contains no delimiter. */
  lemma {:induction false} EncodedAlphabet(s: string)
    requires Bytes(s)
    ensures forall c <- Encode(s) :: Unreserved(c) || c == '%'
    decreases |s|
  {
    if s != "" {
      EncodedAlphabet(s[1..]);
      assert forall c <- EncodeChar(s[0]) :: Unreserved(c) || c == '%';
    }
  }

  /** Encoding is injective: no two texts share an encoding. */
  lemma EncodeInjective(a: string, b: string)
    requires Bytes(a) && Bytes(b) && Encode(a) == Encode(b)
    ensures a == b
  {
    DecodeEncode(a, false);
    DecodeEncode(b, false);
  }

  // ----- The decoder, said without it -----

  predicate Hex(c: char) {
    c in "0123456789" || c in "abcdef" || c in "ABCDEF"
  }

  lemma HexExactly(c: char)
    ensures HexValue(c) >= 0 <==> Hex(c)
  {
    InRow("0123456789", '0', c);
    InRow("abcdef", 'a', c);
    InRow("ABCDEF", 'A', c);
  }

  /** Every percent sign is followed by two hex digits. */
  ghost predicate Decodable(s: string) {
    forall i: nat :: i < |s| && s[i] == '%' ==> i + 2 < |s| && Hex(s[i + 1]) && Hex(s[i + 2])
  }

  lemma TailDecodable(s: string, k: nat)
    requires k <= |s| && k <= 3
    requires forall i: nat :: i < k && s[i] == '%' ==> i + 2 < |s| && Hex(s[i + 1]) && Hex(s[i + 2])
    ensures Decodable(s) <==> Decodable(s[k..])
  {
    var t := s[k..];
    assert forall i: nat :: i < |t| ==> t[i] == s[k + i];
    if Decodable(t) {
      forall i: nat | i < |s| && s[i] == '%' ensures i + 2 < |s| && Hex(s[i + 1]) && Hex(s[i + 2]) {
        if i >= k {
          assert t[i - k] == '%';
        }
      }
    }
    if Decodable(s) {
      forall i: nat | i < |t| && t[i] == '%' ensures i + 2 < |t| && Hex(t[i + 1]) && Hex(t[i + 2]) {
        assert s[k + i] == '%';
      }
    }
  }

  lemma HexIsNoPercent(c: char)
    requires Hex(c)
    ensures c != '%'
  {
  }

  /** Which texts can be decoded: those in which every percent sign begins an escape. */
  lemma {:induction false} DecodesExactly(s: string, plusAsSpace: bool)
    ensures Decode(s, plusAsSpace).Ok? <==> Decodable(s)
    decreases |s|
  {
    if s != "" {
      if s[0] != '%' {
        TailDecodable(s, 1);
        DecodesExactly(s[1..], plusAsSpace);
      } else if |s| >= 3 {
        HexExactly(s[1]);
        HexExactly(s[2]);
        if Hex(s[1]) && Hex(s[2]) {
          HexIsNoPercent(s[1]);
          HexIsNoPercent(s[2]);
          TailDecodable(s, 3);
          DecodesExactly(s[3..], plusAsSpace);
        }
      }
    }
  }

  function PlusToSpace(s: string): string {
    EachChar(s, c => if c == '+' then " " else [c])
  }

  lemma PlusToSpaceUnfold(s: string)
    requires s != ""
    ensures PlusToSpace(s) == [if s[0] == '+' then ' ' else s[0]] + PlusToSpace(s[1..])
    ensures |PlusToSpace(s)| == 1 + |PlusToSpace(s[1..])|
  {
  }

  lemma PlusIsNoHex(a: char, b: char)
    ensures Unhex(if a == '+' then ' ' else a, if b == '+' then ' ' else b) == Unhex(a, b)
  {
  }

  /** Reading plus as space is reading the text with spaces for its plus signs. */
  lemma {:induction false} PlusIsSpace(s: string)
    ensures |PlusToSpace(s)| == |s|
    ensures Decode(s, true) == Decode(PlusToSpace(s), false)
    decreases |s|
  {
    if s != "" {
      PlusToSpaceUnfold(s);
      PlusIsSpace(s[1..]);
      var t := PlusToSpace(s);
      assert t[1..] == PlusToSpace(s[1..]);
      if s[0] == '%' && |s| >= 3 {
        PlusToSpaceUnfold(s[1..]);
        PlusToSpaceUnfold(s[1..][1..]);
        assert s[1..][1..][1..] == s[3..];
        assert t[3..] == PlusToSpace(s[3..]);
        PlusIsNoHex(s[1], s[2]);
        PlusIsSpace(s[3..]);
      }
    }
  }

  lemma PlusBetween(a: char, b: char)
    requires a != '+' && a != '%' && b != '+' && b != '%'
    ensures Decode([a, '+', b], true) == Ok([a, ' ', b]) && Decode([a, '+', b], false) == Ok([a, '+', b])
  {
    assert [a, '+', b][1..] == ['+', b] && ['+', b][1..] == [b];
    DecodeOne(b, true);
    DecodeOne(b, false);
    assert [a] + ([' '] + [b]) == [a, ' ', b] && [a] + (['+'] + [b]) == [a, '+', b];
  }

  lemma DecodeOne(c: char, plusAsSpace: bool)
    requires c != '+' && c != '%'
    ensures Decode([c], plusAsSpace) == Ok([c])
  {
    assert [c][1..] == "" && [c] + "" == [c];
  }

  /** The unreserved characters of section 2.3 of RFC 3986. */
  lemma UnreservedExactly(c: char)
    ensures Unreserved(c) <==> c in DIGITS || c in SMALL || c in CAPITAL || c in "-_.~"
  {
    AlnumExactly(c);
  }

  /** Any other byte becomes a percent sign and two upper-case digits, as section 2.1 of RFC 3986 asks. */
  lemma EscapesAreUpperCase(c: char)
    requires c as int < 256 && !Unreserved(c)
    ensures var code := EncodeChar(c);
      |code| == 3 && code[0] == '%' && code[1] in "0123456789ABCDEF" && code[2] in "0123456789ABCDEF"
  {
    UpperDigit(c as int / 16);
    UpperDigit(c as int % 16);
  }

  lemma UpperDigit(n: nat)
    requires n < 16
    ensures HexDigit(n) in "0123456789ABCDEF"
  {
    assert "0123456789ABCDEF"[n] == HexDigit(n);
  }

}

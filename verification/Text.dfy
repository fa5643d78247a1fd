/** Text helpers of the library: C-locale character classes, trimming, searching, decimal numerals.
    A C++ byte is a Dafny `char` with the same code. */
module Text {

  datatype Option<+T> = None | Some(value: T)

  datatype Result<+T, +E> = Ok(value: T) | Err(error: E)

  /** The kinds of error a validation reports. */
  datatype ErrorKind = InvalidArgument | PolicyViolation

  /** `std::isspace` in the C locale. */
  predicate IsSpace(c: char) {
    c == ' ' || '\t' <= c <= '\r'
  }

  predicate IsDigit(c: char) {
    '0' <= c <= '9'
  }

  /** `std::isalnum` in the C locale. */
  predicate IsAlnum(c: char) {
    IsDigit(c) || 'a' <= c <= 'z' || 'A' <= c <= 'Z'
  }

  function LowerChar(c: char): char {
    if 'A' <= c <= 'Z' then c - 'A' + 'a' else c
  }

  function Lower(s: string): (r: string)
    ensures |r| == |s|
  {
    seq(|s|, i requires 0 <= i < |s| => LowerChar(s[i]))
  }

  predicate StartsWith(s: string, prefix: string) {
    prefix <= s
  }

  predicate EndsWith(s: string, suffix: string) {
    |suffix| <= |s| && s[|s| - |suffix|..] == suffix
  }

  /** Position of the first `c`, or `|s|` when there is none. */
  function IndexOf(s: string, c: char): (i: nat)
    ensures i <= |s|
  {
    if s == "" || s[0] == c then 0 else 1 + IndexOf(s[1..], c)
  }

  lemma {:induction false} IndexOfFirst(s: string, c: char)
    ensures c !in s[..IndexOf(s, c)]
    ensures IndexOf(s, c) < |s| ==> s[IndexOf(s, c)] == c
  {
    if s != "" && s[0] != c {
      IndexOfFirst(s[1..], c);
      var i := IndexOf(s, c);
      assert s[..i] == [s[0]] + s[1..][..i - 1];
    }
  }

  /** The first occurrence is unique: any split whose left part lacks `c` is the one `IndexOf` finds. */
  lemma {:induction false} IndexOfSplit(left: string, c: char, right: string)
    requires c !in left
    ensures IndexOf(left + [c] + right, c) == |left|
    ensures IndexOf(left, c) == |left|
    decreases |left|
  {
    var s := left + [c] + right;
    if left != "" {
      assert left[0] in left && s[0] == left[0];
      assert s[1..] == left[1..] + [c] + right;
      assert forall d <- left[1..] :: d in left;
      IndexOfSplit(left[1..], c, right);
    }
  }

  /** The two sides of the first `c`. */
  lemma CutAtFirst(s: string, c: char) returns (left: string, right: string)
    ensures left == s[..IndexOf(s, c)] && c !in left
    ensures if IndexOf(s, c) == |s| then left == s && right == "" else right == s[IndexOf(s, c) + 1..] && s == left + [c] + right
  {
    IndexOfFirst(s, c);
    var i := IndexOf(s, c);
    left, right := s[..i], if i == |s| then "" else s[i + 1..];
  }

  ghost predicate AllSpace(s: string) {
    forall i :: 0 <= i < |s| ==> IsSpace(s[i])
  }

  predicate Trimmed(s: string) {
    s == "" || (!IsSpace(s[0]) && !IsSpace(s[|s| - 1]))
  }

  /** How many white-space characters `s` starts with. */
  function Lead(s: string): (n: nat)
    ensures n <= |s|
  {
    if s == "" || !IsSpace(s[0]) then 0 else 1 + Lead(s[1..])
  }

  /** Where the trailing white space of `s` starts. */
  function Trail(s: string): (n: nat)
    ensures n <= |s|
  {
    if s == "" || !IsSpace(s[|s| - 1]) then |s| else Trail(s[..|s| - 1])
  }

  lemma {:induction false} LeadIsSpace(s: string)
    ensures AllSpace(s[..Lead(s)])
    ensures Lead(s) < |s| ==> !IsSpace(s[Lead(s)])
  {
    if s != "" && IsSpace(s[0]) {
      LeadIsSpace(s[1..]);
      assert s[..Lead(s)] == [s[0]] + s[1..][..Lead(s[1..])];
    }
  }

  lemma {:induction false} TrailIsSpace(s: string)
    ensures AllSpace(s[Trail(s)..])
    ensures Trail(s) > 0 ==> !IsSpace(s[Trail(s) - 1])
  {
    if s != "" && IsSpace(s[|s| - 1]) {
      var front := s[..|s| - 1];
      TrailIsSpace(front);
      assert s[Trail(s)..] == front[Trail(s)..] + [s[|s| - 1]];
    }
  }

  function TrimLeft(s: string): string {
    s[Lead(s)..]
  }

  function TrimRight(s: string): string {
    s[..Trail(s)]
  }

  function Trim(s: string): string {
    TrimRight(TrimLeft(s))
  }

  /** `Trim` only removes white space, at both ends, and leaves none there. */
  lemma TrimSplits(s: string) returns (l: string, r: string)
    ensures Trimmed(Trim(s))
    ensures AllSpace(l) && AllSpace(r) && s == l + Trim(s) + r
    ensures forall c <- Trim(s) :: c in s
  {
    var m := TrimLeft(s);
    LeadIsSpace(s);
    TrailIsSpace(m);
    l, r := s[..Lead(s)], m[Trail(m)..];
    assert s == l + m && m == Trim(s) + r;
    if Trim(s) != "" {
      assert Trim(s)[0] == m[0];
    }
  }

  lemma {:induction false} LeadIs(l: string, s: string)
    requires AllSpace(l)
    requires s == "" || !IsSpace(s[0])
    ensures Lead(l + s) == |l|
    decreases |l|
  {
    var w := l + s;
    if l == "" {
      assert w == s;
    } else {
      assert w[0] == l[0] && w[1..] == l[1..] + s;
      LeadIs(l[1..], s);
    }
  }

  lemma {:induction false} TrailIs(s: string, r: string)
    requires AllSpace(r)
    requires s == "" || !IsSpace(s[|s| - 1])
    ensures Trail(s + r) == |s|
    decreases |r|
  {
    var w := s + r;
    if r == "" {
      assert w == s;
    } else {
      assert w[|w| - 1] == r[|r| - 1] && w[..|w| - 1] == s + r[..|r| - 1];
      TrailIs(s, r[..|r| - 1]);
    }
  }

  lemma TrimLeftDrops(l: string, s: string)
    requires AllSpace(l)
    requires s == "" || !IsSpace(s[0])
    ensures TrimLeft(l + s) == s
  {
    LeadIs(l, s);
  }

  lemma TrimRightDrops(s: string, r: string)
    requires AllSpace(r)
    requires s == "" || !IsSpace(s[|s| - 1])
    ensures TrimRight(s + r) == s
  {
    TrailIs(s, r);
  }

  /** `Trim` is the only way to cut white space off both ends. */
  lemma TrimUnique(l: string, t: string, r: string)
    requires AllSpace(l) && AllSpace(r) && Trimmed(t)
    ensures Trim(l + t + r) == t
  {
    if t == "" {
      assert l + t + r == (l + r) + "";
      TrimLeftDrops(l + r, "");
    } else {
      assert l + t + r == l + (t + r);
      TrimLeftDrops(l, t + r);
      TrimRightDrops(t, r);
    }
  }

  lemma TrimFixed(t: string)
    requires Trimmed(t)
    ensures Trim(t) == t
  {
    TrimUnique("", t, "");
    assert "" + t + "" == t;
  }

  /** White space added at the end is not seen. */
  lemma TrimTail(s: string, tail: string)
    requires AllSpace(tail)
    ensures Trim(s + tail) == Trim(s)
  {
    var l, r := TrimSplits(s);
    assert s + tail == l + Trim(s) + (r + tail);
    TrimUnique(l, Trim(s), r + tail);
  }

  /** `std::to_string` of a non-negative integer. */
  function Decimal(n: nat): (s: string)
    ensures s != ""
    ensures forall c <- s :: IsDigit(c)
    ensures s[0] == '0' ==> n == 0
    ensures n == 0 ==> s == "0"
  {
    if n < 10 then ['0' + n as char] else Decimal(n / 10) + ['0' + (n % 10) as char]
  }

  /** The number a digit string denotes in base ten. */
  function DecimalValue(s: string): nat
    requires forall c <- s :: IsDigit(c)
  {
    if s == "" then 0
    else
      var c := s[|s| - 1];
      assert IsDigit(c);
      10 * DecimalValue(s[..|s| - 1]) + (c - '0') as nat
  }

  lemma {:induction false} DecimalReadsBack(n: nat)
    ensures DecimalValue(Decimal(n)) == n
  {
    var s := Decimal(n);
    if n < 10 {
      assert s[..|s| - 1] == "";
      assert DecimalValue(s[..|s| - 1]) == 0;
    } else {
      DecimalReadsBack(n / 10);
      assert s[..|s| - 1] == Decimal(n / 10);
    }
  }

  lemma {:induction false} DecimalInjective(m: nat, n: nat)
    requires Decimal(m) == Decimal(n)
    ensures m == n
  {
    DecimalReadsBack(m);
    DecimalReadsBack(n);
  }

  /** Both sides of the last separator are determined by the joined text. */
  lemma SplitAtLast(a: string, x: string, b: string, y: string, sep: char)
    requires a + [sep] + x == b + [sep] + y
    requires sep !in x && sep !in y
    ensures a == b && x == y
  {
    var s := a + [sep] + x;
    assert forall k | |a| < k < |s| :: s[k] == x[k - |a| - 1] && s[k] in x;
    assert forall k | |b| < k < |s| :: s[k] == y[k - |b| - 1] && s[k] in y;
    assert s[|a|] == sep && s[|b|] == sep;
    assert a == s[..|a|] && b == s[..|b|];
    assert x == s[|a| + 1..] && y == s[|b| + 1..];
  }

  /** Both sides of the first separator are determined by the joined text. */
  lemma SplitAtFirst(a: string, x: string, b: string, y: string, sep: char)
    requires a + [sep] + x == b + [sep] + y
    requires sep !in a && sep !in b
    ensures a == b && x == y
  {
    IndexOfSplit(a, sep, x);
    IndexOfSplit(b, sep, y);
    var s := a + [sep] + x;
    assert a == s[..|a|] && b == s[..|b|];
    assert x == s[|a| + 1..] && y == s[|b| + 1..];
  }

  // ----- Printing character by character -----

  function EachChar(s: string, code: char -> string): string {
    if s == "" then "" else code(s[0]) + EachChar(s[1..], code)
  }

  lemma Reassociate(a: string, b: string, c: string)
    ensures a + (b + c) == a + b + c
  {
  }

  lemma ReassociateLast(a: string, b: string, c: string, d: string)
    ensures a + b + c + d == a + (b + c + d)
  {
  }

  /** One step of a printing loop. */
  lemma EachCharStep(out: string, s: string, i: nat, code: char -> string)
    requires i < |s|
    ensures out + EachChar(s[i..], code) == out + code(s[i]) + EachChar(s[i + 1..], code)
  {
    assert s[i..][1..] == s[i + 1..];
    Reassociate(out, code(s[i]), EachChar(s[i + 1..], code));
  }

  // ----- Character classes, written out -----

  const DIGITS := "0123456789"
  const SMALL := "abcdefghijklmnopqrstuvwxyz"
  const CAPITAL := "ABCDEFGHIJKLMNOPQRSTUVWXYZ"

  lemma InRow(s: string, first: char, c: char)
    requires first as int + |s| < 128 && forall i :: 0 <= i < |s| ==> s[i] as int == first as int + i
    ensures c in s <==> first as int <= c as int < first as int + |s|
  {
    if first as int <= c as int < first as int + |s| {
      assert s[c as int - first as int] == c;
    }
  }

  lemma AlnumExactly(c: char)
    ensures IsDigit(c) <==> c in DIGITS
    ensures IsAlnum(c) <==> c in DIGITS || c in SMALL || c in CAPITAL
  {
    InRow(DIGITS, '0', c);
    InRow(SMALL, 'a', c);
    InRow(CAPITAL, 'A', c);
  }

  /** Lower case, letter by letter. */
  lemma LowerExactly(c: char)
    ensures c !in CAPITAL ==> LowerChar(c) == c
    ensures forall i :: 0 <= i < 26 && c == CAPITAL[i] ==> LowerChar(c) == SMALL[i]
  {
    InRow(CAPITAL, 'A', c);
    assert |CAPITAL| == |SMALL| == 26;
  }

}

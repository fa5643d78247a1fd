/** The label filter of the container list: JSON inside a percent-encoded query parameter. */
module Filters {
  import opened Text
  import opened Json
  import JsonText
  import Percent

  /** The printer of `filters_query` escapes quotation marks and backslashes only. */
  function EscapeChar(c: char): string {
    if c == '"' || c == '\\' then ['\\', c] else [c]
  }

  function Escape(s: string): string {
    EachChar(s, EscapeChar)
  }

  function Quoted(f: string): string {
    "\"" + (Escape(f) + "\"")
  }

  function Items(filters: seq<string>): string {
    if filters == [] then ""
    else Quoted(filters[0]) + (if |filters| == 1 then "" else "," + Items(filters[1..]))
  }

  const LABEL := "\"" + "label" + "\":"
  const OPEN := "{" + (LABEL + "[")
  const CLOSE := "]" + "}"

  function FilterJson(filters: seq<string>): string {
    OPEN + (Items(filters) + CLOSE)
  }

  /** The tree the query is meant to carry. */
  function Meaning(filters: seq<string>): Json {
    Object([Member("label", Strings(filters))])
  }

  lemma {:induction false} ItemsAppends(filters: seq<string>, f: string)
    ensures Items(filters + [f]) == Items(filters) + ((if filters == [] then "" else ",") + Quoted(f))
    decreases |filters|
  {
    var last := Quoted(f);
    if filters == [] {
      assert filters + [f] == [f];
      assert last + "" == last && "" + last == last && "" + ("" + last) == last;
    } else {
      assert (filters + [f])[1..] == filters[1..] + [f];
      ItemsAppends(filters[1..], f);
      var head := Quoted(filters[0]);
      if |filters| == 1 {
        assert filters[1..] == [];
        assert Items([]) + ("" + last) == last;
        assert head + "" == head;
      } else {
        var more := Items(filters[1..]);
        Reassociate(head, "," + more, "," + last);
        Reassociate(",", more, "," + last);
      }
    }
  }

  method AppendFilter(json: string, filter: string) returns (r: string)
    ensures r == json + Quoted(filter)
  {
    r := json + "\"";
    assert filter[0..] == filter;
    ghost var goal := r + Escape(filter);
    for i := 0 to |filter|
      invariant r + Escape(filter[i..]) == goal
    {
      EachCharStep(r, filter, i, EscapeChar);
      var c := filter[i];
      var code := if c == '"' || c == '\\' then ['\\', c] else [c];
      r := r + code;
    }
    assert filter[|filter|..] == "" && r + "" == r;
    r := r + "\"";
    FilterGroups(json, Escape(filter));
  }

  lemma FilterGroups(json: string, body: string)
    ensures json + "\"" + body + "\"" == json + ("\"" + (body + "\""))
  {
  }

  /** `filters_query`. */
  method FiltersQuery(filters: seq<string>) returns (query: string)
    requires forall f <- filters :: Percent.Bytes(f)
    ensures filters == [] ==> query == ""
    ensures filters != [] ==> Percent.Bytes(FilterJson(filters)) && query == "&filters=" + Percent.Encode(FilterJson(filters))
  {
    if filters == [] {
      return "";
    }
    var json := OPEN;
    var first := true;
    assert filters[..0] == [];
    for i := 0 to |filters|
      invariant json == OPEN + Items(filters[..i]) && (first <==> i == 0)
    {
      ghost var comma := if first then "" else ",";
      if !first {
        json := json + ",";
      }
      first := false;
      assert json == OPEN + Items(filters[..i]) + comma;
      json := AppendFilter(json, filters[i]);
      assert filters[..i + 1] == filters[..i] + [filters[i]];
      ItemsAppends(filters[..i], filters[i]);
      JsonText.Enclosed(OPEN, Items(filters[..i]), comma, Quoted(filters[i]));
    }
    assert filters[..|filters|] == filters;
    json := json + CLOSE;
    Reassociate(OPEN, Items(filters), CLOSE);
    FilterJsonIsBytes(filters);
    var encoded := Percent.UrlEncodeComponent(json);
    query := "&filters=" + encoded;
  }

  lemma {:induction false} EscapeIsBytes(s: string)
    requires Percent.Bytes(s)
    ensures Percent.Bytes(Escape(s))
  {
    if s != "" {
      EscapeIsBytes(s[1..]);
    }
  }

  lemma {:induction false} ItemsAreBytes(filters: seq<string>)
    requires forall f <- filters :: Percent.Bytes(f)
    ensures Percent.Bytes(Items(filters))
  {
    if filters != [] {
      assert filters[0] in filters && forall f <- filters[1..] :: f in filters;
      EscapeIsBytes(filters[0]);
      ItemsAreBytes(filters[1..]);
    }
  }

  lemma FilterJsonIsBytes(filters: seq<string>)
    requires forall f <- filters :: Percent.Bytes(f)
    ensures Percent.Bytes(FilterJson(filters))
  {
    ItemsAreBytes(filters);
  }

  // ----- When the JSON is JSON -----

  predicate Clean(s: string) {
    forall i :: 0 <= i < |s| ==> s[i] >= ' '
  }

  ghost predicate AllClean(filters: seq<string>) {
    forall f <- filters :: Clean(f)
  }

  lemma AllCleanSplits(filters: seq<string>)
    requires filters != []
    ensures AllClean(filters) <==> Clean(filters[0]) && AllClean(filters[1..])
  {
    assert filters == [filters[0]] + filters[1..];
  }

  /** A filter is read back exactly if it has no control character; otherwise the string is not JSON. */
  lemma {:induction false} FilterReads(s: string, rest: string)
    ensures ReadString(Escape(s) + ("\"" + rest)) == if Clean(s) then Some((s, rest)) else None
    decreases |s|
  {
    var tail := "\"" + rest;
    if s == "" {
      assert Escape(s) + tail == tail && tail[1..] == rest;
    } else {
      var c, body := s[0], Escape(s[1..]) + tail;
      Reassociate(EscapeChar(c), Escape(s[1..]), tail);
      FilterReads(s[1..], rest);
      assert s == [c] + s[1..];
      assert Clean(s) <==> c >= ' ' && Clean(s[1..]) by {
        assert forall i :: 0 <= i < |s| - 1 ==> s[1..][i] == s[i + 1];
      }
      CharReads(c, body);
    }
  }

  lemma CharReads(c: char, body: string)
    ensures var tail := ReadString(body);
      ReadString(EscapeChar(c) + body) ==
      if c < ' ' || tail.None? then None else Some(([c] + tail.value.0, tail.value.1))
  {
    if c == '"' || c == '\\' {
      assert [c] + body == [c] + body && ([c] + body)[1..] == body;
      JsonText.ShortEscapeReads(c, c, body);
    } else if c >= ' ' {
      JsonText.PlainReads(c, body);
    } else {
      assert (EscapeChar(c) + body)[0] == c;
    }
  }

  lemma ValueReads(f: string, rest: string)
    ensures ReadValue(Quoted(f) + rest) == if Clean(f) then Some((String(f), rest)) else None
  {
    FilterReads(f, rest);
    var body := Escape(f) + ("\"" + rest);
    Reassociate("\"", Escape(f) + "\"", rest);
    Reassociate(Escape(f), "\"", rest);
    assert ("\"" + body)[1..] == body;
  }

  lemma ItemsUnfold(filters: seq<string>, end: string)
    requires filters != []
    ensures Items(filters) + end ==
            Quoted(filters[0]) + (if |filters| == 1 then end else "," + (Items(filters[1..]) + end))
  {
    var head, more := Quoted(filters[0]), Items(filters[1..]);
    Reassociate(head, if |filters| == 1 then "" else "," + more, end);
    Reassociate(",", more, end);
    assert "" + end == end;
  }

  lemma ElementsStep(v: Option<(Json, string)>, text: string, more: string)
    requires ReadValue(text) == v && (v.Some? ==> v.value.1 == "," + more)
    requires more != "" && !IsWhite(more[0])
    ensures var tail := ReadElements(more);
      ReadElements(text) == if v.None? || tail.None? then None else Some(([v.value.0] + tail.value.0, tail.value.1))
  {
    if v.Some? {
      JsonText.SkipNothing("," + more);
      assert ("," + more)[1..] == more;
      JsonText.SkipNothing(more);
    }
  }

  lemma LastItemReads(f: string, rest: string)
    ensures ReadElements(Quoted(f) + ("]" + rest)) == if Clean(f) then Some(([String(f)], rest)) else None
  {
    ValueReads(f, "]" + rest);
    if Clean(f) {
      JsonText.LastElementReads(String(f), Quoted(f) + ("]" + rest), rest);
    }
  }

  lemma NextItemReads(f: string, more: string)
    requires more != "" && !IsWhite(more[0])
    ensures var tail := ReadElements(more);
      ReadElements(Quoted(f) + ("," + more)) ==
      if !Clean(f) || tail.None? then None else Some(([String(f)] + tail.value.0, tail.value.1))
  {
    ValueReads(f, "," + more);
    ElementsStep(ReadValue(Quoted(f) + ("," + more)), Quoted(f) + ("," + more), more);
  }

  lemma StringsUnfold(values: seq<string>)
    requires values != []
    ensures Strings(values).items == [String(values[0])] + Strings(values[1..]).items
  {
  }

  lemma {:induction false} ItemsRead(filters: seq<string>, rest: string)
    requires filters != []
    ensures ReadElements(Items(filters) + ("]" + rest)) ==
            if AllClean(filters) then Some((Strings(filters).items, rest)) else None
    decreases |filters|
  {
    var f, end := filters[0], "]" + rest;
    ItemsUnfold(filters, end);
    AllCleanSplits(filters);
    StringsUnfold(filters);
    if |filters| == 1 {
      LastItemReads(f, rest);
      assert Strings(filters).items == [String(f)];
    } else {
      var more := Items(filters[1..]) + end;
      ItemsRead(filters[1..], rest);
      assert more[0] == '"';
      NextItemReads(f, more);
    }
  }

  lemma ArrayPart(filters: seq<string>, rest: string)
    requires filters != []
    ensures ReadValue("[" + (Items(filters) + ("]" + rest))) ==
            if AllClean(filters) then Some((Strings(filters), rest)) else None
  {
    var t := Items(filters) + ("]" + rest);
    ItemsRead(filters, rest);
    assert ("[" + t)[1..] == t && t[0] == '"';
    JsonText.SkipNothing(t);
  }

  /** The name `label` and its colon. */
  lemma LabelReads(body: string)
    requires body != "" && !IsWhite(body[0])
    ensures ReadMember(LABEL + body) ==
            if ReadValue(body).None? then None else Some((Member("label", ReadValue(body).value.0), ReadValue(body).value.1))
  {
    assert LABEL + body == JsonText.Quote("label") + (":" + body) by {
      LabelText();
      Reassociate(JsonText.Quote("label"), ":", body);
    }
    JsonText.QuoteReads("label", ":" + body);
    JsonText.SkipNothing(":" + body);
    assert (":" + body)[1..] == body;
    JsonText.SkipNothing(body);
  }

  lemma LabelText()
    ensures JsonText.Quote("label") + ":" == LABEL
  {
    PlainQuoteColon("label");
  }

  lemma PlainQuoteColon(s: string)
    requires forall c <- s :: JsonText.Plain(c)
    ensures JsonText.Quote(s) + ":" == "\"" + s + "\":"
  {
    JsonText.PlainEscape(s);
    assert "\"" + ":" == "\":";
    Reassociate("\"" + s, "\"", ":");
  }

  /** `filters_query` sends the JSON it means if and only if no filter contains a control character; one such
      character anywhere makes the text no JSON at all. */
  lemma FilterJsonIsExact(filters: seq<string>)
    requires filters != []
    ensures AllClean(filters) ==> ReadJson(FilterJson(filters)) == Some(Meaning(filters))
    ensures !AllClean(filters) ==> ReadJson(FilterJson(filters)) == None
  {
    var body := "[" + (Items(filters) + ("]" + "}"));
    var t := LABEL + body;
    ArrayPart(filters, "}");
    LabelReads(body);
    FilterText(Items(filters));
    JsonText.SkipNothing("{" + t);
    if AllClean(filters) {
      var m := Member("label", Strings(filters));
      assert "}" + "" == "}";
      JsonText.LastMemberReads(m, t, "");
      JsonText.ObjectBodyReads(t, [m], "");
    } else {
      assert ReadMember(t) == None && ReadMembers(t) == None;
      assert t[0] == '"' && ("{" + t)[1..] == t;
      JsonText.SkipNothing(t);
      assert ReadValue("{" + t) == None;
    }
  }

  /** A filter with a line feed: the query carries no JSON. */
  lemma LineFeedBreaksTheFilter()
    ensures ReadJson(FilterJson(["app=a\nb"])) == None
  {
    ControlBreaksTheFilter("app=a\nb", 5);
  }

  lemma ControlBreaksTheFilter(f: string, i: nat)
    requires i < |f| && f[i] < ' '
    ensures ReadJson(FilterJson([f])) == None
  {
    assert f[i] in f && f in [f];
    FilterJsonIsExact([f]);
  }

  lemma FilterText(items: string)
    ensures OPEN + (items + CLOSE) == "{" + (LABEL + ("[" + (items + ("]" + "}"))))
  {
    var rest := items + CLOSE;
    Reassociate("{", LABEL + "[", rest);
    Reassociate(LABEL, "[", rest);
  }
}

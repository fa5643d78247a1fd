/** The query parser of the example service. */
module Query {
  import opened Text
  import opened Percent

  type Params = map<string, seq<string>>

  datatype Query = Query(path: string, params: Params)

  datatype Pair = Pair(key: string, value: string)

  /** `query.params[key].push_back(value)`. */
  function Push(m: Params, p: Pair): Params {
    m[p.key := (if p.key in m then m[p.key] else []) + [p.value]]
  }

  function PushAll(m: Params, ps: seq<Pair>): Params
    decreases |ps|
  {
    if ps == [] then m else PushAll(Push(m, ps[0]), ps[1..])
  }

  /** One `key=value` part; without '=' the value is empty. */
  function DecodePart(part: string): Result<Pair, DecodeError> {
    var eq := IndexOf(part, '=');
    var key := Decode(part[..eq], true);
    var value := Decode(if eq == |part| then "" else part[eq + 1..], true);
    if key.Err? then Err(key.error) else if value.Err? then Err(value.error) else Ok(Pair(key.value, value.value))
  }

  function ConsPair(p: Pair, r: Result<seq<Pair>, DecodeError>): Result<seq<Pair>, DecodeError> {
    if r.Ok? then Ok([p] + r.value) else r
  }

  function Parts(text: string): Result<seq<Pair>, DecodeError>
    decreases |text|
  {
    if text == "" then Ok([])
    else
      var amp := IndexOf(text, '&');
      var first := DecodePart(text[..amp]);
      if first.Err? then Err(first.error)
      else ConsPair(first.value, Parts(if amp == |text| then "" else text[amp + 1..]))
  }

  function Parse(target: string): Result<Query, DecodeError> {
    var question := IndexOf(target, '?');
    if question == |target| then Ok(Query(target, map[]))
    else
      var ps := Parts(target[question + 1..]);
      if ps.Err? then Err(ps.error) else Ok(Query(target[..question], PushAll(map[], ps.value)))
  }

  ghost function Finished(path: string, m: Params, r: Result<seq<Pair>, DecodeError>): Result<Query, DecodeError> {
    if r.Err? then Err(r.error) else Ok(Query(path, PushAll(m, r.value)))
  }

  lemma FinishedStep(path: string, m: Params, p: Pair, r: Result<seq<Pair>, DecodeError>)
    ensures Finished(path, m, ConsPair(p, r)) == Finished(path, Push(m, p), r)
  {
    if r.Ok? {
      assert ([p] + r.value)[1..] == r.value;
    }
  }

  /** `parse_query`. */
  method ParseQuery(target: string) returns (r: Result<Query, DecodeError>)
    ensures r == Parse(target)
  {
    var question := IndexOf(target, '?');
    var path := target[..question];
    var params: Params := map[];
    assert target[..|target|] == target;
    if question == |target| {
      return Ok(Query(path, params));
    }
    var remaining := target[question + 1..];
    assert Parse(target) == Finished(path, params, Parts(remaining));
    while remaining != ""
      invariant Parse(target) == Finished(path, params, Parts(remaining))
      decreases |remaining|
    {
      var amp := IndexOf(remaining, '&');
      var part := remaining[..amp];
      var eq := IndexOf(part, '=');
      var rawKey := part[..eq];
      var rawValue := if eq == |part| then "" else part[eq + 1..];
      var key := UrlDecodeComponent(rawKey, true);
      var value := UrlDecodeComponent(rawValue, true);
      if key.Err? {
        return Err(key.error);
      }
      if value.Err? {
        return Err(value.error);
      }
      var pair := Pair(key.value, value.value);
      assert DecodePart(part) == Ok(pair);
      var next := if amp == |remaining| then "" else remaining[amp + 1..];
      FinishedStep(path, params, pair, Parts(next));
      params := Push(params, pair);
      remaining := next;
    }
    r := Ok(Query(path, params));
  }

  // ----- Round trip -----

  ghost predicate BytePair(p: Pair) {
    Bytes(p.key) && Bytes(p.value)
  }

  function ShowPair(p: Pair): string
    requires BytePair(p)
  {
    Encode(p.key) + "=" + Encode(p.value)
  }

  function ShowPairs(ps: seq<Pair>): string
    requires forall p <- ps :: BytePair(p)
  {
    if ps == [] then ""
    else if |ps| == 1 then ShowPair(ps[0])
    else ShowPair(ps[0]) + "&" + ShowPairs(ps[1..])
  }

  lemma PartSplits(rawKey: string, rawValue: string)
    requires '=' !in rawKey
    ensures IndexOf(rawKey + "=" + rawValue, '=') == |rawKey|
    ensures (rawKey + "=" + rawValue)[..|rawKey|] == rawKey
    ensures (rawKey + "=" + rawValue)[|rawKey| + 1..] == rawValue
  {
    IndexOfSplit(rawKey, '=', rawValue);
  }

  lemma PairReads(p: Pair)
    requires BytePair(p)
    ensures DecodePart(ShowPair(p)) == Ok(p)
  {
    var k, v := Encode(p.key), Encode(p.value);
    EncodedAlphabet(p.key);
    PartSplits(k, v);
    DecodeEncode(p.key, true);
    DecodeEncode(p.value, true);
  }

  lemma PairHasNoAmpersand(p: Pair)
    requires BytePair(p)
    ensures '&' !in ShowPair(p) && ShowPair(p) != ""
  {
    EncodedAlphabet(p.key);
    EncodedAlphabet(p.value);
  }

  /** A part without an ampersand stands alone at the end of the text, or before an ampersand. */
  lemma PartReads(part: string, rest: string, p: Pair)
    requires '&' !in part && part != "" && DecodePart(part) == Ok(p)
    ensures Parts(part) == Ok([p])
    ensures Parts(part + "&" + rest) == ConsPair(p, Parts(rest))
  {
    IndexOfSplit(part, '&', rest);
    var text := part + "&" + rest;
    assert text[..|part|] == part && text[|part| + 1..] == rest;
    assert part[..|part|] == part;
    assert [p] + [] == [p];
  }

  lemma {:induction false} PairsRead(ps: seq<Pair>)
    requires forall p <- ps :: BytePair(p)
    ensures Parts(ShowPairs(ps)) == Ok(ps)
    decreases |ps|
  {
    if ps != [] {
      var p, part := ps[0], ShowPair(ps[0]);
      assert p in ps && forall q <- ps[1..] :: q in ps;
      PairReads(p);
      PairHasNoAmpersand(p);
      PartReads(part, ShowPairs(ps[1..]), p);
      assert ps == [p] + ps[1..];
      if |ps| > 1 {
        PairsRead(ps[1..]);
      }
    }
  }

  /** The values given to a key, in order. */
  function ValuesFor(ps: seq<Pair>, key: string): seq<string> {
    if ps == [] then []
    else (if ps[0].key == key then [ps[0].value] else []) + ValuesFor(ps[1..], key)
  }

  function Many(m: Params, key: string): seq<string> {
    if key in m then m[key] else []
  }

  lemma {:induction false} GroupedInOrder(m: Params, ps: seq<Pair>, key: string)
    ensures Many(PushAll(m, ps), key) == Many(m, key) + ValuesFor(ps, key)
    ensures key in PushAll(m, ps) <==> key in m || exists p <- ps :: p.key == key
    decreases |ps|
  {
    if ps == [] {
      assert Many(m, key) + [] == Many(m, key);
    } else {
      GroupedInOrder(Push(m, ps[0]), ps[1..], key);
      assert ps == [ps[0]] + ps[1..];
      assert forall p :: p in ps <==> p == ps[0] || p in ps[1..];
      if ps[0].key == key {
        assert Many(m, key) + [ps[0].value] + ValuesFor(ps[1..], key) == Many(m, key) + ValuesFor(ps, key);
      } else {
        assert [] + ValuesFor(ps[1..], key) == ValuesFor(ps[1..], key);
      }
    }
  }

  /** Query round trip: the path, and for every key the list of its values in order, come back from the
      encoded target, for any bytes in keys and values, empty ones included. */
  lemma QueryReadsBack(path: string, ps: seq<Pair>, key: string)
    requires '?' !in path && forall p <- ps :: BytePair(p)
    ensures var r := Parse(path + "?" + ShowPairs(ps));
      && r.Ok? && r.value.path == path
      && Many(r.value.params, key) == ValuesFor(ps, key)
      && (key in r.value.params <==> exists p <- ps :: p.key == key)
    ensures Parse(path) == Ok(Query(path, map[]))
  {
    var target := path + "?" + ShowPairs(ps);
    IndexOfSplit(path, '?', ShowPairs(ps));
    assert target[..|path|] == path && target[|path| + 1..] == ShowPairs(ps);
    PairsRead(ps);
    GroupedInOrder(map[], ps, key);
    assert [] + ValuesFor(ps, key) == ValuesFor(ps, key);
  }

  /** A part without an equals sign is a key with an empty value. */
  lemma KeyAlone(part: string, key: string)
    requires '=' !in part && Decode(part, true) == Ok(key)
    ensures DecodePart(part) == Ok(Pair(key, ""))
  {
    IndexOfFirst(part, '=');
    assert part[..|part|] == part;
  }

  /** An empty part counts: it is the empty key with an empty value. */
  lemma EmptyPart(rest: string)
    ensures Parts("&" + rest) == ConsPair(Pair("", ""), Parts(rest))
  {
    IndexOfSplit("", '&', rest);
    assert "" + "&" + rest == "&" + rest;
    assert ("&" + rest)[..0] == "" && ("&" + rest)[1..] == rest;
  }

}

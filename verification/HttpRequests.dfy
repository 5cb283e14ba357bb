/** A request, and the splitting of its target into a path and query parameters. */
module HttpRequests {
  import opened Prelude
  import opened HttpText

  /** The parsed head of a request; `verb` is its method. Version numbers are mathematical integers. */
  datatype Request = Request(verb: string, uri: string, major: int, minor: int, headers: seq<Header>)

  /** The index of the first `c` in `s`, or `|s|`. */
  function FirstIndex(s: string, c: char): (i: nat)
    ensures i <= |s|
    ensures i < |s| ==> s[i] == c
    ensures forall j :: 0 <= j < i ==> s[j] != c
  {
    if s == [] || s[0] == c then 0 else 1 + FirstIndex(s[1..], c)
  }

  lemma {:induction false} FirstIndexAt(a: string, c: char, b: string)
    requires c !in a
    ensures FirstIndex(a + [c] + b, c) == |a|
    ensures FirstIndex(a, c) == |a|
  {
    if a == [] {
      assert a + [c] + b == [c] + b;
    } else {
      assert (a + [c] + b)[1..] == a[1..] + [c] + b;
      FirstIndexAt(a[1..], c, b);
    }
  }

  // ---------- splitting ----------

  /** Tokens as `getline` reads them: each ends at a delimiter or at the end of input,
      and nothing is read once the input is used up. */
  function SplitBy(s: string, delim: char): seq<string>
    decreases |s|
  {
    if s == [] then []
    else
      var i := FirstIndex(s, delim);
      if i == |s| then [s] else [s[..i]] + SplitBy(s[i + 1..], delim)
  }

  function Join(tokens: seq<string>, delim: char): string {
    if tokens == [] then []
    else if |tokens| == 1 then tokens[0]
    else tokens[0] + [delim] + Join(tokens[1..], delim)
  }

  lemma SplitNothing(delim: char)
    ensures SplitBy([], delim) == []
  {
  }

  lemma SplitStep(s: string, delim: char)
    requires s != []
    ensures var i := FirstIndex(s, delim);
            SplitBy(s, delim) == [s[..i]] + SplitBy(if i < |s| then s[i + 1..] else [], delim)
  {
    hide FirstIndex;
    assert s[..|s|] == s;
  }

  lemma MoveToken(tokens: seq<string>, s: string, delim: char, k: nat, left: string)
    requires s != [] && k == FirstIndex(s, delim) && left == if k < |s| then s[k + 1..] else []
    ensures tokens + SplitBy(s, delim) == tokens + [s[..k]] + SplitBy(left, delim)
  {
    hide FirstIndex, SplitBy;
    SplitStep(s, delim);
    AppendAssociative(tokens, [s[..k]], SplitBy(left, delim));
  }

  method SplitString(input: string, delim: char) returns (tokens: seq<string>)
    ensures tokens == SplitBy(input, delim)
  {
    hide FirstIndex;
    SplitNothing(delim);
    hide SplitBy;
    tokens := [];
    var rest := input;
    while rest != []
      invariant SplitBy(input, delim) == tokens + SplitBy(rest, delim)
      decreases |rest|
    {
      var k := FirstIndex(rest, delim);
      var left := if k < |rest| then rest[k + 1..] else [];
      MoveToken(tokens, rest, delim, k, left);
      tokens := tokens + [rest[..k]];
      rest := left;
    }
  }

  /** Splitting inverts joining, except that an empty last token is dropped. */
  lemma {:induction false} SplitJoin(tokens: seq<string>, delim: char)
    requires forall i :: 0 <= i < |tokens| ==> delim !in tokens[i]
    ensures SplitBy(Join(tokens, delim), delim) ==
            if tokens != [] && tokens[|tokens| - 1] == [] then tokens[..|tokens| - 1] else tokens
  {
    if |tokens| == 1 {
      FirstIndexAt(tokens[0], delim, []);
    } else if |tokens| > 1 {
      hide SplitBy;
      var rest := tokens[1..];
      SplitFirst(tokens[0], delim, Join(rest, delim));
      SplitJoin(rest, delim);
      assert rest[|rest| - 1] == tokens[|tokens| - 1];
      if rest[|rest| - 1] == [] {
        assert [tokens[0]] + rest[..|rest| - 1] == tokens[..|tokens| - 1];
      } else {
        assert [tokens[0]] + rest == tokens;
      }
    }
  }

  lemma SplitFirst(token: string, delim: char, rest: string)
    requires delim !in token
    ensures SplitBy(token + [delim] + rest, delim) == [token] + SplitBy(rest, delim)
  {
    FirstIndexAt(token, delim, rest);
    var s := token + [delim] + rest;
    assert s[..|token|] == token && s[|token| + 1..] == rest;
  }

  /** Joining inverts splitting, except that one delimiter at the end is dropped. */
  lemma {:induction false} JoinSplit(s: string, delim: char)
    ensures Join(SplitBy(s, delim), delim) ==
            if s != [] && s[|s| - 1] == delim then s[..|s| - 1] else s
    decreases |s|
  {
    if s != [] {
      var i := FirstIndex(s, delim);
      if i < |s| {
        var rest := s[i + 1..];
        JoinSplit(rest, delim);
        assert s == s[..i] + [delim] + rest;
        if rest != [] {
          assert SplitBy(rest, delim) != [];
          assert SplitBy(s, delim)[1..] == SplitBy(rest, delim);
          assert rest[|rest| - 1] == s[|s| - 1];
          assert s[..i] + [delim] + rest[..|rest| - 1] == s[..|s| - 1];
        }
      }
    }
  }

  // ---------- query parameters ----------

  type Params = map<string, string>

  /** One `key=value` token; without "=" the value is empty, and an empty token is skipped. */
  function AddToken(params: Params, token: string): Params {
    var eq := FirstIndex(token, '=');
    if eq == |token| then (if token == [] then params else params[token := []])
    else params[token[..eq] := token[eq + 1..]]
  }

  function AddTokens(params: Params, tokens: seq<string>): Params
    decreases |tokens|
  {
    if tokens == [] then params else AddTokens(AddToken(params, tokens[0]), tokens[1..])
  }

  lemma AddNextToken(params: Params, tokens: seq<string>, i: nat)
    requires i < |tokens|
    ensures AddTokens(params, tokens[i..]) == AddTokens(AddToken(params, tokens[i]), tokens[i + 1..])
  {
    assert tokens[i..][1..] == tokens[i + 1..];
  }

  lemma AddNoTokens(params: Params)
    ensures AddTokens(params, []) == params
  {
  }

  /** Whether a token sets parameter `key`. */
  predicate Sets(token: string, key: string) {
    token != [] && token[..FirstIndex(token, '=')] == key
  }

  function ValueIn(token: string): string {
    var eq := FirstIndex(token, '=');
    if eq == |token| then [] else token[eq + 1..]
  }

  /** Token `i` is the last one that sets `key`. */
  predicate LastSetter(tokens: seq<string>, i: int, key: string) {
    0 <= i < |tokens| && Sets(tokens[i], key) && forall j :: i < j < |tokens| ==> !Sets(tokens[j], key)
  }

  predicate NeverSet(tokens: seq<string>, key: string) {
    forall i :: 0 <= i < |tokens| ==> !Sets(tokens[i], key)
  }

  /** Last one wins, for arbitrary tokens: a key that some token sets has the value of
      the last token that does, and any other key is left as it was. */
  lemma {:induction false} LastTokenWins(params: Params, tokens: seq<string>, key: string)
    ensures var m := AddTokens(params, tokens);
            if NeverSet(tokens, key)
            then (key in m <==> key in params) && (key in m ==> m[key] == params[key])
            else exists i :: LastSetter(tokens, i, key) && key in m && m[key] == ValueIn(tokens[i])
    decreases |tokens|
  {
    if tokens != [] {
      var next, rest := AddToken(params, tokens[0]), tokens[1..];
      LastTokenWins(next, rest, key);
      OneToken(params, tokens[0], key);
      forall j | 0 <= j < |rest| ensures rest[j] == tokens[j + 1] {
      }
      if NeverSet(rest, key) {
        forall j | 0 < j < |tokens| ensures !Sets(tokens[j], key) {
          assert !Sets(rest[j - 1], key);
        }
        if Sets(tokens[0], key) {
          assert LastSetter(tokens, 0, key);
        }
      } else {
        var i :| LastSetter(rest, i, key) && AddTokens(next, rest)[key] == ValueIn(rest[i]);
        forall j | i + 1 < j < |tokens| ensures !Sets(tokens[j], key) {
          assert !Sets(rest[j - 1], key);
        }
        assert LastSetter(tokens, i + 1, key);
      }
    }
  }

  lemma OneToken(params: Params, token: string, key: string)
    ensures var m := AddToken(params, token);
            && (key in m <==> key in params || Sets(token, key))
            && (Sets(token, key) ==> m[key] == ValueIn(token))
            && (!Sets(token, key) && key in params ==> m[key] == params[key])
  {
    if FirstIndex(token, '=') == |token| {
      assert token[..|token|] == token;
    }
  }

  // ---------- the target ----------

  datatype Target = Target(path: string, query: Option<string>)

  /** The fixed pattern of the source: no line break anywhere, and a cut at the first '?'. */
  function SplitTarget(uri: string): Option<Target> {
    if '\r' in uri || '\n' in uri then None
    else
      var q := FirstIndex(uri, '?');
      if q == |uri| then Some(Target(uri, None)) else Some(Target(uri[..q], Some(uri[q + 1..])))
  }

  /** For arbitrary targets: one with a line break is refused; any other is its path, which
      has no '?', and, if there is a '?' at all, that and the query. */
  lemma {:induction false} TargetIsCutAtFirstMark(uri: string)
    ensures SplitTarget(uri).None? <==> exists i :: 0 <= i < |uri| && (uri[i] as int == 13 || uri[i] as int == 10)
    ensures SplitTarget(uri).Some? ==>
              var t := SplitTarget(uri).value;
              && '?' !in t.path
              && uri == match t.query case None => t.path case Some(q) => t.path + "?" + q
  {
    hide FirstIndex;
    var k := FirstIndex(uri, '?');
    if k < |uri| {
      assert uri == uri[..k] + [uri[k]] + uri[k + 1..];
    }
  }

  type Pair = (string, string)

  function PairToken(p: Pair): string {
    p.0 + "=" + p.1
  }

  function PairTokens(ps: seq<Pair>): seq<string> {
    seq(|ps|, i requires 0 <= i < |ps| => PairToken(ps[i]))
  }

  /** `path?key=value&key=value` */
  function PrintTarget(path: string, ps: seq<Pair>): string {
    path + "?" + Join(PairTokens(ps), '&')
  }

  function MapOf(params: Params, ps: seq<Pair>): Params
    decreases |ps|
  {
    if ps == [] then params else MapOf(params[ps[0].0 := ps[0].1], ps[1..])
  }

  predicate CleanPair(p: Pair) {
    '=' !in p.0 && '&' !in p.0 && '&' !in p.1
  }

  lemma {:induction false} PairTokensAdd(params: Params, ps: seq<Pair>)
    requires forall i :: 0 <= i < |ps| ==> '=' !in ps[i].0
    ensures AddTokens(params, PairTokens(ps)) == MapOf(params, ps)
    decreases |ps|
  {
    if ps != [] {
      var p := ps[0];
      var token := PairToken(p);
      FirstIndexAt(p.0, '=', p.1);
      assert token == p.0 + ['='] + p.1;
      assert token[..|p.0|] == p.0 && token[|p.0| + 1..] == p.1;
      assert PairTokens(ps)[0] == token && PairTokens(ps)[1..] == PairTokens(ps[1..]);
      PairTokensAdd(params[p.0 := p.1], ps[1..]);
    }
  }

  /** Query round trip: a printed target splits into its path and, with later pairs
      winning, the map of its pairs. */
  lemma {:induction false} TargetRoundTrip(path: string, ps: seq<Pair>)
    requires '?' !in path
    requires forall i :: 0 <= i < |ps| ==> CleanPair(ps[i])
    requires var uri := PrintTarget(path, ps); '\r' !in uri && '\n' !in uri
    ensures var query := Join(PairTokens(ps), '&');
            && SplitTarget(PrintTarget(path, ps)) == Some(Target(path, Some(query)))
            && AddTokens(map[], SplitBy(query, '&')) == MapOf(map[], ps)
  {
    var tokens := PairTokens(ps);
    var query := Join(tokens, '&');
    var uri := PrintTarget(path, ps);
    FirstIndexAt(path, '?', query);
    assert uri == path + ['?'] + query;
    assert uri[..|path|] == path && uri[|path| + 1..] == query;
    forall i | 0 <= i < |tokens| ensures '&' !in tokens[i] && tokens[i] != [] {
      assert CleanPair(ps[i]);
    }
    SplitJoin(tokens, '&');
    PairTokensAdd(map[], ps);
  }

  lemma {:induction false} MapOfOther(params: Params, ps: seq<Pair>, key: string)
    requires forall i :: 0 <= i < |ps| ==> ps[i].0 != key
    ensures var r := MapOf(params, ps);
            (key in r <==> key in params) && (key in r ==> r[key] == params[key])
    decreases |ps|
  {
    if ps != [] {
      MapOfOther(params[ps[0].0 := ps[0].1], ps[1..], key);
    }
  }

  /** The last pair with a key gives its value. */
  lemma {:induction false} MapOfEntry(params: Params, ps: seq<Pair>, i: nat)
    requires i < |ps| && forall j :: i < j < |ps| ==> ps[j].0 != ps[i].0
    ensures var r := MapOf(params, ps);
            ps[i].0 in r && r[ps[i].0] == ps[i].1
    decreases |ps|
  {
    var next, rest := params[ps[0].0 := ps[0].1], ps[1..];
    if i == 0 {
      MapOfOther(next, rest, ps[0].0);
    } else {
      assert rest[i - 1] == ps[i];
      MapOfEntry(next, rest, i - 1);
    }
  }

  /** Any listing of a map without repeated keys gives back that map. */
  lemma {:induction false} MapRoundTrip(m: Params, ps: seq<Pair>)
    requires Lists(ps, m)
    ensures MapOf(map[], ps) == m
  {
    var r := MapOf(map[], ps);
    forall k | k in m ensures k in r && r[k] == m[k] {
      var i :| 0 <= i < |ps| && ps[i].0 == k;
      MapOfEntry(map[], ps, i);
    }
    forall k | k in r ensures k in m {
      if forall i :: 0 <= i < |ps| ==> ps[i].0 != k {
        MapOfOther(map[], ps, k);
      }
    }
  }

  /** The fields that splitting the target leaves behind. */
  datatype ParsedTarget = ParsedTarget(ok: bool, path: string, query: string, params: Params)

  /** A target with a line break changes nothing; one without '?' sets only the path;
      otherwise the tokens of the query are added to the parameters there were. */
  function TargetAfter(uri: string, path: string, query: string, params: Params): ParsedTarget {
    match SplitTarget(uri)
    case None => ParsedTarget(false, path, query, params)
    case Some(t) =>
      match t.query
      case None => ParsedTarget(true, t.path, query, params)
      case Some(q) => ParsedTarget(true, t.path, q, AddTokens(params, SplitBy(q, '&')))
  }

  /** `ps` lists the entries of `m`, each once. */
  ghost predicate Lists(ps: seq<Pair>, m: Params) {
    && (forall a, b :: 0 <= a < b < |ps| ==> ps[a].0 != ps[b].0)
    && (forall i :: 0 <= i < |ps| ==> ps[i].0 in m && m[ps[i].0] == ps[i].1)
    && (forall k :: k in m ==> exists i :: 0 <= i < |ps| && ps[i].0 == k)
  }

  /** The whole way round: any map, printed after a path in any order, is what a fresh
      request holds after its target has been split. */
  lemma {:induction false} QueryRoundTrip(path: string, m: Params, ps: seq<Pair>)
    requires Lists(ps, m) && '?' !in path
    requires forall i :: 0 <= i < |ps| ==> CleanPair(ps[i])
    requires var uri := PrintTarget(path, ps); '\r' !in uri && '\n' !in uri
    ensures TargetAfter(PrintTarget(path, ps), [], [], map[])
            == ParsedTarget(true, path, Join(PairTokens(ps), '&'), m)
  {
    TargetRoundTrip(path, ps);
    MapRoundTrip(m, ps);
  }

  function Lookup(params: Params, name: string, default: string): string {
    if name in params then params[name] else default
  }

  /** Looking a parameter up after the target of a fresh request has been split, for
      arbitrary targets: the default exactly where no token of the query sets the name,
      and otherwise the value in the last token that does. */
  lemma {:induction false} LookupAfterSplit(uri: string, name: string, default: string)
    ensures var t := TargetAfter(uri, [], [], map[]);
            var tokens := SplitBy(t.query, '&');
            var value := Lookup(t.params, name, default);
            if NeverSet(tokens, name) then value == default && name !in t.params
            else exists i :: LastSetter(tokens, i, name) && value == ValueIn(tokens[i])
  {
    var t := TargetAfter(uri, [], [], map[]);
    LastTokenWins(map[], SplitBy(t.query, '&'), name);
  }

  // ---------- the class ----------

  class HttpRequest {
    var verb: string
    var uri: string
    var major: int
    var minor: int
    var headers: seq<Header>
    var path: string
    var query: string
    var queryParams: Params

    /** A new request; its version numbers are not initialised. */
    constructor (major: int, minor: int)
      ensures View() == Request([], [], major, minor, [])
      ensures path == [] && query == [] && queryParams == map[]
    {
      verb, uri, headers, path, query, queryParams := [], [], [], [], [], map[];
      this.major, this.minor := major, minor;
    }

    ghost function View(): Request
      reads this
    {
      Request(verb, uri, major, minor, headers)
    }

    method GetHeaderValueOrDefault(name: string, default: string) returns (value: string)
      ensures value == ValueOr(headers, name, default)
      ensures (exists i :: FirstOf(headers, name, i) && value == headers[i].value)
              || (value == default && forall i :: 0 <= i < |headers| ==> headers[i].name != name)
    {
      FirstHeaderCounts(headers, name, default);
      var i := 0;
      assert headers[0..] == headers;
      while i < |headers|
        invariant 0 <= i <= |headers|
        invariant ValueOr(headers, name, default) == ValueOr(headers[i..], name, default)
      {
        if headers[i].name == name {
          return headers[i].value;
        }
        assert headers[i..][1..] == headers[i + 1..];
        i := i + 1;
      }
      return default;
    }

    method GetQueryParamValueOrDefault(name: string, default: string) returns (value: string)
      ensures value == Lookup(queryParams, name, default)
    {
      if name in queryParams {
        return queryParams[name];
      } else {
        return default;
      }
    }

    method ParseUri() returns (ok: bool)
      modifies this`path, this`query, this`queryParams
      ensures ParsedTarget(ok, path, query, queryParams)
              == TargetAfter(uri, old(path), old(query), old(queryParams))
    {
      hide FirstIndex;
      if '\r' in uri || '\n' in uri {
        return false;
      }
      var q := FirstIndex(uri, '?');
      path := uri[..q];
      if q < |uri| {
        query := uri[q + 1..];
        var pairStrings := SplitString(query, '&');
        hide SplitBy, AddTokens;
        var i := 0;
        assert pairStrings[0..] == pairStrings;
        while i < |pairStrings|
          invariant 0 <= i <= |pairStrings|
          invariant AddTokens(old(queryParams), pairStrings) == AddTokens(queryParams, pairStrings[i..])
          invariant path == uri[..q] && query == uri[q + 1..]
        {
          var pairString := pairStrings[i];
          AddNextToken(queryParams, pairStrings, i);
          var eqIndex := FirstIndex(pairString, '=');
          if eqIndex == |pairString| {
            if |pairString| > 0 {
              queryParams := queryParams[pairString := []];
            }
          } else {
            queryParams := queryParams[pairString[..eqIndex] := pairString[eqIndex + 1..]];
          }
          i := i + 1;
        }
        assert pairStrings[i..] == [];
        AddNoTokens(queryParams);
      } else {
        assert uri[..q] == uri;
      }
      return true;
    }
  }
}

/**
 * The client's job list request: the optional filters become a query string built with a
 * `URLSearchParams` object, and the request goes to `/jobs?` followed by that query.
 */
module JobsApi {
  import opened Wrappers
  import opened ClientJobs
  import Text
  import UriEncoding

  /** The filters a caller may pass; each one may be absent. */
  datatype Filters = Filters(limit: Option<int>, search: Option<string>, status: Option<string>)

  /** JavaScript truthiness of an optional number: present and not zero. */
  predicate NumberTruthy(n: Option<int>) {
    n.Some? && n.value != 0
  }

  /** One `name=value` pair of a query, both form-encoded. */
  function Pair(p: (string, string)): string {
    UriEncoding.FormEncode(p.0) + "=" + UriEncoding.FormEncode(p.1)
  }

  function Pairs(ps: seq<(string, string)>): (r: seq<string>)
    ensures |r| == |ps|
    ensures forall i :: 0 <= i < |ps| ==> r[i] == Pair(ps[i])
  {
    if ps == [] then [] else [Pair(ps[0])] + Pairs(ps[1..])
  }

  /** `URLSearchParams.prototype.toString`: the pairs joined with `&`; no pairs give "". */
  function Serialize(ps: seq<(string, string)>): string {
    if ps == [] then "" else Text.Join(Pairs(ps), '&')
  }

  /** The `URLSearchParams` object: its list of pairs, appended to in place. */
  class SearchParams {
    var pairs: seq<(string, string)>

    constructor ()
      ensures pairs == []
    {
      pairs := [];
    }

    method Append(name: string, value: string)
      modifies this
      ensures pairs == old(pairs) + [(name, value)]
    {
      pairs := pairs + [(name, value)];
    }

    function ToString(): string
      reads this
    {
      Serialize(pairs)
    }
  }

  /**
   * The pairs the request carries: the limit as a decimal number when it is given and not zero,
   * then the search text and the status when given and not empty, in that order.
   */
  function QueryPairs(params: Option<Filters>): (ps: seq<(string, string)>)
    ensures |ps| <= 3
  {
    if params.None? then []
    else
      var f := params.value;
      (if NumberTruthy(f.limit) then [("limit", Text.Decimal(f.limit.value))] else [])
      + (if Truthy(f.search) then [("search", f.search.value)] else [])
      + (if Truthy(f.status) then [("status", f.status.value)] else [])
  }

  /** `getAllJobs`' request path, built by conditional appends as the client does it. */
  method RequestPath(params: Option<Filters>) returns (path: string)
    ensures path == "/jobs?" + Serialize(QueryPairs(params))
  {
    var query := new SearchParams();
    ghost var limit, search, status := [], [], [];
    if params.Some? && NumberTruthy(params.value.limit) {
      query.Append("limit", Text.Decimal(params.value.limit.value));
      limit := [("limit", Text.Decimal(params.value.limit.value))];
    }
    assert query.pairs == limit;
    if params.Some? && Truthy(params.value.search) {
      query.Append("search", params.value.search.value);
      search := [("search", params.value.search.value)];
    }
    assert query.pairs == limit + search;
    if params.Some? && Truthy(params.value.status) {
      query.Append("status", params.value.status.value);
      status := [("status", params.value.status.value)];
    }
    assert query.pairs == limit + search + status == QueryPairs(params);
    path := "/jobs?" + query.ToString();
  }

  /** The value of the first pair named `name`. */
  function Lookup(ps: seq<(string, string)>, name: string): Option<string> {
    if ps == [] then None else if ps[0].0 == name then Some(ps[0].1) else Lookup(ps[1..], name)
  }

  /** The rank of a parameter name in the order the client appends them. */
  function Rank(name: string): int {
    if name == "limit" then 0 else if name == "search" then 1 else if name == "status" then 2 else 3
  }

  /**
   * Each parameter is present exactly when its filter is truthy, with that filter's value (the
   * limit as its decimal text, so a limit of 0 is left out and a status of `ALL` is kept).
   */
  lemma QueryPairsContents(params: Option<Filters>)
    ensures var ps := QueryPairs(params);
      && Lookup(ps, "limit") ==
           (if params.Some? && NumberTruthy(params.value.limit) then Some(Text.Decimal(params.value.limit.value)) else None)
      && Lookup(ps, "search") ==
           (if params.Some? && Truthy(params.value.search) then Some(params.value.search.value) else None)
      && Lookup(ps, "status") ==
           (if params.Some? && Truthy(params.value.status) then Some(params.value.status.value) else None)
  {
    if params.Some? {
      var f := params.value;
      var a := if NumberTruthy(f.limit) then [("limit", Text.Decimal(f.limit.value))] else [];
      var b := if Truthy(f.search) then [("search", f.search.value)] else [];
      var c := if Truthy(f.status) then [("status", f.status.value)] else [];
      assert "limit" != "search" && "limit" != "status" && "search" != "status" by {
        assert "limit"[0] == 'l' && "search"[1] == 'e' && "status"[1] == 't';
      }
      LookupAppend(a, b + c, "search");
      LookupAppend(b, c, "search");
      LookupAppend(a, b + c, "status");
      LookupAppend(b, c, "status");
      LookupAppend(a, b + c, "limit");
      LookupAppend(b, c, "limit");
      assert QueryPairs(params) == a + (b + c);
    }
  }

  /** The `limit` parameter, read back as a number, is the limit that was asked for. */
  lemma LimitReadsBack(params: Option<Filters>)
    requires params.Some? && NumberTruthy(params.value.limit)
    ensures var v := Lookup(QueryPairs(params), "limit");
      v.Some? && Text.DecimalValue(v.value) == params.value.limit.value
  {
    QueryPairsContents(params);
    Text.DecimalRoundTrip(params.value.limit.value);
  }

  /** The names come in the order limit, search, status, each at most once. */
  lemma QueryPairsOrder(params: Option<Filters>)
    ensures var ps := QueryPairs(params);
      forall i, j :: 0 <= i < j < |ps| ==> Rank(ps[i].0) < Rank(ps[j].0) < 3
  {
    assert "limit" != "search" && "limit" != "status" && "search" != "status" by {
      assert "limit"[0] == 'l' && "search"[1] == 'e' && "status"[1] == 't';
    }
  }

  lemma {:induction false} LookupAppend(a: seq<(string, string)>, b: seq<(string, string)>, name: string)
    ensures Lookup(a + b, name) == if Lookup(a, name).Some? then Lookup(a, name) else Lookup(b, name)
  {
    if a == [] {
      assert a + b == b;
    } else {
      assert (a + b)[0] == a[0] && (a + b)[1..] == a[1..] + b;
      LookupAppend(a[1..], b, name);
    }
  }

  /** Without filters, or with only falsy ones, the request path is exactly `/jobs?`. */
  lemma NoFiltersPath(params: Option<Filters>)
    requires params.Some? ==>
      !NumberTruthy(params.value.limit) && !Truthy(params.value.search) && !Truthy(params.value.status)
    ensures "/jobs?" + Serialize(QueryPairs(params)) == "/jobs?"
  {
    assert QueryPairs(params) == [];
  }

  // ---------------------------------------------------------------- reading a query back

  /** A `name=value` piece read back: the name is what precedes the first `=`. */
  function ParsePair(s: string): Option<(string, string)> {
    var name := Text.BeforeFirst(s, '=');
    var value := if |name| < |s| then s[|name| + 1..] else "";
    var n := UriEncoding.Decode(name, true);
    var v := UriEncoding.Decode(value, true);
    if n.Some? && v.Some? then Some((n.value, v.value)) else None
  }

  function ParsePieces(pieces: seq<string>): Option<seq<(string, string)>> {
    if pieces == [] then Some([])
    else
      var p := ParsePair(pieces[0]);
      var rest := ParsePieces(pieces[1..]);
      if p.Some? && rest.Some? then Some([p.value] + rest.value) else None
  }

  /** Reads a query string back into its pairs. */
  function ParseQuery(q: string): Option<seq<(string, string)>> {
    if q == "" then Some([]) else ParsePieces(Text.Split(q, '&'))
  }

  /** Reading a serialized query gives back the pairs that were appended, in order. */
  lemma SerializeRoundTrip(ps: seq<(string, string)>)
    ensures ParseQuery(Serialize(ps)) == Some(ps)
  {
    if ps != [] {
      var pieces := Pairs(ps);
      forall i | 0 <= i < |pieces| ensures '&' !in pieces[i] {
        PairWithoutAmpersand(ps[i]);
      }
      Text.SplitJoin(pieces, '&');
      JoinNotEmpty(pieces, '&');
      PiecesRoundTrip(ps);
    }
  }

  lemma PairWithoutAmpersand(p: (string, string))
    ensures '&' !in Pair(p)
  {
    UriEncoding.FormEncodeAlphabet(p.0);
    UriEncoding.FormEncodeAlphabet(p.1);
  }

  lemma JoinNotEmpty(parts: seq<string>, sep: char)
    requires |parts| >= 1 && parts[0] != ""
    ensures Text.Join(parts, sep) != ""
  {
    assert Text.Join(parts, sep)[0] == parts[0][0];
  }

  lemma {:induction false} PiecesRoundTrip(ps: seq<(string, string)>)
    ensures ParsePieces(Pairs(ps)) == Some(ps)
    ensures ps != [] ==> Pairs(ps)[0] != ""
  {
    if ps != [] {
      PairRoundTrip(ps[0]);
      PiecesRoundTrip(ps[1..]);
      assert Pairs(ps)[1..] == Pairs(ps[1..]);
      assert [ps[0]] + ps[1..] == ps;
    }
  }

  /** One pair read back is the pair itself. */
  lemma PairRoundTrip(p: (string, string))
    ensures ParsePair(Pair(p)) == Some(p)
    ensures Pair(p) != ""
  {
    var name := UriEncoding.FormEncode(p.0);
    var value := UriEncoding.FormEncode(p.1);
    UriEncoding.FormEncodeAlphabet(p.0);
    assert '=' !in name;
    Text.SplitPrefix(name, value, '=');
    assert Pair(p) == name + ['='] + value;
    assert Text.BeforeFirst(Pair(p), '=') == name;
    assert Pair(p)[|name| + 1..] == value;
    UriEncoding.FormEncodeRoundTrip(p.0);
    UriEncoding.FormEncodeRoundTrip(p.1);
  }

  /** The request path read back: `/jobs?` and then exactly the pairs the filters call for. */
  lemma RequestPathReadsBack(params: Option<Filters>)
    ensures var path := "/jobs?" + Serialize(QueryPairs(params));
      && path[..6] == "/jobs?"
      && ParseQuery(path[6..]) == Some(QueryPairs(params))
  {
    var q := Serialize(QueryPairs(params));
    assert ("/jobs?" + q)[6..] == q;
    SerializeRoundTrip(QueryPairs(params));
  }
}

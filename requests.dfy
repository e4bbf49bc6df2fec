/**
 * The request record: how its headers are normalised into a HeaderMap,
 * the lower-cased method, the parent page of its path, and the split of a
 * `host[:port]` string.
 */
module Requests {
  import opened Wrappers
  import opened Strings
  import opened Headers
  import opened HeaderMaps

  datatype RequestError =
    | BadHeaders(e: HeaderError)   // raised while building the header map
    | BadPort                      // int() of the text after the last ':' raised ValueError

  /** Index of the last c in s, or -1. */
  function LastIndex(s: string, c: char): (r: int)
    ensures -1 <= r < |s|
    ensures r >= 0 ==> s[r] == c && c !in s[r + 1..]
    ensures r < 0 ==> c !in s
  {
    if s == [] then -1
    else if s[|s| - 1] == c then |s| - 1
    else
      var i := LastIndex(s[..|s| - 1], c);
      assert i >= 0 ==> s[i + 1..] == s[..|s| - 1][i + 1..] + [s[|s| - 1]];
      i
  }

  /** str.rsplit(c, 1): the text before and after the last c, or the whole string when there is none. */
  function RSplitOnce(s: string, c: char): (r: seq<string>)
    ensures 1 <= |r| <= 2
    ensures |r| == 1 <==> c !in s
    ensures |r| == 1 ==> r[0] == s
    ensures |r| == 2 ==> r[0] + [c] + r[1] == s && c !in r[1]
  {
    var i := LastIndex(s, c);
    if i < 0 then [s]
    else
      assert s[..i] + [c] + s[i + 1..] == s;
      [s[..i], s[i + 1..]]
  }

  /** The split is the only one with no c after the separator. */
  lemma RSplitOnceOf(p: string, c: char, q: string)
    requires c !in q
    ensures RSplitOnce(p + [c] + q, c) == [p, q]
  {
    var s := p + [c] + q;
    assert s[|p|] == c;
    var i := LastIndex(s, c);
    assert s[..i] == p && s[i + 1..] == q;
  }

  /** parent_page: the path before its last '/', or '/' when that is empty. */
  function ParentPage(path: string): (r: string)
    ensures r != []
  {
    var parent := RSplitOnce(path, '/');
    if |parent| == 0 || parent[0] == "" then "/" else parent[0]
  }

  /** Dropping the last segment: `/a/b` gives `/a`, `/a` gives `/`. */
  lemma ParentPageOf(p: string, name: string)
    requires '/' !in name
    ensures ParentPage(p + "/" + name) == if p == "" then "/" else p
  {
    RSplitOnceOf(p, '/', name);
  }

  /** A path without '/' is its own parent, unless it is empty. */
  lemma ParentPageNoSlash(path: string)
    requires '/' !in path
    ensures ParentPage(path) == if path == "" then "/" else path
  {
  }

  // int() on the port text.

  function DigitValue(c: char): nat
    requires IsDigit(c)
  {
    c as int - '0' as int
  }

  predicate AllDigits(d: string) {
    forall i | 0 <= i < |d| :: IsDigit(d[i])
  }

  /** The number a string of decimal digits denotes. */
  function DigitsValue(d: string): nat
    requires AllDigits(d)
  {
    if d == [] then 0 else DigitsValue(d[..|d| - 1]) * 10 + DigitValue(d[|d| - 1])
  }

  /** int(s) for an optional sign followed by decimal digits; anything else raises ValueError. */
  function ParseInt(s: string): (r: Option<int>)
    ensures r.Some? ==> s != []
  {
    if s != [] && (s[0] == '+' || s[0] == '-') then
      var d := s[1..];
      if d != [] && AllDigits(d) then Some(if s[0] == '-' then -(DigitsValue(d) as int) else DigitsValue(d)) else None
    else if s != [] && AllDigits(s) then Some(DigitsValue(s))
    else None
  }

  /** The decimal digits of n. */
  function Decimal(n: nat): (r: string)
    ensures r != [] && AllDigits(r)
  {
    var d := ['0' + (n % 10) as char];
    if n < 10 then d else Decimal(n / 10) + d
  }

  lemma {:induction false} DecimalValue(n: nat)
    ensures DigitsValue(Decimal(n)) == n
    decreases n
  {
    var r := Decimal(n);
    if n >= 10 {
      DecimalValue(n / 10);
      assert r[..|r| - 1] == Decimal(n / 10);
    }
  }

  /** int() reads back what the decimal form of a number prints. */
  lemma ParseDecimal(n: nat)
    ensures ParseInt(Decimal(n)) == Some(n)
    ensures ParseInt("-" + Decimal(n)) == Some(-(n as int))
  {
    DecimalValue(n);
    assert ("-" + Decimal(n))[1..] == Decimal(n);
  }

  /** The host/port split of from_path_and_post: the port is int() of the text after the last ':', if there is one. */
  function SplitHost(host: string): (r: Result<(string, Option<int>), RequestError>)
    ensures r.Err? ==> r.error == BadPort
  {
    var parts := RSplitOnce(host, ':');
    if |parts| == 2 then
      match ParseInt(parts[1])
      case None => Err(BadPort)
      case Some(p) => Ok((parts[0], Some(p)))
    else Ok((parts[0], None))
  }

  /** `host:port` splits into the host and the number, whatever colons the host holds. */
  lemma SplitHostPort(h: string, p: nat)
    ensures SplitHost(h + ":" + Decimal(p)) == Ok((h, Some(p)))
  {
    assert ':' !in Decimal(p);
    RSplitOnceOf(h, ':', Decimal(p));
    ParseDecimal(p);
  }

  /** Without ':' there is no port and the host is the whole string. */
  lemma SplitHostNoPort(h: string)
    requires ':' !in h
    ensures SplitHost(h) == Ok((h, None))
  {
  }

  /** Text after the last ':' that is not a number makes the split raise. */
  lemma SplitHostBadPort(h: string, q: string)
    requires ':' !in q && ParseInt(q).None?
    ensures SplitHost(h + ":" + q) == Err(BadPort)
  {
    RSplitOnceOf(h, ':', q);
  }

  /**
   * The header map __init__ builds: none gives an empty map, a generator
   * gives the map of its headers (or its exception), and a single header or
   * a pair of headers is added to an empty map.
   */
  function HeadersSpec(raw: Option<Raw>): Result<Table, HeaderError> {
    match raw
    case None => Ok(Empty)
    case Some(x) =>
      match AutoConstruct(x)
      case Err(e) => Err(e)
      case Ok(BGen(items, stop)) => if stop.Some? then Err(stop.value) else Ok(PutAll(Empty, items))
      case Ok(BHeader(h)) => Ok(AddSpec(Empty, RHeader(h)).0)
      // the pair is added as a tuple of headers, which add turns into a generator over both
      case Ok(BPair(a, b)) => Ok(AddSpec(Empty, RHeaders([a, b])).0)
  }

  /** No headers give an empty map. */
  lemma HeadersNone()
    ensures HeadersSpec(None) == Ok(Empty)
  {
  }

  /** A single header gives a map holding exactly that header. */
  lemma HeadersSingle(h: Header)
    ensures HeadersSpec(Some(RHeader(h))) == Ok(Table([h.key], map[h.key := h]))
  {
    assert AddSpec(Empty, RHeader(h)).0 == Put(Empty, h.key, h);
  }

  /** So does a single header line. */
  lemma HeadersSingleLine(h: Header)
    requires Printable(h)
    ensures HeadersSpec(Some(RStr(ToString(h)))) == Ok(Table([h.key], map[h.key := h]))
  {
    AnyFromStrSingle(ToString(h));
    FromStrToString(h);
    HeadersSingle(h);
  }

  /** Headers given as a generator that yields every header give the map of those headers. */
  lemma HeadersFromGenerator(x: Raw, items: seq<Header>)
    requires AutoConstruct(x) == Ok(BGen(items, None))
    ensures HeadersSpec(Some(x)) == Ok(PutAll(Empty, items))
  {
  }

  lemma PutAllTwo(a: Header, b: Header)
    requires a.key != b.key
    ensures PutAll(Empty, [a, b]) == Table([a.key, b.key], map[a.key := a, b.key := b])
  {
    assert [a, b][..1] == [a];
    assert PutAll(Empty, [a]) == Put(Empty, a.key, a);
  }

  /** Two header lines in one string give a map holding both. */
  lemma HeadersTwoLines(a: Header, b: Header)
    requires Printable(a) && Printable(b) && a.key != b.key
    ensures HeadersSpec(Some(RStr(JoinWith("\r\n", Printed([a, b]))))) ==
      Ok(Table([a.key, b.key], map[a.key := a, b.key := b]))
  {
    var s := JoinWith("\r\n", Printed([a, b]));
    ManyFromJoined([a, b]);
    AutoConstructLines(s);
    HeadersFromGenerator(RStr(s), [a, b]);
    PutAllTwo(a, b);
  }

  class Request {
    var host: string
    var port: Option<int>
    var path: string
    var verb: string
    var headers: HeaderMap
    var sslEnabled: bool

    predicate Valid()
      reads this, headers
    {
      headers.Valid()
    }

    constructor Of(host: string, port: Option<int>, path: string, verb: string, headers: HeaderMap, sslEnabled: bool)
      ensures this.host == host && this.port == port && this.path == path && this.verb == verb
      ensures this.headers == headers && this.sslEnabled == sslEnabled
    {
      this.host := host;
      this.port := port;
      this.path := path;
      this.verb := verb;
      this.headers := headers;
      this.sslEnabled := sslEnabled;
    }

    /** parent_page */
    function Parent(): (r: string)
      reads this
      ensures r == ParentPage(path)
    {
      ParentPage(path)
    }
  }

  /** Request.__init__: the headers normalised into a fresh HeaderMap, the method lower-cased. */
  method NewRequest(host: string, port: Option<int>, path: string, verb: string, headers: Option<Raw>, sslEnabled: bool)
    returns (r: Result<Request, RequestError>)
    ensures r.Ok? <==> HeadersSpec(headers).Ok?
    ensures r.Err? ==> r.error == BadHeaders(HeadersSpec(headers).error)
    ensures r.Ok? ==> fresh(r.value) && fresh(r.value.headers) && r.value.Valid()
    ensures r.Ok? ==> r.value.headers.Contents() == HeadersSpec(headers).value
    ensures r.Ok? ==> r.value.verb == Lower(verb) && IsLowerString(r.value.verb)
    ensures r.Ok? ==> r.value.host == host && r.value.port == port && r.value.path == path && r.value.sslEnabled == sslEnabled
  {
    var m: HeaderMap;
    if headers.None? {
      m := new HeaderMap();
    } else {
      var built := AutoConstruct(headers.value);
      if built.Err? {
        return Err(BadHeaders(built.error));
      }
      var b := built.value;
      if b.BGen? {
        if b.stop.Some? {
          return Err(BadHeaders(b.stop.value));
        }
        m := new HeaderMap.FromHeaders(b.items);
      } else if b.BHeader? {
        m := new HeaderMap();
        var _ := m.Add(RHeader(b.h));
      } else {
        m := new HeaderMap();
        var _ := m.Add(RHeaders([b.a, b.b]));
      }
    }
    var req := new Request.Of(host, port, path, Lower(verb), m, sslEnabled);
    r := Ok(req);
  }

  /**
   * from_path_and_post: the host string split into host and port, then the
   * request; the path is taken as already split from its query string.
   */
  method FromPathAndPost(host: string, path: string, verb: string, headers: Option<Raw>, sslEnabled: bool)
    returns (r: Result<Request, RequestError>)
    ensures SplitHost(host).Err? ==> r == Err(BadPort)
    ensures SplitHost(host).Ok? ==> (r.Ok? <==> HeadersSpec(headers).Ok?)
    ensures r.Ok? ==> fresh(r.value) && r.value.Valid() && r.value.headers.Contents() == HeadersSpec(headers).value
    ensures SplitHost(host).Ok? && r.Err? ==> r.error == BadHeaders(HeadersSpec(headers).error)
    ensures r.Ok? ==> fresh(r.value.headers)
    ensures r.Ok? ==> SplitHost(host) == Ok((r.value.host, r.value.port)) && r.value.verb == Lower(verb)
    ensures r.Ok? ==> r.value.path == path && r.value.sslEnabled == sslEnabled
  {
    var hp := SplitHost(host);
    if hp.Err? {
      return Err(hp.error);
    }
    r := NewRequest(hp.value.0, hp.value.1, path, verb, headers, sslEnabled);
  }
}

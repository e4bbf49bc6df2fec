/**
 * HTTP headers as values: the `key: value` string form, its parser,
 * the multi-line parser, construction from tuples and dictionaries, and
 * the type dispatch of `auto_construct` over an explicit input datatype.
 * Generators are modelled eagerly: the headers a generator yields, in
 * order, and the exception that ends it early, if any.
 */
module Headers {
  import opened Wrappers
  import opened Strings

  datatype Header = Header(key: string, value: string)

  /** The exceptions the header code raises. */
  datatype HeaderError = ValueError | TypeError | AttributeError | AssertionError

  /** An element of a tuple or list: a string or a header object. */
  datatype Arg = AStr(s: string) | AHeader(h: Header)

  /** The inputs `auto_construct` dispatches on. */
  datatype Raw =
    | RHeader(h: Header)
    | RDict(entries: seq<(string, Arg)>)   // a dict, as its items in order
    | RStr(s: string)
    | RPair(k: string, v: Arg)             // a two-element tuple or list whose first element is a string
    | RHeaders(hs: seq<Header>)            // a tuple or list of header objects
    | ROther                               // any type the dispatch does not support

  /** What `auto_construct` returns: a header, a generator, or (from a pair of header strings) a tuple of two headers. */
  datatype Built =
    | BHeader(h: Header)
    | BGen(items: seq<Header>, stop: Option<HeaderError>)
    | BPair(a: Header, b: Header)

  /** __str__ */
  function ToString(h: Header): string {
    h.key + ": " + h.value
  }

  /** to_tuple */
  function ToTuple(h: Header): (string, string) {
    (h.key, h.value)
  }

  /** The key ends where the first `": "` starts. */
  lemma FirstSeparator(s: string, i: int)
    requires i == FindFirst(s, ": ") && i >= 0
    ensures s[..i] + ": " + s[i + 2..] == s
    ensures !Contains(s[..i], ": ")
  {
    assert s[i..i + 2] == ": ";
    forall j | 0 <= j <= i && OccursAt(s[..i], ": ", j)
      ensures false
    {
      assert s[j..j + 2] == s[..i][j..j + 2];
      assert OccursAt(s, ": ", j);
    }
  }

  /** from_str: split at the first `": "`; a string without it fails to unpack. */
  function FromStr(s: string): (r: Result<Header, HeaderError>)
    ensures r.Ok? <==> Contains(s, ": ")
    ensures r.Err? ==> r.error == ValueError
    ensures r.Ok? ==> ToString(r.value) == s && !Contains(r.value.key, ": ")
  {
    var i := FindFirst(s, ": ");
    if i < 0 then Err(ValueError)
    else
      FirstSeparator(s, i);
      assert OccursAt(s, ": ", i);
      Ok(Header(s[..i], s[i + 2..]))
  }

  /** Printing then parsing gives the header back exactly when its key holds no `": "`. */
  lemma {:induction false} FromStrToString(h: Header)
    ensures FromStr(ToString(h)) == Ok(h) <==> !Contains(h.key, ": ")
  {
    var s := ToString(h);
    var k := h.key;
    assert s[|k|..|k| + 2] == ": ";
    assert OccursAt(s, ": ", |k|);
    var i := FindFirst(s, ": ");
    assert 0 <= i <= |k|;
    if !Contains(k, ": ") {
      forall j | 0 <= j < |k|
        ensures !OccursAt(s, ": ", j)
      {
        if j + 2 <= |k| {
          assert k[j..j + 2] == s[j..j + 2];
          assert !OccursAt(k, ": ", j);
        } else {
          assert s[j + 1] == ':';
          assert s[j..j + 2][1] != ": "[1];
        }
      }
      assert i == |k|;
      assert s[..i] == k;
      assert s[i + 2..] == h.value;
    } else {
      var j :| 0 <= j <= |k| && OccursAt(k, ": ", j);
      assert s[j..j + 2] == k[j..j + 2];
      assert OccursAt(s, ": ", j);
      assert |FromStr(s).value.key| == i < |k|;
    }
  }

  // str.split with a separator, for the multi-line parser.

  /** str.split(sep): the pieces between the occurrences of sep, left to right. */
  function Split(s: string, sep: string): (r: seq<string>)
    requires |sep| > 0
    ensures |r| >= 1
    decreases |s|
  {
    var i := FindFirst(s, sep);
    if i < 0 then [s] else [s[..i]] + Split(s[i + |sep|..], sep)
  }

  lemma {:induction false} JoinCons(sep: string, a: string, rest: seq<string>)
    requires rest != []
    ensures JoinWith(sep, [a] + rest) == a + sep + JoinWith(sep, rest)
    decreases |rest|
  {
    var parts := [a] + rest;
    if |rest| == 1 {
      assert parts[..1] == [a];
    } else {
      assert parts[..|parts| - 1] == [a] + rest[..|rest| - 1];
      JoinCons(sep, a, rest[..|rest| - 1]);
    }
  }

  /** One step of the split: the text before the first separator, then the split of the rest. */
  lemma SplitStep(s: string, sep: string) returns (head: string, tail: string)
    requires |sep| > 0
    ensures FindFirst(s, sep) >= 0 ==> Split(s, sep) == [head] + Split(tail, sep) && s == head + sep + tail
    ensures FindFirst(s, sep) < 0 ==> Split(s, sep) == [s]
  {
    var i := FindFirst(s, sep);
    if i >= 0 {
      head, tail := s[..i], s[i + |sep|..];
      assert s[..i] + sep == s[..i + |sep|];
      assert s[..i + |sep|] + tail == s;
    } else {
      head, tail := s, [];
    }
  }

  /** Joining the pieces with the separator gives the string back. */
  lemma {:induction false} SplitJoin(s: string, sep: string)
    requires |sep| > 0
    ensures JoinWith(sep, Split(s, sep)) == s
    decreases |s|
  {
    var head, tail := SplitStep(s, sep);
    if FindFirst(s, sep) >= 0 {
      SplitJoin(tail, sep);
      JoinCons(sep, head, Split(tail, sep));
    }
  }

  /** No piece holds the separator. */
  lemma {:induction false} SplitPieces(s: string, sep: string)
    requires |sep| > 0
    ensures forall p | p in Split(s, sep) :: !Contains(p, sep)
    decreases |s|
  {
    var i := FindFirst(s, sep);
    if i >= 0 {
      SplitPieces(s[i + |sep|..], sep);
      forall j | 0 <= j <= i && OccursAt(s[..i], sep, j)
        ensures false
      {
        assert s[j..j + |sep|] == s[..i][j..j + |sep|];
        assert OccursAt(s, sep, j);
      }
    }
  }

  /** There is one piece exactly when the separator does not occur, and it is the whole string. */
  lemma SplitSingle(s: string, sep: string)
    requires |sep| > 0
    ensures |Split(s, sep)| == 1 <==> !Contains(s, sep)
    ensures !Contains(s, sep) ==> Split(s, sep) == [s]
  {
    var i := FindFirst(s, sep);
    if i >= 0 {
      assert OccursAt(s, sep, i);
    }
  }

  lemma ContainsChar(s: string, c: char)
    ensures Contains(s, [c]) <==> c in s
  {
    if c in s {
      var i :| 0 <= i < |s| && s[i] == c;
      assert s[i..i + 1] == [c];
      assert OccursAt(s, [c], i);
    }
    if Contains(s, [c]) {
      var i :| 0 <= i <= |s| && OccursAt(s, [c], i);
      assert s[i..i + 1][0] == s[i];
    }
  }

  /**
   * With a separator whose last character occurs neither in x nor earlier
   * in the separator, the first occurrence in `x + sep + rest` is right
   * after x.
   */
  lemma FirstAfter(x: string, sep: string, rest: string)
    requires |sep| > 0 && sep[|sep| - 1] !in x && sep[|sep| - 1] !in sep[..|sep| - 1]
    ensures FindFirst(x + sep + rest, sep) == |x|
  {
    var s := x + sep + rest;
    var n := |sep|;
    assert s[|x|..|x| + n] == sep;
    assert OccursAt(s, sep, |x|);
    forall j | 0 <= j < |x|
      ensures !OccursAt(s, sep, j)
    {
      var p := j + n - 1;
      assert s[j..j + n][n - 1] == s[p];
      if p < |x| {
        assert s[p] == x[p];
      } else {
        assert s[p] == sep[p - |x|] == sep[..n - 1][p - |x|];
      }
    }
  }

  lemma NoLastChar(x: string, sep: string)
    requires |sep| > 0 && sep[|sep| - 1] !in x
    ensures !Contains(x, sep)
  {
    forall j | 0 <= j <= |x|
      ensures !OccursAt(x, sep, j)
    {
      if j + |sep| <= |x| {
        assert x[j..j + |sep|][|sep| - 1] == x[j + |sep| - 1];
      }
    }
  }

  /** Such a separator splits its own join back into the parts. */
  lemma {:induction false} SplitOfJoin(sep: string, parts: seq<string>)
    requires |sep| > 0 && sep[|sep| - 1] !in sep[..|sep| - 1]
    requires parts != [] && forall p | p in parts :: sep[|sep| - 1] !in p
    ensures Split(JoinWith(sep, parts), sep) == parts
    decreases |parts|
  {
    assert parts[0] in parts;
    if |parts| == 1 {
      NoLastChar(parts[0], sep);
      SplitSingle(parts[0], sep);
    } else {
      var rest := parts[1..];
      assert parts == [parts[0]] + rest;
      assert forall p | p in rest :: p in parts;
      JoinCons(sep, parts[0], rest);
      var s := JoinWith(sep, parts);
      FirstAfter(parts[0], sep, JoinWith(sep, rest));
      assert s[..|parts[0]|] == parts[0];
      assert s[|parts[0]| + |sep|..] == JoinWith(sep, rest);
      SplitOfJoin(sep, rest);
    }
  }

  // Many headers from one string.

  /** The pieces of each piece after splitting on `"\n"`, in order. */
  function SplitEach(pieces: seq<string>): seq<string> {
    if pieces == [] then [] else Split(pieces[0], "\n") + SplitEach(pieces[1..])
  }

  /** The lines many_from_str reads: split on `"\r\n"`, then each piece on `"\n"`. */
  function Lines(s: string): seq<string> {
    SplitEach(Split(s, "\r\n"))
  }

  lemma {:induction false} SplitEachLines(pieces: seq<string>)
    ensures forall l | l in SplitEach(pieces) :: '\n' !in l
    decreases |pieces|
  {
    if pieces != [] {
      SplitPieces(pieces[0], "\n");
      forall l | l in Split(pieces[0], "\n") ensures '\n' !in l {
        ContainsChar(l, '\n');
      }
      SplitEachLines(pieces[1..]);
    }
  }

  /** No line holds a line break. */
  lemma LinesHaveNoBreak(s: string)
    ensures forall l | l in Lines(s) :: '\n' !in l
  {
    SplitEachLines(Split(s, "\r\n"));
  }

  lemma {:induction false} SplitEachSingle(pieces: seq<string>)
    requires forall p | p in pieces :: '\n' !in p
    ensures SplitEach(pieces) == pieces
    decreases |pieces|
  {
    if pieces != [] {
      ContainsChar(pieces[0], '\n');
      SplitSingle(pieces[0], "\n");
      SplitEachSingle(pieces[1..]);
      assert pieces == [pieces[0]] + pieces[1..];
    }
  }

  /** Lines joined with `"\r\n"` are read back as those lines. */
  lemma LinesOfJoin(parts: seq<string>)
    requires parts != [] && forall p | p in parts :: '\n' !in p
    ensures Lines(JoinWith("\r\n", parts)) == parts
  {
    assert "\r\n"[..1] == "\r";
    SplitOfJoin("\r\n", parts);
    SplitEachSingle(parts);
  }

  /**
   * A generator that parses each line with from_str: it yields the header
   * of each line in turn and stops with the exception of the first line
   * that does not parse.
   */
  function Collect(lines: seq<string>): (g: Built)
    ensures g.BGen? && |g.items| <= |lines|
    ensures g.stop.None? <==> |g.items| == |lines|
    ensures g.stop.Some? ==> g.stop.value == ValueError
  {
    if lines == [] then BGen([], None)
    else
      match FromStr(lines[0])
      case Err(e) => BGen([], Some(e))
      case Ok(h) =>
        var g := Collect(lines[1..]);
        BGen([h] + g.items, g.stop)
  }

  /** The headers yielded are from_str of the lines, in order, and the line it stops at does not parse. */
  lemma {:induction false} CollectParses(lines: seq<string>)
    ensures var g := Collect(lines);
      (forall i | 0 <= i < |g.items| :: FromStr(lines[i]) == Ok(g.items[i])) &&
      (g.stop.Some? ==> FromStr(lines[|g.items|]).Err?)
    decreases |lines|
  {
    if lines != [] && FromStr(lines[0]).Ok? {
      var rest := lines[1..];
      CollectParses(rest);
      CollectCons(lines, FromStr(lines[0]).value);
      var g, t := Collect(lines), Collect(rest);
      forall i | 1 <= i < |g.items|
        ensures FromStr(lines[i]) == Ok(g.items[i])
      {
        assert lines[i] == rest[i - 1] && g.items[i] == t.items[i - 1];
      }
      if g.stop.Some? {
        assert lines[|g.items|] == rest[|t.items|];
      }
    }
  }

  /** many_from_str */
  function ManyFromStr(s: string): Built {
    Collect(Lines(s))
  }

  function Printed(hs: seq<Header>): (r: seq<string>)
    ensures |r| == |hs| && forall i | 0 <= i < |hs| :: r[i] == ToString(hs[i])
  {
    if hs == [] then [] else [ToString(hs[0])] + Printed(hs[1..])
  }

  /** A header that prints on one line and parses back. */
  predicate Printable(h: Header) {
    '\n' !in h.key && '\n' !in h.value && !Contains(h.key, ": ")
  }

  /** A line that parses puts its header in front of what the rest of the lines yield. */
  lemma CollectCons(lines: seq<string>, h: Header)
    requires lines != [] && FromStr(lines[0]) == Ok(h)
    ensures Collect(lines) == BGen([h] + Collect(lines[1..]).items, Collect(lines[1..]).stop)
  {
  }

  lemma {:induction false} CollectStrings(hs: seq<Header>)
    requires forall h | h in hs :: Printable(h)
    ensures Collect(Printed(hs)) == BGen(hs, None)
    decreases |hs|
  {
    if hs != [] {
      var h, rest := hs[0], hs[1..];
      assert h in hs;
      FromStrToString(h);
      var lines := Printed(hs);
      assert lines == [ToString(h)] + Printed(rest);
      assert forall x | x in rest :: x in hs;
      CollectStrings(rest);
      CollectCons(lines, h);
      assert lines[1..] == Printed(rest);
      assert hs == [h] + rest;
    }
  }

  /** Headers printed one per line and joined with `"\r\n"` are read back as those headers, in order. */
  lemma ManyFromStrRoundTrip(hs: seq<Header>)
    requires hs != [] && forall h | h in hs :: Printable(h)
    ensures ManyFromStr(JoinWith("\r\n", Printed(hs))) == BGen(hs, None)
  {
    var parts := Printed(hs);
    forall p | p in parts ensures '\n' !in p {
      var i :| 0 <= i < |parts| && parts[i] == p;
      assert hs[i] in hs;
    }
    LinesOfJoin(parts);
    CollectStrings(hs);
  }

  /** Two or more such headers joined with `"\r\n"` make a multi-line string. */
  lemma ManyFromJoined(hs: seq<Header>)
    requires |hs| >= 2 && forall h | h in hs :: Printable(h)
    ensures var s := JoinWith("\r\n", Printed(hs)); '\n' in s && ManyFromStr(s) == BGen(hs, None)
  {
    ManyFromStrRoundTrip(hs);
    JoinHasBreak(Printed(hs));
  }

  lemma JoinHasBreak(parts: seq<string>)
    requires |parts| >= 2
    ensures '\n' in JoinWith("\r\n", parts)
  {
    var front := JoinWith("\r\n", parts[..|parts| - 1]);
    var s := JoinWith("\r\n", parts);
    assert s == front + "\r\n" + parts[|parts| - 1];
    assert s[|front| + 1] == '\n';
  }

  /** The empty string is one empty line, which does not parse. */
  lemma ManyFromEmpty()
    ensures ManyFromStr("") == BGen([], Some(ValueError))
  {
    SplitSingle("", "\r\n");
    SplitSingle("", "\n");
    assert Lines("") == [""];
  }

  /** any_from_str: one header for a single line, otherwise the generator over all lines. */
  function AnyFromStr(s: string): Result<Built, HeaderError> {
    var l := Split(s, "\n");
    if |l| == 1 then
      var h :- FromStr(l[0]);
      Ok(BHeader(h))
    else Ok(ManyFromStr(s))
  }

  /** any_from_str gives a single header (or the error parsing it) iff the string holds no line break. */
  lemma AnyFromStrSingle(s: string)
    ensures '\n' !in s ==> AnyFromStr(s) == (match FromStr(s) case Ok(h) => Ok(BHeader(h)) case Err(e) => Err(e))
    ensures '\n' in s ==> AnyFromStr(s) == Ok(ManyFromStr(s))
  {
    ContainsChar(s, '\n');
    SplitSingle(s, "\n");
  }

  /** auto_construct of a multi-line string is the generator over its lines. */
  lemma AutoConstructLines(s: string)
    requires '\n' in s
    ensures AutoConstruct(RStr(s)) == Ok(ManyFromStr(s))
  {
    AnyFromStrSingle(s);
  }

  /** from_tuple; a two-element tuple whose value is a string must have a string key here. */
  function FromTuple(t: seq<Arg>): (r: Result<Header, HeaderError>)
    requires |t| == 2 && t[1].AStr? ==> t[0].AStr?
    ensures r.Err? <==> |t| != 2
    ensures r.Err? ==> r.error == TypeError
    ensures r.Ok? && t[1].AHeader? ==> r.value == t[1].h
    ensures r.Ok? && t[1].AStr? ==> r.value == Header(t[0].s, t[1].s)
  {
    if |t| == 2 then
      if t[1].AHeader? then Ok(t[1].h) else Ok(Header(t[0].s, t[1].s))
    else Err(TypeError)
  }

  /** to_tuple, then from_tuple, gives the header back. */
  lemma FromTupleToTuple(h: Header)
    ensures FromTuple([AStr(ToTuple(h).0), AStr(ToTuple(h).1)]) == Ok(h)
  {
  }

  /**
   * any_from_tuple on a two-element tuple with a string key: both elements
   * parsed as header strings when they can be, else from_tuple.  A value
   * that is already a header fails the string assertion once the key
   * parses.
   */
  function AnyFromPair(k: string, v: Arg): (r: Result<Built, HeaderError>)
    ensures !Contains(k, ": ") ==> r == Ok(BHeader(FromTuple([AStr(k), v]).value))
    ensures Contains(k, ": ") && v.AHeader? ==> r == Err(AssertionError)
    ensures Contains(k, ": ") && v.AStr? && Contains(v.s, ": ") ==>
      r.Ok? && r.value.BPair? && ToString(r.value.a) == k && ToString(r.value.b) == v.s
    ensures Contains(k, ": ") && v.AStr? && !Contains(v.s, ": ") ==> r == Ok(BHeader(Header(k, v.s)))
  {
    match FromStr(k)
    case Err(_) => Ok(BHeader(FromTuple([AStr(k), v]).value))
    case Ok(a) =>
      match v
      case AHeader(_) => Err(AssertionError)
      case AStr(s) =>
        match FromStr(s)
        case Err(_) => Ok(BHeader(FromTuple([AStr(k), v]).value))
        case Ok(b) => Ok(BPair(a, b))
  }

  /** many_from_dict: the value itself when it is a header, else a header of key and value. */
  function ManyFromDict(entries: seq<(string, Arg)>): (r: seq<Header>)
    ensures |r| == |entries|
    ensures forall i | 0 <= i < |entries| ::
      r[i] == (if entries[i].1.AHeader? then entries[i].1.h else Header(entries[i].0, entries[i].1.s))
  {
    if entries == [] then []
    else
      var (k, v) := entries[0];
      [if v.AHeader? then v.h else Header(k, v.s)] + ManyFromDict(entries[1..])
  }

  /** auto_construct */
  function AutoConstruct(raw: Raw): (r: Result<Built, HeaderError>)
    ensures raw.RHeader? ==> r == Ok(BHeader(raw.h))
    ensures raw.RHeaders? ==> r == Ok(BGen(raw.hs, None))
    ensures raw.ROther? ==> r == Err(TypeError)
    ensures r.Ok? && r.value.BPair? ==> raw.RPair?
  {
    match raw
    case RHeader(h) => Ok(BHeader(h))
    case RDict(entries) => Ok(BGen(ManyFromDict(entries), None))
    case RStr(s) => AnyFromStr(s)
    case RPair(k, v) => AnyFromPair(k, v)
    // any_from_tuple: the first element is not a string, so many_from_tuple over the headers
    case RHeaders(hs) => Ok(BGen(hs, None))
    case ROther => Err(TypeError)
  }

  /**
   * __eq__: a header equals a header with the same key and value; anything
   * else is auto-constructed first, and comparing with a generator or a
   * tuple auto-constructs that in turn, which raises TypeError.
   */
  function Equals(h: Header, other: Raw): Result<bool, HeaderError> {
    match other
    case RHeader(o) => Ok(h.key == o.key && h.value == o.value)
    case _ =>
      var b :- AutoConstruct(other);
      match b
      case BHeader(o) => Ok(h.key == o.key && h.value == o.value)
      case _ => Err(TypeError)
  }

  /** Two headers are equal iff their keys and values are. */
  lemma EqualsHeaders(h: Header, o: Header)
    ensures Equals(h, RHeader(o)) == Ok(true) <==> h == o
  {
  }

  /** A header equals its own one-line string form. */
  lemma EqualsStringForm(h: Header)
    requires Printable(h)
    ensures Equals(h, RStr(ToString(h))) == Ok(true)
  {
    var s := ToString(h);
    assert '\n' !in s by {
      assert forall i | 0 <= i < |s| :: s[i] in h.key || s[i] in ": " || s[i] in h.value by {
        forall i | 0 <= i < |s| ensures s[i] in h.key || s[i] in ": " || s[i] in h.value {
          if i < |h.key| { assert s[i] == h.key[i]; }
          else if i < |h.key| + 2 { assert s[i] == ": "[i - |h.key|]; }
          else { assert s[i] == h.value[i - |h.key| - 2]; }
        }
      }
    }
    AnyFromStrSingle(s);
    FromStrToString(h);
  }
}

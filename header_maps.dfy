/**
 * HeaderMap, a dict from key to header.  Its contents are a Table: the
 * keys in insertion order (a dict keeps the position of a key that is
 * assigned again) and the header stored under each.
 */
module HeaderMaps {
  import opened Wrappers
  import opened Strings
  import opened Headers

  datatype Table = Table(keys: seq<string>, entries: map<string, Header>)

  /** The keys are distinct and are exactly the keys that hold a header. */
  predicate WellFormed(t: Table) {
    (forall i, j | 0 <= i < j < |t.keys| :: t.keys[i] != t.keys[j]) &&
    (forall k | k in t.entries :: k in t.keys) &&
    (forall i | 0 <= i < |t.keys| :: t.keys[i] in t.entries)
  }

  const Empty := Table([], map[])

  /** dict.__setitem__: a new key goes last, an existing key keeps its place. */
  function Put(t: Table, k: string, h: Header): (r: Table)
    ensures WellFormed(t) ==> WellFormed(r)
    ensures k in r.entries && r.entries[k] == h
    ensures forall k' | k' != k :: k' in r.entries <==> k' in t.entries
    ensures forall k' | k' != k && k' in t.entries :: r.entries[k'] == t.entries[k']
    ensures |t.keys| <= |r.keys| && r.keys[..|t.keys|] == t.keys
  {
    if k in t.entries then Table(t.keys, t.entries[k := h])
    else Table(t.keys + [k], t.entries[k := h])
  }

  /** Each header stored under its own key, in order. */
  function PutAll(t: Table, items: seq<Header>): Table {
    if items == [] then t
    else
      var last := items[|items| - 1];
      Put(PutAll(t, items[..|items| - 1]), last.key, last)
  }

  lemma {:induction false} PutAllWellFormed(t: Table, items: seq<Header>)
    requires WellFormed(t)
    ensures WellFormed(PutAll(t, items))
    decreases |items|
  {
    if items != [] {
      PutAllWellFormed(t, items[..|items| - 1]);
    }
  }

  /** After storing a sequence of headers, every key in it is present. */
  lemma {:induction false} PutAllHas(t: Table, items: seq<Header>, i: int)
    requires 0 <= i < |items|
    ensures items[i].key in PutAll(t, items).entries
    decreases |items|
  {
    var n := |items| - 1;
    if i < n {
      assert items[..n][i] == items[i];
      PutAllHas(t, items[..n], i);
    }
  }

  /** A header that no later header with the same key overrides is what its key holds. */
  lemma {:induction false} PutAllLast(t: Table, items: seq<Header>, i: int)
    requires 0 <= i < |items|
    requires forall j | i < j < |items| :: items[j].key != items[i].key
    ensures items[i].key in PutAll(t, items).entries && PutAll(t, items).entries[items[i].key] == items[i]
    decreases |items|
  {
    var n := |items| - 1;
    if i < n {
      var front, last := items[..n], items[n];
      assert front[i] == items[i];
      assert forall j | i < j < n :: front[j] == items[j];
      PutAllLast(t, front, i);
      var before := PutAll(t, front);
      assert last.key != items[i].key;
      assert PutAll(t, items) == Put(before, last.key, last);
    }
  }

  /** A key no header in the sequence has keeps what it held, or stays absent. */
  lemma {:induction false} PutAllOthers(t: Table, items: seq<Header>, k: string)
    requires forall i | 0 <= i < |items| :: items[i].key != k
    ensures k in PutAll(t, items).entries <==> k in t.entries
    ensures k in t.entries ==> PutAll(t, items).entries[k] == t.entries[k]
    decreases |items|
  {
    if items != [] {
      var n := |items| - 1;
      assert forall i | 0 <= i < n :: items[..n][i] == items[i];
      PutAllOthers(t, items[..n], k);
      assert items[n].key != k;
    }
  }

  /** to_iter in order: the (key, value) pair of each stored header, in key order. */
  function Pairs(t: Table): (r: seq<(string, string)>)
    requires WellFormed(t)
  {
    seq(|t.keys|, i requires 0 <= i < |t.keys| => ToTuple(t.entries[t.keys[i]]))
  }

  /** The tuple holds exactly the pairs of the stored headers, one per key. */
  lemma PairsStored(t: Table)
    requires WellFormed(t)
    ensures |Pairs(t)| == |t.entries|
    ensures forall p :: p in Pairs(t) <==> exists k | k in t.entries :: ToTuple(t.entries[k]) == p
  {
    var ks := set k | k in t.keys;
    assert ks == t.entries.Keys;
    DistinctCard(t.keys);
    forall p | p in Pairs(t) ensures exists k | k in t.entries :: ToTuple(t.entries[k]) == p {
      var i :| 0 <= i < |t.keys| && Pairs(t)[i] == p;
      assert t.keys[i] in t.entries;
    }
    forall k | k in t.entries ensures ToTuple(t.entries[k]) in Pairs(t) {
      var i :| 0 <= i < |t.keys| && t.keys[i] == k;
      assert Pairs(t)[i] == ToTuple(t.entries[k]);
    }
  }

  lemma {:induction false} DistinctCard(ks: seq<string>)
    requires forall i, j | 0 <= i < j < |ks| :: ks[i] != ks[j]
    ensures |set k | k in ks| == |ks|
    decreases |ks|
  {
    if ks != [] {
      var front := ks[..|ks| - 1];
      DistinctCard(front);
      var last := ks[|ks| - 1];
      assert (set k | k in ks) == (set k | k in front) + {last};
      assert last !in front;
    }
  }

  /** to_set: the pairs of to_iter as a set. */
  function PairSet(t: Table): set<(string, string)>
    requires WellFormed(t)
  {
    set p | p in Pairs(t)
  }

  /** The set holds exactly the pairs of the stored headers. */
  lemma PairSetStored(t: Table)
    requires WellFormed(t)
    ensures forall p :: p in PairSet(t) <==> exists k | k in t.entries :: ToTuple(t.entries[k]) == p
  {
    PairsStored(t);
  }

  /** What HeaderMap.add does to the table, and whether it raises. */
  function AddSpec(t: Table, raw: Raw): (Table, Result<(), HeaderError>) {
    match AutoConstruct(raw)
    case Err(e) => (t, Err(e))
    case Ok(BHeader(h)) => (Put(t, h.key, h), Ok(()))
    // each header the generator yields is added before the exception that ends it
    case Ok(BGen(items, stop)) => (PutAll(t, items), if stop.None? then Ok(()) else Err(stop.value))
    // a tuple of two headers is not a generator and has no key
    case Ok(BPair(_, _)) => (t, Err(AttributeError))
  }

  /** Adding a header line stores the header it parses to under its own key. */
  lemma AddHeaderLine(t: Table, h: Header)
    requires Printable(h)
    ensures AddSpec(t, RStr(ToString(h))) == (Put(t, h.key, h), Ok(()))
  {
    EqualsStringForm(h);
    AnyFromStrSingle(ToString(h));
    FromStrToString(h);
  }

  /** Adding headers joined by line breaks stores them in order, as PutAll does (see PutAllLast and PutAllOthers). */
  lemma AddHeaderLinesSpec(t: Table, hs: seq<Header>)
    requires hs != [] && forall h | h in hs :: Printable(h)
    ensures AddSpec(t, RStr(JoinWith("\r\n", Printed(hs)))) == (PutAll(t, hs), Ok(()))
  {
    var s := JoinWith("\r\n", Printed(hs));
    if |hs| == 1 {
      assert s == ToString(hs[0]);
      assert hs[0] in hs;
      AddHeaderLine(t, hs[0]);
      assert PutAll(t, hs) == Put(PutAll(t, []), hs[0].key, hs[0]);
    } else {
      ManyFromJoined(hs);
      AutoConstructLines(s);
    }
  }

  /** The header __setitem__ stores for a value: the value if it is a header, else from_tuple of key and value. */
  function Coerce(key: string, v: Arg): (r: Header)
    ensures FromTuple([AStr(key), v]) == Ok(r)
  {
    if v.AHeader? then v.h else FromTuple([AStr(key), v]).value
  }

  class HeaderMap {
    var keys: seq<string>
    var entries: map<string, Header>

    function Contents(): Table
      reads this
    {
      Table(keys, entries)
    }

    predicate Valid()
      reads this
    {
      WellFormed(Contents())
    }

    /** HeaderMap() */
    constructor ()
      ensures Valid() && Contents() == Empty
    {
      keys := [];
      entries := map[];
    }

    /** HeaderMap(headers): the dict built from (key, header) pairs, later keys overwriting earlier ones. */
    constructor FromHeaders(items: seq<Header>)
      ensures Valid() && Contents() == PutAll(Empty, items)
    {
      keys := [];
      entries := map[];
      new;
      var i := 0;
      while i < |items|
        invariant 0 <= i <= |items|
        invariant Valid() && Contents() == PutAll(Empty, items[..i])
      {
        Store(items[i].key, items[i]);
        assert items[..i + 1][..i] == items[..i];
        i := i + 1;
      }
      assert items[..i] == items;
    }

    /** The dict's own item assignment, which the subclass's __setitem__ ends in. */
    method Store(key: string, h: Header)
      requires Valid()
      modifies this
      ensures Valid() && Contents() == Put(old(Contents()), key, h)
    {
      if key !in entries {
        keys := keys + [key];
      }
      entries := entries[key := h];
    }

    /** __setitem__: a value that is not a header is stored as Header(key, value). */
    method SetItem(key: string, value: Arg)
      requires Valid()
      modifies this
      ensures Valid() && Contents() == Put(old(Contents()), key, Coerce(key, value))
    {
      var h: Header;
      if value.AHeader? {
        h := value.h;
      } else {
        var t := FromTuple([AStr(key), value]);
        h := t.value;
      }
      Store(key, h);
    }

    /** add: auto-construct, then add each header a generator yields, or store the one header under its key. */
    method Add(header: Raw) returns (r: Result<(), HeaderError>)
      requires Valid()
      modifies this
      ensures Valid() && (Contents(), r) == AddSpec(old(Contents()), header)
      decreases if header.RHeader? then 0 else 2
    {
      var h := AutoConstruct(header);
      if h.Err? {
        return Err(h.error);
      }
      match h.value
      case BGen(items, stop) =>
        AddEach(items);
        r := if stop.None? then Ok(()) else Err(stop.value);
      case BHeader(one) =>
        SetItem(one.key, AHeader(one));
        r := Ok(());
      case BPair(_, _) =>
        r := Err(AttributeError);
    }

    /** The loop of add over what a generator yields: each header is added in turn. */
    method AddEach(items: seq<Header>)
      requires Valid()
      modifies this
      ensures Valid() && Contents() == PutAll(old(Contents()), items)
      decreases 1
    {
      var i := 0;
      while i < |items|
        invariant 0 <= i <= |items|
        invariant Valid() && Contents() == PutAll(old(Contents()), items[..i])
      {
        var _ := Add(RHeader(items[i]));
        assert items[..i + 1][..i] == items[..i];
        i := i + 1;
      }
      assert items[..i] == items;
    }

    /** to_tuple */
    method ToTupleAll() returns (r: seq<(string, string)>)
      requires Valid()
      ensures r == Pairs(Contents())
    {
      r := [];
      var i := 0;
      while i < |keys|
        invariant 0 <= i <= |keys|
        invariant r == Pairs(Contents())[..i]
      {
        r := r + [ToTuple(entries[keys[i]])];
        i := i + 1;
      }
    }

    /** to_set */
    method ToSet() returns (r: set<(string, string)>)
      requires Valid()
      ensures r == PairSet(Contents())
    {
      r := {};
      var i := 0;
      while i < |keys|
        invariant 0 <= i <= |keys|
        invariant r == set p | p in Pairs(Contents())[..i]
      {
        assert Pairs(Contents())[..i + 1] == Pairs(Contents())[..i] + [ToTuple(entries[keys[i]])];
        r := r + {ToTuple(entries[keys[i]])};
        i := i + 1;
      }
      assert Pairs(Contents())[..i] == Pairs(Contents());
    }
  }
}

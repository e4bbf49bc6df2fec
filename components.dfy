/**
 * The component registry: a dictionary from a normalised name or a type
 * to a wrapper that holds a component once, and only once unless its
 * wrapper allows reloading.  Wrappers are handed out before their
 * component is registered, so the container holds objects whose content
 * is later filled in place.
 */
module Components {
  import opened Wrappers
  import opened Strings

  /** A component object, by identity. */
  datatype Obj = Obj(id: nat)

  /** A container key: a normalised name, or a type (named by its qualified name). */
  datatype Key = Named(s: string) | TypeOf(t: string)

  /** What a caller passes as a key. */
  datatype KeyArg = StrArg(s: string) | TypeArg(t: string) | OtherArg

  datatype ComponentError =
    | ValueError
    | TypeError
    | AttributeError
    | ComponentLoaded(name: Key)
    | ComponentNotLoaded(name: Key)

  /** str.replace(c, '') */
  function Remove(s: string, c: char): (r: string)
    ensures c !in r
    ensures forall x | x in r :: x in s
    ensures forall x | x in s && x != c :: x in r
  {
    if s == [] then []
    else if s[0] == c then Remove(s[1..], c)
    else [s[0]] + Remove(s[1..], c)
  }

  lemma {:induction false} RemoveAppend(a: string, b: string, c: char)
    ensures Remove(a + b, c) == Remove(a, c) + Remove(b, c)
    decreases |a|
  {
    if a != [] {
      assert (a + b)[1..] == a[1..] + b;
      RemoveAppend(a[1..], b, c);
    } else {
      assert a + b == b;
    }
  }

  lemma {:induction false} RemoveAbsent(s: string, c: char)
    requires c !in s
    ensures Remove(s, c) == s
    decreases |s|
  {
    if s != [] {
      RemoveAbsent(s[1..], c);
    }
  }

  lemma LowerAppend(a: string, b: string)
    ensures Lower(a + b) == Lower(a) + Lower(b)
  {
  }

  /** Lower-case, then drop underscores and spaces. */
  function Normalise(name: string): string {
    Remove(Remove(Lower(name), '_'), ' ')
  }

  /** A name a caller may use: some letter, and nothing but letters, underscores and spaces. */
  predicate Acceptable(name: string) {
    (exists i | 0 <= i < |name| :: IsAlpha(name[i])) &&
    (forall i | 0 <= i < |name| :: IsAlpha(name[i]) || name[i] == '_' || name[i] == ' ')
  }

  /**
   * _name_transform: the normalised name if it is alphabetic (and so not
   * empty), ValueError otherwise.
   */
  function NameTransform(name: string): (r: Result<string, ComponentError>)
    ensures r.Ok? ==> IsAlphaString(r.value) && IsLowerString(r.value)
    ensures r.Err? ==> r.error == ValueError
  {
    var newName := Normalise(name);
    if IsAlphaString(newName) then
      assert forall i | 0 <= i < |newName| :: newName[i] in Lower(name);
      Ok(newName)
    else Err(ValueError)
  }

  /** The name is accepted exactly when it has a letter and nothing but letters, underscores and spaces. */
  lemma NameTransformAccepts(name: string)
    ensures NameTransform(name).Ok? <==> Acceptable(name)
  {
    var l := Lower(name);
    var n := Normalise(name);
    if Acceptable(name) {
      var i :| 0 <= i < |name| && IsAlpha(name[i]);
      assert l[i] in n;
      forall j | 0 <= j < |n| ensures IsAlpha(n[j]) {
        assert n[j] in Remove(l, '_');
        assert n[j] in l;
      }
    }
    if NameTransform(name).Ok? {
      forall i | 0 <= i < |name| ensures IsAlpha(name[i]) || name[i] == '_' || name[i] == ' ' {
        if l[i] != '_' && l[i] != ' ' {
          assert l[i] in Remove(l, '_');
          assert l[i] in n;
        }
      }
      assert n[0] in l;
    }
  }

  /** A transformed name transforms to itself. */
  lemma NameTransformIdempotent(name: string)
    requires NameTransform(name).Ok?
    ensures NameTransform(NameTransform(name).value) == NameTransform(name)
  {
    var n := NameTransform(name).value;
    LowerOfLower(n);
    RemoveAbsent(n, '_');
    RemoveAbsent(n, ' ');
  }

  /** Dropping underscores, then spaces, removes a separator between two strings. */
  lemma RemoveSeparator(a: string, c: char, b: string)
    requires c == '_' || c == ' '
    ensures Remove(Remove(a + [c] + b, '_'), ' ') == Remove(Remove(a + b, '_'), ' ')
  {
    RemoveAppend(a + [c], b, '_');
    RemoveAppend(a, [c], '_');
    RemoveAppend(a, b, '_');
    var ra, rb := Remove(a, '_'), Remove(b, '_');
    var rc := Remove([c], '_');
    assert rc == (if c == '_' then [] else [c]);
    RemoveAppend(ra + rc, rb, ' ');
    RemoveAppend(ra, rc, ' ');
    RemoveAppend(ra, rb, ' ');
    assert Remove(rc, ' ') == [];
  }

  /** Lower-casing leaves a separator where it is. */
  lemma LowerSeparator(x: string, c: char, y: string)
    requires c == '_' || c == ' '
    ensures Lower(x + [c] + y) == Lower(x) + [c] + Lower(y)
  {
    LowerAppend(x + [c], y);
    LowerAppend(x, [c]);
    assert [c][1..] == [];
    assert Lower([c]) == [c];
  }

  /** An underscore or a space anywhere in a name does not change it. */
  lemma NameIgnoresSeparators(x: string, c: char, y: string)
    requires c == '_' || c == ' '
    ensures NameTransform(x + [c] + y) == NameTransform(x + y)
  {
    LowerSeparator(x, c, y);
    LowerAppend(x, y);
    RemoveSeparator(Lower(x), c, Lower(y));
    assert Normalise(x + [c] + y) == Normalise(x + y);
  }

  /** Nor does the case of a letter. */
  lemma NameIgnoresCase(x: string, c: char, y: string)
    requires 'a' <= c <= 'z'
    ensures NameTransform(x + [UpperChar(c)] + y) == NameTransform(x + [c] + y)
  {
    LowerAppend(x + [UpperChar(c)], y);
    LowerAppend(x, [UpperChar(c)]);
    LowerAppend(x + [c], y);
    LowerAppend(x, [c]);
    assert Lower([UpperChar(c)]) == [c] == Lower([c]);
  }

  // Wrappers.

  /** set: refused while a component is present and reloading is not allowed; otherwise the content is replaced. */
  function SetOutcome(allowReload: bool, name: Key, content: Option<Obj>, obj: Option<Obj>): (Option<Obj>, Result<(), ComponentError>) {
    if !allowReload && content.Some? then (content, Err(ComponentLoaded(name)))
    else (obj, Ok(()))
  }

  /** get */
  function GetOutcome(name: Key, content: Option<Obj>): (r: Result<Obj, ComponentError>) {
    if content.None? then Err(ComponentNotLoaded(name)) else Ok(content.value)
  }

  /** A component set into an empty wrapper, or one that allows reloading, is what get returns. */
  lemma SetThenGet(allowReload: bool, name: Key, content: Option<Obj>, obj: Obj)
    requires allowReload || content.None?
    ensures SetOutcome(allowReload, name, content, Some(obj)).1 == Ok(())
    ensures GetOutcome(name, SetOutcome(allowReload, name, content, Some(obj)).0) == Ok(obj)
  {
  }

  /** Without reloading, a second set fails and leaves the first component in place. */
  lemma SetOnce(name: Key, content: Option<Obj>, a: Obj, b: Option<Obj>)
    ensures var (c1, r1) := SetOutcome(false, name, content, Some(a));
      r1.Ok? ==> SetOutcome(false, name, c1, b) == (Some(a), Err(ComponentLoaded(name)))
  {
  }

  class ComponentWrapper {
    const name: Key
    const allowReload: bool
    var content: Option<Obj>

    constructor (name: Key, allowReload: bool, wrapped: Option<Obj>)
      ensures this.name == name && this.allowReload == allowReload && content == wrapped
    {
      this.name := name;
      this.allowReload := allowReload;
      content := wrapped;
    }

    method Set(obj: Option<Obj>) returns (r: Result<(), ComponentError>)
      modifies this
      ensures (content, r) == SetOutcome(allowReload, name, old(content), obj)
    {
      if !allowReload && content.Some? {
        return Err(ComponentLoaded(name));
      }
      content := obj;
      r := Ok(());
    }

    function Get(): (r: Result<Obj, ComponentError>)
      reads this
      ensures r.Ok? <==> content.Some?
      ensures r.Ok? ==> content == Some(r.value)
      ensures r.Err? ==> r.error == ComponentNotLoaded(name)
    {
      GetOutcome(name, content)
    }
  }

  // The container, as a map from key to the content of its wrapper.

  type State = map<Key, Option<Obj>>

  /** A string key is normalised and a type kept as it is; any other key is refused (__setitem__). */
  function SetKey(key: KeyArg): (r: Result<Key, ComponentError>)
    ensures key.OtherArg? ==> r == Err(TypeError)
    ensures key.TypeArg? ==> r == Ok(TypeOf(key.t))
    ensures key.StrArg? ==> r == (match NameTransform(key.s) case Ok(n) => Ok(Named(n)) case Err(e) => Err(e))
  {
    match key
    case StrArg(s) =>
      var n :- NameTransform(s);
      Ok(Named(n))
    case TypeArg(t) => Ok(TypeOf(t))
    case OtherArg => Err(TypeError)
  }

  /** __getitem__ keys: a type as it is, anything else through _name_transform, which needs a string. */
  function GetKey(key: KeyArg): (r: Result<Key, ComponentError>)
    ensures key.OtherArg? ==> r == Err(AttributeError)
    ensures !key.OtherArg? ==> r == SetKey(key)
  {
    match key
    case TypeArg(t) => Ok(TypeOf(t))
    case StrArg(s) =>
      var n :- NameTransform(s);
      Ok(Named(n))
    case OtherArg => Err(AttributeError)
  }

  /** setdefault with an empty wrapper. */
  function WithPlaceholder(st: State, k: Key): (r: State)
    ensures k in r && r.Keys == st.Keys + {k}
    ensures forall k' | k' in st :: r[k'] == st[k']
    ensures k !in st ==> r[k] == None
  {
    if k in st then st else st[k := None]
  }

  /** __setitem__: the wrapper for the key, created empty if absent, is set to the value. */
  function SetItemSpec(st: State, key: KeyArg, value: Option<Obj>): (State, Result<(), ComponentError>) {
    match SetKey(key)
    case Err(e) => (st, Err(e))
    case Ok(k) =>
      var st1 := WithPlaceholder(st, k);
      var (c, r) := SetOutcome(false, k, st1[k], value);
      (st1[k := c], r)
  }

  /** __getitem__: the key of the wrapper returned, an empty one inserted if absent. */
  function GetItemSpec(st: State, key: KeyArg): (State, Result<Key, ComponentError>) {
    match GetKey(key)
    case Err(e) => (st, Err(e))
    case Ok(k) => (WithPlaceholder(st, k), Ok(k))
  }

  /** register: container[name].set(obj). */
  function RegisterSpec(st: State, name: KeyArg, obj: Option<Obj>): (State, Result<(), ComponentError>) {
    var (st1, rk) := GetItemSpec(st, name);
    if rk.Err? then (st1, Err(rk.error))
    else
      var k := rk.value;
      var (c, r) := SetOutcome(false, k, st1[k], obj);
      (st1[k := c], r)
  }

  /** The key a raw membership test looks for: the argument itself, never normalised. */
  function RawKey(item: KeyArg): Option<Key> {
    match item
    case StrArg(s) => Some(Named(s))
    case TypeArg(t) => Some(TypeOf(t))
    case OtherArg => None
  }

  /**
   * __contains__ as written: absent raw key, false; otherwise
   * `self[item].get() is None`, and get raises on an empty wrapper instead
   * of returning None.
   */
  function ContainsAsWritten(st: State, item: KeyArg): Result<bool, ComponentError> {
    var raw := RawKey(item);
    if raw.None? || raw.value !in st then Ok(false)
    else
      match GetOutcome(raw.value, st[raw.value])
      case Err(e) => Err(e)
      case Ok(_) => Ok(true)
  }

  /** __contains__ as intended: the key is present and its wrapper holds a component. */
  function Holds(st: State, item: KeyArg): (r: bool) {
    var raw := RawKey(item);
    raw.Some? && raw.value in st && st[raw.value].Some?
  }

  /** Asking for a type creates its placeholder, after which the membership test as written raises. */
  lemma ContainsRaisesOnPlaceholder(st: State, t: string)
    requires TypeOf(t) !in st
    ensures var st1 := GetItemSpec(st, TypeArg(t)).0;
      ContainsAsWritten(st1, TypeArg(t)) == Err(ComponentNotLoaded(TypeOf(t))) &&
      !Holds(st1, TypeArg(t))
  {
  }

  /** The two agree wherever the written test does not raise. */
  lemma ContainsAgrees(st: State, item: KeyArg)
    ensures ContainsAsWritten(st, item).Ok? ==> ContainsAsWritten(st, item).value == Holds(st, item)
    ensures ContainsAsWritten(st, item).Err? <==> RawKey(item).Some? && RawKey(item).value in st && st[RawKey(item).value].None?
  {
  }

  /** A registered component is found under any spelling of its name. */
  lemma RegisterThenGet(st: State, a: string, b: string, obj: Obj)
    requires NameTransform(a).Ok? && NameTransform(a) == NameTransform(b)
    requires RegisterSpec(st, StrArg(a), Some(obj)).1.Ok?
    ensures var st1 := RegisterSpec(st, StrArg(a), Some(obj)).0;
      var (st2, k) := GetItemSpec(st1, StrArg(b));
      k.Ok? && st2 == st1 && GetOutcome(k.value, st2[k.value]) == Ok(obj)
  {
  }

  /** Registering under the same name twice fails the second time and keeps the first component. */
  lemma RegisterTwice(st: State, a: string, b: string, x: Obj, y: Option<Obj>)
    requires NameTransform(a) == NameTransform(b)
    requires RegisterSpec(st, StrArg(a), Some(x)).1.Ok?
    ensures var st1 := RegisterSpec(st, StrArg(a), Some(x)).0;
      RegisterSpec(st1, StrArg(b), y) == (st1, Err(ComponentLoaded(Named(NameTransform(a).value))))
  {
    var k := Named(NameTransform(a).value);
    assert GetKey(StrArg(b)) == Ok(k) == GetKey(StrArg(a));
    var st1 := RegisterSpec(st, StrArg(a), Some(x)).0;
    assert st1[k] == Some(x);
    assert WithPlaceholder(st1, k) == st1;
    assert st1[k := Some(x)] == st1;
  }

  /** Setting through __setitem__ and through register do the same for names and types. */
  lemma SetItemIsRegister(st: State, key: KeyArg, value: Option<Obj>)
    requires !key.OtherArg?
    ensures SetItemSpec(st, key, value) == RegisterSpec(st, key, value)
  {
  }

  class ComponentContainer {
    var wrappers: map<Key, ComponentWrapper>

    /**
     * Every wrapper is filed under its own name, never allows reloading
     * (the container creates them all), and has one key; a name key is an
     * already-normalised name.
     */
    predicate Valid()
      reads this
    {
      (forall k | k in wrappers :: wrappers[k].name == k && !wrappers[k].allowReload) &&
      (forall k | k in wrappers && k.Named? :: NameTransform(k.s) == Ok(k.s)) &&
      (forall k1, k2 | k1 in wrappers && k2 in wrappers && k1 != k2 :: wrappers[k1] != wrappers[k2])
    }

    function Contents(): State
      reads this, wrappers.Values
    {
      map k | k in wrappers :: wrappers[k].content
    }

    constructor ()
      ensures Valid() && Contents() == map[]
    {
      wrappers := map[];
    }

    /** setdefault(k, ComponentWrapper(k)) */
    method SetDefault(k: Key) returns (w: ComponentWrapper)
      requires Valid()
      requires k.Named? ==> NameTransform(k.s) == Ok(k.s)
      modifies this
      ensures Valid() && k in wrappers && w == wrappers[k]
      ensures Contents() == WithPlaceholder(old(Contents()), k)
      ensures forall k' | k' in old(wrappers) :: k' in wrappers && wrappers[k'] == old(wrappers[k'])
      ensures wrappers.Keys == old(wrappers.Keys) + {k}
      ensures w in old(wrappers.Values) || fresh(w)
    {
      if k in wrappers {
        w := wrappers[k];
      } else {
        w := new ComponentWrapper(k, false, None);
        wrappers := wrappers[k := w];
      }
    }

    method SetItem(key: KeyArg, value: Option<Obj>) returns (r: Result<(), ComponentError>)
      requires Valid()
      modifies this, wrappers.Values
      ensures Valid() && (Contents(), r) == SetItemSpec(old(Contents()), key, value)
    {
      var k := SetKey(key);
      if k.Err? {
        return Err(k.error);
      }
      if key.StrArg? {
        NameTransformIdempotent(key.s);
      }
      var item := SetDefault(k.value);
      ghost var st1 := Contents();
      assert item.name == k.value && !item.allowReload;
      ghost var out := SetOutcome(false, k.value, st1[k.value], value);
      label before:
      r := item.Set(value);
      assert (item.content, r) == out;
      ghost var st2 := st1[k.value := item.content];
      assert wrappers == old@before(wrappers);
      assert Contents().Keys == st2.Keys;
      forall k' | k' in wrappers
        ensures Contents()[k'] == st2[k']
      {
        if k' != k.value {
          assert wrappers[k'] != item;
          assert wrappers[k'].content == old@before(wrappers[k'].content);
        }
      }
      assert Contents() == st2;
    }

    method GetItem(key: KeyArg) returns (r: Result<ComponentWrapper, ComponentError>)
      requires Valid()
      modifies this
      ensures Valid()
      ensures var (st, rk) := GetItemSpec(old(Contents()), key);
        Contents() == st && (r.Ok? <==> rk.Ok?) &&
        (r.Ok? ==> rk.value in wrappers && r.value == wrappers[rk.value]) &&
        (r.Err? ==> r.error == rk.error)
      ensures r.Ok? ==> r.value in old(wrappers.Values) || fresh(r.value)
    {
      var k := GetKey(key);
      if k.Err? {
        return Err(k.error);
      }
      if key.StrArg? {
        NameTransformIdempotent(key.s);
      }
      var w := SetDefault(k.value);
      r := Ok(w);
    }

    /** __contains__, with an empty wrapper answering false. */
    method ContainsItem(item: KeyArg) returns (r: bool)
      requires Valid()
      ensures r == Holds(Contents(), item)
    {
      var raw := RawKey(item);
      if raw.None? || raw.value !in wrappers {
        return false;
      }
      r := wrappers[raw.value].Get().Ok?;
    }
  }

  /** register */
  method Register(c: ComponentContainer, name: KeyArg, obj: Option<Obj>) returns (r: Result<(), ComponentError>)
    requires c.Valid()
    modifies c, c.wrappers.Values
    ensures c.Valid() && (c.Contents(), r) == RegisterSpec(old(c.Contents()), name, obj)
  {
    var w := c.GetItem(name);
    if w.Err? {
      return Err(w.error);
    }
    ghost var st1 := c.Contents();
    ghost var k := GetKey(name).value;
    r := w.value.Set(obj);
    assert c.Contents() == st1[k := w.value.content];
  }
}

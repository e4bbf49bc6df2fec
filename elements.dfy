/**
 * The element tree: nodes with a tag, ordered content (text or nodes), a
 * duplicate-free sequence of boolean params and an insertion-ordered list of
 * value params; the specialised kinds Doctype, HTML and the directive
 * element; rendering back to markup; the depth-first `find`.
 */
module Elements {
  import opened Wrappers
  import opened Strings

  /** Tags rendered without a closing tag when they have no content. */
  const NonClosing: set<string> := {"meta", "input", "doctype"}

  /** A value param: a string, an iterable of strings, or None (not rendered). */
  datatype Value = VStr(s: string) | VList(items: seq<string>) | VNone

  /**
   * The class a node was built as.  HtmlNode carries the `doctype` slot;
   * DirectiveNode carries the raw code and the `executed` slot (already
   * converted by `str`, None until a later stage sets it).
   */
  datatype Kind =
    | Plain
    | DoctypeNode
    | HtmlNode(doctype: Option<Node>)
    | DirectiveNode(code: string, executed: Option<string>)

  datatype Child = Text(text: string) | Elem(node: Node)

  datatype Node = Node(
    kind: Kind,
    tag: string,
    content: seq<Child>,
    params: seq<string>,
    valueParams: seq<(string, Value)>)

  /** The value stored under `k`, if any. */
  function Lookup(vp: seq<(string, Value)>, k: string): (r: Option<Value>)
    ensures r.Some? <==> exists i :: 0 <= i < |vp| && vp[i].0 == k
  {
    if vp == [] then None
    else if vp[0].0 == k then Some(vp[0].1)
    else Lookup(vp[1..], k)
  }

  /** `d[k] = v` on an insertion-ordered dict: update in place, else append. */
  function Store(vp: seq<(string, Value)>, k: string, v: Value): (r: seq<(string, Value)>)
    ensures Lookup(r, k) == Some(v)
    ensures forall k' :: k' != k ==> Lookup(r, k') == Lookup(vp, k')
    ensures Lookup(vp, k).Some? ==> |r| == |vp|
    ensures Lookup(vp, k).None? ==> r == vp + [(k, v)]
  {
    if vp == [] then [(k, v)]
    else if vp[0].0 == k then [(k, v)] + vp[1..]
    else [vp[0]] + Store(vp[1..], k, v)
  }

  /** `set.add` on a duplicate-free sequence. */
  function AddFlag(params: seq<string>, p: string): (r: seq<string>)
    ensures p in r
    ensures forall q :: q in r <==> q in params || q == p
    ensures p in params ==> r == params
    ensures p !in params ==> r == params + [p]
  {
    if p in params then params else params + [p]
  }

  function KindFor(tag: string): Kind {
    if tag == "html" then HtmlNode(None)
    else if tag == "doctype" then DoctypeNode
    else Plain
  }

  /** by_tag: the HTML class for "html", Doctype for "doctype", Base otherwise. */
  function ByTag(tag: string): (r: Node)
    ensures r.tag == tag && r.content == [] && r.params == [] && r.valueParams == []
    ensures tag == "html" ==> r.kind == HtmlNode(None)
    ensures tag == "doctype" ==> r.kind == DoctypeNode
    ensures tag != "html" && tag != "doctype" ==> r.kind == Plain
  {
    Node(KindFor(tag), tag, [], [], [])
  }

  /** DcHPElement(code): tag "dchp", no content, `executed` unset. */
  function DirectiveElement(code: string): (r: Node)
    ensures r.kind.DirectiveNode? && r.kind.code == code && r.kind.executed.None?
    ensures r.tag == "dchp" && r.content == [] && r.params == [] && r.valueParams == []
  {
    Node(DirectiveNode(code, None), "dchp", [], [], [])
  }

  /** Base.append: the child goes at the end of the content; nothing else changes. */
  function Append(n: Node, c: Child): (r: Node)
    ensures r.content == n.content + [c]
    ensures r.kind == n.kind && r.tag == n.tag && r.params == n.params && r.valueParams == n.valueParams
  {
    n.(content := n.content + [c])
  }

  /** Base.children(): the node children, in order. */
  function ChildNodes(cs: seq<Child>): seq<Node> {
    if cs == [] then []
    else ChildNodes(cs[..|cs| - 1]) + (if cs[|cs| - 1].Elem? then [cs[|cs| - 1].node] else [])
  }

  /** Base.text_fields(): the text children, in order. */
  function TextFields(cs: seq<Child>): seq<string> {
    if cs == [] then []
    else TextFields(cs[..|cs| - 1]) + (if cs[|cs| - 1].Text? then [cs[|cs| - 1].text] else [])
  }

  /** Base.text(): the text children concatenated. */
  function TextOf(n: Node): string {
    Concat(TextFields(n.content))
  }

  /**
   * children() and text_fields() split the content into its nodes and its
   * strings: every child lands in exactly one of them.
   */
  lemma {:induction false} SplitContent(cs: seq<Child>)
    ensures |ChildNodes(cs)| + |TextFields(cs)| == |cs|
    ensures forall m :: m in ChildNodes(cs) <==> Elem(m) in cs
    ensures forall s :: s in TextFields(cs) <==> Text(s) in cs
  {
    if cs != [] {
      var init := cs[..|cs| - 1];
      SplitContent(init);
      assert cs == init + [cs[|cs| - 1]];
    }
  }

  /** Appending a text child extends text(); appending a node extends children(). */
  lemma AppendSplits(n: Node, c: Child)
    ensures c.Text? ==> ChildNodes(Append(n, c).content) == ChildNodes(n.content)
    ensures c.Text? ==> TextOf(Append(n, c)) == TextOf(n) + c.text
    ensures c.Elem? ==> ChildNodes(Append(n, c).content) == ChildNodes(n.content) + [c.node]
    ensures c.Elem? ==> TextFields(Append(n, c).content) == TextFields(n.content)
  {
    var cs := Append(n, c).content;
    assert cs[..|cs| - 1] == n.content;
    if c.Text? {
      ConcatAppend(TextFields(n.content), [c.text]);
    }
  }

  /** unwrap_list: a string as it is, a list of strings joined with ", ". */
  function UnwrapList(v: Value): string
    requires !v.VNone?
  {
    match v
    case VStr(s) => s
    case VList(items) => JoinWith(", ", items)
  }

  /** The `k="v"` pieces of the head, skipping value params whose value is None. */
  function AttrPieces(vp: seq<(string, Value)>): seq<string> {
    if vp == [] then []
    else
      var rest := AttrPieces(vp[1..]);
      if vp[0].1.VNone? then rest
      else [vp[0].0 + "=\"" + UnwrapList(vp[0].1) + "\""] + rest
  }

  /** render_tag: the tag, or "!" and the upper-cased tag for a Doctype. */
  function RenderTag(n: Node): string {
    if n.kind.DoctypeNode? then "!" + Upper(n.tag) else n.tag
  }

  /** The inside of the opening tag: the rendered tag, the flags, then the value params. */
  function Head(n: Node): string {
    JoinWith(" ", [RenderTag(n)] + n.params + AttrPieces(n.valueParams))
  }

  lemma {:induction false} AttrPiecesNone(vp: seq<(string, Value)>)
    requires forall i :: 0 <= i < |vp| ==> vp[i].1.VNone?
    ensures AttrPieces(vp) == []
    decreases |vp|
  {
    if vp != [] {
      assert forall i :: 0 <= i < |vp[1..]| ==> vp[1..][i] == vp[i + 1];
      AttrPiecesNone(vp[1..]);
    }
  }

  /** With no flags and only None values, the head is the rendered tag alone. */
  lemma HeadBare(n: Node)
    requires n.params == [] && forall i :: 0 <= i < |n.valueParams| ==> n.valueParams[i].1.VNone?
    ensures Head(n) == RenderTag(n)
  {
    AttrPiecesNone(n.valueParams);
    assert [RenderTag(n)] + n.params + AttrPieces(n.valueParams) == [RenderTag(n)];
  }

  /** A flag-free node with one value param renders its head as the tag, a space and `k="v"`. */
  lemma HeadOneValue(n: Node, k: string, v: Value)
    requires n.params == [] && n.valueParams == [(k, v)] && !v.VNone?
    ensures Head(n) == RenderTag(n) + " " + k + "=\"" + UnwrapList(v) + "\""
  {
    var vp := n.valueParams;
    assert vp[1..] == [];
    var piece := k + "=\"" + UnwrapList(v) + "\"";
    assert AttrPieces(vp) == [piece];
    var parts := [RenderTag(n)] + n.params + AttrPieces(vp);
    assert parts == [RenderTag(n), piece];
    assert parts[..1] == [RenderTag(n)];
    assert JoinWith(" ", parts) == JoinWith(" ", parts[..1]) + " " + piece;
  }

  /** Base.render */
  function BaseRender(n: Node): string
    decreases n, 0
  {
    if |n.content| > 0 then "<" + Head(n) + ">" + RenderAll(n.content) + "</" + n.tag + ">"
    else if n.tag in NonClosing then "<" + Head(n) + ">"
    else "<" + Head(n) + " />"
  }

  /** render(), dispatched on the node's class. */
  function Render(n: Node): string
    decreases n, 1
  {
    match n.kind
    case DirectiveNode(_, executed) =>
      if executed.None? then "<?" + n.tag + " ?>" else executed.value
    case HtmlNode(doctype) =>
      (if doctype.Some? then Render(doctype.value) else "<!DOCTYPE html>") + BaseRender(n)
    case _ => BaseRender(n)
  }

  function RenderChild(c: Child): string
    decreases c
  {
    match c
    case Text(s) => s
    case Elem(m) => Render(m)
  }

  /** The content rendered in order: strings verbatim, nodes rendered. */
  function RenderAll(cs: seq<Child>): string
    decreases cs
  {
    if cs == [] then "" else RenderAll(cs[..|cs| - 1]) + RenderChild(cs[|cs| - 1])
  }

  lemma {:induction false} RenderAllAppend(a: seq<Child>, b: seq<Child>)
    ensures RenderAll(a + b) == RenderAll(a) + RenderAll(b)
    decreases |b|
  {
    if b != [] {
      assert (a + b)[..|a + b| - 1] == a + b[..|b| - 1];
      RenderAllAppend(a, b[..|b| - 1]);
    } else {
      assert a + b == a;
    }
  }

  /** No directive that would render its executed result instead of a tag, at the top or in a doctype slot. */
  predicate Unexecuted(n: Node)
    decreases n
  {
    match n.kind
    case DirectiveNode(_, executed) => executed.None?
    case HtmlNode(doctype) => doctype.None? || Unexecuted(doctype.value)
    case _ => true
  }

  /**
   * Every node renders to one tag-delimited piece: it starts with '<' and
   * ends with '>'.
   */
  lemma {:induction false} RenderDelimited(n: Node)
    requires Unexecuted(n)
    ensures var r := Render(n); |r| > 1 && r[0] == '<' && r[|r| - 1] == '>'
    decreases n
  {
    var b := BaseRender(n);
    assert |b| > 1 && b[0] == '<' && b[|b| - 1] == '>';
    if n.kind.HtmlNode? && n.kind.doctype.Some? {
      RenderDelimited(n.kind.doctype.value);
    }
  }

  /** _satisfies, with the KeyError a missing keyed selector raises. */
  datatype Satisfaction = Satisfied | NotSatisfied | MissingKey

  function SatisfiesValues(n: Node, vselectors: seq<(string, Value)>): Satisfaction {
    if vselectors == [] then Satisfied
    else
      var look := Lookup(n.valueParams, vselectors[0].0);
      if look.None? then MissingKey
      else if look.value != vselectors[0].1 then NotSatisfied
      else SatisfiesValues(n, vselectors[1..])
  }

  /** Flags are checked first; the keyed selectors are then compared in order. */
  function Satisfies(n: Node, selectors: seq<string>, vselectors: seq<(string, Value)>): Satisfaction {
    if exists i :: 0 <= i < |selectors| && selectors[i] !in n.params then NotSatisfied
    else SatisfiesValues(n, vselectors)
  }

  /** What a caller means by a match: every flag present, every keyed selector stored with that value. */
  predicate Matches(n: Node, selectors: seq<string>, vselectors: seq<(string, Value)>) {
    && (forall i :: 0 <= i < |selectors| ==> selectors[i] in n.params)
    && (forall i :: 0 <= i < |vselectors| ==> Lookup(n.valueParams, vselectors[i].0) == Some(vselectors[i].1))
  }

  lemma {:induction false} SatisfiesValuesMeaning(n: Node, vselectors: seq<(string, Value)>)
    ensures SatisfiesValues(n, vselectors) == Satisfied <==>
      forall i :: 0 <= i < |vselectors| ==> Lookup(n.valueParams, vselectors[i].0) == Some(vselectors[i].1)
  {
    if vselectors != [] {
      SatisfiesValuesMeaning(n, vselectors[1..]);
      if SatisfiesValues(n, vselectors) == Satisfied {
        forall i | 0 <= i < |vselectors|
          ensures Lookup(n.valueParams, vselectors[i].0) == Some(vselectors[i].1)
        {
          if i > 0 {
            assert vselectors[i] == vselectors[1..][i - 1];
          }
        }
      }
      if forall i :: 0 <= i < |vselectors| ==> Lookup(n.valueParams, vselectors[i].0) == Some(vselectors[i].1) {
        assert Lookup(n.valueParams, vselectors[0].0) == Some(vselectors[0].1);
        forall i | 0 <= i < |vselectors[1..]|
          ensures Lookup(n.valueParams, vselectors[1..][i].0) == Some(vselectors[1..][i].1)
        {
          assert vselectors[1..][i] == vselectors[i + 1];
        }
      }
    }
  }

  /** A node is yielded by _find exactly when it matches; a KeyError just skips it. */
  lemma SatisfiesMeaning(n: Node, selectors: seq<string>, vselectors: seq<(string, Value)>)
    ensures Satisfies(n, selectors, vselectors) == Satisfied <==> Matches(n, selectors, vselectors)
  {
    SatisfiesValuesMeaning(n, vselectors);
  }

  /** _find: the node itself if it satisfies the selectors, then its node children's results. */
  function Find(n: Node, selectors: seq<string>, vselectors: seq<(string, Value)>): seq<Node>
    decreases n, 1
  {
    (if Satisfies(n, selectors, vselectors) == Satisfied then [n] else [])
    + FindAll(n.content, selectors, vselectors)
  }

  function FindChild(c: Child, selectors: seq<string>, vselectors: seq<(string, Value)>): seq<Node>
    decreases c
  {
    match c
    case Text(_) => []
    case Elem(m) => Find(m, selectors, vselectors)
  }

  function FindAll(cs: seq<Child>, selectors: seq<string>, vselectors: seq<(string, Value)>): seq<Node>
    decreases cs
  {
    if cs == [] then []
    else FindAll(cs[..|cs| - 1], selectors, vselectors) + FindChild(cs[|cs| - 1], selectors, vselectors)
  }

  /** Every node of the tree, in depth-first pre-order (text and doctype slots excluded). */
  function Subtree(n: Node): seq<Node>
    decreases n, 1
  {
    [n] + SubtreeAll(n.content)
  }

  function SubtreeChild(c: Child): seq<Node>
    decreases c
  {
    match c
    case Text(_) => []
    case Elem(m) => Subtree(m)
  }

  function SubtreeAll(cs: seq<Child>): seq<Node>
    decreases cs
  {
    if cs == [] then [] else SubtreeAll(cs[..|cs| - 1]) + SubtreeChild(cs[|cs| - 1])
  }

  function KeepMatching(ns: seq<Node>, selectors: seq<string>, vselectors: seq<(string, Value)>): (r: seq<Node>)
    ensures forall m :: m in r ==> m in ns && Matches(m, selectors, vselectors)
  {
    if ns == [] then []
    else
      SatisfiesMeaning(ns[0], selectors, vselectors);
      (if Matches(ns[0], selectors, vselectors) then [ns[0]] else [])
      + KeepMatching(ns[1..], selectors, vselectors)
  }

  lemma {:induction false} KeepMatchingAppend(a: seq<Node>, b: seq<Node>, selectors: seq<string>, vselectors: seq<(string, Value)>)
    ensures KeepMatching(a + b, selectors, vselectors) == KeepMatching(a, selectors, vselectors) + KeepMatching(b, selectors, vselectors)
  {
    if a == [] {
      assert a + b == b;
    } else {
      assert (a + b)[1..] == a[1..] + b;
      KeepMatchingAppend(a[1..], b, selectors, vselectors);
    }
  }

  /**
   * find returns exactly the nodes of the tree that match the selectors, in
   * depth-first pre-order; a node that lacks a keyed selector is skipped but
   * its descendants are still searched.
   */
  lemma {:induction false} FindIsFilteredPreorder(n: Node, selectors: seq<string>, vselectors: seq<(string, Value)>)
    ensures Find(n, selectors, vselectors) == KeepMatching(Subtree(n), selectors, vselectors)
    decreases n, 1
  {
    SatisfiesMeaning(n, selectors, vselectors);
    FindAllIsFiltered(n.content, selectors, vselectors);
    KeepMatchingAppend([n], SubtreeAll(n.content), selectors, vselectors);
    assert ([n] + SubtreeAll(n.content))[1..] == SubtreeAll(n.content);
  }

  lemma {:induction false} FindAllIsFiltered(cs: seq<Child>, selectors: seq<string>, vselectors: seq<(string, Value)>)
    ensures FindAll(cs, selectors, vselectors) == KeepMatching(SubtreeAll(cs), selectors, vselectors)
    decreases cs
  {
    if cs != [] {
      var init, last := cs[..|cs| - 1], cs[|cs| - 1];
      FindAllIsFiltered(init, selectors, vselectors);
      FindChildIsFiltered(last, selectors, vselectors);
      KeepMatchingAppend(SubtreeAll(init), SubtreeChild(last), selectors, vselectors);
    }
  }

  lemma {:induction false} FindChildIsFiltered(c: Child, selectors: seq<string>, vselectors: seq<(string, Value)>)
    ensures FindChild(c, selectors, vselectors) == KeepMatching(SubtreeChild(c), selectors, vselectors)
    decreases c
  {
    if c.Elem? {
      FindIsFilteredPreorder(c.node, selectors, vselectors);
    }
  }

  /** The argument of an attribute assignment `node.k = v`: a bool or any other value. */
  datatype AttrArg = Flag(b: bool) | Val(v: Value)

  /** The slots a node keeps as real attributes (Base's, plus `doctype` on HTML, `code` and `executed` on the directive element). */
  predicate IsSlot(n: Node, k: string) {
    k in {"_children", "_value_params", "_params", "tag"}
    || (n.kind.HtmlNode? && k == "doctype")
    || (n.kind.DirectiveNode? && k in {"code", "executed"})
  }

  /** Base.__setattr__ for a key that is not a slot: any bool adds a flag, anything else is stored as a value param. */
  function SetAttr(n: Node, k: string, v: AttrArg): (r: Node)
    requires !IsSlot(n, k)
    ensures r.kind == n.kind && r.tag == n.tag && r.content == n.content
    ensures v.Flag? ==> r.params == AddFlag(n.params, k) && r.valueParams == n.valueParams
    ensures v.Val? ==> r.params == n.params && r.valueParams == Store(n.valueParams, k, v.v)
  {
    match v
    case Flag(_) => n.(params := AddFlag(n.params, k))
    case Val(x) => n.(valueParams := Store(n.valueParams, k, x))
  }

  /** Base.__getattr__: the value param if there is one, else whether the flag is set. */
  function GetAttr(n: Node, k: string): (r: AttrArg)
    ensures Lookup(n.valueParams, k).Some? ==> r == Val(Lookup(n.valueParams, k).value)
    ensures Lookup(n.valueParams, k).None? ==> r == Flag(k in n.params)
  {
    var look := Lookup(n.valueParams, k);
    if look.Some? then Val(look.value) else Flag(k in n.params)
  }

  /**
   * As written, assigning False to an attribute sets the flag: reading it
   * back answers True.
   */
  lemma SetAttrFalseReadsTrue(n: Node, k: string)
    requires !IsSlot(n, k) && Lookup(n.valueParams, k).None?
    ensures GetAttr(SetAttr(n, k, Flag(false)), k) == Flag(true)
  {
  }

  /** The evidently intended assignment: a bool sets or clears the flag and drops a value param of that name. */
  function SetAttrIntended(n: Node, k: string, v: AttrArg): (r: Node)
    requires !IsSlot(n, k)
    ensures r.kind == n.kind && r.tag == n.tag && r.content == n.content
  {
    match v
    case Flag(b) =>
      var ps := RemoveFlag(n.params, k);
      n.(params := if b then ps + [k] else ps, valueParams := RemoveKey(n.valueParams, k))
    case Val(x) => n.(params := RemoveFlag(n.params, k), valueParams := Store(n.valueParams, k, x))
  }

  function RemoveFlag(params: seq<string>, p: string): (r: seq<string>)
    ensures forall q :: q in r <==> q in params && q != p
  {
    if params == [] then []
    else (if params[0] == p then [] else [params[0]]) + RemoveFlag(params[1..], p)
  }

  function RemoveKey(vp: seq<(string, Value)>, k: string): (r: seq<(string, Value)>)
    ensures Lookup(r, k).None?
    ensures forall k' :: k' != k ==> Lookup(r, k') == Lookup(vp, k')
  {
    if vp == [] then []
    else if vp[0].0 == k then RemoveKey(vp[1..], k)
    else [vp[0]] + RemoveKey(vp[1..], k)
  }

  /** With the intended assignment, reading an attribute back returns what was assigned, and other attributes are untouched. */
  lemma SetAttrIntendedRoundTrip(n: Node, k: string, v: AttrArg, other: string)
    requires !IsSlot(n, k) && other != k
    ensures GetAttr(SetAttrIntended(n, k, v), k) == v
    ensures GetAttr(SetAttrIntended(n, k, v), other) == GetAttr(n, other)
  {
  }
}

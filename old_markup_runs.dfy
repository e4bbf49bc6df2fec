/**
 * Runs of the older markup grammar, related to runs of the newer one.
 * Where the two tables differ is stated once, for every state and
 * character; a run that only takes edges both tables share is the same
 * run in both, so the newer grammar's lemmas about tags, text and
 * attributes carry over piece by piece.
 */
module OldMarkupRuns {
  import opened Wrappers
  import opened Strings
  import opened Guards
  import opened Errors
  import opened ParseState
  import opened Generic
  import opened Accumulator
  import MG = MarkupGrammar
  import MR = MarkupRuns
  import opened OldMarkupGrammar

  /** A run of the older grammar from state q at position pos. */
  function From(q: int, pos: Pos, s: Stack, input: string): Run<Stack> {
    RunBy(States, Transition, Step, q, pos, s, input)
  }

  /** Text the older grammar accepts outside whitespace: alphanumerics only. */
  predicate IsAlnumText(t: string) {
    forall i :: 0 <= i < |t| ==> IsAlnum(t[i])
  }

  /** State q of the older grammar does on c what the newer grammar does. */
  predicate Shared(q: int, c: char) {
    IsState(q) && Transition(q, c) == MG.Transition(q, c)
  }

  /**
   * The older table is the newer one with four differences: text refuses
   * the non-alphanumeric characters the newer grammar allows, there is no
   * `<!`, the attribute name has no `>` edge, and its space edge runs the
   * action that raises.  Everywhere else the edge, its target and its
   * action are the same.
   */
  lemma Differences(q: int, c: char)
    requires IsState(q)
    ensures !Shared(q, c) <==>
      ((q == 0 || q == 8) && c in HtmlAllowed && !IsAlnum(c)) ||
      (q == 1 && c == '!') || (q == 4 && (c == '>' || c == ' '))
    ensures !Shared(q, c) && !(q == 4 && c == ' ') ==> Transition(q, c).None? && MG.Transition(q, c).Some?
    ensures q == 4 && c == ' ' ==> Transition(q, c) == Some((3, Some(RecordFlagUndefined)))
  {
  }

  /** A shared edge leads to a state of the older grammar and runs a markup action. */
  lemma SharedTargets(q: int, c: char)
    requires Shared(q, c) && MG.Transition(q, c).Some?
    ensures var t := MG.Transition(q, c);
      IsState(t.value.0) &&
      (t.value.1.Some? ==> t.value.1.value != ReduceIndent && t.value.1.value != AfterIndentQuestion)
  {
  }

  /** The state the newer grammar's edges lead to from q over input, if each character has one. */
  function Reach(q: int, input: string): Option<int>
    decreases |input|
  {
    if input == [] then Some(q)
    else
      var t := MG.Transition(q, input[0]);
      if t.None? then None else Reach(t.value.0, input[1..])
  }

  /** The newer grammar's path from q over input uses shared edges only, up to where it stops. */
  predicate Along(q: int, input: string)
    decreases |input|
  {
    input == [] ||
    (Shared(q, input[0]) &&
      var t := MG.Transition(q, input[0]);
      t.None? || Along(t.value.0, input[1..]))
  }

  /** Along a shared path the two grammars make the same run: same result, same position, same accumulator. */
  lemma {:induction false} AlongAgrees(q: int, pos: Pos, s: Stack, input: string)
    requires IsState(q) && Along(q, input)
    ensures From(q, pos, s, input) == MR.From(q, pos, s, input)
    decreases |input|
  {
    if input != [] {
      var c := input[0];
      var t := MG.Transition(q, c);
      if t.Some? {
        SharedTargets(q, c);
        var out := if t.value.1.None? then Continue(s, None) else Step(t.value.1.value, c, s);
        if out.Continue? {
          if t.value.1.Some? {
            StepKeepsHead(t.value.1.value, c, s);
          }
          AlongAgrees(t.value.0, Advance(pos, c), out.stack, input[1..]);
        }
      }
    }
  }

  /** Shared paths compose. */
  lemma {:induction false} AlongAppend(q: int, x: string, y: string)
    requires Along(q, x)
    requires Reach(q, x).Some? ==> Along(Reach(q, x).value, y)
    ensures Along(q, x + y)
    ensures Reach(q, x + y) == if Reach(q, x).Some? then Reach(Reach(q, x).value, y) else None
    decreases |x|
  {
    if x == [] {
      assert x + y == y;
    } else {
      assert (x + y)[0] == x[0];
      assert (x + y)[1..] == x[1..] + y;
      var t := MG.Transition(q, x[0]);
      if t.Some? {
        AlongAppend(t.value.0, x[1..], y);
      }
    }
  }

  // The pieces of a document that both grammars read alike.

  /** Alphanumeric text from a text state. */
  lemma {:induction false} AlongWord(q: int, t: string)
    requires MR.TextState(q) && |t| > 0 && IsAlnumText(t)
    ensures Along(q, t) && Reach(q, t) == Some(0)
    decreases |t|
  {
    assert t[0] != '<' && t[0] != ' ' && t[0] != '\n';
    if |t| > 1 {
      AlongWord(0, t[1..]);
    }
  }

  /** Spaces and newlines from a text state. */
  lemma {:induction false} AlongWhitespace(q: int, w: string)
    requires MR.TextState(q) && |w| > 0 && MR.IsWhitespace(w)
    ensures Along(q, w) && Reach(q, w) == Some(8)
    decreases |w|
  {
    if |w| > 1 {
      AlongWhitespace(8, w[1..]);
    }
  }

  /** The rest of a name inside an opening (state 2) or closing (state 11) tag name. */
  lemma {:induction false} AlongNameRest(q: int, n: string)
    requires (q == 2 || q == 11) && IsAlnumText(n)
    ensures Along(q, n) && Reach(q, n) == Some(q)
    decreases |n|
  {
    if n != [] {
      AlongNameRest(q, n[1..]);
    }
  }

  /** A name after `<` (state 1), after `</` (state 10) or inside a tag (state 3). */
  lemma AlongName(q: int, n: string)
    requires (q == 1 || q == 10 || q == 3) && MR.IsName(n)
    ensures Along(q, n)
    ensures Reach(q, n) == Some(if q == 1 then 2 else if q == 10 then 11 else 4)
  {
    if q == 3 {
      AlongArgNameRest(n[1..]);
    } else {
      AlongNameRest(if q == 1 then 2 else 11, n[1..]);
    }
  }

  lemma {:induction false} AlongArgNameRest(k: string)
    requires IsAlnumText(k)
    ensures Along(4, k) && Reach(4, k) == Some(4)
    decreases |k|
  {
    if k != [] {
      AlongArgNameRest(k[1..]);
    }
  }

  /** `<n>` and `<n ` from a text state. */
  lemma AlongOpenTag(q: int, n: string)
    requires MR.TextState(q) && MR.IsName(n)
    ensures Along(q, "<" + n + ">") && Reach(q, "<" + n + ">") == Some(0)
    ensures Along(q, "<" + n + " ") && Reach(q, "<" + n + " ") == Some(3)
  {
    AlongName(1, n);
    AlongAppend(q, "<", n);
    AlongAppend(q, "<" + n, ">");
    AlongAppend(q, "<" + n, " ");
  }

  /** `</n>` from a text state. */
  lemma AlongCloseTag(q: int, n: string)
    requires MR.TextState(q) && MR.IsName(n)
    ensures Along(q, "</" + n + ">") && Reach(q, "</" + n + ">") == Some(0)
  {
    AlongName(10, n);
    AlongAppend(q, "</", n);
    AlongAppend(q, "</" + n, ">");
  }

  /** `/>` inside a tag. */
  lemma AlongSelfClose()
    ensures Along(3, "/>") && Reach(3, "/>") == Some(0)
  {
    assert "/>"[1..] == ">";
    assert ">"[1..] == [];
  }

  // Single steps of the older grammar, for where it differs.

  lemma One(q: int, pos: Pos, s: Stack, c: char)
    ensures From(q, pos, s, [c]) ==
      var t := Transition(q, c);
      if t.None? then Failed(SyntaxAt(pos.line, pos.col, NoMatchingEdge(c)))
      else
        var out := if t.value.1.None? then Continue(s, None) else Step(t.value.1.value, c, s);
        if out.Raise? then Failed(FromAction(out.error, pos.line, pos.col))
        else
          var next := if out.next.Some? then out.next.value else t.value.0;
          if next !in States then Failed(UnknownState(t.value.0))
          else Finished(next, Advance(pos, c), out.stack)
  {
    assert [c][0] == c && [c][1..] == [];
    var t := Transition(q, c);
    if t.Some? {
      var out := if t.value.1.None? then Continue(s, None) else Step(t.value.1.value, c, s);
      if out.Continue? {
        var next := if out.next.Some? then out.next.value else t.value.0;
        assert From(next, Advance(pos, c), out.stack, []) == Finished(next, Advance(pos, c), out.stack);
      }
    }
  }

  lemma Then(q: int, pos: Pos, s: Stack, x: string, y: string)
    requires From(q, pos, s, x).Finished?
    ensures From(q, pos, s, x + y) == From(From(q, pos, s, x).state, From(q, pos, s, x).pos, From(q, pos, s, x).stack, y)
  {
    RunByAppend(States, Transition, Step, q, pos, s, x, y);
  }

  lemma ThenFailed(q: int, pos: Pos, s: Stack, x: string, y: string)
    requires From(q, pos, s, x).Failed?
    ensures From(q, pos, s, x + y) == From(q, pos, s, x)
  {
    RunByAppend(States, Transition, Step, q, pos, s, x, y);
  }

  /** A piece that finishes, then the rest. */
  lemma Chain(q: int, pos: Pos, s: Stack, x: string, y: string, q1: int, s1: Stack, r: Run<Stack>)
    requires From(q, pos, s, x) == Finished(q1, AdvanceAll(pos, x), s1)
    requires From(q1, AdvanceAll(pos, x), s1, y) == r
    ensures From(q, pos, s, x + y) == r
  {
    Then(q, pos, s, x, y);
  }

  /** A character a text state refuses here and the newer grammar accepts is a syntax error at its position. */
  lemma RejectsInText(q: int, pos: Pos, s: Stack, c: char, rest: string)
    requires MR.TextState(q) && c in HtmlAllowed && !IsAlnum(c)
    ensures From(q, pos, s, [c] + rest) == Failed(SyntaxAt(pos.line, pos.col, NoMatchingEdge(c)))
  {
    One(q, pos, s, c);
    ThenFailed(q, pos, s, [c], rest);
  }

  /** In an attribute name (state 4), `>` has no edge and a space raises the undefined-name error. */
  lemma AttributeNameEnds(pos: Pos, s: Stack, rest: string)
    ensures From(4, pos, s, ">" + rest) == Failed(SyntaxAt(pos.line, pos.col, NoMatchingEdge('>')))
    ensures From(4, pos, s, " " + rest) == Failed(NameError)
  {
    One(4, pos, s, '>');
    ThenFailed(4, pos, s, ">", rest);
    One(4, pos, s, ' ');
    ThenFailed(4, pos, s, " ", rest);
  }
}

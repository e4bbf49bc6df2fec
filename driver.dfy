/**
 * The deterministic driver over the parser stack: one pass over the input,
 * character by character, proved to compute what `Generic.RunAll` says.
 */
module Driver {
  import opened Wrappers
  import opened Errors
  import opened ParseState
  import opened Generic
  import opened Accumulator

  /** The driver's outcome as a value: the accumulator reached, or the error. */
  function Outcome(aut: Automaton<Action>, s: Stack, input: string): Result<Stack, ParseError> {
    var run := RunAll(aut, Step, s, input);
    if run.Finished? then Ok(run.stack) else Err(run.error)
  }

  /**
   * _parse_deterministic: from state 0 at line 1, column 0, each character
   * selects an edge of the current state's vertex, the edge's action runs
   * on the stack, and the scanner moves to the head state (or the state the
   * action returned).  The stack itself is the result.
   */
  method ParseDeterministic(aut: Automaton<Action>, stack: ParserStack, input: string) returns (r: Result<ParserStack, ParseError>)
    modifies stack
    ensures Outcome(aut, old(stack.Value()), input).Ok? <==> r.Ok?
    ensures r.Ok? ==> r.value == stack && stack.Value() == Outcome(aut, old(stack.Value()), input).value
    ensures r.Err? ==> r.error == Outcome(aut, old(stack.Value()), input).error
  {
    if 0 !in aut {
      return Err(MissingStartState);
    }
    var node := 0;
    var line, col := 1, 0;
    var i := 0;
    while i < |input|
      invariant 0 <= i <= |input|
      invariant node in aut
      invariant RunAll(aut, Step, old(stack.Value()), input) == RunFrom(aut, Step, node, Pos(line, col), stack.Value(), input[i..])
    {
      var n := input[i];
      assert input[i..][0] == n && input[i..][1..] == input[i + 1..];
      var res := Match(aut[node], n);
      if res.None? {
        return Err(SyntaxAt(line, col, NoMatchingEdge(n)));
      }
      var fres: Option<int> := None;
      if res.value.action.Some? {
        var out := stack.Apply(res.value.action.value, n);
        if out.Raised? {
          return Err(FromAction(out.error, line, col));
        }
        fres := out.next;
      }
      var next := if fres.Some? then fres.value else res.value.head;
      if next !in aut {
        return Err(UnknownState(res.value.head));
      }
      node := next;
      if n == '\n' {
        line := line + 1;
        col := 0;
      } else {
        col := col + 1;
      }
      i := i + 1;
    }
    return Ok(stack);
  }

  /** The kinds of driver `parse` can be asked for. */
  const Deterministic := "deterministic"
  const Indeterministic := "indeterministic"

  /**
   * parse: the deterministic driver by name; the indeterministic one is not
   * implemented, and any other name is a KeyError.
   */
  method Parse(aut: Automaton<Action>, stack: ParserStack, input: string, automatonType: string) returns (r: Result<ParserStack, ParseError>)
    modifies stack
    ensures automatonType == Deterministic ==> (r.Ok? <==> Outcome(aut, old(stack.Value()), input).Ok?)
    ensures automatonType == Deterministic && r.Ok? ==> r.value == stack && stack.Value() == Outcome(aut, old(stack.Value()), input).value
    ensures automatonType == Deterministic && r.Err? ==> r.error == Outcome(aut, old(stack.Value()), input).error
    ensures automatonType == Indeterministic ==> r == Err(NotImplemented) && stack.Value() == old(stack.Value())
    ensures automatonType != Deterministic && automatonType != Indeterministic ==>
      r == Err(UnknownAutomatonType) && stack.Value() == old(stack.Value())
  {
    if automatonType == Deterministic {
      r := ParseDeterministic(aut, stack, input);
    } else if automatonType == Indeterministic {
      r := Err(NotImplemented);
    } else {
      r := Err(UnknownAutomatonType);
    }
  }
}

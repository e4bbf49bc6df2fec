/**
 * The actions the directive grammar adds: reading the directive name,
 * collecting the code, counting the declared indentation and consuming it
 * on continuation lines, and turning the collected code into a directive
 * element.
 */
module DirectiveActions {
  import opened Wrappers
  import opened Elements
  import opened Errors
  import opened ParseState

  /** The states the directive actions send the scanner to. */
  const BodyState := 42          // inside the code, outside any quote
  const QuestionState := 44      // after a `?` in the code
  const IndentQuestionState := 48  // after a `?` inside the indentation: only `>` follows

  function PushDirectiveName(s: Stack, c: char): (r: Stack)
    ensures r == s.(dchpElementName := s.dchpElementName + [c])
  {
    s.(dchpElementName := s.dchpElementName + [c])
  }

  /**
   * q30: a directive name other than "dchp" is a SyntaxError; otherwise
   * the name buffer is emptied and the declared indentation starts at 0.
   */
  function CheckDirectiveName(s: Stack): (r: Result<Stack, ActionError>)
    ensures r.Ok? <==> s.dchpElementName == "dchp"
    ensures r.Err? ==> r.error == RaisedSyntax(UnexpectedDirectiveName(s.dchpElementName))
    ensures r.Ok? ==> r.value == s.(dchpElementName := [], dchpIndent := 0)
  {
    if s.dchpElementName != "dchp" then Err(RaisedSyntax(UnexpectedDirectiveName(s.dchpElementName)))
    else Ok(s.(dchpElementName := [], dchpIndent := 0))
  }

  /** Characters go onto the code buffer. */
  function PushCode(s: Stack, piece: string): (r: Stack)
    ensures r.dchpContent == s.dchpContent + piece
    ensures r == s.(dchpContent := r.dchpContent)
  {
    s.(dchpContent := s.dchpContent + piece)
  }

  /** finalize: the code read becomes a directive child of the current node; the buffer is emptied. */
  function Finalize(s: Stack): (r: Stack)
    ensures r.current == Append(s.current, Elem(DirectiveElement(s.dchpContent)))
    ensures r == s.(current := r.current, dchpContent := [])
  {
    s.(current := Append(s.current, Elem(DirectiveElement(s.dchpContent))), dchpContent := [])
  }

  function IncrementIndent(s: Stack): (r: Stack)
    ensures r == s.(dchpIndent := s.dchpIndent + 1)
  {
    s.(dchpIndent := s.dchpIndent + 1)
  }

  function ResetIndent(s: Stack): (r: Stack)
    ensures r == s.(dchpIndent := 0)
  {
    s.(dchpIndent := 0)
  }

  /**
   * reduce_indent, on the character c at the start of a continuation line:
   * with no declared indentation c is code; otherwise c must be a space,
   * and the last space of the indentation resumes the body.  The result is
   * the new accumulator and the state overriding the edge's head, if any.
   */
  function ReduceIndent(s: Stack, c: char): (r: Result<(Stack, Option<int>), ActionError>)
    ensures s.dchpIndent == 0 ==> r == Ok((s.(dchpContent := s.dchpContent + [c]), Some(BodyState)))
    ensures s.dchpIndent != 0 && c != ' ' ==>
      r == Err(RaisedSyntax(IndentationMismatch(s.dchpIndent, s.dchpIndent - s.dchpActiveIndent)))
    ensures s.dchpIndent != 0 && c == ' ' && s.dchpActiveIndent == 1 ==> r == Ok((s, Some(BodyState)))
    ensures s.dchpIndent != 0 && c == ' ' && s.dchpActiveIndent != 1 ==>
      r == Ok((s.(dchpActiveIndent := s.dchpActiveIndent - 1), None))
  {
    if s.dchpIndent == 0 then Ok((s.(dchpContent := s.dchpContent + [c]), Some(BodyState)))
    else if c != ' ' then Err(RaisedSyntax(IndentationMismatch(s.dchpIndent, s.dchpIndent - s.dchpActiveIndent)))
    else if s.dchpActiveIndent == 1 then Ok((s, Some(BodyState)))
    else Ok((s.(dchpActiveIndent := s.dchpActiveIndent - 1), None))
  }

  /** reset_active_indent: the newline is code, and the whole declared indentation is due again. */
  function ResetActiveIndent(s: Stack, c: char): (r: Stack)
    ensures r == s.(dchpContent := s.dchpContent + [c], dchpActiveIndent := s.dchpIndent)
  {
    s.(dchpContent := s.dchpContent + [c], dchpActiveIndent := s.dchpIndent)
  }

  /** q47: a `?` inside the indentation. */
  function AfterIndentQuestion(s: Stack): (r: int)
    ensures s.dchpActiveIndent <= 1 ==> r == QuestionState
    ensures s.dchpActiveIndent > 1 ==> r == IndentQuestionState
  {
    if s.dchpActiveIndent <= 1 then QuestionState else IndentQuestionState
  }
}

/**
 * The parser stack: the accumulator the grammars' actions update in place,
 * the actions the edge tables name, and their effect as a pure step
 * function that the driver is proved against.
 */
module Accumulator {
  import opened Wrappers
  import opened Elements
  import opened Errors
  import opened ParseState
  import opened Generic
  import MA = MarkupActions
  import DA = DirectiveActions

  /** The edge actions of the three grammars. */
  datatype Action =
    // markup grammar
    | FlushText
    | OpenElement
    | OpenElementFinish
    | RecordFlag
    | RecordFlagFinish
    | RecordValue
    | CloseElement
    | FinishElement
    | FinishIfNonClosing
    | AppendText                    // the character itself
    | AppendConst(text: string)     // a fixed piece, whatever the character
    | AppendDashed(prefix: string)  // a fixed prefix, then the character
    | AppendName
    | AppendArgName
    | AppendValueChar
    // directive grammar
    | AppendDirectiveName
    | CheckDirectiveName
    | AppendCode
    | AppendQuestionAnd
    | Finalize
    | IncrementIndent
    | ResetIndent
    | ReduceIndent
    | ResetActiveIndent
    | AfterIndentQuestion
    // older markup grammar: the bare-attribute action, which names an undefined variable
    | RecordFlagUndefined

  function Lift(r: Result<Stack, ActionError>): (out: StepOutcome<Stack>)
    ensures r.Ok? ==> out == Continue(r.value, None)
    ensures r.Err? ==> out == Raise(r.error)
  {
    if r.Ok? then Continue(r.value, None) else Raise(r.error)
  }

  /** What running action a on character c does to the accumulator s. */
  function Step(a: Action, c: char, s: Stack): StepOutcome<Stack> {
    match a
    case FlushText => Continue(MA.FlushText(s), None)
    case OpenElement => Continue(MA.OpenElement(s), None)
    case OpenElementFinish => Lift(MA.OpenElementFinish(s))
    case RecordFlag => Continue(MA.RecordFlag(s), None)
    case RecordFlagFinish => Lift(MA.RecordFlagFinish(s))
    case RecordValue => Continue(MA.RecordValue(s), None)
    case CloseElement => Lift(MA.CloseElement(s))
    case FinishElement => Lift(MA.FinishElement(s))
    case FinishIfNonClosing => Lift(MA.FinishIfNonClosing(s))
    case AppendText => Continue(MA.PushText(s, [c]), None)
    case AppendConst(t) => Continue(MA.PushText(s, t), None)
    case AppendDashed(p) => Continue(MA.PushText(s, p + [c]), None)
    case AppendName => Continue(MA.PushName(s, c), None)
    case AppendArgName => Continue(MA.PushArgName(s, c), None)
    case AppendValueChar => Continue(MA.PushValueChar(s, c), None)
    case AppendDirectiveName => Continue(DA.PushDirectiveName(s, c), None)
    case CheckDirectiveName => Lift(DA.CheckDirectiveName(s))
    case AppendCode => Continue(DA.PushCode(s, [c]), None)
    case AppendQuestionAnd => Continue(DA.PushCode(s, ['?', c]), None)
    case Finalize => Continue(DA.Finalize(s), None)
    case IncrementIndent => Continue(DA.IncrementIndent(s), None)
    case ResetIndent => Continue(DA.ResetIndent(s), None)
    case ReduceIndent =>
      var r := DA.ReduceIndent(s, c);
      if r.Ok? then Continue(r.value.0, r.value.1) else Raise(r.error)
    case ResetActiveIndent => Continue(DA.ResetActiveIndent(s, c), None)
    case AfterIndentQuestion => Continue(s, Some(DA.AfterIndentQuestion(s)))
    case RecordFlagUndefined => Raise(RaisedNameError)
  }

  /** Actions other than reduce_indent and q47 never override the edge's head. */
  lemma StepKeepsHead(a: Action, c: char, s: Stack)
    requires a != ReduceIndent && a != AfterIndentQuestion
    ensures Step(a, c, s).Continue? ==> Step(a, c, s).next.None?
  {
  }

  /** The accumulator an action leaves behind when it raises. */
  function Leftover(a: Action, s: Stack): Stack {
    match a
    case CloseElement => s.(elementName := [])
    case RecordFlagFinish => MA.RecordFlag(s)
    case _ => s
  }

  /** The markup actions that change the element tree. */
  predicate TreeAction(a: Action) {
    a.FlushText? || a.OpenElement? || a.OpenElementFinish? || a.RecordFlag? || a.RecordFlagFinish? ||
    a.RecordValue? || a.CloseElement? || a.FinishElement? || a.FinishIfNonClosing?
  }

  /** The markup actions that only append to a buffer. */
  predicate BufferAction(a: Action) {
    a.AppendText? || a.AppendConst? || a.AppendDashed? || a.AppendName? || a.AppendArgName? || a.AppendValueChar?
  }

  /** What an action reports to the driver: a state overriding the edge's head, or an exception. */
  datatype Outcome = Continued(next: Option<int>) | Raised(error: ActionError)

  class ParserStack {
    var element: seq<Node>
    var elementName: string
    var argname: string
    var kwargValue: string
    var textContent: seq<string>
    var current: Node
    var dchpContent: string
    var dchpElementName: string
    var dchpIndent: int
    var dchpActiveIndent: int

    function Value(): Stack
      reads this
    {
      Stack(element, elementName, argname, kwargValue, textContent, current,
        dchpContent, dchpElementName, dchpIndent, dchpActiveIndent)
    }

    /** A stack with empty buffers whose current node is root. */
    constructor (root: Node)
      ensures Value() == Fresh(root)
    {
      element := [];
      elementName := [];
      argname := [];
      kwargValue := [];
      textContent := [];
      current := root;
      dchpContent := [];
      dchpElementName := [];
      dchpIndent := 0;
      dchpActiveIndent := 0;
    }

    method Flush()
      modifies this
      ensures Value() == MA.FlushText(old(Value()))
    {
      if !MA.Blank(textContent) {
        current := Append(current, Text(Strings.Concat(textContent)));
      }
      textContent := [];
    }

    method Open()
      modifies this
      ensures Value() == MA.OpenElement(old(Value()))
    {
      var name := MA.TagName(elementName);
      element := element + [current];
      current := ByTag(name);
      elementName := [];
    }

    method Finish() returns (err: Option<ActionError>)
      modifies this
      ensures MA.FinishElement(old(Value())).Ok? ==> err.None? && Value() == MA.FinishElement(old(Value())).value
      ensures MA.FinishElement(old(Value())).Err? ==> err == Some(RaisedIndexError) && Value() == old(Value())
    {
      if element == [] {
        return Some(RaisedIndexError);
      }
      var parent := element[|element| - 1];
      element := element[..|element| - 1];
      current := Append(parent, Elem(current));
      return None;
    }

    method FinishVoid() returns (err: Option<ActionError>)
      modifies this
      ensures MA.FinishIfNonClosing(old(Value())).Ok? ==> err.None? && Value() == MA.FinishIfNonClosing(old(Value())).value
      ensures MA.FinishIfNonClosing(old(Value())).Err? ==> err == Some(MA.FinishIfNonClosing(old(Value())).error) && Value() == old(Value())
    {
      err := None;
      if current.tag in NonClosing {
        err := Finish();
      }
    }

    method AddFlagParam()
      modifies this
      ensures Value() == MA.RecordFlag(old(Value()))
    {
      current := current.(params := AddFlag(current.params, Strings.Lower(argname)));
      argname := [];
    }

    method AddValueParam()
      modifies this
      ensures Value() == MA.RecordValue(old(Value()))
    {
      current := current.(valueParams := Store(current.valueParams, Strings.Lower(argname), VStr(kwargValue)));
      argname := [];
      kwargValue := [];
    }

    method Close() returns (err: Option<ActionError>)
      modifies this
      ensures MA.CloseElement(old(Value())).Ok? ==> err.None? && Value() == MA.CloseElement(old(Value())).value
      ensures MA.CloseElement(old(Value())).Err? ==>
        err == Some(MA.CloseElement(old(Value())).error) && Value() == old(Value()).(elementName := [])
    {
      var name := MA.TagName(elementName);
      elementName := [];
      if current.tag != name {
        return Some(RaisedSyntax(MismatchedClosingTag(current.tag, name)));
      }
      err := Finish();
    }

    method CheckName() returns (err: Option<ActionError>)
      modifies this
      ensures DA.CheckDirectiveName(old(Value())).Ok? ==> err.None? && Value() == DA.CheckDirectiveName(old(Value())).value
      ensures DA.CheckDirectiveName(old(Value())).Err? ==>
        err == Some(DA.CheckDirectiveName(old(Value())).error) && Value() == old(Value())
    {
      if dchpElementName != "dchp" {
        return Some(RaisedSyntax(UnexpectedDirectiveName(dchpElementName)));
      }
      dchpElementName := [];
      dchpIndent := 0;
      return None;
    }

    method FinalizeDirective()
      modifies this
      ensures Value() == DA.Finalize(old(Value()))
    {
      current := Append(current, Elem(DirectiveElement(dchpContent)));
      dchpContent := [];
    }

    method Reduce(c: char) returns (out: Outcome)
      modifies this
      ensures DA.ReduceIndent(old(Value()), c).Ok? ==>
        out == Continued(DA.ReduceIndent(old(Value()), c).value.1) && Value() == DA.ReduceIndent(old(Value()), c).value.0
      ensures DA.ReduceIndent(old(Value()), c).Err? ==>
        out == Raised(DA.ReduceIndent(old(Value()), c).error) && Value() == old(Value())
    {
      if dchpIndent == 0 {
        dchpContent := dchpContent + [c];
        return Continued(Some(DA.BodyState));
      }
      if c != ' ' {
        return Raised(RaisedSyntax(IndentationMismatch(dchpIndent, dchpIndent - dchpActiveIndent)));
      }
      if dchpActiveIndent == 1 {
        return Continued(Some(DA.BodyState));
      }
      dchpActiveIndent := dchpActiveIndent - 1;
      return Continued(None);
    }

    /** Runs action a on character c; `Step` says what it does. */
    method Apply(a: Action, c: char) returns (out: Outcome)
      modifies this
      ensures Step(a, c, old(Value())).Continue? ==>
        out == Continued(Step(a, c, old(Value())).next) && Value() == Step(a, c, old(Value())).stack
      ensures Step(a, c, old(Value())).Raise? ==>
        out == Raised(Step(a, c, old(Value())).error) && Value() == Leftover(a, old(Value()))
    {
      if TreeAction(a) {
        out := ApplyTree(a, c);
      } else if BufferAction(a) {
        out := ApplyBuffer(a, c);
      } else {
        out := ApplyDirective(a, c);
      }
    }

    /** The markup actions that build the element tree. */
    method ApplyTree(a: Action, c: char) returns (out: Outcome)
      requires TreeAction(a)
      modifies this
      ensures Step(a, c, old(Value())).Continue? ==>
        out == Continued(Step(a, c, old(Value())).next) && Value() == Step(a, c, old(Value())).stack
      ensures Step(a, c, old(Value())).Raise? ==>
        out == Raised(Step(a, c, old(Value())).error) && Value() == Leftover(a, old(Value()))
    {
      var err: Option<ActionError> := None;
      match a {
        case FlushText => Flush();
        case OpenElement => Open();
        case OpenElementFinish =>
          Open();
          err := FinishVoid();
        case RecordFlag => AddFlagParam();
        case RecordFlagFinish =>
          AddFlagParam();
          err := FinishVoid();
        case RecordValue => AddValueParam();
        case CloseElement => err := Close();
        case FinishElement => err := Finish();
        case FinishIfNonClosing => err := FinishVoid();
      }
      out := if err.Some? then Raised(err.value) else Continued(None);
    }

    /** The markup actions that append to a buffer. */
    method ApplyBuffer(a: Action, c: char) returns (out: Outcome)
      requires BufferAction(a)
      modifies this
      ensures Step(a, c, old(Value())).Continue? ==>
        out == Continued(Step(a, c, old(Value())).next) && Value() == Step(a, c, old(Value())).stack
      ensures Step(a, c, old(Value())).Raise? ==>
        out == Raised(Step(a, c, old(Value())).error) && Value() == Leftover(a, old(Value()))
    {
      match a {
        case AppendText => textContent := textContent + [[c]];
        case AppendConst(t) => textContent := textContent + [t];
        case AppendDashed(p) => textContent := textContent + [p + [c]];
        case AppendName => elementName := elementName + [c];
        case AppendArgName => argname := argname + [c];
        case AppendValueChar => kwargValue := kwargValue + [c];
      }
      out := Continued(None);
    }

    /** The directive actions, and the older grammar's undefined one. */
    method ApplyDirective(a: Action, c: char) returns (out: Outcome)
      requires !TreeAction(a) && !BufferAction(a)
      modifies this
      ensures Step(a, c, old(Value())).Continue? ==>
        out == Continued(Step(a, c, old(Value())).next) && Value() == Step(a, c, old(Value())).stack
      ensures Step(a, c, old(Value())).Raise? ==>
        out == Raised(Step(a, c, old(Value())).error) && Value() == Leftover(a, old(Value()))
    {
      var err: Option<ActionError> := None;
      match a {
        case AppendDirectiveName => dchpElementName := dchpElementName + [c];
        case CheckDirectiveName => err := CheckName();
        case AppendCode => dchpContent := dchpContent + [c];
        case AppendQuestionAnd => dchpContent := dchpContent + ['?', c];
        case Finalize => FinalizeDirective();
        case IncrementIndent => dchpIndent := dchpIndent + 1;
        case ResetIndent => dchpIndent := 0;
        case ReduceIndent =>
          out := Reduce(c);
          return;
        case ResetActiveIndent =>
          dchpContent := dchpContent + [c];
          dchpActiveIndent := dchpIndent;
        case AfterIndentQuestion =>
          return Continued(Some(DA.AfterIndentQuestion(Value())));
        case RecordFlagUndefined =>
          return Raised(RaisedNameError);
      }
      out := if err.Some? then Raised(err.value) else Continued(None);
    }
  }
}

/** The predicates the grammars put on their edges, as a closed set of character classes. */
module Guards {
  import opened Strings

  datatype Guard =
    | AlnumGuard      // str.isalnum
    | AlphaGuard      // str.isalpha
    | ConformGuard    // html_conform: alphanumeric or one of ? ! & % $
    | NotQuoteGuard   // any character but a double quote
    | AnyGuard        // lambda a: True

  /** The characters the newer markup grammar accepts in text besides letters and digits. */
  const HtmlAllowed: set<char> := {'?', '!', '&', '%', '$'}

  predicate HtmlConform(c: char) {
    IsAlnum(c) || c in HtmlAllowed
  }

  predicate Holds(g: Guard, c: char) {
    match g
    case AlnumGuard => IsAlnum(c)
    case AlphaGuard => IsAlpha(c)
    case ConformGuard => HtmlConform(c)
    case NotQuoteGuard => c != '"'
    case AnyGuard => true
  }
}

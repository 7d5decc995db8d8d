/**
 * ParsingError, by kind rather than by message text, plus the Java runtime
 * exceptions a parse can end in.
 */
module ParsingErrors {

  datatype ParseError =
    | InvalidCharacter
    | InvalidParenthesisStructure
    | EmptyExpression
      /** "OperatorInstance tok has no right operand" */
    | MissingRightOperand(token: string)
      /** "OperatorInstance tok has no left operand" */
    | MissingLeftOperand(token: string)
      /** An operator would take an operand that still lacks its own operands. */
    | IncompleteOperand(token: string)
      /** "Uncollapsed expression": this many pieces were left over. */
    | UncollapsedExpression(leftover: nat)
      /** An unchecked Java exception (NumberFormatException, IndexOutOfBounds, NoSuchElement). */
    | RuntimeFailure(what: string)

  /** The errors in which the reduction of a chain of atoms can end. */
  predicate ReductionError(e: ParseError) {
    e.MissingRightOperand? || e.MissingLeftOperand? || e.IncompleteOperand? ||
    e.UncollapsedExpression? || e.RuntimeFailure?
  }

  /**
   * The errors parseSubstring can end in: those of the reduction and an
   * empty list of atoms; the character and parenthesis checks come before it.
   */
  predicate TextError(e: ParseError) {
    e.EmptyExpression? || ReductionError(e)
  }
}

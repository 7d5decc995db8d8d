# Arithmancy expression parser, modelled in Dafny

Arithmancy turns a text such as `2 * sin(x) + 1` into a tree of expression
objects. Once the variables the tree depends on are set, the tree can be
calculated. This project models the core of that parser:

- **The operator registry.** Unary and binary operators are kept under their
  tokens, with the rules `addOperator` uses to refuse a clash. The model also
  covers the characters the registered tokens make valid and the default
  operator set `+ - * / ^`, `- + ln exp sin cos tg`.
- **The name tables.** Named constants (`pi`, `e`) and the per-parse table of
  variables, one cell per name.
- **Parenthesis handling.** `checkParenthesesAreCorrect` and
  `substringInParentheses`, plus the placeholder loop of `parseSubstring`.
  That loop replaces each `(...)` block by ` ATOMn ` and parses the block
  recursively.
- **The recognizer.** It classifies each atom as a placeholder, a number, a
  named constant, an operator token or a variable. An operator token that is
  both unary and binary is resolved by what precedes it.
- **The reduction.** `opsReorederedByPrecedence` orders the pending operator
  instances: highest precedence first, FUNC right to left, every other level
  left to right. Each operator then takes its neighbours out of the chain
  until one expression is left. The model follows the corrected reduction,
  where an operand must be a complete expression; the first finding below
  shows what the code as written does instead.
- **The expression tree.** Constants, named constants, variable cells and
  operator instances. Each supports completeness, the variables it depends
  on, prefix and infix rendering, and calculation.
- **The lexical patterns.** `IS_A_NUMBER`, `DEFAULT_VALID_CHARS` and the
  `ATOM` marker.

The static fields of `ExpressionParser` are the fields of one
`ExpressionParser.Parser` object. The recursive `parseSubstring` is proved
equal to a functional specification, `TextParsing.ParseText`. The properties
the parser promises are proved about that specification:

- a successful parse yields a complete tree over the parse's own variable
  cells;
- the (corrected) reduction never loses, duplicates or reorders an atom;
- every error is one of the parser's own.

Java `double` values are Dafny `real`s. The `java.lang.Math` functions the
default operators use are parameters (`ExpressionParser.MathLib`).

| file | what it holds |
|---|---|
| `Wrappers.dfy` | `Option` and `Result` |
| `JavaStrings.dfy` | the JDK string operations the parser calls: `trim`, `split(" ")`, `indexOf`, `contains`, `Integer.toString`, `Integer.valueOf` |
| `ParserEx.dfy` | the patterns of `ParserEx.java` |
| `Operators.dfy` | `Operator.Kind`, `Operator.Precedence` with `highToLow`, the `Operator` prototype |
| `Variables.dfy` | the `Variable` cell |
| `Expressions.dfy` | the expression tree |
| `ParsingErrors.dfy` | `ParsingError`, by kind |
| `Parentheses.dfy` | parenthesis depth, `checkParenthesesAreCorrect`, `substringInParentheses` |
| `Registry.dfy` | the clash rule, the valid token characters, `knownOps()`, the default operator set |
| `Recognition.dfy` | placeholders, the recognizer, the chain of atoms |
| `Chains.dfy` | `opsReorederedByPrecedence` and the reduction loop |
| `TextParsing.dfy` | `parseSubstring` as a function, and the loop invariants that tie the method to it |
| `ExpressionParser.dfy` | the parser's state and its operations |

## Model

| member | source | states |
|---|---|---|
| ParserEx.DigitRun | src/arithmancy/ParserEx.java:10 | the greedy `\d+` run: all digits, and the next character (if any) is not a digit |
| ParserEx.IsNumberShape | src/arithmancy/ParserEx.java:10 | IS_A_NUMBER accepts exactly one or more digits, optionally followed by one dot and zero or more digits |
| ParserEx.NumberHasAtMostOneDot | src/arithmancy/ParserEx.java:10 | an accepted number holds at most one dot |
| ParserEx.IsNumberExamples | tests/arithmancy/ParserExTest.java:17-30 | "", "1as" and "112..43" are rejected; "1" and "12.7" are accepted; "2." is a number and ".5" is not |
| ParserEx.NumberValue | src/arithmancy/ExpressionParser.java:90-92 | `Double.valueOf` of an accepted literal is non-negative |
| ParserEx.NumberValueOfDecimal | src/arithmancy/ExpressionParser.java:90-92 | a dot-free literal denotes the integer its digits spell |
| JavaStrings.Decimal | src/arithmancy/ExpressionParser.java:74 | `Integer.toString` of a count is non-empty, all digits, with no leading zero |
| JavaStrings.DecimalRoundTrip | src/arithmancy/ExpressionParser.java:74 | the digits of the rendering spell the number back |
| JavaStrings.ParseInt | src/arithmancy/ExpressionParser.java:87 | `Integer.valueOf` gives a 32-bit value from a non-empty text, or fails |
| JavaStrings.DecimalParseRoundTrip | src/arithmancy/ExpressionParser.java:72-87 | the placeholder number written for a block reads back as the same number |
| JavaStrings.LeadingBlanks | src/arithmancy/ExpressionParser.java:74 | the prefix `trim` drops is blank, and the next character is not |
| JavaStrings.TrailingBlanks | src/arithmancy/ExpressionParser.java:74 | the suffix `trim` drops is blank, and the character before it is not |
| JavaStrings.Trim | src/arithmancy/ExpressionParser.java:74 | `trim` is the slice between those runs, and starts and ends with a visible character |
| JavaStrings.TrimFrame | src/arithmancy/ExpressionParser.java:74 | the text is blanks + trimmed text + blanks |
| JavaStrings.Pieces | src/arithmancy/ExpressionParser.java:78 | the texts between single spaces: at least one, none holding a space |
| JavaStrings.JoinPieces | src/arithmancy/ExpressionParser.java:78 | joining the pieces with single spaces gives the text back |
| JavaStrings.DropTrailingEmpty | src/arithmancy/ExpressionParser.java:78 | only trailing empty pieces are dropped, and what is kept ends in a non-empty piece |
| JavaStrings.Split | src/arithmancy/ExpressionParser.java:78 | `split(" ")` gives the whole text when it has no space, and otherwise a prefix of its pieces; no atom holds a space |
| JavaStrings.Find | src/arithmancy/ExpressionParser.java:66 | `indexOf` gives the first position where the needle occurs, or None when it occurs nowhere |
| JavaStrings.ContainsSameLength | src/arithmancy/ExpressionParser.java:290-291 | between tokens of equal length, `contains` is equality |
| Operators.ValuesComplete | src/arithmancy/Operator.java:104-112 | `values()` lists every precedence |
| Operators.InsertDescendingSpec | src/arithmancy/Operator.java:135 | inserting into the TreeSet ordered by `v2.val - v1.val` keeps it strictly descending, and it holds exactly the old elements and the new one |
| Operators.SortDescendingSpec | src/arithmancy/Operator.java:135-136 | `addAll` yields a strictly descending set of exactly the elements added |
| Operators.HighToLow | src/arithmancy/Operator.java:129-138 | `highToLow` is strictly descending by value and holds every precedence |
| Operators.HighToLowOrder | src/arithmancy/Operator.java:104-138 | `highToLow` is POW, FUNC, MUL, ADD (values 30, 20, 10, 1) |
| Operators.Operator.Binary | src/arithmancy/Operator.java:158-164 | the binary constructor gives kind BINARY, with the token, precedence and two-argument transform passed |
| Operators.Operator.Unary | src/arithmancy/Operator.java:166-172 | the unary constructor gives kind UNARY, with the token, precedence and one-argument transform passed |
| Variables.Variable.constructor | src/arithmancy/Variable.java:31-33 | a new cell has its name and is unset |
| Variables.Variable.Calculate | src/arithmancy/Variable.java:42-45 | succeeds exactly when the cell is set; otherwise fails with VariableNotSet naming the variable |
| Variables.Variable.GetValueOrEmpty | src/arithmancy/Variable.java:70-72 | empty exactly when unset, and otherwise the value `calculate` returns |
| Variables.Variable.SetValue | src/arithmancy/Variable.java:85-87 | afterwards the cell is set and `calculate` returns the value |
| Variables.Variable.UnsetValue | src/arithmancy/Variable.java:93 | afterwards `isSet` is false and `calculate` fails with VariableNotSet |
| Expressions.NewInstance | src/arithmancy/Operator.java:25-34 | a new instance copies kind, precedence and token from its prototype and is incomplete |
| Expressions.DependsOnVariables | src/arithmancy/Operator.java:47-58 | exactly the names of the cells the tree reaches through the operands its kind uses |
| Expressions.Calculate | src/arithmancy/Operator.java:36-45 | succeeds exactly when every reachable variable is set; otherwise fails with VariableNotSet naming an unset reachable variable |
| Expressions.CalculateReportsFirstUnset | src/arithmancy/Operator.java:36-45 | the variable a failing `calculate` names is the first unset cell in evaluation order, the left operand before the right |
| Expressions.InstanceApplies | src/arithmancy/Operator.java:36-45 | an instance applies its unary transform to the right value, or its binary transform to (left, right) |
| Expressions.ConstantLeaves | src/arithmancy/NamedConstant.java:6-49 | constants are complete; a constant is its value and depends on no variable; a named constant renders as its name and a plain one as its number, in both forms |
| Expressions.VariableLeaf | src/arithmancy/Variable.java:47-68 | a variable is complete, depends on exactly its own name and renders as that name in both forms |
| Expressions.RenderingsBalanced | src/arithmancy/Operator.java:72-92 | both renderings, `tok(r)`, `tok(l,r)` and `(l tok r)`, are balanced when no name holds a parenthesis |
| Expressions.RenderingsBracketEachInstance | src/arithmancy/Operator.java:72-92 | each operator instance opens exactly one parenthesis in either rendering, so both renderings hold as many `(` as the tree has instances |
| Expressions.RenderingsAgreeWhenUnary | src/arithmancy/Operator.java:72-92 | on a tree without binary instances the prefix and infix renderings are the same text |
| Expressions.CalculateAfterSettingAll | src/arithmancy/Variable.java:42-45 | once every name in `dependsOnVariables` maps to a set cell, `calculate` succeeds |
| Parentheses.CheckParenthesesAreCorrect | src/arithmancy/ExpressionParser.java:196-214 | -1 exactly when the text is balanced; otherwise the first index where the depth goes negative, or the length when only openers are left unclosed |
| Parentheses.BlockAt | src/arithmancy/ExpressionParser.java:178-190 | the text after a `(` of a balanced string, up to a `)`, is itself balanced |
| Parentheses.BlockUnique | src/arithmancy/ExpressionParser.java:178-190 | only one balanced text followed by `)` follows that `(` |
| Parentheses.SubstringInParentheses | src/arithmancy/ExpressionParser.java:178-190 | returns that balanced text, which ends right before a `)` |
| Parentheses.BalancedInnerIsMatching | src/arithmancy/ExpressionParser.java:181-188 | scanning from the `(`, the depth stays positive inside and reaches zero at the closing `)` |
| Recognition.TrimKeepsStructure | src/arithmancy/ExpressionParser.java:74 | trimming keeps the balance and the number of `(` |
| Recognition.SubstitutedShrinks | src/arithmancy/ExpressionParser.java:66-75 | replacing a block by its placeholder keeps the text balanced and removes that block's `(` and all those inside it, so the loop ends |
| Recognition.PlaceholderTarget | src/arithmancy/ExpressionParser.java:85-88 | a placeholder atom names a block already parsed, or the parse ends in a runtime exception |
| Recognition.PlaceholderNamesBlock | src/arithmancy/ExpressionParser.java:72-74 | the placeholder written for block n names block n |
| Recognition.ChoiceFollowsLeftOperand | src/arithmancy/ExpressionParser.java:98-121 | a token of one kind is read as that kind; a token of both kinds is read as binary exactly when the chain so far ends in a complete expression |
| Recognition.RecognizeSound | src/arithmancy/ExpressionParser.java:85-124 | each atom becomes a complete expression or a new instance, over cells of the variable table |
| Recognition.FirstFailure | src/arithmancy/ExpressionParser.java:81-88 | None exactly when no atom's recognition throws; otherwise a runtime exception |
| Recognition.FirstFailureSticks | src/arithmancy/ExpressionParser.java:81-88 | the atoms after the first one that throws change nothing |
| Recognition.ChainOf | src/arithmancy/ExpressionParser.java:77-126 | the chain has one link per atom, with identity = position |
| Recognition.ChainOfExtend | src/arithmancy/ExpressionParser.java:124 | a larger variable table builds the same chain |
| Recognition.ChainOfStep | src/arithmancy/ExpressionParser.java:81-126 | one recognizer round appends the next atom's link |
| Recognition.FirstFailureAt | src/arithmancy/ExpressionParser.java:85-88 | the loop ends with the exception of the first failing atom |
| Recognition.ChainOfLinks | src/arithmancy/ExpressionParser.java:81-126 | every link is complete or a new instance, over the table's cells |
| Recognition.ParseAtomsSound | src/arithmancy/ExpressionParser.java:77-149 | the parse of the atoms is a complete tree over the table's cells, or one of the parser's own errors; a runtime failure only when an atom names a missing block |
| Chains.LevelPass | src/arithmancy/ExpressionParser.java:166-172 | one pass collects only operators of that level |
| Chains.Ordered | src/arithmancy/ExpressionParser.java:163-173 | the passes collect only pending instances |
| Chains.OpsReorderedByPrecedence | src/arithmancy/ExpressionParser.java:157-176 | the order is the passes of every level, highest first, over the unchanged chain |
| Chains.CollectLevel | src/arithmancy/ExpressionParser.java:166-173 | one pass appends the level's pending instances, walking backwards for FUNC and forwards otherwise |
| Chains.OrderIsPending | src/arithmancy/ExpressionParser.java:152-176 | the order holds exactly the pending instances of the chain |
| Chains.OrderDescends | src/arithmancy/ExpressionParser.java:163 | precedences never rise along the order |
| Chains.OrderWithinLevel | src/arithmancy/ExpressionParser.java:165-172 | within a level, FUNC instances run right to left and all others left to right |
| Chains.OrderedDistinct | src/arithmancy/ExpressionParser.java:163-173 | no instance is listed twice |
| Chains.BackwardIsReversed | src/arithmancy/ExpressionParser.java:166 | the descending iterator visits the level in reversed order |
| Chains.IndexOf | src/arithmancy/ExpressionParser.java:129 | `indexOf` gives the first position of that identity, or None when it is absent |
| Chains.StepOutcome | src/arithmancy/ExpressionParser.java:130-135 | last position: no right operand; binary at position 0: no left operand; a successful step shortens the chain by one (unary) or two (binary) |
| Chains.ReduceInOrder | src/arithmancy/ExpressionParser.java:128-149 | the loop over the order, then the collapse check, as `Reduced` |
| Chains.ReduceChain | src/arithmancy/ExpressionParser.java:128-149 | the reduction of the chain in precedence order |
| Chains.StepKeeps | src/arithmancy/ExpressionParser.java:128-136 | a round keeps the operators still to run as members, and all other elements complete; it keeps the chain's atoms and never ends in a runtime exception |
| Chains.ReduceAllSound | src/arithmancy/ExpressionParser.java:128-136 | the loop leaves complete elements holding the chain's atoms |
| Chains.ReducedSound | src/arithmancy/ExpressionParser.java:128-149 | the reduction never ends in a runtime exception, and on success the tree is complete and holds exactly the chain's atoms in written order |
| Chains.ReducedCells | src/arithmancy/ExpressionParser.java:128-149 | the tree reaches only cells the chain reached |
| Chains.ReducedErrors | src/arithmancy/ExpressionParser.java:128-149 | failures are missing or incomplete operands, leftover pieces or a runtime exception |
| Chains.BinaryBetweenOperands | src/arithmancy/ExpressionParser.java:128-149 | `x op y` reduces to the binary instance over x and y |
| Chains.UnaryBeforeOperand | src/arithmancy/ExpressionParser.java:128-149 | `op y` reduces to the unary instance over y |
| Chains.PowerOfFunctionAsWritten | src/arithmancy/ExpressionParser.java:128-149 | as written, "2 ^ sin 3" reduces to the constant 3; the corrected reduction reports the incomplete operand |
| Registry.AddKeepsNoClash | src/arithmancy/ExpressionParser.java:288-299 | adding an entry that clashes with none keeps the registry clash-free |
| Registry.TokensDoNotOverlap | src/arithmancy/ExpressionParser.java:288-292 | in a clash-free registry a token occurs inside another only when the two are equal, which needs different kinds |
| Registry.KnownOps | src/arithmancy/ExpressionParser.java:363-374 | `knownOps()` leaves the cache filled with what it returns |
| Registry.TokenCharsAdd | src/arithmancy/ExpressionParser.java:256 | appending a token adds exactly its characters |
| Registry.AddedTokenCharsStale | src/arithmancy/ExpressionParser.java:285-305 | as written, after `addOperator` the valid characters are those of the registry before the addition |
| Registry.PercentStaysInvalid | src/arithmancy/ExpressionParser.java:254-305 | as written, `%` stays invalid after the binary `%` is added to an empty registry |
| Registry.DefaultOrderAt | src/arithmancy/ExpressionParser.java:226-248 | the k-th operator in registration order |
| Registry.DefaultPrefixEmpty | src/arithmancy/ExpressionParser.java:224 | nothing is registered before the first default |
| Registry.DefaultOrderDistinct | src/arithmancy/ExpressionParser.java:226-248 | no default is registered twice |
| Registry.DefaultOrderAcceptable | src/arithmancy/ExpressionParser.java:226-248 | every default token is non-empty and lower-case |
| Registry.DefaultOrderComplete | src/arithmancy/ExpressionParser.java:226-248 | the registration order covers every default entry |
| Registry.NextDefaultAccepted | src/arithmancy/ExpressionParser.java:226-248 | each default clashes with none of those before it, so `addOperator` accepts it |
| Registry.DefaultEntriesOfTables | src/arithmancy/ExpressionParser.java:226-248 | the default entries are the tokens of the two default tables under their kinds |
| Registry.DefaultsCompatible | src/arithmancy/ExpressionParser.java:226-248 | the default operators are clash-free |
| Registry.SubsetAccepts | src/arithmancy/ExpressionParser.java:288-292 | an entry of a clash-free set is accepted by any part of the rest |
| TextParsing.NextBlock | src/arithmancy/ExpressionParser.java:66-74 | None exactly when no `(` is left; otherwise the block and the rest are balanced and hold fewer `(` |
| TextParsing.ParseTextParenFree | src/arithmancy/ExpressionParser.java:66-79 | a text without parentheses goes straight to its atoms |
| TextParsing.ParseTextExtend | src/arithmancy/ExpressionParser.java:124 | a table with more variables gives the same parse |
| TextParsing.ParseTextSound | src/arithmancy/ExpressionParser.java:63-150 | a parse is a complete tree over the table's cells, or one of `parseSubstring`'s own errors |
| TextParsing.ParseTextOutcome | src/arithmancy/ExpressionParser.java:58 | after the two checks, the parse is never a character or parenthesis error, and a success is complete over the table's cells |
| TextParsing.ParseLoopSound | src/arithmancy/ExpressionParser.java:65-75 | the placeholder loop keeps every parsed block complete, so the parse is sound |
| TextParsing.Replay | src/arithmancy/ExpressionParser.java:66-75 | the text the loop reaches is balanced |
| TextParsing.LoopRound | src/arithmancy/ExpressionParser.java:69-74 | a block that parses joins the parsed blocks |
| TextParsing.LoopRoundFails | src/arithmancy/ExpressionParser.java:71 | a block whose parse fails ends the parse with its error |
| TextParsing.LoopEnd | src/arithmancy/ExpressionParser.java:66-78 | once no `(` is left, the text is split into atoms |
| TextParsing.ReplayLoop | src/arithmancy/ExpressionParser.java:66-75 | the parse of the whole text is the parse of the text reached, with the blocks parsed so far |
| TextParsing.RoundOutcome | src/arithmancy/ExpressionParser.java:66-75 | one round, from the whole text: a failing block ends the parse, and a parsed one extends the replay |
| TextParsing.ExitOutcome | src/arithmancy/ExpressionParser.java:75-79 | at the loop's end, the parse of the whole text is the outcome of the remaining atoms |
| TextParsing.ParseTextFilesNames | src/arithmancy/ExpressionParser.java:123-124 | a parse that succeeds has filed a cell for every variable name of the text, through `addNewVariable` |
| TextParsing.ReplayNames | src/arithmancy/ExpressionParser.java:66-75 | the variable atoms the placeholder loop can still meet are variable atoms of the original text |
| ExpressionParser.FindBlock | src/arithmancy/ExpressionParser.java:66-74 | the next block and the substituted text, as `NextBlock` |
| ExpressionParser.BinaryTableOfDefaults | src/arithmancy/ExpressionParser.java:226-234 | the binary defaults with their precedences and transforms |
| ExpressionParser.UnaryTableOfDefaults | src/arithmancy/ExpressionParser.java:236-248 | the unary defaults, all at FUNC, with their transforms |
| ExpressionParser.Parser.constructor | src/arithmancy/ExpressionParser.java:382-385 | the static initializer leaves the default operators, `pi` and `e`, and no variables |
| ExpressionParser.Parser.ClearKnownOperators | src/arithmancy/ExpressionParser.java:264-269 | both tables are emptied and only the default characters are valid |
| ExpressionParser.Parser.ClearedRejectsSum | tests/arithmancy/TestArithmeticParser.java:15-20 | after clearing, "1 + 1" fails the character check |
| ExpressionParser.Parser.ClearedValidChars | src/arithmancy/ParserEx.java:14 | with no token registered, a text passes the character check exactly when it matches `DEFAULT_VALID_CHARS` |
| ExpressionParser.Parser.RecalculateValidChars | src/arithmancy/ExpressionParser.java:254-259 | the valid token characters are those of all registered tokens |
| ExpressionParser.Parser.ConflictsWithKnown | src/arithmancy/ExpressionParser.java:288-292 | the scan finds a clash exactly when one exists |
| ExpressionParser.Parser.AddOperator | src/arithmancy/ExpressionParser.java:282-307 | accepted exactly when non-null, non-empty, and already registered or lower-case with no clash; on success filed under its token in the table of its kind; the registry stays clash-free |
| ExpressionParser.Parser.AddDefaultBinary | src/arithmancy/ExpressionParser.java:226-234 | a binary default is accepted and filed |
| ExpressionParser.Parser.AddDefaultUnary | src/arithmancy/ExpressionParser.java:236-248 | a unary default is accepted and filed |
| ExpressionParser.Parser.LoadDefaultBinaries | src/arithmancy/ExpressionParser.java:226-234 | the five binary defaults are registered |
| ExpressionParser.Parser.LoadDefaultUnaries | src/arithmancy/ExpressionParser.java:236-248 | the seven unary defaults are registered |
| ExpressionParser.Parser.LoadDefaultKnownOperators | src/arithmancy/ExpressionParser.java:223-252 | the registry holds exactly the default operators, with their precedences and transforms |
| ExpressionParser.Parser.AddNamedConstant | src/arithmancy/ExpressionParser.java:327-333 | a known name is never replaced, and the answer says whether its value matches; a new name is added |
| ExpressionParser.Parser.ResetNamedConstants | src/arithmancy/ExpressionParser.java:309-313 | only `pi` and `e` are left |
| ExpressionParser.Parser.AddNewVariable | src/arithmancy/ExpressionParser.java:335-341 | a known name gives its own cell; a new one gives a new unset cell filed under it |
| ExpressionParser.Parser.SetVariable | src/arithmancy/ExpressionParser.java:350-353 | an unknown name is UnknownVariable; otherwise that cell calculates to the value |
| ExpressionParser.Parser.UnsetAllVariables | src/arithmancy/ExpressionParser.java:315-317 | every known variable is unset |
| ExpressionParser.Parser.RecognizeAtom | src/arithmancy/ExpressionParser.java:85-125 | the recognizer's verdict on one atom; it files a new variable only under the atom itself, and only when the atom is no placeholder, number, named constant or operator token |
| ExpressionParser.Parser.Recognizer | src/arithmancy/ExpressionParser.java:81-126 | the chain of the atoms, or the first atom's exception; every name it files is a variable atom among the atoms |
| ExpressionParser.Parser.ParseAtomsOf | src/arithmancy/ExpressionParser.java:77-149 | no atoms is EmptyExpression; otherwise recognize, then reduce; every name it files is a variable atom among the atoms |
| ExpressionParser.Parser.ParseSubstring | src/arithmancy/ExpressionParser.java:63-150 | the result is the functional parse `ParseText`; the registry and constants are unchanged, and new variables are new unset cells filed under variable atoms of the text or of its blocks (`VariableNames`) |
| ExpressionParser.Parser.Parse | src/arithmancy/ExpressionParser.java:48-59 | the variable table is cleared; InvalidCharacter exactly when a character is invalid; InvalidParenthesisStructure exactly when the characters are valid but the text is unbalanced; otherwise the parse, whose success is complete over the new unset variables; the table then holds only variable names of the text, and after a success exactly those, so `setVariable` of any other name is UnknownVariable |

## Left out

- `preprocessExpression` (lower-casing and the regular-expression rewriting) is not modelled. `Parse` takes the text as already normalised.
- Floating point: `double` is `real`, and the `java.lang.Math` functions and the division of `/` are parameters. `Double.toString` is the parameter `show` of the renderings. NaN and rounding are not modelled.
- `ParsingError` message texts and the `Uncollapsed expression` listing are not modelled; errors are kinds (`ParsingErrors.ParseError`).
- `Main.java`, `ExampleOfUse.java` and `Function.java` are not part of this model: they are console programs and dead code.
- Operator tokens are never `null` here. A `null` operator is modelled (`Operator?`), but a `null` token is not.
- `setVariable` with a `null` `Double` is not modelled; the value is a `real`.
- The `knownOpsCache` memo is modelled only in `Registry.KnownOps` and the finding below. The parser's state reads the registry directly.
- ExpressionParser.Parser.ParseSubstring: a Java runtime exception is an error value. It is proved absent from the reduction (`Chains.ReducedSound`), but not from a placeholder that names a missing block.
- The static fields are the fields of one `Parser` object.
- `loadDefaultKnownOperators` is split into `LoadDefaultBinaries`, `LoadDefaultUnaries` and their per-operator helpers. It still runs the same twelve `addOperator` calls in source order.
- Chains.Step: models the corrected reduction step of `ExpressionParser.java:128-136`, not the code as written. It fails with IncompleteOperand when a neighbour is an operator instance still waiting for its operands, where the code takes that instance as the operand. An operator missing from the chain is RuntimeFailure("indexOf"); the code instead goes on with index -1. Missing operands are still reported as the code does, the right one first and then, for a binary operator in the first position, the left one, before any completeness test. Only `Chains.StepAsWritten` follows the code.
- Chains.ReduceInOrder, Chains.ReduceChain, Chains.ReducedSound, Chains.ReducedCells, Chains.ReducedErrors: these inherit the corrected step above. Their promises (no lost atom, complete trees, IncompleteOperand among the errors) are about the corrected reduction, not about lines 128-136 as written.
- Recognition.ParseAtomsSound, TextParsing.ParseText, TextParsing.ParseTextSound, TextParsing.ParseTextOutcome, TextParsing.ParseLoopSound: these also use the corrected reduction, so a parse such as "2 ^ sin 3" is IncompleteOperand here and not the constant 3.
- ExpressionParser.Parser.ParseSubstring, ExpressionParser.Parser.Parse, ExpressionParser.Parser.ParseAtomsOf: the same; they parse with the corrected reduction.
- Chains.StepAsWritten, Chains.ReduceAllAsWritten, Chains.ReducedAsWritten: these model the code's missed completeness check and its index -1 on values, so they do not capture aliasing. In Java, `chain.get(-1 + 1)` at line 131 is the chain's first element, which may already sit inside another tree. Making it the operand of a consumed instance changes that tree in place. On "x sin ^ 2 + y" Java thus returns the complete tree `(sin x ^ 2) + y`, while `ReducedAsWritten` returns `+` over `^` over a `sin` with no operand. On "2 ^ sin 3" Java builds a cycle (the power's right operand is `sin`, whose right operand is the power), which a value tree cannot hold. `Chains.PowerOfFunctionAsWritten` shows only what the chain holds afterwards.
- ExpressionParser.Parser.AddOperator: its `Valid()` keeps the valid token characters equal to those of every registered token, which is the corrected behaviour of the second finding.
- ExpressionParser.Parser.AddOperator, JavaStrings.IsLowerCase: the upper-case test rejects only the ASCII capitals A-Z. Java's `token.equals(token.toLowerCase())` (`ExpressionParser.java:286`) also refuses tokens with other capitals such as "Ω" or "É", which the model accepts.
- ExpressionParser.Parser.RecalculateValidChars: models the corrected behaviour. It reads the registry rather than the possibly stale cache; see the findings.
- Expressions.ToLispString and Expressions.ToInfixString: these are definitions; their properties are stated in `Expressions.ConstantLeaves`, `Expressions.VariableLeaf`, `Expressions.RenderingsBalanced`, `Expressions.RenderingsBracketEachInstance` and `Expressions.RenderingsAgreeWhenUnary`.
- `incomplete()` is `!complete()`, and `Precedence.descending()` is `highToLow`; the source calls both without defining them.

## Findings

| source | as written | input that shows it | evidently intended | confidence | as-written member | corrected member |
|---|---|---|---|---|---|---|
| src/arithmancy/ExpressionParser.java:128-136 | the reduction takes a neighbour as an operand without checking that it is complete; an operator already consumed is then not found (`indexOf` is -1) and takes the chain's first element as its right operand; that element may already be inside another tree, which is then changed in place (on "2 ^ sin 3" the tree becomes a cycle) | "2 ^ sin 3": the parse returns the constant 3 | an operand must be a complete expression; otherwise the parse fails | not executed | Chains.PowerOfFunctionAsWritten | Chains.ReducedSound |
| src/arithmancy/ExpressionParser.java:285-305 | `addOperator` fills `knownOpsCache` at line 285 and then calls `recalculateValidChars`, which reads that cache; the cache is emptied only at line 305, so the new token's characters are not valid | after `clearKnownOperators`, adding the binary `%`: every text containing `%` is then an invalid character | the new operator's characters become valid | not executed | Registry.PercentStaysInvalid | ExpressionParser.Parser.AddOperator |

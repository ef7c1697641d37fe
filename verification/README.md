# ClassAd library: a verified model

This project models the core of the ClassAd library (version 1.0.10) in Dafny 4.11 and proves what
its parts promise each other. `dafny verify dfyconfig.toml` checks all of it.

The parts, in the order they build on one another:

- **Expressions and evaluation.** `Text`, `Expressions` and `Operators` hold strings as the C library
  compares them, expression trees and values, and every operator; `OperatorMeanings` says what the
  operators compute, in numbers, binary digits, dictionary order and truth values. `Evaluation` is the
  depth-limited evaluator as a function; `Evaluator` is the same thing as a program over an evaluation
  state. The recursion limit never changes an answer, and evaluation ends on cyclic definitions. `Scoping`
  says which ad each name is looked up in. `SingleAd` says when evaluation in one ad cannot fail.
- **Partial evaluation.** `Flattening` models `Flatten` and `combine`: a result is a folded value, a
  tree, or a constant split off a tree. Flattening keeps the meaning in every extension of the ad in
  which the operators it reorders meet operands on which they associate and commute, if no node that
  mixes two kinds of split loses a constant that matters. Which constants matter, which constants may
  be regrouped and which operands a decided connective may drop is stated exactly, operator by operator.
  `Folding` says how much is computed: exactly what the ad determines is folded, nothing that it determines
  is left inside a tree, and the constants of a nest of one operator are gathered into one.
- **Printer and parser.** `Grammar` and `Printing` work on tokens, `Lexing`, `Escapes`, `Decimal` and
  `Rendering` on characters. `Parser`, `Unparser` and `Lexer` are the source's recursive-descent
  parser, unparser and string tokenizer as objects with buffers and positions, proved against those
  functions. `RoundTrip` and `TextRoundTrip` show that printing and parsing undo each other, and
  `Misreadings` says exactly which negations, selections and integers do not come back. `Precedence` says
  how operators group without the table of levels, and `Spellings` how every token is written and what
  the parser makes of input that the printer does not produce.
- **Views.** `Members` and `Rosters` hold the ordered member set and its key index; `Views` the tree
  of views as a value; `LiveViews` the tree as objects that update themselves, proved against it.
  `ViewTheorems` shows that incremental maintenance gives what a plain filter of the table gives;
  `Traces` follows a single key through the tree, and says when it is shown rightly, even in a tree that
  other keys have left half changed; `RankOrder` says what the order of members is;
  `ViewRegistry` that the registry names exactly the views; `Queries` what a query returns.
- **Collections.** `Sessions` says what a collection looks like to its callers: a transaction holds what was
  asked for while it was current, in that order, and committing it does the same as asking directly;
  `Updates` is the library's rule for update requests. `Transactions` is commit and undo on the table alone; `Collections` the whole state
  with log and recovery; `LiveCollections` the same as an object. `Orderly` keeps table and views in
  step and `Skeletons` keeps the shape of the tree, where views have no partitions; `RepeatedKeys` says
  what a failed commit leaves of the views there when it touches a key twice. `Partitions` and `Atomicity`
  take failed commits to trees with partitions, where the views may refuse too, and `Crowding` holds the
  inputs on which they do. `Runs` is sequences of requests and what they log.
  `ExactRecovery` says when the log of any run of answered requests replays, and that it then rebuilds
  exactly the state, with whatever partitions; `Recovery` covers runs with failed requests, in trees
  without partitions; `Compaction` is the same of the compacted log.
- **Storage.** `StorageLines` and `IndexFiles` are the storage file as bytes with tombstoned lines and an
  offset index; `Caches` is the bounded write-back cache over it, which refines a plain map. `StorageText`
  shows that the library's own printer, lexer and parser are a faithful way to store an ad as one line.
- **Times.** `RelTimes` and `RelTimeParser` print and parse relative times; `Gregorian` numbers days.

Where the code does not meet a property that one would expect of it, the model keeps the code as it is,
gives an input that shows it, and proves when the property does hold:

- a partitioned view that an ad leaves while its signature changes keeps the ad in the old partition or
  throws (`ViewTheorems.LeavingCounterexample`, `ViewTheorems.ModifiedCurrent`);
- a boolean or undefined rank that changes breaks the member set (`Rosters.BooleanRankCounterexample`,
  `Rosters.UndefinedRankCounterexample`, `Rosters.RerankSound`);
- a failed transaction that touches a key twice is not undone, or the undo runs off the end of the table
  (`Transactions.RepeatedKeyCounterexample`, `Transactions.CrashCounterexample`; exactly when:
  `Transactions.RunsOffExactly`, `Transactions.RestoredExactly`, `Orderly.FailedCommitExactly`), and the
  views are left with a member too many (`RepeatedKeys.EnrolledTwiceCounterexample`; exactly when:
  `RepeatedKeys.FailedCommitViews`);
- a failed transaction on distinct keys is not undone in the views if a change it made brought an ad into a
  partitioned view (`Atomicity.PartitionedUndoCounterexample`), nor in the table if the views refused to
  file an ad that was to be changed or replaced (`Crowding.ViewsRefuseCounterexample`; exactly when, of
  both: `Atomicity.RefusedCommitExactly`);
- a request that the views refuse changes the table without being logged, so that the log no longer
  rebuilds it (`Crowding.RefusedUpdateCounterexample`; exactly when: `Atomicity.RefusedDirectExactly`,
  `ExactRecovery.RebuiltExactly`);
- a transaction name committed twice, or a refused request about views, makes the log unreadable
  (`Recovery.ReusedNameCounterexample`, `Recovery.RefusedDropCounterexample`; exactly when:
  `ExactRecovery.AnsweredRunRebuilds`, `Recovery.RecoveryExactly`);
- the compacted log rebuilds the tree with siblings reversed (`Compaction.CompactedLogReplays`);
- `Flatten` drops a constant at a mixed node (`Flattening.MixedCounterexample`; exactly when that makes
  a difference: `Operators.DroppableExactly`);
- it regroups constants on which that is not allowed (`Flattening.StringOperandCounterexample`,
  `Flattening.ReassociationExactly`) and folds a connective whose other operand is an error
  (`Flattening.ErrorOperandCounterexample`, `Flattening.AbsorptionExactly`) or no truth value
  (`Folding.FoldedShortCircuit`), and it moves a constant of a
  connective in front of an operand that would have decided (`Flattening.FrontedCounterexample`,
  `Flattening.FrontedExactly`);
- a full parse accepts anything after a conditional expression (`RoundTrip.FullParseTolerates`);
- names that start with a digit or other odd character, and reserved words, do not come back when printed
  (`TextRoundTrip.NameComesBack`);
- a minus sign before a digit is read as part of the number, a selection from an integer as a malformed
  number, and an integer beyond 32 bits is clamped (`Misreadings.MinusComesBack`,
  `Misreadings.SelectionComesBack`, `Misreadings.IntegerComesBack`).

Ads, constraints, ranks and signatures of the view and collection parts are abstract total functions of
the ad (`Views.Semantics`, `Transactions.Rules`). Which ad the cache puts out, and in which order a table is
walked, are left open, so the results hold for every choice. Integers and reals are mathematical.

## Model

| member | source | states |
|---|---|---|
| Operators.ShiftNegativeRight | classads-1.0.10/operators.cpp:1094-1106 | shifting a negative number right one position at a time, keeping the sign bit, is division by a power of two rounded down |
| Operators.BitsCommute | classads-1.0.10/operators.cpp:1053-1077 | and, or and exclusive or on two's complement integers commute |
| Operators.BitsAssociate | classads-1.0.10/operators.cpp:1053-1077 | and, or and exclusive or on two's complement integers associate |
| Operators.OperateCommutes | classads-1.0.10/operators.cpp:172-320 | every reassociable operator commutes on the operands flattening may reorder, exceptional values included |
| Operators.OperateAssociates | classads-1.0.10/operators.cpp:172-320 | every reassociable operator associates on those operands, across integers, reals and exceptional values |
| Operators.NeutralGivesBack | classads-1.0.10/operators.cpp:172-320 | a neutral constant of each reassociable operator gives back the other operand, booleans under a sum or product as numbers |
| Operators.DroppableExactly | classads-1.0.10/operators.cpp:723-763 | leaving out the constant of an inner operator makes no difference to the outer one, for all operands on which they are well behaved, exactly if the constant is neutral or, across kinds of operators, of a kind that gives the outer one no operand |
| Operators.NeutralIsNotEnough | classads-1.0.10/operators.cpp:723-763 | a zero added under a bitwise or may not be left out: with true as the other operand the sum is a number and the boolean is not |
| OperatorMeanings.NumbersCompare | classads-1.0.10/operators.cpp:1419-1493 | the eight comparisons of numbers, of whatever types and booleans as 0 and 1, are those of the real numbers they stand for |
| OperatorMeanings.LexicographicOrder | classads-1.0.10/operators.cpp:1310-1418 | the comparison of two strings has the sign of their first difference, a proper prefix coming first |
| OperatorMeanings.StringsCompare | classads-1.0.10/operators.cpp:1310-1418 | strings compare in dictionary order without regard to case, and under is and isnt by being the same |
| OperatorMeanings.IsMeans | classads-1.0.10/operators.cpp:771-875 | is and isnt are never exceptional on scalars, and tell undefined, errors, numbers and strings apart |
| OperatorMeanings.StrictOperators | classads-1.0.10/operators.cpp:172-320 | the other operators give an error if an operand is one, else undefined if an operand is |
| OperatorMeanings.IntegerArithmetic | classads-1.0.10/operators.cpp:877-972 | integer results are exact, a quotient is cut off towards zero, a remainder has the sign of the dividend, and division by zero is an error |
| OperatorMeanings.RealArithmetic | classads-1.0.10/operators.cpp:1128-1186 | one real operand makes the result real; reals have no remainder |
| OperatorMeanings.UnaryOperators | classads-1.0.10/operators.cpp:172-320 | what each prefix operator gives on each type of value |
| OperatorMeanings.BitwiseDigits | classads-1.0.10/operators.cpp:1053-1077 | at every place the digit of the result is the or, and, or exclusive or of the digits |
| OperatorMeanings.Shifts | classads-1.0.10/operators.cpp:1077-1110 | shifts multiply, divide rounding down, and divide the 32-bit pattern read without sign |
| OperatorMeanings.Connectives | classads-1.0.10/operators.cpp:974-1051 | && gives the lesser and || the greater of false, undefined and true, and an error counts unless the first operand has decided |
| Evaluation.DeeperKeepsValue | classads-1.0.10/attrrefs.cpp:153-199 | a value found with some recursion depth is found with every greater depth, for every expression and scope |
| Scoping.PlainReference | classads-1.0.10/classad.cpp:440-485 | a plain reference has the value that its nearest binding outwards has in the ad where it stands, whatever the root, and is undefined without one |
| Scoping.AbsoluteReference | classads-1.0.10/attrrefs.cpp:349-366 | an absolute reference is looked up from the root, whatever the scope, and fails without a root |
| Scoping.ReservedNames | classads-1.0.10/classad.cpp:440-485 | self, parent, root and toplevel denote the ad, the ad around it and the root, where the ad does not bind them |
| Scoping.Selection | classads-1.0.10/attrrefs.cpp:367-383 | a selection looks its attribute up as a plain reference inside the selected ad would; from undefined it is undefined, from other values an error |
| Scoping.NestedAd | classads-1.0.10/classad.cpp:440-485 | an attribute of a nested ad is evaluated with that ad as innermost scope, and one it does not have is looked for outside |
| Evaluator.EvalState.SetScopes | classads-1.0.10/exprTree.cpp:165-195 | the root scope is the outermost ad of the chain of parents |
| Evaluator.EvalState.LookupInScope | classads-1.0.10/classad.cpp:440-485 | the loop outwards through the scopes finds what the lookup function finds, special names included |
| Evaluator.EvalState.Evaluate | classads-1.0.10/attrrefs.cpp:153-199 | evaluation terminates on every ad, cyclic or not, computes the evaluation function, and leaves current ad and depth as they were, succeeding or not, in every state with a root |
| Evaluator.EvalState.EvaluateBinary | classads-1.0.10/operators.cpp:322-404 | with short-circuiting, operands are evaluated only as far as the evaluation function says |
| Evaluator.EvalState.EvaluateTernary | classads-1.0.10/operators.cpp:322-404 | the conditional operator evaluates one arm on a boolean condition and both otherwise |
| Evaluator.EvalState.EvaluateTarget | classads-1.0.10/attrrefs.cpp:153-199 | following a reference uses up one level of depth and gives it back, and restores the current ad on every exit but the one without a root |
| Evaluator.EvaluateIn | classads-1.0.10/exprTree.cpp:76-88 | evaluation from outside starts with the full depth and fails without a scope |
| SingleAd.AcyclicEvaluates | classads-1.0.10/attrrefs.cpp:153-199 | in an ad whose definitions form no longer chains than the depth, every simple expression has a value |
| SingleAd.SelfReferenceFails | classads-1.0.10/attrrefs.cpp:153-199 | an attribute defined as itself has no value at any depth |
| Flattening.CombineKeepsMeaning | classads-1.0.10/operators.cpp:623-767 | combining two flattened operands under an operator keeps the meaning, for every form of the two, mixed ones that lose a droppable constant included |
| Flattening.FlattenKeepsMeaning | classads-1.0.10/operators.cpp:542-622 | the flattened form, constant split off or not, means what the expression evaluates to in every extension of the ad |
| Flattening.FlattenTernaryKeepsMeaning | classads-1.0.10/operators.cpp:1621-1762 | so does the special flattening of a conditional |
| Flattening.FlattenPreservesEvaluation | classads-1.0.10/operators.cpp:542-767 | the flattened expression evaluates as the original does in every extension of the ad, if no mixed node loses a constant that matters |
| Folding.FoldsExactly | classads-1.0.10/operators.cpp:542-767 | flattening gives a value exactly where the ad determines one, references followed and deciding connectives counted, and gives that value |
| Folding.ClosedFolds | classads-1.0.10/attrrefs.cpp:316-341 | an expression all of whose references are bound, with no undefined condition on the way, is folded |
| Folding.KnownIsRun | classads-1.0.10/operators.cpp:542-767 | the value folded is the one that evaluation gives in every guarded extension of the ad |
| Folding.FreeReference | classads-1.0.10/attrrefs.cpp:305-314 | a reference that the ad does not bind is left as it is |
| Folding.FoldedShortCircuit | classads-1.0.10/operators.cpp:542-622 | false && "s" folds to an error, though it evaluates to false |
| Folding.NothingLeft | classads-1.0.10/operators.cpp:542-767 | what is left as a tree contains nothing, at any place, that the ad determines, but literals and undefined conditions |
| Folding.Gathers | classads-1.0.10/operators.cpp:623-767 | a nest of a reassociable operator becomes one constant, the combination of all its constants, and the other operands in order |
| Flattening.MixedDropsConstant | classads-1.0.10/operators.cpp:723-763 | what any mixed node computes: the operator applied to one operand and the other one's tree without its constant |
| Flattening.MixedCounterexample | classads-1.0.10/operators.cpp:723-763 | (x + 1) + (y * 2) flattens to something that gives 7 instead of 12 |
| Flattening.MixedKeepsMeaning | classads-1.0.10/operators.cpp:723-763 | a mixed node keeps the meaning if the constant it loses may be dropped |
| Flattening.ReassociationExactly | classads-1.0.10/operators.cpp:623-722 | regrouping two constants is right for every operand exactly if one is an error, the first is undefined, or both are operands on which the operator is well behaved |
| Flattening.AbsorptionExactly | classads-1.0.10/operators.cpp:542-622 | folding a connective decided by its right operand is right exactly if the left one is boolean or undefined |
| Flattening.FrontedExactly | classads-1.0.10/operators.cpp:623-722 | moving the right operand of a connective to the front is right exactly if neither operand decides while the other is an error or no truth value |
| Flattening.FrontedConstant | classads-1.0.10/operators.cpp:623-722 | a constant may be moved to the front, whatever truth value or undefined it meets, exactly if it is a truth value or undefined |
| Flattening.FrontedCounterexample | classads-1.0.10/operators.cpp:623-722 | x && error becomes an error where it was false |
| Flattening.StringOperandCounterexample | classads-1.0.10/operators.cpp:623-722 | (x + "s") + 1 becomes an error where it was undefined |
| Flattening.ErrorOperandCounterexample | classads-1.0.10/operators.cpp:542-622 | x && false folds to false where it was an error |
| RoundTrip.ParseOfUnparse | classads-1.0.10/source.cpp:333-1292 | parsing the printed tokens of any tree with proper precedences gives that tree and consumes everything |
| RoundTrip.ParsedExpression | classads-1.0.10/source.cpp:333-380 | every tree the parser returns has proper precedences |
| RoundTrip.ParsedTier | classads-1.0.10/source.cpp:381-777 | every tree of a binary tier has proper precedences too, at that tier or above |
| RoundTrip.ParsedAttributes | classads-1.0.10/source.cpp:1149-1234 | the attributes of a parsed ad have distinct, non-empty names |
| RoundTrip.ReparseIsIdentity | classads-1.0.10/source.cpp:333-1292 | parsing, printing and parsing again gives what the first parse gave |
| RoundTrip.FullParseTolerates | classads-1.0.10/source.cpp:333-380 | a full parse accepts a printed tree with something after it that does not continue the expression exactly if nothing follows or the tree is a conditional |
| RoundTrip.FullParseCounterexample | classads-1.0.10/source.cpp:333-380 | a conditional followed by a stray parenthesis passes for a complete expression |
| Precedence.TwoOperators | classads-1.0.10/source.cpp:381-777 | of two binary operators in a row the first takes its operands first exactly if it stands in the same one of ten listed sets as the second or in a later one |
| Precedence.PrefixOperators | classads-1.0.10/source.cpp:778-891 | prefix operators bind more than binary ones and less than selections and subscripts |
| Precedence.LooseConditional | classads-1.0.10/source.cpp:333-380 | conditionals bind less than binary operators |
| Precedence.NestedConditionals | classads-1.0.10/source.cpp:333-380 | conditionals group to the right |
| Parser.ClassAdParser.ParseExpression | classads-1.0.10/source.cpp:333-380 | the method gives what the grammar function gives and leaves the same rest, full parse or not |
| Parser.ClassAdParser.ParseTier | classads-1.0.10/source.cpp:381-777 | the loop of each binary tier builds left-associated trees as the grammar function does |
| Parser.ClassAdParser.ParseUnary | classads-1.0.10/source.cpp:778-822 | prefix operators nest as the grammar function nests them |
| Parser.ClassAdParser.ParsePostfix | classads-1.0.10/source.cpp:823-891 | the loop of selections and subscripts builds what the grammar function builds |
| Parser.ClassAdParser.ParsePrimary | classads-1.0.10/source.cpp:893-1091 | literals, references, calls, parentheses, ads and lists are parsed as the grammar function parses them |
| Parser.ClassAdParser.ParseItems | classads-1.0.10/source.cpp:1093-1147 | argument and element lists are collected in order, with the same refusals |
| Parser.ClassAdParser.ParseAttributes | classads-1.0.10/source.cpp:1149-1234 | attributes are inserted in order, later ones replacing earlier ones of the same name |
| Escapes.UnescapeOfEscape | classads-1.0.10/util.cpp:133-222 | every NUL-free byte string is recovered from its escaped form, octal escapes included |
| Escapes.ClosingQuoteOfEscape | classads-1.0.10/lexer.cpp:501-566 | the closing quote found after an escaped text is the one written after it, whatever backslash runs it holds |
| Lexer.ConvertEscapes | classads-1.0.10/util.cpp:133-222 | the copying loop converts escapes as the unescaping function does, and refuses an escape that denotes NUL |
| Lexer.ConvertEscape | classads-1.0.10/util.cpp:151-212 | one escape denotes the character, and takes the number of characters, that the function says |
| Lexer.Scanner.Wind | classads-1.0.10/lexer.cpp:132-144 | moves one character on and accumulates it, stopping at the end |
| Lexer.Scanner.ReadToQuote | classads-1.0.10/lexer.cpp:512-524 | the inner loop stops at the first quote that no odd run of backslashes protects |
| Lexer.Scanner.AnotherQuote | classads-1.0.10/lexer.cpp:527-541 | looking past white space finds an adjacent quoted text and otherwise leaves the next token to be read |
| Lexer.Scanner.TokenizeString | classads-1.0.10/lexer.cpp:501-566 | the tokenizer gives the token and the rest that the scanning function gives, adjacent quoted texts joined |
| TextRoundTrip.LexOfText | classads-1.0.10/lexer.cpp:156-260 | lexing the printed text of a tree, whatever follows, gives the tree's tokens and leaves what follows |
| TextRoundTrip.LexQuoted | classads-1.0.10/lexer.cpp:501-566 | a quoted text is lexed to the token of the text that was quoted |
| TextRoundTrip.ParseOfText | classads-1.0.10/sink.cpp:254-480 | lexing and parsing the printed text of a tree gives that tree |
| TextRoundTrip.NameComesBack | classads-1.0.10/sink.cpp:487-504 | a name printed and lexed comes back exactly if it starts with a letter or underscore and is not reserved |
| TextRoundTrip.MinusJoinsNumber | classads-1.0.10/lexer.cpp:213-240 | a unary minus printed before a natural number is read back as the negative literal |
| Misreadings.ParsedOpening | classads-1.0.10/source.cpp:333-1091 | the first token read is the one the leftmost leaf or bracket of the parsed tree is printed as |
| Misreadings.MinusComesBack | classads-1.0.10/lexer.cpp:216-311 | a printed negation comes back exactly if the text of its operand does not start with a digit |
| Misreadings.SelectionComesBack | classads-1.0.10/lexer.cpp:349-377 | a printed selection comes back exactly if its base is not an integer literal |
| Misreadings.IntegerComesBack | classads-1.0.10/lexer.cpp:394-409 | a printed integer comes back exactly if 32 bits hold it |
| Spellings.EqualitySpellings | classads-1.0.10/lexer.cpp:570-798 | ==, !=, =?=, =!= and = are each read as their own token |
| Spellings.OrderSpellings | classads-1.0.10/lexer.cpp:570-798 | so are the four order comparisons |
| Spellings.ShiftSpellings | classads-1.0.10/lexer.cpp:570-798 | so are the three shifts |
| Spellings.BitSpellings | classads-1.0.10/lexer.cpp:570-798 | so are bitwise operators and connectives |
| Spellings.ArithmeticSpellings | classads-1.0.10/lexer.cpp:570-798 | so are arithmetic operators |
| Spellings.Words | classads-1.0.10/lexer.cpp:450-495 | the six reserved words are recognised in either case, and every other word is itself |
| Spellings.MinusBeforeDigits | classads-1.0.10/lexer.cpp:216-311 | a minus sign before digits is an operator after each of the tokens that end an operand, and otherwise begins a number |
| Spellings.BlankIsSkipped | classads-1.0.10/lexer.cpp:164-208 | any run of white space of six kinds is skipped |
| Spellings.QuotedTwice | classads-1.0.10/lexer.cpp:501-566 | two quoted texts with white space between them are read as one |
| Spellings.LetterEscapes | classads-1.0.10/util.cpp:133-222 | seven letters stand for control characters, other characters for themselves |
| Spellings.ThreeOctalDigits | classads-1.0.10/util.cpp:133-222 | an octal escape of three digits denotes the byte they count, and is refused for NUL |
| Spellings.TwoOctalDigits | classads-1.0.10/util.cpp:133-222 | so does one of two digits, where three would not fit or do not follow |
| Spellings.EscapedIsPrintable | classads-1.0.10/sink.cpp:114-166 | the text of any string consists of printable characters |
| Spellings.PlainStays | classads-1.0.10/sink.cpp:114-166 | printable characters other than quote and backslash are printed as they are |
| Spellings.InsertMeans | classads-1.0.10/classad.cpp:344-371 | inserting an attribute changes what its name, in either case, is bound to, and nothing else |
| Spellings.ManySemicolons | classads-1.0.10/source.cpp:1149-1234 | any number of semicolons may stand between attributes and after the last |
| Spellings.LeadingSemicolons | classads-1.0.10/source.cpp:1149-1234 | semicolons may come before the first attribute, but an ad may not consist of them |
| Spellings.PrintedOperators | classads-1.0.10/sink.cpp:254-422 | how operators are laid out around their operands |
| Spellings.PrintedAd | classads-1.0.10/sink.cpp:436-468 | how ads are laid out |
| Unparser.ClassAdUnParser.UnparseString | classads-1.0.10/sink.cpp:114-166 | appends the escaped string between quotes |
| Unparser.ClassAdUnParser.UnparseName | classads-1.0.10/sink.cpp:487-504 | appends a name, quoted when it has to be, and restores the delimiter |
| Unparser.ClassAdUnParser.Unparse | classads-1.0.10/sink.cpp:254-322 | appends exactly the text of the expression |
| Unparser.ClassAdUnParser.UnparseItems | classads-1.0.10/sink.cpp:423-435 | appends the elements separated by commas |
| Unparser.ClassAdUnParser.UnparseAttributes | classads-1.0.10/sink.cpp:436-468 | appends the attributes separated by semicolons |
| Members.StrictWeakOrder | classads-1.0.10/view.cpp:88-128 | the comparison of members is irreflexive, asymmetric, transitive and negatively transitive, for ranks of every type |
| Members.TiedMeans | classads-1.0.10/view.cpp:88-128 | members tie exactly if their ranks compare equal and, for boolean, number and string ranks, their keys are the same |
| Members.PlacedSorted | classads-1.0.10/view.cpp:890-892 | inserting keeps the members sorted |
| RankOrder.BeforeMeans | classads-1.0.10/view.cpp:88-128 | members are ordered by the kind of rank, then numbers by size and strings in dictionary order without case, then by key |
| RankOrder.PlacedBehindTies | classads-1.0.10/view.cpp:890-892 | a new member is placed behind all that it ties with |
| Rosters.EnrolSound | classads-1.0.10/view.cpp:890-892 | inserting a new key keeps members sorted and in step with the index |
| Rosters.DismissSound | classads-1.0.10/view.cpp:1046-1054 | removing a key keeps members sorted and in step with the index |
| Rosters.RerankSound | classads-1.0.10/view.cpp:945-960 | replacing a rank keeps members and index in step exactly if the old rank is not a boolean made a number, nor an undefined, error or ad rank that another member shares |
| Rosters.RerankSteady | classads-1.0.10/view.cpp:945-960 | for number and string ranks the members stay sorted, in step, and carry the ad's present rank |
| Rosters.BooleanRankCounterexample | classads-1.0.10/view.cpp:945-960 | a boolean rank that changes leaves a second member for the key |
| Rosters.UndefinedRankCounterexample | classads-1.0.10/view.cpp:945-960 | an undefined rank that becomes defined takes other members out |
| ViewTheorems.InsertedCurrent | classads-1.0.10/view.cpp:823-895 | after a successful insertion every view and partition below holds what a filter of the content gives |
| ViewTheorems.DeletedCurrent | classads-1.0.10/view.cpp:1039-1074 | deletion leaves the tree current exactly if the signature is unchanged wherever the ad is a member, and then does not throw |
| ViewTheorems.ModifiedCurrent | classads-1.0.10/view.cpp:921-1036 | modification leaves the tree current exactly if no view is left under a changed signature, and then does not throw |
| ViewTheorems.MovedCurrent | classads-1.0.10/view.cpp:962-1011 | an ad whose signature changes moves to the partition of the new one, and the missing-partition exception is not reached |
| ViewTheorems.CreatedUnderCurrent | classads-1.0.10/view.cpp:571-613 | a view created anywhere in the tree holds what its constraint selects from its parent |
| ViewTheorems.DiscardedCurrent | classads-1.0.10/view.cpp:697-713 | removing a view leaves the others current |
| ViewTheorems.HoldsExactlyTheMatching | classads-1.0.10/view.cpp:823-1074 | a view holds exactly the keys whose ads satisfy every constraint from the root down to it, each member in exactly the partition of its signature |
| ViewTheorems.UndividedModified | classads-1.0.10/view.cpp:921-1036 | a modification of a tree whose views have no partitions always succeeds |
| ViewTheorems.LeavingCounterexample | classads-1.0.10/view.cpp:1023-1026 | an ad that leaves a partitioned view while its signature changes reaches the exception |
| Traces.InsertedAside | classads-1.0.10/view.cpp:823-895 | inserting an ad, even if it is refused half way, changes nothing that any view or partition shows of another key |
| Traces.ModifiedAside | classads-1.0.10/view.cpp:921-1036 | neither does modifying one |
| Traces.ModifiedRight | classads-1.0.10/view.cpp:921-1036 | in a tree that need be right about this key only, a modification that succeeds leaves it right exactly if it is clean, a clean one does not throw, and a refused one never leaves it right |
| Traces.RefusedInsertion | classads-1.0.10/view.cpp:823-895 | a refused insertion leaves no trace of the key exactly if the first view to file the ad is the one that refuses, and then changes nothing at all |
| ViewRegistry.InsertedNames | classads-1.0.10/view.cpp:859-887 | after an insertion, successful or not, the registry holds each name of the tree once and nothing more |
| ViewRegistry.ModifiedNames | classads-1.0.10/view.cpp:962-1011 | the same after a modification |
| ViewRegistry.CreatedUnderNames | classads-1.0.10/view.cpp:571-613 | the same after creating a view |
| ViewRegistry.UnregisteredNames | classads-1.0.10/view.cpp:783-800 | deleting a view takes exactly its names and those below it out of the registry |
| ViewRegistry.DiscardedNames | classads-1.0.10/view.cpp:697-713 | the registry still names exactly the tree after a view is removed |
| LiveViews.LiveView.ClassAdInserted | classads-1.0.10/view.cpp:823-895 | the object changes to what the insertion function makes of the tree, registry and status included |
| LiveViews.LiveView.ClassAdPreModify | classads-1.0.10/view.cpp:899-917 | every view of the tree notes the signature |
| LiveViews.LiveView.ClassAdModified | classads-1.0.10/view.cpp:921-1036 | the object changes to what the modification function makes of the tree |
| LiveViews.LiveView.ReplaceRank | classads-1.0.10/view.cpp:945-960 | erasing the old rank as the comparison left it and inserting the new one is the rank replacement of the roster |
| LiveViews.LiveView.ClassAdDeleted | classads-1.0.10/view.cpp:1039-1074 | the object changes to what the deletion function makes of the tree, or the exception is reached |
| LiveViews.LiveView.InsertSubordinateView | classads-1.0.10/view.cpp:571-613 | the new first sub-view is filled with the members of its parent |
| LiveViews.LiveView.DeleteSubordinateView | classads-1.0.10/view.cpp:697-713 | the first sub-view of that name is removed and unregistered |
| LiveViews.LiveView.DeleteView | classads-1.0.10/view.cpp:783-800 | the names of the view and all below it leave the registry |
| Queries.Query | classads-1.0.10/query.cpp:94-127 | the loop over the members collects the keys of those that satisfy the query, in order |
| Queries.QueryAnswers | classads-1.0.10/query.cpp:54-140 | a query returns exactly the keys whose ads satisfy every constraint down to the view and the query, on both sides for a two-way query by an ad; each once, lower ranks first and level ones by key |
| Transactions.UndoneValue | classads-1.0.10/transaction.cpp:122-165 | whatever the undo leaves, each key has what the last operation on it found |
| Transactions.RunsOffExactly | classads-1.0.10/transaction.cpp:122-165 | the undo uses an iterator past the end exactly if some operation that is no removal follows, on its key, one that found nothing, or comes first on a key whose last operation is a removal |
| Transactions.RestoredExactly | classads-1.0.10/transaction.cpp:85-173 | the undo restores the table exactly if no operation is of that kind and the last operation on each key found what was there at the start |
| Transactions.DistinctRestored | classads-1.0.10/transaction.cpp:85-173 | undoing operations on distinct keys restores the table |
| Transactions.RepeatedKeyCounterexample | classads-1.0.10/transaction.cpp:122-165 | two operations on one key leave the table changed after a failed commit |
| Transactions.CrashCounterexample | classads-1.0.10/transaction.cpp:148-158 | adding and then updating one key makes the undo use an iterator past the end |
| Skeletons.CreatedUnderBare | classads-1.0.10/collectionBase.cpp:492-516 | creating a view succeeds exactly if its parent is there and its name is new, and adds one leaf to the shape of the tree |
| Skeletons.SameMembership | classads-1.0.10/view.cpp:823-1074 | two trees of one shape, current over the same ads, hold the same keys everywhere |
| Orderly.PlayInOrder | classads-1.0.10/collectionBase.cpp:613-850 | an operation succeeds exactly if the table has what it needs, and changes table and views together |
| Orderly.CommitInOrder | classads-1.0.10/transaction.cpp:85-173 | a commit does all its operations or fails; failed on distinct keys, it leaves the table and every view's membership as they were; in trees without partitions |
| Orderly.FailedCommitExactly | classads-1.0.10/transaction.cpp:85-173 | a failed commit crashes exactly if an operation done is one whose undo runs off the end, and otherwise restores the table exactly if the last operation on each key found what was there before |
| Sessions.HoldsWhatWasAsked | classads-1.0.10/transaction.cpp:57-69 | after any run an open transaction holds exactly the operations asked for while it was current, in the order of the requests |
| Sessions.WholeTransaction | classads-1.0.10/collectionBase.cpp:1377-1441 | from opening to close, with requests on other transactions in between: nothing shows before the close, a commit answers and leaves the state as committing the operations asked for does, an abort leaves everything, and the name is free again |
| Sessions.CommitsInTurn | classads-1.0.10/transaction.cpp:85-173 | opening, asking and committing succeeds exactly if each operation in turn finds what it needs, and then leaves the table that doing them in turn makes |
| Sessions.CommitIsDirect | classads-1.0.10/transaction.cpp:85-173 | in any collection, what a successful commit does is what the same operations asked for directly do |
| Sessions.SwitchSelects | classads-1.0.10/collection.cpp:309-317 | after a switch the next operation goes to the transaction switched to and to no other, or is direct |
| Sessions.ClosedIsStillCurrent | classads-1.0.10/collectionBase.cpp:1405-1441 | after its close a transaction is still current by name, and operations are refused |
| Sessions.DirectRequests | classads-1.0.10/collectionBase.cpp:1010-1342 | what adding, updating, modifying and removing directly make of the table and the log |
| Updates.Update | classads-1.0.10/classad.cpp:585-595 | the loop over the attributes of the other ad computes the updating function |
| Updates.UpdatedMeans | classads-1.0.10/classad.cpp:585-595 | after an update each name is bound as the other ad has it or, if that does not have it, as before |
| Updates.UpdateRequest | classads-1.0.10/collectionBase.cpp:1145-1210 | an update request changes exactly the attributes it names, of exactly the ad it names |
| RepeatedKeys.FailedCommitViews | classads-1.0.10/transaction.cpp:122-165 | a failed commit that does not crash leaves the views in order over the table it leaves exactly if no removal is undone while its key is there with an ad that the root takes, as it takes the one put back |
| RepeatedKeys.EnrolledTwiceCounterexample | classads-1.0.10/transaction.cpp:128-147 | an ad removed and added again before the commit fails is lost from the table and left over in the root |
| Orderly.ViewCreatedInOrder | classads-1.0.10/collectionBase.cpp:492-516 | creating a view keeps the collection in order, and is refused exactly if the parent is missing or the name is taken |
| Orderly.ViewDroppedInOrder | classads-1.0.10/collectionBase.cpp:550-570 | deleting a view succeeds exactly if a view other than the root has that name, keeps the collection in order, and changes nothing when refused |
| Atomicity.FailedCommitAtomic | classads-1.0.10/transaction.cpp:85-173 | in a tree with any partitions, where they have room for the ads that are made, a commit of changes on distinct keys that are clean in both directions succeeds exactly if each operation finds the ad it needs, and otherwise leaves the table as it was and every view current over it |
| Atomicity.RefusedCommitExactly | classads-1.0.10/transaction.cpp:85-173 | any commit on distinct keys, carried forward cleanly and then stopped, for want of an ad or by the views: the table is as it was exactly if the stopping operation wanted an ad or added a new one, and is given otherwise; the views are current over it exactly if all that was done is taken back cleanly and the stopping operation wanted an ad or stopped at the first view to file its ad; about other keys they are right if all is taken back cleanly |
| Atomicity.RefusedDirectExactly | classads-1.0.10/collectionBase.cpp:1051-1278 | a refused operation outside a transaction leaves the collection alone exactly if it wanted an ad, or it adds an ad, stops at the first view to file it, and replaces none that the root held |
| Crowding.ViewsRefuseCounterexample | classads-1.0.10/view.cpp:962-1011 | an update clean in both directions is refused because the name of its partition is taken, and the failed commit leaves the table changed |
| Atomicity.PartitionedUndoCounterexample | classads-1.0.10/transaction.cpp:122-165 | an update that brings an ad into a partitioned view makes the undo of a failed commit reach the exception |
| Runs.XactionReplayed | classads-1.0.10/collectionBase.cpp:287-318 | replaying a transaction's records commits it once, and fails if its name was committed before |
| Runs.MomentMonotone | classads-1.0.10/collection.cpp:382-418 | a longer part of the log shows a later moment of the run, and the whole log the last one |
| ExactRecovery.StepExact | classads-1.0.10/collectionBase.cpp:236-377 | under any rules, what a request logs gives exactly the state it left, table, views, partitions and registry, if and only if it was done, or refused without effect, and commits no name committed before |
| ExactRecovery.AnsweredRunRebuilds | classads-1.0.10/collection.cpp:382-418 | under any rules, the log of a run of answered requests replays exactly if no committed name was used again, and then rebuilds exactly the final state |
| ExactRecovery.RebuiltExactly | classads-1.0.10/collection.cpp:382-418 | the log of a run rebuilds the state after every request exactly if every request was done, or refused without effect, and no committed name was used again |
| Crowding.RefusedUpdateCounterexample | classads-1.0.10/collectionBase.cpp:1180-1192 | after two requests on an empty collection an update is refused by the views and not logged, and the log no longer rebuilds the table |
| ExactRecovery.PrefixRebuilds | classads-1.0.10/collection.cpp:382-418 | every prefix of that log replays to exactly the state at the moment it shows, never to part of a transaction |
| ExactRecovery.RecoverThenContinue | classads-1.0.10/collection.cpp:382-418 | a log written after a recovery, appended to the log before it, rebuilds the final state |
| Recovery.HandleLive | classads-1.0.10/collectionBase.cpp:1010-1441 | every request, switching transactions included, keeps the collection in order and never crashes, if failing commits touch distinct keys and new views have no partitions |
| Recovery.RunHolds | classads-1.0.10/collectionBase.cpp:1010-1441 | after any such run every view holds exactly the keys whose ads satisfy every constraint down to it, and the registry names exactly the views |
| Recovery.StepLinked | classads-1.0.10/collectionBase.cpp:236-377 | what a request logs, done or refused, can be replayed exactly if it commits no name committed before, creates a new view under one that is there, or drops a view that is there; then live and recovered collections agree again |
| Recovery.RecoveryExactly | classads-1.0.10/collection.cpp:382-418 | the log of a run replays exactly if every request was of that kind, and then to the same table and the same views |
| Recovery.RecoveredViewsAgree | classads-1.0.10/collection.cpp:382-418 | after recovery every view holds the keys it held |
| Recovery.EveryPrefixRecovers | classads-1.0.10/collection.cpp:382-418 | every prefix of the log replays to the table and the views as they stood at the moment it shows, never to part of a transaction |
| Recovery.ReusedNameCounterexample | classads-1.0.10/collectionBase.cpp:314-319 | two commits under one name succeed and leave a log that cannot be replayed |
| Recovery.RefusedDropCounterexample | classads-1.0.10/collectionBase.cpp:550-570 | dropping a view that is not there is refused, and leaves a log that cannot be replayed |
| Compaction.ViewsReplayed | classads-1.0.10/collectionBase.cpp:1644-1691 | the records of the views plant the mirror image of their tree |
| Compaction.CompactedLogReplays | classads-1.0.10/collectionBase.cpp:1558-1691 | the compacted log replays from empty to the same table, the same registry, and the same views with siblings reversed, all in order |
| Compaction.CompactedViewsAgree | classads-1.0.10/collectionBase.cpp:1558-1691 | each view, found where the reversed order puts it, holds the keys it held |
| Compaction.CompactionAfterRun | classads-1.0.10/collectionBase.cpp:1558-1691 | so it does after any run, even one whose own log cannot be replayed |
| LiveCollections.ClassAdCollection.PlayClassAdOp | classads-1.0.10/collectionBase.cpp:613-850 | the object changes to what playing the operation makes of its state |
| LiveCollections.ClassAdCollection.AddClassAd | classads-1.0.10/collectionBase.cpp:1010-1143 | adds to the current transaction or to the collection, logs success, and puts a replaced ad back into the table when the views refuse |
| LiveCollections.ClassAdCollection.UpdateClassAd | classads-1.0.10/collectionBase.cpp:1145-1210 | updates as specified, refusing a missing key without logging |
| LiveCollections.ClassAdCollection.ModifyClassAd | classads-1.0.10/collectionBase.cpp:1213-1278 | modifies as specified, refusing a missing key without logging |
| LiveCollections.ClassAdCollection.RemoveClassAd | classads-1.0.10/collectionBase.cpp:1281-1342 | removes as specified; a missing key succeeds without logging |
| LiveCollections.ClassAdCollection.OpenTransaction | classads-1.0.10/collectionBase.cpp:1377-1402 | opens and makes current a transaction whose name is not in use |
| LiveCollections.ClassAdCollection.SetCurrentTransaction | classads-1.0.10/collection.cpp:309-317 | makes current an open transaction or none, and refuses any other name |
| LiveCollections.ClassAdCollection.CloseTransaction | classads-1.0.10/collectionBase.cpp:1405-1441 | aborts, or commits and logs, and forgets the transaction |
| LiveCollections.ClassAdCollection.CommitOps | classads-1.0.10/transaction.cpp:85-173 | the two loops, forward with backups and forward again to undo, do what the commit function says |
| LiveCollections.ClassAdCollection.WriteTransaction | classads-1.0.10/transaction.cpp:176-240 | appends the open record, every operation and the commit record |
| LiveCollections.ReadLogFile | classads-1.0.10/collection.cpp:408-418 | the loop over the records replays them until one fails |
| LiveCollections.LogViews | classads-1.0.10/collectionBase.cpp:1644-1691 | writes the views below one, parents first |
| LiveCollections.LogAds | classads-1.0.10/collectionBase.cpp:1599-1633 | writes one record for each ad, whatever the order of the table |
| StorageLines.ReadsBack | classads-1.0.10/indexfile.cpp:127-154 | every indexed offset reads back the text stored for its key |
| StorageLines.KilledLine | classads-1.0.10/indexfile.cpp:199-229 | overwriting the first character of a line takes just its key out of the index and of what is stored |
| StorageLines.AddedLine | classads-1.0.10/indexfile.cpp:171-185 | a line appended for a key with none is indexed at the old end of the file |
| IndexFiles.IndexFile.GetClassadFromFile | classads-1.0.10/indexfile.cpp:127-154 | the byte-reading loop returns the stored text, or nothing for a dead line |
| IndexFiles.IndexFile.FindInFile | classads-1.0.10/indexfile.cpp:187-197 | finds the offset of exactly the stored keys |
| IndexFiles.IndexFile.DeleteFromStorageFile | classads-1.0.10/indexfile.cpp:199-229 | one character of the file changes in place, at the indexed offset, so that just this key is no longer stored |
| IndexFiles.IndexFile.WriteBack | classads-1.0.10/indexfile.cpp:171-185 | the text goes to the end of the file and replaces what was stored for the key, with one live line for each key |
| IndexFiles.IndexFile.Rescan | classads-1.0.10/collectionBase.cpp:100-107 | scanning the file from the start rebuilds the index |
| IndexFiles.IndexFile.ReadStorageEntry | classads-1.0.10/collectionBase.cpp:1820-1850 | skips dead lines and gives offset and key of the next live one and where to read on; at the end of the file it finds none |
| StorageText.TextOnOneLine | classads-1.0.10/sink.cpp:254-480 | the printed text of an expression never contains a line break |
| StorageText.EntryReadBack | classads-1.0.10/collectionBase.cpp:1938-1954 | the line written for a key and an ad is live, and reading and parsing it gives both back |
| StorageText.TextCodecFaithful | classads-1.0.10/collectionBase.cpp:1721-1760 | printing and parsing meet what the cache asks of its storage, for every ad that can be written |
| Caches.EvictedKeeps | classads-1.0.10/collectionBase.cpp:1858-1893 | whichever ad is put out, written back if changed, the collection holds the same ads |
| Caches.FetchedKeeps | classads-1.0.10/collectionBase.cpp:1693-1762 | bringing a stored ad into memory changes nothing but where it is held |
| Caches.EnteredKeeps | classads-1.0.10/collectionBase.cpp:1051-1143 | an ad entered and marked changed replaces what was held for its key |
| Caches.CachedCollection.MaybeSwapOutClassAd | classads-1.0.10/collectionBase.cpp:1858-1893 | makes room below the bound of five without changing the collection |
| Caches.CachedCollection.SwitchInClassAd | classads-1.0.10/collectionBase.cpp:1693-1762 | brings a stored ad into memory without changing the collection |
| Caches.CachedCollection.AddClassAd | classads-1.0.10/collectionBase.cpp:1051-1143 | refines adding to a plain map, with count and bound kept |
| Caches.CachedCollection.ChangeClassAd | classads-1.0.10/collectionBase.cpp:1163-1196 | refines changing an entry of a plain map; a key held nowhere is refused |
| Caches.CachedCollection.GetClassAd | classads-1.0.10/collectionBase.cpp:1345-1374 | returns what the plain map holds and leaves it unchanged |
| Caches.CachedCollection.RemoveClassAd | classads-1.0.10/collectionBase.cpp:1299-1322 | refines removal from a plain map |
| RelTimes.RelTimeRoundTrip | classads-1.0.10/util.cpp:307-359 | parsing the text of any whole number of seconds gives it back, in all four layouts and both signs |
| RelTimes.NoOverflow | classads-1.0.10/literals.cpp:269-357 | a text that denotes a number of seconds in the range of int is parsed without overflow of the int parts and sums |
| RelTimes.TextFits | classads-1.0.10/util.cpp:307-359 | so is the text printed for every number of seconds up to the largest int |
| RelTimes.WithDays | classads-1.0.10/literals.cpp:269-357 | the layout with days is parsed to the sum of its parts |
| RelTimes.LetteredTime | classads-1.0.10/literals.cpp:269-357 | days, hours, minutes and seconds marked by letters in either case, colons or a plus sign, with a fraction of any length, are parsed to their sum |
| RelTimes.FractionMeans | classads-1.0.10/literals.cpp:403-418 | digits after a point are worth a tenth of the first, a hundredth of the second, and so on |
| RelTimes.PrintedParts | classads-1.0.10/util.cpp:307-359 | a time is printed in parts that are in range and add up to it |
| RelTimeParser.MakeRelTime | classads-1.0.10/literals.cpp:269-357 | the program that moves from right to left computes the parsing function, leftovers refused |
| RelTimeParser.RevInt | classads-1.0.10/literals.cpp:386-398 | digits collected last first are turned round and read |
| RelTimeParser.CollectDigits | classads-1.0.10/literals.cpp:290-293 | the loop collects exactly the digits before the index |
| Gregorian.LeapYearRule | classads-1.0.10/util.cpp:392-407 | the test modulo 4 and 400 is the century rule |
| Gregorian.NextNumber | classads-1.0.10/util.cpp:370-390 | the next date has the next number and the next weekday |
| Gregorian.NumbersIncrease | classads-1.0.10/util.cpp:370-390 | one date is earlier than another exactly if its number is smaller |
| Gregorian.YeardayRange | classads-1.0.10/util.cpp:361-368 | the year day is from 0 to 364, or 365 in leap years |
| Gregorian.YeardayCounts | classads-1.0.10/util.cpp:361-368 | the year day is the number of days since the first of January |
| Gregorian.WeekdayOfDateAfter | classads-1.0.10/util.cpp:361-368 | the first day of year 1 is a Monday and weekdays go round from there; the first of January 1970 is a Thursday |
| Gregorian.NumberOfDateAfter | classads-1.0.10/util.cpp:370-390 | the date n days after the first has number n + 1 |
| Gregorian.DateOfNumber | classads-1.0.10/util.cpp:370-390 | every date is the one that its number counts to |
| Gregorian.NoOverflow | classads-1.0.10/util.cpp:370-390 | no step of the computation overflows 32 bits up to year 5,000,000 |

## Left out

- Times, lists, function calls and subscripts in the evaluator, and the alternate and chained scopes of an ad: they would add cases without harder claims.
- 32-bit overflow of arithmetic and IEEE special values: integers and reals are mathematical; shift counts the C standard leaves undefined give an error, and so does division of a real by zero.
- `FlattenAndInline`, `expr.attr` prefixes in flattening and function calls in flattening.
- Number factors, reals, hexadecimal and octal numbers and comments in the lexer; the time literals the parser builds from calls.
- The hash order of attributes in an ad: the model keeps them in order of insertion.
- `PrettyPrint`, XML and old-syntax printing.
- Views.Semantics: constraints, ranks and signatures are functions of the ad rather than evaluations in a match environment, so an evaluation that fails is not modelled.
- LiveViews.LiveView: a partition is a roster held by its view rather than a view object of its own, and the registry holds names rather than pointers; the tree is searched for a parent by name.
- `SetViewInfo`, `SetConstraintExpr`, `CreatePartition` and partitions with constraints or sub-views of their own.
- The rule of modification requests (`Replace`, `Updates` and `Deletes` attributes that are evaluated): `Transactions.Rules` leaves it open, as it does the rule of updates where `Updates` does not fix it.
- LiveCollections.ClassAdCollection: requests about views are modelled on values (`Collections.Handle`), so the update in place of the parent view found through the registry is not captured.
- Recovery.RecoveryExactly: stated for views without partitions and with steady ranks, and for runs whose failed commits touch distinct keys; what other failed commits leave is `Orderly.FailedCommitExactly`, and runs of answered requests with any views are `ExactRecovery.AnsweredRunRebuilds`.
- Orderly.CommitInOrder: the claim about failed commits is for distinct keys; for repeated keys it is `Orderly.FailedCommitExactly` and `RepeatedKeys.FailedCommitViews`, and for trees with partitions `Atomicity.RefusedCommitExactly`.
- Atomicity.FailedCommitAtomic: asks for room and for clean changes; what happens without them is `Atomicity.RefusedCommitExactly`.
- Atomicity.RefusedCommitExactly: asks that what was done was carried forward cleanly; a change that leaves a partitioned view under a changed signature has already left the views wrong (`ViewTheorems.ModifiedCurrent`), and what its undo makes of them is not described.
- ExactRecovery.AnsweredRunRebuilds: stated for requests that are done or refused without effect; that these are the only ones is `ExactRecovery.RebuiltExactly`.
- ExactRecovery.PrefixRebuilds: stated for such runs.
- Collections.ViewDropped: dropping a partition by its registered name is refused here; `DeletePartitionedView` deletes an empty partition, gives any other a new description through `SetViewInfo`, and reports success.
- Evaluator.EvalState.Evaluate: asks for a state with a root, which every state with a current ad has (`Evaluator.EvalState.SetScopes`).
- Compaction.CompactionAfterRun: stated for views without partitions, as `Recovery.RecoveryExactly` is.
- Unparser.ClassAdUnParser.Unparse: reals and times have no text in the model.
- LiveViews.LiveView.ClassAdInserted: a partition is a roster held by its view rather than a view object of its own.
- LiveViews.LiveView.ClassAdModified: the state that an exception leaves is not described.
- LiveViews.LiveView.ClassAdDeleted: the state that an exception leaves is not described.
- LiveCollections.ReadLogFile: replays the records on values, so the update of the live object in place is not captured.
- RelTimes.RelTimeRoundTrip: stated for whole seconds.
- The lists of child names that a view's description gains when it is logged for compaction.
- Abort and forget records in a log, and transactions of remote clients.
- Failing writes: the log and the storage file are sequences in memory, and no write fails.
- `WriteCheckPoint`, recovery with the cache on, and operations inside transactions with the cache on.
- `TruncateStorageFile`, which changes offsets while reads still go to the old file.
- Caches.CachedCollection.AddClassAd: asks that the ad can be written as text and read back (`StorageText.Storable`: proper precedences, no reals), which the source takes for granted.
- Caches.CachedCollection.ChangeClassAd: asks the same of what the change makes of the ad held.
- Caches.CachedCollection: the views and the log are left out of the cached operations, whose effect on them is that of the uncached ones.
- Relative times with a fraction of a second are parsed but not printed; absolute times and time zones are left out.
- Pointer ownership and deletion: ads are values.

# EggScript front end, modelled in Dafny

EggScript is a small interpreted language. Its front end takes source text
through four stages:

- **Tokenizer.** Scans the text left to right. At each offset it tries an
  ordered table of recognisers, and the first one that matches wins. It drops
  whitespace and comments, strips the quotes from strings and appends an
  end-of-file token.
- **Parser.** A recursive-descent parser over the token list with a mutable
  position. It has two precedence levels, `+ -` below `* /`, and each level
  folds its chains to the left.
- **Evaluator.** Reduces expression trees to data values (numbers, strings
  and booleans) and runs print statements.
- **Variable store.** Typed, const-aware variables held in scopes. The scopes
  sit on a stack that is searched from the innermost scope outward.

The model has one module per part of the program:

| File | Module | Models |
|---|---|---|
| `errors.dfy` | `Errors` | The exception kinds, as one error datatype |
| `tokens.dfy` | `Tokens` | Token and token type |
| `lexer.dfy` | `Tokenizer` | The recogniser table and the scanning loop |
| `values.dfy` | `Values` | The three data-node classes and their operators |
| `syntax.dfy` | `Syntax` | The syntax tree |
| `grammar.dfy` | `Grammar` | What the parser computes, as functions over the token list, with the lemmas about them |
| `parser.dfy` | `Parsing` | The parser class with its mutable position |
| `interpreter.dfy` | `Interpreter` | The evaluator |
| `variable.dfy` | `Variables` | A variable |
| `scope.dfy` | `Scopes` | A scope |
| `environment.dfy` | `Environments` | The scope stack |

Most code in the program changes state step by step: the tokenizer loop, the
parser's position, the scope tables and the scope stack. That code is
modelled as methods and classes. Each one is proved to compute a function of
its inputs and old state, and the properties the program relies on are
proved about those functions.

Where the repository's tests expect more than its code does, the model
follows the code:

- `EggScript.Tests/BaseTests.cs:56-67` expect `EggSyntaxException` for a
  malformed print statement, but `EggScript/Parsing/Parser.cs:56-63` and
  `:103-104` throw the generic `EggScriptException`, and so does
  `EggScript/Runtime/Interpreter.cs`. These errors are `GenericError` here.
- `EggScript.Tests/ConditionalTests.cs:28-40` run `if` statements and
  `EggScript.Tests/ExpressionTests.cs:164-166` use `==`, but
  `EggScript/Runtime/Interpreter.cs:21-31` runs only print statements and
  `:63-86` evaluates only the operators `+ - * /`.

## Model

| member | source | states |
|---|---|---|
| Tokens.Equals | EggScript/Tokenization/Token.cs:25 | Two tokens are equal exactly when their types and values are equal |
| Tokens.EqualTokensHashEqually | EggScript/Tokenization/Token.cs:26 | Equal tokens have equal hash codes |
| Tokenizer.Tokenize | EggScript/Tokenization/Tokenizer.cs:31-59 | The tokenizer loop computes `Lex(source)`: at each offset the first matching recogniser in table order wins, uncounted kinds are dropped, and EOF is appended |
| Tokenizer.Scan | EggScript/Tokenization/Tokenizer.cs:33-56 | For any well-formed recogniser table, the while loop computes the recursive scan from offset 0 |
| Tokenizer.FindMatch | EggScript/Tokenization/Tokenizer.cs:38-50 | The foreach/break search reports a match exactly when some recogniser matches, and then reports the first one in table order with its length |
| Tokenizer.FirstMatchInSound | EggScript/Tokenization/Tokenizer.cs:39-42 | The match found is from a recogniser in the table, and that recogniser really matches with that length |
| Tokenizer.FirstMatchInNone | EggScript/Tokenization/Tokenizer.cs:39-42 | No match is found exactly when every recogniser in the table fails |
| Tokenizer.FirstMatchInPicks | EggScript/Tokenization/Tokenizer.cs:39-50 | If recogniser k matches and all earlier ones fail, recogniser k's match is the one taken |
| Tokenizer.LexShape | EggScript/Tokenization/Tokenizer.cs:47-56 | A successful result ends with exactly one EOF token and has no EOF elsewhere. It holds no Whitespace or Comment token and at most one token more than the source has characters |
| Tokenizer.LexFailure | EggScript/Tokenization/Tokenizer.cs:53 | A failure is the unexpected-character error carrying an offset inside the source that the scan reached, and the character at that offset, where no recogniser matches |
| Tokenizer.Recognise | EggScript/Tokenization/Tokenizer.cs:68-85 | Every recogniser consumes at least one character and no more than remain; a string match covers at least its two quotes |
| Tokenizer.RecognisersWellFormed | EggScript/Tokenization/Tokenizer.cs:14-24 | The table of nine recognisers never yields EOF, and every match consumes input, so the scan terminates |
| Tokenizer.KeywordWins | EggScript/Tokenization/Tokenizer.cs:68 | A keyword followed by a word boundary lexes as Keyword, never as Identifier |
| Tokenizer.FreeKeywordWins | EggScript/Tokenization/Tokenizer.cs:70 | A free keyword such as `true` followed by a word boundary lexes as FreeKeyword |
| Tokenizer.ReservedWordGlued | EggScript/Tokenization/Tokenizer.cs:68-71 | A reserved word followed by a word character (`printx`) lexes as one Identifier spanning the whole word |
| Tokenizer.AlternationPicksFirst | EggScript/Tokenization/Tokenizer.cs:68-71 | A regex alternation takes its first alternative that matches, not the longest |
| Tokenizer.AlternationNone | EggScript/Tokenization/Tokenizer.cs:68-71 | An alternation fails exactly when none of its alternatives matches |
| Tokenizer.AlternationSound | EggScript/Tokenization/Tokenizer.cs:68-71 | An alternation's match is one of its alternatives, of that alternative's length |
| Tokenizer.RunLengthSpec | EggScript/Tokenization/Tokenizer.cs:72 | `\s+` and `\w+` match exactly the longest non-empty run of their class |
| Tokenizer.CommentLengthSpec | EggScript/Tokenization/Tokenizer.cs:74 | A line comment runs to the end of the line. A block comment ends at the first `*/`. An unterminated block comment is not a comment |
| Tokenizer.CloseAtFirst | EggScript/Tokenization/Tokenizer.cs:74 | The lazy block-comment match stops at the first closing `*/` |
| Tokenizer.NumberLengthSpec | EggScript/Tokenization/Tokenizer.cs:80 | A number match is the longest prefix of the form digits, or digits `.` digits with at least one digit after the dot |
| Tokenizer.StringLengthSpec | EggScript/Tokenization/Tokenizer.cs:82 | A string match runs from the opening quote to the next quote, with no quote in between |
| Tokenizer.StringTokenValue | EggScript/Tokenization/Tokenizer.cs:45 | A String token's value is the matched text with its first and last quote removed, and contains no quote |
| Tokenizer.TwoCharOperators | EggScript/Tokenization/Tokenizer.cs:78 | `++ == != >= <=` each lex as a single two-character Operator token |
| Tokenizer.ScanFromShape | EggScript/Tokenization/Tokenizer.cs:36-56 | For any well-formed table, a successful scan from an offset yields at most one token per remaining character plus EOF, with EOF last and only last |
| Tokenizer.ScanFromError | EggScript/Tokenization/Tokenizer.cs:53 | For any well-formed table, a failed scan reports an offset that the scan reached by taking its matches one after another, where no recogniser matches, and the character there. This need not be the first offset where nothing matches: in `"@"@` the `@` inside the string is skipped |
| Values.TypeOf | EggScript/Parsing/Nodes/Expression/Data/NumberNode.cs:14 | A value's type is Number, String or Boolean exactly when it is that kind of node |
| Values.ArithmeticLaws | EggScript/Parsing/Nodes/Expression/Data/NumberNode.cs:20-23 | `+ - * /` give number nodes. Subtraction undoes addition and division undoes multiplication. Addition and multiplication commute |
| Values.ComparisonLaws | EggScript/Parsing/Nodes/Expression/Data/NumberNode.cs:24-27 | `>=` is `>` or equal, and `<=` is `<` or equal. `<` is `>` with the operands swapped, and `<` is the negation of `>=` |
| Values.NegateTwice | EggScript/Parsing/Nodes/Expression/Data/NumberNode.cs:29-30 | Unary `+` returns its operand, and negating twice gives the original value |
| Values.BooleanLaws | EggScript/Parsing/Nodes/Expression/Data/BooleanNode.cs:20-23 | `!!b` is `b`, and the and, or and not operators satisfy De Morgan's laws |
| Values.ConcatLaws | EggScript/Parsing/Nodes/Expression/Data/StringNode.cs:18 | Concatenation keeps the left text first and the right text second, its length is the sum of the lengths, and it is associative |
| Values.BooleanRoundTrip | EggScript/Parsing/Nodes/Expression/Data/BooleanNode.cs:15-18 | A boolean's printed form is present, and building a boolean node from that text gives the same value back |
| Values.ParseNumberAccepts | EggScript/Parsing/Nodes/Expression/Data/NumberNode.cs:18 | The number parser accepts exactly the texts the Number recogniser produces |
| Values.ParseNatText | EggScript/Parsing/Nodes/Expression/Data/NumberNode.cs:18 | Parsing the decimal text of a natural number gives that number |
| Values.DecimalText | EggScript/Parsing/Nodes/Expression/Data/NumberNode.cs:18 | A text of digits, a dot and at least one digit is a number text, and it parses to the value of the whole digits plus the value of the digits after the dot divided by ten to the power of their count |
| Values.FractionExample | EggScript/Parsing/Nodes/Expression/Data/NumberNode.cs:18 | `2.5` parses to 2.5 |
| Values.LeadingDotExample | EggScript/Parsing/Nodes/Expression/Data/NumberNode.cs:18 | `.25`, a number text with no digit before the dot, parses to 0.25 |
| Values.Equals | EggScript/Parsing/Nodes/Expression/Data/NumberNode.cs:33-38 | A node equals another node of the same kind and value, or a raw value of the same kind and value, and nothing else |
| Values.EqualsIsEquivalence | EggScript/Parsing/Nodes/Expression/Data/StringNode.cs:21-26 | Node equality is reflexive, symmetric and transitive, and relates only values of the same type |
| Grammar.PrimitiveAt | EggScript/Parsing/Parser.cs:96-107 | A successful primitive is a data node and consumes exactly one token |
| Grammar.PrimitiveSpec | EggScript/Parsing/Parser.cs:96-107 | A primitive is a String token, a Number token or the free keyword `true`/`false`. A String token gives the string node of its text, a Number token the number node of its parsed text, and `true`/`false` the boolean node. Any other token gives "Expression expected" |
| Grammar.StatementAt | EggScript/Parsing/Parser.cs:54-66 | A successful statement consumes at least the five tokens of `print ( x ) ;`, stays before the final EOF, and the position only moves forward |
| Grammar.StatementErrors | EggScript/Parsing/Parser.cs:54-66 | A missing `print` or `(` gives its own error and an expression error is passed on. A successful statement is `print ( e ) ;`, where `e` is the expression parsed after the `(` |
| Grammar.MissingSemicolon | EggScript/Parsing/Parser.cs:63 | A print statement whose `;` is replaced by another token is rejected with "; expected" |
| Grammar.ProgramAt | EggScript/Parsing/Parser.cs:39-47 | The statement loop only appends to the statements already read |
| Grammar.EmptyProgram | EggScript/Parsing/Parser.cs:39-47 | The program is empty exactly when the first token is EOF |
| Grammar.OperatorNests | EggScript/Parsing/Parser.cs:78-89 | Every parsed expression respects precedence: each operand of a `+ -` node binds at least as tightly, and the right operand strictly more tightly, so chains fold left. Every parsed expression also falls within the round trips below |
| Grammar.PrimitivePrintable | EggScript/Parsing/Parser.cs:96-107 | Every data node the parser builds has a token form; a number node's value is the one its own token's text denotes |
| Grammar.LevelOfSpec | EggScript/Parsing/Parser.cs:16-20 | An operator's precedence level is its row in the operator table |
| Grammar.ExpressionRoundTrip | EggScript/Parsing/Parser.cs:72-89 | Parsing the tokens of any well-nested expression whose numbers are ones Number tokens denote (whole or fractional, so every expression the parser yields) gives that expression back and consumes exactly its tokens |
| Grammar.StatementRoundTrip | EggScript/Parsing/Parser.cs:54-66 | Parsing the tokens of a print statement over such an expression gives the statement back and consumes exactly its tokens |
| Grammar.ProgramRoundTrip | EggScript/Parsing/Parser.cs:39-47 | Parsing the tokens of any program of print statements over such expressions, followed by EOF, gives the program back |
| Grammar.PrecedenceExample | EggScript/Parsing/Parser.cs:88 | `1+2*3` parses with `+` at the root and `2*3` as its right operand |
| Grammar.LeftAssociativeExample | EggScript/Parsing/Parser.cs:81-85 | `1-2+3` parses as `(1-2)+3` |
| Grammar.TypeFromString | EggScript/Parsing/Parser.Utils.cs:77-83 | "string", "num" and "bool" map to String, Number and Boolean, and any other text is the syntax error "Invalid type <text>" |
| Grammar.ExpectedError | EggScript/Parsing/Parser.Utils.cs:93 | Always a syntax error whose message is the expected text, " expected - got " and then the actual text |
| Parsing.Parser.constructor | EggScript/Parsing/Parser.cs:25-29 | The parser starts at position 0 of the given token list |
| Parsing.Parser.CurrentToken | EggScript/Parsing/Parser.cs:33 | The current token is an element of the token list |
| Parsing.Parser.MatchType | EggScript/Parsing/Parser.Utils.cs:17-25 | Matches exactly when the current token has the type. On a match it yields the token's value and advances by one; otherwise it yields "" and stays put |
| Parsing.Parser.MatchValue | EggScript/Parsing/Parser.Utils.cs:33-39 | Matches exactly when both type and value are equal, advancing by one only then |
| Parsing.Parser.MatchAny | EggScript/Parsing/Parser.Utils.cs:48-56 | Matches exactly when the type is equal and the value is one of the given values. On a match it yields the value and advances by one; otherwise it yields "" and stays put |
| Parsing.Parser.Next | EggScript/Parsing/Parser.Utils.cs:62-67 | Yields the current token and advances by exactly one |
| Parsing.Parser.ParsePrimitive | EggScript/Parsing/Parser.cs:96-107 | Yields the grammar's primitive and leaves the position just after it |
| Parsing.Parser.LowerExpression | EggScript/Parsing/Parser.cs:88 | The operand of a level is a primitive at the last level and the next level's expression otherwise, with the position just after it |
| Parsing.Parser.ParseOperator | EggScript/Parsing/Parser.cs:78-89 | The operator loop yields the grammar's left fold for its level, with the position just after it |
| Parsing.Parser.ParseExpression | EggScript/Parsing/Parser.cs:72-76 | Yields the grammar's expression, with the position just after it |
| Parsing.Parser.ParseStatement | EggScript/Parsing/Parser.cs:54-66 | Yields the grammar's statement or its error, with the position just after it |
| Parsing.Parser.Parse | EggScript/Parsing/Parser.cs:39-47 | The statement loop yields the grammar's program from the current position |
| Parsing.ParseTokens | EggScript/Parsing/Parser.cs:39-47 | A fresh parser over a token list ending in EOF yields the grammar's program |
| Interpreter.ApplySpec | EggScript/Runtime/Interpreter.cs:63-87 | An operator succeeds exactly when the typing rule types its operands (and no division by zero occurs), with a result of its operands' type. Any symbol other than `+ - * /` gives "Invalid operator", and a bad type pair gives "Invalid data types in operator" |
| Interpreter.ApplyValues | EggScript/Runtime/Interpreter.cs:65-85 | On two numbers `+ - * /` give the sum, difference, product and quotient, and on two strings `+` gives the concatenation |
| Interpreter.TypeSoundness | EggScript/Runtime/Interpreter.cs:41-88 | A computed value has the expression's static type, and a well-typed expression always has a value unless it divides by zero |
| Interpreter.OperandErrorsFirst | EggScript/Runtime/Interpreter.cs:59-63 | The left operand's error comes first, then the right operand's, and only then the operator's |
| Interpreter.Run | EggScript/Runtime/Interpreter.cs:19-33 | The output is one value per statement, in order, until the first statement that fails. The run passes exactly when every statement printed, and otherwise reports the failing statement's error |
| Variables.Variable.constructor | EggScript/Runtime/Scope.cs:34 | A declared variable has the given type and constness and no data |
| Variables.Variable.FromData | EggScript/Parsing/Variable.cs:10-12 | A variable built from data has that data's type and holds it |
| Variables.Variable.SetData | EggScript/Parsing/Variable.cs:19-22 | Data of the variable's type replaces what it held. Data of another type is refused with "Cannot change a variable's type" and leaves the variable unchanged |
| Variables.Set | EggScript/Parsing/Variable.cs:21-22 | The setter succeeds exactly when the type is the variable's own, and then only the data changes |
| Variables.TypeLocked | EggScript/Parsing/Variable.cs:29 | After any sequence of successful sets the variable keeps its type and constness, holds the last value and stays well typed. A sequence succeeds exactly when every value has the variable's type |
| Scopes.DeclareSpec | EggScript/Runtime/Scope.cs:32-36 | Declaring succeeds exactly for a new name. It adds one uninitialised variable of the given type and constness and leaves the others alone; otherwise it fails with "already declared" |
| Scopes.LookupSpec | EggScript/Runtime/Scope.cs:45-50 | A lookup finds data exactly for a declared, initialised name, and the data has the variable's type |
| Scopes.AssignSpec | EggScript/Runtime/Scope.cs:60-67 | An assignment succeeds exactly when the name is declared, the variable is not a constant (unless this is its initialisation) and the type matches. Then the variable holds the data and nothing else changes |
| Scopes.AssignErrors | EggScript/Runtime/Scope.cs:62-64 | The error of each failed check, in the order declared, constness, type; initialisation skips only the constness check |
| Scopes.ConstantInitialisedOnce | EggScript/Runtime/Scope.cs:63 | A constant can be initialised once, after which every plain assignment fails with "Cannot modify constant variable" |
| Scopes.Scope.constructor | EggScript/Runtime/Scope.cs:16 | A new scope has no variables |
| Scopes.Scope.ContainsVariable | EggScript/Runtime/Scope.cs:23 | True exactly when the name is declared in the scope |
| Scopes.Scope.AddVariable | EggScript/Runtime/Scope.cs:32-36 | The table afterwards is the declaration's result, or the table is unchanged and the error is reported |
| Scopes.Scope.TryGetVariable | EggScript/Runtime/Scope.cs:45-50 | Found exactly for a declared, initialised name. The data is the variable's data if the name is declared, otherwise none |
| Scopes.Scope.ModifyVariable | EggScript/Runtime/Scope.cs:60-67 | The table afterwards is the assignment's result and the data is returned, or the table is unchanged and the error is reported |
| Environments.Push | EggScript/Runtime/EggEnvironment.cs:58 | Pushing puts one empty scope on top of the unchanged stack |
| Environments.Pop | EggScript/Runtime/EggEnvironment.cs:63 | Popping succeeds exactly when the stack is not empty |
| Environments.GetFinds | EggScript/Runtime/EggEnvironment.cs:27-32 | The lookup answers with the innermost scope that holds data for the name, passing over declared but uninitialised variables |
| Environments.GetFails | EggScript/Runtime/EggEnvironment.cs:33 | The lookup fails with "not declared" exactly when no scope holds data for the name |
| Environments.ModifyFinds | EggScript/Runtime/EggEnvironment.cs:44-51 | An assignment goes to the innermost scope that declares the name, initialised or not, and no other scope changes |
| Environments.ModifyFails | EggScript/Runtime/EggEnvironment.cs:52 | Assigning a name no scope declares fails with "not declared" |
| Environments.ModifyThenGet | EggScript/Runtime/EggEnvironment.cs:27-53 | After a successful assignment the lookup of that name gives the data just assigned, and every scope stays well typed |
| Environments.PushDeclarePop | EggScript/Runtime/EggEnvironment.cs:58-63 | A name declared and set in a pushed scope is visible, and popping that scope restores the previous stack |
| Environments.UninitializedShadow | EggScript/Runtime/Scope.cs:47 | An inner declaration without data does not hide an outer variable from the lookup, but an assignment goes to the inner variable |
| Environments.EggEnvironment.constructor | EggScript/Runtime/EggEnvironment.cs:9 | A new environment has an empty stack |
| Environments.EggEnvironment.PushScope | EggScript/Runtime/EggEnvironment.cs:58 | The stack afterwards is the old one with a new empty scope on top |
| Environments.EggEnvironment.PopScope | EggScript/Runtime/EggEnvironment.cs:63 | The stack afterwards is the old one without its top scope, or popping an empty stack fails with "Stack empty." and leaves the stack as it was |
| Environments.EggEnvironment.AddVariable | EggScript/Runtime/EggEnvironment.cs:19 | Declares in the top scope only, and fails on an empty stack. A failed declaration leaves every scope as it was |
| Environments.EggEnvironment.GetVariable | EggScript/Runtime/EggEnvironment.cs:27-34 | The foreach search returns the stack's lookup result |
| Environments.EggEnvironment.ModifyVariable | EggScript/Runtime/EggEnvironment.cs:44-53 | The foreach search assigns as the stack's assignment does and returns the data, or reports its error and leaves every scope as it was |

## Left out

- The .NET regex engine: each pattern is a hand-written prefix recogniser. `\s`, `\w` and `\d` are their ASCII subsets, and `.` excludes only `\n`.
- Numbers are modelled as mathematical reals, not IEEE doubles. Rounding, overflow, infinities and NaN are not modelled.
- `double.Parse` is modelled as a decimal parser that accepts exactly the Number token form. Culture settings, exponents and signs are not modelled.
- The token printer behind the round trips has no counterpart in the source. It prints a whole number as its plain digits and any other number as some number text that denotes it, so the round trips do not fix one text per fractional number.
- `bool.Parse` is modelled on the trimmed, case-folded texts "true" and "false", with ASCII case folding and ASCII whitespace only.
- Interpreter.ApplySpec: division by zero is the error "Division by zero", where the program yields an infinity or NaN, because reals have no such values.
- Values.Divide requires a nonzero divisor, for the same reason.
- Console output: `Run` appends each printed value to an output sequence. The text form written to the console (`double.ToString`, booleans as "True"/"False") is not modelled.
- The exception classes become kinds of one error datatype. Stack exhaustion in `Pop`/`Peek` is a `SystemError` with the runtime's message.
- Parsing.Parser.constructor requires the token list to end with EOF, as every tokenizer result does. Reading past the end of other lists (an index-out-of-range exception) is not modelled.
- Grammar.ExpectedError: `Throw_Expected` never returns. It is modelled as the error it throws, with the default expected text "Expression" given as a constant.
- Tokens.EqualTokensHashEqually: `HashCode.Combine` is randomised per process and is stood in for by a deterministic hash of the type and value.
- `ToString` of tokens and nodes and `GetHashCode` of the data nodes are not modelled.
- A scope holds its variables by value: the table maps each name to the variable's type, constness and data. No reference to a variable leaves its scope, so object identity and aliasing of variables are not captured.
- The static stack of `Interpreter.Variables.cs` is not a separate class. It has the same three operations on the same kind of stack (lines 22, 30-37 and 47-56), so the `EggEnvironment` class models both.
- Node classes without shown behaviour (identifiers, unary operators, declarations, assignments, conditionals, blocks, loops, increments) appear only as syntax-tree constructors. The evaluator rejects them as the program does.
- The files that an older revision superseded (the older `NumberNode.cs`, `IDataNode.cs`, `PrintNode.cs` and `VariableNode.cs`) are folded into the datatypes.
- `Eggscript.cs` (file-extension check, file reading, dumps), the REPL and the console runner are file and console plumbing, and are not modelled.

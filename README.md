# SimpleCLI interpretation engine in Dafny

This project models the interpretation engine of SimpleCLI, an embeddable Java shell, and proves properties of that model. A host program registers annotated command methods. The engine then runs lines typed at a prompt or read from a script file. Each line goes through these steps:

1. Leading and trailing blanks are trimmed.
2. Inline comments (`#`, `!`) are stripped, except inside double-quoted spans. A line with an odd number of `"` fails with "Unclosed string.".
3. An optional assignment `name = ...` is split off at the first `=`.
4. The rest is cut into tokens by the token pattern, with `"` rewritten to `'`.
5. The first token is dispatched:
   - a reserved-name check comes first;
   - then the registered commands;
   - then the built-ins `print`, `help`, `call` and `write-script`;
   - then storing a literal into a variable;
   - and finally a "not found" message.

A registered command is run as follows:

- One instance of its declaring class is created lazily and cached.
- The parameter binder matches flags against the declared parameters and coerces their values.
- The method is invoked. Its result can be stored into a variable.

A line that completes is appended to the command history. `write-script` exports the history as a file and `call` replays one. Every exception is translated to a message by the exception translator.

Modules, each in the file of the same (lower-case) name:

| module | models |
|---|---|
| `Wrappers` | Option and Result |
| `Text` | the Java string operations the engine uses |
| `Numbers` | `Integer.parseInt` and `Long.parseLong` |
| `Grammar` | `Constants.java`: keywords, comment symbols, and hand-written recognisers for the token pattern, the explicit-literal pattern and the floating-point literal pattern |
| `Exceptions` | `ExceptionHandler.java` over a datatype of exception classes |
| `Session` | `CliState.java` and `CommandHistory.java` as classes, and a file store |
| `Resolver` | `ParameterResolver.java` |
| `BindingOrder` | the binder's independence of the order in which flags are given |
| `Tokenizer` | `removeInlineComments`, `isValidLine` and the tokenising half of `handleInput` |
| `Interpreter` | `CommandLineInterpreter.java` |
| `InterpreterProperties` | whole-session properties |

How the interpreter is modelled:

- The state a step can change is a `World` value. It holds the variables, the history, the files, the instance cache, the number of calls made, the printed output and the two flags.
- Each step of `CommandLineInterpreter` is defined as a function from a World to the next World and an `Outcome`. The outcomes are normal completion, a raised exception, `System.exit`, or a stack overflow.
- The class `Interpreter.CommandLineInterpreter` performs the same steps imperatively on its fields and on the shared session objects. Each of its methods is proved to produce exactly the World and Outcome of its step function.
- Printed output is a sequence of the strings written. `println(x)` writes `x` followed by a line separator.

Where the code's own guards and doc comments suggest a behaviour that the code does not produce, the model follows what the code does:

- A value flag that is the last token fails with an index error, `IndexOutOfBoundsException` (index k+1, length k+1). The "Missing argument for the flag" message is never reached: `ArrayList.get` throws first, and the tokens are never null.
- Leftover arguments are not always harmless. An odd number of them makes the warning loop read past the end, which raises an index error. This happens after the warnings for the complete pairs have been printed.
- `help` with no argument does not print the whole registry. `args.get(0)` throws `IndexOutOfBoundsException` (index 0, length 0). The `!= null` test is always true, so `printHelp` is unreachable.
- Unbalanced quotes do not always fail. A line whose first character is a comment symbol strips to the empty line before the quote count is looked at.
- The reserved-name test is written `store && (a || b || c) || d`, and the model keeps that precedence. It has no visible effect, because the variable name is `""` whenever nothing is stored.

## Model

| member | source | states |
|---|---|---|
| Text.Trim | src/main/java/cli/internal/CommandLineInterpreter.java:76 | the result is a contiguous slice of the input obtained by cutting only characters ≤ U+0020 from both ends, and neither starts nor ends with such a character; it is empty exactly when every input character is such a blank |
| Text.TrimPadded | src/main/java/cli/internal/CommandLineInterpreter.java:76 | trimming blanks around a core that neither starts nor ends with a blank gives back exactly that core |
| Text.ReplaceChar | src/main/java/cli/internal/CommandLineInterpreter.java:208 | `String.replace(a, b)`: same length, every `a` becomes `b` and every other character is kept |
| Text.RemoveChar | src/main/java/cli/internal/CommandLineInterpreter.java:197 | removing every occurrence of a character: the result keeps the other characters in their order, each as often as in the input, and holds none of the removed one |
| Text.IndexOf | src/main/java/cli/internal/CommandLineInterpreter.java:194 | `indexOf`: a found index holds the element and no earlier position does; none is found exactly when the element is absent |
| Text.NatToString | src/main/java/cli/internal/CommandLineInterpreter.java:86 | the decimal text of the line counter is non-empty, all digits, and has no leading zero |
| Text.NatToStringValue | src/main/java/cli/internal/CommandLineInterpreter.java:86 | the decimal text of n reads back as n |
| Text.PadRight | src/main/java/cli/internal/Constants.java:11 | `%-Ns`: the text followed by spaces up to width N, never truncated |
| Text.ArrayToString | src/main/java/cli/internal/ParameterResolver.java:33 | `Arrays.toString`: the elements joined by ", " between `[` and `]`; `[]` for no elements |
| Numbers.ParseInteger | src/main/java/cli/internal/ParameterResolver.java:143-146 | a parsed integer lies within the type's range |
| Numbers.ParseIntegerOfToString | src/main/java/cli/internal/ParameterResolver.java:143-146 | parsing the decimal text of any in-range integer gives that integer back (round trip) |
| Numbers.ParseIntegerRejects | src/main/java/cli/internal/ParameterResolver.java:143-146 | any character other than a digit or a sign makes the parse fail |
| Numbers.ParseIntegerForms | src/main/java/cli/internal/ParameterResolver.java:143-146 | a text that parses is a digit string, optionally preceded by one `+` or `-` |
| Numbers.ParseIntegerSigned | src/main/java/cli/internal/ParameterResolver.java:143-146 | a digit string, with or without `+`, denotes its decimal value and `-` digits its negation; each parses exactly when that value is in range |
| Numbers.LeadingZeroValue | src/main/java/cli/internal/ParameterResolver.java:143-146 | a leading zero does not change the decimal value of a digit string |
| Numbers.ParseIntegerLeadingZero | src/main/java/cli/internal/ParameterResolver.java:143-146 | leading zeros are accepted and ignored: `0`d parses as d |
| Numbers.ParseIntegerNegativeLeadingZero | src/main/java/cli/internal/ParameterResolver.java:143-146 | `-0`d parses as `-`d |
| Exceptions.HandleException | src/main/java/cli/internal/ExceptionHandler.java:7-24 | one message per exception class: the three fixed texts; an invocation failure starts with "Something went wrong in called method: " and ends with the line separator and "Caused by <cause>"; an IllegalArgumentException, including a NumberFormatException, gives its own message; a class-cast failure is exactly "Unable to cast class, \n" followed by its message or "null"; every other class gives its own message |
| Exceptions.HandleExceptionText | src/main/java/cli/internal/ExceptionHandler.java:7-24 | the translator gives null only for an exception whose own message is null; every other exception gets a text |
| Session.CliState.constructor | src/main/java/cli/internal/CliState.java:14-16 | a new store holds no variables |
| Session.CliState.GetVariable | src/main/java/cli/internal/CliState.java:29-31 | a name never added is absent (null) |
| Session.CliState.AddVariable | src/main/java/cli/internal/CliState.java:25-27 | afterwards the name holds the new value, replacing any earlier one, and every other name's value is unchanged |
| Session.NullBindingIsAbsent | src/main/java/cli/internal/CliState.java:29-31 | storing null under a new name cannot be told apart from never storing it |
| Session.HistoryTextAppend | src/main/java/cli/internal/CommandHistory.java:26-31 | the exported text of a history with one more entry is the old text followed by that entry and a line separator |
| Session.HistoryRoundTrip | src/main/java/cli/internal/CommandHistory.java:25-34 | reading the exported text back line by line gives the history, in insertion order, for entries without line breaks |
| Session.CommandHistory.constructor | src/main/java/cli/internal/CommandHistory.java:10-12 | a new history is empty |
| Session.CommandHistory.AddToHistory | src/main/java/cli/internal/CommandHistory.java:21-23 | the entry is appended at the end; earlier entries are unchanged |
| Session.CommandHistory.ExportText | src/main/java/cli/internal/CommandHistory.java:26-31 | the loop's StringBuilder text is each entry followed by a line separator, in order |
| Session.CommandHistory.WriteHistoryToFile | src/main/java/cli/internal/CommandHistory.java:25-34 | the file is replaced (not appended to) by the exported text; the history itself is unchanged |
| Grammar.NonSpaceEnd | src/main/java/cli/internal/Constants.java:12 | `\S*` from a position: the longest run of non-blank characters |
| Grammar.SpaceEnd | src/main/java/cli/internal/Constants.java:12 | `\s*` from a position: the longest run of blank characters |
| Grammar.ClosingQuoteFrom | src/main/java/cli/internal/Constants.java:12 | the lazy `".+?"`: the first `"` at least two places on with no line terminator before it, or none when no such quote exists |
| Grammar.MatchAt | src/main/java/cli/internal/Constants.java:12 | a token match at a position: an unquoted token runs to the next blank, a quoted one ends with `"` and has at least one character inside, trailing blanks are consumed up to the next non-blank; an unquoted start always matches |
| Grammar.FindFrom | src/main/java/cli/internal/Constants.java:12 | `Matcher.find`: the leftmost position from which the token pattern matches, or none when no later position matches |
| Grammar.DigitRunEnd | src/main/java/cli/internal/Constants.java:17 | `(\p{Digit}+)` scanning: the longest run of digits from a position |
| Grammar.HexRunEnd | src/main/java/cli/internal/Constants.java:18 | `(\p{XDigit}+)` scanning: the longest run of hexadecimal digits from a position |
| Grammar.DecimalAccepted | src/main/java/cli/internal/Constants.java:27 | every `digits[.][digits][exp]` string is a decimal form |
| Grammar.FractionAccepted | src/main/java/cli/internal/Constants.java:28 | every `.digits[exp]` string is a decimal form |
| Grammar.DecimalParts | src/main/java/cli/internal/Constants.java:21-28 | conversely, every decimal form splits as `digits[.][digits][exp]` or `.digits[exp]`, with the exponent `[eE][+-]?digits` |
| Grammar.LeadingDigitsParts | src/main/java/cli/internal/Constants.java:27 | a decimal form that starts with a digit has the shape `digits[.][digits][exp]` |
| Grammar.LeadingPointParts | src/main/java/cli/internal/Constants.java:28 | a decimal form that starts with no digit has the shape `.digits[exp]` |
| Grammar.HexAccepted | src/main/java/cli/internal/Constants.java:29-34 | `0x` with hex digits, an optional point and a `[pP][+-]?digits` binary exponent is a hex form |
| Grammar.HexParts | src/main/java/cli/internal/Constants.java:29-34 | conversely, every hex form splits as `0x` or `0X`, hex digits, an optional point with hex digits on at least one side, and a binary exponent |
| Grammar.FloatCoreEnds | src/main/java/cli/internal/Constants.java:24-35 | a literal's body never starts or ends with a character in \x00-\x20 |
| Grammar.FloatLiteralPadding | src/main/java/cli/internal/Constants.java:23-36 | any \x00-\x20 padding around a literal's body is accepted |
| Grammar.DigitsAreFloatLiteral | src/main/java/cli/internal/Constants.java:22-36 | every plain digit string is a floating-point literal |
| Grammar.NoSuffixAfterSpecialValue | src/main/java/cli/internal/Constants.java:24-35 | `NaN` and `Infinity`, signed or not, take no `fFdD` suffix |
| Grammar.QuoteIsNotFloat | src/main/java/cli/internal/Constants.java:22-36 | a lone `'` is not a floating-point literal |
| Grammar.BooleanIsNotFloat | src/main/java/cli/internal/Constants.java:22-36 | `true` and `false` are not floating-point literals |
| Resolver.CastParameterMeaning | src/main/java/cli/internal/ParameterResolver.java:140-150 | an int or long is accepted exactly when the value's text parses as a 32- or 64-bit integer, and is then that integer, else NumberFormatException "For input string" of that text; a double is accepted exactly from a floating-point literal and keeps its text, else "empty String" for a blank text or "For input string" of the trimmed text; a String parameter accepts exactly a String value and a Boolean parameter exactly a Boolean value, both unchanged, a primitive `boolean` accepts nothing, and a refused cast is ClassCastException "Cannot cast <value class> to <target class>" |
| Resolver.PrimitiveBooleanTakesBareWords | src/main/java/cli/internal/ParameterResolver.java:98-111 | a primitive `boolean` parameter binds exactly from a bare `true` or `false`; every quoted, numeric or variable value fails in Class.cast |
| Resolver.CastParameterIdempotent | src/main/java/cli/internal/ParameterResolver.java:140-150 | casting an already cast value again gives the same result |
| Resolver.IntRejectsFraction | src/main/java/cli/internal/ParameterResolver.java:143-144 | an int parameter rejects text with a point or an exponent |
| Resolver.LiteralsIgnoreVariables | src/main/java/cli/internal/ParameterResolver.java:98-103 | a quoted, numeric or boolean value binds the same whatever the variables hold |
| Resolver.VariableReference | src/main/java/cli/internal/ParameterResolver.java:104-110 | any other value is a variable name: absent gives "Variable <v> not found.", present gives the cast of the stored value |
| Resolver.BareBooleans | src/main/java/cli/internal/ParameterResolver.java:102-103 | `true` or `false` binds as a Boolean whatever the declared kind |
| Resolver.FindFlag | src/main/java/cli/internal/ParameterResolver.java:79-86 | the chosen key is the first of the parameter's keys present in the arguments, at its first occurrence; none when no key occurs |
| Resolver.FirstGivenKeyWins | src/main/java/cli/internal/ParameterResolver.java:79-86 | the first key in declaration order that occurs wins, even if a later alias occurs earlier in the arguments |
| Resolver.BindFailureSticks | src/main/java/cli/internal/ParameterResolver.java:70-122 | the first exception ends the binding; later parameters are not looked at |
| Resolver.IndexOfArg | src/main/java/cli/internal/ParameterResolver.java:80 | the loop computes `indexOf` of the key in the argument list |
| Resolver.FindFlagIndex | src/main/java/cli/internal/ParameterResolver.java:77-86 | the key loop finds a flag exactly when one of the keys occurs, at the position of the first key that occurs |
| Resolver.ReportLeftovers | src/main/java/cli/internal/ParameterResolver.java:124-127 | the warning loop prints one "Unrecognized parameter: a b" line per leftover pair and reads past the end exactly when the number of leftovers is odd |
| Resolver.BuildMissingList | src/main/java/cli/internal/ParameterResolver.java:130-133 | the StringBuilder loop gives one "\t- [keys]" line per missing parameter, in order |
| Resolver.BindParameter | src/main/java/cli/internal/ParameterResolver.java:71-121 | one pass of the parameter loop computes the binding step |
| Resolver.BindNext | src/main/java/cli/internal/ParameterResolver.java:71-121 | binding parameter n from the state after n parameters yields the state after n + 1 |
| Resolver.RemoveAtSlices | src/main/java/cli/internal/ParameterResolver.java:115-116 | `ArrayList.remove(i)` keeps the elements before i and after i, in order |
| Resolver.RemovePairSlices | src/main/java/cli/internal/ParameterResolver.java:115-116 | removing index k + 1 and then index k cuts out exactly the flag and its value |
| Resolver.BindAll | src/main/java/cli/internal/ParameterResolver.java:70-122 | the parameter loop over all declared parameters computes the whole binding, or its first exception |
| Resolver.FinishBind | src/main/java/cli/internal/ParameterResolver.java:124-137 | leftovers are reported, then missing parameters raise the aggregated error, else the values are returned |
| Resolver.ProcessArguments | src/main/java/cli/internal/ParameterResolver.java:63-138 | the method's printed warnings and its values or exception are exactly those of the binding specification |
| Resolver.ResolveValueConforms | src/main/java/cli/internal/ParameterResolver.java:95-113 | a bound value has the declared kind, except that a bare boolean binds to any kind |
| Resolver.BindStepShape | src/main/java/cli/internal/ParameterResolver.java:88-121 | one step leaves a subsequence of the remaining arguments (order kept, untouched when no key is found) and either appends one value that fits the parameter, null exactly when no key was found (and only for an optional one), or, for a required parameter none of whose keys is left, records its keys as missing |
| Resolver.FoundEffect | src/main/java/cli/internal/ParameterResolver.java:88-116 | a found key with a conforming value after it appends that value and removes exactly the key and the value, keeping the missing list |
| Resolver.AbsentEffect | src/main/java/cli/internal/ParameterResolver.java:88-121 | with no key found, a required parameter is added to the missing list and an optional one is bound to null, the arguments untouched |
| Resolver.BindCount | src/main/java/cli/internal/ParameterResolver.java:70-122 | after n parameters, values plus missing entries number n, and the leftovers are a subsequence of the arguments |
| Resolver.BindAligned | src/main/java/cli/internal/ParameterResolver.java:70-122 | with nothing missing, the i-th value belongs to the i-th declared parameter |
| Resolver.OneValuePerParameter | src/main/java/cli/internal/ParameterResolver.java:63-138 | a successful bind returns exactly one value per declared parameter, in declaration order, each fitting its parameter |
| Resolver.BindWithoutFlags | src/main/java/cli/internal/ParameterResolver.java:117-121 | when no flag occurs, every optional parameter gets null, every required one is missing, and the arguments are untouched |
| Resolver.MissingReportedTogether | src/main/java/cli/internal/ParameterResolver.java:117-135 | when no flag is given at all, every required parameter is reported in one "Please add parameter(s) with key(s): " error in declaration order, after the leftover warnings; with none required every value is null |
| Resolver.MissingIsNotFound | src/main/java/cli/internal/ParameterResolver.java:117-121 | for any arguments, the missing list holds, in declaration order, exactly the keys of the required parameters whose flag was not found when their turn came |
| Resolver.MissingKeysGrow | src/main/java/cli/internal/ParameterResolver.java:117-121 | later parameters only append to the missing list |
| Resolver.MissingKeysExtend | src/main/java/cli/internal/ParameterResolver.java:117-121 | one more parameter only appends to the missing list |
| Resolver.MissingKeysAdd | src/main/java/cli/internal/ParameterResolver.java:117-118 | a required parameter whose flag is not found appends exactly its keys |
| Resolver.AbsentRequiredIsMissing | src/main/java/cli/internal/ParameterResolver.java:117-121 | a required parameter none of whose keys appears in the arguments is in the missing list of any completed bind |
| Resolver.BoundBefore | src/main/java/cli/internal/ParameterResolver.java:70-122 | if the loop gets through m parameters it got through every earlier count |
| Resolver.AbsentStaysAbsent | src/main/java/cli/internal/ParameterResolver.java:79-116 | keys absent from the arguments stay absent from every later work list, since the list only loses elements |
| Resolver.AbsentListed | src/main/java/cli/internal/ParameterResolver.java:117-121 | a required parameter reached with none of its keys in the arguments is in the final missing list |
| Resolver.ListedStaysListed | src/main/java/cli/internal/ParameterResolver.java:117-121 | keys appended by parameter i are still in the final missing list |
| Resolver.MissingReportedAfterWarnings | src/main/java/cli/internal/ParameterResolver.java:124-137 | for any arguments, the leftover warnings come first; then an odd leftover count raises the index error, otherwise a non-empty missing list raises one "Please add parameter(s) with key(s): " error naming exactly the not-found required parameters in order, and otherwise the values are returned |
| BindingOrder.CollectMeaning | src/main/java/cli/internal/ParameterResolver.java:113 | collecting resolution results succeeds exactly when each one is a value, then holds them in order; otherwise it fails with the first failure |
| BindingOrder.ResolveInOrderMeaning | src/main/java/cli/internal/ParameterResolver.java:95-113 | the reference binder: it succeeds exactly when every parameter's token resolves, then value i is the resolution of token i; otherwise it fails with the error of the first token that does not resolve |
| BindingOrder.PairLookup | src/main/java/cli/internal/ParameterResolver.java:80-116 | when no value is spelled like k, the first k in the argument list is the flag of the first pair with k, the token after it is that pair's value, and cutting both out leaves the list of the other pairs |
| BindingOrder.WithoutOtherKey | src/main/java/cli/internal/ParameterResolver.java:115-116 | removing the pair of one flag keeps the pair and value of every other flag |
| BindingOrder.RemainingPairs | src/main/java/cli/internal/ParameterResolver.java:70-116 | after n parameters of an arrangement, n pairs are gone and every later parameter still finds its own value |
| BindingOrder.StepFound | src/main/java/cli/internal/ParameterResolver.java:78-117 | a parameter whose first key is found with token t after it binds the resolution of t and removes the flag and t from the work list, or fails with the resolution error |
| BindingOrder.TracksStep | src/main/java/cli/internal/ParameterResolver.java:70-122 | one more parameter of the loop keeps the binder in step with the reference binder |
| BindingOrder.BindFound | src/main/java/cli/internal/ParameterResolver.java:70-117 | once the first n parameters are bound, parameter n finding its pair extends the values by the resolved token and continues with the shortened list |
| BindingOrder.ChainTracks | src/main/java/cli/internal/ParameterResolver.java:70-122 | along any sequence of work lists in which each parameter finds its own token, the binder ends with the reference binder's values and nothing missing, or with its failure |
| BindingOrder.ChainResult | src/main/java/cli/internal/ParameterResolver.java:63-138 | when such a chain uses up the whole argument list, processArguments prints no warning and returns exactly what the reference binder returns |
| BindingOrder.FindsOwnPair | src/main/java/cli/internal/ParameterResolver.java:79-117 | in an arrangement, parameter n finds its first key in the pairs not yet taken, with its own value after it, and taking them leaves the remaining pairs |
| BindingOrder.ArrangementChain | src/main/java/cli/internal/ParameterResolver.java:70-122 | the work lists of an arrangement form such a chain from the full argument list |
| BindingOrder.FlagsInAnyOrder | src/main/java/cli/internal/ParameterResolver.java:63-138 | for any number of parameters each given once as flag/value pairs in any order, processArguments prints no warning and returns what resolving each parameter from its own token yields, in declaration order, or the first failure |
| BindingOrder.FlagOrderIrrelevant | src/main/java/cli/internal/ParameterResolver.java:63-138 | any two orders of the same flag/value pairs give the same printed lines and the same values or exception |
| Resolver.HelpRows | src/main/java/cli/internal/ParameterResolver.java:28-34 | one help row per declared parameter |
| Resolver.HelpRowsAt | src/main/java/cli/internal/ParameterResolver.java:28-34 | the i-th row describes the i-th parameter |
| Resolver.GenerateHelp | src/main/java/cli/internal/ParameterResolver.java:21-37 | the StringBuilder loop produces exactly the help text of the command |
| Resolver.HeaderFirst | src/main/java/cli/internal/ParameterResolver.java:24-25 | the help text starts with "Usage: <key> [OPTION]..." and the tab-prefixed description, each ending a line |
| Resolver.HelpLayout | src/main/java/cli/internal/ParameterResolver.java:24-34 | after the header, the row of the i-th parameter appears at its place, in declaration order |
| Resolver.RowPlaced | src/main/java/cli/internal/ParameterResolver.java:24-34 | the row of parameter i sits right after the header and the rows of parameters 0 to i - 1 |
| Resolver.HelpRowColumns | src/main/java/cli/internal/ParameterResolver.java:32-33 | a row starts with the key list, has the type name at column 30, and has "required" at column 50 exactly when the parameter is required |
| Tokenizer.QuotePositions | src/main/java/cli/internal/CommandLineInterpreter.java:137-141 | the recorded quote indexes are exactly the positions of `"`, in increasing order |
| Tokenizer.CommentPositions | src/main/java/cli/internal/CommandLineInterpreter.java:142-150 | the recorded comment indexes are exactly the positions of `#` and `!`, in increasing order |
| Tokenizer.FirstFreeComment | src/main/java/cli/internal/CommandLineInterpreter.java:157-170 | the first comment symbol not strictly inside a quote pair, or none |
| Tokenizer.StripComments | src/main/java/cli/internal/CommandLineInterpreter.java:133-173 | the result is a prefix of the line; a line starting with a comment symbol strips to "" whatever its quotes; otherwise it fails exactly when the number of `"` is odd, with "Unclosed string.", and when it succeeds the line is cut exactly at its first comment symbol outside quotes, or kept whole when there is none |
| Tokenizer.SpanParity | src/main/java/cli/internal/CommandLineInterpreter.java:158-165 | the pair loop's test "strictly between quote 2k and quote 2k+1" holds exactly when an odd number of quotes come before the position |
| Tokenizer.CommentInString | src/main/java/cli/internal/CommandLineInterpreter.java:158-165 | a comment symbol is inside a string exactly when it is not a free comment |
| Tokenizer.ScanLine | src/main/java/cli/internal/CommandLineInterpreter.java:137-152 | the first loop detects a comment line exactly when the first character is a comment symbol, and otherwise fills both index lists completely |
| Tokenizer.ScanSymbols | src/main/java/cli/internal/CommandLineInterpreter.java:142-150 | the inner symbol loop returns early only at position 0, and otherwise records the position of a comment symbol |
| Tokenizer.InString | src/main/java/cli/internal/CommandLineInterpreter.java:159-165 | the pair loop answers whether the position lies strictly inside a quote pair |
| Tokenizer.RemoveInlineComments | src/main/java/cli/internal/CommandLineInterpreter.java:133-173 | the method's loops compute exactly `StripComments` |
| Tokenizer.StripKeepsStrings | src/main/java/cli/internal/CommandLineInterpreter.java:157-170 | the kept part has balanced quotes, the cut is never inside a quoted span, and every comment symbol left in it is inside a string |
| Tokenizer.CommentLineDropped | src/main/java/cli/internal/CommandLineInterpreter.java:144-155 | a comment line with an odd number of quotes still strips to "" rather than failing |
| Tokenizer.ValidAfterStrip | src/main/java/cli/internal/CommandLineInterpreter.java:181-183 | after stripping, a line is handled exactly when it is non-empty (the `#` test can no longer fire) |
| Tokenizer.SplitAssignment | src/main/java/cli/internal/CommandLineInterpreter.java:194-202 | a line is an assignment exactly when it contains `=`; then it splits at the first `=`, the name is the trimmed left part without spaces and the command text is the trimmed right part; otherwise the whole line is the command text |
| Tokenizer.SplitAssignmentOf | src/main/java/cli/internal/CommandLineInterpreter.java:194-202 | `name=command` with a clean name splits back into that name and the trimmed command |
| Tokenizer.SplitAt | src/main/java/cli/internal/CommandLineInterpreter.java:194-202 | the split is at the first `=`, whatever follows it |
| Tokenizer.AssignmentNotQuoteAware | src/main/java/cli/internal/CommandLineInterpreter.java:194-199 | an `=` inside double quotes still splits the line, leaving a quote in the variable name |
| Tokenizer.Unquoted | src/main/java/cli/internal/CommandLineInterpreter.java:208 | every token has `"` replaced by `'` and contains no `"` |
| Tokenizer.ScanTokens | src/main/java/cli/internal/CommandLineInterpreter.java:205-208 | the `find()` loop collects exactly the token list; every token is non-empty and free of `"` |
| Tokenizer.TokenListShape | src/main/java/cli/internal/CommandLineInterpreter.java:206-208 | no token is empty or contains `"` |
| Tokenizer.GroupsNonEmpty | src/main/java/cli/internal/CommandLineInterpreter.java:206-208 | every captured group is non-empty |
| Tokenizer.TokensOfWords | src/main/java/cli/internal/CommandLineInterpreter.java:206-208 | words without quotes or blanks, joined by single spaces, tokenise to exactly those words |
| Tokenizer.QuotedToken | src/main/java/cli/internal/CommandLineInterpreter.java:206-208 | a double-quoted text with spaces is one token, single-quoted |
| Tokenizer.EmptyQuotesNoToken | src/main/java/cli/internal/CommandLineInterpreter.java:206-210 | `""` yields no token, because the quoted form needs one character inside and the other form cannot start with `"` |
| Tokenizer.ParseLine | src/main/java/cli/internal/CommandLineInterpreter.java:190-210 | an empty token list fails with an index error (index 0, length 0); otherwise the first token is the command and the rest, in order, are the arguments, with the assignment's store flag and name |
| Tokenizer.ParseWords | src/main/java/cli/internal/CommandLineInterpreter.java:190-210 | a plain line of words parses to its first word as command and the others as arguments, storing nothing |
| Tokenizer.NoQuotesUnchanged | src/main/java/cli/internal/CommandLineInterpreter.java:208 | tokens without `"` are not rewritten |
| Interpreter.Names | src/main/java/cli/internal/CommandLineInterpreter.java:216-226 | the enumerated command names are exactly the registered keys, each once |
| Interpreter.InitialiseCommands | src/main/java/cli/internal/CommandLineInterpreter.java:216-227 | the registration loop builds exactly the registry and its name enumeration |
| Interpreter.RegistryLastWins | src/main/java/cli/internal/CommandLineInterpreter.java:222-223 | a command is registered under its key, or its method name when the key is blank; a later command of the same name replaces it |
| Interpreter.RegistryKeys | src/main/java/cli/internal/CommandLineInterpreter.java:216-226 | a name is registered exactly when some command has it, and the command kept under a name has that name |
| Interpreter.StoredValue | src/main/java/cli/internal/CommandLineInterpreter.java:339-345 | a quoted literal is stored without its quotes, the lone `'` fails with a substring error, `true`/`false` become Booleans, and any other text (one not both starting and ending with `'`) is stored unchanged as a string |
| Interpreter.PrintLines | src/main/java/cli/internal/CommandLineInterpreter.java:318-328 | one printed line per argument, in order: the variable's value, or "Object does not exist." |
| Interpreter.HelpMatches | src/main/java/cli/internal/CommandLineInterpreter.java:252-257 | the found names are exactly the registered names containing the search text, in enumeration order |
| Interpreter.CommandLineInterpreter.constructor | src/main/java/cli/internal/CommandLineInterpreter.java:23-39 | the registry is built from the descriptors; nothing is cached, printed or counted yet; the session starts non-interactive |
| Interpreter.CommandLineInterpreter.StoreVariable | src/main/java/cli/internal/CommandLineInterpreter.java:336-348 | the new state and outcome are those of `StoreSpec`: the literal store into the shared variable store (quotes stripped, booleans converted, the lone-quote substring error) |
| Interpreter.CommandLineInterpreter.PrintVariable | src/main/java/cli/internal/CommandLineInterpreter.java:318-328 | prints exactly the print lines of its arguments and changes nothing else |
| Interpreter.CommandLineInterpreter.FindCommands | src/main/java/cli/internal/CommandLineInterpreter.java:252-257 | the search loop finds exactly the matching names |
| Interpreter.CommandLineInterpreter.HelpSearch | src/main/java/cli/internal/CommandLineInterpreter.java:250-271 | the new state and outcome are those of `HelpSpec`: the index error for a bare `help`, otherwise the heading and the help of every matching command, or nothing when none matches |
| Interpreter.CommandLineInterpreter.PrintHelpTexts | src/main/java/cli/internal/CommandLineInterpreter.java:261-264 | prints the help text of every found command, in order |
| Interpreter.CommandLineInterpreter.HandleAnnotationCommand | src/main/java/cli/internal/CommandLineInterpreter.java:356-391 | the new state and outcome are those of `AnnotationSpec`: help flags print only, otherwise the instance cache, binding, invocation and optional store |
| Interpreter.CommandLineInterpreter.InstanceFor | src/main/java/cli/internal/CommandLineInterpreter.java:374-381 | the result is that of `CachedInstance`: the cached instance, or a new one created and cached; a failed creation changes nothing |
| Interpreter.CommandLineInterpreter.CallCommand | src/main/java/cli/internal/CommandLineInterpreter.java:383-390 | the new state and outcome are those of `InvokeSpec`: the binder's warnings are printed, a binding failure is raised, otherwise the method is invoked (one more invocation counted) and its returned value is stored under the name when asked |
| Interpreter.CommandLineInterpreter.HandleCommands | src/main/java/cli/internal/CommandLineInterpreter.java:229-301 | the new state and outcome are those of `HandleCommandsSpec`: the reserved-name check, then a registered command, then `call`, `print`, `help`, `write-script`, a literal store, and "Command '<name>' not found." otherwise |
| Interpreter.CommandLineInterpreter.CallScript | src/main/java/cli/internal/CommandLineInterpreter.java:272-281 | the new state and outcome are those of `CallSpec`: without a `-f`/`--file` flag "No file given for call", with fewer than two arguments an index error, otherwise run the file named in the second slot, without quotes, in debug mode when `-d`/`--debug` is given, one call level deeper |
| Interpreter.CommandLineInterpreter.WriteScript | src/main/java/cli/internal/CommandLineInterpreter.java:282-290 | the new state and outcome are those of `WriteScriptSpec`: without a `-f`/`--file` flag "No output file given", with fewer than two arguments an index error, otherwise the file named in the second slot, without quotes, holds the exported history |
| Interpreter.CommandLineInterpreter.HandleInput | src/main/java/cli/internal/CommandLineInterpreter.java:190-214 | the new state and outcome are those of `HandleInputSpec`: split, tokenise, dispatch, and record the line in the history after a normal return |
| Interpreter.CommandLineInterpreter.ReportFileError | src/main/java/cli/internal/CommandLineInterpreter.java:85-96 | the new state and outcome are those of `FileErrorSpec`: the "Error at command" line with the line number and file name, the translated message, then a cleared loop flag in interactive mode or "Exit..." and exit status -1 |
| Interpreter.CommandLineInterpreter.RunFile | src/main/java/cli/internal/CommandLineInterpreter.java:66-100 | the new state and outcome are those of `RunFileSpec`: FileNotFoundException for a missing file, otherwise set the loop flag and run `FileLoopSpec` over its lines |
| Interpreter.CommandLineInterpreter.RunFileLine | src/main/java/cli/internal/CommandLineInterpreter.java:74-96 | one pass of the script loop produces exactly the state and outcome of FileLineSpec: trim, strip comments, skip blank and comment lines, echo in debug mode, handle, and report a failure with the line number; after a completed line with the flag still set the counter is one more |
| Interpreter.CommandLineInterpreter.Run | src/main/java/cli/internal/CommandLineInterpreter.java:107-131 | prints the prompt, then the new state and outcome are those of `RunLoopSpec` over the given lines |
| Interpreter.CommandLineInterpreter.RunLine | src/main/java/cli/internal/CommandLineInterpreter.java:112-130 | one pass of the interactive loop produces exactly the state, outcome and stop flag of RunLineSpec: a failure is reported and the loop goes on, a blank, comment or completed line is followed by the next prompt, an exit or an overflow stops the loop |
| Interpreter.CommandLineInterpreter.ReportError | src/main/java/cli/internal/CommandLineInterpreter.java:123-129 | the new state is that of `ReplErrorSpec`: the "Error at command" line, the translated message and the prompt |
| Interpreter.CommandLineInterpreter.Start | src/main/java/cli/internal/CommandLineInterpreter.java:41-54 | the new state and outcome are those of `StartSpec`: interactive mode, the prompt, then the interactive loop |
| Interpreter.CommandLineInterpreter.StartFromFile | src/main/java/cli/internal/CommandLineInterpreter.java:56-64 | the new state and outcome are those of `StartFromFileSpec`: run the script; an escaping exception is printed and ends with exit status -1 |
| InterpreterProperties.FreshInstance | src/main/java/cli/internal/CommandLineInterpreter.java:374-381 | a class seen for the first time gets a new instance, different from every cached one, and it is cached |
| InterpreterProperties.CachedEvolves | src/main/java/cli/internal/CommandLineInterpreter.java:374-381 | looking up the cache never drops or replaces an instance, and never touches the history |
| InterpreterProperties.InvokeEvolves | src/main/java/cli/internal/CommandLineInterpreter.java:383-390 | invoking a command history and output only grow, keeps the cache, and never exits |
| InterpreterProperties.AnnotationEvolves | src/main/java/cli/internal/CommandLineInterpreter.java:356-391 | the registered-command step keeps every cached instance and never exits |
| InterpreterProperties.FileErrorEvolves | src/main/java/cli/internal/CommandLineInterpreter.java:85-96 | a failing script line continues the session exactly when interactive; otherwise it ends with exit status -1 |
| InterpreterProperties.InputEvolves | src/main/java/cli/internal/CommandLineInterpreter.java:190-214 | handling a line never edits history or output, never drops a cached instance, and never exits in interactive mode |
| InterpreterProperties.CommandsEvolves | src/main/java/cli/internal/CommandLineInterpreter.java:229-301 | the same for the dispatch of one command |
| InterpreterProperties.BuiltinEvolves | src/main/java/cli/internal/CommandLineInterpreter.java:245-300 | `print`, `help`, `write-script`, the literal store and "not found" leave history, instance cache, counters and mode unchanged, only extend the output, never exit, change no variable except the store's target name, and change files only under `write-script` |
| InterpreterProperties.HelpOnlyOutput | src/main/java/cli/internal/CommandLineInterpreter.java:250-271 | the help built-in only extends the output: variables, files, history, cache, counters and both flags are unchanged |
| InterpreterProperties.WriteScriptOnlyOutput | src/main/java/cli/internal/CommandLineInterpreter.java:282-290 | `write-script` prints nothing and binds no variable; it changes no file except the one its second argument names (quotes removed), which holds the history text after a completed export; with fewer than two arguments no file changes |
| InterpreterProperties.StoreOnlyOutput | src/main/java/cli/internal/CommandLineInterpreter.java:336-348 | the literal store prints nothing and writes no file; it completes exactly when the literal converts, then binds the target name to the converted value and no other name changes; on failure the variables are unchanged |
| InterpreterProperties.NotFoundOnlyOutput | src/main/java/cli/internal/CommandLineInterpreter.java:300 | an unknown command's message leaves history, cache, counters and mode unchanged |
| InterpreterProperties.CallEvolves | src/main/java/cli/internal/CommandLineInterpreter.java:272-281 | `call` keeps every invariant of a step and never exits in interactive mode |
| InterpreterProperties.RunFileEvolves | src/main/java/cli/internal/CommandLineInterpreter.java:66-100 | running a script keeps every invariant of a step and never exits in interactive mode |
| InterpreterProperties.LoopEvolves | src/main/java/cli/internal/CommandLineInterpreter.java:74-97 | the script loop from any line keeps every invariant of a step and never exits in interactive mode |
| InterpreterProperties.LineEvolves | src/main/java/cli/internal/CommandLineInterpreter.java:74-96 | one script line keeps every invariant of a step (history, output, created instances and invocation records only grow, the mode and the cached instances are kept, coherence is preserved) and never exits in interactive mode |
| InterpreterProperties.HandledLineEvolves | src/main/java/cli/internal/CommandLineInterpreter.java:81-95 | the same for a line that is handled, a failure reported with its line number included |
| InterpreterProperties.SkippedLines | src/main/java/cli/internal/CommandLineInterpreter.java:74-84 | an exit keyword ends the script with nothing changed; a blank or comment line is skipped with nothing changed |
| InterpreterProperties.FailingLineStopsScript | src/main/java/cli/internal/CommandLineInterpreter.java:85-95 | a failing line is reported as "Error at command: '<line>', at line <i+1>, in file \"<file>\"." with the translated message; interactive it clears the loop flag, otherwise it prints "Exit..." and exits with -1 |
| InterpreterProperties.UnclosedQuoteStopsScript | src/main/java/cli/internal/CommandLineInterpreter.java:85-96 | a script line with an unclosed quote is reported with "Unclosed string." and stops the script, reporting the trimmed line |
| InterpreterProperties.ClearedFlagEndsCaller | src/main/java/cli/internal/CommandLineInterpreter.java:74-96 | when a nested script clears the shared loop flag, the calling script stops after that line too |
| InterpreterProperties.RunLoopNeverRaises | src/main/java/cli/internal/CommandLineInterpreter.java:112-130 | the interactive loop catches every exception, never exits in interactive mode, and history and output only grow |
| InterpreterProperties.RunLoopStep | src/main/java/cli/internal/CommandLineInterpreter.java:112-130 | one pass of the interactive loop continues with the next line from an evolved state, unless a script exited or the stack overflowed |
| InterpreterProperties.ReplErrorOnlyOutput | src/main/java/cli/internal/CommandLineInterpreter.java:123-128 | the interactive catch block leaves history, cache, counters and mode unchanged and only extends the output |
| InterpreterProperties.InteractiveSessionSurvives | src/main/java/cli/internal/CommandLineInterpreter.java:41-54 | an interactive session ends normally (or by stack overflow), stays interactive, and its history only grows |
| InterpreterProperties.StartFromFileOutcomes | src/main/java/cli/internal/CommandLineInterpreter.java:56-64 | no exception escapes; a missing file prints "<file> (No such file or directory)" and exits with -1 |
| InterpreterProperties.HistoryAfterSuccess | src/main/java/cli/internal/CommandLineInterpreter.java:210-213 | a completed line is recorded last in the history; a failed line (other than `call`) leaves the history unchanged |
| InterpreterProperties.CommandsKeepHistory | src/main/java/cli/internal/CommandLineInterpreter.java:229-301 | dispatching anything but `call` never touches the history |
| InterpreterProperties.AnnotationKeepsHistory | src/main/java/cli/internal/CommandLineInterpreter.java:356-391 | a registered command never touches the history |
| InterpreterProperties.InvokeKeepsHistory | src/main/java/cli/internal/CommandLineInterpreter.java:383-390 | invoking a command never touches the history |
| InterpreterProperties.ExportedScriptReadsBack | src/main/java/cli/internal/CommandLineInterpreter.java:282-285 | after `write-script`, the file named by the second argument, without quotes, reads back line by line as the history |
| InterpreterProperties.ReservedNameRejected | src/main/java/cli/internal/CommandLineInterpreter.java:230-236 | storing into a command name, an exit keyword, `print` or `help` fails with "<name> is a reserved keyword" before anything changes |
| InterpreterProperties.StorableStores | src/main/java/cli/internal/CommandLineInterpreter.java:293-297 | every literal that reaches the store branch is stored without error |
| InterpreterProperties.LoneQuoteNotStorable | src/main/java/cli/internal/CommandLineInterpreter.java:293-297 | a lone `'` is neither a quoted literal, a number nor a boolean, so the store branch never reaches storeVariable's failing substring |
| InterpreterProperties.AssignLiteral | src/main/java/cli/internal/CommandLineInterpreter.java:293-297 | `name=literal` stores the literal's value under the name and records the line in the history, and changes nothing else |
| InterpreterProperties.AssignmentParse | src/main/java/cli/internal/CommandLineInterpreter.java:194-210 | `name=literal` parses to a store into the name, with the literal as command and no arguments |
| InterpreterProperties.AssignmentSplit | src/main/java/cli/internal/CommandLineInterpreter.java:194-210 | `name=literal` with no `=` in the name and neither side padded splits into a store into that name with the literal as command text |
| InterpreterProperties.WordTokens | src/main/java/cli/internal/CommandLineInterpreter.java:205-208 | a blank-free word without quotes is a single token |
| InterpreterProperties.HelpWithoutArgument | src/main/java/cli/internal/CommandLineInterpreter.java:250-251 | `help` alone fails with an index error (index 0, length 0) and changes nothing |
| InterpreterProperties.HelpTextsOfRegistered | src/main/java/cli/internal/CommandLineInterpreter.java:261-264 | one printed help text per found command, in order |
| InterpreterProperties.HelpSearchPrintsMatches | src/main/java/cli/internal/CommandLineInterpreter.java:250-271 | `help <text>` prints nothing when no name matches; otherwise it prints the heading and then the help of every registered name containing the text, each once |
| InterpreterProperties.CallReadsSecondSlot | src/main/java/cli/internal/CommandLineInterpreter.java:272-290 | with a file flag anywhere, `call` and `write-script` take the second argument, without quotes, as the file name |
| InterpreterProperties.DebugFirstRunsFlagAsFile | src/main/java/cli/internal/CommandLineInterpreter.java:273-276 | `call -d -f x` runs the file "-f" in debug mode |
| InterpreterProperties.HelpFlagsOnlyPrint | src/main/java/cli/internal/CommandLineInterpreter.java:358-372 | a first argument `-h`/`--help` or `-d`/`--description` prints the help or the description, with no instance, no invocation and no store |
| InterpreterProperties.CachedInstanceReused | src/main/java/cli/internal/CommandLineInterpreter.java:376-377 | a cached instance is reused: no new instance is created and the cache is unchanged |

## Left out

- Reflection is replaced by descriptors. This covers `initialiseAnnotationCommands`' `getMethods`, the annotations, `getDeclaredConstructor().newInstance()` and `Method.invoke`. A command is a descriptor: key, method name, description, declaring class and parameter specifications. Instance creation and invocation are two functions of the configuration. The order of `getMethods` is the order of the given descriptors.
- Reading and writing are replaced by explicit inputs and outputs:
  - The interactive input is a given sequence of lines.
  - A script is read from a map of file contents, whole, and split into lines as `readLine` would.
  - A missing file raises `FileNotFoundException`.
  - The PrintStream is the appended output sequence.
  - Exceptions from reading standard input, and failures while writing an export file, are not modelled.
  - As a result, the catch block in `start` is unreachable in the model.
- The line separator is fixed to "\n".
- `Resolver.ReportLeftovers`: the warnings go to `System.out` in the source but are appended to the interpreter's output here.
- `System.exit(-1)` is the outcome `Exited(-1)`, which ends every enclosing call.
- An invoked command's own effects are not modelled: what its method prints, the files it touches, or a `System.exit` it calls itself. Invocation is a function of the configuration that returns a value or a failure. The "never exits" conclusions of `InterpreterProperties.InteractiveSessionSurvives` and `InterpreterProperties.RunLoopNeverRaises` are therefore about the interpreter's own code only.
- The JVM stack is bounded by a depth parameter. Scripts that call scripts deeper than the bound end with `Overflowed`, a StackOverflowError that no catch block stops.
- `Resolver.CastParameter`: a double is kept as the literal text it was parsed from. Floating-point values and their arithmetic are not modelled.
- `BindingOrder.FlagsInAnyOrder`: order independence is stated for argument lists made only of flag/value pairs, each parameter given once under its first key, with no value spelled like a first key. Flags given under a later alias, repeated flags and stray tokens are covered only by the general `Resolver` lemmas (`FindFlag`, `FirstGivenKeyWins`, `MissingIsNotFound`, `MissingReportedAfterWarnings`).
- `Numbers.ParseInteger`: only ASCII digits are accepted. `Integer.parseInt` and `Long.parseLong` use `Character.digit` and also accept other Unicode decimal digits, so a quoted Arabic-Indic `'١٢٣'` binds 123 to an int parameter in Java but fails with "For input string" here. The regex classes `\p{Digit}` and `\p{XDigit}` are US-ASCII in Java, as in the grammar recognisers.
- Dafny's `char` is a Unicode scalar value, while Java string lengths and indexes count UTF-16 code units. For text with characters outside the Basic Multilingual Plane, the `%-30s`/`%-20s` padding (`Text.PadRight`, `Resolver.HelpRowColumns`), the numbers in substring and index errors, and `indexOf` positions differ from the source.
- `Exceptions.HandleException`: for an invocation failure, only the prefix and the "Caused by" suffix are stated. The JVM's last stack frame in between is not.
- `Interpreter.HelpMatches`: the key order of the HashMap is modelled as an enumeration of the registered names, each once. Only the set of printed commands is tied to the source.
- `printHelp` is not modelled, because it is unreachable: see the `help` note above.
- The "Missing argument for the flag" check is not modelled, because it is unreachable for the same reason.
- `getCommandParameters` is not modelled. The core never calls it.
- `String.format` is modelled only for the three left-aligned columns of a help row.
- The regex engine itself is not modelled. Only the three patterns are, as recognisers.
- The singletons' `getInstance` is modelled differently: the variable store and the history are objects passed to the interpreter's constructor.
- `src/main/java/cli/api/CommandInterpreter.java` (factory and interface glue) is not part of this model.

# go-scheme in Dafny

A model of the Scheme interpreter go-scheme, written in Go, and proofs
about it. The repository holds three generations of the interpreter, and
each is modelled in the form its own code takes.

**Generation 1** (`reader.go`, `object.go`, `builtins.go`, `interpreter.go`)
- A byte reader turns program text into objects. `Reader` is a class whose
  methods advance a position in place. Each method is proved to follow a
  specification function of `ReaderSpec`.
- `Objects` holds the object variants and their `Inspect`/`String` printers.
  `*Integer` and `*Lambda` are mutable and shared in Go, so they live in a
  `Heap` of cells and a value refers to its cell by index.
- The builtin table (`+ - * / < <= > >= =`, plus a `QUOTE` key that `Eval` handles itself) folds the later arguments into the
  FIRST argument object, in place. The model shows that `(+ x x x)` therefore
  yields four times the value of `x`.
- `Eval` has the special forms `DEFINE` and `QUOTE`, builtins, lambdas found in
  the environment (dynamic scope: a lambda's `Env` is overwritten on every
  call) and anonymous lambdas in head position. Arguments are evaluated
  until the first Error.

**Generation 2** (`take-three.go` and its successor `eval.go`)
- A pipeline of string splitting (`stripComments`, `tokens`, `rewrite`), a
  recursive `parse` over a shared token slice, and `eval` with `begin`,
  `define`, `lambda` and calls. Lambdas are lexically scoped here.
- `eval.go` adds `display`, `quote` and `mathsComparisons`. These fold into a
  NEW Integer and compare every later operand with the first.
- A `Revision` flag (`TakeThree` or `Final`) picks the file wherever the two
  differ.

**Generation 3** (`lexer/lexer.go`, `parser/parser.go`, `parser/ast.go`,
`object/object.go`, `evaluator/builtins.go`)
- A lexer class keeps row, column and read position.
- A parser class keeps the current and the next token and drives the lexer.
- The AST printers, typed objects, and a builtin table that allocates a fresh
  `*object.Integer` for each result.

**Properties proved, among others**
- Printing an int64 and reading it back gives the same value.
- Written-out lists of symbols parse back to the Pair chains they denote.
- A chain of calls printed by `Inspect` is read back by `ParseProgram` as the
  same chain.
- The arithmetic builtins of `evaluator/builtins.go` are the wrapped int64
  left folds (sum, difference, product), and division panics exactly when a
  later operand is 0. Those of `builtins.go` are the same folds only when no
  later argument is the first argument object itself, because each step is
  written into that object: `(/ x y x)` with x = 1 and y = 2 panics on 0 / 0.
- The comparisons test the first operand against every later one.
- Every class method ends in the state its specification function gives.

Several behaviours of the code as written are modelled as they are. Each
has a lemma:
- Strings lose their inner blanks in the reader.
- `()` vanishes in the reader.
- `'x` reads as a call of the lower-case `quote`, which `Eval` does not know.
- In `eval.go`, a shorthand `define` swallows every later token.
- In the lexer, a closing `"` opens a second string.
- The lexer panics on any letter. Its own test expects `lambda` to lex as IDENT.
- The parser never returns from an identifier argument, and it panics on a
  number argument.
- A call nested anywhere but last leaves its `)` to close the caller.

Go panics are the `Fault`, `Crash` or `Panicked` outcomes. They carry the
panic's message where the program writes it itself; the Go runtime's own
texts (failed type assertions, index and slice bounds, nil dereference)
are abbreviated, as "## Left out" says. Non-terminating evaluation is bounded by a `fuel` count.

## Model

| member | source | states |
|---|---|---|
| GoText.UpperRune | reader.go:38 | `unicode.ToUpper` on a rune up to U+00FF: ASCII as `UpperChar`, stays below 0x80 exactly when it starts there, changes exactly the lower-case letters (a-z, the Latin-1 letters 0xE0-0xFE but 0xF7, `µ`, `ÿ`) and leaves no lower-case letter behind |
| GoText.UpperByteText | reader.go:38 | `strings.ToUpper(string(b))` of one byte: the upper-cased byte itself when ASCII, otherwise a text of at least two bytes (the UTF-8 text of `UpperRune(b)`) |
| GoText.UpperRuneIdempotent | reader.go:38 | upper-casing a rune twice gives what upper-casing it once gives |
| GoText.TrimSpace | object.go:183 | the result is a middle slice of the text that neither starts nor ends with white space, and everything cut off on either side is white space |
| GoText.Split | take-three.go:181-184 | there is at least one piece, no piece holds the separator, and joining the pieces with the separator gives the text back |
| GoText.Replace | take-three.go:182-183 | text with no occurrence of the pattern is returned unchanged |
| GoText.ReplaceAppend | take-three.go:182-183 | replacing a one-byte pattern distributes over concatenation (the padding of `(` and `)` works byte by byte) |
| GoText.DecimalDigits | object.go:26-28 | the `%d` digits of a natural number are non-empty decimal digits, with no leading zero unless the number is 0 |
| GoText.ParseUint64 | reader.go:228 | a successful parse is below 2^64 |
| GoText.ParseInt64 | reader.go:228 | a successful parse is within the int64 range |
| GoText.ParseIntOfDecimal | object.go:26-28 | `%d` of any int64 parses back with `strconv.ParseInt(s, 0, 64)` to the same number |
| GoText.Wrap64 | builtins.go:14 | the wrapped value is an int64, congruent to the input modulo 2^64, and equal to it when it already fits |
| GoText.WrapThenAdd | builtins.go:12-18 | wrapping after every addition gives the same result as wrapping once at the end |
| GoText.WrapThenMul | builtins.go:68-74 | wrapping after every multiplication gives the same result as wrapping once at the end |
| GoText.Quot | builtins.go:98 | Go's `/` on integers truncates toward zero: the remainder has the sign of the dividend and is smaller in size than the divisor |
| GoText.EncodeRune | reader.go:52 | `string(r)` is one to four bytes; it is one byte exactly when `r` is ASCII, and then that byte |
| GoText.DecodeEncode | reader.go:52 | decoding the UTF-8 text of any rune gives the rune back |
| GoText.EncodeDecode | reader.go:52 | a text that decodes to a rune is that rune's UTF-8 text, so encoding and decoding are inverse |
| GoText.DigitsParseAsFloat | reader.go:231 | a run of decimal digits is accepted by `strconv.ParseFloat` exactly when its value is below the float64 overflow threshold 2^1024 - 2^970 |
| GoText.HugeExponentOverflows | reader.go:231-234 | `1e400` is a range error of `strconv.ParseFloat` |
| GoText.TinyExponentParses | reader.go:231-237 | `1e-400` is accepted: a value that rounds to zero is not an error |
| GoText.Quote | eval.go:119 | `strconv.Quote` text starts and ends with `"` |
| GoText.UnescapeEscaped | eval.go:119 | the text between the quotes decodes back to the original string, so quoting loses nothing |
| GoText.QuoteEscapesQuote | eval.go:119 | a `"` inside the string is written `\"` |
| GoText.EscapedPlain | eval.go:119 | a string of printable bytes with no `"` or `\` is written as it is |
| Env.NewEnclosed | interpreter.go:152 | a new, empty frame linked to the enclosing one is allocated at a fresh reference, and every older object is unchanged |
| Env.Set | interpreter.go:66 | only that frame's bindings change, and no object changes kind |
| Env.GetAfterSet | interpreter.go:66 | after `Set`, looking the name up in that frame gives the new value |
| Env.GetAfterSetOther | interpreter.go:66 | `Set` changes the lookup of no other name from any frame |
| Env.GetAfterGrow | interpreter.go:37 | allocating new objects changes no lookup from an existing frame |
| Env.GetInNewFrame | interpreter.go:152 | a fresh enclosed frame passes every lookup through to its enclosing frame |
| Env.GetWalksOut | interpreter.go:37 | while every frame encloses only older frames, a name unbound in a frame is looked up in its enclosing frame |
| Env.NewEnclosedNested | interpreter.go:152 | a new frame enclosing an existing one keeps every frame enclosing only older frames |
| Env.SetNested | interpreter.go:66 | binding a name keeps every frame enclosing only older frames |
| Objects.SetInt | builtins.go:14 | writing an Integer's value changes that value only, and every reference keeps its kind |
| Objects.SetEnv | interpreter.go:34 | overwriting a Lambda's `Env` sets it and changes no other Lambda's `Env` and no Integer |
| Objects.Inspect | object.go:26-242 | the printer of every variant panics only on a nil Object or a chain whose tail is not a pair; a pair prints between `(` and `)` and a vector between `#(` and `)`. What each variant prints is stated by `InspectInteger`, `InspectAtoms`, `ProperListPrints`, `DottedPairPrints` and `VectorPrints` |
| Objects.InspectPair | object.go:162-187 | a pair prints between `(` and `)`, and panics only as `Inspect` does |
| Objects.ChainText | object.go:168-181 | the chain loop's text ends in a blank, and a tail that is not a pair panics with the type-assertion text |
| Objects.ItemsText | object.go:232-237 | the vector loop's text ends in a blank when there are items, and panics only as `Inspect` does |
| Objects.InspectInteger | object.go:26-28 | an int64 Integer prints as text that parses back to its value |
| Objects.InspectAtoms | object.go:56-202 | the fixed renderings: `#T`/`#F`, a String bare from `Inspect` and quoted from `String()`, a Char as `#\` plus its text, and `<#procedure>` for lambdas and builtins |
| Objects.ChainTextOfWords | object.go:174-182 | the Pair printer's loop over a proper list of words yields the words joined by blanks, plus one trailing blank |
| Objects.InspectPairChain | object.go:169-183 | a pair whose tail is a pair prints as `(`, the car, a blank, the trimmed chain text and `)` |
| Objects.ProperListPrints | object.go:162-187 | a proper list of words prints as its elements separated by single blanks, in parentheses |
| Objects.DottedPairPrints | object.go:184-185 | a pair whose tail is neither a pair nor nil prints as `(car . cdr)` |
| Objects.ImproperChainPanics | object.go:177-178 | a chain that ends in a non-pair after its second cell makes the printer panic in the type assertion |
| Objects.ShortPairsPrint | object.go:163-166 | the empty pair prints `()`, and a pair with only a car prints `(car)` |
| Objects.ItemsTextOfWords | object.go:233-236 | the vector loop over words yields the words joined by blanks plus a trailing blank, and the empty text for no items |
| Objects.VectorPrints | object.go:230-242 | a vector of words prints as `#(` and the words separated by single blanks, then `)` |
| ReaderSpec.CurrentByteSpec | reader.go:320-328 | a byte is returned exactly when input is left: the byte at the position, which advances by one; at the end nothing changes |
| ReaderSpec.SkipSpec | reader.go:339-341 | discards one byte when there is one and forgets the last byte read |
| ReaderSpec.UnreadSpec | reader.go:330-337 | succeeds exactly straight after a successful read, stepping back one byte; otherwise nothing changes |
| ReaderSpec.PeekSpec | reader.go:305-318 | everything skipped is blank; the byte returned is the first non-blank byte and is not consumed; at the end it reports EOF |
| ReaderSpec.ReadSpec | reader.go:25-242 | the reader never moves back or past the end, and a read that does not start at the end always moves forward |
| ReaderSpec.HashSpec | reader.go:32-55 | the `#` reader stays within the input and never moves back; `HashReads` states its value for every byte after `#` |
| ReaderSpec.StringSpec | reader.go:56-96 | the string loop stays within the input and never moves back |
| ReaderSpec.QuoteSpec | reader.go:97-112 | the quote reader stays within the input and never moves back |
| ReaderSpec.BlankSpec | reader.go:181-195 | the blank case stays within the input and never moves back |
| ReaderSpec.AtomSpec | reader.go:198-240 | the atom loop stays within the input and never moves back; a float beyond float64 range is an Identifier (`DigitsBeyondInt64`) |
| ReaderSpec.ParenSpec | reader.go:113-180 | the list reader stays within the input and never moves back; `ReadsListOfWords` states its value for every list of words |
| ReaderSpec.ListSpec | reader.go:139-176 | the list loop stays within the input and never moves back; `ListReadsWords` states its value for every run of words |
| ReaderSpec.LambdaSpec | reader.go:244-303 | the lambda reader stays within the input and never moves back; `ReadsLambdaOfWords` states its value for every parameter list of words |
| ReaderSpec.ParamsSpec | reader.go:275-288 | the parameter loop stays within the input and never moves back; `ParamsReadWords` states that it keeps the words in source order, and `ParamMustBeIdentifier` that a number panics |
| ReaderSpec.LambdaBodySpec | reader.go:290-302 | reading the lambda body stays within the input and never moves back; `ReadsLambdaOfWords` states that exactly one expression is read as the body |
| Reading.Reader.constructor | reader.go:21-23 | a new reader stands at the start of the input, with no byte read |
| Reading.Reader.CurrentByte | reader.go:320-328 | the byte and the new reader state are those `CurrentByteSpec` gives |
| Reading.Reader.Skip | reader.go:339-341 | the new reader state is the one `SkipSpec` gives |
| Reading.Reader.UnreadByte | reader.go:330-337 | the success flag and the new state are those `UnreadSpec` gives |
| Reading.Reader.Peek | reader.go:305-318 | the peeked byte and the new state are those `PeekSpec` gives |
| Reading.Reader.Read | reader.go:25-242 | the object and the new state are those `ReadSpec` gives |
| Reading.Reader.ReadHash | reader.go:32-55 | the object and the new state are those `HashSpec` gives |
| Reading.Reader.ReadString | reader.go:56-96 | the object and the new state are those `StringSpec` gives |
| Reading.Reader.ReadAtom | reader.go:198-240 | the object and the new state are those `AtomSpec` gives |
| Reading.Reader.ReadParen | reader.go:113-180 | the object and the new state are those `ParenSpec` gives, which `ReadsListOfWords` states for every list of words |
| Reading.Reader.ReadLambda | reader.go:244-303 | the object and the new state are those `LambdaSpec` gives, which `ReadsLambdaOfWords` states for every parameter list of words |
| ReaderProps.AtomReadsRun | reader.go:199-226 | the atom loop takes exactly the maximal run of non-delimiting bytes and interprets that text |
| ReaderProps.ReadDispatchesAtom | reader.go:198-200 | `Read` hands an atom's first byte to the atom loop |
| ReaderProps.ReadAtomRun | reader.go:198-240 | at an atom's first byte, `Read` yields the value of the whole run and stands after the blank that ended it |
| ReaderProps.ReadsDecimal | reader.go:228-240 | the decimal text of a non-negative int64, followed by a delimiter or the end, reads as a fresh Integer holding that number |
| ReaderProps.DigitsBeyondInt64 | reader.go:228-237 | a run of digits beyond int64 reads as a Float while its value is below float64 overflow, and as an Identifier from there on |
| ReaderProps.HugeFloatIsIdentifier | reader.go:231-234 | `1e400` reads as the Identifier `1E400` |
| ReaderProps.IntegerRoundTrip | reader.go:228-240 | the printed form of an Integer object reads back as an Integer with the same value |
| ReaderProps.MinusIsAlwaysOperator | reader.go:196-197 | `-` is always a one-byte identifier, so `-5` is not a negative number |
| ReaderProps.ReadDispatchesHash | reader.go:32-33 | `Read` hands what follows `#` to the `#` reader |
| ReaderProps.HashReads | reader.go:38-55 | after `#`: `t`/`T` is true, `f`/`F` is false, `\` takes the next byte as a Char holding the UTF-8 text `string(byte)` makes of it, and any other byte panics with a message naming the UTF-8 text of its `unicode.ToUpper` rune |
| ReaderProps.ReadsBoolean | reader.go:40-45 | `#t`/`#T` and `#f`/`#F` read as the booleans |
| ReaderProps.ReadsChar | reader.go:46-53 | `#\c` reads as a Char holding the byte `c` itself when it is ASCII, and its two-byte UTF-8 text from 0x80 up |
| ReaderProps.AtomRoundTrips | reader.go:40-53 | the printed forms of booleans read back as the same values; a one-byte character reads back as the UTF-8 text of its byte, which is itself exactly when it is ASCII |
| ReaderProps.HashOtherPanics | reader.go:38-55 | any other byte after `#` panics with a message naming the UTF-8 text of its `unicode.ToUpper` rune |
| ReaderProps.HashHighBytePanics | reader.go:38-55 | `#` followed by the byte 0xE9 (`é`) panics naming C3 89, the UTF-8 text of its capital `É` |
| ReaderProps.HashSymbolBytePanics | reader.go:38-55 | `#` followed by the byte 0xA9 (`©`, which has no capital) panics naming its own UTF-8 text C2 A9 |
| ReaderProps.StringDropsBlanks | reader.go:58-84 | the string loop keeps the first byte, then every non-blank byte up to the next `"`, which it consumes |
| ReaderProps.StringMissingQuote | reader.go:71-76 | without a closing `"` the result is the Error "Missing closing \"" |
| ReaderProps.StringRoundTrip | reader.go:56-96 | a string literal with no blank and no `"` after its first byte reads back as exactly its text |
| ReaderProps.QuoteIsSugar | reader.go:97-112 | `'E` reads as `(quote E)` and `` `E `` as `(quasiquote E)`; an Error from E is passed on |
| ReaderProps.EmptyListVanishes | reader.go:119-122 | `(` and `)` with only blanks between are skipped, and the object after them is returned |
| ReaderProps.WordAtom | reader.go:228-234 | an atom that starts with a letter that cannot begin `inf` or `nan` is neither an integer nor a float: it is the upper-cased identifier |
| ReaderProps.ReadsWord | reader.go:198-234 | such a word reads as that word in upper case |
| ReaderProps.ReadsList | reader.go:136-180 | `(a b)` reads as a two-element list, and the closing `)` is consumed |
| ReaderProps.ReadsListOfWords | reader.go:113-180 | for any n >= 1 words that are not numbers and hold no delimiter, the first not `lambda`: `(w1 … wn)` reads as the chain of their upper-cased symbols in order, ending in nil, and `(w1 … wn . v)` as the chain ending in the symbol of `v`; the closing `)` is consumed |
| ReaderProps.ListReadsWords | reader.go:139-176 | the list loop over any run of such words appends their symbols, in order, to the elements read so far, then closes on `)` or sets the dotted tail |
| ReaderProps.ListHeadJoins | reader.go:139-176 | the text such a list is read from is the words joined by blanks, then `)` or ` . v)` |
| ReaderProps.ReadsDotted | reader.go:155-162 | the object after `.` becomes the cdr of the last cell |
| ReaderProps.ReadsDottedThenMore | reader.go:162-174 | an element after a dotted tail starts a new cell in its place, so the tail is lost |
| ReaderProps.IdentityLambdaParams | reader.go:273-288 | `(lambda` hands over to the lambda reader, which reads the parameter list up to its `)` |
| ReaderProps.ReadsLambda | reader.go:244-303 | `(lambda (x) x)` reads as a Lambda with parameter `X` and body `X`, and the form's own `)` is left unread |
| ReaderProps.ReadsLambdaOfWords | reader.go:244-303 | for any such words, `(lambda (w1 … wn) B` is a fresh Lambda with the parameters `W1 … Wn` in source order and the one expression read for B as its body; a panic from B is passed on, and so is an Error body when n > 0; the form's `)` is left unread |
| ReaderProps.ParamsReadWords | reader.go:275-296 | the parameter loop over any words up to `)` collects their upper-cased symbols in source order, then reads the body after the `)` |
| ReaderProps.ParamMustBeIdentifier | reader.go:286-287 | a parameter that reads as an Integer panics on its conversion to `*Identifier` |
| ReaderProps.ReadsLambdaNumberParam | reader.go:244-288 | `(lambda (w1 … wk n)` with `n` a decimal integer panics, whatever words come before it |
| ReaderProps.LambdaWithoutParameters | reader.go:250-252 | a lambda form without a parameter list is the Error "Missing opening (", not a panic |
| Builtins.Lookup | builtins.go:7-285 | a name has a builtin exactly when it is one of the ten keys of the table |
| Builtins.Combine | builtins.go:14 | `x op= y` on int64 gives an int64 and panics exactly on an integer division by zero |
| Builtins.ArithFold | builtins.go:12-20 | the result is the first argument or the Error "Expecting an Integer"; only that Integer's value is written; the only panic is a division by zero |
| Builtins.CompareChain | builtins.go:124-134 | a comparison writes nothing and answers TRUE, FALSE or the Error "Expecting an Integer" |
| Builtins.FloatArith | builtins.go:21-30 | the Float branch is decided without float values exactly when there are no later arguments or one of them is not a Float |
| Builtins.Apply | builtins.go:9-33 | a builtin called with no arguments panics on `args[0]` |
| Builtins.ArithLoop | builtins.go:12-18 | the loop ends in the result and heap `ArithFold` gives |
| Builtins.CompareLoop | builtins.go:124-134 | the loop ends in the answer `CompareChain` gives |
| Builtins.Call | builtins.go:9-33 | running the loops gives what `Apply` gives |
| BuiltinProps.ArithIsLeftFold | builtins.go:12-20 | when no later argument is the first object itself, the Integer branch is the left fold of the values, written into the first argument |
| BuiltinProps.AddFoldIsSum | builtins.go:14 | the left fold of `+` is the sum, wrapped to int64 once |
| BuiltinProps.SubFoldIsDifference | builtins.go:42 | the left fold of `-` is the first value minus the sum of the rest, wrapped |
| BuiltinProps.MulFoldIsProduct | builtins.go:70 | the left fold of `*` is the product, wrapped |
| BuiltinProps.AddReturnsSumInFirst | builtins.go:10-20 | `(+ a b ...)` on distinct Integers returns the first object, which now holds the wrapped sum |
| BuiltinProps.AliasedOperandsReadNewValue | builtins.go:12-14 | in `(+ x x x)` each later operand is re-read after the write, so the result is four times the value |
| BuiltinProps.AliasedDivisionPanics | builtins.go:96-98 | in `(/ x y x)` with `x` non-zero and smaller in size than `y`, the first step writes 0 into `x`, and the call panics on 0 / 0 |
| BuiltinProps.ArithFoldSplit | builtins.go:12-18 | folding a concatenation folds the first part, then the rest from the heap where it stopped |
| BuiltinProps.TypeErrorKeepsWrites | builtins.go:13-17 | a non-Integer operand gives "Expecting an Integer", and the writes already made stay |
| BuiltinProps.SingleArgument | builtins.go:12-20 | with one argument, arithmetic returns it untouched and a comparison answers TRUE |
| BuiltinProps.CompareIsForAll | builtins.go:124-134 | on Integers, a comparison is TRUE exactly when the first value stands in the relation to every later value |
| BuiltinProps.FalseStopsChain | builtins.go:126-128 | a failing test answers FALSE at once, and later operands are not even type-checked |
| BuiltinProps.ComparesWithFirstOnly | builtins.go:122-134 | `(< 1 3 2)` is TRUE |
| BuiltinProps.UnexpectedFirstArgument | builtins.go:31-32 | a first argument that is neither Integer nor Float gives the Error naming its printed form |
| Interpreter.ApplyEvolves | builtins.go:9-33 | a builtin only ever rewrites the value of an Integer |
| Interpreter.BindParams | interpreter.go:154-156 | binding panics exactly when there are fewer arguments than parameters; otherwise only frame bindings change |
| Interpreter.ExtendEnv | interpreter.go:151-159 | it panics exactly on too few arguments; otherwise it builds a fresh frame and the heap only evolves |
| Interpreter.Eval | interpreter.go:29-142 | evaluation only adds objects and never changes an object's kind |
| Interpreter.EvalPair | interpreter.go:42-138 | the same heap invariant for the Pair case |
| Interpreter.EvalCall | interpreter.go:62-115 | the same heap invariant for a call with an Identifier head |
| Interpreter.ApplyFunction | interpreter.go:144-149 | the same heap invariant for applying a lambda |
| Interpreter.EvalArgs | interpreter.go:177-195 | on success there is one value per list element, none an Error; a stop is an Error value |
| Interpreter.EvalArgsLoop | interpreter.go:177-195 | the loop gives what `EvalArgs` gives |
| Interpreter.ExtendFunctionEnv | interpreter.go:151-159 | the binding loop gives what `ExtendEnv` gives |
| InterpreterProps.SelfEvaluating | interpreter.go:31-32 | booleans, chars, strings, errors, numbers and vectors evaluate to themselves |
| InterpreterProps.LambdaTakesEnv | interpreter.go:33-35 | a Lambda evaluates to itself, and its `Env` is now the current environment |
| InterpreterProps.IdentifierLookup | interpreter.go:36-41 | an Identifier is its binding, or the Error "Unkown identifier" with its name |
| InterpreterProps.DefineBindsUnevaluated | interpreter.go:63-68 | `DEFINE` returns nil and binds the name to the unevaluated expression; no other lookup changes |
| InterpreterProps.DefinedNameYieldsExpression | interpreter.go:63-68 | after `(DEFINE x e)`, `x` evaluates to the expression `e` itself |
| InterpreterProps.DefineNeedsIdentifier | interpreter.go:64 | a `DEFINE` target that is not an Identifier panics |
| InterpreterProps.QuoteReturnsArguments | interpreter.go:70-72 | `(QUOTE a ...)` answers the argument list itself |
| InterpreterProps.QuoteSugarIsUnknownProc | interpreter.go:70-115 | the reader's lower-case `quote` is an unknown procedure unless it is bound to a lambda |
| InterpreterProps.BuiltinBeforeEnvironment | interpreter.go:74-81 | a builtin name is applied as the builtin, to the evaluated arguments, whatever the environment binds |
| InterpreterProps.BuiltinWithoutArguments | interpreter.go:75 | a builtin with no argument list panics in the type assertion |
| InterpreterProps.UnknownProc | interpreter.go:115 | any other head that is not bound to a Lambda gives "Unkown proc", and nothing is evaluated |
| InterpreterProps.ErrorStopsArguments | interpreter.go:180-185 | the first argument that evaluates to an Error is the answer |
| InterpreterProps.ArgumentsInOrder | interpreter.go:180-192 | arguments are evaluated left to right, each from the heap the previous one left |
| InterpreterProps.AnonymousArityMismatch | interpreter.go:45-58 | a Lambda in head position with the wrong argument count gives "arguments do not match" |
| InterpreterProps.NamedLambdaTooFewArguments | interpreter.go:97-111 | a Lambda called by name with no arguments, while it has parameters, panics with an index out of range |
| InterpreterProps.AnonymousLambdaNoArguments | interpreter.go:45-61 | a list whose only element is a Lambda applies it to no arguments after setting its `Env` to the current frame, and panics with an index out of range when the Lambda has parameters |
| InterpreterProps.BindParamsBinds | interpreter.go:154-156 | distinct parameters are bound to the arguments by position, and every other name keeps its binding |
| InterpreterProps.ExtendEnvBinds | interpreter.go:151-159 | the application frame binds parameter k to argument k and passes every other name to the lambda's `Env` |
| InterpreterProps.IdentityApplication | interpreter.go:45-56 | `((lambda (x) x) e)` answers the value of `e` |
| InterpreterProps.ApplyLambdaNode | interpreter.go:45-56 | a Lambda applied to one argument takes the environment, evaluates the argument, then applies |
| InterpreterProps.ApplyIdentity | interpreter.go:144-149 | the identity lambda gives back its argument |
| InterpreterProps.NamedCallSeesCallerScope | interpreter.go:110-111 | dynamic scope: a free name in a lambda called by name is looked up in the caller's environment |
| InterpreterProps.SetEnvKeepsLookups | interpreter.go:34 | overwriting a Lambda's `Env` changes no binding |
| Splitting.BeforeSemicolon | take-three.go:194-201 | the cut line is the prefix of the line before its first `;`, and it holds no `;` |
| Splitting.CutLines | take-three.go:193-204 | every line is cut at its first `;`, and the order is kept |
| Splitting.StripIsUncommented | take-three.go:189-207 | `stripComments` equals a reference that drops newlines and everything from `;` to the end of its line and keeps every other byte, as Go does on valid UTF-8 |
| Splitting.JoinEmptyIsConcat | take-three.go:206 | joining with the empty separator is concatenation |
| Splitting.StripCommentsLoop | take-three.go:189-207 | the loops give `StripComments`, and so the reference text |
| Splitting.TokensShape | eval.go:193-207 | tokens hold no space and join back to the padded text; `eval.go` answers no tokens exactly for blank input, while `take-three.go` always answers at least one |
| Splitting.CloseFrom | take-three.go:225-228 | the index found is the first `)` at or after the start, and none means there is no `)` |
| Splitting.DefineSpan | take-three.go:218-239 | the define branch either panics on an index out of range or resumes strictly later, within the tokens |
| Splitting.Expand | take-three.go:239-244 | tokenising the lambda text keeps the panic and the resume index |
| Splitting.QuoteSpan | eval.go:265-280 | the quote branch either panics on an index out of range or resumes strictly later |
| Splitting.RewriteFrom | take-three.go:213-248 | the only panic of the main loop is an index out of range |
| Splitting.Branch | eval.go:234-283 | one pass either panics on an index out of range or moves strictly forward |
| Splitting.ScanToClose | take-three.go:225-228 | the scan stops at `CloseFrom` and collects the tokens before it |
| Splitting.DefineStep | take-three.go:218-239 | the branch with its loops gives `DefineSpan` |
| Splitting.QuoteStep | eval.go:265-280 | the branch with its loop gives `QuoteSpan` |
| Splitting.BranchStep | eval.go:234-283 | the loop body gives `Branch` |
| Splitting.RewriteLoop | eval.go:229-287 | `rewrite` gives `Rewrite` |
| SplittingProps.CopiesPlainTokens | take-three.go:245-247 | tokens that are neither a shorthand define nor, in `eval.go`, a quote are copied unchanged |
| SplittingProps.RewriteKeepsPlainList | take-three.go:209-251 | `take-three.go` leaves a list without shorthand definitions as it is |
| SplittingProps.QuoteAtom | eval.go:269-272 | `' x` becomes `( quote x )` |
| SplittingProps.QuoteList | eval.go:273-280 | a quoted list is copied up to its first `)`, which is copied once more, so it closes the quoted list |
| SplittingProps.QuotedListExample | eval.go:265-286 | `'(a)` is rewritten as the tokens of `( quote ( a ) )` |
| SplittingProps.DefineSwallowsRest | eval.go:252-255 | `eval.go`: a shorthand define takes every later token as its body |
| SplittingProps.DefineTakesBodyToClose | take-three.go:232-237 | `take-three.go`: the body runs to the next `)`, and the loop goes on after it |
| SplittingProps.UnclosedDefinePanics | take-three.go:225-228 | a define with no `)` after its parameters reads past the end and panics |
| SplittingProps.TrailingDefinePanics | take-three.go:218 | `define` as the last token reads past the end and panics |
| SplitParse.ParseSpec | take-three.go:115-176 | a parse leaves a suffix of the tokens and only adds objects; a success consumes a token; the only panics are index and slice out of range |
| SplitParse.ListSpec | take-three.go:120-126 | the same bounds after `(` |
| SplitParse.ElemsSpec | take-three.go:128-141 | the same bounds for the element loop |
| SplitParse.VectorSpec | take-three.go:154-164 | a vector leaves its `)` as the next token |
| SplitParse.AtomSpec | take-three.go:142-175 | the same bounds for an atom; `ParseHugeFloat` and `ParseCharLiteral` state its float range and its char literals |
| SplitParse.TokenStream.constructor | take-three.go:16 | the stream holds the given tokens and heap |
| SplitParse.TokenStream.Parse | take-three.go:115-176 | the object and the tokens left are those `ParseSpec` gives |
| SplitParse.TokenStream.ParseList | take-three.go:120-141 | the list loops give `ListSpec` |
| SplitParse.TokenStream.ParseAtom | take-three.go:142-175 | the atom branch gives `AtomSpec` |
| SplitParseProps.ParseSymbol | take-three.go:168 | a symbol token reads as its Identifier, and nothing is allocated |
| SplitParseProps.ParseUnparse | take-three.go:115-141 | round trip: the tokens of any list of symbols parse back to that datum, consuming exactly those tokens |
| SplitParseProps.ElemsUnparse | take-three.go:128-141 | the element loop reads the rest of a list's tokens and ends the chain as they say |
| SplitParseProps.ParseInteger | take-three.go:143-174 | an integer token allocates a new Integer holding its value |
| SplitParseProps.ParenPairIsNotNil | take-three.go:121 | `( )` is not the empty list: the `)` is read as an Identifier |
| SplitParseProps.ParseSymbolLike | take-three.go:149-168 | any other token reads as its lower-cased Identifier |
| SplitParseProps.ParseCharLiteral | take-three.go:165-166 | a token whose second byte is `\` reads as a Char holding the UTF-8 text of its lower-cased last byte |
| SplitParseProps.BackslashIsNotNumeric | take-three.go:143-148 | such a token is neither an int64 nor a float |
| SplitParseProps.ParseHugeFloat | take-three.go:143-168 | `1e400` is out of float64 range and reads as the Identifier `1e400` |
| SplitParseProps.VectorLeavesClose | take-three.go:160-164 | a vector reads up to `)` and leaves it for the caller |
| SplitParseProps.VectorAtEnd | take-three.go:156-158 | `#(` as the last token gives the Error "missing closing )" |
| SplitParseProps.UnclosedListPanics | take-three.go:128 | an unclosed list runs off the end of the tokens and panics |
| SplitEval.UnknownHead | eval.go:119 | the unknown-head text starts with `unknown identifier ` and holds at least as many bytes as the name; `UnknownHeadReadsBack` recovers the name from it |
| SplitEval.UnknownHeadReadsBack | eval.go:119 | the name is read back from the unknown-head text of either file: after the prefix in `take-three.go`, and by undoing `strconv.Quote` in `eval.go` |
| SplitEval.MathOp | eval.go:96-97 | exactly the nine operator names are operators |
| SplitEval.BeginBody | eval.go:58-73 | the `begin` loop succeeds exactly on a proper list and gives back its elements |
| SplitEval.ParamNames | eval.go:85-93 | on success, the list is exactly the Identifiers of the names returned |
| SplitEval.Eval | eval.go:24-126 | evaluation only adds objects and never changes an object's kind |
| SplitEval.EvalSeq | eval.go:34-41 | the same heap invariant for a Begin body |
| SplitEval.EvalForm | eval.go:45-120 | the same heap invariant for a form |
| SplitEval.EvalArgs | eval.go:100-115 | on success the list is proper, with one value per element |
| SplitEval.ApplyFunction | eval.go:289-303 | too few arguments panic, and the heap invariant holds |
| SplitEval.MathsComparisons | eval.go:321-719 | the heap invariant holds for the operators |
| SplitEval.IntFold | eval.go:329-347 | the heap invariant holds for the Integer loop |
| SplitEval.FloatFold | eval.go:348-366 | the Float loop answers only "expecting a float" when it is decided |
| SplitEval.Run | eval.go:13-22 | the heap invariant holds for `Eval(code)` |
| SplitEval.CollectBody | eval.go:59-73 | the loop gives `BeginBody` |
| SplitEval.CollectParams | eval.go:80-93 | the loop gives `ParamNames` |
| SplitEval.RunBegin | eval.go:34-41 | the loop gives `EvalSeq` |
| SplitEval.CollectArgs | eval.go:101-114 | the loop gives `EvalArgs` |
| SplitEval.IntLoop | eval.go:329-347 | the loop gives `IntFold` |
| SplitEvalProps.BeginBodyOfList | eval.go:58-73 | the `begin` loop reads back exactly the elements of a written-out list |
| SplitEvalProps.ParamsOfSymbols | eval.go:85-93 | the parameter loop reads back the names of a list of Identifiers |
| SplitEvalProps.SelfEvaluatingValues | eval.go:26-27 | strings, booleans, chars, integers and floats evaluate to themselves |
| SplitEvalProps.IdentifierLookup | eval.go:28-33 | an Identifier is its binding, or "unkown identifier" with its name |
| SplitEvalProps.SequenceOfValues | eval.go:34-41 | a sequence of values answers its last value |
| SplitEvalProps.BeginAnswersLast | eval.go:34-41 | a Begin answers its last expression's value, and nil when empty |
| SplitEvalProps.ErrorObjectPanics | eval.go:122-123 | evaluating an Error object panics with its message |
| SplitEvalProps.OtherHeadIsData | eval.go:44-125 | a list whose head is not an Identifier is answered as it is |
| SplitEvalProps.BeginFormIsUnevaluated | eval.go:58-73 | `(begin e ...)` is the Begin of the unevaluated expressions |
| SplitEvalProps.EmptyBeginPanics | eval.go:59 | `(begin)` panics |
| SplitEvalProps.DefineBindsValue | eval.go:74-78 | `(define x e)` binds `x` to the value of `e` and answers nil |
| SplitEvalProps.DefineNeedsName | eval.go:75 | define of anything but an Identifier panics |
| SplitEvalProps.LambdaClosesOverEnv | eval.go:79-95 | a lambda keeps its parameter names, its Begin and the environment it was made in |
| SplitEvalProps.LambdaNeedsBegin | eval.go:83 | a lambda body that is not a Begin panics |
| SplitEvalProps.CallWithString | take-three.go:84-102 | a call by name evaluates its arguments and applies the bound lambda |
| SplitEvalProps.ApplySeesDefiningScope | eval.go:289-303 | lexical scope: a free name has the value bound where the lambda was made |
| SplitEvalProps.CallSeesDefiningScope | eval.go:98-116 | the same seen through a call by name |
| SplitEvalProps.TooFewArgumentsPanics | eval.go:298-300 | fewer arguments than parameters panic |
| SplitEvalProps.CallOfNonLambdaPanics | eval.go:116 | calling a name bound to a non-lambda panics |
| SplitEvalProps.UnknownHeadMessages | eval.go:119 | an unbound head gives the Error `unknown identifier ` plus the name in `take-three.go`, and in `eval.go` `unknown identifier &main.Identifier{Value:` plus the `strconv.Quote` text of the name plus `}`, which is the name between quotes when it has no `"`, `\` or control byte |
| SplitEvalProps.NoOperatorsInTakeThree | take-three.go:82-105 | `take-three.go` has no operators: `(+ ...)` with `+` unbound is an unknown identifier |
| SplitEvalProps.QuoteAnswersDatum | eval.go:51-57 | `(quote x)` answers `x` unevaluated, and nil becomes an empty pair |
| SplitEvalProps.DisplayAnswersNil | eval.go:47-50 | `(display x)` answers nil once `x` prints |
| SplitEvalProps.DisplayOfDefinitionPanics | eval.go:47-50 | `(display (define y e))` panics on the nil from define |
| SplitEvalProps.IntFoldIsLeftFold | eval.go:329-347 | the Integer loop is the left fold of the values, answered as a NEW Integer |
| SplitEvalProps.IntFoldComparesWithFirst | eval.go:493-513 | the comparison loop tests the first operand against every later one |
| SplitEvalProps.OperatorForm | eval.go:321-324 | the operator form evaluates its first operand, then runs the loop |
| SplitEvalProps.ArithmeticIsLeftFold | eval.go:327-470 | `+ - * /` over Integers is the wrapped int64 left fold, in a new Integer, and the operands are unchanged |
| SplitEvalProps.AdditionIsWrappedSum | eval.go:327-347 | `(+ a b ...)` is a new Integer holding the wrapped sum |
| SplitEvalProps.ComparisonTestsFirst | eval.go:491-513 | the comparisons test the first operand against each later one |
| SplitEvalProps.LessThanIsNotChained | eval.go:491-513 | `(< 1 3 2)` is true |
| SplitEvalProps.SingleOperandPanics | eval.go:331-332 | an operator with one operand panics |
| SplitEvalProps.NonNumberFirstOperand | eval.go:718 | a non-number first operand gives "unknown operator" |
| SplitEvalProps.MixedOperands | eval.go:334-356 | mixing Integer and Float gives "expecting an integer" or "expecting a float" |
| SplitEvalProps.EmptyProgramIsNil | eval.go:13-17 | a program with no tokens is nil |
| Lexing.SkipWS | lexer/lexer.go:87-91 | every byte skipped is white space, and the current byte afterwards is not |
| Lexing.StringEnd | lexer/lexer.go:65-75 | the string scan stops at the first `"` or 0 byte after the start, and nothing before it is either |
| Lexing.DigitsEnd | lexer/lexer.go:77-85 | the number scan stops at the first non-digit, and everything before it is a digit |
| Lexing.NextTokenSpec | lexer/lexer.go:19-58 | a token moves the lexer forward and is a parenthesis, an operator IDENT, STRING, DIGIT or EOF |
| Lexing.Lexer.constructor | lexer/lexer.go:13-17 | a new lexer is primed at read index 1 |
| Lexing.Lexer.Consume | lexer/lexer.go:97-113 | one byte is read, and the row and column are those counted after that many reads |
| Lexing.Lexer.ConsumeWS | lexer/lexer.go:87-91 | the read index becomes `SkipWS` of the old one |
| Lexing.Lexer.ConsumeString | lexer/lexer.go:65-75 | the lexer stops at `StringEnd`, and the value is the text between |
| Lexing.Lexer.ReadNumber | lexer/lexer.go:77-85 | the lexer stops at `DigitsEnd`, and the literal is the run of digits |
| Lexing.Lexer.NextToken | lexer/lexer.go:19-58 | the token and the new read index are those `NextTokenSpec` gives |
| LexingProps.RowsCountNewlines | lexer/lexer.go:97-113 | the row is the number of newlines read |
| LexingProps.ColumnIsOffsetInLine | lexer/lexer.go:103-108 | the column is the offset of the byte within its line |
| LexingProps.SameLine | lexer/lexer.go:106-108 | along a line the row stays and the column grows by one per byte |
| LexingProps.TokenPosition | lexer/lexer.go:25-48 | a token is stamped with the row and column of its first byte |
| LexingProps.TokenLiteralIsText | lexer/lexer.go:24-48 | a literal is the text the token spans; a number is a maximal run of digits; a string stops at a `"` or 0 |
| LexingProps.EofIsSticky | lexer/lexer.go:41-42 | past the end every call answers EOF |
| LexingProps.ClosingQuoteOpensString | lexer/lexer.go:36-40 | a string's closing quote opens a second, empty string |
| LexingProps.LexingPairs | lexer/lexer_test.go:51-62 | `(+ 1 1 1)` lexes as `( + 1 1 1 )` and then EOF |
| LexingProps.SingleByteToken | lexer/lexer.go:24-35 | a parenthesis or operator is a token of its own byte |
| LexingProps.DigitToken | lexer/lexer.go:44-48 | a digit followed by a non-digit is a one-digit number |
| LexingProps.AfterBlank | lexer/lexer.go:21 | white space before a token changes nothing but where the search starts |
| LexingProps.PanicsOnUnknownByte | lexer/lexer.go:49-52 | the lexer panics exactly on a byte it has no case for, and the message names the byte, row and column |
| LexingProps.LetterPanics | lexer/lexer_test.go:28 | `lambda` panics on its first letter instead of lexing as IDENT |
| Parsing.Advance | parser/parser.go:74-77 | the next token becomes current, and the lexer moves forward |
| Parsing.Start | parser/parser.go:21-27 | a new parser state satisfies the parser invariant |
| Parsing.StatementSpec | parser/parser.go:45-60 | EOF gives nothing; an IDENT is an Identifier and does not move the parser; the other tokens panic or start a call |
| Parsing.CallSpec | parser/parser.go:79-114 | a parsed call starts with an IDENT, holds only calls, and moves forward |
| Parsing.ArgsSpec | parser/parser.go:101-113 | the argument loop gives a call of the head token whose arguments are calls |
| Parsing.ProgramSpec | parser/parser.go:30-43 | the program loop ends on EOF and extends the statements already read |
| Parsing.ParseProgramSpec | parser/parser.go:30-43 | a program is made of Identifiers and call trees |
| Parsing.Parser.constructor | parser/parser.go:21-27 | the parser holds the lexer and the two tokens |
| Parsing.Parser.NextToken | parser/parser.go:74-77 | the new state is the one `Advance` gives |
| Parsing.Parser.ParseExpression | parser/parser.go:62-72 | the result is the one `ExpressionSpec` gives |
| Parsing.Parser.ParseStatement | parser/parser.go:45-60 | the result and the new state are those `StatementSpec` gives |
| Parsing.Parser.ParseCallExpression | parser/parser.go:79-114 | the result and the new state are those `CallSpec` gives |
| Parsing.Parser.ParseProgram | parser/parser.go:30-43 | the result and the new state are those `ProgramSpec` gives |
| ParsingProps.IdentifierArgumentHangs | parser/parser.go:102-105 | an identifier as a call argument makes the loop run forever |
| ParsingProps.NumberStatementPanics | parser/parser.go:62-69 | a number where a statement is expected panics: there is no prefix parse function for it |
| ParsingProps.EmptyCallPanics | parser/parser.go:82-85 | `)` right after `(` panics |
| ParsingProps.ParseIdentifierTest | parser/parser_test.go:9-17 | `*` parses as one Identifier, which prints back as `*` |
| ParsingProps.NumberArgumentPanics | parser/parser.go:102-105 | a number as a call argument panics |
| ParsingProps.ParseListTestPanics | parser/parser_test.go:19-35 | `(+ 1 1 1)` panics on its first `1`, so it does not print back |
| ParsingProps.TwoCallsFirstStatement | parser/parser.go:96-99 | the outer call ends at the `)` of its first argument |
| ParsingProps.StrayCloseOfProgramPanics | parser/parser.go:33-39 | a stray `)` at top level panics |
| ParsingProps.TwoCallsText | parser/ast.go:34-41 | `+` applied to `(- )` and `(* )` prints as `(+ (- ) (* ))` |
| ParsingProps.TwoCallArgumentsPanic | parser/parser.go:96-110 | `(+ (- ) (* ))` does not read back: it panics on the last `)` |
| ChainRoundTrip.OneLine | lexer/lexer.go:97-113 | on the one-line chain text, the row is 0 and the column is the index of the byte read |
| ChainRoundTrip.ReadCall | parser/parser.go:79-114 | the call at each depth is read back and leaves its closing `)` current |
| ChainRoundTrip.InspectChain | parser/ast.go:34-41 | a call prints as its opening part and then its closing parentheses |
| ChainRoundTrip.ReadStatement | parser/parser.go:45-49 | a statement at the outermost `(` is the whole chain |
| ChainRoundTrip.ReadProgramFrom | parser/parser.go:30-43 | the program loop reads the chain and stops at EOF |
| ChainRoundTrip.ReadProgram | parser/parser.go:21-43 | `ParseProgram` reads the chain text as one program holding the chain |
| Syntax.Inspect | parser/ast.go:34-100 | a call prints as `(`, its name and a blank, ending in `)`; a function prints as `(lambda (`, ending in `)`. That the text of a chain of calls reads back as the same chain is `ChainRoundTrip.ChainReadsBack`, and the exact text is `ChainRoundTrip.PrintChain` |
| ChainRoundTrip.PrintChain | parser/ast.go:60-68 | the outermost call and the program print the chain text |
| ChainRoundTrip.ChainReadsBack | parser/parser.go:79-114 | round trip: the printed chain reads back as the same chain, and printing it again gives the text |
| ObjectTypes.Integer.constructor | object/object.go:21-24 | a new Integer holds the given value |
| ObjectTypes.TypeOf | object/object.go:27-44 | the type is `INT_OBJ` exactly for an Integer and `BUILTIN_OBJ` exactly for a Builtin |
| ObjectTypes.Inspect | object/object.go:32-49 | a Builtin prints `<#procedure>`, and an int64 Integer prints text that parses back to its value |
| ObjectTypes.ProcedureIsNoNumber | object/object.go:47-49 | `<#procedure>` does not parse as a number |
| ObjectTypes.InspectTellsApart | object/object.go:32-49 | equal printed texts mean the same kind of object, and the same value for Integers |
| EvaluatorBuiltins.Table | evaluator/builtins.go:7-59 | exactly `+ - * /` have a builtin, and each entry is its own operator |
| EvaluatorBuiltins.FoldSpec | evaluator/builtins.go:13-16 | the fold panics only on a type assertion or a division by zero, and a fold over some operands gives an int64 |
| EvaluatorBuiltins.CallSpec | evaluator/builtins.go:9-18 | a call panics only on no arguments, a type assertion or a division by zero; a success has an Integer first argument |
| EvaluatorBuiltins.Call | evaluator/builtins.go:9-18 | succeeds exactly when `CallSpec` does, with a FRESH Integer holding its value; the arguments are not modified |
| EvaluatorBuiltins.FoldSpecIsFoldInts | evaluator/builtins.go:13-16 | over Integers the fold is the plain left fold of their values |
| EvaluatorBuiltins.CallIsFold | evaluator/builtins.go:9-18 | a call over Integers is the left fold from the first value |
| EvaluatorBuiltins.AddIsSum | evaluator/builtins.go:8-20 | `+` gives the wrapped sum |
| EvaluatorBuiltins.SubtractIsDifference | evaluator/builtins.go:21-33 | `-` gives the first value minus the rest, wrapped |
| EvaluatorBuiltins.MultiplyIsProduct | evaluator/builtins.go:34-46 | `*` gives the wrapped product |
| EvaluatorBuiltins.DivideFaultsOnZero | evaluator/builtins.go:52-55 | the division fold panics exactly when some divisor is 0 |
| EvaluatorBuiltins.DivideByZeroPanics | evaluator/builtins.go:47-58 | `/` over Integers panics exactly when a later value is 0 |
| EvaluatorBuiltins.SingleArgument | evaluator/builtins.go:10-18 | one Integer argument gives its own value |
| EvaluatorBuiltins.FoldRejectsBuiltins | evaluator/builtins.go:14 | outside `/`, the fold panics exactly when some operand is not an Integer |
| EvaluatorBuiltins.CallRejectsBuiltins | evaluator/builtins.go:10-14 | outside `/`, a call panics exactly when some argument is not an Integer |

## Left out

- `Load` (interpreter.go:10-26) reads `./lib/builtins.scm` from disk and evaluates it. File I/O is outside the model, and `ReadAll` and the Scheme library it loads are not part of this model.
- The printing side effects are not modelled: `ap`, `apMsg`, the `fmt.Print` calls of the parser and the output of `display`. Only their return values are.
- Runtime panic texts are abbreviated: Go names the dynamic type in a failed type assertion (`interface conversion: main.Object is *main.Integer, not *main.Pair`), while `Objects.NotAPair`, `Builtins.NotAString`, `Interpreter.NotAnIdentifier`, `SplitEval.NotABegin`, `SplitEval.NotALambda` and `ReaderSpec.NotIdentifier` say only which type was expected; `Common.IndexOutOfRange` and `Common.SliceOutOfRange` leave out the `[i] with length n` part, and `Objects.NilDeref` the `runtime error: ` prefix. Only `EvaluatorBuiltins.NotAnInteger` and `Builtins.NoArguments` are Go's exact texts. Which outcome is a panic, and which kind, is modelled throughout.
- Panic values: the lexer and parser panic with the byte count that `fmt.Printf` returns after printing the message. The model carries the printed message as the panic text.
- float64 arithmetic and its `%f` text are not modelled. A result that depends on a float value is `Undetermined`, and a float literal is kept as its text.
- `strconv.ParseFloat` is modelled for decimal, `inf`/`infinity` and `nan` syntax only. Hexadecimal floats and digit-separating underscores are not modelled, and neither are underscores in `strconv.ParseInt`.
- GoText.Upper and GoText.Lower: `strings.ToUpper` on an identifier's text (reader.go:234) and `strings.ToLower` in the number syntax are modelled on ASCII bytes only; a byte from 0x80 up is copied, where Go decodes the UTF-8 and maps each rune. The `#` reader's single byte is mapped by `UpperRune`, which is Go's mapping for every rune up to U+00FF.
- GoText.TrimSpace: only the ASCII white space (tab, newline, vertical tab, form feed, carriage return, blank) is trimmed. Go's `strings.TrimSpace` also trims Unicode white space (U+0085, U+00A0, U+1680, U+2000-U+200A, U+2028, U+2029, U+202F, U+205F, U+3000), so a printed Pair (object.go:183) or Vector (object.go:238) whose edge text holds one of those keeps it in the model.
- StripIsUncommented and StripComments: Go's `range` over a line decodes UTF-8, so a byte that is not valid UTF-8 comes out as U+FFFD (EF BF BD). The model copies every byte, which is the same only on valid UTF-8 input.
- Quote: bytes from 0x80 up are copied, as `strconv.Quote` does for printable runes in valid UTF-8. Its `\x` escapes of invalid UTF-8 and its `\u` escapes of non-printable runes from U+0080 up are not modelled.
- The environment type (`NewEnvironment`, `NewEnclosedEnvironment`, `Get`, `Set`) is not part of this model; `Env` states the behaviour the evaluators rely on.
- Nested: that every frame encloses only older frames is proved to survive `NewEnclosed` and `Set`, but not threaded through a whole evaluation. `Get` stops its walk at a link that does not go to an older frame, where Go would follow it.
- The `car`/`cdr` helpers and the `Begin` type of the second generation are not part of this model either. They are modelled from their use; printing a Begin is `Unmodelled`.
- `object.Cons` and `IDENT_OBJ`, which `reader.go` uses, are modelled as the Pair and Identifier of `object.go`.
- `bufio` read errors other than EOF cannot occur on a string source and are not modelled.
- The scoped builtins table is empty in the source, so no scoped builtin is modelled.
- Interpreter.Eval: evaluation is bounded by a `fuel` count, and `OutOfFuel` stands for a Go evaluation that runs deeper than the fuel allows, including one that never ends.
- SplitEval.Eval: bounded by `fuel` in the same way.
- Builtins.FloatArith: the Float branch of the arithmetic builtins gives only its type errors and its one-argument case; other results are `Undetermined`.
- SplitEval.FloatFold: the Float loop of `mathsComparisons` gives only its type errors; other results are `Undetermined`.
- Parsing.Parser.ParseCallExpression: where Go loops for ever on an identifier argument, the method returns `Hangs`, which is what `CallSpec` answers there.
- EvaluatorBuiltins.Call: a nil `object.Object` argument is not modelled. Its type assertion panics with a different message, and no caller passes one, because `evaluator/eval.go` is entirely commented out.
- EvaluatorBuiltins.Call: Go's `int` is taken to be 64 bits wide, as on the 64-bit platforms the program targets.

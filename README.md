# germspeak front end in Dafny

This project models the front end of the germspeak toy compiler. It covers two pieces.

The first is the C++ interpreter:
- **Lexer.** `Tokenizer::nextTok` is a cursor over the source text that returns one `(kind, lexeme)` token per call. `isstringdigit` and `resetcontent` are included. The text is a `string` with one `char` per byte of the `std::string`.
- **AST.** The node classes are modelled as the values `Expr`, `Prototype` and `FunctionDef`.
- **Parser.** The `Parser` class uses recursive descent with precedence climbing over one current token `currtok`. It shares the tokenizer and has a `BinOpPrecedence` table.
- **Code generator.** This is the decision logic of `codegen` in `VariableNode`, `BinaryExprNode` and `CallNode`, run against an abstract backend:
  - the functions the module declares are a map from name to arity;
  - `NamedValues` is a map from name to value;
  - every instruction the IR builder would create is appended to a log.

The second is the separate Python tokenizer: `keywords`, `isgoodascii` and `tokenizer`.

Every routine of the source that works by mutation and loops is a method, proved against a pure specification function:

| method | specification function |
|---|---|
| `Tokenizer.NextTok` | `Scan` |
| each `Parser` method | its `Parsed*` function |
| `CodeGenerator.Codegen` | `Gen` |
| `Tokenize` | `Lex` |

Most lemmas beside the functions state what the routines guarantee for every input. A few work one concrete input through the code to show a behaviour; the table marks them as illustrations.

The parsing routines can fail to terminate:
- the argument loop of `parseIdentifier` and the parameter loop of `parseProto` can spin;
- the lexer can stop advancing.

So every parsing function takes a `fuel` bound. `Halted(OutOfFuel)` stands for a run that does not end.

`stod` throws in two cases:
- `invalid_argument` on an empty lexeme, modelled as `Halted(InvalidNumber)`;
- `out_of_range` on a numeral whose value rounds past the largest double, that is, from 2^1024 - 2^970 on. This is modelled as `Halted(OutOfRange)`. Every numeral of at most 308 digits fits, and every one of 310 digits or more without a leading zero throws.

Code generation has three outcomes:
- `Emitted`: a value;
- `Failed`: the null pointer that `LogErrorV` returns;
- `Crashed`: a null pointer is dereferenced, or handed to the IR builder as an operand.

In several places the code evidently does not do what its authors meant it to. The model follows the code as written, and the lemmas named below make each behaviour explicit:

- **Operator after a closing parenthesis.** `parseParen` evidently means to eat the `)` and carry on with the operator after it. The code reads the token after `)` without storing it in `currtok`, so the operator is dropped: `(1+2)*3` parses as `1+2` (`ParsingFacts.ParenSwallowsOperator`).
- **Call arguments.** `parseIdentifier` evidently means to step past `(` and parse each argument. The code drops the first token after `(` and leaves `currtok` on `(`, so:
  - `f(x)` builds a call with one null argument (`ParsingFacts.CallDropsArgument`);
  - `f(x,y)` never finishes (`ParsingFacts.TwoArgumentsSpin`).
- **The `<` operator.** The table `BinOpPrecedence` lists `<` with precedence 0, and `BinaryExprNode::codegen` has a case for it, so `<` is evidently meant to be an operator. But `GetPrecedence` returns -1 for any entry of 0 or below, and `nextTok` has no token for `<`. The lexer returns an empty number token there, so `a<b` parses as `a` (`ParsingFacts.UnknownEndsExpression`).
- **The operator field.** `BinaryExprNode::codegen` switches on the operator characters `+ - * <`, so the node is evidently meant to hold its operator. The parser stores the operator's precedence (10, 20 or 30) instead. The `switch` matches none of these, so no binary node the parser builds yields a value (`CodegenFacts.StoredPrecedenceNeverEmits`, `CodegenFacts.ParserTreesEmitNoArith`).

Without parentheses the grouping is as precedence climbing intends. For any text `n0 o1 n1 ... ok nk` of numerals and operators among `+ - *`, `parseExpr` reads all of it and returns the one tree that lists the operands and the operators in order, with each operator grouped under its left neighbour exactly when it binds strictly tighter (`ClimbFacts.TextParsesGrouped`). So `1+2*3-4` gives `1 + ((2 * 3) - 4)`, because `-` is given a higher precedence than `+` (`ClimbFacts.MixedOperators`).

## Model

| member | source | states |
|---|---|---|
| Lexer.SkipSpace | interpreter.cpp:72-75 | the whitespace loop stops at the first non-blank character or at the recorded length, and every character it passes is blank |
| Lexer.Capture | interpreter.cpp:120-125 | a captured word lies within the recorded length |
| Lexer.Scan | interpreter.cpp:71-136 | one call of `nextTok` never moves the cursor back, and it returns End only once the cursor is at or past the recorded length |
| Lexer.ScanFrom | interpreter.cpp:76-135 | the dispatch after the whitespace loop never moves the cursor back, and it returns End only at or past the length |
| Lexer.IsStringDigit | interpreter.cpp:47-52 | `isstringdigit` is true exactly when every character is a decimal digit, so the empty string is true |
| Lexer.CharAt | interpreter.cpp:72-123 | `filecontent[index]`: the character at the index, and `'\0'` at or past the end of the text |
| Lexer.IsSpace | interpreter.cpp:72-75 | `isspace` in the C locale: blank, tab, newline, vertical tab, form feed and carriage return |
| Lexer.IsDigit | interpreter.cpp:47-52 | `isdigit`: the ten decimal digits |
| Lexer.IsAlnum | interpreter.cpp:123-125 | `isalnum` in the C locale: the digits and the ASCII letters |
| Lexer.SingleKind | interpreter.cpp:76-119 | the kinds of the one-character tokens `= + - * / ( ) { } , ;`, and none for every other character |
| Lexer.Classify | interpreter.cpp:126-131 | a captured run is a NumberLiteral when `isstringdigit` holds, else the Keyword when it is `germ`, else an Identifier |
| Lexer.Tokenizer.constructor | interpreter.cpp:57-60 | the tokenizer starts at index 0 with the length of its text |
| Lexer.Tokenizer.ResetContent | interpreter.cpp:66-69 | `resetcontent` replaces the text and rewinds to 0 but keeps the old recorded length |
| Lexer.Tokenizer.ReadWord | interpreter.cpp:120-131 | the capture loop reads the maximal alphanumeric run and classifies it as a number, the keyword `germ` or an identifier |
| Lexer.Tokenizer.NextTok | interpreter.cpp:71-136 | `nextTok` returns the token and moves the cursor exactly as `Scan` says, and changes nothing else |
| LexerFacts.SkipSpaceTo | interpreter.cpp:72-75 | the whitespace loop stops exactly at the first non-blank position |
| LexerFacts.SkipThenScan | interpreter.cpp:72-75 | skipping blanks first does not change the token or where the cursor ends |
| LexerFacts.CaptureSpec | interpreter.cpp:122-125 | the capture is a run of alphanumeric characters copied from the text at the cursor, maximal up to the recorded length |
| LexerFacts.CaptureIs | interpreter.cpp:122-125 | a maximal alphanumeric run at the cursor is exactly what the capture loop returns |
| LexerFacts.ExhaustedIsEnd | interpreter.cpp:72-135 | at or past the recorded length `nextTok` returns End and leaves the cursor where it is |
| LexerFacts.EndIsAbsorbing | interpreter.cpp:72-135 | once End is returned, every later call returns End again at the same position |
| LexerFacts.ScanSingle | interpreter.cpp:76-119 | after the blanks, each of `= + - * / ( ) { } , ;` is one token of its kind, and the cursor moves one past it |
| LexerFacts.ScanWord | interpreter.cpp:120-132 | after the blanks, a maximal alphanumeric word is one token: a NumberLiteral exactly when all its characters are digits, the Keyword exactly when it is `germ` |
| LexerFacts.ScanUnknownStalls | interpreter.cpp:120-132 | a character with no token of its own gives `(NumberLiteral, "")` and leaves the cursor on it, so every further call returns the same token |
| LexerFacts.ScanBlankTail | interpreter.cpp:72-135 | blank text up to the length gives End with the cursor one past the length |
| LexerFacts.ScanReadsSource | interpreter.cpp:76-132 | every token other than End is text of the input: its lexeme lies just before the new cursor, only blanks lie between the old cursor and it, and a non-empty lexeme lies inside the text |
| ParsingFacts.NumeralAtEnd | interpreter.cpp:120-127 | a numeral that ends the text is one NumberLiteral, and the cursor stops at the length |
| ParsingFacts.WordToken | interpreter.cpp:120-131 | a maximal alphanumeric run in the text is one token classified by its characters |
| ParsingFacts.CharToken | interpreter.cpp:76-119 | a one-character token character in the text is one token |
| ParsingFacts.UnknownToken | interpreter.cpp:120-132 | a character with no token gives `(NumberLiteral, "")` and the cursor stays on it |
| ParsingFacts.AdvanceAtEnd | interpreter.cpp:72-135 | once the cursor is at the length, `currtok = nextTok()` gives End and the cursor stays |
| Parsing.Parser.constructor | interpreter.cpp:304-310 | a set-up parser reads the given text from the start, with `currtok` the first token |
| Parsing.Parser.Setup | interpreter.cpp:306-310 | `setup` makes a fresh tokenizer over the new text, reads the first token into `currtok`, and keeps the precedence table |
| Parsing.Parser.GetPrecedence | interpreter.cpp:341-354 | the result is the table's precedence for a positive entry and -1 otherwise; `operator[]` adds the character to the table's keys |
| Parsing.Parser.ParseExpr | interpreter.cpp:313-321 | `parseExpr` gives null when no primary starts at `currtok`, and otherwise folds the operators after it from minimum precedence 0; result, cursor and `currtok` are exactly `ParsedExpr`'s, whose soundness is `ExprSound` |
| Parsing.Parser.ParsePrimary | interpreter.cpp:357-362 | `parsePrimary` goes to `parseNumber`, `parseIdentifier` or `parseParen` by the kind of `currtok`, and gives null with nothing consumed for any other kind, exactly as `ParsedPrimary` |
| Parsing.Parser.ParseNumber | interpreter.cpp:363-367 | `parseNumber` gives the decimal value of the lexeme and advances `currtok`, or stops where `stod` throws: `invalid_argument` on an empty lexeme, `out_of_range` on a value from 2^1024 - 2^970 on; exactly as `ParsedNumber` |
| Parsing.Parser.ParseIdentifier | interpreter.cpp:368-385 | `parseIdentifier` gives a variable, or, when `(` follows, a call whose arguments are read with `currtok` still on `(` and the token after it dropped, exactly as `ParsedIdentifier` |
| Parsing.Parser.ParseArgs | interpreter.cpp:375-381 | the argument loop appends one expression, null or not, per non-comma position until `)` is current, and spins on a comma, exactly as `ParsedArgs` |
| Parsing.Parser.ParseParen | interpreter.cpp:386-395 | `parseParen` parses the expression after `(` and then reads one token without storing it in `currtok`, exactly as `ParsedParen` |
| Parsing.Parser.ParseBinOp | interpreter.cpp:397-419 | while the current operator's precedence is at least the minimum, the loop consumes it and its right operand and folds left into a node storing that precedence, exactly as `ParsedBinOp` |
| Parsing.Parser.ParseRhs | interpreter.cpp:405-416 | one loop step skips the operator, parses a primary, and extends it at the operator's precedence plus one when the next operator binds strictly tighter, exactly as `ParsedRhs` |
| Parsing.Parser.ParseProto | interpreter.cpp:421-439 | `parseProto` takes the name from the next token without keeping it in `currtok`, gives null unless `(` follows, and otherwise collects the parameters, exactly as `ParsedProto` |
| Parsing.Parser.ParseParams | interpreter.cpp:428-436 | the parameter loop appends the lexeme of every token but a comma until `)` is current, exactly as `ParsedParams` |
| Parsing.Parser.ParseGerm | interpreter.cpp:323-336 | `parseGerm` gives null on a null prototype and otherwise a definition from that prototype and the body, exactly as `ParsedGerm` |
| Parsing.Parser.ParseBody | interpreter.cpp:328-335 | after the prototype one token is dropped, the body is parsed from the next one, and one more token is dropped after it; a null body gives null, exactly as `ParsedBody` |
| Parsing.Advance | interpreter.cpp:71-136 | `currtok = tokenizer->nextTok()`: the token `Scan` returns becomes current, and the cursor moves where `Scan` leaves it |
| Parsing.Precedence | interpreter.cpp:341-354 | `GetPrecedence` over the initial table `< 0, + 10, - 20, * 30`: a missing key reads as 0, and an entry of 0 or below gives -1 |
| Parsing.DecimalValue | interpreter.cpp:363-365 | the exact value of a digit string, the number `stod` converts before rounding |
| Parsing.Fits | interpreter.cpp:363-365 | `stod` returns rather than throwing `out_of_range`: the value is below 2^1024 - 2^970 |
| Parsing.ParsedExpr | interpreter.cpp:313-321 | `parseExpr`: null when no primary starts at `currtok`, otherwise `parseBinOp` from minimum precedence 0 |
| Parsing.ParsedPrimary | interpreter.cpp:357-362 | `parsePrimary`: dispatch on the kind of `currtok`, null with nothing consumed for any other kind |
| Parsing.ParsedNumber | interpreter.cpp:363-367 | `parseNumber`: the value of the lexeme and the next token, or a halt where `stod` throws |
| Parsing.ParsedIdentifier | interpreter.cpp:368-385 | `parseIdentifier`: a variable, or a call when `(` follows, with one token after `(` dropped |
| Parsing.ParsedArgs | interpreter.cpp:376-381 | the argument loop: one `parseExpr` result per non-comma position until `)` is current |
| Parsing.ParsedParen | interpreter.cpp:386-395 | `parseParen`: the expression after `(`, then one token read and not stored |
| Parsing.ParsedBinOp | interpreter.cpp:397-419 | the `parseBinOp` loop: stop below the minimum precedence, otherwise take the operator and its right operand and fold left |
| Parsing.ParsedRhs | interpreter.cpp:404-416 | one loop step: the primary after the operator, extended at the operator's precedence plus one when the next operator binds strictly tighter |
| Parsing.ParsedProto | interpreter.cpp:421-439 | `parseProto`: the name from the next token, null unless `(` follows, then the parameter loop |
| Parsing.ParsedParams | interpreter.cpp:428-436 | the parameter loop: the lexeme of every token but a comma until `)` is current |
| Parsing.ParsedGerm | interpreter.cpp:323-336 | `parseGerm`: null on a null prototype, otherwise the body read after one dropped token |
| Parsing.AfterProto | interpreter.cpp:325-335 | the part of `parseGerm` after `parseProto` returns |
| Parsing.ParsedBody | interpreter.cpp:328-335 | one token dropped, the body parsed, one more token dropped; null on a null body |
| ParsingFacts.PrecedenceValues | interpreter.cpp:341-354 | `GetPrecedence` is 10, 20 and 30 for `+ - *` and -1 for everything else, `<` included |
| ParsingFacts.ExprSound | interpreter.cpp:313-321 | `parseExpr` never moves the cursor back, and every tree it returns stores precedences 10/20/30 in its binary nodes |
| ParsingFacts.PrimarySound | interpreter.cpp:357-362 | the same for `parsePrimary` |
| ParsingFacts.IdentifierSound | interpreter.cpp:368-385 | the same for `parseIdentifier` |
| ParsingFacts.ArgsSound | interpreter.cpp:376-381 | the argument loop only returns on `)`, keeps the arguments collected so far as a prefix, and never moves the cursor back |
| ParsingFacts.ParenSound | interpreter.cpp:386-395 | `parseParen` never moves the cursor back and returns a tree of the parser's shape |
| ParsingFacts.BinOpSound | interpreter.cpp:397-419 | folding never moves the cursor back and keeps the parser's shape |
| ParsingFacts.RhsSound | interpreter.cpp:405-416 | one right-operand step never moves the cursor back and returns the parser's shape |
| ParsingFacts.ParamsSound | interpreter.cpp:428-436 | the parameter loop only returns on `)`, keeps the parameters collected so far as a prefix, and never moves the cursor back |
| ParsingFacts.ProtoSound | interpreter.cpp:421-439 | `parseProto` never moves the cursor back |
| ParsingFacts.BodySound | interpreter.cpp:328-335 | the definition exists exactly when the body expression does; it keeps the prototype, and its body has the parser's shape |
| ParsingFacts.AfterProtoSound | interpreter.cpp:323-336 | `parseGerm` stops where `parseProto` stops, gives null on a null prototype, and builds any definition from that prototype |
| ParsingFacts.InfixHead | interpreter.cpp:71-132 | the tokens of `a o1 b` at the start of `a o1 b o2 c` |
| ParsingFacts.InfixSecondOperator | interpreter.cpp:76-91 | the operator `o2` after `b` is one token |
| ParsingFacts.InfixLastOperand | interpreter.cpp:120-135 | the last operand `c` is one number token, followed by End |
| ParsingFacts.ClimbThree | interpreter.cpp:397-419 | over three numbers and two operators, the tree groups to the right exactly when the second operator binds strictly tighter; the case of two operators of `ClimbFacts.ChainParses` |
| ParsingFacts.ThreeOperands | interpreter.cpp:313-419 | `a o1 b o2 c` over `+ - *` groups to the right exactly when `o2` binds strictly tighter than `o1`, reads the whole text, and stores the precedences; the case of two operators of `ClimbFacts.TextParsesGrouped`, with the tree written out |
| ParsingFacts.ParenInfixOpening | interpreter.cpp:96-132 | the tokens of `(a o1 b` in `(a o1 b) o2 c` |
| ParsingFacts.ParenInfixSecondOperand | interpreter.cpp:120-132 | the operand `b` is one number token, followed by `)` |
| ParsingFacts.ParenInfixClosing | interpreter.cpp:76-103 | the `)` after `b` and the operator after it are one token each |
| ParsingFacts.ParenSwallowsOperator | interpreter.cpp:386-395 | `(a o1 b) o2 c` gives the same tree as `a o1 b`: the operator after `)` is dropped and `c` is never read |
| ParsingFacts.UnknownEndsExpression | interpreter.cpp:120-132 | a character with no token ends an expression: `a<b` parses as `a`, with the cursor left on `<` |
| ParsingFacts.UnknownFirstCharacterThrows | interpreter.cpp:363-365 | an expression that starts with a character with no token reaches `stod("")`, which throws |
| ParsingFacts.ArgsSpinOnComma | interpreter.cpp:376-381 | a comma in the argument loop is never consumed, so the loop never ends |
| ParsingFacts.ArgsSpinAtEnd | interpreter.cpp:376-381 | text that ends inside an argument list makes the loop append null arguments forever |
| ParsingFacts.ParamsCollect | interpreter.cpp:430-435 | when the `n`-th token is the first `)`, the parameter loop appends the non-comma lexemes before it, in order, and stops on it |
| ParsingFacts.ParamsSpinAtEnd | interpreter.cpp:430-435 | a parameter list that is never closed makes the loop spin at End |
| ParsingFacts.CallHead | interpreter.cpp:71-132 | the tokens of `f(` in `f(x...` |
| ParsingFacts.CallArgument | interpreter.cpp:76-132 | the argument word `x` that the call branch drops, and the token after it |
| ParsingFacts.EmptyParen | interpreter.cpp:357-395 | with `(` current and no primary after it, `parseExpr` returns null and leaves that token current |
| ParsingFacts.CallWithNullArgument | interpreter.cpp:368-385 | after an identifier and `(`, the token after `(` is dropped; when `)` follows it, the result is a call with one null argument |
| ParsingFacts.CallSpinsOnComma | interpreter.cpp:368-385 | when a comma follows the dropped token instead, the call never finishes |
| ParsingFacts.CallDropsArgument | interpreter.cpp:368-385 | illustration: `f(x)` parses as a call of `f` with one null argument, and stops on `)` at the end of the text |
| ParsingFacts.TwoArgumentsSpin | interpreter.cpp:368-385 | illustration: `f(x,y)` never finishes parsing |
| ParsingFacts.Decimal | interpreter.cpp:363-365 | the shortest numeral of a number is a non-empty digit string without a leading zero |
| ParsingFacts.DecimalRoundTrip | interpreter.cpp:363-365 | the value of the shortest numeral of `n` is `n` |
| ParsingFacts.NumberRoundTrip | interpreter.cpp:363-367 | `parseNumber` on the shortest numeral of `n` gives the number `n` and advances, or throws `out_of_range` exactly when `n` is at least 2^1024 - 2^970 |
| ParsingFacts.LeadingZero | interpreter.cpp:363-365 | a leading zero does not change the value of a numeral |
| ParsingFacts.NumeralBelow | interpreter.cpp:363-365 | a numeral of `k` digits is below 10^k |
| ParsingFacts.NumeralAtLeast | interpreter.cpp:363-365 | a numeral of `k` digits without a leading zero is at least 10^(k-1) |
| ParsingFacts.Pow10Bounds | interpreter.cpp:363-365 | the overflow bound of `stod` lies strictly between 10^308 and 10^309 |
| ParsingFacts.ShortNumeralsFit | interpreter.cpp:363-365 | `stod` never throws `out_of_range` on a numeral of at most 308 digits |
| ParsingFacts.LongNumeralsThrow | interpreter.cpp:363-365 | `stod` throws `out_of_range` on every numeral of 310 digits or more without a leading zero |
| ClimbFacts.AtLeastBounds | interpreter.cpp:397-419 | when every binary node of a tree binds at least `p`, every operator it stores, read left to right, is at least `p` |
| ClimbFacts.BoundsAtLeast | interpreter.cpp:397-419 | conversely, when every stored operator is at least `p`, every binary node binds at least `p` |
| ClimbFacts.AtLeastWeakens | interpreter.cpp:397-419 | a tree whose operators all bind at least `p` has them all bind at least any lower minimum |
| ClimbFacts.Climb | interpreter.cpp:397-419 | precedence climbing read over the operands and operator precedences of a chain: it stops on an operator at or after where it starts, within the chain |
| ClimbFacts.ClimbRhs | interpreter.cpp:404-416 | the right operand of one loop step ends past the operator it belongs to, within the chain |
| ClimbFacts.ClimbStops | interpreter.cpp:399-403 | the loop stops on the first operator below the minimum precedence, or at the end, and every operator it passed binds at least the minimum |
| ClimbFacts.RhsStops | interpreter.cpp:409-416 | the right operand of an operator takes exactly the run of operators after it that bind strictly tighter |
| ClimbFacts.RhsShape | interpreter.cpp:404-416 | the right operand is grouped and holds, in order, the operands and the operators it took |
| ClimbFacts.ClimbShape | interpreter.cpp:397-419 | the folded tree is grouped and holds, in order, the operands and the operators the loop took after the left-hand side |
| ClimbFacts.FoldStepShape | interpreter.cpp:404-418 | one turn of the loop, folding an operator with its right operand and going round again, keeps the tree grouped and in source order |
| ClimbFacts.FoldGrouped | interpreter.cpp:417-417 | a new node over a grouped left-hand side and right operand is grouped, and binds at least the operator the loop stops on |
| ClimbFacts.OperandParses | interpreter.cpp:357-367 | `parsePrimary` on a numeral of the chain returns its number and moves `currtok` to the token after it |
| ClimbFacts.ExprStarts | interpreter.cpp:313-321 | `parseExpr` hands the first operand to `parseBinOp` at minimum precedence 0 |
| ClimbFacts.BinOpStops | interpreter.cpp:400-403 | `parseBinOp` returns the left-hand side unchanged on an operator below the minimum |
| ClimbFacts.BinOpFolds | interpreter.cpp:404-418 | otherwise it takes one right operand, folds it in at the operator's precedence, and loops |
| ClimbFacts.RhsAlone | interpreter.cpp:404-410 | a right operand not followed by a strictly tighter operator is the primary alone |
| ClimbFacts.RhsClimbs | interpreter.cpp:409-416 | a right operand followed by a strictly tighter operator is extended by `parseBinOp` at the precedence plus one |
| ClimbFacts.RhsFollowsChain | interpreter.cpp:404-416 | on a chain, with enough fuel, one loop step returns `ClimbRhs`'s operand and leaves `currtok` after it |
| ClimbFacts.RhsClimbsChain | interpreter.cpp:409-416 | on a chain, when the next operator binds strictly tighter, the right operand is the tree the nested `parseBinOp` builds |
| ClimbFacts.BinOpFollowsChain | interpreter.cpp:397-419 | on a chain, with enough fuel, `parseBinOp` returns `Climb`'s tree and stops where `Climb` stops |
| ClimbFacts.ChainParses | interpreter.cpp:313-419 | `parseExpr` on a chain `n0 o1 n1 ... ok nk` of any length, with fuel beyond its length, reads all of it and returns `ChainTree` |
| ClimbFacts.ClimbReadsAll | interpreter.cpp:397-419 | from minimum precedence 0 the loop takes every operator of the chain |
| ClimbFacts.ChainTreeShape | interpreter.cpp:397-419 | the tree of a chain is grouped and holds the operands and the operators of the chain, in order |
| ClimbFacts.LeafCount | interpreter.cpp:202-211 | a tree has one operand more than it has binary nodes |
| ClimbFacts.RootPlace | interpreter.cpp:397-419 | in a grouped tree the root's operator comes after operators that bind at least as tightly and before operators that bind strictly tighter |
| ClimbFacts.OnlyRoot | interpreter.cpp:397-419 | a sequence of operators has at most one place with that property |
| ClimbFacts.GroupedUnique | interpreter.cpp:397-419 | two grouped trees with the same operands and operators, in the same order, are the same tree |
| ClimbFacts.NumeralToken | interpreter.cpp:120-127 | a numeral followed by an operator or the end of the text is one NumberLiteral token |
| ClimbFacts.TextStart | interpreter.cpp:307-310 | `setup` over `n0 o1 n1 ... ok nk` leaves `currtok` on the first numeral |
| ClimbFacts.OperandLink | interpreter.cpp:71-136 | `nextTok` after each numeral of the text returns its operator, or End after the last one |
| ClimbFacts.OperandSpan | interpreter.cpp:120-131 | the numeral after each operator of the text is one token that ends where the next operator or the text does |
| ClimbFacts.OperatorLink | interpreter.cpp:76-131 | `nextTok` after each operator of the text returns the numeral after it |
| ClimbFacts.TextChain | interpreter.cpp:71-136 | the tokens of `n0 o1 n1 ... ok nk`, numerals and operators among `+ - *`, form a chain whose operators carry their `GetPrecedence` values |
| ClimbFacts.TextParses | interpreter.cpp:313-419 | `parseExpr` on `n0 o1 n1 ... ok nk` of any length reads all of it and returns the tree of its chain |
| ClimbFacts.TextParsesGrouped | interpreter.cpp:313-419 | `parseExpr` on `n0 o1 n1 ... ok nk` of any length returns exactly the one grouped tree with those operands and operators in order, and reads all of it |
| ClimbFacts.MixedOperators | interpreter.cpp:313-419 | illustration: `1+2*3-4` parses as `1 + ((2 * 3) - 4)` and reads the whole text |
| Codegen.OpcodeOf | interpreter.cpp:215-224 | an arithmetic instruction is chosen exactly for the codes of `+ - * <` |
| Codegen.Gen | interpreter.cpp:176-257 | `codegen` of a number, a variable, a binary node or a call, over the bindings, the declared arities and the log so far |
| Codegen.GenArgs | interpreter.cpp:250-255 | the argument loop of a call: a null argument crashes, and the first failing argument ends the loop |
| Codegen.CodeGenerator.constructor | interpreter.cpp:143-147 | the backend starts with the given bindings and declarations, and an empty log |
| Codegen.CodeGenerator.Codegen | interpreter.cpp:176-257 | `codegen` returns the outcome and appends to the log exactly as `Gen` says, for every kind of node |
| CodegenFacts.GenExtendsLog | interpreter.cpp:212-257 | `codegen` only appends: what was emitted before stays as it was |
| CodegenFacts.GenArgsExtendsLog | interpreter.cpp:251-255 | the argument loop only appends to the log |
| CodegenFacts.VariableLookup | interpreter.cpp:190-196 | a variable yields its bound value exactly when the name is bound, fails otherwise, and emits nothing |
| CodegenFacts.CallChecksArityFirst | interpreter.cpp:244-249 | an unknown callee or a wrong argument count fails before any argument is generated |
| CodegenFacts.ArgsComplete | interpreter.cpp:251-255 | a completed argument loop has one value per argument and met no null argument |
| CodegenFacts.CallEmitted | interpreter.cpp:243-257 | a call that yields a value passed both checks, had no null argument, and emitted one call instruction last, with one value per argument |
| CodegenFacts.ArgsStopAtFirstFailure | interpreter.cpp:251-255 | arguments after the first failing one are never generated |
| CodegenFacts.ArgsShift | interpreter.cpp:251-255 | the loop from position `|args| + j` over `args + more` is the loop from `j` over `more` |
| CodegenFacts.ArgsLeftToRight | interpreter.cpp:251-255 | arguments are generated left to right: once those of `args` succeed, the loop carries on with `more` from their values and log |
| CodegenFacts.StoredPrecedenceNeverEmits | interpreter.cpp:212-227 | a binary node holding a stored precedence 10/20/30 never yields a value |
| CodegenFacts.ParserTreesEmitNoArith | interpreter.cpp:212-257 | on a tree the parser built, `codegen` emits call instructions only, never an arithmetic one |
| CodegenFacts.ParserArgsEmitNoArith | interpreter.cpp:251-255 | the same for the arguments of such a call |
| CodegenFacts.TwoArgumentCall | interpreter.cpp:243-257 | illustration: `foo(a, b)`, with `foo` of arity 2 and both names bound, emits one call on their two values |
| CodegenFacts.ParsedCallNeverEmits | interpreter.cpp:243-257 | the call that `f(x)` parses to crashes when `f` takes one argument, fails otherwise, and emits nothing |
| PyLexer.RunEnd | interpreter.py:50-57 | the end of a run of good characters lies between its start and the length |
| PyLexer.IsGoodAscii | interpreter.py:24-25 | the class `[aA-zZ_123457890]`: the ASCII range from `A` to `z` and every digit but `6` |
| PyLexer.PunctKind | interpreter.py:32-49 | the kinds of the one-character tokens `( ) = + - * / , ;`, and none for every other character |
| PyLexer.IsDecimal | interpreter.py:61-61 | `str.isdigit` on ASCII text: non-empty and digits only |
| PyLexer.ClassifyRun | interpreter.py:59-64 | a run in `keywords` is a Keyword, else a digit run is a NumberLiteral, else an Identifier |
| PyLexer.Lex | interpreter.py:27-67 | the tokens of the text from an index on, or IndexError when a run of good characters reaches the end |
| PyLexer.ReadRun | interpreter.py:51-57 | the inner loop raises IndexError when the run reaches the end of the text, and otherwise captures the maximal run |
| PyLexer.Tokenize | interpreter.py:27-67 | `tokenizer` returns exactly what `Lex` says, the IndexError included |
| PyLexerFacts.PunctNotGood | interpreter.py:24-49 | none of the one-character tokens is a good character |
| PyLexerFacts.RunEndSpec | interpreter.py:54-57 | a run holds only good characters and stops at the first character that is not good, or at the end |
| PyLexerFacts.RunEndFrom | interpreter.py:54-57 | from inside a run of good characters, the run ends where that run ends |
| PyLexerFacts.ErrorIffEndsInGood | interpreter.py:27-67 | `tokenizer` raises IndexError exactly when the text is non-empty and its last character is good |
| PyLexerFacts.LexemesAreKeptText | interpreter.py:27-67 | tokens come in text order and lose nothing: their lexemes in a row are the text without the characters that give no token |
| PyLexerFacts.TokensWellFormed | interpreter.py:32-64 | every token is a one-character token of its kind, or a non-empty run of good characters with its classified kind |
| PyLexerFacts.RunIsOneToken | interpreter.py:50-65 | a maximal run of good characters, followed by a character that is not good, is one token, and the loop carries on at that character |
| PyLexerFacts.PunctIsOneToken | interpreter.py:32-49 | each of `( ) = + - * / , ;` is one token of its kind |
| PyLexerFacts.OtherIsSkipped | interpreter.py:50-65 | any other character, such as a blank, `{` or `6`, gives no token |
| PyLexerFacts.ClassifyKeywordFirst | interpreter.py:59-64 | a run is a Keyword exactly when it is in `keywords`, and a NumberLiteral exactly when it is not a keyword and is all digits |
| PyLexerFacts.SixIsDropped | interpreter.py:24-25 | illustration: `x = 16;` gives the number token `1`, because the digit 6 is not a good character |

## Left out

- I/O is left out: reading files, `main` in both files, the REPL loop, `debug_print`, `printfilecontent` and the messages written to `cout`/`stderr` (including `LogErrorV`'s message).
- The LLVM backend is left out. `LLVMContext`, `IRBuilder` and `Module` are replaced by maps and an instruction log. `getFunction` becomes a lookup in the arity map. No IR is built or checked.
- Floating-point rounding is left out. `stod` becomes `DecimalValue`, the exact value of a digit string, and `NumberNode` holds that natural number; its `codegen` gives a constant of that number. Where `stod` throws is modelled: `invalid_argument` on an empty lexeme and `out_of_range` from 2^1024 - 2^970 on. The rounding of values above 2^53 to the nearest double is not.
- Lexer.Tokenizer.constructor: the recorded length is the length of the model's `string`, and each `char` stands for one byte of the `std::string`, so it equals `size()` only when the text is given byte by byte. Non-ASCII text such as `é` must be written as its UTF-8 bytes. Given as one `char` instead, a stale length after `resetcontent` differs: a tokenizer built over `é` and reset to `ab` reads `ab` in the program, but the model reads `a`.
- Memory and ownership are left out: node deletion, leaks, and pointer identity. AST nodes are values.
- Parsing.Parser.ParseExpr and the other parsing routines: termination is not modelled. A `fuel` bound stands for it, and running out of fuel stands for a run that never ends.
- Lexer.CharAt reads any index at or past the end of the text as `'\0'`. `std::string` gives `'\0'` at index `size()`, and reading further is undefined behaviour. That can happen only after `resetcontent` with a shorter text.
- Codegen.CodeGenerator.Codegen: `NamedValues[identifier]` inserts a null entry for an unbound name. The model leaves the map unchanged, because the inserted entry is null and behaves like a missing one.
- Codegen.CodeGenerator.Codegen: a null operand handed to the IR builder, or a null argument that is dereferenced, is modelled as `Crashed`. What LLVM would do is not modelled.
- Parsing.ParsedGerm has no single soundness lemma. Its behaviour is stated by `ProtoSound` together with `AfterProtoSound` (through `AfterProto`).
- PyLexer.Tokenize takes the chain of `if`/`elif` tests for `( ) = + - * / , ;` through `PunctKind`, and the inner loop through `ReadRun`. The source's guard `i < len(filecontents) - 1` is left implicit: it always holds once `filecontents[i+1]` has been read.
- The Python parser functions (`nud`, `led`, `parser`) are left out, because their bodies are empty.

# Kaleidoscope front end, modelled in Dafny

This project models the front end of the native Kaleidoscope interpreter
(`kaleidoscope/native`):

- the tokenizer `get_tok` of `lexer.h`;
- the recursive-descent, precedence-climbing parser of `ast.h`;
- the driver loop `main_loop` of `ast.h`, with its `handle_*` functions.

The operator table is seeded as `main.cpp` does: `<` 10, `+` 20, `-` 20,
`*` 40 (`Grammar.SeedTable`).

Modules:

- `Lexer` (`lexer.dfy`) holds the token datatype and the get_tok codes.
  - `NextToken` is get_tok as a function of the input string and the number
    of characters getchar has handed out.
  - The class `Lexer` keeps `last_char` and the read position as fields.
    Its `GetTok` method runs the source's loops and is proved to compute
    `NextToken`.
  - `LexerFacts` (`lexer_facts.dfy`) proves what `NextToken` and `Tokens`
    promise: maximal munch, keywords, comments, progress, end of input.
- `Ast` (`ast.dfy`) holds the syntax tree: expressions, prototypes and
  functions.
- `Grammar` (`grammar.dfy`) is the parser and the driver as functions.
  - They run over the token sequence with a cursor; past the end reads as
    end of input.
  - A parse result is either a value and the next position, or the error
    log_err reports and its position.
  - `Session` is the list of reports main_loop writes.
- `Parser` (`parser.dfy`) is the parser as an object.
  - Its fields are `cur_tok`, the cursor, `binary_oper` and the reports
    written so far.
  - Its methods follow the source's loops.
  - Each method is proved to produce the result, position and reports of
    the matching `Grammar` function.
- `ChainGrouping` (`chain_grouping.dfy`) defines how a flat chain
  `x0 o1 x1 ... on xn` of numerals and operators groups, without reference
  to the parser. The root is the last of the loosest operators, and both
  sides of it group the same way. It proves that parse_expr returns that
  tree for every chain followed by a token that is not an operator.
- `GrammarFacts` (`grammar_facts.dfy`), `RoundTrip` (`round_trip.dfy`) and
  `DriverFacts` (`driver_facts.dfy`) prove the properties of the grammar:
  - how operators group;
  - the shape of calls and prototypes;
  - that parsing a printed tree gives the tree back;
  - what the driver reports.
- `AsWritten` (`as_written.dfy`) models two places where the code does not do
  what its comments and structure say. It proves inputs on which they differ
  from the corrected model (see Findings). The lexer and the operator loop
  used everywhere else are the corrected ones.
  - The lexer as written is `lexer.h:31-72`.
  - The operator loop as written includes `ast.h:195-197`.

For `handle_def` and `handle_exter`, the driver is modelled both ways.

- `Handlers.AsWritten`: they call `parse_expr`, as `ast.h:252` and `ast.h:260`
  do.
- `Handlers.Intended`: they call `parse_definition` and `parse_extern`.

`parse_definition` and `parse_extern` stay callable on their own.

## Model

| member | source | states |
|---|---|---|
| Lexer.Code | kaleidoscope/native/lexer.h:9-19 | a token's code is negative exactly for the five special tokens; a character token's code is the character's own non-negative value |
| Lexer.CodeDeterminesKind | kaleidoscope/native/lexer.h:9-19 | two tokens have the same code if and only if they are the same kind of token (and, for character tokens, the same character); so no special code clashes with a character |
| Lexer.RunEnd | kaleidoscope/native/lexer.h:27-29 | a getchar loop stops at a state at or after its start, within the input plus EOF, whose character is outside the run |
| Lexer.RunEndSpan | kaleidoscope/native/lexer.h:27-29 | every state the loop passes over is inside the run |
| Lexer.KeywordOr | kaleidoscope/native/lexer.h:35-41 | a lexeme gives tok_def if and only if it is "def", tok_exter if and only if it is "extern", and otherwise an identifier token carrying the lexeme |
| Lexer.NextToken | kaleidoscope/native/lexer.h:24-72 | get_tok never moves getchar backwards, consumes at least one character unless it reports end of input, and reports end of input only once EOF has been read |
| Lexer.TokenAt | kaleidoscope/native/lexer.h:31-71 | the branches after the whitespace loop keep the same progress guarantees, including the comment branch's restart |
| Lexer.Tokens | kaleidoscope/native/lexer.h:24-72 | the tokens up to end of input end in exactly one end-of-input token, and there is at most one more token than characters left |
| Lexer.Lexer.constructor | kaleidoscope/native/lexer.h:25 | the lexer starts before the first character, with `last_char` holding a blank |
| Lexer.Lexer.GetChar | kaleidoscope/native/lexer.h:28 | getchar moves one character on and stays at EOF once there |
| Lexer.Lexer.SkipWhitespace | kaleidoscope/native/lexer.h:27-29 | the whitespace loop stops at the first non-blank state |
| Lexer.Lexer.ScanIdentifier | kaleidoscope/native/lexer.h:31-33 | the identifier loop returns the maximal alphanumeric run that starts at the letter, and stops on the character after it |
| Lexer.Lexer.ScanNumeral | kaleidoscope/native/lexer.h:44-50 | the numeral loop returns the maximal run of digits and dots, and stops on the character after it |
| Lexer.Lexer.SkipComment | kaleidoscope/native/lexer.h:55-58 | the comment loop stops at the first newline, carriage return or EOF after the `#` |
| Lexer.Lexer.GetTok | kaleidoscope/native/lexer.h:24-72 | get_tok returns the token NextToken gives and leaves the lexer in the state NextToken gives |
| LexerFacts.InitialBlankIsSkipped | kaleidoscope/native/lexer.h:25-29 | the initial blank in `last_char` never affects the first token |
| LexerFacts.LeadingWhitespaceIsSkipped | kaleidoscope/native/lexer.h:27-29 | all whitespace before a token is consumed, and the token is the one at the first non-blank character |
| LexerFacts.IdentifierIsMaximalMunch | kaleidoscope/native/lexer.h:31-41 | a token starting with a letter is the maximal alphanumeric run; the character after it is left for the next call; it is def, extern or an identifier exactly as its text says |
| LexerFacts.NumeralIsMaximalMunch | kaleidoscope/native/lexer.h:44-52 | a token starting with a digit or `.` is a numeral made of the maximal run of digits and dots, with any number of dots; the character after it is left for the next call |
| LexerFacts.OtherCharacterIsItsOwnToken | kaleidoscope/native/lexer.h:69-71 | any other character is returned as its own token, and exactly that one character is consumed |
| LexerFacts.EofIsSticky | kaleidoscope/native/lexer.h:64-67 | once end of input is reported, every later call reports it again |
| LexerFacts.RunEndIsFirstExit | kaleidoscope/native/lexer.h:27-29 | the loop stops at the first state outside the run and at no other |
| LexerFacts.NextTokenShift | kaleidoscope/native/lexer.h:24-72 | the next token depends only on the characters still to come |
| LexerFacts.TokensShift | kaleidoscope/native/lexer.h:24-72 | two lexers that will see the same characters hand out the same tokens |
| LexerFacts.CommentLineYieldsNoToken | kaleidoscope/native/lexer.h:55-61 | a `#` comment ending in a newline yields no token: the input lexes as the text after it |
| LexerFacts.CommentAtEndYieldsEof | kaleidoscope/native/lexer.h:55-67 | a comment that runs into EOF yields end of input |
| LexerFacts.LoneWord | kaleidoscope/native/lexer.h:31-41 | an input that is one word (a letter, then letters and digits) lexes as that word's keyword or identifier token, ending the input |
| LexerFacts.LoneNumeral | kaleidoscope/native/lexer.h:44-52 | an input made of digits and '.' that starts with a digit lexes as one numeral token with that text |
| LexerFacts.LoneNumeralTokens | kaleidoscope/native/lexer.h:44-67 | the whole token stream of such an input is that numeral followed by end of input |
| Grammar.Precedence | kaleidoscope/native/ast.h:161-168 | a precedence is -1 or positive, and it is positive only for a character token with an entry in the table |
| Grammar.ParseNumExpr | kaleidoscope/native/ast.h:94-98 | a numeral becomes a number node with its lexeme, and exactly one token is consumed |
| Grammar.ParseParenExpr | kaleidoscope/native/ast.h:102-111 | a parenthesised expression consumes at least the `(`, and a failure is reported at or after it |
| Grammar.ParseIdentifierExpr | kaleidoscope/native/ast.h:113-144 | a variable or call consumes at least its identifier, and a failure is reported at or after it |
| Grammar.ParseArgs | kaleidoscope/native/ast.h:123-143 | the argument loop consumes at least one token, and a failure is reported at or after where it started |
| Grammar.ParsePrimary | kaleidoscope/native/ast.h:146-157 | a primary consumes at least one token, and a failure is reported at or after it |
| Grammar.ParseExpr | kaleidoscope/native/ast.h:173-178 | an expression consumes at least one token, and a failure is reported at or after it |
| Grammar.ParseBinOpRhs | kaleidoscope/native/ast.h:180-208 | the operator loop never moves backwards, and it stays within the tokens whenever it consumes any |
| Grammar.ParseRightOperand | kaleidoscope/native/ast.h:189-204 | the right operand of an operator consumes at least one token |
| Grammar.ParamsFrom | kaleidoscope/native/ast.h:219-221 | the parameter loop collects, in order, the names of the identifier tokens it passes over, and stops at the first token that is not an identifier |
| Grammar.ParsePrototype | kaleidoscope/native/ast.h:210-226 | a prototype consumes at least one token, and a failure is reported at or after where it started |
| Grammar.ParseDefinition | kaleidoscope/native/ast.h:228-236 | a definition consumes at least one token past `def` |
| Grammar.ParseExtern | kaleidoscope/native/ast.h:238-241 | an extern consumes at least one token past `extern` |
| Grammar.ParseTopLevelExpr | kaleidoscope/native/ast.h:243-249 | a top-level expression consumes at least one token |
| Grammar.HandleDefinition | kaleidoscope/native/ast.h:251-257 | handle_def always consumes at least one token: what it parsed on success, the reported token on failure |
| Grammar.HandleExtern | kaleidoscope/native/ast.h:259-265 | handle_exter always consumes at least one token |
| Grammar.HandleTopLevelExpr | kaleidoscope/native/ast.h:267-273 | handle_top_level_expr always consumes at least one token |
| Grammar.Session | kaleidoscope/native/ast.h:275-295 | main_loop ends on every finite token stream and writes at most one report per token |
| GrammarFacts.PrecedenceIsPositiveEntry | kaleidoscope/native/ast.h:161-168 | a token has a positive precedence if and only if it is an ASCII character whose table entry is positive, and that entry is then the precedence |
| GrammarFacts.MissingEntryReadsAsZero | kaleidoscope/native/ast.h:164-166 | inserting 0 for a missing character, as `operator[]` does, changes no token's precedence |
| GrammarFacts.SeedTablePrecedences | kaleidoscope/native/main.cpp:7-10 | with the seed table, `<` is 10, `+` and `-` are 20, `*` is 40, and no other token is an operator |
| GrammarFacts.BinOpRhsStopsBelow | kaleidoscope/native/ast.h:182-185 | the operator loop stops only at a token whose precedence is below the level it was called with |
| GrammarFacts.ExprEndsBeforeNonOperator | kaleidoscope/native/ast.h:173-185 | a parsed expression is followed by a token that is not an operator, such as `)`, `,`, `;` or end of input |
| GrammarFacts.ParenIsInnerExpr | kaleidoscope/native/ast.h:102-111 | parentheses parse if and only if the inner expression parses and `)` follows it, and then give the inner expression itself, with no node of their own, after consuming the `)` |
| GrammarFacts.ArgsEndAtCloseParen | kaleidoscope/native/ast.h:123-143 | the argument loop yields a call whose arguments extend those already parsed, in order, and whose last consumed token is `)` |
| GrammarFacts.ArgsNeedSeparator | kaleidoscope/native/ast.h:134-135 | an argument followed by any token other than `,` or `)` fails the call with the argument-list separator error, at that token |
| GrammarFacts.IdentifierExprShape | kaleidoscope/native/ast.h:113-144 | an identifier without `(` is a variable and consumes one token; with `(`, a successful parse is a call of that name whose last consumed token is `)` |
| GrammarFacts.OperatorTail | kaleidoscope/native/ast.h:182-206 | a helper, not a model of the loop: it builds the token layout (operator, numeral, operator, numeral, ...) of the operator chains that the loop at these lines reads, used by the grouping lemmas; its contract states that n operators with their operands take 2n tokens |
| GrammarFacts.FoldOneOperator | kaleidoscope/native/ast.h:182-206 | an operator not followed by a tighter one is folded onto the left operand at once |
| GrammarFacts.LeftFoldChain | kaleidoscope/native/ast.h:180-208 | a chain whose precedences never rise is grouped from the left |
| GrammarFacts.ChainIsLeftAssociative | kaleidoscope/native/ast.h:173-208 | an expression made of a numeral and such a chain parses to the left-grouped tree and consumes the whole chain |
| GrammarFacts.TighterOperatorGroupsFirst | kaleidoscope/native/ast.h:189-206 | in `x o1 y o2 z` the right pair is grouped first if and only if o2 binds strictly tighter than o1 |
| ChainGrouping.ChainGroupsByPrecedence | kaleidoscope/native/ast.h:173-208 | for every chain of numerals and table operators followed by a token that is not an operator, parse_expr returns the reference grouping and consumes the whole chain; in that grouping the root is the last of the loosest operators and both sides are grouped the same way |
| ChainGrouping.SeedTableChain | kaleidoscope/native/ast.h:173-208 | with the table of main.cpp, `1 + 2 * 3 - 4 ;` parses as `(1 + (2 * 3)) - 4` and stops at the `;` |
| ChainGrouping.LoopFollowsClimb | kaleidoscope/native/ast.h:180-208 | on a chain, the operator loop from any operator and level builds the tree that climbing over the chain's precedences builds, and stops at the same operator |
| ChainGrouping.OperandFollowsClimb | kaleidoscope/native/ast.h:189-204 | on a chain, the right operand of an operator is its numeral, or the climb one level up from it when the next operator binds tighter, as over the precedences |
| ChainGrouping.ClimbLoopGroups | kaleidoscope/native/ast.h:180-208 | climbing over the precedences builds the reference grouping of the operands it passes and stops at the first operator looser than its level |
| ChainGrouping.ClimbOperandGroups | kaleidoscope/native/ast.h:189-204 | the right operand climbed over the precedences is the reference grouping up to the first operator that does not bind tighter than the one before it |
| ChainGrouping.ClimbResumes | kaleidoscope/native/ast.h:199-206 | folding the operand a climb returned and going on from where the climb stopped gives the reference grouping from the folded operator |
| ChainGrouping.Regroup | kaleidoscope/native/ast.h:199-206 | an operator whose right operand spans only tighter operators can be folded first without changing the reference grouping |
| ChainGrouping.OperatorStep | kaleidoscope/native/ast.h:182-206 | one pass of the loop over an operator at or above the level folds it with its right operand and goes on after that operand |
| ChainGrouping.OperandStops | kaleidoscope/native/ast.h:189-204 | a numeral followed by an operator that does not bind tighter is the whole right operand |
| ChainGrouping.OperandClimbs | kaleidoscope/native/ast.h:189-204 | a numeral followed by a tighter operator starts the loop one level above the current operator |
| ChainGrouping.OperandAlone | kaleidoscope/native/ast.h:189-204 | in a chain, a numeral not followed by a tighter operator is the whole right operand |
| ChainGrouping.LoopStopsAt | kaleidoscope/native/ast.h:182-185 | in a chain, the loop returns its left operand at an operator below its level or at the end of the chain |
| RoundTrip.RenderStart | kaleidoscope/native/ast.h:146-157 | a printed expression starts with a token parse_primary accepts |
| RoundTrip.ParenthesisedBinary | kaleidoscope/native/ast.h:102-111 | `( l op r )` parses to the binary node of op |
| RoundTrip.CallStartsArgs | kaleidoscope/native/ast.h:113-124 | a call with arguments is handed to the argument loop |
| RoundTrip.ArgThenComma | kaleidoscope/native/ast.h:130-138 | an argument followed by `,` is appended and the loop goes on |
| RoundTrip.ArgThenClose | kaleidoscope/native/ast.h:130-143 | an argument followed by `)` ends the call with that argument last |
| RoundTrip.ParsePrimaryRender | kaleidoscope/native/ast.h:146-157 | parse_primary reads back a printed expression and consumes exactly its tokens |
| RoundTrip.ParseExprRender | kaleidoscope/native/ast.h:173-178 | parse_expr reads back a printed expression followed by a non-operator |
| RoundTrip.ParseArgsRender | kaleidoscope/native/ast.h:123-143 | the argument loop reads back a printed argument list in order |
| RoundTrip.ParseArgsRenderCons | kaleidoscope/native/ast.h:123-139 | the same for two or more arguments |
| RoundTrip.ExprRoundTrip | kaleidoscope/native/ast.h:173-208 | parsing a printed expression whose operators are in the table gives it back |
| RoundTrip.ParamsRoundTrip | kaleidoscope/native/ast.h:219-221 | the parameter loop reads back a printed list of names in order |
| RoundTrip.PrototypeRoundTrip | kaleidoscope/native/ast.h:210-226 | parse_proto_type reads back a printed prototype, including one without parameters |
| RoundTrip.PrototypeIsPrinted | kaleidoscope/native/ast.h:211-223 | conversely, every prototype parse_proto_type accepts lies in the tokens as its printed form (name, `(`, one identifier per parameter, `)`) and exactly that many tokens are consumed; with PrototypeRoundTrip, it accepts exactly the printed prototypes |
| RoundTrip.DefinitionRoundTrip | kaleidoscope/native/ast.h:228-236 | parse_definition skips `def` and reads back a printed prototype and body |
| RoundTrip.ExternRoundTrip | kaleidoscope/native/ast.h:238-241 | parse_extern skips `extern` and reads back a printed prototype |
| RoundTrip.TopLevelRoundTrip | kaleidoscope/native/ast.h:243-249 | parse_top_level_expr wraps a printed expression in a function with the empty name and no parameters |
| DriverFacts.SeedTableIsSane | kaleidoscope/native/main.cpp:7-10 | with the seed table, `(`, `)` and `,` are not operators |
| DriverFacts.SubtractionGroupsLeft | kaleidoscope/native/ast.h:180-208 | 1-2-3 parses as (1-2)-3 |
| DriverFacts.ProductBindsTighterThanSum | kaleidoscope/native/ast.h:189-206 | 1+2*3 parses as 1+(2*3), and 1*2+3 as (1*2)+3 |
| DriverFacts.ParenthesesOverridePrecedence | kaleidoscope/native/ast.h:102-111 | (1+2)*3 multiplies the sum |
| DriverFacts.KeywordRejectedAsWritten | kaleidoscope/native/ast.h:251-265 | as written, handle_def and handle_exter report an unknown token at `def` or `extern`, skip it, and go on with the rest |
| DriverFacts.DefinitionSession | kaleidoscope/native/ast.h:251-257 | a printed definition is reported as one definition with the definition parser, and starts with an error as written |
| DriverFacts.ExternSession | kaleidoscope/native/ast.h:259-265 | a printed extern is reported as one extern with the extern parser, and starts with an error as written |
| DriverFacts.TopLevelSession | kaleidoscope/native/ast.h:267-295 | a printed expression is reported as one top-level expression |
| DriverFacts.DefinitionMisreadAsWritten | kaleidoscope/native/ast.h:251-257 | `def f(x) x` gives an error and two top-level expressions as written, and one definition with the definition parser |
| DriverFacts.RecoveryAfterError | kaleidoscope/native/ast.h:251-273 | after an error the reported token is skipped and parsing resumes, so `def f( ; 42` still reports the expression 42 |
| Parser.BinOpRhsStops | kaleidoscope/native/ast.h:183-185 | the operator loop returns the left operand at a token below the level |
| Parser.BinOpRhsContinues | kaleidoscope/native/ast.h:186-206 | one iteration of the operator loop folds the operator and its right operand onto the left operand, or fails as the right operand does |
| Parser.Parser.constructor | kaleidoscope/native/main.cpp:7-13 | the parser starts with the operator table it is given and the first token fetched; passing `Grammar.SeedTable` gives the state main.cpp reaches |
| Parser.Parser.GetNextToken | kaleidoscope/native/ast.h:82 | get_next_token moves to the next token and changes nothing else |
| Parser.Parser.LogErr | kaleidoscope/native/ast.h:84-87 | log_err appends its message and changes nothing else |
| Parser.Parser.GetTokPrecedence | kaleidoscope/native/ast.h:161-168 | get_tok_precedence returns the token's precedence and inserts 0 for an ASCII character missing from `binary_oper` |
| Parser.Parser.ParseNumExpr | kaleidoscope/native/ast.h:94-98 | the method yields Grammar.ParseNumExpr's result, position and reports |
| Parser.Parser.ParseParenExpr | kaleidoscope/native/ast.h:102-111 | the method yields Grammar.ParseParenExpr's result, position and reports |
| Parser.Parser.ParseIdentifierExpr | kaleidoscope/native/ast.h:113-144 | the method, with its argument loop, yields Grammar.ParseIdentifierExpr's result, position and reports |
| Parser.Parser.ParsePrimary | kaleidoscope/native/ast.h:146-157 | the method yields Grammar.ParsePrimary's result, position and reports |
| Parser.Parser.ParseExpr | kaleidoscope/native/ast.h:173-178 | the method yields Grammar.ParseExpr's result, position and reports |
| Parser.Parser.ParseBinOpRhs | kaleidoscope/native/ast.h:180-208 | the operator loop yields Grammar.ParseBinOpRhs's result, position and reports |
| Parser.Parser.ParseRightOperand | kaleidoscope/native/ast.h:189-204 | the method yields Grammar.ParseRightOperand's result, position and reports |
| Parser.Parser.ParsePrototype | kaleidoscope/native/ast.h:210-226 | the method, with its parameter loop, yields Grammar.ParsePrototype's result, position and reports |
| Parser.Parser.ParseDefinition | kaleidoscope/native/ast.h:228-236 | the method yields Grammar.ParseDefinition's result, position and reports |
| Parser.Parser.ParseExtern | kaleidoscope/native/ast.h:238-241 | the method yields Grammar.ParseExtern's result, position and reports |
| Parser.Parser.ParseTopLevelExpr | kaleidoscope/native/ast.h:243-249 | the method yields Grammar.ParseTopLevelExpr's result, position and reports |
| Parser.Parser.HandleDef | kaleidoscope/native/ast.h:251-257 | handle_def appends Grammar.HandleDefinition's report and moves to its position |
| Parser.Parser.HandleExtern | kaleidoscope/native/ast.h:259-265 | handle_exter appends Grammar.HandleExtern's report and moves to its position |
| Parser.Parser.HandleTopLevelExpr | kaleidoscope/native/ast.h:267-273 | handle_top_level_expr appends Grammar.HandleTopLevelExpr's report and moves to its position |
| Parser.Parser.MainLoop | kaleidoscope/native/ast.h:275-295 | main_loop stops at end of input, having appended exactly the reports of Grammar.Session |
| AsWritten.GetTokAsWritten | kaleidoscope/native/lexer.h:24-73 | get_tok as written moves getchar forward whenever it returns |
| AsWritten.AfterWord | kaleidoscope/native/lexer.h:44-71 | after a word that is not a keyword, the nested branches as written never move getchar backwards |
| AsWritten.KeywordMisreadAsWritten | kaleidoscope/native/lexer.h:31-37 | as written, "def" is read as "ef" and reported as end of input; corrected, it is the keyword |
| AsWritten.NumeralFallsOffEndAsWritten | kaleidoscope/native/lexer.h:31-73 | as written, "42" reaches the end of get_tok without a return; corrected, it is a numeral |
| AsWritten.IdentifierLostAsWritten | kaleidoscope/native/lexer.h:35-71 | as written, "ab c" yields the blank after the word as a token; corrected, it yields the identifier ab |
| AsWritten.BufferCarriesOverAsWritten | kaleidoscope/native/lexer.h:21-33 | as written, what earlier calls left in `identifier_str` changes how the same input is read |
| AsWritten.BinOpRhsAsWritten | kaleidoscope/native/ast.h:180-208 | the operator loop as written never moves backwards |
| AsWritten.RisingPrecedenceLosesOperand | kaleidoscope/native/ast.h:193-206 | on `x o1 y o2 z`, the loop as written builds the corrected tree when o2 does not bind tighter than o1; when it does, it folds x o1 y twice and leaves o2 without a left operand |
| AsWritten.SumThenProductAsWritten | kaleidoscope/native/ast.h:193-206 | 1+2*3 as written gives (1+2)+(null*3); corrected, it gives 1+(2*3) |
| AsWritten.FoldOneOperatorAsWritten | kaleidoscope/native/ast.h:182-206 | as written, an operator not followed by a tighter one is folded at once |
| AsWritten.AsWrittenAgreesOnFallingChains | kaleidoscope/native/ast.h:180-208 | on a chain whose precedences never rise, the loop as written builds the same left-grouped tree as the corrected loop |

## Left out

- Character input: getchar and stdin become an input string and the count of
  characters read so far. EOF is the state after the last character.
- Characters are Dafny characters rather than getchar's bytes 0-255. A
  character above 255 cannot come from getchar. So the 8-bit truncation in
  `char(last_char) == '#'` is not modelled.
- strtod and the `double` in `num_val`: a numeral token keeps its text.
- Global buffers: `identifier_str` and `num_val` become payloads of the
  identifier and numeral tokens.
- Lexing on demand: the parser reads the list of tokens get_tok hands out,
  not a lexer it calls one token at a time. get_tok does not depend on
  anything the parser does, so the order of calls does not matter.
- Message text: fprintf's wording and the `ready> ` prompt are left out. Each
  handler's report is a value: an error kind, or which kind of item was
  parsed.
- Ownership: unique_ptr, std::move and virtual destructors. Syntax trees are
  datatypes.
- Null results: the null pointer a parse function returns is `Fail` in
  `Grammar` and `None` in the `Parser` class.
- Stack use: recursion depth and stack overflow are not modelled.
- `kaleidoscope/llvm-compiler/lexer.h` and `kaleidoscope/llvm-compiler/ast.h`
  are not part of this model. They repeat the native files and do not
  compile.
- `main.cpp` is modelled only as far as the table it fills in
  (`Grammar.SeedTable`) and the first token it fetches. Callers pass
  `Grammar.SeedTable` to `Parser.Parser.constructor` to reach that state.
- Grammar.ParseBinOpRhs: `exprPrec` is a natural number, where the source
  has `int`. Its only callers pass 0 (`ast.h:177`) and `tok_prec + 1`
  (`ast.h:201`).
- Parser.Parser.ParseBinOpRhs: this and the other parse methods state the
  new `binary_oper` only up to having the same precedences as the table at
  the start. The zero entries get_tok_precedence inserts are stated exactly
  only by `Parser.Parser.GetTokPrecedence`.
- Grammar.ParseBinOpRhs: lines 195-197 of `ast.h` are left out. The code
  as written is `AsWritten.BinOpRhsAsWritten` (see Findings).
- Lexer.NextToken: models get_tok as its branch comments describe it, not as
  written. It departs from the code in four places. The branches of
  `lexer.h:31-72` are siblings, not nested inside the identifier branch. The
  identifier keeps its first letter, which `lexer.h:32` overwrites before
  appending. Each identifier starts from an empty buffer, where
  `identifier_str` (`lexer.h:21`, `lexer.h:33`) keeps what earlier calls
  appended. A word that is not a keyword is returned as `tok_identifier`,
  a return the code lacks after `lexer.h:41`. The code as written is
  `AsWritten.GetTokAsWritten` (see Findings).
- AsWritten.BinOpRhsAsWritten: only the top-level operator loop is as
  written. Its operands are read by the corrected `Grammar.ParsePrimary`, so
  the loops inside parentheses and call arguments are the corrected ones.
- AsWritten.GetTokAsWritten: reaching the end of get_tok without a return is
  undefined behaviour in C++. It is modelled as the outcome `FallsOffEnd`,
  with no value.

## Findings

| source | as written | input that shows it | evidently intended | confidence | as-written member | corrected member |
|---|---|---|---|---|---|---|
| kaleidoscope/native/lexer.h:31-72 | the numeral, comment, end-of-input and fallback branches are inside `if (isalpha(last_char))`; the identifier loop drops the first letter and never clears `identifier_str`; there is no `return tok_identifier` | "def" is read as "ef" and reported as end of input; "42" reaches the end of get_tok without a return; "ab c" yields the blank as a token | sibling branches as the comments label them, and an identifier token whose text starts with its first letter | not executed | AsWritten.KeywordMisreadAsWritten | LexerFacts.IdentifierIsMaximalMunch |
| kaleidoscope/native/ast.h:195-197 | when the next operator binds tighter, LHS is folded with RHS before the recursive call, and RHS is moved out, so the call at line 201 starts from a null operand | 1+2*3 with the table of main.cpp gives (1+2)+(null*3) | 1+(2*3): the tighter operator takes RHS as its left operand | not executed | AsWritten.SumThenProductAsWritten | GrammarFacts.TighterOperatorGroupsFirst |
| kaleidoscope/native/ast.h:251-265 | handle_def and handle_exter call parse_expr, which reports an unknown token at `def` or `extern` | `def f(x) x` gives an error and two top-level expressions | parse_definition and parse_extern, as the messages "parse function def." and "parse an extern" announce | not executed | DriverFacts.DefinitionMisreadAsWritten | DriverFacts.DefinitionSession |

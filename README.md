# A verified model of the K++ front end

This project models the front end of K++ (aidint/klpp), a Kaleidoscope-style language
whose only type is the number. The model covers:

- the character-level lexer (`lib/lex.cpp`, its older variant `lex.cpp`, and the token
  codes and character source of `lex.h`);
- the recursive-descent, precedence-climbing parser with its top-level handlers
  (`parser.cpp`);
- the syntax tree and its helpers (`ast.h`, `lib/ast.cpp`);
- the seeded operator-precedence table (`internal.cpp`);
- the name, scope and table bookkeeping of the code generator (`codegen.cpp`);
- the splitter that cuts standard input into `;`-terminated units, together with the
  unit loop that drives `handle_unit` (`compiler.cpp`, `src/repl.cpp`).

The form follows the source:

- **Imperative code becomes classes.** Each piece of code that mutates globals becomes a
  class whose fields are those globals. The lexer's statics, the parser's `cur_tok`,
  NamedValues / FunctionProtos / BINOP_PRECEDENCE, FunctionRTs and the splitter's stream
  are all fields.
- **Each method is proved against a function.** Every method is proved to compute a
  function over a value snapshot of the state: `ensures (r, State()) == F(old(State()))`.
- **Properties are stated about those functions.** The source's properties are proved as
  lemmas about the functions.

### Modules

| Module | Models |
|---|---|
| `Wrappers` | `Option` |
| `Chars` | the `<ctype.h>` classes and the signed-`char` conversion |
| `Tokens` | `lex.h`: token codes, `SourceLocation`, `SourceReader` |
| `Lexer`, `Runs`, `LexerProps` | `lib/lex.cpp`; `Runs` holds the character runs the scanning loops consume |
| `OldLexer`, `OldLexerProps` | the older `lex.cpp` |
| `Ast` | `ast.h` and `lib/ast.cpp` |
| `Precedence` | BINOP_PRECEDENCE |
| `ParserSpec`, `Parser`, `ParserProps` | the `parse_*` functions of `parser.cpp` |
| `CodeGenSpec`, `CodeGen`, `CodeGenProps` | the bookkeeping of `codegen.cpp` |
| `SessionSpec`, `Session`, `SessionProps` | the handle_* functions of `parser.cpp`, FunctionRTs and `handle_unit` |
| `Units` | `get_unit` and the unit loop of `main` |

### Shared state

One `Precedence.BinopTable` object is shared. The parser reads it and the code generator
writes it, as the one global BINOP_PRECEDENCE is. `Session.Session.Valid` states that
both components hold the same object.

### Representations

- **Input.** Input is a sequence of byte values. A byte is stored in a signed `char`, so
  0xFF reads as EOF (-1).
- **Tokens.** The parser reads a sequence of token snapshots. Each snapshot holds the code
  that `gettok` returned, together with the globals `identifier_str`, `operator_name` and
  the literal text. The sequence ends with tok_eof.
- **Number literals.** A literal is kept as its text. Where the source compares its value
  (the precedence bounds of `parse_prototype`), the model uses the integer part and
  whether any fractional digit is non-zero.
- **Lowering.** Lowered values are abstract terms (`CodeGenSpec.Value`). The module is a
  map from function names to parameter names. An alloca is a fresh slot number.
- **JIT.** Resource trackers are numbers. The JIT is only the set of live trackers.

### Behaviour worth knowing

- **Anonymous function name.** Every top-level expression becomes a function with the
  same fixed name, `__anon_expr` (ast.h:22). See `ParserProps.TopLevelIsAnonymous`.
- **When a redefinition unlinks.** A redefined function is unlinked as soon as the new
  prototype parses, even when its body then fails to parse (parser.cpp:382). See
  `SessionProps.FailedBodyStillUnlinks`.
- **The `for` header.** The test after the loop variable at parser.cpp:83 joins its two
  conditions with `&&`. It accepts any operator token, not only `=`. It also accepts any
  token at all while operator_name still reads `=`. See `ParserProps.ForHeaderAsWritten`.
- **Duplicate parameter names.** When a definition names the same parameter twice, the
  first one keeps the name in NamedValues (codegen.cpp:166-171).
  See `CodeGenProps.BindParamsFirstWins`.

### Quirks of the code, modelled as written

These are modelled as written and proved as properties:

- **IfExprAST's kind tag.** IfExprAST is constructed with the kind tag CallExpr
  (`Ast.ClassOfExact`, `Ast.NoIfKind`).
- **Duplicate `with` bindings.** Bindings are restored in list order, so a name bound
  twice in one `with` keeps its first binding's slot visible afterwards
  (`CodeGenProps.DuplicateBindingLeaks`).
- **`for` failure.** A `for` whose condition, body or step fails to lower leaves its
  variable shadowed (`CodeGenProps.ForFailureLeaksShadow`).
- **Redefinition parameter names.** A redefinition binds the parameter names of the
  function the module already declares (`CodeGenProps.DeclaredNamesWin`).
- **`has_second_point` in the older lexer.** It is uninitialised, so its starting value
  is a parameter of `OldLexer` (`OldLexerProps.GetTokNumber`).

## Model

| member | source | states |
|---|---|---|
| Chars.SignedChar | lex.h:20-26 | a byte stored in a signed `char` lies in [-128, 127] |
| Chars.SignedCharCongruent | lex.h:20-26 | the conversion keeps the byte's value modulo 256 |
| Tokens.TokenCodesDistinct | lex.h:30-59 | the fifteen token codes are exactly -1 down to -15, so they are pairwise distinct and all negative |
| Tokens.ReadChar | lex.h:20-27 | get_next_char consumes one byte while the stream lasts; an exhausted stream gives EOF and consumes nothing |
| Tokens.ReadCharDecodes | lex.h:20-27 | the result is EOF exactly when the byte reads as '\0' or as -1; any other byte comes back as its signed char value |
| Tokens.SourceReader.SetSource | lex.h:16-18 | the new stream replaces the old one wholesale, read from its start |
| Tokens.SourceReader.GetNextChar | lex.h:20-27 | the method returns what ReadChar gives and advances the stream by the same amount |
| LexerProps.PutBackFullDrops | lib/lex.cpp:26-32 | the buffer never grows past its 100 slots; pushing back onto a full buffer drops the character, so what is read next is unchanged |
| Lexer.Lexer.constructor | lib/lex.cpp:6-13 | the initial globals: an empty buffer, lex_loc {1, 0}, last_char ' ', and empty payload globals |
| Lexer.Lexer.ResetLexLoc | lib/lex.cpp:15 | lex_loc becomes {1, 0} and nothing else changes |
| Lexer.Lexer.SetSource | include/internal.h:46-49 | set_lex_source resets the location, then replaces the stream, which is read from its start |
| Lexer.Lexer.PutbackChar | lib/lex.cpp:26-32 | putback_char returns its argument and pushes it (PutBack) on the array buffer |
| Lexer.ReadNext | lib/lex.cpp:34-48 | get_char changes only the buffer, the stream position and lex_loc. lex_loc moves by the character read: a line end starts the next line at column 0, anything else moves one column on. Each call consumes a character or returns EOF with nothing consumed |
| Lexer.Lexer.GetChar | lib/lex.cpp:34-48 | get_char on the array buffer and the reader computes ReadNext |
| LexerProps.ReadNextUpcoming | lib/lex.cpp:34-39 | get_char delivers the next character still to come (the buffer's top first, then the stream), EOF when none is left |
| LexerProps.PutBackThenRead | lib/lex.cpp:26-37 | the buffer is a stack: a character pushed back is the next one read, at an unchanged stream position |
| LexerProps.PushBackAllUpcoming | lib/lex.cpp:66 | pushing a name back from its last character to its first makes it the next thing read, in its original order, when the buffer has room |
| LexerProps.OperatorAlphabetExact | lib/lex.cpp:17-24 | is_viable_operator_char holds exactly for the 22 characters `! $ % & : * / + - < > = ? @ [ ] \ ^ \| { } ~` |
| LexerProps.OperatorAlphabetDistinct | lib/lex.cpp:17-24 | the 22 operator characters are pairwise distinct |
| Lexer.OperatorRun | lib/lex.cpp:73-78 | the unquoted loop stops at a character that is not an operator character; besides reading, it changes only operator_name |
| Lexer.Lexer.ScanOperatorRun | lib/lex.cpp:73-78 | the loop computes OperatorRun |
| LexerProps.OperatorRunScans | lib/lex.cpp:73-78 | the unquoted loop appends exactly the maximal run of operator characters and stops on the first character after it |
| Lexer.QuotedRun | lib/lex.cpp:57-62 | the quoted-name loop gathers ASCII characters and stops at a character that may not stand in a quoted name |
| Lexer.Lexer.ScanQuoted | lib/lex.cpp:54-70 | the quoted branch of get_operator computes OperatorSpelling at a backtick |
| Lexer.QuotedEnd | lib/lex.cpp:64-68 | closing a quoted name changes neither cur_loc, identifier_str nor the literal |
| Lexer.Lexer.EndQuoted | lib/lex.cpp:64-68 | the close of the quoted branch computes QuotedEnd, pushing back on the array buffer |
| Lexer.OperatorSpelling | lib/lex.cpp:52-79 | get_operator leaves cur_loc, identifier_str and the literal alone |
| Lexer.Lexer.GetOperator | lib/lex.cpp:52-79 | get_operator computes OperatorSpelling |
| LexerProps.QuotedSpellingFound | lib/lex.cpp:54-70 | a terminated, non-empty backtick name is the spelling with both backticks, and reading resumes after the closing one |
| LexerProps.QuotedSpellingRejected | lib/lex.cpp:64-70 | an unterminated or empty backtick name leaves operator_name empty, returns the backtick, and leaves everything after it to be read again in order (an EOF that stopped the name included) |
| LexerProps.UnquotedSpelling | lib/lex.cpp:73-78 | at any other character the spelling is the maximal run of operator characters (possibly empty), and reading resumes after it |
| Lexer.SkipSpace | lib/lex.cpp:84-85 | the whitespace loop stops at a character that is not whitespace and consumes nothing else |
| Lexer.Lexer.SkipWhitespace | lib/lex.cpp:84-85 | the loop computes SkipSpace |
| LexerProps.SkipSpaceScans | lib/lex.cpp:84-85 | the whitespace loop consumes exactly the leading whitespace |
| Lexer.IdentRest | lib/lex.cpp:92-93 | the identifier loop stops at a character that is not alphanumeric and changes only identifier_str besides reading |
| Lexer.Lexer.ScanIdentifier | lib/lex.cpp:91-93 | identifier_str starts as last_char, then the loop computes IdentRest |
| LexerProps.IdentRestText | lib/lex.cpp:91-93 | the identifier loop appends exactly the maximal alphanumeric run |
| LexerProps.IdentRestLook | lib/lex.cpp:92-93 | the identifier loop stops on the first character after that run |
| Lexer.NumberRest | lib/lex.cpp:128-138 | the number loop stops at a character that is neither a digit nor a point and changes only the literal besides reading |
| Lexer.Lexer.NumberBody | lib/lex.cpp:129-137 | one turn updates has_second_point before has_point, and keeps the character unless the second point was seen |
| Lexer.Lexer.ScanNumber | lib/lex.cpp:122-141 | the number state computes NumberToken |
| LexerProps.NumberRestLook | lib/lex.cpp:128-138 | the number loop consumes the whole run of digits and points |
| LexerProps.NumberRestDrops | lib/lex.cpp:135-137 | from the second point on, nothing more is kept |
| LexerProps.NumberRestText | lib/lex.cpp:128-138 | before the second point, the loop keeps the run cut just before its second point |
| Runs.KeptNumberOnePoint | lib/lex.cpp:128-138 | the kept literal holds at most one point |
| Runs.KeptNumberWhole | lib/lex.cpp:128-138 | a run with at most one point is kept whole |
| Runs.SecondPointTruncates | lib/lex.cpp:122-141 | "3.14.15" keeps "3.14" |
| Lexer.CommentRest | lib/lex.cpp:145-147 | the comment loop stops at EOF or at a line end, which it consumes |
| Lexer.Lexer.ScanComment | lib/lex.cpp:145-147 | the loop computes CommentRest |
| LexerProps.CommentRestScans | lib/lex.cpp:145-147 | the comment loop consumes up to and including the first `\n`, `\r` or EOF after `#` |
| Lexer.WordToken | lib/lex.cpp:90-120 | the identifier state leaves cur_loc alone |
| Lexer.Lexer.ScanWord | lib/lex.cpp:90-120 | the identifier state computes WordToken |
| Lexer.Lexer.ScanOther | lib/lex.cpp:153-166 | the operator state and the fallbacks compute OtherToken |
| Lexer.Lexer.GetTok | lib/lex.cpp:81-167 | gettok computes NextToken: the code it returns and every global it leaves behind |
| LexerProps.GetTokWord | lib/lex.cpp:90-120 | identifier_str is the maximal alphanumeric run. def/extern/if/then/else/for/do/end/with give their keyword codes; any other word but `binary`/`unary` gives tok_identifier. Either way the next character is the first one after the word |
| LexerProps.GetTokContextual | lib/lex.cpp:54-70 | `binary`/`unary` followed at once by operator characters or a backtick name give tok_binary/tok_unary with that spelling. An unterminated or empty backtick name is pushed back: tok_identifier, an empty operator_name, and the backtick and everything after it read again (when the buffer has room). Followed by anything else, they give tok_identifier with an empty operator_name and consume nothing after the word (so `binary +` is an identifier) |
| LexerProps.ContextualFacts | lib/lex.cpp:111-116 | the same four outcomes, stated for the identifier state at the word |
| LexerProps.GetTokNumber | lib/lex.cpp:122-141 | a number is tok_number with the literal cut before a second point, and the whole run of digits and points is consumed |
| LexerProps.GetTokComment | lib/lex.cpp:144-151 | a comment is skipped through the first line end, after which lexing restarts; a comment that reaches EOF gives tok_eof with last_char reset to ' ' |
| LexerProps.GetTokOperator | lib/lex.cpp:153-157 | an operator character starts tok_operator spelled with the maximal run of operator characters |
| LexerProps.GetTokBacktickName | lib/lex.cpp:153-157 | a terminated, non-empty backtick name is tok_operator spelled with both backticks |
| LexerProps.GetTokBacktickAlone | lib/lex.cpp:153-166 | otherwise the backtick is a token of its own, operator_name is empty, and everything after it is read again, when the buffer has room |
| LexerProps.GetTokEndOrChar | lib/lex.cpp:159-166 | EOF gives tok_eof and resets last_char to ' '; any other character is returned as itself, and exactly that character is consumed |
| LexerProps.GetTokLocation | lib/lex.cpp:84-87 | cur_loc is lex_loc once the whitespace has been skipped |
| OldLexer.Advance | lex.cpp:12 | getchar consumes one character, and gives EOF without moving once the input is used up |
| OldLexer.OldLexer.constructor | lex.cpp:5-9 | last_char starts as ' ', with empty globals |
| OldLexer.SkipSpace | lex.cpp:11-12 | the whitespace loop stops at a character that is not whitespace |
| OldLexer.OldLexer.SkipWhitespace | lex.cpp:11-12 | the loop computes SkipSpace |
| OldLexerProps.SkipSpaceScans | lex.cpp:11-12 | the whitespace loop stops on the first non-space character and changes no global |
| OldLexer.IdentRest | lex.cpp:17-18 | the identifier loop stops at a character that is not alphanumeric and leaves num_val alone |
| OldLexerProps.IdentRestScans | lex.cpp:16-18 | identifier_str is exactly the maximal alphanumeric run, and reading resumes after it |
| OldLexer.OldLexer.ScanWord | lex.cpp:15-25 | the identifier state computes WordToken |
| OldLexerProps.GetTokWord | lex.cpp:15-24 | only `def` and `extern` are keywords; every other word gives tok_identifier with identifier_str set to it |
| OldLexer.NumberRest | lex.cpp:33-43 | the number loop stops at a character that is neither a digit nor a point and leaves the globals alone |
| OldLexerProps.NumberRestDrops | lex.cpp:40-42 | once has_second_point is set, nothing more is kept |
| OldLexerProps.NumberRestText | lex.cpp:33-43 | with has_second_point false, the loop keeps the run cut before its second point |
| OldLexerProps.NumberRestLook | lex.cpp:33-43 | the number loop consumes the whole run of digits and points, whatever it keeps |
| OldLexerProps.NumberValue | lex.cpp:45 | num_val is atoi of the kept text: its integer part |
| OldLexer.OldLexer.ScanNumber | lex.cpp:27-47 | the number state computes NumberToken for the given starting value of has_second_point |
| OldLexerProps.GetTokNumber | lex.cpp:27-46 | tok_number whose num_val is the integer part (atoi) of the kept text. Starting false, the text stops before the second point; starting true, only the first character is kept. The whole run is consumed either way |
| OldLexer.CommentRest | lex.cpp:50-52 | the comment loop stops at EOF or at a line end, which it consumes |
| OldLexer.OldLexer.ScanComment | lex.cpp:50-52 | the loop computes CommentRest |
| OldLexerProps.CommentRestScans | lex.cpp:50-52 | the comment loop consumes up to and including the first `\n`, `\r` or EOF after `#` |
| OldLexerProps.GetTokComment | lex.cpp:49-56 | a comment runs to the first line end, where lexing restarts; a comment that reaches EOF gives tok_eof |
| OldLexerProps.GetTokEndOrChar | lex.cpp:58-63 | EOF gives tok_eof and consumes nothing; any other character is returned as itself, and exactly that one is consumed |
| OldLexerProps.EofSticky | lex.cpp:58-59 | tok_eof leaves last_char at EOF, and from then on every call returns tok_eof and changes nothing |
| OldLexerProps.EofForever | lex.cpp:58-59 | once a call returns tok_eof, so does the next one, whatever has_second_point starts with |
| OldLexer.OldLexer.GetTok | lex.cpp:8-64 | gettok computes NextToken |
| Ast.KindsExact | ast.h:30-39 | ExprKind has exactly eight distinct variants |
| Ast.Kind | lib/ast.cpp:8-72 | each node's kind is the tag its constructor passes: its own class's kind, except that an if node has CallExpr |
| Ast.ClassOfExact | ast.h:53-165 | every classof holds exactly when getKind() equals that class's tag, so an if node is recognised by CallExprAST::classof and by no other, not even IfExprAST's |
| Ast.NoIfKind | lib/ast.cpp:55-59 | no node has kind IfExpr |
| Ast.PrototypeDefaults | ast.h:111-112 | omitted arguments give IsOperator false and precedence 0, which is neither a unary nor a binary operator |
| Ast.OperatorKindsExclusive | lib/ast.cpp:30-35 | is_unary_op holds exactly for an operator with 1 argument and is_binary_op for one with 2, so they never both hold |
| Ast.Find | lib/ast.cpp:41 | std::string::find gives the first occurrence, or none when there is none |
| Ast.OperatorNameRoundTrip | lib/ast.cpp:38-42 | get_operator_name gives op back for the names "binary" + op (two arguments) and "unary" + op (one) |
| Ast.PrototypeAccessors | lib/ast.cpp:29-53 | get_name, get_arg_size and get_binary_precedence return what the prototype was built with; FunctionAST::get_name is its prototype's name |
| Precedence.BinopTable.constructor | internal.cpp:30-32 | the table starts as the seed |
| Precedence.SeedContents | internal.cpp:30-32 | the seed holds exactly "=":2, "<":10, ">":10, "+":20, "-":20, "*":40 |
| Precedence.SeedPositive | internal.cpp:30-32 | every seeded precedence is positive, so the parser recognises all six as binary operators |
| Precedence.SeedLadder | internal.cpp:30-32 | `*` > `+` = `-` > `<` = `>` > `=` |
| ParserSpec.Next | include/parser.h:6 | get_next_token moves to the next token; at tok_eof it stays, since the lexer keeps returning tok_eof |
| ParserSpec.TokPrecedenceMeaning | parser.cpp:255-267 | get_tok_precedence is the table value of an operator token with a positive entry, and -1 for anything else |
| ParserSpec.ParseExpression | parser.cpp:310-316 | cur_tok never moves back, and a successful parse consumes at least one token |
| ParserSpec.ParseUnary | parser.cpp:236-253 | as for ParseExpression |
| ParserSpec.ParsePrimary | parser.cpp:214-231 | as for ParseExpression |
| ParserSpec.ParseParen | parser.cpp:32-42 | as for ParseExpression |
| ParserSpec.ParseIf | parser.cpp:45-71 | as for ParseExpression |
| ParserSpec.ParseFor | parser.cpp:73-128 | as for ParseExpression |
| ParserSpec.ForClauses | parser.cpp:88-127 | as for ParseExpression |
| ParserSpec.ExprThen | parser.cpp:98-105 | an expression followed by the expected token never moves back, and consumes at least one token when it succeeds |
| ParserSpec.ParseWith | parser.cpp:130-172 | as for ParseExpression |
| ParserSpec.ParseBindings | parser.cpp:136-156 | as for ParseExpression |
| ParserSpec.ParseIdentifierExpr | parser.cpp:177-208 | as for ParseExpression |
| ParserSpec.ParseArgs | parser.cpp:188-202 | a successful argument loop consumes at least one token and stops at `)` |
| ParserSpec.BinopRhs | parser.cpp:271-304 | parse_binop_rhs never moves cur_tok back |
| ParserSpec.ParsePrototype | parser.cpp:320-373 | cur_tok never moves back, and a successful parse consumes at least one token |
| ParserSpec.ProtoArgs | parser.cpp:359-360 | the argument loop stops at the first token that is not an identifier |
| ParserSpec.ParseDefinition | parser.cpp:376-386 | cur_tok never moves back, and a successful parse consumes at least one token |
| ParserSpec.ParseExtern | parser.cpp:389-392 | as for ParseDefinition |
| ParserSpec.ParseTopLevel | parser.cpp:395-403 | as for ParseDefinition |
| Parser.Parser.constructor | include/parser.h:6 | a parser whose cur_tok is the first token of the stream, reading the given table |
| Parser.Parser.SetTokens | include/internal.h:46-49 | a new source: the tokens of the new unit, with cur_tok at the first |
| Parser.Parser.GetNextToken | include/parser.h:6 | cur_tok becomes the next token, and its code is returned |
| Parser.Parser.GetTokPrecedence | parser.cpp:255-267 | the method returns TokPrecedence on the current token and the shared table |
| Parser.Parser.ParseNumberExpr | parser.cpp:25-29 | the literal, with one token consumed |
| Parser.Parser.ParseParenExpr | parser.cpp:32-42 | the node and the new cur_tok are those of ParseParen |
| Parser.Parser.ParseIfExpr | parser.cpp:45-71 | the node and the new cur_tok are those of ParseIf |
| Parser.Parser.ParseForExpr | parser.cpp:73-128 | the node and the new cur_tok are those of ParseFor |
| Parser.Parser.ParseExprThen | parser.cpp:98-105 | an expression followed by an expected token, as ExprThen computes it |
| Parser.Parser.ParseForClauses | parser.cpp:88-127 | the node and the new cur_tok are those of ForClauses |
| Parser.Parser.ParseWithExpr | parser.cpp:130-172 | the node and the new cur_tok are those of ParseWith |
| Parser.Parser.ParseBindingList | parser.cpp:136-156 | the do-while loop computes ParseBindings |
| Parser.Parser.ParseIdentifierExprM | parser.cpp:177-208 | the node and the new cur_tok are those of ParseIdentifierExpr |
| Parser.Parser.ParseArgList | parser.cpp:188-202 | the argument loop computes ParseArgs |
| Parser.Parser.ParsePrimaryM | parser.cpp:214-231 | the node and the new cur_tok are those of ParsePrimary |
| Parser.Parser.ParseUnaryM | parser.cpp:236-253 | the node and the new cur_tok are those of ParseUnary |
| Parser.Parser.ParseBinopRhs | parser.cpp:271-304 | the loop with its recursive call computes BinopRhs |
| Parser.Parser.ParseExpressionM | parser.cpp:310-316 | the node and the new cur_tok are those of ParseExpression |
| Parser.Parser.ParsePrototypeM | parser.cpp:320-373 | the prototype and the new cur_tok are those of ParsePrototype |
| Parser.Parser.ParseExternM | parser.cpp:389-392 | as ParseExtern |
| Parser.Parser.ParseTopLevelM | parser.cpp:395-403 | as ParseTopLevel |
| ParserProps.VariableAt | parser.cpp:182-183 | an identifier not followed by `(` is a variable reference, one token long |
| ParserProps.EqualPrecedenceGroupsLeft | parser.cpp:281-302 | for operators of equal positive precedence, `a o1 b o2 c` is `(a o1 b) o2 c` |
| ParserProps.TighterPrecedenceGroupsRight | parser.cpp:293-300 | when o2 binds tighter, `a o1 b o2 c` is `a o1 (b o2 c)` |
| ParserProps.SeededGrouping | parser.cpp:271-304 | with the seeded table, `a - b - c` is `(a - b) - c` and `a + b * c` is `a + (b * c)` |
| ParserProps.UnknownOperatorEndsExpression | parser.cpp:255-282 | an operator without a positive table entry ends the expression, with cur_tok on it |
| ParserProps.BinopRhsStops | parser.cpp:277-282 | a successful parse_binop_rhs stops at a token whose precedence is below exprPrec |
| ParserProps.ExpressionStops | parser.cpp:310-316 | a successful parse_expression, which climbs from 0, stops at a token that is not a known binary operator |
| ParserProps.UnaryChains | parser.cpp:236-253 | `! ! s` is unary!(unary!(s)), while `!!s` is unary!!(s) |
| ParserProps.IfDefaultsElse | parser.cpp:60-67 | `if x then y` has the literal 0 as its else branch |
| ParserProps.IfShape | parser.cpp:45-71 | an if parses only with `then` after its condition, and its else branch is the literal 0 when no `else` follows the then branch |
| ParserProps.BindingsAppend | parser.cpp:136-156 | the with list keeps its bindings in source order |
| ParserProps.FirstBinding | parser.cpp:137-150 | the first binding is named by the first identifier, and has no initializer exactly when no `=` operator follows the name |
| ParserProps.WithExample | parser.cpp:130-172 | `with a, b = n do a end` has a null initializer for a and the literal for b, in source order |
| ParserProps.ArgsAppend | parser.cpp:189-201 | call arguments keep source order |
| ParserProps.ForHeaderAsWritten | parser.cpp:83-86 | the check after the loop variable accepts any operator token, and any token at all while operator_name still reads "=". It rejects exactly the rest, failing at that token |
| ParserProps.ProtoArgsScan | parser.cpp:359-360 | the argument loop collects the identifiers in order and stops at the first other token |
| ParserProps.ArgsIdents | parser.cpp:359-360 | the names collected are exactly the identifiers the loop passes |
| ParserProps.AcceptedPrecedence | parser.cpp:338-341 | an accepted precedence literal has an integer part in [1, 100] |
| ParserProps.PrototypeRules | parser.cpp:320-373 | function, unary and binary prototypes are named by the identifier, "unary" + op and "binary" + op. An operator has exactly 1 or 2 parameters. A literal outside [1, 100] is rejected, and the precedence defaults to 30 |
| ParserProps.PrototypeParameters | parser.cpp:352-371 | a parsed prototype's parameters are the identifiers after its `(`, in order |
| ParserProps.PrototypeViaRest | parser.cpp:326-350 | an ordinary or unary prototype is its name and kind followed by the part from `(` on, with precedence 30 |
| ParserProps.TopLevelIsAnonymous | parser.cpp:395-403 | a top-level expression succeeds exactly when the expression does, and becomes the body of the nullary non-operator function `__anon_expr` |
| ParserProps.DefinitionParts | parser.cpp:376-386 | a definition parses exactly when its prototype and then its body parse, and it is made of those two |
| CodeGenSpec.Restore | codegen.cpp:286 | `NamedValues[name] = prior` sets that name's entry and no other |
| CodeGenSpec.Alloc | internal.cpp:34-39 | create_entry_block_alloca hands out a slot no earlier alloca had |
| CodeGenSpec.ProtoCodegen | codegen.cpp:131-143 | the prototype's name is declared in the module, and every function already there is kept |
| CodeGenSpec.GetFunction | codegen.cpp:17-26 | the module's own function first, then a stored prototype (declared on the way), otherwise failure with nothing changed |
| CodeGenSpec.GenBinary | codegen.cpp:44-96 | `=` succeeds exactly when the left side is a variable that is bound after the right side lowers, and its value is the right side's value. Any other non-built-in operator needs a declared function "binary" + op, and becomes a two-argument call of it |
| CodeGenSpec.GenUnary | codegen.cpp:98-109 | success needs a function "unary" + op and gives a one-argument call of it |
| CodeGenSpec.GenCall | codegen.cpp:111-129 | success needs a callee whose parameter count equals the argument count, and gives a call with those arguments |
| CodeGenSpec.GenArgs | codegen.cpp:122-127 | the argument loop yields one value per argument after the ones already lowered |
| CodeGenSpec.GenFor | codegen.cpp:230-288 | a `for` that lowers yields 0 |
| CodeGenSpec.GenBindings | codegen.cpp:294-314 | the binding loop saves one entry per binding after the ones already saved |
| CodeGen.CodeGen.constructor | ast.h:171-185 | empty NamedValues, FunctionProtos and module, writing to the given table |
| CodeGen.CodeGen.ResetModule | parser.cpp:421-423 | initialize_modules_and_managers gives a fresh, empty module |
| CodeGen.CodeGen.StorePrototype | parser.cpp:441 | FunctionProtos[name] = prototype, replacing an earlier entry |
| CodeGen.CodeGen.CreateEntryBlockAlloca | internal.cpp:34-39 | the method computes Alloc |
| CodeGen.CodeGen.ProtoCodegenM | codegen.cpp:131-143 | the method computes ProtoCodegen |
| CodeGen.CodeGen.GetFunctionM | codegen.cpp:17-26 | the method computes GetFunction |
| CodeGen.CodeGen.GenExpr | codegen.cpp:33-42 | numbers and variables lowered here (an unbound variable fails); every other node goes to its own method, and the whole is Gen |
| CodeGen.CodeGen.GenBinaryM | codegen.cpp:44-96 | the method computes GenBinary |
| CodeGen.CodeGen.GenUnaryM | codegen.cpp:98-109 | the method computes GenUnary |
| CodeGen.CodeGen.GenCallM | codegen.cpp:111-129 | the method, with its argument loop, computes GenCall |
| CodeGen.CodeGen.GenIfM | codegen.cpp:187-228 | the method computes GenIf |
| CodeGen.CodeGen.GenForM | codegen.cpp:230-288 | the method computes GenFor |
| CodeGen.CodeGen.GenWithM | codegen.cpp:290-324 | the method, with both of its loops, computes GenWith |
| CodeGen.CodeGen.BindParamsM | codegen.cpp:166-171 | the parameter loop computes BindParams |
| CodeGen.CodeGen.GenFunctionM | codegen.cpp:145-185 | the method computes GenFunction, on the shared precedence table |
| CodeGenProps.GenGrows | codegen.cpp:33-324 | lowering an expression only declares functions (never dropping or changing one) and allocates slots. FunctionProtos and the table stay, and every slot NamedValues holds has been allocated |
| CodeGenProps.GenKeepsScope | codegen.cpp:251-323 | a successful lowering leaves NamedValues as it found it, when no `with` binds a name twice |
| CodeGenProps.ForKeepsScope | codegen.cpp:251-286 | a `for` that lowers leaves NamedValues as it found it: the shadowed entry is put back after the loop |
| CodeGenProps.ForShadowsVariable | codegen.cpp:251-256 | during the loop its variable is bound, whatever the outer scope: a condition, body and step that read only the variable always lower once the start does, and the loop's value is 0 |
| CodeGenProps.ForStartOutsideScope | codegen.cpp:230-252 | the start value is lowered before the variable is shadowed, so a start that reads the loop's variable fails when the variable is not bound outside |
| CodeGenProps.WithKeepsScope | codegen.cpp:294-323 | a `with` with distinct names restores the scope it started from |
| CodeGenProps.BindingsKeepScope | codegen.cpp:294-314 | installing the bindings and then restoring the saved entries in list order gives back the starting scope |
| CodeGenProps.InitializerDoesNotSeeItself | codegen.cpp:299-313 | an initializer is lowered before its own binding is installed, so one that reads its own name fails when the name is not bound outside |
| CodeGenProps.InitializerSeesEarlier | codegen.cpp:294-323 | a later initializer sees an earlier binding: in `with a, b = a do b` the body loads b's slot, two slots are used and the scope is empty again after |
| CodeGenProps.BindingWithoutInit | codegen.cpp:299-313 | a binding without an initializer takes the next slot and saves the name's old entry |
| CodeGenProps.DuplicateBindingLeaks | codegen.cpp:312-321 | `with x, x do 1` leaves x bound to the first binding's slot afterwards |
| CodeGenProps.TwoBindings | codegen.cpp:294-314 | in `with x, x`, the second binding saves the first one's slot, so slots 0 and 1 are handed out and x ends at slot 1 inside the body |
| CodeGenProps.ForFailureLeaksShadow | codegen.cpp:251-256 | a `for` whose condition fails to lower leaves its variable shadowed |
| CodeGenProps.GreaterIsSwappedLess | codegen.cpp:79-87 | `a > b` lowers as `b < a` with the same state |
| CodeGenProps.BindParamsBinds | codegen.cpp:166-171 | binding the parameters adds exactly their names to NamedValues, allocates one slot per parameter, keeps every slot allocated and changes nothing else |
| CodeGenProps.BindParamsKeeps | codegen.cpp:166-171 | a name already in NamedValues keeps its entry |
| CodeGenProps.BindParamsFirstWins | codegen.cpp:166-171 | the first parameter of a name gets that name, bound to its own slot; a later parameter of the same name does not take it over |
| CodeGenProps.GenFunctionOutcome | codegen.cpp:145-185 | the prototype of an unknown name is stored whatever happens next. Only a binary operator whose body lowers publishes its precedence. A clashing parameter count fails; a failing body erases the function |
| CodeGenProps.GenFunctionTables | codegen.cpp:150-181 | FunctionProtos and BINOP_PRECEDENCE after FunctionAST::codegen |
| CodeGenProps.GenFunctionProtos | codegen.cpp:150-154 | FunctionProtos gains the prototype exactly when the name was unknown, and stays keyed by name |
| CodeGenProps.GenFunctionPrec | codegen.cpp:179-180 | BINOP_PRECEDENCE changes only when a binary operator's definition lowers, and then gets its precedence |
| CodeGenProps.GenFunctionModule | codegen.cpp:156-184 | the function stays declared when it lowers or when its parameter count clashed, and is erased when its body fails |
| CodeGenProps.DeclaredNamesWin | codegen.cpp:148-172 | a definition over a declared function binds that declaration's parameter names, so a body using only its own differing names fails |
| SessionSpec.DeleteIfExists | parser.cpp:16-22 | a known name loses its registry entry and its code; an unknown name changes nothing |
| SessionSpec.Record | parser.cpp:419-425 | a fresh tracker holds the new module and is recorded for the name |
| SessionSpec.OneShot | parser.cpp:454-466 | a tracker is used for one expression and removed, leaving registry and live code as they were |
| SessionSpec.ParseDefinitionAt | parser.cpp:376-386 | parse_definition is ParseDefinition, and unlinks the name as soon as the prototype parses |
| SessionSpec.HandleDefinition | parser.cpp:409-431 | handle_definition always moves cur_tok forward |
| SessionSpec.HandleExtern | parser.cpp:433-447 | handle_extern always moves cur_tok forward |
| SessionSpec.HandleTopLevel | parser.cpp:449-472 | handle_top_level_expression always moves cur_tok forward |
| SessionSpec.Dispatch | compiler.cpp:39-54 | each turn of handle_unit moves cur_tok forward |
| SessionSpec.RunUnit | src/repl.cpp:34-51 | the loop ends at tok_eof, never moving back |
| SessionSpec.HandleUnit | compiler.cpp:36-56 | handle_unit reads the unit from its first token and returns at tok_eof, with the parser still on that unit |
| Session.Session.constructor | lib/ast.cpp:4-5 | empty FunctionProtos and FunctionRTs, and no tracker created yet |
| Session.Session.DeleteFunctionIfExists | parser.cpp:16-22 | the method computes DeleteIfExists |
| Session.Session.ParseDefinitionM | parser.cpp:376-386 | the method computes ParseDefinitionAt |
| Session.Session.HandleDefinitionM | parser.cpp:409-431 | the method computes HandleDefinition and keeps the bookkeeping consistent |
| Session.Session.AddModule | parser.cpp:419-425 | the method computes Record, with a fresh module |
| Session.Session.RunOnce | parser.cpp:454-466 | the method computes OneShot, with a fresh module |
| Session.Session.HandleExternM | parser.cpp:433-447 | the method computes HandleExtern and keeps the bookkeeping consistent |
| Session.Session.HandleTopLevelM | parser.cpp:449-472 | the method computes HandleTopLevel and keeps the bookkeeping consistent |
| Session.Session.HandleUnitM | compiler.cpp:36-56 | the loop computes HandleUnit and keeps the bookkeeping consistent |
| SessionProps.DeleteKeepsJit | parser.cpp:16-22 | unlinking keeps one live tracker per defined function |
| SessionProps.RecordKeepsJit | parser.cpp:419-425 | recording a fresh tracker keeps one live tracker per defined function |
| SessionProps.DispatchConsistent | src/repl.cpp:35-50 | every turn of handle_unit keeps the bookkeeping consistent |
| SessionProps.RunUnitConsistent | compiler.cpp:36-56 | handle_unit keeps the bookkeeping consistent, however the unit parses and lowers |
| SessionProps.RedefinitionUnlinks | parser.cpp:382 | redefining a function unlinks the previous definition's code |
| SessionProps.FailedBodyStillUnlinks | parser.cpp:376-386 | a definition whose body fails still unlinks the previous one, and skips one token |
| SessionProps.ParseFailureSkipsOneToken | parser.cpp:427-430 | a definition, extern or expression that fails to parse skips the one token it stopped at |
| SessionProps.DefinitionRecorded | parser.cpp:409-426 | a definition that lowers is recorded under a fresh live tracker with a fresh module; one that does not is not recorded |
| SessionProps.DispatchNoDefinition | parser.cpp:433-472 | extern declarations, expressions and `;` leave FunctionRTs and the live code as they were |
| SessionProps.UnitWithoutDefinitions | compiler.cpp:36-56 | a unit without `def` leaves FunctionRTs and the live code as they were |
| SessionProps.DefinedOperatorReachesParser | codegen.cpp:179-180 | a binary operator defined by a definition that lowers is parsed from then on with its prototype's precedence |
| Units.ReadChar | compiler.cpp:18-20 | `c = getchar()` is the next byte as a signed char, or EOF at the end |
| Units.GetUnit | compiler.cpp:17-33 | get_unit returns 0 or EOF, never moves back, and consumes at least one byte when it returns 0 |
| Units.GetUnitAppends | compiler.cpp:20-30 | every character read is appended, up to and including a terminating `;` or the EOF marker; a NUL ends the unit and is not appended |
| Units.GetUnitCommentRule | compiler.cpp:17-33 | for every input: a unit that ends at a `;` ends outside any comment, and every earlier `;` of it lies in a comment opened by a `#` with no `\n` after it. A unit cut short by a NUL or ending in EOF holds only such hidden `;`s |
| Units.OpenSnoc | compiler.cpp:22-28 | the comment flag follows the text read: `\n` closes a comment, `#` opens one, other characters keep it |
| Units.NulAfterHiddenSemicolon | compiler.cpp:20-32 | example: a NUL after `#;` returns 0 with the hidden `;` last in the unit |
| Units.CommentHidesSemicolon | compiler.cpp:22-28 | example: in `#;\n;` the first `;` does not end the unit; the newline ends the comment, and the next `;` does |
| Units.CarriageReturnKeepsComment | compiler.cpp:24-26 | example: `\r` does not leave a comment, so in `#\r;` the `;` is still hidden |
| Units.EofEnd | compiler.cpp:20-30 | where reading stops: just after the first byte from pos that reads as EOF, or at the end of the input |
| Units.GetUnitEnd | compiler.cpp:20-30 | get_unit passes no byte that reads as EOF unless it returns EOF, and then it stops just after the first one |
| Units.ByteFFIsEof | compiler.cpp:18-30 | a 0xFF byte is stored as -1, which equals EOF, so the unit ends there |
| Units.NulEndsUnit | compiler.cpp:20-32 | a NUL ends the loop and get_unit returns 0 |
| Units.TrailingSegmentDropped | compiler.cpp:84-88 | a last segment without `;` is never handed to handle_unit |
| Units.UnitsHaveNoEof | compiler.cpp:84-88 | no unit handed to handle_unit holds the EOF marker |
| Units.Splitter.constructor | compiler.cpp:17 | standard input read from its start, with an empty stream and no unit handled yet |
| Units.Splitter.GetChar | src/repl.cpp:15 | the method computes ReadChar |
| Units.Splitter.GetUnitM | src/repl.cpp:12-29 | the loop with its comment flag computes GetUnit |
| Units.Splitter.RunUnits | src/repl.cpp:76-80 | the units handed to handle_unit are those Split finds, the stream is cleared between them, and reading stops just after the first byte that reads as EOF (a 0xFF byte stops all processing) |

## Left out

- **Exhausted input.** `SourceReader::get_next_char` leaves `c` unset when the stream is
  exhausted. The model reads EOF there, which is what the loops need to stop.
- **Floating point.** `atof` and `num_val` are replaced by the literal's text. Arithmetic
  lowering is kept abstract.
- ParserSpec.ParsePrototype: the precedence bounds compare the integer part and whether
  any fractional digit is non-zero, and the unsigned conversion is truncation. This
  ignores the rounding of `atof`: the source accepts "0.99999999999999999999" (which reads
  as 1.0) and "100.00000000000000001" (which reads as 100.0), and the model rejects both.
- OldLexerProps.GetTokNumber: `atoi` is the value of the leading digits as an unbounded
  integer, without the overflow of a 32-bit `int`.
- OldLexerProps.NumberValue: as GetTokNumber. `num_val` is a `double` (lex.cpp:6), and
  the model stores the `atoi` result as a natural number, without the conversion.
- **Lexer and parser are not composed.** The parser reads a precomputed sequence of token
  snapshots, not calls into the lexer object. The unit splitter's units are handed over
  as text and are not lexed in the model. Each side is proved on its own.
- **LLVM, the JIT and the pass pipeline.** IR construction, verification and
  optimisation are foreign library calls. Lowered values are abstract terms. The JIT is
  only the set of live tracker numbers. The value a top-level expression evaluates to is
  not modelled, and neither is printing it.
- CodeGenSpec.ProtoCodegen: LLVM renames a declaration that clashes with an existing
  name. The model keeps the function the module had.
- CodeGen.CodeGen.ProtoCodegenM: as ProtoCodegen; declaring a prototype never fails,
  since the source does not check for failure there.
- Ast.OperatorNameRoundTrip: `get_operator_name` is stated only for names the parser
  builds. Elsewhere the model gives None where `substr` would throw.
- LexerProps.GetTokBacktickAlone: this needs the push-back buffer to have room for the
  rejected name (|buf| + name length + 2 <= 100). With less room, the source drops
  characters and prints a warning.
- LexerProps.QuotedSpellingRejected: it carries the same room requirement as
  GetTokBacktickAlone.
- LexerProps.GetTokContextual: its case of a rejected backtick name after `binary` or
  `unary` carries the same room requirement as GetTokBacktickAlone.
- LexerProps.ContextualFacts: the same room requirement as GetTokContextual.
- CodeGenSpec.BindParams: LLVM renames a second parameter of the same name (to `x1`, say),
  and the source binds the renamed name in NamedValues. The model does not bind it, so a
  body that uses the renamed name fails in the model.
- CodeGen.CodeGen.BindParamsM: as BindParams.
- CodeGenProps.BindParamsBinds: as BindParams; the names added are the distinct
  parameter names, without the renamed ones.
- CodeGenProps.DeclaredNamesWin: the module keeps the parameter names as written, without
  LLVM's renaming of duplicates.
- **Side channels.** The REPL prompt, the debug output of the handlers, error messages,
  stderr output, the `DEBUG` flag, and the `printf` warning on a full buffer are left
  out. Only success or failure is modelled.
- **Startup and output.** Loading of `lib/core.hkl`, `lib/core.kl` and `lib/builtin.kl`,
  target setup, debug info (`lib/debugger.cpp`), and object-file output in `main` are
  left out.
- **Other source files.** `repl.cpp` at the top level is a copy of the same dispatch
  loop, so it is modelled once, through `handle_unit`. `external.cpp`, `internal.h`,
  `include/internal.h` and the older `ast.cpp` are not part of this model. The two
  one-liners `get_next_token` and `set_lex_source` are folded into the parser and lexer.
- **Byte values.** The units model reads bytes as `int` in [0, 255] without a separate
  byte type. Values outside that range go through the same signed-char conversion.

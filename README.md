# GBNF grammar compiler, modelled in Dafny

This project models the GBNF grammar compiler of `common/grammar-parser.cpp`.
The compiler turns grammar text such as `root ::= "a" [b-d]* | item{2,3}`
into a table of rules. Each rule body is a sequence of elements. An element
is a kind (`END`, `ALT`, `RULE_REF`, `CHAR`, `CHAR_NOT`, `CHAR_RNG_UPPER`,
`CHAR_ALT`) plus a value. The compiler keeps a name-to-id symbol table next
to the rule table, and it can print the table back as text.

The model has eight modules:

- `GrammarTypes` (`grammar_types.dfy`): the elements, the error kinds and the
  structural predicates every compiled body satisfies. `Fragment` means no
  `END` inside, and every `CHAR_ALT`/`CHAR_RNG_UPPER` follows a character
  element. `WellFormedBody` is a fragment closed by one `END`. `Closed` means
  every reference targets a rule with a non-empty body.
- `Scanner` (`scanner.dfy`): `decode_utf8`, `parse_hex`, `parse_space`,
  `parse_name`, `parse_int` and `parse_char` as imperative methods.
  `decode_utf8`, `parse_hex`, `parse_space` and `parse_char` are proved equal
  to specification functions, and the properties are proved about those
  functions. They cover the UTF-8 round trip against an encoder written after
  section 3 of RFC 3629, hex values and their bounds, and the round trips of
  plain characters and of the `\x`, `\u` and `\U` escapes. They also fix
  the values of the one-letter escapes. `parse_name` and `parse_int` state
  directly where they stop.
- `Symbols` (`symbols.dfy`): `parse_state` as the class `ParseState`, with
  `get_symbol_id`, `generate_symbol_id` and `add_rule` updating its map and
  rule sequence in place. `Valid()` is the table invariant that every parser
  step keeps.
- `Terms` (`terms.dfy`): the scanning loops of `parse_sequence` for quoted
  literals, character classes and `{m,n}` bounds, and the bounds that the
  `*`, `+` and `?` shorthands stand for.
- `Repetition` (`repetition.dfy`): the `handle_repetitions` rewrite and the
  exact rules it adds to the table.
- `ParserSpec` (`parser_spec.dfy`): the compiler as functions of the text.
  One function per parsing routine threads the symbol and rule tables
  through the terms, sequences, alternates and rules. Lemmas over all
  inputs show that a sequence only appends to the body it is given, that no
  sequence holds an `ALT`, and that a stored body is its alternatives, each
  compiled on its own, joined by `ALT` and closed by `END`.
- `Parser` (`parser.dfy`): `parse_sequence`, `parse_alternates`,
  `parse_rule` and `parse` as imperative methods over `ParseState`, and the
  definedness check as a method over the rule and symbol tables.
  `parse_sequence`, `parse_alternates` and `parse_rule` are proved to compute
  exactly their `ParserSpec` functions, both the result and the new tables.
  `parse` computes `GrammarSpec` up to its definedness check. The check
  passes exactly when `AllRefsChecked` holds, and otherwise reports the rule
  referenced at the first failing element, scanning rules and then their
  elements in order.
- `Printer` (`printer.dfy`): `print_grammar_char`, `print_rule` and
  `print_grammar`, with output returned as a string.

The grammar text is a NUL-terminated `seq<char>` of bytes (`IsCString`), and
pointers are indices into it. Thrown exceptions become `Err` values of a
`Result` type, with one error kind per throw site. `Parse` replaces the state
by a fresh empty one on any error. `PrintGrammar` returns the text written
before the first error, together with that error.

Some behaviours of the code are worth noting:

- The definedness check of `parse` passes a reference whose id has no
  registered name. `Parser.ValidatedIsClosed` shows that this cannot happen
  in a valid state.
- A grammar that redefines a rule can leave an empty slot in the table after
  a successful parse. `print_grammar` then fails on that slot
  (`Printer.PrintValidGrammar`).
- The two messages at lines 101 and 112 are swapped. The model uses the error
  kinds `ExpectedName` and `ExpectedInteger` as the functions mean them.
- `{m,n}` with `n < m` is rejected with `InvertedBounds` (see Findings).

## Model

| member | source | states |
|---|---|---|
| Scanner.Utf8Decode | common/grammar-parser.cpp:12-25 | the decoder advances by at least 1 and at most the length looked up from the lead byte's top nibble; it never passes a NUL, and stops early only at one; a byte below 0x80 decodes to itself and advances by 1 |
| Scanner.DecodeUtf8 | common/grammar-parser.cpp:12-25 | the lookup, mask and continuation loop compute exactly `Utf8Decode` |
| Scanner.DecodeEncode | common/grammar-parser.cpp:12-25 | decoding the RFC 3629 encoding of any code point below 0x110000, followed by anything, gives back that code point and the encoding's length |
| Scanner.Utf8Length | common/grammar-parser.cpp:13-16 | the lookup table gives lengths 1 to 4, 1 for ASCII lead bytes and 4 for lead bytes from 0xF0 |
| Scanner.ParseHex | common/grammar-parser.cpp:57-78 | succeeds exactly when the next `size` characters are hex digits of either case; the value is then their base-16 number modulo 2^32 and the position moves by exactly `size`; otherwise `MalformedEscape` |
| Scanner.HexValueFits | common/grammar-parser.cpp:57-78 | at most 8 hex digits (the longest escape) never wrap the 32-bit accumulator |
| Scanner.SkipComment | common/grammar-parser.cpp:84-87 | the comment loop stops at the first NUL or line break |
| Scanner.SkipSpace | common/grammar-parser.cpp:80-93 | the result is at or after the start, is not a blank, comment start or (when allowed) line break, crosses no NUL, and crosses no line break when line breaks are not allowed |
| Scanner.SkipSpaceOnlyBlanks | common/grammar-parser.cpp:80-93 | every character skipped is a blank, a line break where allowed, or part of a `#` comment |
| Scanner.ParseSpace | common/grammar-parser.cpp:80-93 | the skipping loop computes exactly `SkipSpace` |
| Scanner.ParseName | common/grammar-parser.cpp:95-104 | succeeds exactly when the first character is a name character, and then stops at the first non-name character; otherwise `ExpectedName` |
| Scanner.ParseInt | common/grammar-parser.cpp:106-115 | succeeds exactly when the first character is a digit, and then stops at the first non-digit; otherwise `ExpectedInteger` |
| Scanner.CharSpec | common/grammar-parser.cpp:117-138 | a character always moves the position forward; NUL is `UnexpectedEnd`; any non-escape character decodes; an escape spans at least two characters; errors are only the three scanner kinds |
| Scanner.ParseChar | common/grammar-parser.cpp:117-138 | the escape switch and the decoder compute exactly `CharSpec` |
| Scanner.EscapeRoundTrip | common/grammar-parser.cpp:117-122 | any value that fits the escape's digits, written as `\x` with 2, `\u` with 4 or `\U` with 8 upper-case hex digits, reads back as that value, and the position moves past exactly the escape |
| Scanner.PlainCharRoundTrip | common/grammar-parser.cpp:117-138 | any code point other than NUL and `\`, written in UTF-8, reads back as itself, and the position moves past exactly its encoding |
| Scanner.ShortEscape | common/grammar-parser.cpp:123-134 | `\t`, `\r` and `\n` read as tab, carriage return and line feed; `\\`, `\"`, `\[` and `\]` read as the character itself; both move two characters on; any other letter except `x`, `u` and `U` is `UnknownEscape` |
| Scanner.NatToStringInjective | common/grammar-parser.cpp:33-37 | the decimal spelling used in synthetic names is injective |
| Symbols.SyntheticNameFresh | common/grammar-parser.cpp:33-37 | in a valid table the name `<base>_<size>` is never already present, so the assignment in `generate_symbol_id` never overwrites an entry |
| Symbols.TableGrow | common/grammar-parser.cpp:27-37 | registering a fresh user or synthetic name under the next id keeps the table a valid bijection and grows it by one |
| Symbols.ParseState.GetSymbolId | common/grammar-parser.cpp:27-31 | a present name returns its id and changes nothing; a new name gets the old size as id and the table grows by exactly that entry; rules untouched; validity kept |
| Symbols.ParseState.GenerateSymbolId | common/grammar-parser.cpp:33-37 | id is the old size and `<base>_<id>` maps to it; in a valid state that name was absent, the table grows by one and stays valid, and no old id changes |
| Symbols.ParseState.AddRule | common/grammar-parser.cpp:39-47 | the length becomes max(old length, id+1), slot id holds the body, every other old slot is unchanged, every new gap slot is empty, symbols untouched |
| Repetition.OptionalCountAsWritten | common/grammar-parser.cpp:204 | the `size_t` subtraction agrees with `max - min` whenever `min <= max` |
| Repetition.InvertedBoundsOverrun | common/grammar-parser.cpp:204-205 | with `max < min` the wrapped count exceeds INT_MAX, so the `int` loop cannot end normally |
| Repetition.SubBody | common/grammar-parser.cpp:189-227 | the sub rule is well formed; it starts with `min` references to the content rule, has the tail reference only when the quantifier is unbounded or `max > min`, and refers only to the content rule or the rules generated after it |
| Repetition.StarBody | common/grammar-parser.cpp:194-200 | the star rule is well formed and refers only to the content rule and itself |
| Repetition.ChainBody | common/grammar-parser.cpp:206-220 | each optional rule is well formed and refers only to the content rule and earlier optional rules |
| Repetition.OptionalRules | common/grammar-parser.cpp:203-222 | the chain has exactly `max - min` rules, rule j being `S(j)` |
| Repetition.AddCopyRule | common/grammar-parser.cpp:181-185 | the copy rule `term END` is stored under a fresh id equal to the old table size |
| Repetition.AddStarRule | common/grammar-parser.cpp:194-200 | the star rule `[REF content, REF star, ALT, END]` is stored under a fresh id |
| Repetition.AddChainRule | common/grammar-parser.cpp:206-220 | optional rule i+1 is stored under id `sub+1+i`, referring to the previous one when i > 0 |
| Repetition.AddOptionalRules | common/grammar-parser.cpp:203-222 | the loop adds exactly the chain of `count` optional rules at ids `sub+1 ..`, and adds nothing when `count` is 0 |
| Repetition.RepeatRef | common/grammar-parser.cpp:189-192 | `min` copies of the content reference |
| Repetition.AddTailRules | common/grammar-parser.cpp:193-226 | adds the star rule or the optional chain and returns the reference the sub rule ends with (none when `max == min`) |
| Repetition.AddSubRule | common/grammar-parser.cpp:188-228 | the table becomes the old table, padded to the sub id, followed by the sub rule and the generated tail rules, and every id has a slot |
| Repetition.HandleRepetitions | common/grammar-parser.cpp:156-233 | no preceding term is `DanglingQuantifier`; `max < min` is `InvertedBounds`; errors leave the state unchanged; otherwise the last term is replaced by exactly one reference to the sub rule, the content rule is the term itself when it is a single reference and a new copy rule otherwise, and the table grows by exactly the copy, sub and tail rules in id order |
| Terms.LiteralSpec | common/grammar-parser.cpp:236-244 | a literal yields only `CHAR` elements and ends at a closing quote before the NUL; errors are the scanner kinds |
| Terms.ParseLiteral | common/grammar-parser.cpp:237-243 | the literal loop computes exactly `LiteralSpec` |
| Terms.PlainLiteral | common/grammar-parser.cpp:236-244 | a literal of plain characters compiles to one `CHAR` per character, in order |
| Terms.ClassMember | common/grammar-parser.cpp:254-265 | a class member is one element of the given kind, followed by a `CHAR_RNG_UPPER` when it is a range |
| Terms.ClassSpec | common/grammar-parser.cpp:253-266 | the members form a class body: the first one of the start kind, every later one `CHAR_ALT` with its optional range upper bound |
| Terms.ClassTerm | common/grammar-parser.cpp:245-266 | a class starting with `^` begins with `CHAR_NOT`, otherwise with `CHAR`, and ends at the closing bracket |
| Terms.PlainClass | common/grammar-parser.cpp:253-266 | a class body of plain ASCII characters compiles to exactly one element per character, or two per `a-b` range (`CHAR_RNG_UPPER` for the upper end), the first of the start kind and the rest `CHAR_ALT`, and ends at `]` |
| Terms.PlainClassTerm | common/grammar-parser.cpp:245-266 | a class of plain ASCII characters compiles to exactly those elements, led by `CHAR_NOT` after `^` and by `CHAR` otherwise: `[abc]` gives `CHAR a, CHAR_ALT b, CHAR_ALT c`, `[^a-c]` gives `CHAR_NOT a, CHAR_RNG_UPPER c`, and `[a-]` gives `CHAR a, CHAR_ALT -` |
| Terms.ParseClassMember | common/grammar-parser.cpp:254-265 | one pass of the class loop computes exactly `ClassMember` |
| Terms.ParseCharClass | common/grammar-parser.cpp:245-266 | the class loop computes exactly `ClassTerm` |
| Terms.ClassFragment | common/grammar-parser.cpp:245-267 | a compiled class is a fragment of character elements, with no references, that does not begin with a continuation |
| Terms.BracesSpec | common/grammar-parser.cpp:295-326 | a successful `{...}` ends after `}` with a maximum of -1 or more; errors are only the three brace kinds |
| Terms.BracesAfterMin | common/grammar-parser.cpp:308-326 | after the minimum, `}` gives max == min; the minimum is carried through |
| Terms.UpperBound | common/grammar-parser.cpp:312-323 | after the comma, the maximum is -1 exactly when no digit follows; a missing `}` is `ExpectedCloseBrace` |
| Terms.BracesExact | common/grammar-parser.cpp:300-310 | `{m}`, with or without blanks, reads as the bounds (m, m), m being the value of the digits, and ends after `}` and the blanks that follow it |
| Terms.SpecAfterDigits | common/grammar-parser.cpp:300-303 | the minimum read is the value of the digits after the blanks that follow `{`, and the rest of the quantifier is read after the blanks that follow those digits |
| Terms.AfterMinComma | common/grammar-parser.cpp:311-312 | a comma hands over to the optional maximum |
| Terms.UpperRun | common/grammar-parser.cpp:314-322 | after the comma, `n }` reads n as the maximum, keeps the minimum, and ends after `}` and the blanks that follow it |
| Terms.UpperNone | common/grammar-parser.cpp:314-323 | `,}` reads as unbounded (-1) |
| Terms.NumberAtRun | common/grammar-parser.cpp:300-303 | a run of digits reads as its decimal value and stops after the blanks that follow it |
| Terms.ParseNumber | common/grammar-parser.cpp:300-303 | one integer and the blanks after it, as `NumberAt` |
| Terms.ParseBraces | common/grammar-parser.cpp:295-326 | the `{` branch computes exactly `BracesSpec` |
| Terms.ParseBoundsTail | common/grammar-parser.cpp:308-326 | computes exactly `BracesAfterMin` |
| Terms.ParseUpper | common/grammar-parser.cpp:312-323 | computes exactly `UpperBound` |
| Terms.ParseMax | common/grammar-parser.cpp:314-318 | computes exactly `MaxAt` |
| Terms.MaxAt | common/grammar-parser.cpp:314-318 | the maximum is -1 exactly when no digit follows the comma |
| Terms.QuantifierBounds | common/grammar-parser.cpp:287-325 | a quantifier other than `{` always succeeds; on success the position moves forward and the maximum is -1 or more |
| Terms.ParseQuantifierBounds | common/grammar-parser.cpp:287-325 | the quantifier branches compute exactly `QuantifierBounds` |
| Terms.ShorthandBounds | common/grammar-parser.cpp:287-296 | `*` gives (0, unbounded), `+` gives (1, unbounded) and `?` gives (0, 1), each moving past the blanks after it |
| Terms.ShorthandAsBraces | common/grammar-parser.cpp:164-166 | `*`, `+` and `?` give the same bounds as `{0,}`, `{1,}` and `{0,1}` |
| ParserSpec.LiteralTermAt | common/grammar-parser.cpp:236-244 | a literal term is a reference-free fragment of character elements not starting with a continuation, and fails exactly when the literal does |
| ParserSpec.ClassTermAt | common/grammar-parser.cpp:245-267 | a class term is a reference-free fragment of character elements not starting with a continuation, and fails exactly when the class does |
| ParserSpec.NameEnd | common/grammar-parser.cpp:95-104 | a name runs from its first character up to the first character that is not a name character |
| ParserSpec.NameEndIs | common/grammar-parser.cpp:95-104 | where `parse_name` stops is `NameEnd`, and what it spans contains no `_`, so it never collides with a synthetic name |
| ParserSpec.SplitJoin | common/grammar-parser.cpp:335-351 | cutting a joined body at its `ALT` elements gives back exactly the alternatives, so a compiled body determines its sequences |
| ParserSpec.SetRule | common/grammar-parser.cpp:39-47 | the table after `add_rule`: slot id holds the body, every other old slot is unchanged, every new gap slot is empty |
| ParserSpec.GroupSpec | common/grammar-parser.cpp:274-285 | a group registers `<rule>_<id>` under the next id and defines it by the alternates inside the parentheses; on success the position moves past `)` |
| ParserSpec.GroupCloseSpec | common/grammar-parser.cpp:282-285 | after the alternates of a group, a character other than `)` is `UnbalancedGroup`; an error inside is passed on; on success the position moves past `)` and the tables are those the alternates left |
| ParserSpec.GroupTermSpec | common/grammar-parser.cpp:274-286 | on success the position moves past the group |
| ParserSpec.TermSpec | common/grammar-parser.cpp:235-330 | every successful term or quantifier moves the position forward |
| ParserSpec.SequenceFrom | common/grammar-parser.cpp:147-333 | a sequence stops at the first character that starts no term |
| ParserSpec.SequenceSpec | common/grammar-parser.cpp:147-333 | a sequence stops at the first character that starts no term |
| ParserSpec.MoreAlternatesSpec | common/grammar-parser.cpp:342-348 | the `|` loop stops at a character that is neither a term nor `|` |
| ParserSpec.AlternatesSpec | common/grammar-parser.cpp:335-352 | the alternates stop at a character that is neither a term nor `|` |
| ParserSpec.RuleHeadSpec | common/grammar-parser.cpp:354-365 | a text not starting with a name character is `ExpectedName`; the only other error is `ExpectedDefinition`; on success the name up to `NameEnd` is registered under the id returned and no old id changes |
| ParserSpec.RuleEndSpec | common/grammar-parser.cpp:367-375 | succeeds exactly at `\r`, `\n` or the end of the text, otherwise `ExpectedNewline`; it moves on past a line break and stays at the end of the text |
| ParserSpec.RuleSpec | common/grammar-parser.cpp:353-375 | a text not starting with a name character is `ExpectedName`; on success the position moves forward to a character that is not a blank, comment or line break |
| ParserSpec.TermShift | common/grammar-parser.cpp:235-330 | a term compiles the same whatever elements come before the ones it sees: only the last term is ever rewritten |
| ParserSpec.SequenceShift | common/grammar-parser.cpp:147-333 | a whole sequence compiles the same after any elements put before it, and only adds after them |
| ParserSpec.SequenceAfter | common/grammar-parser.cpp:147-333 | `parse_sequence` on a non-empty body appends exactly what it compiles on an empty one, with the same position, tables and errors |
| ParserSpec.TermAltFree | common/grammar-parser.cpp:235-330 | no term or quantifier adds an `ALT` |
| ParserSpec.SequenceAltFree | common/grammar-parser.cpp:147-333 | a sequence adds no `ALT` |
| ParserSpec.AlternativesAfter | common/grammar-parser.cpp:342-348 | the sequences after each `|`, each compiled on its own, hold no `ALT` |
| ParserSpec.Alternatives | common/grammar-parser.cpp:335-351 | the alternatives of a rule, each compiled on its own, are at least one and hold no `ALT` |
| ParserSpec.MoreAlternativesJoin | common/grammar-parser.cpp:342-348 | the `|` loop fails exactly when one of the following alternatives fails, with its error; on success its body is the alternatives already compiled and exactly those that follow in the text, joined by `ALT` |
| ParserSpec.AlternatesJoin | common/grammar-parser.cpp:335-352 | `parse_alternates` fails exactly when an alternative does, with its error; on success the rule's slot holds the alternatives, each compiled on its own and in text order, joined by `ALT` and closed by `END`, and cutting that body at `ALT` gives them back |
| ParserSpec.PlainLiteralTerm | common/grammar-parser.cpp:236-244 | a literal of plain ASCII characters is one `CHAR` per character, and ends after the blanks following the closing quote |
| ParserSpec.PlainLiteralSequence | common/grammar-parser.cpp:147-333 | a sequence that is one plain ASCII literal compiles to one `CHAR` per character and leaves the symbol and rule tables unchanged |
| Parser.ParseLiteralTerm | common/grammar-parser.cpp:236-244 | computes exactly `LiteralTermAt` |
| Parser.ParseClassTerm | common/grammar-parser.cpp:245-267 | computes exactly `ClassTermAt` |
| Parser.AppendCharTerm | common/grammar-parser.cpp:236-267 | appends exactly the literal's or class's elements as the new last term, as `CharTermSpec` |
| Parser.ParseRefTerm | common/grammar-parser.cpp:268-273 | always succeeds; interns the name and appends one reference to its id as the new last term, as `RefTermSpec`; the rule table is unchanged |
| Parser.ParseGroupRule | common/grammar-parser.cpp:274-285 | the id returned is the old table size and its synthetic name was absent; the outcome and the new tables are exactly `GroupSpec`; on success that rule's body is well formed |
| Parser.CloseGroup | common/grammar-parser.cpp:282-285 | computes exactly `GroupCloseSpec` |
| Parser.ParseGroup | common/grammar-parser.cpp:274-286 | the outcome and the new tables are exactly `GroupTermSpec`: one reference to the group's rule becomes the last term; old rules stay a prefix of the table |
| Parser.ParseQuantifier | common/grammar-parser.cpp:286-327 | with no preceding term a shorthand is `DanglingQuantifier`; the outcome and the new tables are exactly `QuantifierSpec`: brace errors, `DanglingQuantifier`, `InvertedBounds`, or the last term replaced by one reference to the sub rule with the exact rules `handle_repetitions` adds |
| Parser.ParseTerm | common/grammar-parser.cpp:235-330 | the outcome and the new tables are exactly `TermSpec`; the compiled elements stay a fragment of registered references, and old rules stay a prefix of the table |
| Parser.ParseSequence | common/grammar-parser.cpp:147-333 | the outcome and the new tables are exactly `SequenceSpec`; the elements already present are kept as a prefix, the new ones hold no `ALT` and do not start with a continuation, and it stops at a character that starts no term |
| Parser.ParseAlternative | common/grammar-parser.cpp:343-347 | `|` appends `ALT` and then exactly the next sequence, as `SequenceSpec` on the body plus `ALT`; that sequence holds no `ALT` |
| Parser.CloseRule | common/grammar-parser.cpp:348-349 | the table becomes `SetRule` of the body plus `END`, which is well formed; every other old slot is unchanged |
| Parser.ParseAlternates | common/grammar-parser.cpp:335-351 | the outcome and the new tables are exactly `AlternatesSpec`, so by `AlternatesJoin` the slot holds the alternatives joined by `ALT` and closed by `END`; every other old slot is unchanged; the body is well formed |
| Parser.ParseMoreAlternates | common/grammar-parser.cpp:342-348 | the outcome and the new tables are exactly `MoreAlternatesSpec`, so by `MoreAlternativesJoin` the alternatives that follow are joined on with `ALT`; it stops where neither a term nor `|` follows |
| Parser.ParseDefinitionMark | common/grammar-parser.cpp:360-363 | succeeds exactly on `::=`, then skips blanks and line breaks; otherwise `ExpectedDefinition` |
| Parser.ParseRuleHead | common/grammar-parser.cpp:354-363 | the outcome and the new symbol table are exactly `RuleHeadSpec`; a missing name is `ExpectedName`; the rule table is unchanged |
| Parser.ParseRuleEnd | common/grammar-parser.cpp:367-374 | computes exactly `RuleEndSpec` |
| Parser.ParseRule | common/grammar-parser.cpp:353-375 | the outcome and the new tables are exactly `RuleSpec`; a missing name is `ExpectedName`; on success the named rule's body is well formed and every other old slot is unchanged |
| Parser.FindName | common/grammar-parser.cpp:391-395 | finds a name registered under the id exactly when one exists |
| Parser.Validate | common/grammar-parser.cpp:385-398 | passes exactly when no reference targets a missing or empty rule that has a name; a failure names the rule referenced at the first failing element, scanning rules and then their elements in order, and that rule is undefined |
| Parser.FirstUncheckedUnique | common/grammar-parser.cpp:385-393 | the first failing element of the scan is unique, so the reference reported is determined by the tables |
| Parser.ValidatedIsClosed | common/grammar-parser.cpp:385-398 | in a valid state the check passes exactly when every reference targets a rule with a non-empty body |
| Parser.Parse | common/grammar-parser.cpp:377-405 | the tables built are exactly `GrammarSpec` of the text when it compiles and passes the definedness check; a compile error is reported as is; a failed check names the undefined rule referenced at the first failing element of the scan; any error gives zero rules and zero symbols; the result is always valid and closed; blank text gives an empty grammar |
| Printer.GrammarChar | common/grammar-parser.cpp:407-414 | 0x20-0x7F print as themselves; anything else prints as `<U+XXXX>`, with exactly four upper-case hex digits, or more with no leading zero when the value needs them, whose value is the code point |
| Printer.ElementText | common/grammar-parser.cpp:468-503 | an element fails to print exactly when it is `END`, an orphan continuation, or a reference without a name |
| Printer.PrintElement | common/grammar-parser.cpp:468-503 | the switch computes exactly `ElementText` |
| Printer.PrintRule | common/grammar-parser.cpp:456-516 | the element loop computes exactly `RenderRule` |
| Printer.RenderFromOk | common/grammar-parser.cpp:466-514 | the rest of a rule prints without error exactly when each of its elements is printable |
| Printer.PrintableIffFragment | common/grammar-parser.cpp:466-514 | every element before the last is printable exactly when they form a fragment whose references have names |
| Printer.RenderRuleOk | common/grammar-parser.cpp:456-516 | `print_rule` succeeds exactly on a well-formed body whose id and references have names |
| Printer.InvertSymbols | common/grammar-parser.cpp:520-523 | the map built maps every id back to a name registered under it |
| Printer.InverseUnique | common/grammar-parser.cpp:520-523 | in a valid table that inverse is unique, whatever order the entries are visited in |
| Printer.PrintRules | common/grammar-parser.cpp:524-529 | the rule loop computes exactly `RenderRules`, stopping at the first failing rule |
| Printer.RenderRulesOk | common/grammar-parser.cpp:524-529 | the rule loop finishes without error exactly when every rule prints |
| Printer.PrintGrammar | common/grammar-parser.cpp:518-533 | on a valid state the output is the rendering of the rule table under the inverted symbol table |
| Printer.PrintValidGrammar | common/grammar-parser.cpp:518-533 | a table in a valid state prints without error exactly when it has no empty slot |

## Left out

- Output: `FILE*` and `fprintf` are replaced by returned strings. The diagnostic written to the error stream by `parse` and `print_grammar` becomes a returned error value. The message texts are not modelled, only their kinds.
- `print_rule_binary` is a debug dump that `print_grammar` keeps commented out. It is not part of this model.
- `parse_state::c_rules` exports raw pointers into the rule vectors. It is not part of this model.
- `std::stoul` can throw on a bound too large for `unsigned long`. Bounds here are unbounded naturals, so that error and the truncation of `max_times` to `int` are not modelled.
- Ids are unbounded naturals. The 32-bit `uint32_t` casts of the table size would only matter past 2^32 symbols.
- The character encoding: input bytes are `char` values below 256, and the decoder's code points are unbounded naturals. They fit in 32 bits because at most four bytes are folded.
- The iteration order of `std::map` in the definedness check and in `print_grammar` is modelled as a nondeterministic choice (`std::map` iterates in key order). When several names share an id (impossible in a valid state), which name is reported is left open.

## Findings

| source | as written | input that shows it | evidently intended | confidence | as-written member | corrected member |
|---|---|---|---|---|---|---|
| common/grammar-parser.cpp:204-205 | `n_opt = max_times - min_times` is computed in `size_t`, so a maximum below the minimum wraps to nearly 2^64, and the `int` loop at line 205 cannot end before its counter overflows | `root ::= "a"{3,1}` | reject `{m,n}` with `n < m` as malformed | not executed | Repetition.InvertedBoundsOverrun | Repetition.HandleRepetitions |

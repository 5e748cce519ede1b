# Models of the packet simulator and of the RapidJSON code it builds into its client

Dafny models of the repository's algorithmic code, in six groups, and proofs of what they promise.

* **Regular expressions.** The compiler that turns a pattern into states linked through their `out` fields, the operand
  stack it works on, and the two-list simulation. A pattern tree has a denotation of its own; compiling its text and
  running the result decides it.
* **JSON.** A recursive-descent parser, a table-driven pushdown parser, a pull parser, the document builder, the two
  writers and the integer printers. The three parsers are proved to agree and to accept exactly what the grammar of RFC 8259
  derives, and printing, parsing and building to be inverse.
* **Equality, hashing, JSON Pointer, allocation.** Structural equality, its order-insensitive hash and what that tells apart,
  pointers in both forms, what they lead to and what they create, and the pool allocator.
* **Exact arithmetic.** Numbers of many limbs changed in place, the comparison with half a unit in the last place, and the
  digit loop of the shortest-decimal printer.
* **The packet path.** Checksums, addresses, the loss function and the scheduler with its two threads.

Code that changes things step by step is modelled by classes and methods with loops, each proved against a function; the
lemmas about those functions are the theorems. `dafny verify dfyconfig.toml` checks everything.

| files | what they model |
|---|---|
| `RegexProgram` to `RegexTheorem` | `internal/regex.h` |
| `JsonScan`, `JsonGrammar`, `JsonMachine`, `JsonPull`, `JsonReader` | `reader.h` |
| `JsonEscapes`, `JsonLexemes`, `JsonSyntax`, `JsonErrors` | what JSON texts are and mean, and which errors others have |
| `JsonDom`, `JsonDocument`, `JsonEquality` | `document.h` |
| `Itoa`, `JsonWriter`, `JsonPrinter`, `JsonRoundTrip`, `JsonLayout` | `internal/itoa.h`, `writer.h`, `prettywriter.h` |
| `JsonHasher`, `HashApart`, `Utf8`, `JsonPointer`, `PointerSyntax`, `PointerTree`, `MemoryPool` | `schema.h`, `encodings.h`, `pointer.h`, `allocators.h` |
| `Limbs`, `Borrows`, `BigInteger`, `HalfUlp`, `DigitGen` | `internal/biginteger.h`, `internal/strtod.h`, `internal/dtoa.h` |
| `Checksum`, `InternetChecksum`, `Devices`, `PacketLoss`, `Tunnel`, `TunnelLog`, `TunnelInterface` | `checksum.cpp`, `Configuration.java`, `PacketLoss.java`, `TunnelInterface.java` |

## Model

| member | source | states |
|---|---|---|
| RegexTheorem.Match | client/src/include/rapidjson/internal/regex.h:194-716 | any text at all is compiled or refused, and a text compiled matches exactly the strings of the language it was compiled to; for a written pattern that is its denotation |
| RegexTheorem.SearchFor | client/src/include/rapidjson/internal/regex.h:194-716 | the same for searching: reports exactly what `Reports` says of the language and of the anchors, which count wherever they stand |
| RegexTheorem.WrittenRuns | client/src/include/rapidjson/internal/regex.h:194-317 | every written pattern compiles, to its own words and anchors, and the simulation can run it exactly if no unbounded quantifier applies to a piece that can match nothing |
| RegexTheorem.RunForward | client/src/include/rapidjson/internal/regex.h:194-317 | whatever text is compiled, the links between its ranges lead forward, and every refusal has a verdict |
| RegexTheorem.MachineAccepts | client/src/include/rapidjson/internal/regex.h:319-468 | some path of the automaton laid out for a pattern accepts a string if and only if the pattern denotes it: precedence, groups, classes, `.` and all quantifiers, nested in any way |
| RegexTheorem.RootMeans | client/src/include/rapidjson/internal/regex.h:319-468 | where no unbounded repetition is of what can match nothing, the acceptance that the simulation computes is the language of the expression |
| RegexTheorem.PatternAcyclicIff | client/src/include/rapidjson/internal/regex.h:319-468 | the compiled graph has no epsilon cycle if and only if no unbounded quantifier applies to a piece that can match nothing |
| RegexTheorem.NestedStarCycles | client/src/include/rapidjson/internal/regex.h:357-412 | `(a*)*` compiles to a graph with an epsilon cycle, so following its splits does not end |
| RegexTheorem.MachineFit | client/src/include/rapidjson/internal/regex.h:194-317 | every such automaton meets what the simulation demands of one: ranks that fall along splits, a root, labels only where a character is consumed |
| RegexTheorem.FoundReports | client/src/include/rapidjson/internal/regex.h:654-690 | the simulation finds a match if and only if the text is empty and in the language, or some non-empty part of it is, within the anchors |
| RegexTheorem.SearchRight | client/src/include/rapidjson/internal/regex.h:654-690 | a search is right for every text if the text is empty, both anchors are set, or the pattern cannot match nothing |
| RegexTheorem.SearchOnNullable | client/src/include/rapidjson/internal/regex.h:676-681 | in all other cases there is an empty match, and the search is right exactly if there is a non-empty one too |
| RegexTheorem.SearchMissesEmptyMatch | client/src/include/rapidjson/internal/regex.h:676-681 | searching "b" for `a?` reports nothing although the empty string matches |
| RegexTheorem.AnchorsPlaced | client/src/include/rapidjson/internal/regex.h:204-210 | if all alternatives have an anchor at their end, or none contains it, then a match with every anchor read at its own place exists if and only if one exists with the anchors of the whole pattern |
| RegexTheorem.AnchorsPlacedIff | client/src/include/rapidjson/internal/regex.h:204-210 | if only some alternatives have an anchor at their end, matches can only be lost, and none is, on a given text, if and only if wherever an alternative matches with its own anchors there is a match with the anchors of all |
| RegexTheorem.PlacedSearchRight | client/src/include/rapidjson/internal/regex.h:654-690 | with uniform anchors, a search is right with every anchor read at its own place, if the text is empty, both anchors are set, or the pattern cannot match nothing |
| RegexTheorem.AnchorConcernsAll | client/src/include/rapidjson/internal/regex.h:204-210 | searching "cb" for `^a|b` reports nothing although b is a match of the second alternative |
| RegexAnchors.PatternAtIs | client/src/include/rapidjson/internal/regex.h:204-210 | reading uniform anchors at their own places, at any part of a text, is matching the words there and reading them for the whole pattern |
| RegexLanguage.AcyclicIffSafe | client/src/include/rapidjson/internal/regex.h:357-412 | the same equivalence of acyclic graphs and harmless repetitions for every expression tree |
| RegexLanguage.ProgramAccepts | client/src/include/rapidjson/internal/regex.h:357-412 | some path from the start of the states laid out for an expression to the matching state accepts a string exactly if the string is in its language, with epsilon cycles or without |
| RegexLanguage.FragmentAccepts | client/src/include/rapidjson/internal/regex.h:357-412 | some path through a wired fragment accepts a string exactly if it splits into a string of the expression and one that the continuation accepts, however loops nest |
| RegexLanguage.RankedFollows | client/src/include/rapidjson/internal/regex.h:692-705 | in a graph without epsilon cycles, acceptance along paths and acceptance by following the splits downwards are the same |
| RegexProgram.OpenThenWired | client/src/include/rapidjson/internal/regex.h:342-355 | patching the dangling list of an open fragment turns it, state by state, into the wired one |
| RegexProgram.OpenThenRelinked | client/src/include/rapidjson/internal/regex.h:342-348 | appending a list at the end of a dangling list changes the last link and nothing else |
| RegexProgram.DanglingIncreasing | client/src/include/rapidjson/internal/regex.h:342-355 | the states of a dangling list have increasing indices, so that the list has no cycle |
| RegexProgram.OpenMoves | client/src/include/rapidjson/internal/regex.h:455-468 | shifting the indices of an open fragment gives the same fragment laid out at another place |
| RegexStack.OperandStack.Append | client/src/include/rapidjson/internal/regex.h:342-348 | after following the list to its end, exactly the last link is set to the other list |
| RegexStack.OperandStack.Patch | client/src/include/rapidjson/internal/regex.h:350-355 | every state on the dangling list is wired to the target, and no state below or above the fragment changes |
| RegexStack.OperandStack.Eval | client/src/include/rapidjson/internal/regex.h:357-412 | each operator replaces the top operands by the expression it stands for, and every operand still owns its own run of states; too few operands are an error |
| RegexStack.OperandStack.CloneTopOperand | client/src/include/rapidjson/internal/regex.h:455-468 | the top operand is there twice, on disjoint runs of states |
| RegexStack.OperandStack.EvalQuantifier | client/src/include/rapidjson/internal/regex.h:414-451 | `{n}`, `{n,}` and `{n,m}` replace the top operand by its repetition; both bounds zero is a syntax error |
| RegexSyntax.RepeatCounted | client/src/include/rapidjson/internal/regex.h:414-451 | the expression that quantifiers build denotes the union of exactly the powers between the bounds |
| RegexMeaning.PatternMeans | client/src/include/rapidjson/internal/regex.h:194-317 | the expression built for a pattern denotes exactly what the pattern denotes, with its classes looked up in the range table |
| RegexMeaning.ClassMeans | client/src/include/rapidjson/internal/regex.h:485-561 | walking the linked ranges of a class decides membership, negated or not |
| RegexTheorem.EscapedMatches | client/src/include/rapidjson/internal/regex.h:562-590 | an escaped f, n, r, t or v matches the control character it names, escaped punctuation itself, and no other escape compiles |
| RegexTheorem.EscapedInClass | client/src/include/rapidjson/internal/regex.h:515-522 | so does an escaped character in a class, where an escaped b is a backspace |
| RegexRoundTrip.PatternCompiles | client/src/include/rapidjson/internal/regex.h:194-317 | parsing the text of any pattern tree ends with the expression and ranges of that tree, and with the anchors that stand anywhere in it |
| RegexRoundTrip.QuantifierAfterBar | client/src/include/rapidjson/internal/regex.h:213-218 | wherever a branch may begin, a quantifier behind its bar compiles like the same quantifier on the whole branch |
| RegexRoundTrip.QuantifierAfterParenthesis | client/src/include/rapidjson/internal/regex.h:221-224 | a quantifier behind an opening parenthesis compiles like one in front of it, on whatever operand is there |
| RegexRoundTrip.MisplacedAfterBar | client/src/include/rapidjson/internal/regex.h:213-218 | `a|b|*c` compiles as `a|(b)*|c` |
| RegexRoundTrip.MisplacedAfterParenthesis | client/src/include/rapidjson/internal/regex.h:221-224 | `b(*a)` compiles as `b*(a)` |
| RegexRoundTrip.NumeralScanned | client/src/include/rapidjson/internal/regex.h:471-482 | the digits of a quantifier are read modulo 2^32, or refused if the overflow test fires at one of them |
| RegexRoundTrip.UnsignedExactIff | client/src/include/rapidjson/internal/regex.h:471-482 | a quantifier numeral is read as its value if and only if the value is below 2^32 |
| RegexRoundTrip.OverflowWraps | client/src/include/rapidjson/internal/regex.h:471-482 | a digit of at most 5 after a number above 429496729 is accepted and the result wraps around |
| RegexRoundTrip.OverflowExample | client/src/include/rapidjson/internal/regex.h:471-482 | a concrete numeral whose value is read wrongly |
| RegexParser.StepAdvances | client/src/include/rapidjson/internal/regex.h:208-290 | every step of the parser consumes text and keeps one atom counter per open parenthesis, or stops with an error |
| RegexCompiler.Regex.ParseRange | client/src/include/rapidjson/internal/regex.h:485-553 | a bracket expression appends exactly the ranges of its items, the first flagged if negated, or is an error |
| RegexCompiler.Regex.ParseUnsigned | client/src/include/rapidjson/internal/regex.h:471-482 | a numeral is read as the scanner says, with its overflow test |
| RegexCompiler.Regex.Compile | client/src/include/rapidjson/internal/regex.h:194-317 | the object ends as the run of the transition system says: with the automaton of the expression, its ranges and anchors, or with its error |
| RegexSearch.Search.AddState | client/src/include/rapidjson/internal/regex.h:692-705 | adds exactly the closure of a state without duplicates, within the slots reserved, and reports whether the matching state is in it |
| RegexSearch.ClosureAccepts | client/src/include/rapidjson/internal/regex.h:692-705 | a state accepts a string exactly if some state of its closure does |
| RegexSearch.Search.MatchRange | client/src/include/rapidjson/internal/regex.h:707-716 | walks the range list and decides membership of a character |
| RegexSearch.Search.Consume | client/src/include/rapidjson/internal/regex.h:664-686 | one character takes the list of states to the closures of the states it leads to, and restarts where searching may |
| RegexSearch.Search.SearchWithAnchoring | client/src/include/rapidjson/internal/regex.h:654-690 | reports exactly whether a match in the sense of `Found` ends in the text |
| JsonMachine.ParsersAgree | client/src/include/rapidjson/reader.h:1828-2208 | the table-driven parser has the same events, remaining text and error as recursive descent on every text, unless the first token is stray, and then both reject it, each with its own code |
| JsonMachine.ValueAgrees | client/src/include/rapidjson/reader.h:1828-2145 | from any state that awaits a value, the table-driven run consumes exactly the value that recursive descent parses, with the same events or the same error |
| JsonMachine.StrayRejected | client/src/include/rapidjson/reader.h:2147-2165 | the one difference: on a stray first token the table reports an empty document, recursive descent an invalid value |
| JsonPull.PullAgrees | client/src/include/rapidjson/reader.h:618-670 | calling for one token at a time continues exactly as the main loop would, except on a text of white space only |
| JsonPull.AllParsersAgree | client/src/include/rapidjson/reader.h:618-670 | the three ways of parsing give the same outcome on every text whose first token can begin a value; on blank text the pull parser reports an invalid value |
| JsonPull.SameLanguage | client/src/include/rapidjson/reader.h:557-670 | all three accept the same texts and then report the same events |
| JsonPull.NextStacked | client/src/include/rapidjson/reader.h:1995-2145 | every transition keeps the stack discipline, and never pops an empty stack |
| JsonSyntax.AcceptedIff | client/src/include/rapidjson/reader.h:557-670 | all three parsers accept a text, with these events, if and only if the grammar of RFC 8259 derives it from a tree with these events: any white space, any way of writing strings and numbers, trailing commas if they are allowed, and what follows the root |
| JsonLexemes.NumberIff | client/src/include/rapidjson/reader.h:1454-1733 | a number is read as an event if and only if a numeral of RFC 8259 writes it that means the event, and what follows does not continue it |
| JsonLexemes.StringIff | client/src/include/rapidjson/reader.h:989-1054 | a string is read if and only if it consists of raw characters, short escapes, escapes of four hexadecimal digits and surrogate pairs, and then as what they mean |
| JsonLexemes.PieceIsUtf8 | client/src/include/rapidjson/reader.h:1015-1030 | what is appended for an escaped code point or surrogate pair is the one well-formed UTF-8 sequence of that code point |
| JsonEscapes.Hex4Iff | client/src/include/rapidjson/reader.h:904-926 | four characters are read as a number if and only if they write it in hexadecimal, in either case of letters |
| JsonEscapes.EscapeRefused | client/src/include/rapidjson/reader.h:1010-1034 | any other letter behind a backslash, and anything but four digits behind `\u`, is its own error at the backslash |
| JsonEscapes.LoneSurrogate | client/src/include/rapidjson/reader.h:1020-1030 | the lower half of a surrogate pair on its own is accepted, and what is appended is not well-formed UTF-8 |
| JsonErrors.MissName | client/src/include/rapidjson/reader.h:738-757 | behind an opening brace: neither a name nor the closing brace |
| JsonErrors.MissColon | client/src/include/rapidjson/reader.h:758-766 | behind a name, however it is written: no colon |
| JsonErrors.MissBrace | client/src/include/rapidjson/reader.h:776-791 | behind any member: neither a comma nor the closing brace |
| JsonErrors.MissBracket | client/src/include/rapidjson/reader.h:824-841 | behind any element: neither a comma nor the closing bracket |
| JsonErrors.RootNotSingular | client/src/include/rapidjson/reader.h:575-583 | behind any root: more than white space |
| JsonErrors.Empty | client/src/include/rapidjson/reader.h:566-572 | nothing but white space |
| JsonErrors.InvalidValue | client/src/include/rapidjson/reader.h:1736-1747 | a character that begins no value |
| JsonErrors.InvalidLiteral | client/src/include/rapidjson/reader.h:854-891 | a literal that breaks off is invalid from the first character that differs |
| JsonErrors.MissFraction | client/src/include/rapidjson/reader.h:1569-1576 | behind the decimal point: no digit |
| JsonErrors.MissExponent | client/src/include/rapidjson/reader.h:1620-1661 | behind the exponent and its sign: no digit |
| JsonErrors.StringBreaks | client/src/include/rapidjson/reader.h:1000-1046 | behind any characters of a string: the end, a control character or an invalid escape, each with its own error and place |
| JsonErrors.LowerHalfBreaks | client/src/include/rapidjson/reader.h:1018-1029 | an upper half of a surrogate pair, followed by four digits that are no lower half |
| JsonErrors.SurrogateBreaks | client/src/include/rapidjson/reader.h:1018-1024 | an upper half of a surrogate pair without another escape behind it |
| JsonErrors.TooBigNumber | client/src/include/rapidjson/reader.h:1705-1708 | a numeral that is not an integer in range and that floating point cannot hold: at its first character |
| JsonReader.Reader.ParseHex4 | client/src/include/rapidjson/reader.h:904-926 | reads exactly four hexadecimal digits or reports the escape |
| JsonReader.Reader.ParseStringToStream | client/src/include/rapidjson/reader.h:989-1054 | the characters up to the closing quote, unescaped; every other ending is the error the grammar gives |
| JsonReader.GuardExact | client/src/include/rapidjson/reader.h:1482-1559 | the two comparisons before each multiplication are exactly the test that the next number would leave the word |
| JsonReader.Reader.ParseInt32 | client/src/include/rapidjson/reader.h:1479-1506 | reads digits without wrap-around as long as the number fits, and goes on in 64 bits exactly if another digit would not fit |
| JsonReader.Reader.ParseInt64 | client/src/include/rapidjson/reader.h:1534-1559 | the same for 64 bits: becomes floating point exactly beyond 2^64-1 or below -2^63 |
| JsonReader.Reader.ParseIntegerPart | client/src/include/rapidjson/reader.h:1475-1566 | the words and flags hold exactly the value of the digits, in the narrowest kind it fits |
| JsonReader.Reader.ParseNumber | client/src/include/rapidjson/reader.h:1454-1733 | reports the event of the numeral as the grammar gives it, or its error |
| JsonReader.Reader.ParseValue | client/src/include/rapidjson/reader.h:1736-1747 | recursive descent reports the events, remaining text or error of the grammar |
| JsonReader.Reader.ParseObject | client/src/include/rapidjson/reader.h:738-804 | an object: every member in order, with its count; every error at its place |
| JsonReader.Reader.ParseArray | client/src/include/rapidjson/reader.h:806-851 | an array: every element in order, with its count; every error at its place |
| JsonReader.Reader.Parse | client/src/include/rapidjson/reader.h:557-596 | a whole text: accepted or rejected as the grammar says |
| JsonReader.Reader.Transit | client/src/include/rapidjson/reader.h:1995-2145 | carries out exactly the predicted transition on the stream, the stack and the events |
| JsonReader.Reader.IterativeParse | client/src/include/rapidjson/reader.h:2176-2208 | the loop over the table ends as its specification says, with an empty stack |
| JsonReader.Reader.IterativeParseNext | client/src/include/rapidjson/reader.h:618-670 | each call reports one event and leaves the rest of the parse to the next calls, or ends with its outcome |
| JsonReader.Reader.ParseByToken | client/src/include/rapidjson/reader.h:618-670 | calling until completion has the outcome of the specification of pulling |
| JsonDom.OneNumber | client/src/include/rapidjson/document.h:712-745 | whichever constructor makes it, the same number is the same value, flags included |
| JsonDom.NumbersDiffer | client/src/include/rapidjson/document.h:712-745 | different numbers are different values; they share their bits exactly if they are a word apart |
| JsonDom.NumberEventIs | client/src/include/rapidjson/document.h:1868-1905 | a number emits the event of the narrowest type that holds it |
| JsonDom.EventsBuildValue | client/src/include/rapidjson/document.h:1868-1905 | the events of any value, as it emits them or as a reader reports them, build exactly that value, as the only one on the stack |
| JsonDom.MakesObject | client/src/include/rapidjson/document.h:2465-2469 | the end of an object takes exactly its names and values and the object begun before them |
| JsonDocument.ParseBuildsOneRoot | client/src/include/rapidjson/document.h:2259-2275 | whatever the text, the builder never takes more than there is; every accepted text leaves exactly one proper value |
| JsonDocument.Document.ParseStream | client/src/include/rapidjson/document.h:2259-2275 | on success the root is that value, otherwise it is unchanged; the stack is empty in any case |
| JsonDocument.Document.EndObject | client/src/include/rapidjson/document.h:2465-2469 | names and values are taken from the stack and become the members, in order |
| JsonDocument.Document.Populate | client/src/include/rapidjson/document.h:2239-2247 | a document populated by the events of a value is that value |
| JsonEquality.SymmetricIffDistinct | client/src/include/rapidjson/document.h:935-974 | every value that a value equals equals it in turn, if and only if it has no duplicate names or equals nothing at all |
| JsonEquality.EqualsSomeIff | client/src/include/rapidjson/document.h:931-974 | an object equals some value if and only if for every name there is one value that all its values under that name equal |
| JsonEquality.EqualIsReflexive | client/src/include/rapidjson/document.h:935-974 | a value without duplicate names equals itself |
| JsonEquality.EqualIsSymmetric | client/src/include/rapidjson/document.h:935-974 | a value without duplicate names equals only values that equal it |
| JsonEquality.DuplicatesEqualOneWay | client/src/include/rapidjson/document.h:935-974 | a value with duplicate names anywhere that equals something equals some value that does not equal it |
| JsonEquality.DuplicatesEqual | client/src/include/rapidjson/document.h:931-974 | two objects of two members show it, against the note on duplicate names |
| JsonEquality.EqualNumbers | client/src/include/rapidjson/document.h:963-970 | integers are equal exactly if they are the same or a word apart |
| JsonHasher.EqualThenSameCode | client/src/include/rapidjson/schema.h:220-307 | equal values, without duplicate names and with signed 64-bit integers, have the same code, in whatever order members come at any depth |
| JsonHasher.ValuePushes | client/src/include/rapidjson/schema.h:226-269 | the events of a value push exactly one code, that of the value |
| JsonHasher.SameCode | client/src/include/rapidjson/schema.h:226-269 | equal values end with one and the same code on the stack |
| JsonHasher.HashTwice | client/src/include/rapidjson/schema.h:220-307 | two hashers, with the mixing of the code, return the same code for equal values |
| JsonHasher.WordApart | client/src/include/rapidjson/schema.h:228-240 | -1 and 2^64-1 are equal but have different codes |
| JsonHasher.DuplicateCodes | client/src/include/rapidjson/schema.h:252-260 | two objects, the first with a duplicate name, of which the first equals the second, have different codes |
| JsonHasher.FnvExact | client/src/include/rapidjson/schema.h:302-307 | nothing is lost in mixing: with either argument fixed, the code is the same if and only if the other argument is |
| HashApart.ScalarCodeIs | client/src/include/rapidjson/schema.h:226-299 | null, false, true, strings and numbers start from different types, and every byte of a string or number is mixed in, one by one |
| HashApart.ContainerCodeIs | client/src/include/rapidjson/schema.h:252-269 | an array mixes the codes of all elements in order, an object combines what all members contribute |
| HashApart.KnownCodes | client/src/include/rapidjson/schema.h:252-307 | the codes of null, of "a", and of the empty array and object, worked out |
| HashApart.StringsTold | client/src/include/rapidjson/schema.h:245-247 | two strings that may differ at one place have the same code if and only if the byte there is the same |
| HashApart.NumbersTold | client/src/include/rapidjson/schema.h:228-231 | two integers that are the same floating-point number, and whose words may differ in one byte, likewise |
| HashApart.ElementsTold | client/src/include/rapidjson/schema.h:262-269 | two arrays that may differ in one element have the same code if and only if these two elements have |
| HashApart.ContributionsTold | client/src/include/rapidjson/schema.h:252-260 | two objects that may differ in one member have the same code if and only if these two members contribute the same |
| HashApart.OneApartTold | client/src/include/rapidjson/schema.h:220-307 | values that differ in a single byte of a string, name or number, or in a single literal, at any depth, have different codes |
| HashApart.OrderTold | client/src/include/rapidjson/schema.h:262-269 | a part of an array arranged differently keeps the code if and only if mixing the two arrangements, from where they begin, gives the same code |
| HashApart.NeighboursTold | client/src/include/rapidjson/schema.h:262-269 | two neighbours exchanged keep the code if and only if the exclusive or of their codes is that of the two mixed |
| HashApart.OrderExample | client/src/include/rapidjson/schema.h:262-269 | `[null,true]` and `[true,null]` have different codes |
| JsonHasher.Hasher.EndObject | client/src/include/rapidjson/schema.h:252-260 | takes the codes of all members and combines them by exclusive or |
| JsonHasher.Hasher.GetHashCode | client/src/include/rapidjson/schema.h:220-307 | hashing a value leaves its code and nothing else |
| Itoa.DecSixteen | client/src/include/rapidjson/internal/itoa.h:126-292 | a number above 10^16 is written as its head and four groups of four digits |
| Itoa.Buffer.U32toa | client/src/include/rapidjson/internal/itoa.h:39-113 | the canonical numeral is appended |
| Itoa.Buffer.I32toa | client/src/include/rapidjson/internal/itoa.h:115-124 | the canonical numeral with its sign, the smallest number included |
| Itoa.Buffer.U64toa | client/src/include/rapidjson/internal/itoa.h:126-292 | the canonical numeral is appended |
| Itoa.Buffer.I64toa | client/src/include/rapidjson/internal/itoa.h:294-303 | the canonical numeral with its sign, the smallest number included |
| Itoa.RoomSuffices | client/src/include/rapidjson/writer.h:312-347 | no integer needs more characters than the writer reserves for its type |
| Itoa.RoomNeeded | client/src/include/rapidjson/writer.h:312-347 | the longest numerals of 32 bits, and the longest unsigned one of 64, need all of them |
| Text.DecIs | client/src/include/rapidjson/internal/itoa.h:39-303 | canonical numerals have the value they write and no superfluous leading zero |
| JsonWriter.EventsWriteText | client/src/include/rapidjson/writer.h:181-251 | the writer fed with the events of a value writes exactly the text of that value, compact or pretty |
| JsonLayout.Reformatted | client/src/include/rapidjson/prettywriter.h:95-255 | in whatever format a value was printed, a formatter that reads it character by character, and knows only the open brackets, makes of it the text printed in the other format: every line break and its indentation, compact or pretty |
| JsonEscapes.LetterEscape | client/src/include/rapidjson/writer.h:376-446 | quotes, backslashes and five control characters are escaped by their letters |
| JsonEscapes.OtherEscape | client/src/include/rapidjson/writer.h:376-446 | the other control characters are escaped in four digits, and nothing else is escaped |
| JsonPrinter.Writer.WriteString | client/src/include/rapidjson/writer.h:376-446 | a string is written quoted, every character as the escape table has it |
| JsonPrinter.Writer.WritePrefix | client/src/include/rapidjson/writer.h:472-490 | the separator that the position of the value asks for, and the count |
| JsonPrinter.Writer.WriteClosing | client/src/include/rapidjson/prettywriter.h:137-180 | the line break and indentation before a closing bracket |
| JsonPrinter.Writer.Accept | client/src/include/rapidjson/document.h:1868-1905 | writes the text of the value at its depth and counts it |
| JsonPrinter.Print | client/src/include/rapidjson/writer.h:181-251 | the printed text is parsed to the events of the value under every configuration of the reader |
| JsonPrinter.RoundTrip | client/src/include/rapidjson/document.h:1868-1905 | printing a value and parsing the text into a document gives the value back |
| JsonRoundTrip.QuoteReads | client/src/include/rapidjson/reader.h:989-1054 | every string survives quoting and reading, whatever its characters |
| JsonRoundTrip.NumberReads | client/src/include/rapidjson/reader.h:1454-1733 | every integer printed is read back as the same number |
| JsonRoundTrip.PrintedTextParses | client/src/include/rapidjson/writer.h:376-490 | for every value without floating point, every indentation and either array format: printing, parsing and building are inverse |
| JsonRoundTrip.PrintingIsInjective | client/src/include/rapidjson/writer.h:376-490 | two values printed alike, in whatever formats, are the same value |
| BigInteger.MulAdd64 | client/src/include/rapidjson/internal/biginteger.h:248-277 | the portable word-by-word product is exact |
| BigInteger.BigInteger.Add | client/src/include/rapidjson/internal/biginteger.h:70-85 | adds exactly and keeps the form without leading zeros |
| BigInteger.BigInteger.Mul | client/src/include/rapidjson/internal/biginteger.h:87-126 | both multiplications are exact and keep the form |
| BigInteger.BigInteger.ShiftLeft | client/src/include/rapidjson/internal/biginteger.h:128-152 | multiplies by the power of two, in place, and assigns exactly the limbs that `Touches` says |
| BigInteger.ShiftInsideIff | client/src/include/rapidjson/internal/biginteger.h:128-147 | where the assertion of the code holds, every limb assigned exists if and only if the shift is by whole limbs or one more limb is free |
| BigInteger.BigInteger.MultiplyPow5 | client/src/include/rapidjson/internal/biginteger.h:162-182 | multiplies by the power of five whenever the result fits |
| BigInteger.BigInteger.AppendDecimal64 | client/src/include/rapidjson/internal/biginteger.h:224-232 | appends up to nineteen decimal digits exactly |
| BigInteger.BigInteger.FromDecimals | client/src/include/rapidjson/internal/biginteger.h:40-54 | the number is the value of the digits, for every string of up to sixteen digits per limb, hence for 768 digits |
| BigInteger.BigInteger.Compare | client/src/include/rapidjson/internal/biginteger.h:208-219 | compares the numbers |
| BigInteger.BigInteger.Difference | client/src/include/rapidjson/internal/biginteger.h:186-206 | the distance of the two numbers, plus exactly what lost borrows add |
| BigInteger.SurplusIff | client/src/include/rapidjson/internal/biginteger.h:186-206 | nothing is added if and only if at no limb of all ones of the smaller number a borrow comes in |
| Borrows.SubBorrowIs | client/src/include/rapidjson/internal/biginteger.h:193-204 | the limbs are the difference and what the lost borrows add: each the weight of the next limb |
| Borrows.NoneLostIff | client/src/include/rapidjson/internal/biginteger.h:199 | no borrow is lost exactly if below every limb of all ones there is no less to subtract from |
| Borrows.BorrowLost | client/src/include/rapidjson/internal/biginteger.h:199 | the smallest example: 2^128 minus 2^128 - 2^64 + 1 comes out as 2^128 + 2^64 - 1 |
| HalfUlp.CheckWithinHalfULP | client/src/include/rapidjson/internal/strtod.h:56-111 | the sign of the distance, with what lost borrows add, less half a unit, in the common scale |
| HalfUlp.AnswerExactIff | client/src/include/rapidjson/internal/strtod.h:56-111 | that is the exact sign over the reals if and only if nothing is added, or the distance exceeds half a unit anyway, or stays below it anyway; it never makes a decimal closer than it is |
| HalfUlp.HalfUlpWrong | client/src/include/rapidjson/internal/strtod.h:56-111 | for 2^128 - 2^64 + 1 and 2^52 * 2^76 the answer is 1, the exact sign -1 |
| HalfUlp.ComparisonIs | client/src/include/rapidjson/internal/strtod.h:62-96 | comparing the scaled integers is comparing the numbers, for every combination of exponents |
| HalfUlp.ConvertibleFits | client/src/include/rapidjson/internal/strtod.h:264-278 | all three scaled numbers fit for every decimal of up to 768 digits and every double that the conversion passes on |
| HalfUlp.StrtodBigInteger | client/src/include/rapidjson/internal/strtod.h:208-227 | the next double is taken exactly as the comparison says, and as the exact comparison says if no borrow is lost |
| HalfUlp.NearestEven | client/src/include/rapidjson/internal/strtod.h:208-227 | from a double at most one unit below the decimal, the exact comparison leads to the nearest double of this exponent, and half way to the even one |
| DigitGen.GrisuRound | client/src/include/rapidjson/internal/dtoa.h:35-42 | the last digit stays a digit, the number stays within delta, and no further decrement would be allowed and closer |
| DigitGen.CountDecimalDigit32 | client/src/include/rapidjson/internal/dtoa.h:44-58 | the number of decimal digits |
| DigitGen.DigitGen | client/src/include/rapidjson/internal/dtoa.h:60-110 | within 64 bits, 1 to 21 digits: no shorter decimal lies in the interval, and no other of this length lies in it and closer to the number wanted; nine or more places down, where the code passes no distance, to the upper boundary |
| DigitGen.CutOff | client/src/include/rapidjson/internal/dtoa.h:93-109 | nine or more places down, the decimal is the upper boundary, truncated |
| DigitGen.CutOffNotNearest | client/src/include/rapidjson/internal/dtoa.h:106 | an interval where the decimal one unit lower is inside as well, and closer to the number wanted |
| Utf8.SequenceIffEncoded | client/src/include/rapidjson/encodings.h:102-220 | the table of code unit classes accepts exactly the encodings of scalar values |
| JsonPointer.PointerRoundTrip | client/src/include/rapidjson/pointer.h:862-1032 | parsing a printed pointer gives its names back, in plain and in URI fragment form |
| PointerSyntax.PointerIff | client/src/include/rapidjson/pointer.h:862-992 | a pointer is parsed to these names if and only if the grammar of RFC 6901 derives it from tokens that mean them: `~0` the tilde, `~1` the slash, and in a fragment percent-encoded UTF-8 in either case of digits |
| PointerSyntax.PrintedIsCanonical | client/src/include/rapidjson/pointer.h:1001-1032 | what is printed for names, in either form, is their canonical writing: nothing is percent-encoded that need not be, and with upper-case digits |
| PointerSyntax.NameBreaks | client/src/include/rapidjson/pointer.h:902-947 | after anything that can be read: a tilde before something else than 0 or 1, and a percent sign that begins no sequence, each with its own error and place |
| PointerSyntax.CharacterBreaks | client/src/include/rapidjson/pointer.h:923-926 | in a fragment, a character that has to be percent-encoded and is not |
| PointerSyntax.NoSlash | client/src/include/rapidjson/pointer.h:881-891 | a pointer or fragment whose first name has no slash in front |
| JsonEscapes.PercentIff | client/src/include/rapidjson/pointer.h:1052-1073 | a percent sign and two characters are an octet if and only if these write it in hexadecimal, in either case |
| JsonEscapes.UnreservedIff | client/src/include/rapidjson/pointer.h:850-852 | exactly the characters that section 2.3 of RFC 3986 does not reserve need no encoding |
| JsonPointer.PointerShows | client/src/include/rapidjson/pointer.h:1001-1032 | the plain form can always be printed, the fragment if and only if all names are well-formed UTF-8 |
| JsonPointer.TokenCount | client/src/include/rapidjson/pointer.h:871-875 | there are exactly as many tokens as slashes |
| JsonPointer.IndexExactIff | client/src/include/rapidjson/pointer.h:964-977 | the index of a numeral is its value if and only if that is below 2^32 |
| JsonPointer.IndexIs | client/src/include/rapidjson/pointer.h:964-977 | the index of a number is its value modulo 2^32, unless some digit leaves less than there was before |
| JsonPointer.IndexOfNext | client/src/include/rapidjson/pointer.h:964-977 | one digit more than fits: the wrap-around is noticed exactly if it leaves less than before |
| JsonPointer.IndexWraps | client/src/include/rapidjson/pointer.h:969 | 5000000000 is taken for 705032704 |
| JsonPointer.Pointer.Parse | client/src/include/rapidjson/pointer.h:862-992 | the object holds exactly the names, inside a buffer as long as the source, with their indices, or the error and its offset |
| JsonPointer.Pointer.DecodePercent | client/src/include/rapidjson/pointer.h:904-913 | a percent-encoded sequence is copied and judged, and invalid ones too stay inside the buffer |
| JsonPointer.Pointer.Stringify | client/src/include/rapidjson/pointer.h:1001-1032 | prints the names, or fails exactly if a name cannot be encoded |
| JsonPointer.RoundTrip | client/src/include/rapidjson/pointer.h:862-1032 | printing and parsing on the objects: the names come back |
| PointerTree.CreateExistsIff | client/src/include/rapidjson/pointer.h:461-567 | creating reports that the value exists if and only if the pointer led somewhere before, and then leaves the tree unchanged |
| PointerTree.CreateThenGet | client/src/include/rapidjson/pointer.h:461-567 | afterwards the pointer leads to the location returned if and only if no hyphen was applied to an array |
| PointerTree.CreatedIsNull | client/src/include/rapidjson/pointer.h:461-507 | a value that did not exist is null, at a location of the tree |
| PointerTree.CreateTwice | client/src/include/rapidjson/pointer.h:461-507 | creating again finds the value at the same location and changes nothing |
| PointerTree.CreateIs | client/src/include/rapidjson/pointer.h:461-507 | if the pointer leads nowhere, the last value it leads to grows and nothing else changes: a new member comes last, an array gets exactly index + 1 elements and keeps the old ones, what replaces a scalar is an array exactly if the name is an index |
| PointerTree.CreateKeepsIff | client/src/include/rapidjson/pointer.h:461-507 | every pointer that led somewhere still leads to the same location, and to the same value unless it is on the way to what is created, if and only if the names do not ask a non-empty array for a member |
| PointerTree.Tree.CreateValue | client/src/include/rapidjson/pointer.h:461-507 | the loop changes the tree in place exactly as the recursive definition says |
| PointerTree.GetValue | client/src/include/rapidjson/pointer.h:539-567 | walks to the location, or stops at the first name that leads nowhere |
| MemoryPool.MemoryPoolAllocator.Malloc | client/src/include/rapidjson/allocators.h:189-201 | every block is aligned, inside a chunk and apart from all blocks in use; a chunk is added only if the first has no room; null exactly if the size is zero or a needed chunk is refused |
| MemoryPool.MemoryPoolAllocator.Realloc | client/src/include/rapidjson/allocators.h:204-235 | the block keeps its contents, staying exactly where it may, and takes no more of the chunks than it must; no other block and none of its contents change; null exactly if the size is zero or a needed chunk is refused, and then nothing changes |
| MemoryPool.MemoryPoolAllocator.Clear | client/src/include/rapidjson/allocators.h:158-166 | all chunks are given back but the user's, which is empty again |
| MemoryPool.GrowSound | client/src/include/rapidjson/allocators.h:219-224 | the last block can grow in place without meeting any other |
| Checksum.ComplementFolds | tunnel/src/checksum.cpp:38-42 | a sum and the complement of its folded word fold to all ones |
| Checksum.FoldSame | tunnel/src/checksum.cpp:64-66 | sums that agree modulo 65535, and are zero only together, fold to the same word |
| Checksum.IpChecksum | tunnel/src/checksum.cpp:45-70 | the carries added in the middle of the loop change nothing: the result is the complement of the folded plain sum |
| Checksum.UdpTcpChecksum | tunnel/src/checksum.cpp:7-43 | the complement of the folded sum of the segment, odd or even, and its pseudo-header |
| Checksum.CalculateChecksums | tunnel/src/checksum.cpp:72-108 | afterwards the header, and the TCP or UDP segment with its pseudo-header, fold to all ones, and only checksum fields have changed |
| InternetChecksum.HeaderIsStandard | tunnel/src/checksum.cpp:45-70 | the little-endian sum of the header folds to all ones if and only if its big-endian words add up to all ones, as RFC 1071 has it |
| InternetChecksum.SegmentIsStandard | tunnel/src/checksum.cpp:7-43 | so does the sum of the segment with its pseudo-header, as RFC 768 and RFC 793 have it |
| Checksum.Apply | src/main/java/one/transport/ut2/testing/entity/Configuration.java:163-180 | both network parts are rewritten exactly if the packet is TCP or UDP and for this device |
| Checksum.Deliver | src/main/java/one/transport/ut2/testing/entity/Configuration.java:163-180 | a readdressed packet checks, and only addresses and checksums have changed |
| PacketLoss.LossIs | src/main/java/one/transport/ut2/testing/tunnel/PacketLoss.java:17-21 | which ids are dropped, before and from the first id on |
| PacketLoss.DroppedCount | src/main/java/one/transport/ut2/testing/tunnel/PacketLoss.java:17-62 | exactly how many of the first n packets are dropped, for every n, and none if losses are disabled |
| PacketLoss.PeriodLoses | src/main/java/one/transport/ut2/testing/tunnel/PacketLoss.java:17-62 | any whole period of consecutive packets from the first id on loses exactly `down` |
| PacketLoss.EarlyDropExample | src/main/java/one/transport/ut2/testing/tunnel/PacketLoss.java:17-21 | if nothing passes, packets before the first id are dropped as well |
| Tunnel.EveryRun | src/main/java/one/transport/ut2/testing/tunnel/TunnelInterface.java:83-171 | over every interleaving of both threads and the clock: received equals waiting plus processed, losses are exactly as many as the loss function says, nothing is written twice, out of order, or before half a round trip |
| TunnelLog.EveryRunDelivers | src/main/java/one/transport/ut2/testing/tunnel/TunnelInterface.java:83-171 | over every run: what is written is exactly what was taken from a queue or passed between servers, not lost, and TCP or UDP, each once and from its queue; written, lost and other packets add up to those processed; each sent counter is the number of packets written for devices of its kind |
| TunnelLog.RunAgrees | src/main/java/one/transport/ut2/testing/tunnel/TunnelInterface.java:83-419 | the state after every run, its window, queues, counters and output, is what the list of its steps alone says |
| TunnelLog.Conservation | src/main/java/one/transport/ut2/testing/tunnel/TunnelInterface.java:373-416 | of the packets taken, each is written, lost in one direction, or of another protocol |
| TunnelLog.LostByNumber | src/main/java/one/transport/ut2/testing/tunnel/TunnelInterface.java:373-416 | a packet is lost if and only if it is not between servers and the loss function drops its number in its own direction |
| TunnelLog.SortIs | src/main/java/one/transport/ut2/testing/tunnel/TunnelInterface.java:83-151 | a packet goes to the queue of its client, or of the client it is for, or between servers, by the last devices that have its addresses |
| TunnelLog.FirstTakingIs | src/main/java/one/transport/ut2/testing/tunnel/TunnelInterface.java:153-171 | a packet from a client is for the first device that has its address |
| Tunnel.NextInvariant | src/main/java/one/transport/ut2/testing/tunnel/TunnelInterface.java:343-419 | every single step keeps the invariant |
| TunnelInterface.TunnelInterface.ProcessPacket | src/main/java/one/transport/ut2/testing/tunnel/TunnelInterface.java:83-151 | sorts the first packet exactly as the step of the scheduler |
| TunnelInterface.TunnelInterface.TrySendPacket | src/main/java/one/transport/ut2/testing/tunnel/TunnelInterface.java:153-171 | the first device that takes the packet gets it, counted by its kind |
| TunnelInterface.TunnelInterface.Receive | src/main/java/one/transport/ut2/testing/tunnel/TunnelInterface.java:343-356 | queues a packet with the time read before it was offered |
| TunnelInterface.TunnelInterface.Observe | src/main/java/one/transport/ut2/testing/tunnel/TunnelInterface.java:343-356 | between two actions of the sending thread time passes and exactly these packets come in, numbered in order |
| TunnelInterface.TunnelInterface.DrainWindow | src/main/java/one/transport/ut2/testing/tunnel/TunnelInterface.java:364-371 | reads the clock again for every packet, until no packet of the window is due; every packet that was due before has been sorted |
| TunnelInterface.TunnelInterface.DrainClient | src/main/java/one/transport/ut2/testing/tunnel/TunnelInterface.java:373-393 | takes as many packets from the queue as the rate limit passes, or all of them, and touches no other queue |
| TunnelInterface.TunnelInterface.DrainServer | src/main/java/one/transport/ut2/testing/tunnel/TunnelInterface.java:395-416 | the same towards a client |
| TunnelInterface.TunnelInterface.SendOnce | src/main/java/one/transport/ut2/testing/tunnel/TunnelInterface.java:362-417 | one round sorts all packets that were due, and leaves every queue visited empty or served as often as the rate limit passed |
| TunnelInterface.TunnelInterface.Send | src/main/java/one/transport/ut2/testing/tunnel/TunnelInterface.java:358-419 | the loop of the sending thread achieves that in every round, for any number of rounds and any order of the queues |
| TunnelInterface.Simulate | src/main/java/one/transport/ut2/testing/tunnel/TunnelInterface.java:343-419 | a tunnel that is started and runs for any number of rounds, whatever comes in meanwhile: every round does its work, and the end state keeps all that `EveryRun` and `EveryRunDelivers` promise |

## Findings

Where the code does not do what it is documented or expected to do, there is a concrete input and the exact condition.

* **Repeating what can match nothing.** `(a*)*` compiles to states that lead to themselves without input, so that adding
  states does not end (`NestedStarCycles`). This happens if and only if an unbounded quantifier applies to a piece that can
  match the empty string (`PatternAcyclicIff`). The compiled graph is right even then (`MachineAccepts`).
* **Searching for what can match nothing.** Searching "b" for `a?` finds nothing (`SearchMissesEmptyMatch`), because the
  result of the restart is discarded. `SearchRight` and `SearchOnNullable` say exactly when a search is right.
* **Long quantifier numerals.** The overflow test only looks at the next digit, so some numerals wrap around
  (`OverflowExample`, `OverflowWraps`); `NumeralScanned` says what every numeral is read as, and `UnsignedExactIff` when it
  is its value.
* **Misplaced quantifiers.** A quantifier behind a bar or an opening parenthesis is no error: `a|b|*c` means `a|(b)*|c` and
  `b(*a)` means `b*(a)` (`QuantifierAfterBar`, `QuantifierAfterParenthesis`).
* **Anchors.** An anchor anchors the whole pattern wherever it stands, so that `^a|b` does not find the b in "cb"
  (`AnchorConcernsAll`). Where all alternatives have the anchor at their end, or none contains it, that is the same
  (`AnchorsPlaced`); where only some have it, matches can only be lost, exactly as `AnchorsPlacedIff` says.
* **Error codes.** On a stray first token the table-driven parser reports an empty document where recursive descent reports
  an invalid value (`StrayRejected`); on a text of white space only the pull parser differs (`AllParsersAgree`).
* **Numbers a word apart.** -1 and 2^64 - 1 are equal as values (`EqualNumbers`) but have different codes (`WordApart`).
* **Duplicate names.** The note at document.h:931 says that an object with duplicate names never equals any object. It can
  equal itself and others, and objects that do not equal it (`DuplicatesEqual`): it equals something exactly if for every
  name there is one value that all values under that name equal (`EqualsSomeIff`), and then equality is not symmetric
  (`SymmetricIffDistinct`). Codes may differ as well (`DuplicateCodes`).
* **A lost borrow.** The test at biginteger.h:199 misses a borrow into a limb of all ones (`BorrowLost`). `SurplusIff` says
  when a difference is exact, and `Difference` by how much it is off otherwise. The comparison with half a unit can then be
  wrong (`HalfUlpWrong`), exactly as `AnswerExactIff` says, and only by rounding up. That is about calling the comparison;
  it is not shown that a text leads the parser there, whose faster conversions come first.
* **One limb short.** The assertion in the left shift admits a shift after which the limb above the number, which is
  assigned even if it stays zero, lies outside the array; `ShiftInsideIff` says when none does.
* **Pointer indices.** Not every wrap-around of a numeric token is noticed (`IndexWraps`); `IndexIs` says what every
  number is read as, and `IndexExactIff` when that is right.
* **Half a surrogate pair.** The escape of a lower half on its own is accepted, and what is appended is not well-formed
  UTF-8 (`LoneSurrogate`); an upper half on its own is an error. `StringIff` says what every string is read as.
* **Nine places down.** From there on the digit loop passes no distance to its rounding (dtoa.h:106), so that the decimal is
  the upper boundary, truncated (`CutOff`), and need not be the closest (`CutOffNotNearest`); before, it is (`DigitGen`).
* **Creating by pointer.** Where a name that is no index meets a non-empty array, the array is replaced by an object and its
  elements are lost; otherwise whatever a pointer led to before is still there, where it was (`CreateKeepsIff`).
* **Appending by pointer.** After creating through a hyphen applied to an array, the pointer does not lead to what was
  created; `CreateThenGet` has the exact condition.
* **Early drops.** If no packet passes in a period, packets before the first id of the loss pattern are dropped as well
  (`EarlyDropExample`); `LossIs` says which, and `DroppedCount` how many.

## Left out

- RegexTheorem.Match: does not cover unbounded quantifiers on pieces that can match nothing, on which the simulation need not end; what their graphs accept is in `MachineAccepts`.
- RegexTheorem.SearchFor: the same patterns are left out.
- RegexTheorem.AnchorsPlaced: one direction; patterns with other anchors can be right as well, depending on their words.
- HalfUlp.CheckWithinHalfULP: the two scaled values must differ, as the assertion in the subtraction demands.
- MemoryPool.MemoryPoolAllocator.Realloc: the old size must be the true one, and sums of sizes must be representable in 64 bits.
- DigitGen.DigitGen: demands the range of exponents and the interval that its caller establishes; that caller and the cached powers are left out.
- Checksum.Apply: a network address has at most four bytes; arrays that the getters cache are not modelled.
- Regular expressions: patterns and texts are strings of scalar values, so that decoding UTF-8 streams is left out; the set of visited states is an array of truth values, not of bits; indices are unbounded.
- JSON numbers: floating point is a function of the lexeme; fractions, exponents and numbers too long are not accumulated into doubles, and doubles are left out of printing and of the round trip. "-0" is reported as the integer 0.
- JSON flags: comments, in-situ parsing, NaN and infinity, numbers as strings, encoding validation, and handlers that stop the parse are left out; text after a null character is ignored as in the code.
- JSON stacks: the parser's stack holds pairs of state and count, string characters are not kept on it; the writer's levels are a linked value; the reader hands its events to the document after parsing, in the same order.
- The table of digit pairs is given by a formula.
- Big numbers: the branches for other compilers are left out; limbs hold what `kCapacity` gives, 416, not the 54 of its comment.
- BigInteger.BigInteger.ShiftLeft: demands the limb that the assertion of the code leaves out (`ShiftInsideIff`).
- Hashing: the bytes of integers and doubles as floating-point numbers are parameters, and so is equality with a floating-point number.
- JSON Pointer: characters are code units below 256, and reading past the end of the source yields a null character; error handling of allocation, `Set`, `Swap` and `Erase` are left out.
- MemoryPool.MemoryPoolAllocator.WithBuffer: the buffer of the user is aligned; the code does not ask for that, and hands out misaligned blocks if it is not.
- Allocation: memory is one function from addresses to bytes; the allocator below is an input that may refuse, and the header takes 24 bytes as with 64-bit pointers.
- Checksums: little-endian words; the code does not replace a zero UDP checksum, and neither does the model. The TUN device and the native interface are left out.
- Scheduler: the congestion window is a queue that may refuse a packet, the rate limiter decides freely, the clock is an input that does not fall; packet statistics by magic, flushing of statistics, and devices that compare equal are left out. Arrival numbers are added by the model.
- Packet loss: the intervals option and its release logic are left out, and integers do not overflow.
- Schema validation, sockets, process launching, test stands and configuration files are left out.

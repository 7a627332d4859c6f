# Verified models of the C examples

A Dafny 4.11 model of the six stateful components of this repository, with proofs of what they promise.
Each C source file that updates objects or buffers in place is modelled by a class or an array method, and
each of these is proved equal to a function on values; the theorems about whole runs are lemmas about those
functions. `dafny verify dfyconfig.toml` checks everything.

| component | modules |
|---|---|
| open-addressing hash table (`hash-table/main.c`) | `Cyclic`, `Permutations`, `Probing`, `HashTable`, `HashTableObject`, `HashTableRuns`, `HashTableReach`, `Bytes`, `Fnv` |
| growable byte array of the HTTP server | `DynamicArray` |
| automaton for the end of the HTTP header section | `HttpHeaders` |
| SCGI request parser | `Scgi` |
| AQLS lexer, lookahead queue, parser and statement list | `Lexing`, `TokenQueue`, `Lexer`, `LexerRuns`, `Grammar`, `Parser`, `ParserRuns` |
| CHIP-8 machine and disassembler | `Words`, `Display`, `Cpu`, `Boot`, `CallStack`, `CpuRuns`, `ScreenRuns`, `Registers`, `Manual`, `Machine`, `Disassembler` |

`Wrappers` (an option type) and `Bytes` are shared by all components.

How the model is stated:

- Integers are unbounded; where a C type is narrower the wrap-around is written out (FNV modulo 2^32, eight-bit
  registers, sixteen-bit `pc` and `i`).
- A step of the machine ends in `Ok`, in `Halt` (the program exits or an assertion fails) or in `OutOfRange` (an
  access beyond an array: a memory index of 4096 or more, a fetch at 4095, a key value of 16 or more). Keys held,
  random bytes and missed timer ticks are inputs of each step.
- What the functions decide is also stated without them, in numbers and characters: every instruction word by its
  digits (`Manual`), every pixel by its coordinates, the lexer's and the header automaton's alphabets by their
  characters and bytes, the font by its pictures.
- The hash of the table is an arbitrary function; `Fnv` models the one the program uses.
- The three POSIX regular expressions of the lexer are longest-match functions on NUL-free input in the C locale. Inside
  a bracket expression the backslash is a literal character (section 9.3.5 of the POSIX Base Definitions, IEEE Std
  1003.1), so identifiers may contain `\` and `.`.

Where the code and its documentation disagree, the model follows the code, and the difference is a theorem:

- `hash_table_get` returns NULL on the first collision as soon as the table holds two entries (`hash-table/main.c:161`),
  so it does not find every key that was put: `HashTableRuns.GetLosesAKey` gives a run, `HashTableRuns.GetReach` and
  `HashTableRuns.GetAgreesWithMapIff` say exactly when it is right.
- The draw flag is documented as "some pixel was erased" (`emulator/src/emulator/cpu.c:361`), but
  `display_draw_sprite` sets it when a zero bit covers a lit pixel: `Display.FlagMissesErasures` gives drawings, and
  `Display.FlagIsDocumentedIff` says exactly when the two agree.
- The header automaton falls back to its initial state on a CR after CR LF CR, so it can miss an end of headers:
  `HttpHeaders.MissesAnOccurrence` gives a request, `HttpHeaders.AgreesWithReferenceIff` says exactly when it answers
  like a substring search, and `HttpHeaders.ExactVerdict` says what it answers on every input.
- `parse_statements` never assigns the list head it returns (`parser.c:61-68`), so the tree's statement list is always
  NULL: `ParserRuns.OneWriteIsLost` and `ParserRuns.LoseAStatement` give a program whose statement the tree does not
  list, and `ParserRuns.TreeListsStatementsIff` says that the tree of an accepted input lists its statements exactly
  when the first token is not WRITE-like. The nodes themselves do form the right list (`Parser.ChainListsFrom`).

## Model

| member | source | states |
|---|---|---|
| Probing.InsertionsCommute | hash-table/main.c:134-139 | two insertions by linear probing in either order take the same slots with the same total displacement, even when they compete for one slot |
| Probing.OrderDoesNotMatter | hash-table/main.c:113-148 | any two orders of the same insertions into any starting layout that has room end in the same layout |
| HashTable.ProbeFinds | hash-table/main.c:134-139 | probing for a key ends at its own slot if it is in the table, at the first free slot from its home if not, and runs through the whole table exactly when it is full without the key |
| HashTable.PutRefinesMapUpdate | hash-table/main.c:113-148 | `put` keeps the invariant (distinct keys, count of occupied slots, no gap between a key's home and its slot), turns map m into m[k := v], and aborts exactly when the table is full and the key absent |
| HashTable.PutLaysOut | hash-table/main.c:113-148 | a new key occupies the first free slot after its home and adds that distance to the total displacement; overwriting a known key moves nothing |
| HashTableObject.OpenTable.constructor | hash-table/main.c:64-71 | a new table has the given number of slots, all empty, and count 0 |
| HashTableObject.OpenTable.Put | hash-table/main.c:113-148 | the in-place loop computes the table of `HashTable.Put`, moves past at most capacity - 1 slots when it succeeds, and leaves the table untouched when its assertion fails |
| HashTableObject.OpenTable.Get | hash-table/main.c:150-172 | on every valid table the search loop ends as `HashTable.Get` says: only the home slot is ever compared, or the next slot's NULL key is read; in a one-slot table holding another key it ends when the size_t counter wraps |
| HashTableRuns.RunRefinesMap | hash-table/main.c:64-148 | after any run of puts the table is valid and stands for the map of last values; a run aborts exactly when it puts more distinct keys than there are slots |
| HashTableRuns.RunFollowsFirstPuts | hash-table/main.c:113-148 | occupied slots and total displacement after a run are those of inserting the keys once each, in the order of their first puts |
| HashTableRuns.LayoutIsOrderIndependent | hash-table/main.c:113-148 | runs that put the same set of keys, in any order, with any values and repetitions, succeed alike, fill the same slots and have the same total displacement |
| HashTableReach.ReachableWithFreeSlot | hash-table/main.c:113-148 | every valid table with a free slot is the table of some run of puts |
| HashTableReach.ReachableIff | hash-table/main.c:64-148 | runs of puts reach exactly the valid tables that have a free slot or an entry without which every chain is still unbroken |
| HashTableReach.CrossedHomes | hash-table/main.c:113-148 | a full valid table that no run reaches: two slots, each key in the other's home |
| HashTableRuns.KeysStay | hash-table/main.c:113-148 | an entry once written keeps its key in its slot for the rest of the run |
| HashTableRuns.HomeWasFree | hash-table/main.c:121-132 | a key sits in its home slot at the end of a run exactly when that slot was free at the key's first put |
| HashTableRuns.GetReach | hash-table/main.c:150-172 | with two or more keys, `get` succeeds exactly for keys whose home slot was free at their first put, then gives the last value put, and otherwise returns NULL |
| HashTableRuns.KeysApartAreFound | hash-table/main.c:150-172 | when no two keys put have the same hash modulo the number of slots, `get` finds every one of them with the last value put |
| HashTableRuns.GetOfOneEntry | hash-table/main.c:150-172 | with a single key put, `get` finds it, returns NULL for keys with another home, and for another key with its home reads the next slot's NULL key if there is a next slot |
| HashTableRuns.GetAgreesWithMapIff | hash-table/main.c:150-172 | `get` answers like the map exactly when the key is in its home slot, or is absent and its home slot does not hold the single entry of a larger table |
| HashTableRuns.GetLosesAKey | hash-table/main.c:161-163 | a run of two puts after which the second key is in the map but not found |
| Fnv.HashFnv1a32 | hash-table/main.c:87-103 | the byte loop computes the 32-bit FNV-1a hash |
| Fnv.PublishedValues | hash-table/main.c:89-97 | the empty key hashes to 0x811C9DC5 and the letter a to 0xE40C292C |
| Fnv.StepIsInjective | hash-table/main.c:94-97 | if one step from two hashes with two bytes gives the same result, the hashes agree exactly when the bytes do (the prime is invertible modulo 2^32) |
| Fnv.OneByteChangesTheHash | hash-table/main.c:87-103 | keys of one length that differ in exactly one byte never have the same hash |
| DynamicArray.Array.constructor | networking/http-server/src/http-server/dynamic-array.h:57-66 | a fresh array is empty and has no buffer |
| DynamicArray.Array.WithCapacity | networking/http-server/src/http-server/dynamic-array.h:68-85 | a pre-sized array is empty and has a fresh buffer of the given size |
| DynamicArray.Array.Reallocate | networking/http-server/src/http-server/dynamic-array.h:122-126 | growing keeps the contents in a fresh larger buffer and accounts for the old buffer's bytes as moved |
| DynamicArray.Array.PushBackByte | networking/http-server/src/http-server/dynamic-array.h:114-131 | appends exactly the byte, with the doubling growth policy, whenever the capacity needed fits the size type |
| DynamicArray.Array.PushBack | networking/http-server/src/http-server/dynamic-array.h:133-154 | appends exactly the block, with the policy that doubles capacity plus shortage, whenever the capacity needed fits the size type |
| DynamicArray.PushFits | networking/http-server/src/http-server/dynamic-array.h:114-154 | both growth policies make room for the push, so a capacity within the size type keeps the length within it |
| DynamicArray.DoubleSuffices | networking/http-server/src/http-server/dynamic-array.h:114-154 | the capacity needed fits the size type whenever twice the new length does |
| DynamicArray.GrowthIs | networking/http-server/src/http-server/dynamic-array.h:118-147 | a full array doubles or starts with 8 bytes, a block that does not fit gets exactly twice the new length or, without a buffer, its own length but at least 8; otherwise the capacity stays |
| DynamicArray.AmortisedGrowth | networking/http-server/src/http-server/dynamic-array.h:99-154 | over any mix of pushes the array is the concatenation pushed, bytes written plus bytes moved are at most 3N, and the capacity is at most max(initial, 8, 2N) |
| DynamicArray.NoSizeOverflow | networking/http-server/src/http-server/dynamic-array.h:114-154 | if twice the bytes of a whole run fit the size type, so does every capacity along the way |
| HttpHeaders.Validate | networking/http-server/src/http-server/http.c:20-76 | the byte loop returns the verdict of the automaton's run over the buffer, including the offset |
| HttpHeaders.StateIsMatched | networking/http-server/src/http-server/http.c:43-71 | the state is the length of a prefix of CR LF CR LF that the input so far ends with |
| HttpHeaders.ScanIsSound | networking/http-server/src/http-server/http.c:33-76 | acceptance with offset o means that bytes o-1..o+2 are CR LF CR LF and every byte through o+2 is permitted |
| HttpHeaders.ThirdStateIsOddBlocks | networking/http-server/src/http-server/http.c:57-71 | as long as nothing was accepted the automaton expects the last LF exactly after an odd number of adjacent CR LF CR blocks |
| HttpHeaders.ExactVerdict | networking/http-server/src/http-server/http.c:20-76 | on every input, acceptance at p comes exactly for the first place where the bytes 13, 10, 13, 10 occur behind an even number of 13, 10, 13 blocks, if every byte through its end is 13, 10, in 32..126 or at least 128 |
| HttpHeaders.HeaderSectionIsAccepted | networking/http-server/src/http-server/http.c:20-76 | a header section of permitted bytes whose first CR LF CR is that of its final CR LF CR LF is accepted there |
| HttpHeaders.LineIsAccepted | networking/http-server/src/http-server/http.c:191-203 | one line of printable bytes followed by CR LF CR LF is accepted, whatever follows |
| HttpHeaders.AgreesWithReferenceIff | networking/http-server/src/http-server/http.c:20-76 | on every input, the verdict equals that of a first-occurrence substring search exactly when an even number of CR LF CR blocks leads up to the first valid occurrence (or there is none) |
| HttpHeaders.CompleteWithoutRepeatedCr | networking/http-server/src/http-server/http.c:33-76 | where CR LF CR is never followed by CR, the automaton finds the first occurrence |
| HttpHeaders.StateIsLongest | networking/http-server/src/http-server/http.c:43-71 | under that condition no longer prefix of the pattern ends the input so far |
| HttpHeaders.MissesAnOccurrence | networking/http-server/src/http-server/http.c:62-71 | a seven-byte input with a valid occurrence that is refused |
| Scgi.Parser.constructor | hello-scgi/scgi-backend/src/scgi.c:16-25 | a parser starts in the header-name state with both cursors at the start of a non-empty buffer |
| Scgi.Parser.Parse | hello-scgi/scgi-backend/src/scgi.c:27-163 | the two-cursor loop returns 0 with exactly the headers and body of the parse function, state DONE and both cursors at the end, after exactly one iteration for each byte; else 1 |
| Scgi.RoundTrip | hello-scgi/scgi-backend/src/scgi.c:27-147 | parsing a serialised request gives back its headers and body |
| Scgi.AcceptedFromName | hello-scgi/scgi-backend/src/scgi.c:72-121 | whatever is accepted from a header name on is the serialisation of the headers and body returned |
| Scgi.ExactLanguage | hello-scgi/scgi-backend/src/scgi.c:27-147 | a parse returns these headers and this body exactly when the input is them serialised: NUL-terminated pairs, a NUL- and comma-free remnant, a comma and a body, with names, values and body of at most 254 bytes |
| Scgi.SplitIsUnique | hello-scgi/scgi-backend/src/scgi.c:72-121 | no input splits in two ways |
| Lexing.SpanIsLongest | parsing-example/aqls-parser/src/aqls-parser/lexer.c:37-43 | a repeated bracket expression matches accepted characters only and stops only at one it does not accept |
| Lexing.LexPrinted | parsing-example/aqls-parser/src/aqls-parser/lexer.c:37-43 | identifiers (a letter or #, then letters, #, \ and .) and quoted strings, printed with any gaps of blanks, tabs, carriage returns and newlines (none needed except between two identifiers), lex to exactly those tokens and then EOF |
| Lexing.PrintIsUnique | parsing-example/aqls-parser/src/aqls-parser/lexer.c:134-190 | a text is printed in one way only: equal texts have the same gaps, the same lexemes and the same trailing gap |
| Lexing.LexedTiles | parsing-example/aqls-parser/src/aqls-parser/lexer.c:134-234 | on every input the skipped characters and the lexemes tile the consumed prefix, and it ends at the end of the input exactly for EOF |
| Lexing.LexesIff | parsing-example/aqls-parser/src/aqls-parser/lexer.c:134-190 | an input lexes to EOF without an error exactly when it is such a printed list of lexemes and gaps |
| Lexing.LexAllIsStream | parsing-example/aqls-parser/src/aqls-parser/lexer.c:134-190 | the token list is the stream of successive scans through its first EOF or ERROR |
| TokenQueue.Queue.constructor | parsing-example/aqls-parser/src/aqls-parser/token/queue.c:6-15 | a new queue is empty |
| TokenQueue.Queue.Append | parsing-example/aqls-parser/src/aqls-parser/token/queue.c:22-29 | appending adds at the end of the queued sequence, around the ring |
| TokenQueue.Queue.Pop | parsing-example/aqls-parser/src/aqls-parser/token/queue.c:31-40 | popping removes and returns the oldest token |
| TokenQueue.Queue.Peek | parsing-example/aqls-parser/src/aqls-parser/token/queue.c:42-47 | peeking returns the oldest token |
| Lexer.CallsKeepCoherence | parsing-example/aqls-parser/src/aqls-parser/lexer.c:51-190 | peek and next keep the lookahead equal to what a scan from the position gives, with never more than one token, and both answer with that token |
| Lexer.TokenLexer.constructor | parsing-example/aqls-parser/src/aqls-parser/lexer.c:22-34 | a lexer starts at position 0 with an empty lookahead |
| Lexer.TokenLexer.MatchToken | parsing-example/aqls-parser/src/aqls-parser/lexer.c:159-189 | the pattern loop yields the token of the first pattern that matches, or an empty ERROR token |
| Lexer.TokenLexer.PeekToken | parsing-example/aqls-parser/src/aqls-parser/lexer.c:51-121 | peeking queues the next token once and moves neither cursor nor position |
| Lexer.TokenLexer.NextToken | parsing-example/aqls-parser/src/aqls-parser/lexer.c:134-234 | next hands out the queued token and moves behind it, or scans; cursor and position stay together |
| LexerRuns.PeekingIsTransparent | parsing-example/aqls-parser/src/aqls-parser/lexer.c:51-190 | in any interleaving every call answers with the token of the peek-free run whose index is the number of next calls before it, and positions agree up to trailing ignored characters |
| LexerRuns.PeekShowsNext | parsing-example/aqls-parser/src/aqls-parser/lexer.c:51-147 | a peek returns what the following next returns |
| LexerRuns.EndsInTime | parsing-example/aqls-parser/src/aqls-parser/lexer.c:134-190 | EOF or ERROR comes within input length + 1 calls and repeats for ever after |
| LexerRuns.LineColumnFromPos | parsing-example/aqls-parser/src/aqls-parser/lexer.c:259-270 | the counting loop gives the place of the position, cut off at the end of the input |
| LexerRuns.LineColumnFromCursor | parsing-example/aqls-parser/src/aqls-parser/lexer.c:272-283 | the pointer loop gives the same place |
| LexerRuns.PlaceCounts | parsing-example/aqls-parser/src/aqls-parser/lexer.c:259-283 | the line is one plus the newlines before the position, the column one plus the characters since the last of them |
| LexerRuns.PlacesIncrease | parsing-example/aqls-parser/src/aqls-parser/lexer.c:259-283 | places increase strictly with the position, so a place tells the position |
| Parser.ViewCmpIsZeroIff | parsing-example/aqls-parser/src/aqls-parser/string-view.c:32-45 | two views compare equal exactly when one is a prefix of the other |
| Parser.StatementsAppend | parsing-example/aqls-parser/src/aqls-parser/ast/ast.c:24-40 | appending makes a new last node and links the given node to it, leaving that node's statement alone |
| Parser.ExtendChain | parsing-example/aqls-parser/src/aqls-parser/ast/ast.c:33-40 | appending at the last node of an acyclic source-order chain gives such a chain with one more node |
| Parser.ChainListsFrom | parsing-example/aqls-parser/src/aqls-parser/ast/ast.c:24-40 | following the links from the first node of a chain reads its statements in source order and ends |
| Parser.ListIsUnique | parsing-example/aqls-parser/src/aqls-parser/ast/ast.c:24-40 | a list reads as one sequence of statements only |
| Parser.AqlsParser.constructor | parsing-example/aqls-parser/src/aqls-parser/parser.c:17-34 | a parser starts with a lexer at the start of the input |
| Parser.AqlsParser.ParseStatementWrite | parsing-example/aqls-parser/src/aqls-parser/parser.c:89-105 | takes the two next tokens of the input as a statement, or exits when the second is no string literal |
| Parser.AqlsParser.ParseStatement | parsing-example/aqls-parser/src/aqls-parser/parser.c:74-84 | one peek decides; what is parsed and what remains make up what the grammar says about the input |
| Parser.AqlsParser.ParseAndAppend | parsing-example/aqls-parser/src/aqls-parser/parser.c:64-66 | one turn of the loop lengthens the chain by the statement parsed and consumes input |
| Parser.AqlsParser.ParseStatements | parsing-example/aqls-parser/src/aqls-parser/parser.c:59-69 | the loop parses what the grammar parses into an acyclic source-order chain of fresh nodes, and returns a null head |
| Parser.AqlsParser.ParseEnd | parsing-example/aqls-parser/src/aqls-parser/parser.c:110-121 | takes the next token and exits unless it is END-like |
| Parser.AqlsParser.ParseCompilationUnit | parsing-example/aqls-parser/src/aqls-parser/parser.c:48-54 | the unit has the null list head and the END token of what the grammar accepts |
| Parser.AqlsParser.Parse | parsing-example/aqls-parser/src/aqls-parser/parser.c:32-54 | returns 0 exactly when the grammar accepts, at the grammar's position, with the chain of its statements and a tree that lists them exactly when the first token is not WRITE-like; otherwise the program exits |
| Grammar.AcceptsExactly | parsing-example/aqls-parser/src/aqls-parser/parser.c:45-121 | over any token source the grammar accepts exactly the sequences that start with n statement pairs and an END, consuming 2n + 1 tokens |
| ParserRuns.ParserAcceptsExactly | parsing-example/aqls-parser/src/aqls-parser/parser.c:48-121 | over the lexer's stream the parser accepts exactly n pairs of an identifier that is a prefix of WRITE or starts with it and a string literal, then an identifier that is a prefix of END or starts with it |
| ParserRuns.ProgramRoundTrip | parsing-example/aqls-parser/src/aqls-parser/parser.c:32-121 | a printed program of n WRITE statements followed by any text at all parses to n statements with the printed operands; the END token takes in whatever characters lengthen it |
| ParserRuns.OtherWordIsRefused | parsing-example/aqls-parser/src/aqls-parser/parser.c:79-118 | an identifier prefix-comparable with neither WRITE nor END makes the program exit, after any number of statements and whatever follows |
| ParserRuns.TreeListsStatementsIff | parsing-example/aqls-parser/src/aqls-parser/parser.c:59-69 | with the null head that is returned, the tree of an accepted input lists the statements parsed exactly when the first token is not WRITE-like |
| ParserRuns.OneWriteIsLost | parsing-example/aqls-parser/src/aqls-parser/parser.c:61-68 | `WRITE 'a' END` is accepted with one statement, which a list without a head does not hold |
| ParserRuns.LoseAStatement | parsing-example/aqls-parser/src/aqls-parser/parser.c:32-69 | parsing that program returns 0, having parsed its one statement, and a tree whose statement list is null |
| Words.DigitsOfWord | emulator/src/emulator/opcode.c:7-32 | the four hexadecimal digits of a word are what the operand masks and shifts select |
| Bytes.BitIsDigit | emulator/src/emulator/utils/bits.c:5-14 | bit k of a number is set exactly when the number divided by 2^k is odd |
| Bytes.OpBitsAt | emulator/src/emulator/cpu.c:708-730 | each bit of an and, or or exclusive or is that operation on the operands' bits |
| Display.PixelInNumbers | emulator/src/emulator/display.c:104-131 | for at most 32 rows the pixel in a column and row is flipped exactly when o = (column - x) mod 64 is below 8, j = (row - y) mod 32 is a row of the sprite and bit 7 - o of byte j is set |
| Display.BitFlipsPixel | emulator/src/emulator/display.c:114-127 | for at most 32 rows the pixel at ((x + o) mod 64, (y + j) mod 32) is flipped exactly when bit 7 - o of byte j is set |
| Display.OtherPixelsStay | emulator/src/emulator/display.c:111-127 | a pixel under no sprite bit keeps its value, for sprites of any length |
| Display.LandingInNumbers | emulator/src/emulator/display.c:111-117 | the set bits that land on a pixel, for sprites of any length, told by coordinates |
| Display.FlagInNumbers | emulator/src/emulator/display.c:119-121 | for at most 32 rows the flag is set exactly when a lit pixel lies under a zero bit, told by coordinates |
| Display.DrawFlipsHits | emulator/src/emulator/display.c:104-131 | a drawing flips each pixel as often as set sprite bits land on it under wrap-around, for any sprite length |
| Display.DrawingsAreParity | emulator/src/emulator/display.c:104-131 | after any sequence of drawings a pixel differs from the start exactly when an odd number of set bits landed on it |
| Display.LitIffOddHits | emulator/src/emulator/display.c:28-33 | after a clear, a pixel is lit exactly when an odd number of set bits landed on it |
| Display.DrawingOrderDoesNotMatter | emulator/src/emulator/display.c:104-131 | every permutation of the drawings gives the same screen |
| Display.DrawingTwiceRestores | emulator/src/emulator/display.c:104-131 | drawing a sprite twice restores the screen |
| Display.FlagIsZeroMeetsLit | emulator/src/emulator/display.c:104-131 | for sprites of any length the flag is set exactly when some zero bit meets a pixel that is lit once the rows before it have been drawn |
| Display.FlagIsZeroOverLit | emulator/src/emulator/display.c:119-121 | for at most 32 rows, so for every drawing an opcode can ask for, that is when a zero bit covers a pixel lit in the starting screen |
| Display.ErasedIffOddHits | emulator/src/emulator/display.c:126 | for sprites of any length a lit pixel is turned off exactly when an odd number of one bits land on it |
| Display.ErasedIsOneOverLit | emulator/src/emulator/display.c:126 | for at most 32 rows some lit pixel is turned off exactly when some one bit covers a lit pixel |
| Display.FlagIsDocumentedIff | emulator/src/emulator/cpu.c:355-368 | the flag is the documented one exactly when zero bits and one bits both or neither cover lit pixels |
| Display.RedrawFlagIff | emulator/src/emulator/display.c:104-131 | the second of two drawings of a sprite of at most 32 rows sets the flag exactly when a zero bit covers a pixel that was lit before the first |
| Display.FlagMissesErasures | emulator/src/emulator/cpu.c:355-368 | drawing a non-blank sprite of at most 32 rows twice on a blank screen erases pixels without setting the flag |
| Manual.StepFollowsManual | emulator/src/emulator/cpu.c:508-1002 | from every state, a step does what the manual says of the word at `pc`: the new `pc`, registers, I, stack, memory and screen of each of the 35 instructions by the word's digits, everything else unchanged, the timers ticked, and exactly when it halts or runs out of range |
| CpuRuns.RunStaysValid | emulator/src/emulator/cpu.c:598-616 | in every state of every run the buffers keep their sizes and at most twelve entries are stacked |
| CpuRuns.CallsAreBracketed | emulator/src/emulator/cpu.c:583-652 | the step that first brings the depth back to that of a call is a return, it resumes behind the call, and stack entries below never change in between |
| CpuRuns.StackHoldsPendingCalls | emulator/src/emulator/cpu.c:598-652 | from an empty stack on, the stacked entries are exactly the addresses behind the calls not yet returned from |
| CpuRuns.RunMemory | emulator/src/emulator/cpu.c:962-1002 | a memory cell keeps its byte over any stretch of a run in which no FX33 or FX55 covers it |
| CpuRuns.SaveAndRestore | emulator/src/emulator/cpu.c:984-1002 | FX55 and a later FX65 with the same I and x restore V0 to Vx, whatever runs in between without writing those cells |
| CpuRuns.FontIsKept | emulator/src/emulator/memory.c:17-54 | the font stays in place until a step writes below address 80 |
| CpuRuns.DigitsAreDrawn | emulator/src/emulator/cpu.c:853-889 | FX29 with Vx below 16 and then DXY5 XORs in exactly the glyph of Vx |
| CpuRuns.DrawFlag | emulator/src/emulator/cpu.c:853-889 | VF is 1 after any drawing step exactly when a zero bit of the bytes at I covers a lit pixel; a drawing of no rows clears it |
| CpuRuns.WaitingStutters | emulator/src/emulator/cpu.c:916-928 | at FX0A nothing but the timers changes while no key is held; the first input with a key puts the least key into Vx and moves on by 2 |
| ScreenRuns.ScreenIsDrawn | emulator/src/emulator/cpu.c:853-889 | over any stretch of a run without 00E0 the screen changes by exactly the drawings of its DXYN steps, in order |
| ScreenRuns.PixelIsParitySinceBoot | emulator/src/emulator/cpu.c:853-889 | at every point of a run from the start up to its first 00E0 a pixel is lit exactly when an odd number of set sprite bits landed on it since the start |
| ScreenRuns.PixelIsParitySinceClear | emulator/src/emulator/cpu.c:618-622 | at every point after an 00E0 a pixel is lit exactly when an odd number of set sprite bits landed on it since the last one |
| Registers.FlaggedResultsAreExact | emulator/src/emulator/cpu.c:732-820 | additions, subtractions and shifts leave their exact result in Vx and VF together (carry, sign of the difference, bit shifted out), change no other register, and never run with VF as an operand |
| Registers.BcdSpellsTheNumber | emulator/src/emulator/cpu.c:962-982 | FX33 stores three decimal digits that spell Vx |
| Registers.XorSwap | emulator/src/emulator/cpu.c:724-730 | three 8XY3 steps in a row exchange two registers |
| Cpu.StepKeepsValid | emulator/src/emulator/cpu.c:508-1002 | every successful step keeps all buffer sizes and the stack bound |
| Boot.BootMemory | emulator/src/emulator/memory.c:17-49 | memory at start holds the font at 0 and the program at 0x200 |
| Boot.LoadedMemory | emulator/src/emulator/machine.c:62-66 | loading a program into freshly initialised memory gives exactly that memory |
| Boot.BootInNumbers | emulator/src/emulator/cpu.c:494-506 | the machine starts at 512 with an empty stack of twelve, the program from 512 on, the font below 80 and zeroes elsewhere |
| Boot.GlyphShowsDigit | emulator/src/emulator/memory.c:25-43 | the sixteen glyphs are pictures of the digits 0 to F |
| Machine.GetPressedKey | emulator/src/emulator/keyboard.c:36-51 | the scan returns the least key held, or none |
| Machine.CopyBytes | emulator/src/emulator/cpu.c:984-1002 | the byte loop overwrites exactly the target range with the source range |
| Machine.MemoryInit | emulator/src/emulator/memory.c:17-49 | memory is cleared and holds the font |
| Machine.Chip8.constructor | emulator/src/emulator/cpu.c:494-506 | a new machine is in the boot state |
| Machine.Chip8.LoadRom | emulator/src/emulator/machine.c:50-69 | a program that fits replaces program memory and zeroes the rest of it, font area untouched; one that does not fit ends the program with memory unchanged |
| Machine.Chip8.DrawRow | emulator/src/emulator/display.c:112-127 | the inner loop draws one sprite byte: what is left to draw afterwards is the same drawing from the next row |
| Machine.Chip8.DisplayDrawSprite | emulator/src/emulator/display.c:104-131 | the nested loops over the screen buffer compute `Display.DrawSprite` and its flag |
| Machine.Chip8.DisplayClear | emulator/src/emulator/display.c:28-33 | clearing blanks the screen and nothing else |
| Machine.Chip8.CpuStep | emulator/src/emulator/cpu.c:508-1002 | fetch, advance, decode and every instruction routine in place agree with `Cpu.CpuStep`, with the same outcome on every error |
| Machine.Chip8.TickDown | emulator/src/emulator/timer.c:44-46 | a timer that catches up on n ticks loses n but never goes below zero |
| Machine.Chip8.Turn | emulator/src/emulator/machine.c:129-135 | one turn of the main loop updates both timers and executes one instruction |
| Disassembler.LinesReadBack | emulator/src/emulator/disassembler.c:39-337 | the printed line of every word, read back, is the instruction the CPU dispatches for it |
| Disassembler.RegisterNames | emulator/src/emulator/register.h:30 | registers are printed V0 to V15, in decimal |
| Disassembler.SystemLines | emulator/src/emulator/disassembler.c:81-98 | the two fixed lines and that of a native call, in full; the lemmas behind it do the same for one word of every other shape |
| Disassembler.AcceptsWhatIsDispatched | emulator/src/emulator/disassembler.c:39-79 | the disassembler accepts exactly the words the CPU dispatches |
| Disassembler.AssembleUndoesDispatch | emulator/src/emulator/cpu.c:531-570 | a decoded word can be assembled again from its instruction, up to the third digit of the two shifts |
| Disassembler.LinesTellOpcodes | emulator/src/emulator/disassembler.c:39-337 | two words print the same line exactly when they are equal but for the third digit of 8xy6 and 8xyE |
| Disassembler.SameLineSameEffect | emulator/src/emulator/cpu.c:771-820 | words that print the same line have the same effect on every machine state and input |

## Left out

- HashTable.Put: no state is given after a failed probing assertion, because the program aborts.
- DynamicArray.Array.PushBackByte: requires the capacity needed to fit the size type; what a wrapped size would do is not modelled.
- DynamicArray.Array.PushBack: requires the capacity needed to fit the size type; what a wrapped size would do is not modelled.
- Cpu.Step: the writes that an instruction makes before it runs out of range or halts are not described, because the run ends there.
- Scgi.Parser.Parse: the length of the enclosing netstring is not parsed (that code is commented out), and after a failed parse only the result and the bound on iterations are stated.
- Allocation failure and freeing in all components.
- The regular-expression library itself: patterns are longest-match functions, and input after a NUL character is not modelled.
- The message and position printed by `panic_unexpected_token`; the program exits there.
- SDL windows, rendering, event polling and clock-speed control of the emulator.
- The rate of the timers: `timer_update` depends on wall-clock time, so the number of missed ticks is an input of each step.
- The loop of `machine_disassemble`, which loads the next word before testing the address; disassembly is modelled for single words.
- Sockets, polling and the send and receive loops of both servers.
- Logging, configuration, reading files and environment variables.
- Stubs and unfinished code: `dynamic_array_ensure_capacity`, `aqls_lexer_peek_tokens`, the HTTP request parser, `ast.bak.c`.
- `defer`: a fixed array of callbacks run in reverse order when a scope ends; what they do is the caller's code, which is not part of this model.
- The helpers of the servers (`mem.c`, `stopwatch.c`, `scanner.c`): an allocator over one fixed buffer, a clock reading and a byte scanner, none of which the six components above call in what is modelled of them.
- `zlib`, `libcurl`, `glib-examples` and `pthreads-examples`: callers of libraries that are not part of this model.
- `byte-order-examples`, `buffer-overflow-examples` and `string-examples`: single programs that print how a C feature behaves on one fixed input.

# GOOMBAServer: the parts that compute, proved

GOOMBAServer is a server-side interpreter for pages with embedded code. This project models the parts of it in which the
result does not come from a library, a socket or the machine's clock, and proves what each of them is for.

| files | source | what they model |
|---|---|---|
| RegexSyntax, RegexProgram, RegexStructure, RegexCode | src/regexpr.c | patterns, their language, the byte code and its layout |
| RegexTables, RegexLanguage | src/regexpr.c | the syntax table that the compiler fills, and what the language is operator by operator |
| RegexParse, RegexLayout, RegexCompile, RegexPrint, RegexReread | src/regexpr.c | the operator-precedence compiler that grows its code in place, and printing what it reads |
| RegexBacktrack, RegexFirst, RegexMachine, RegexRuns, RegexMatcher | src/regexpr.c | the backtracking matcher, which rewrites its own loops while it runs |
| RegexRoom | src/regexpr.c | how many failure points a pattern needs, and when the answer must be -2 |
| RegexFastmap, RegexBuffer | src/regexpr.c | the map of first characters, a compiled pattern as an object, and the search |
| RegexTail, RegexLoss | src/regexpr.c | when exactly the rewriting loses a match |
| RegexWhole | src/regexpr.c | compiling what has been written down, and then matching or searching |
| RegexNotation, RegexOperators, RegexLimits | src/regexpr.c | what patterns written out character by character are read as and match, and where the fixed limits lie |
| StringQuote, RegReplace, Slashes | src/string.c, src/reg.c, src/echo.c | what is built on the regular expressions |
| Control, Recycled, ControlStacks | src/cond.c, src/switch.c, src/parse.raw | if and switch, carried out on flat stacks |
| PoolBlocks, Pools | src/pool.c | the pool allocator |
| Md5, Md5Values | src/hash.c | MD5 (RFC 1321), and its values bit by bit and for the messages of the RFC |
| FlatFile | src/db.c | the database that is a plain file |
| VarTrees, VarFrames, VarCalls, VarArrays | src/var.c | variables: search trees, frames of functions, arrays |

## How it is put together

Code that changes things in place is imperative here as well: the pattern compiler, the matcher with its failure stack,
the fast map, the stacks with their recycled nodes, the pools, the MD5 context, the file and its position, the symbol
table and the arrays are classes or methods on arrays. Each method is proved against a function or predicate on values,
and the properties are lemmas about those. Memory that the source links with pointers is a map from addresses to nodes
where the order of addresses or the aliasing of lists matters (pools, variables), and a set of objects elsewhere.

**Regular expressions.** `Matches` gives a pattern its language. The compiler's bytes are those of `Compile(re)` for the
pattern `re` that `Parse` reads, and `Parse` reads back everything that `Print` writes. Decoded, the code is a program
whose accepting paths are the matches. The matcher is a machine on that program; the rewriting of a star jump may happen
between any two of its steps, and the invariants hold for every such run. Rewriting is decided by what can come first
behind the loop, and ignores that the pattern may end there: `a*\b` on "aaab" has the empty match at 0, and the matcher
answers -1. So what the rewriting keeps is stated under `Harmless`. For a loop over one character class with any tail
without loops behind it, the places where a match is lost are characterised exactly, and so are the patterns that lose
one when the tail is a row of zero-width operators; a tail that must consume something loses nothing.

**Written out.** What the parser, the tables and the operators share with the properties above is fixed from outside as
well. In RegexNotation, RegexOperators and RegexLimits the pattern is spelled in characters, and the answer is a number or
a tree: `Returns` says that the pattern is compiled and that matching it can give this number and no other. Md5Values
does the same for the functions and constants of MD5, down to two digests; VarArrays and FlatFile for numbers in decimal
digits; Control for the fields that `case` compares; Slashes and StringQuote for the characters that are escaped.

**Failure points.** A loop whose body matches the empty string takes all 4100 failure points and ends in -2; a pattern
whose loops all consume needs `Forks + PerChar * length` of them at most, whatever is rewritten.

**Pools.** The 64-bit addresses of blocks, pool headers and memory handed out are integers, and what malloc answers is an
argument. A request for no bytes at all spoils the alignment of what follows, and this is the only one that does.

**MD5.** UINT4 is `unsigned long` in src/global.h:6; the model has the 32-bit words that RFC 1321 and the code around it
mean. `MD5Update` tests `i + 63 < inputLen` in an unsigned int, and `NoWrap` is the exact condition under which this is
right.

**Flat file.** Inserting does not look whether the key is there. The file refines a map for runs that insert absent keys
only, and the exact conditions are lemmas of their own.

**Variables.** A function that has no variables of its own, and has called another one, comes back to the variables of
the main program (src/var.c:1475-1484): it strays. Then it assigns to variables that it has not declared, and what it
declares becomes a stub among the main program's own variables, on which SetVar calls itself without end. The model keeps
all of this; `hung` marks a table in which a call does not return. `NeverStrays` says of a body that no function in it
strays, and is shown to be exactly what is needed.

## Model

| member | source | states |
|---|---|---|
| RegexWhole.CompileAndMatch | src/regexpr.c:285-1327 | for every pattern as it is written down: a result n >= 0 means that the n bytes from the position are matched; -1 means that no prefix is, if rewriting loses nothing; -2 does not occur when the loops consume and the text is short enough, whatever is rewritten |
| RegexWhole.CompileAndSearch | src/regexpr.c:285-1454 | likewise for a search through the positions from a start on: the first that matches with the end of a match there, or none if there is none |
| RegexTables.SyntaxTable | src/regexpr.c:165-181 | the three loops leave 1 at the 62 letters and digits, written out, and 0 at every other byte |
| RegexTables.WordCharacters | src/regexpr.c:176-181 | word characters are the letters of two alphabets and the ten digits, written out, and no other bytes |
| RegexNotation.MatchWritten | src/regexpr.c:285-1327 | a pattern given as its characters is compiled exactly when it can be read, and the number returned is one that is right for it |
| RegexNotation.PlainCharacter | src/regexpr.c:183-230 | for every byte but `\`, `[`, `^`, `$` and `.`, the pattern of that byte alone returns 1 exactly where the byte stands, and -1 elsewhere; `*`, `+` and `?` too, where nothing precedes them |
| RegexNotation.QuotedCharacter | src/regexpr.c:183-230 | so does every byte behind a backslash, except the digits and those behind which an operator is meant, which are listed |
| RegexNotation.AnyCharacter | src/regexpr.c:1043-1046 | `.` returns 1 at every byte but the newline, and -1 there and at the end |
| RegexNotation.WordCharacter | src/regexpr.c:176-181 | `\w` returns 1 at exactly the 62 letters and digits, written out, and `\W` at exactly the other bytes |
| RegexNotation.LineOperators | src/regexpr.c:1019-1028 | `^`, `$` and the two operators for the ends of the text return 0 exactly at the places listed |
| RegexNotation.WordOperators | src/regexpr.c:1239-1271 | `\<`, `\>`, `\b` and `\B` return 0 exactly where the word characters on both sides say so; at both ends of the text there is a boundary, with a word there or without |
| RegexNotation.RangeAdds | src/regexpr.c:620-680 | wherever it stands in a set, lo-hi adds exactly the bytes from lo to hi, and lo |
| RegexNotation.RangeReads | src/regexpr.c:620-680 | a set of one range holds exactly these bytes, and its complement all others |
| RegexNotation.RangeMatches | src/regexpr.c:620-680 | `[lo-hi]` returns 1 exactly at the bytes from lo to hi and at lo, for all lo and hi that may stand there |
| RegexNotation.ComplementMatches | src/regexpr.c:620-680 | `[^lo-hi]` returns 1 exactly at the others |
| RegexNotation.RangeBehind | src/regexpr.c:620-680 | a range behind another member, and a `-` at the end, which stands for itself |
| RegexOperators.PostfixReads | src/regexpr.c:527-555 | of two characters a postfix operator takes the last one only |
| RegexOperators.BarReads | src/regexpr.c:556-567 | an alternative reaches from one quoted bar or the beginning to the next or the end |
| RegexOperators.GroupReads | src/regexpr.c:568-598 | a group is one item for the operator behind it and takes register 1 |
| RegexOperators.MiddleReads | src/regexpr.c:502-526 | `^` and `$` in the middle stand for themselves, and a postfix operator behind them is ignored |
| RegexOperators.AroundBar | src/regexpr.c:502-526 | in front of a quoted bar `$` is the operator; behind it `^` is, and a postfix operator is a character |
| RegexOperators.InGroup | src/regexpr.c:502-526 | inside of a group `^` is the operator at the beginning and `$` at the end |
| RegexOperators.Unreadable | src/regexpr.c:743-765 | which error each of five kinds of unreadable patterns gives |
| RegexOperators.EitherMatches | src/regexpr.c:556-567 | x and y with a quoted bar between them return 1 exactly at the two bytes |
| RegexOperators.StarMatches | src/regexpr.c:1076-1199 | `x*` returns the length of the run of bytes x, on every text |
| RegexOperators.PlusMatches | src/regexpr.c:1076-1199 | so does `x+`, and -1 where there is no x |
| RegexOperators.OptMatches | src/regexpr.c:1201-1213 | `x?` returns 1 where x stands and 0 elsewhere |
| RegexOperators.CodeBytes | src/regexpr.c:331-346 | the code of `x*`, `\w` and `^x`, byte by byte |
| RegexOperators.JumpBytes | src/regexpr.c:527-598 | that of `x+`, `x?`, a choice and a group, likewise |
| RegexOperators.LeafBytes | src/regexpr.c:681-737 | and that of the operators that are one opcode, with an operand or without |
| RegexLanguage.Combined | src/regexpr.c:443-737 | what the language is for a sequence, a choice, an optional part, a plus and a group, in terms of the parts and a cut between them |
| RegexLanguage.StarIsChain | src/regexpr.c:443-737 | a star matches exactly the stretches that a chain of matches of its body leads through |
| RegexLimits.NestingLimit | src/regexpr.c:568-583 | n groups, one in the other, can be read exactly when n is less than 100 |
| RegexLimits.Registers | src/regexpr.c:568-583 | the first nine of them have the registers 1 to 9, and the others none |
| RegexLimits.BarLimit | src/regexpr.c:556-567 | n bars in a row can be read exactly when n is at most 100 |
| RegexLimits.WordStarLimit | src/regexpr.c:1201-1213 | `\w*` returns the length of the run of word characters, if that is less than 4100, and -2 exactly if it is not |
| RegexLimits.RoomIsTight | src/regexpr.c:1201-1213 | so the bound of RegexRoom.NoOverflow is reached: for this pattern it allows texts of length n exactly when n is less than 4100 |
| RegexProgram.CodeMeansPattern | src/regexpr.c:443-737 | the accepting paths through the code laid out for a pattern are exactly its matches, both ways, for every text and position |
| RegexStructure.CompiledSound | src/regexpr.c:527-598 | in compiled code every jump lands on an instruction boundary inside it, only a star jump goes back and then to the failure jump that opens its loop, and a straight loop is entered at its head only |
| RegexStructure.GroupsNest | src/regexpr.c:568-598 | reading compiled code from its beginning, start and end marks of groups come in pairs with equal registers, and the pairs nest |
| RegexCode.CompileFits | src/regexpr.c:331-346 | the bytes emitted for a pattern, with their 16-bit displacements, decode to the layout of that pattern |
| RegexCode.ShortEncodable | src/regexpr.c:331-336 | code of less than 32768 bytes has displacements that fit in 16 bits |
| RegexCode.ComplementFlips | src/regexpr.c:620-680 | complementing the bytes of a set flips the membership of every character |
| RegexCompile.InsertJump | src/regexpr.c:338-346 | the code behind the place moves up by three bytes, a jump with the given displacement stands in front of it, and nothing else changes |
| RegexCompile.ReadSetInto | src/regexpr.c:620-680 | the 32 bytes hold exactly the characters of the set that the pattern spells, with ranges and complement, or the set is not closed |
| RegexCompile.PatchPending | src/regexpr.c:464-478 | the jumps behind the alternatives that have come to their end are patched to this place, and the book-keeping says so |
| RegexLayout.PatchLast | src/regexpr.c:464-478 | storing one displacement turns an alternation still open into the code of the alternation |
| RegexLayout.LaidApply | src/regexpr.c:527-555 | the jumps of a postfix operator, put in front of code already emitted, give the code of the pattern with that operator, and all pending jumps and level starts stay right |
| RegexLayout.JumpsBelow | src/regexpr.c:464-478 | every displacement that is still to be patched lies in the code there is |
| RegexCompile.Compiler.Step | src/regexpr.c:443-737 | after each operator the code, the level starts, the pending jumps and the open registers are those of the parser's state |
| RegexCompile.Compiler.Compile | src/regexpr.c:285-737 | accepts exactly the patterns that `Parse` accepts and with the same error otherwise; the code is then that of the pattern read, and no jump is left to be patched |
| RegexPrint.RoundTrip | src/regexpr.c:443-737 | every pattern tree that can be written down is read back from its printed form |
| RegexPrint.ReadPrinted | src/regexpr.c:620-680 | every set of characters that can be written down is read back |
| RegexReread.ReadIsPrintable | src/regexpr.c:443-737 | every pattern that can be read, from any characters whatever, has the shape of one that can be written down |
| RegexReread.Reread | src/regexpr.c:443-737 | so what has been read is read again, as the same tree, from its printed form |
| RegexBacktrack.PlainMatchCorrect | src/regexpr.c:984-1314 | backtracking without any rewriting finds a match of the pattern, or there is none, unless it runs out of room |
| RegexBacktrack.MoreRoom | src/regexpr.c:1201-1213 | an answer reached without running out of failure points does not depend on how many there were |
| RegexFirst.AcceptOpens | src/regexpr.c:781-873 | each way in which the program can accept from a place begins with a character, an end or a `$` that the walk over the rewritten code sees |
| RegexFirst.DisjointForgettable | src/regexpr.c:1076-1199 | if no first character of the loop can begin what follows, then forgetting the loop's older failure point loses no match (without zero-width operators at an end that follows) |
| RegexFirst.OnlyEolHarmless | src/regexpr.c:1076-1199 | a program whose only zero-width operator is `$` loses nothing by rewriting |
| RegexMachine.StepOk | src/regexpr.c:984-1314 | every step of the matcher, on code rewritten in any allowed way, keeps that the failure point of the innermost straight loop is on top of the stack and where it was pushed |
| RegexMachine.AnswerUnique | src/regexpr.c:984-1314 | a run has one answer at most |
| RegexRuns.StepCovers | src/regexpr.c:984-1314 | no step makes anything accepted that the start does not accept |
| RegexRuns.StepAlive | src/regexpr.c:984-1314 | no step on harmless code loses the last way to accept |
| RegexRuns.StepValue | src/regexpr.c:984-1314 | a step on harmless code leaves the outcome of plain backtracking as it was |
| RegexRuns.StepCost | src/regexpr.c:984-1314 | a bound on the steps still to come falls with every step |
| RegexRuns.StepRoom | src/regexpr.c:1191-1213 | if there is room for every way from where the matcher and its failure points are, then a step does not run out of it and leaves such room, whatever has been rewritten |
| RegexRuns.EveryRun | src/regexpr.c:984-1314 | however star jumps are rewritten on the way, a run takes boundedly many steps; a length found is that of a match; if rewriting is harmless, -1 means that there is no match and the answer is that of plain backtracking; if nothing is updated, also when it is -2; if there is room for every way, it is not -2 |
| RegexMatcher.AssertionsHold | src/regexpr.c:1085-1216 | whatever has been rewritten before, a star jump leads back to a failure jump and a dummy failure jump stands in front of one, so that the assertions at lines 1085 and 1216 never fire |
| RegexMatcher.ScanLoop | src/regexpr.c:1088-1190 | the scan of a loop body allows the update exactly when the loop is straight, its first consumer is a character, a set or `.`, and nothing it accepts is in the map of what follows |
| RegexMatcher.RewriteStar | src/regexpr.c:1076-1199 | the star jump becomes a plain jump or, where that is allowed, an update jump into the body; no other instruction changes |
| RegexMatcher.StepSettled | src/regexpr.c:1076-1199 | the next step does not depend on what has been rewritten so far |
| RegexBuffer.HasAnswer | src/regexpr.c:923-1314 | for every pattern, text and position the matcher comes to an answer |
| RegexBuffer.AnswerRight | src/regexpr.c:923-1314 | and that answer is right in the sense of EveryRun |
| RegexBuffer.PatternBuffer.Compile | src/regexpr.c:285-737 | the object holds the code of the pattern that its argument spells, or nothing changes |
| RegexBuffer.PatternBuffer.Match | src/regexpr.c:923-1314 | the loop on the bytes ends and returns the one answer of the machine, and leaves code that later calls can go on with |
| RegexBuffer.PatternBuffer.CompileFastmap | src/regexpr.c:901-918 | the map, the flag for empty matches and the anchor are exact for the pattern |
| RegexBuffer.PatternBuffer.Search | src/regexpr.c:1329-1445 | returns the first position that matches; without rewriting losses, -1 means that no position does; -2 means that an attempt at the first position that did not fail ran out of failure points |
| RegexBuffer.SearchIsNaive | src/regexpr.c:1329-1445 | with the fast map, the anchor and the flag for empty matches the search returns what trying every position in turn returns |
| RegexFastmap.FastmapAux | src/regexpr.c:781-873 | the walk with its visited jumps marks only what can come first, and covers what it visits |
| RegexFastmap.DoCompileFastmap | src/regexpr.c:878-898 | a character is in the map exactly when it can come first, and the flag tells whether the end or a `$` can |
| RegexRoom.ShortEnough | src/regexpr.c:1201-1213 | a pattern whose loop bodies never match the empty text needs at most `Forks + PerChar` failure points for each character |
| RegexRoom.NoOverflow | src/regexpr.c:1201-1213 | so the matcher never answers -2 for such a pattern on a text that is short enough |
| RegexRoom.NoRunOverflows | src/regexpr.c:1201-1213 | and no run of it stops with -2, however star jumps are rewritten on the way |
| RegexRoom.EmptyLoop | src/regexpr.c:1201-1213 | backtracking into a loop whose body matches the empty text takes all the room there is, on every text and whatever follows |
| RegexRoom.EmptyStar | src/regexpr.c:1201-1213 | a star over such a body, if that has no loops itself, makes the matcher answer -2 to every text at every position |
| RegexRoom.StarOverflows | src/regexpr.c:1201-1213 | a star over a body without loops and zero-width operators answers -2, on a text that is short enough, exactly when the body matches the empty text |
| RegexRoom.NullableExactly | src/regexpr.c:1201-1213 | without zero-width operators a pattern matches the empty text at a place exactly when it can be passed without consuming |
| RegexTail.TailAnswer | src/regexpr.c:1076-1199 | an updated loop over a class takes all characters it can, and then the answer is that of plain backtracking into its tail |
| RegexTail.TailLost | src/regexpr.c:1076-1199 | for a loop over a class with a tail without loops: at a given place a match is lost exactly when the loop is updated, the tail does not match at the end of the run, and matches earlier in it |
| RegexTail.ConsumingTail | src/regexpr.c:1076-1199 | such a loop loses nothing if its tail cannot match without consuming |
| RegexLoss.LoopAnswer | src/regexpr.c:1076-1199 | an updated loop takes all characters it can, and matches exactly if the operators behind it hold there |
| RegexLoss.LostExactly | src/regexpr.c:1076-1199 | for a loop over a class and a row of zero-width operators: at a given place a match is lost exactly when the loop is updated, the row fails at the end of the run, and holds earlier in it |
| RegexLoss.LosesExactly | src/regexpr.c:1076-1199 | some text and place lose a match exactly when a condition on the class and the row holds |
| RegexLoss.OneOperator | src/regexpr.c:1076-1199 | the condition for each single operator: `$` and end of buffer never lose, the others exactly for the classes listed |
| RegexLoss.BoundaryLost | src/regexpr.c:1088-1088 | `a*\b` at 0 of "aaab" loses the empty match |
| StringQuote.QuoteMeta | src/string.c:340-364 | the two running indices fill the new string with the quoted form and its NUL, within its bounds |
| StringQuote.QuotedText | src/string.c:354-364 | quoting goes byte by byte and puts a backslash in front of exactly eight characters, written out |
| StringQuote.QuoteParses | src/string.c:354-364 | the quoted form of any string is read as the pattern of just that string |
| StringQuote.LiteralCode | src/string.c:354-364 | and compiles to one exact-character instruction for each byte |
| StringQuote.QuoteMatches | src/string.c:354-364 | the matcher's answer for it is the length of the string where it stands in the text, and -1 elsewhere, never -2 |
| RegReplace.Replace | src/reg.c:244-309 | puts together the text with the matches found cut out and replaced, and tells exactly when the rest of the text is dropped and when the buffer is overrun by a byte; the string is as before |
| RegReplace.LoopEnds | src/reg.c:269-297 | the number of rounds is bounded exactly when no place behind the beginning that the loop can arrive at has an empty match |
| RegReplace.NoEmptyMoves | src/reg.c:269-297 | it is enough that nothing behind the beginning matches the empty text |
| RegReplace.ConsumingMoves | src/reg.c:269-297 | in particular that the pattern cannot match without consuming |
| RegReplace.MovesPlainly | src/reg.c:269-297 | if rewriting loses nothing and the failure points suffice, then whether the loop ends, and whether the rest of the text is dropped, can be read from the leftmost matches alone |
| RegReplace.StarStays | src/reg.c:269-297 | with `a*` on "ab" the loop never gets on |
| RegReplace.FoundIsLeftmost | src/reg.c:269-297 | the cuts that the loop makes are the leftmost matches that do not overlap |
| Slashes.OverrunReached | src/reg.c:277-290 | replacing "a" by "bcd" in "a", whatever cuts the loop ends with, writes four bytes to the three that are allocated |
| Slashes.StoredSurvives | src/echo.c:276-331 | StripSlashes after ParseEscapes after AddSlashes gives back every string |
| Slashes.AddSlashes | src/echo.c:301-331 | the three passes of _RegReplace put a backslash in front of each backslash, `$` and `'`, and no pass overruns its buffer |
| Slashes.EscapedSnoc | src/echo.c:301-331 | escaping goes byte by byte and puts a backslash in front of exactly three characters, written out |
| Slashes.StrippedCons | src/echo.c:276-295 | stripping, pair by pair: what becomes of a backslash and the byte behind it, of any other byte, and of a backslash at the end |
| Slashes.ParsedCons | src/echo.c:364-396 | the control sequences, pair by pair, with each letter and what it stands for written out |
| Slashes.Pass | src/reg.c:244-309 | one pass with a quoted character replaces each of its occurrences and nothing else |
| Slashes.StripSlashes | src/echo.c:276-295 | the loop in one array leaves the stripped text, and the farthest byte it reads is the NUL, or the one behind it exactly when the last backslash has nothing behind it |
| Slashes.ParseEscapes | src/echo.c:364-396 | the loop in one array leaves the text with its control sequences replaced |
| Slashes.ParsedEscaped | src/echo.c:364-396 | escaped text contains no control sequence |
| Slashes.EscapedPaired | src/echo.c:276-331 | escaped text never ends in a backslash with nothing behind it |
| Control.FlatIsNested | src/parse.raw:204-255 | a well-nested program whose arms end in breaks, run by the flat actions, does what its nested form means, and all stacks end empty |
| Control.LiveProg | src/cond.c:491-562 | and that inside any code that is being carried out, with the stacks as they were |
| Control.DeadProg | src/cond.c:491-562 | in code that is skipped nothing at all happens |
| Control.SwitchIsFirst | src/switch.c:134-168 | Case does not ask whether an arm has been taken; if at most one label fits, the switch takes the first that does, or the default |
| Control.FirstExactly | src/switch.c:134-168 | for fixed labels, the switch takes the first arm that fits, whatever the bodies do, exactly when at most one label fits |
| Control.BothArms | src/switch.c:134-168 | with the same label twice the flat switch carries out both arms |
| Control.EachLeaks | src/switch.c:120-132 | when no label fits, each arm without a break leaves one frame on the condition stack |
| Control.BreaksNeeded | src/switch.c:120-132 | the condition stack ends as it began, for every value switched on, exactly when every arm ends in a break |
| Control.CaseCompares | src/switch.c:152-166 | where case compares, the arm is taken exactly when the two values agree in the field that belongs to the type of the label, whatever the other fields are |
| Control.SwitchCompares | src/switch.c:134-168 | a switch with two labels and a default, carried out flat: the arm of a string runs exactly when the strings are equal, that of an integer or a float when these are |
| Control.IfDecides | src/cond.c:491-562 | if, elseif and else, carried out flat: the first condition that is not zero decides |
| Recycled.Stack.Push | src/cond.c:143-156 | the linked stack that takes its nodes from the list of used ones gets the value on top |
| Recycled.Stack.Pop | src/cond.c:165-177 | gives the value on top and puts its node in the list of used ones |
| ControlStacks.Interpreter.Perform | src/parse.raw:204-255 | one action, on the linked stacks, is one step of the flat machine |
| ControlStacks.Execute | src/parse.raw:204-255 | so a whole program leaves the store that its nested form means |
| PoolBlocks.BlockStore.FreeBlocks | src/pool.c:267-297 | the chain goes in front of the free list, each block emptied, and no other block changes |
| PoolBlocks.BlockStore.NewBlock | src/pool.c:299-331 | the first block of the free list that is large enough is taken out of it, and otherwise a new one is made |
| PoolBlocks.FirstFits | src/pool.c:309-318 | the block taken has the bytes that are asked for, and every block in front of it has fewer |
| Pools.Allocator.MakeSubPool | src/pool.c:333-352 | a new pool hangs first among the sub-pools of its parent, in a block of its own; all else is as before |
| Pools.Allocator.Palloc | src/pool.c:374-404 | the memory comes from the last block if it fits there, and else from a block that becomes the last one |
| Pools.SizeIsLeast | src/pool.c:374-380 | a request is rounded up to the next multiple of 8; one for no bytes becomes 1 |
| Pools.Allocator.ClearPool | src/pool.c:354-361 | all pools below are gone, all blocks but the first are free, the pool is as new; the recursion ends |
| Pools.Allocator.DestroyPool | src/pool.c:363-372 | the pool and all below it are gone, its siblings and its parent are linked around it, and its blocks are free |
| Pools.InOnePlace | src/pool.c:267-372 | after any operations each block from the system is once in the free list or once in the chain of one live pool |
| Pools.NeverOverlap | src/pool.c:374-404 | memory handed out lies inside its block and apart from all other such memory, from every block header and from every pool |
| Pools.AlignedPalloc | src/pool.c:374-404 | a request for at least one byte keeps all that is handed out aligned, and a request for none does not |
| Pools.AlignedElse | src/pool.c:333-372 | the other operations keep it aligned |
| Md5.EncodeDecode | src/hash.c:347-375 | Encode undoes Decode |
| Md5.DecodeEncode | src/hash.c:347-375 | Decode undoes Encode |
| Md5.CountsAdd | src/hash.c:197-200 | the two count words hold the length in bits modulo 2^64 through every carry |
| Md5.PaddedLength | src/hash.c:228-246 | the padded message fills the fewest whole blocks that hold it, one bit more and its length |
| Md5.PaddedInjective | src/hash.c:228-246 | no two messages are padded alike |
| Md5.WrapIsExact | src/hash.c:205-214 | the test of the loop is right at every place exactly under NoWrap |
| Md5Values.FBits | src/hash.c:138-138 | bit k of F is that of y where x has a one, and that of z where it has none |
| Md5Values.GBits | src/hash.c:139-139 | bit k of G is that of x where z has a one, and that of y where it has none |
| Md5Values.HBits | src/hash.c:140-140 | bit k of H is that of z where x and y agree, and the other one where they do not |
| Md5Values.IBits | src/hash.c:141-141 | bit k of I in terms of the bits of x, y and z |
| Md5Values.RotateBits1 | src/hash.c:145-145 | rotating by the amounts of round 1 moves bit k to k plus that many, modulo 32 |
| Md5Values.RotateBits2 | src/hash.c:145-145 | likewise for round 2 |
| Md5Values.RotateBits3 | src/hash.c:145-145 | likewise for round 3 |
| Md5Values.RotateBits4 | src/hash.c:145-145 | likewise for round 4 |
| Md5Values.Constants1 | src/hash.c:264-280 | the shifts, the block indices and the sines of round 1, written out |
| Md5Values.Constants2 | src/hash.c:282-298 | those of round 2 |
| Md5Values.Constants3 | src/hash.c:300-316 | those of round 3 |
| Md5Values.Constants4 | src/hash.c:318-334 | those of round 4 |
| Md5Values.EmptyDigest | src/hash.c:174-342 | the digest of the empty message, as RFC 1321 gives it in appendix A.5 |
| Md5Values.AbcDigest | src/hash.c:174-342 | the digest of "abc", likewise |
| Md5.Context.Transform | src/hash.c:255-342 | the 64 unrolled steps are those of RFC 1321, section 3.4 |
| Md5.Context.Update | src/hash.c:188-224 | the context afterwards is that of the message with the input behind it, however the message came in |
| Md5.Context.Final | src/hash.c:228-251 | the digest is that of RFC 1321 for all input, and the context is overwritten |
| FlatFile.Unambiguous | src/db.c:579-642 | a file consists of one sequence of records only |
| FlatFile.BlockText | src/db.c:632-637 | in front of the bytes stand their number in decimal digits, without leading zeros, and a newline |
| FlatFile.OnDisk | src/db.c:632-680 | a record with two bytes of key and three of content, byte by byte, and the same record wiped |
| FlatFile.Database.WipeKey | src/db.c:649-687 | the first record that has the key is wiped |
| FlatFile.Database.FindKey | src/db.c:689-724 | a key is found exactly when some record has it, and the file then stands at the content of the first |
| FlatFile.Database.Insert | src/db.c:579-642 | one record is appended and no other byte changes |
| FlatFile.Database.Replace | src/db.c:826-884 | the first record that has the key is wiped, and one with the content and its NUL is appended |
| FlatFile.Database.Delete | src/db.c:1087-1134 | the first record that has the key is wiped |
| FlatFile.Database.Fetch | src/db.c:905-1013 | what is read for a key is what the map has for it |
| FlatFile.Database.FirstKey | src/db.c:726-758 | the key of the first record that has not been wiped |
| FlatFile.Database.NextKey | src/db.c:760-792 | the key of the next one behind the place where the enumeration stands |
| FlatFile.InsertOnce | src/db.c:631-638 | an insert keeps one record for each key exactly when the key was absent |
| FlatFile.DeleteExactly | src/db.c:1087-1134 | a deleted key is gone exactly when at most one record had it |
| FlatFile.InsertedTwice | src/db.c:631-638 | a key inserted twice and deleted is still there |
| FlatFile.Refines | src/db.c:579-1134 | after every run of replaces, deletes and inserts of absent keys the file holds what the map holds, with one record for each key |
| FlatFile.EnumeratesMap | src/db.c:726-792 | enumerating gives each key of the map once, and no other |
| FlatFile.KeyEndStays | src/db.c:760-792 | wiping and appending between two steps do not move the place where an enumeration stands |
| VarTrees.Walk | src/var.c:122-131 | the walk that compares byte by byte, beginning again at each node, finds the node with the name, or the node below which it belongs and on which side |
| VarTrees.Inserted | src/var.c:744-794 | hanging a new node there keeps the tree in lexicographic order |
| VarTrees.InorderAscends | src/var.c:1410-1459 | the nodes in order ascend by name, so each is there once |
| VarFrames.SymbolTable.Set | src/var.c:66-794 | a simple set that returns changes the variable that the name stands for, through the stub of a global one if there is one, and nothing else |
| VarFrames.SymbolTable.Get | src/var.c:802-864 | finds the value last set, or nothing after it has been unset or made inaccessible |
| VarFrames.SymbolTable.Unset | src/var.c:1538-1563 | the variable that the name stands for is gone, and nothing else changes |
| VarFrames.SymbolTable.Global | src/var.c:1487-1505 | a stub is made for each name that does not stand for anything, among the main program's variables if the function strays |
| VarFrames.SymbolTable.PushFrame | src/var.c:1463-1472 | a function begins without variables |
| VarFrames.SymbolTable.PopFrame | src/var.c:1475-1484 | the caller's variables are back, or those of the main program if the caller is a function without variables |
| VarFrames.SymbolTable.SecureVar | src/var.c:1383-1461 | the traversal with its jumps visits every node of the current tree once in the order of names, ends with an empty stack, and makes exactly the GET arguments that the pattern matches inaccessible |
| VarCalls.DeclaredExactly | src/var.c:1487-1505 | a name is a stub afterwards exactly if it was one, or is declared and had no node, not even a deleted one |
| VarCalls.DeclaredStray | src/var.c:1487-1505 | likewise for the stubs that a straying function puts among the main program's variables |
| VarCalls.NeverReturns | src/var.c:134-142 | SetVar goes on calling itself exactly when the name comes to a stub among the main program's variables while a function is being called |
| VarCalls.StrayHangs | src/var.c:1475-1505 | a function without variables that has called another one, declares a new name and assigns to it, never returns |
| VarCalls.NoStubsReturn | src/var.c:66-794 | as long as no function strays and the main program's variables hold no stub, every call returns |
| VarCalls.AlwaysProper | src/var.c:1463-1505 | after any operations, if the current tree is not that of the current function, then that function has no variables and the main program has some |
| VarCalls.StraysExactly | src/var.c:66-794 | assigning to a name not declared global leaves the main program's variables alone, for every value, exactly when the function does not stray or the call does not return |
| VarCalls.ReturnStrays | src/var.c:1475-1484 | the caller has its own variables back exactly when it has some, or the main program has none |
| VarCalls.CallKeeps | src/var.c:1463-1505 | whatever a function does, nested calls included, its caller's frames are as before; if NeverStrays holds of its body, then of the main program's variables only those change that it declares global |
| VarCalls.ExactlyDeclared | src/var.c:1463-1505 | NeverStrays holds of a body exactly when, at every moment of it and whatever is assigned next, of the main program's variables only declared ones have changed |
| VarCalls.OwnKept | src/var.c:1463-1505 | whatever is called, a function that has variables reads its own ones as before |
| VarCalls.CallerReads | src/var.c:1463-1505 | if NeverStrays holds of the body: under a name not declared global the caller reads what it read before, except exactly when it is a function without variables and the main program has a visible variable of that name |
| VarCalls.GlobalReaches | src/var.c:1487-1505 | assigning to a declared name sets the main program's variable, unless the main program has no variables: then the value is lost; and unless that variable is a stub: then the call does not return |
| VarCalls.StrayWrites | src/var.c:1475-1484 | a function without variables that has called another one assigns to the main program's variables without declaring them |
| VarCalls.ReadAssigned | src/var.c:66-794 | after an assignment that returns, its value is read under the name, and under every other name what was read before; through a stub only if the main program has variables |
| VarCalls.ReadDeleted | src/var.c:1538-1563 | after a deletion nothing is read under the name, and under every other name what was read before |
| VarCalls.ReadSecured | src/var.c:1383-1461 | after securing nothing is read exactly under the names of GET arguments that the pattern hits |
| VarCalls.DeclaredValue | src/var.c:1487-1505 | what a name that Global makes stands for is the integer 0, written out field by field |
| VarArrays.DecimalOnce | src/var.c:488-489 | indices are printed differently |
| VarArrays.DecimalWrites | src/var.c:488-489 | an index is written in the digits 0 to 9, without leading zeros, and its value in base ten is the number |
| VarArrays.WritesIsDecimal | src/var.c:488-489 | and there is no other way of writing a number so |
| VarArrays.DecimalExamples | src/var.c:488-489 | four indices, written out |
| VarArrays.Variable.Append | src/var.c:465-514 | the new item is last, next and prev lead to and fro, count and lastnode are right, and its index is the text that reads as the old length in base ten; a deleted variable begins anew |
| VarArrays.Variable.At | src/var.c:841-850 | a text that writes the number i finds item i; any other text, and a number that is too large, finds nothing |
| VarArrays.Variable.Reset | src/var.c:1038-1046 | the cursor goes before the first item, which is returned |
| VarArrays.Variable.Key | src/var.c:1060-1070 | the text that writes the number of the item that next would move to, or 0 if the cursor has left the array, or nothing on the last item |
| VarArrays.Variable.Next | src/var.c:1073-1085 | the cursor moves on by one, and nothing is returned behind the last item |
| VarArrays.Variable.Prev | src/var.c:1088-1100 | the cursor moves back by one, and nothing is returned before the first item |
| VarArrays.Variable.End | src/var.c:1048-1057 | the last item is returned and the cursor stands on the one before it |
| VarArrays.ThereAndBack | src/var.c:1038-1100 | after reset, n nexts give the n items in order and one more gives nothing; n prevs then give them backwards and one more gives nothing |
| VarArrays.AppendedComes | src/var.c:465-514 | appending during a traversal puts the item at its end, unless the traversal has left the array |
| VarArrays.AfterEnd | src/var.c:1048-1100 | after end, next gives the last item and prev the last but two |

## Left out

Regular expressions:

- register contents and what back-references match: registers are not restored on backtracking, so only the overall match means anything; the modelled patterns have no back-references
- RegexBuffer.PatternBuffer.Match: does not fill in registers, and the text is one string, not two joined; the pattern has no back-references, and its displacements fit in 16 bits, as they do in code of less than 32768 bytes
- RegexBuffer.PatternBuffer.Search: is for such patterns too
- RegexWhole.CompileAndMatch: is for such patterns too
- RegexWhole.CompileAndSearch: is for such patterns too
- RegexRuns.EveryRun: that -1 excludes a match is stated for harmless code only, because it is false otherwise; where it is false is exact for a loop over one class with a tail without loops (RegexTail.TailLost), and `Harmless` is sufficient for other patterns
- RegexRoom.EmptyStar: for a body that has loops itself only the plain backtracking is shown to run out of room (RegexRoom.EmptyLoop)
- RegexPrint.RoundTrip: is about reading only; that the bytes are those of what was read is RegexCompile.Compiler.Compile
- RegexStructure.CompiledSound: is about finished code; the insertions and patches on the way are in RegexLayout and RegexCompile
- RegexBacktrack.PlainMatchCorrect: is about code that is not rewritten, and leaves open when the room is used up; RegexRuns.EveryRun and RegexRoom.ShortEnough say more
- RegexTables.SyntaxTable: is filled at each match and not once for all
- translate tables, backward search, syntax bits other than the default, and the emacs opcodes
- a search without a fast map: every caller in this repository has one
- failing allocations, here and everywhere else

Built on them:

- Slashes.AddSlashes: does not model `freeit` and the copy back into the caller's array, and is about the configuration in which quotes are escaped
- RegReplace.Replace: requires that no round can stay where it is, because the source never returns then (RegReplace.LoopEnds), and that the pattern has no back-references; the buffer grows as a sequence, and when it is too small by a byte is an output
- RegMatch, and the replacement with registers of RegReplace in src/reg.c

Control flow:

- while, functions and include files: what they mean depends on positions in the page
- the form with braces: its stack is pushed where it is never popped (src/parse.raw:242-262)
- the flags inElseIf and inCase of the parser, and expressions that change the store
- Control.FlatIsNested: does not cover arms without a break; Control.EachLeaks says what these leave behind

Pools:

- Pools.Allocator.Palloc: what malloc answers is an argument that lies apart from all memory in use; the bytes of a pool's own structure are a stretch that nothing else touches
- the numbered pools of src/pool.c:66-150 and the string copies

MD5:

- the overwriting of local variables, and the printing of the digest as hexadecimal digits

Flat file:

- FlatFile.Database.Insert: StripSlashes, which the source applies to key and content first, is in Slashes
- FlatFile.Database.Fetch: does not model that the static result of an earlier call is returned for a key that is absent; keys are not empty and hold no NUL
- opening, locking and closing, and all other kinds of databases; one file has one enumeration

Variables:

- VarFrames.SymbolTable.Set: models the absolute set of a simple variable, when the call returns (VarCalls.NeverReturns); incrementing, joining, setting by index and copying arrays are not part of this model, nor are static variables and names that are values of variables
- VarFrames.SymbolTable.Get: environment variables and those of the web server are not part of this model
- VarFrames.SymbolTable.SecureVar: the pattern is a predicate on names; compiling and matching it are in the regular expressions
- VarArrays.Variable.Append: does not append a whole array; it is about one variable and its list; the tree it hangs in is in VarTrees
- the values of numbers as strings, and string values as numbers

Elsewhere: the parser's tables and the lexer (src/parse.c, src/lex.c), arithmetic in floating point (src/calc.c), the network,
files, mail, images, pages of information, access control, and the other databases.

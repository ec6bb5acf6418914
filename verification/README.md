# Verified model of the LeanFFI orchestrator

This project models the core of the LeanFFI orchestrator, a C++ program that drives many Lean proof servers at once,
and proves what its parts promise. `dafny verify dfyconfig.toml` checks all of it.

| component | modules | C++ files |
|---|---|---|
| JSON values, printer and parser | `JsonValues`, `JsonGrammar`, `JsonReader`, `JsonTheorems`, `JsonParser`, `JsonPrinter`, `JsonUnicode`, `JsonLayout`, `JsonLexical` | `src/json_min.h`, `src/json_min.cpp` |
| streaming SHA-256 | `Sha256Spec`, `Sha256Constants`, `Sha256Example`, `Sha256` | `src/sha256.h` |
| line protocol with a proof server | `Bridge` | `src/pantograph_bridge.cpp` |
| event log | `EventLog` | `src/logger.cpp` |
| evaluation phases 1 and 2 | `Phases` | `src/orchestrator.cpp` |
| worker pool of phase 3 | `WorkerPool` | `src/orchestrator.cpp` |
| work scheduler | `Scheduler` | `src/scheduler.cpp` |
| corpus sampler | `Sampler` | `src/corpus_sampler.cpp` |
| test generator | `Generator` | `src/ffi_generator.cpp` |
| string helpers | `Text` | `src/util.cpp` |

## How the model is built

Code that changes state keeps its form: `Parser`, `Stream`, `State`, `Logger`, `Scheduler`, `CorpusSampler` and
`Counters` are classes, and loops are loops. Each method is proved against a specification function, and what the
program promises is proved about those functions as lemmas. The two concurrent parts, `Bridge` and `WorkerPool`, are
step systems whose runs are arbitrary interleavings.

**JSON.** `JsonGrammar` declares the accepted language as derivation trees (`Yield` is the text, `Meaning` the value),
`JsonReader` gives recursive functions on the text ahead, and `JsonParser` has the position-moving parser. The chain
of results is: parser method = reader function = grammar, in both directions; and printer method = text function =
text of a derivation (`BodyOf`). So the round trip follows from the grammar theorem. `JsonLayout` and `JsonLexical`
say what texts these are in literal characters: numbers, escapes, lines and indentation, white space, names, key order. A C++ byte string is a `string`
whose characters are the bytes; every statement holds for all strings. A number is `Int(n)`, a double that holds an
integer (minus zero is `Int(0)`), or `Other(tag)`, any other double. What the C++ library does with numbers that are
not small integers, reading (`stod`) and printing (`show`), are parameters that stand for every possible library.
Integer lexemes within 2^53 are read exactly and `Int` values are printed exactly; everything else about numbers is
stated relative to those two parameters.

**SHA-256.** Bytes are `bv8`, words `bv32`. `Sha256Spec` transcribes FIPS 180-4, sections 4.1.2, 4.2.2, 5.1.1, 5.3.3
and 6.2.2. A state is abstracted to `Snapshot(h, pending, total)` and `Absorb` is the effect of `update`. `total`
wraps around at 2^64, as in the code. The transcription itself is tied down in two ways: the constants are proved to
be the roots of primes that the standard names (`Sha256Constants`), and the example "abc" of the standard is worked
through to its published hash value (`Sha256Example`), which fixes every shift distance and byte order. The
hexadecimal text is specified by reading it back (`Unhex`).

**Protocol.** A system state holds both pipes, the server's buffers and histories of requests, lines taken by the
server, replies and results. An action moves any number of bytes, so every way of splitting and merging is a run.
`requests` is in the order in which calls got the lock.

**Counting.** A phase is a sequence of turns; `Replay` applies them to the counts of the instances and the total. How
many evaluations succeed is stated as the number of tests with a good answer, at once or from the fallback.

Where the code does not do what one might expect, the exact condition is proved:

- A printed value comes back if and only if each number in it is read back from its own text
  (`JsonPrinter.ParseUndoesSerialize`); in terms of the library alone, if and only if it reads each number that is no
  integer from the very text it prints (`JsonLayout.LibraryRoundTrip`). Infinities become `null`
  (`JsonPrinter.NonFiniteIsLost`).
- Escaped code points are stored as valid UTF-8 if and only if there is no surrogate among them
  (`JsonUnicode.EscapedTextIsUtf8`).
- For items without priority `DAG_AWARE` adds one to the load in 64 bits. Its choice equals that of `LEAST_LOAD` if and
  only if the item has priority, the pool is empty, or no load is at the limit and some load is at least two below it
  (`Scheduler.DagAwareIsLeastLoad`).
- Cleaning leaves a name alone if and only if it is a valid identifier without dots (`Generator.CleanIdentFixes`). In
  `generate`, the tests that the cleaned name is valid and that the cleaned type has at most 240 characters never
  fail, so they reject nothing.

## Model

| member | source | states |
|---|---|---|
| JsonValues.EmplaceIsMapInsert | src/json_min.cpp:259 | emplacing in the key-sorted list keeps it sorted and inserts in the map, unless the key is there already |
| JsonValues.AssignIsMapUpdate | src/json_min.cpp:303-315 | `set` on a sorted list keeps it sorted and is a map update |
| JsonValues.SortedListsAreMaps | src/json_min.h:17 | a sorted member list is determined by its map, as `std::map` is |
| JsonValues.CollectKeepsFirst | src/json_min.cpp:249-266 | emplacing members in text order gives the map in which the first of several members with one key wins |
| JsonValues.CollectSorted | src/json_min.cpp:249-266 | emplacing members that are in key order only appends them |
| JsonReader.CompleteLexeme | src/json_min.cpp:207-222 | of a derivable number lexeme in front of a character that cannot go on, exactly the lexeme is consumed |
| JsonReader.CompleteChars | src/json_min.cpp:157-205 | a string literal written with any mix of plain characters and escapes is read to its quote, with its meaning |
| JsonReader.CompleteValue | src/json_min.cpp:269-281 | every derivable value, with any legal text behind it, is read in full, and reading stops exactly at its end |
| JsonTheorems.SoundLexeme | src/json_min.cpp:207-222 | what is consumed as a number is a lexeme of the grammar |
| JsonTheorems.SoundChars | src/json_min.cpp:157-205 | what is read as a string literal is derived by the grammar with that meaning |
| JsonTheorems.SoundValue | src/json_min.cpp:269-281 | whatever value is read has a derivation that spells exactly the text consumed |
| JsonTheorems.ParseIsTheGrammar | src/json_min.cpp:291-301 | a text is accepted with a value if and only if the grammar derives the text with that value |
| JsonTheorems.SpacingIsIrrelevant | src/json_min.cpp:117-123 | two spacings of the same tokens are both accepted and give the same value as no spacing at all |
| JsonTheorems.ParsedIsWellFormed | src/json_min.cpp:249-266 | every object in every parsed value is a map: strictly increasing keys |
| JsonTheorems.ObjectKeepsFirst | src/json_min.cpp:259 | the value of a derived object is the map that keeps the first of several fields with one key |
| JsonTheorems.ParseExtends | src/json_min.cpp:223 | a number library that reads more lexemes changes no value that was read before |
| JsonParser.Parser.Skip | src/json_min.cpp:117-123 | moves to the first character ahead that is not a space, tab, CR or LF |
| JsonParser.Parser.Consume | src/json_min.cpp:141-145 | skips space and consumes the character if and only if it comes next |
| JsonParser.Parser.ParseHex | src/json_min.cpp:175-185 | four hexadecimal digits give their value; anything else fails |
| JsonParser.Parser.ParseString | src/json_min.cpp:157-205 | reads a literal, or fails, exactly as the reader function says, and stops behind its quote |
| JsonParser.Parser.ParseEscape | src/json_min.cpp:163-199 | one escape adds exactly its meaning to the string; a bad one makes the literal unreadable |
| JsonParser.Parser.ParseNumber | src/json_min.cpp:207-224 | consumes the longest number lexeme and gives its number, or fails where the library does |
| JsonParser.Parser.SkipUnsigned | src/json_min.cpp:211-221 | digits, fraction and exponent are skipped to the end of the longest lexeme |
| JsonParser.Parser.ParseLiteral | src/json_min.cpp:226-232 | succeeds exactly on the given word and consumes it |
| JsonParser.Parser.ParseArray | src/json_min.cpp:234-247 | the loop returns the elements in order, or fails, as the recursive reader does |
| JsonParser.Parser.ParseObject | src/json_min.cpp:249-266 | the loop returns the members emplaced in text order, or fails, as the recursive reader does |
| JsonParser.Parser.ParseKey | src/json_min.cpp:254-258 | a key and its colon are read, or the parse fails |
| JsonParser.Parser.ParseValue | src/json_min.cpp:269-281 | terminates, and gives the value and stopping point of the reader for every text and position |
| JsonParser.ParseText | src/json_min.cpp:291-301 | `parse` gives a value exactly when one value and nothing but space is in the text |
| JsonPrinter.Stream.EmitChar | src/json_min.cpp:13-28 | appends the escape the grammar has for the character, or the character |
| JsonPrinter.Stream.EmitString | src/json_min.cpp:10-32 | appends the quoted literal of the string and changes nothing before it |
| JsonPrinter.Stream.EmitIndent | src/json_min.cpp:34-36 | appends two spaces for each level |
| JsonPrinter.Stream.EmitItems | src/json_min.cpp:62-66 | the loop appends the items with separators and indentation, as the recursive text function says, all but the closing line |
| JsonPrinter.Stream.EmitArray | src/json_min.cpp:57-78 | appends the text of a nonempty array, compact or pretty |
| JsonPrinter.Stream.EmitMembers | src/json_min.cpp:85-91 | the loop appends the members in key order with separators and indentation, all but the closing line |
| JsonPrinter.Stream.EmitObject | src/json_min.cpp:79-106 | appends the text of a nonempty object, compact or pretty |
| JsonPrinter.Stream.EmitValue | src/json_min.cpp:38-108 | appends exactly the text of the value in the chosen layout; `JsonLayout` says which text that is |
| JsonPrinter.Serialize | src/json_min.cpp:285-289 | the result is the text of the value at depth zero |
| JsonPrinter.UnitsRoundTrip | src/json_min.cpp:10-32 | every string is the meaning of its own escaped form |
| JsonPrinter.DecimalRoundTrip | src/json_min.cpp:44-45 | the decimal text of a number has that number as its value |
| JsonPrinter.IntegersAreFaithful | src/json_min.cpp:42-46 | every integer within 2^53 is printed as a lexeme that is read back as that integer |
| JsonPrinter.LayoutText | src/json_min.cpp:38-108 | every printed text, compact or pretty, is the text of a derivation |
| JsonPrinter.LayoutMeaning | src/json_min.cpp:38-108 | that derivation is legal and means the value, each number replaced by what is read for it |
| JsonPrinter.PrintedValueIsRead | src/json_min.cpp:269-281 | parsing a printed value stops at its last character, whatever legal text follows |
| JsonPrinter.ParseRereads | src/json_min.cpp:285-301 | `parse(serialize(v))` is `v` with each number replaced by what is read for its text |
| JsonPrinter.ParseUndoesSerialize | src/json_min.cpp:285-301 | for every value and both layouts, `parse(serialize(v)) == v` if and only if each number is read back from its text |
| JsonPrinter.IntegersRoundTrip | src/json_min.cpp:285-301 | values with arbitrary strings and integers within 2^53 always come back |
| JsonPrinter.NonFiniteIsLost | src/json_min.cpp:51-53 | a number printed as `null` comes back as `null` |
| JsonPrinter.CompactNoControls | src/json_min.cpp:10-108 | compact text holds no byte below 0x20, whatever is in the strings |
| JsonLayout.NumbersAsTheyAre | src/json_min.cpp:40-56 | an integer is printed as its shortest decimal, any other number as the library prints it |
| JsonLayout.LibraryRoundTrip | src/json_min.cpp:285-301 | values with integers within 2^53 and finite other numbers come back if and only if the library reads each of those from the text it prints and that text is no small integer |
| JsonLayout.EscapesAreShort | src/json_min.cpp:12-30 | no legal way to write a character without control characters is shorter than the printer's |
| JsonLayout.IndentIsSpaces | src/json_min.cpp:34-36 | a level is two spaces |
| JsonLayout.CompactArray | src/json_min.cpp:70-77 | a compact array is its items joined by commas, in brackets |
| JsonLayout.PrettyArray | src/json_min.cpp:60-69 | a pretty array has each item on a line of its own, two spaces deeper, joined by commas and line breaks |
| JsonLayout.CompactObject | src/json_min.cpp:94-104 | a compact object is its members joined by commas, in braces, each a key, a colon and a value |
| JsonLayout.PrettyObject | src/json_min.cpp:82-93 | a pretty object has each member on a line of its own, two spaces deeper, with a space behind the colon |
| JsonLexical.SkippedCharacters | src/json_min.cpp:117-123 | exactly the characters 0x20, 0x09, 0x0A and 0x0D are skipped |
| JsonLexical.ShortEscapes | src/json_min.cpp:166-198 | a literal with a short escape is accepted exactly for the eight letters, with the character code of the standard |
| JsonLexical.CaseDoesNotMatter | src/json_min.cpp:178-185 | upper-case hexadecimal digits have the values of the lower-case ones |
| JsonLexical.EitherCase | src/json_min.cpp:175-195 | every code point up to U+FFFF is read from its four digits in either case |
| JsonLexical.LiteralNames | src/json_min.cpp:276-278 | null, true and false are read and printed as themselves |
| JsonLexical.PlainString | src/json_min.cpp:10-32 | a string without special characters is printed between quotes as it is |
| JsonLexical.StandardNumbersAreAccepted | src/json_min.cpp:207-222 | every number of RFC 8259, section 6, is a lexeme |
| JsonLexical.KeysAreOrdered | src/json_min.h:17 | keys are ordered by the first character in which they differ, a proper front first |
| JsonUnicode.FourDigits | src/json_min.cpp:175-185 | every code point up to U+FFFF has four hexadecimal digits that are read as that code point |
| JsonUnicode.DecodeUndoesEncode | src/json_min.cpp:186-195 | the bytes written decode to the code points exactly when none is a surrogate, and are invalid UTF-8 otherwise |
| JsonUnicode.EscapedTextIsUtf8 | src/json_min.cpp:157-205 | a literal of four-digit escapes is parsed to the UTF-8 of its code points, which decodes to them if and only if none is a surrogate |
| Sha256Spec.ZeroCount | src/sha256.h:86-87 | the number of zero bytes is the smallest that leaves room for the length |
| Sha256Spec.Base256Value | src/sha256.h:88-89 | the length bytes, most significant first, stand for the length |
| Sha256Spec.SumReversed | src/sha256.h:41 | the four terms of a schedule word may be added in the order of the code or of the standard |
| Sha256Spec.WordBytesUndone | src/sha256.h:91-96 | the bytes written for a word are those from which the word is loaded |
| Sha256Spec.UnhexUndoesHex | src/sha256.h:99-107 | reading the hexadecimal text of bytes gives the bytes back, and all its characters are lower-case digits |
| Sha256Spec.RotrRotates | src/sha256.h:12 | what is shifted out on the right comes in on the left |
| Sha256Spec.ChChooses | src/sha256.h:47 | the first word chooses between the other two, bit by bit |
| Sha256Spec.MajIsMajority | src/sha256.h:50 | a bit is set where at least two words have it |
| Sha256Constants.RoundConstants | src/sha256.h:21-30 | the constants are the fractional parts of the cube roots of the first 64 primes |
| Sha256Constants.InitialValue | src/sha256.h:59-61 | the initial value is the fractional parts of the square roots of the first eight primes |
| Sha256Example.RunIsRounds | src/sha256.h:43-54 | rounds over a sliding window of sixteen schedule words are those of the specification |
| Sha256Example.DigestOfAbc | src/sha256.h:32-57 | the specification gives the published hash value of "abc" |
| Sha256.State.constructor | src/sha256.h:59-64 | the initial state is the initial hash value, no pending bytes and count zero |
| Sha256.State.LoadBlock | src/sha256.h:34-37 | the first 16 words are the block's, big-endian |
| Sha256.State.FillSchedule | src/sha256.h:33-42 | the array filled in place is the message schedule of the standard, all 64 words |
| Sha256.State.Roll | src/sha256.h:43-54 | the loop over rolling variables computes the 64 rounds of the standard |
| Sha256.State.AddTo | src/sha256.h:55-56 | adds the working variables to the hash value in place |
| Sha256.State.Process | src/sha256.h:32-57 | the hash array becomes the compression of the old one with the block |
| Sha256.State.Copy | src/sha256.h:70-71 | the bytes are appended behind those in the buffer |
| Sha256.State.Feed | src/sha256.h:69-78 | one turn makes progress and keeps what hash, buffer and input still to come amount to; the buffer never stays full |
| Sha256.State.Update | src/sha256.h:66-80 | the new state is the old one with the data absorbed: hash, pending bytes and count |
| Sha256.State.PadZeros | src/sha256.h:86-87 | terminates from every state, after the fewest zeros, with 0x80 and those zeros absorbed |
| Sha256.State.Finish | src/sha256.h:82-97 | writes the hash of everything absorbed and its padding with the bit count from before padding; the buffer ends empty |
| Sha256.State.WriteOut | src/sha256.h:90-96 | writes the bytes of the hash value, big-endian |
| Sha256.LengthBytes | src/sha256.h:88-89 | the shifts give the eight big-endian bytes of the length |
| Sha256.HexOf | src/sha256.h:99-107 | lower-case digits that spell the bytes: two for each, the first with weight 16 |
| Sha256.HashOf | src/sha256.h:109-115 | lower-case digits that spell the digest of FIPS 180-4 for messages below 2^61 bytes; for longer ones the same with the bit length modulo 2^64 |
| Sha256.AbsorbAppend | src/sha256.h:66-80 | two updates are one update with both pieces |
| Sha256.ChunksDoNotMatter | src/sha256.h:66-80 | every way of cutting a message into chunks gives the same state as one update |
| Sha256.InputIsHeld | src/sha256.h:66-80 | the blocks folded into the hash followed by the pending bytes are exactly the input so far |
| Sha256.DrainIsFold | src/sha256.h:69-78 | consuming bytes through the buffer is the fold over whole blocks, the remainder kept |
| Sha256.FinishedByUpdates | src/sha256.h:82-90 | the updates made while finishing end with an empty buffer and the hash of message and padding |
| Sha256.FinishedIsFold | src/sha256.h:82-97 | finishing after a whole message folds the padded message from the initial value |
| Text.SplitOf | src/util.cpp:280-289 | the loop computes the recursive split |
| Text.JoinUndoesSplit | src/util.cpp:280-298 | joining the pieces gives the text back, and no piece holds the separator |
| Text.SplitUndoesJoin | src/util.cpp:280-298 | pieces without separator are found again by splitting what they join to |
| Text.SplitLine | src/util.cpp:280-289 | a line, a separator and a rest split into the line and the pieces of the rest |
| Text.JoinOf | src/util.cpp:291-298 | the loop computes the recursive join |
| Text.TrimTrims | src/util.cpp:273-278 | trimming removes only space at the ends and leaves none there |
| Text.TrimmedIsUnique | src/util.cpp:273-278 | only one text satisfies that |
| Text.TrimOf | src/util.cpp:273-278 | the two index loops compute it |
| EventLog.Logger.Init | src/logger.cpp:12-20 | names the file after the session and empties it |
| EventLog.Logger.Append | src/logger.cpp:22-44 | the file stays the text of all events so far, in order, and nothing is logged before `init` |
| EventLog.SetIsMapUpdate | src/json_min.cpp:303-315 | `set` changes exactly one key of an object and keeps it printable; anything else becomes an object first |
| EventLog.EventFields | src/logger.cpp:28-36 | each argument of an event is found under its own key, named literally |
| EventLog.OneLine | src/logger.cpp:37 | a logged event has no line break and parses to its object |
| EventLog.LogIsRecovered | src/logger.cpp:22-44 | splitting the log at line breaks gives one piece for each event and an empty last one, and parsing gives the events back in order |
| EventLog.EventsAreDistinguished | src/logger.cpp:28-36 | different events or sessions never give the same object |
| Bridge.RequestIsOneLine | src/pantograph_bridge.cpp:173-177 | a serialized envelope has no line break, and parses to command, payload and sequence number |
| Bridge.FrontOfLine | src/pantograph_bridge.cpp:149-154 | a break is seen exactly when the whole line has arrived, and nothing is behind it |
| Bridge.StepKeepsInvariant | src/pantograph_bridge.cpp:138-204 | every step of client, server and pipes keeps the invariant on bytes under way |
| Bridge.RunKeepsInvariant | src/pantograph_bridge.cpp:138-204 | so does every run |
| Bridge.Delivery | src/pantograph_bridge.cpp:166-204 | in every run the server decodes exactly the envelopes sent, call k gets reply k, the start reads the greeting, and no reply byte is thrown away |
| Bridge.NeverStuck | src/pantograph_bridge.cpp:179-200 | during a call some party can always act |
| Bridge.StepsAreUsedUp | src/pantograph_bridge.cpp:179-200 | every step of a call answers its request or brings bytes nearer to their end, so no run of a call is endless |
| Bridge.CallCompletes | src/pantograph_bridge.cpp:179-200 | from every reachable state the call under way can be completed |
| Bridge.SuccessIsNoError | src/pantograph_bridge.cpp:203-219 | a call succeeds with a value if and only if the line parses to it and it has no error member |
| Bridge.UnparsableFails | src/pantograph_bridge.cpp:204-207 | an unparsable line fails the call, with at most its first 200 characters in the message |
| Bridge.ErrorFails | src/pantograph_bridge.cpp:209-217 | an error member fails the call, with error, colon and description in the message; an error that is no string gives an empty message; `call` throws exactly if the error is a string and the description is not |
| Bridge.TakeReply | src/pantograph_bridge.cpp:203-219 | the branches of `call` on its reply line give that result |
| Bridge.ReplyIsReturned | src/pantograph_bridge.cpp:203-219 | a printed reply is returned as it is if and only if it has no error member; error and description strings become the message in that order |
| Bridge.ReadOneLine | src/pantograph_bridge.cpp:138-164 | for every sequence of reads the line is what precedes the first break, returned as soon as the break arrives; what is lost is what came behind it; no failed read is passed over |
| Bridge.WriteAll | src/pantograph_bridge.cpp:181-188 | exactly the bytes that the writes have taken are written, a front of the line, all of it unless a write fails; no write follows a failed one or the last byte |
| WorkerPool.StepKeepsBalance | src/orchestrator.cpp:84-118 | every step of any thread changes counters, total and workers between increments in balance |
| WorkerPool.RunKeepsBalance | src/orchestrator.cpp:84-118 | so does every interleaving |
| WorkerPool.CountersAddUp | src/orchestrator.cpp:374-401 | the instance counters exceed the total by the workers between their increments, and equal it after the join |
| WorkerPool.OutcomesAreCounted | src/orchestrator.cpp:114-115 | over every interleaving an instance's evaluations are its successful calls and its errors the failed ones |
| WorkerPool.AllOutcomesAreCounted | src/orchestrator.cpp:114-115 | so over the pool |
| WorkerPool.NoneStopsEarly | src/orchestrator.cpp:87 | no worker finishes before the flag goes up |
| WorkerPool.StepAfterStop | src/orchestrator.cpp:87-117 | with the flag up, total plus workers inside an evaluation is constant and each worker step uses up one of its last steps |
| WorkerPool.RunAfterStop | src/orchestrator.cpp:87-117 | the same over whole runs, with the number of worker steps counted exactly |
| WorkerPool.OvershootIsBounded | src/orchestrator.cpp:395-400 | the final total is the total at the stop plus the workers inside an evaluation then, so at most one more for each worker |
| WorkerPool.WorkersFinish | src/orchestrator.cpp:87-117 | after the stop at most three steps are left for each worker, and taking them all is the same as all being finished |
| WorkerPool.SomeWorkerCanMove | src/orchestrator.cpp:87-117 | a pool with an unfinished worker can take a worker step |
| Phases.Counters.Count | src/orchestrator.cpp:254-256 | one evaluation is counted on its instance, as success or error, and on the total, and nowhere else |
| Phases.DrawNext | src/orchestrator.cpp:205-207 | a turn draws the next file of the accumulate-and-avoid loop and remembers its hash |
| Phases.Phase1 | src/orchestrator.cpp:200-265 | at most 64 draws; the counts are those of the turns before the first without a live instance; the success count is the number of their good answers |
| Phases.RunTests | src/orchestrator.cpp:306-341 | the successes are as many as the tests that pass at once or with the fallback, the errors as many as those that fail both; kernel counts and local counts agree |
| Phases.RunTurn | src/orchestrator.cpp:280-341 | the tests of a file, or the trivial one, are counted on the instance of the turn |
| Phases.Phase2 | src/orchestrator.cpp:270-367 | at most 48 draws; the counts are those of the turns before the first without a live instance; all four sums are the numbers of their good and bad tests |
| Phases.LiveFrontStops | src/orchestrator.cpp:209-213 | the turns that take place are those before the first one that finds no live instance |
| Phases.TurnIsCounted | src/orchestrator.cpp:284-341 | what one turn counts: an attempt or a file without tests is one evaluation; a test is an error only if both answers fail |
| Phases.PassedIsCount | src/orchestrator.cpp:306-341 | successes and errors of a phase are the numbers of good and bad answers in all its turns |
| Phases.ReplayShares | src/orchestrator.cpp:254-256 | every instance gets exactly what its own turns add up to |
| Phases.ReplayKeepsBalance | src/orchestrator.cpp:338-340 | the sum over the instances equals the total after a phase if and only if it did before |
| Phases.ReplayTotal | src/orchestrator.cpp:338-340 | the total grows by all successes and errors of the turns |
| Phases.StartsBalanced | src/orchestrator.cpp:254-256 | counters that start at zero are balanced |
| Scheduler.Scheduler.Submit | src/scheduler.cpp:22-26 | the item goes to the end of the queue, with the time if it had none; nothing else changes |
| Scheduler.Scheduler.Pending | src/scheduler.cpp:28-31 | the number of items in the queue |
| Scheduler.StampedIs | src/scheduler.cpp:24 | submitting changes nothing of an item but its time, and that only if it had none |
| Scheduler.Scheduler.TryAssign | src/scheduler.cpp:33-78 | queue, cursor, count and result are those of the step function, for every policy and with or without a pool; the rows on the policies say which |
| Scheduler.Find | src/scheduler.cpp:41-46 | an explicit instance is kept if it is in the pool, and becomes -1 otherwise |
| Scheduler.Scan | src/scheduler.cpp:55-71 | the argmin loop chooses the first instance with the least load, or -1 if no load is below the limit |
| Scheduler.ChosenIsUnique | src/scheduler.cpp:55-71 | that determines the choice |
| Scheduler.ExplicitIsKept | src/scheduler.cpp:41-46 | an item with an instance is returned with it if the pool has it, with -1 otherwise; the cursor stays |
| Scheduler.RoundRobinTakesCursor | src/scheduler.cpp:49-52 | ROUND_ROBIN takes the instance under the cursor, modulo the size of the pool, and moves on by one |
| Scheduler.LeastLoadTakesFirst | src/scheduler.cpp:55-61 | on every pool LEAST_LOAD takes the first instance with the least load, and none if all loads are at the limit |
| Scheduler.DagAwareTakesFirst | src/scheduler.cpp:63-71 | the same for DAG_AWARE, with the lower limit for items without priority, and the wrapped load first |
| Scheduler.DagAwareIsLeastLoad | src/scheduler.cpp:55-71 | the exact condition under which both policies choose the same instance, with the wrap-around of the addition |
| Scheduler.RunsAgree | src/scheduler.cpp:55-71 | whole runs under both policies with the same loads, below the limit by two, are the same |
| Scheduler.QueueIsConserved | src/scheduler.cpp:22-78 | over every run, items submitted are in order items popped and then items queued; popped items change only their instance; the count is that of returned items; an item is dropped only if unassigned, under round-robin, with an empty pool |
| Scheduler.ServedInTurn | src/scheduler.cpp:47-62 | on evenly dealt loads both LEAST_LOAD and ROUND_ROBIN serve a queue of any length in turn and keep the loads evenly dealt |
| Scheduler.LeastLoadIsRoundRobin | src/scheduler.cpp:47-62 | from zero loads LEAST_LOAD picks the same instances as ROUND_ROBIN, and loads never differ by more than one |
| Sampler.Contains | src/corpus_sampler.cpp:65 | the search loop decides whether the hash is on the list |
| Sampler.CorpusSampler.Partition | src/corpus_sampler.cpp:61-68 | the two lists are the positions off and on the avoid list, in order |
| Sampler.CorpusSampler.Sample | src/corpus_sampler.cpp:58-73 | no file from an empty corpus, otherwise the pick for the next random number, of which one is used |
| Sampler.CandidatesAre | src/corpus_sampler.cpp:60-71 | a nonempty corpus always has candidates, and they are off the avoid list as long as any file is |
| Sampler.PickIs | src/corpus_sampler.cpp:69-72 | for every random number the file is one of the corpus, and off the list as long as any file is |
| Sampler.RandomChooses | src/corpus_sampler.cpp:69-72 | the file with k eligible files before it is drawn for every random number with remainder k |
| Sampler.EveryFileCanBeDrawn | src/corpus_sampler.cpp:69-72 | every eligible file is drawn for some random number |
| Sampler.DrawsAreFiles | src/orchestrator.cpp:204-207 | every draw, also after all hashes were drawn, is a corpus file |
| Sampler.FirstDrawsAreDistinct | src/orchestrator.cpp:204-207 | under every random stream as many first draws differ pairwise as there are different hashes |
| Sampler.FirstDrawsHitAll | src/orchestrator.cpp:204-207 | those draws hit every hash exactly once |
| Generator.IsValidIdent | src/ffi_generator.cpp:9-16 | decides whether the name starts with a letter or underscore and holds only allowed characters |
| Generator.CleanIdentOf | src/ffi_generator.cpp:18-28 | the loop keeps, replaces and drops characters as the specification says |
| Generator.CleanIdentIsValid | src/ffi_generator.cpp:18-28 | every cleaned name is a valid identifier, so `generate` rejects none for that |
| Generator.CleanIdentFixes | src/ffi_generator.cpp:18-28 | exactly the valid identifiers without dots are left alone |
| Generator.CleanIdentMerges | src/ffi_generator.cpp:18-28 | cleaning is not injective |
| Generator.CleanIdentDrops | src/ffi_generator.cpp:21-24 | any other character than letters, digits, underscores, spaces and tabs vanishes, wherever it stands |
| Generator.CleanIdentReplaces | src/ffi_generator.cpp:18-28 | spaces and tabs become underscores, a leading digit gets one in front, and an empty name becomes the fallback |
| Generator.CleanTypeOf | src/ffi_generator.cpp:30-46 | the loop computes the first 240 characters of the words joined by single spaces |
| Generator.WordsAreWords | src/ffi_generator.cpp:35-42 | the words are nonempty and free of space |
| Generator.WordsHoldTheText | src/ffi_generator.cpp:35-42 | together they are the characters that are not space, in order |
| Generator.WordsInText | src/ffi_generator.cpp:35-42 | only space stands around the words and some between any two, so they are the maximal ones |
| Generator.JoinedNext | src/ffi_generator.cpp:34-42 | each further character extends the joined words as the loop writes them |
| Generator.StripOf | src/ffi_generator.cpp:75-77 | removes trailing commas, semicolons and space |
| Generator.CoreIsUnique | src/ffi_generator.cpp:75-77 | the stripped proof is the one front that ends in no such character and is followed by such only |
| Generator.TypeIs | src/ffi_generator.cpp:79-87 | trimming does not change the words; binders in brackets lose them, empty ones vanish, others are kept |
| Generator.CandidateIs | src/ffi_generator.cpp:71-106 | which declarations become tests, and which tests |
| Generator.Examine | src/ffi_generator.cpp:71-106 | for every declaration: whether it becomes a test (its type has a word, its stripped proof is accepted), and its kind, name and type: the first 240 characters of the joined words of `forall`, the unwrapped binders and the type |
| Generator.FirstsCover | src/ffi_generator.cpp:62-72 | of several acceptable matches with one cleaned name, one is taken |
| Generator.SelectedAreGood | src/ffi_generator.cpp:62-106 | for every sequence of matches the tests come from acceptable ones, with valid and pairwise different names, nonempty types of at most 240 characters and the fixed proof; and no acceptable name is missing |
| Generator.SelectTests | src/ffi_generator.cpp:62-106 | the loop with its set of seen names returns the first candidate of each name, up to the limit |
| Generator.Generate | src/ffi_generator.cpp:52-107 | the result is the first tests of the file, as many as the limit allows, and satisfies the above |

## Left out

- JsonPrinter.ParseUndoesSerialize: how the C++ library prints fractions with 15 digits and reads them is a parameter, so which fractions survive is not decided here; integers of 2^63 and more, whose conversion is undefined in C++, are not `Int` values.
- JsonTheorems.ParseIsTheGrammar: the depth of the call stack is not modelled; C++ error texts and positions are reduced to "no value", because `parse` drops them; `peek`, `get` and `set_arr` are omitted.
- JsonUnicode.EscapedTextIsUtf8: surrogate pairs are not combined, because the parser does not combine them.
- EventLog.LogIsRecovered: the extra payload holds integers only, appending is assumed to succeed, and timestamps are inputs.
- Bridge.Delivery: assumes no timeouts, write errors or crashes, and one line without breaks for each request; after a timeout a late reply would be read by the next call. Sequence numbers are taken before the lock, so only lock order is claimed.
- Bridge.TakeReply: durations, raw lines, the parsed reply kept beside an error message, and the warning about a dead process are omitted.
- WorkerPool.CountersAddUp: counters are natural numbers, without wrap-around at 2^64; what a worker asks its server is not modelled, only that the call returns.
- WorkerPool.OvershootIsBounded: the main thread may raise the flag at any time, which covers both the target and the deadline.
- Phases.Phase1: which instance is alive and whether any strategy succeeds are inputs; evidence files and log events are omitted.
- Phases.Phase2: the answers of the server to tests and fallbacks are inputs.
- Scheduler.Scheduler.TryAssign: loads do not change during one scan, and the round-robin cursor and the assignment count are natural numbers.
- Scheduler.RunsAgree: needs every load at least two below the 64-bit limit; the exact condition for one choice is `DagAwareIsLeastLoad`.
- Sampler.CorpusSampler.Sample: the quality of the random generator is not modelled; it is an arbitrary stream.
- Generator.Generate: the matches of the regular expression are inputs.
- Generator.CleanTypeOf: a type cut off at 240 characters may end in a space, as in the code.
- Process creation, pipes, signals, `waitpid` and the file system: foreign calls.
- Locks and atomics: a locked section is one step or one method call; memory ordering is not modelled.
- The corpus walk and its sorting, evidence, snapshots, restore and fork, the validation checks, the command line and the reports: input and output, or easy facts.
- Security claims about SHA-256: only agreement with the standard is proved.

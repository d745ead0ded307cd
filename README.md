# A verified model of a JavaScript Turing machine emulator

This project models the core of `jsturing.js`, a browser emulator for a
one-tape deterministic Turing machine, in Dafny. It covers three parts:

- **The tape** (`tape.dfy`, module `TuringTape`). The tape is a character
  buffer (`sTape`) plus the logical position of its first cell
  (`nTapeOffset`). Any cell outside the buffer reads as the blank `_`, and a
  stored space also reads as `_`. `GetTapeSymbol` reads a buffer index. The
  pure function `Tape.Write` states what `SetTapeSymbol` does to buffer and
  offset:
  - inside the buffer it overwrites the cell in place;
  - left or right of the buffer, a non-blank symbol grows the buffer,
    padded with `_` built by `repeat`;
  - outside the buffer, a blank changes nothing.
- **The program compiler** (`program.dfy`, module `TuringProgram`).
  - `ParseLine` cuts a line at its first `;` and splits the rest at runs of
    spaces and tabs, with the same empty leading and trailing tokens as
    JavaScript's `split(/[ \t]+/)`. It returns a 5-tuple only when at least
    five tokens exist and the first five are all non-empty.
  - `Compiled` is the specification of `Compile`. It removes every `\r`,
    splits the text at `\n` and stores each parsed line in the two-level
    map state → symbol → rule. A later line with the same key replaces the
    earlier rule.
- **The execution engine** (`machine.dfy`, module `TuringMachine`).
  - `Lookup` is the four-level wildcard precedence.
  - `Transition` is one `Step` as a function of the configuration (tape,
    head, state, step count).
  - `Batch` is the batching rule of `Run`.
  - The class `Machine` holds the emulator's globals as fields (`tape`,
    `offset`, `head`, `state`, `steps`, `program`). Its methods
    `SetTapeSymbol`, `Step`, `Run`, `Reset` and `Compile` update those
    fields in place. Each method is proved equal to the function that
    specifies it, and the lemmas state what those functions guarantee.

A few behaviours of the code are easy to misread, and the model keeps each
of them as written:
- `r`, `R` and `>` move the head right and `l` and `L` move it left. `<`
  does not move the head, because the second test at `jsturing.js:68-69`
  compares with `>` again (`Move`, `MoveMapping`).
- A rule's `sourceLineNumber` is the 0-based index of its line
  (`jsturing.js:303`, `jsturing.js:316`).
- Nothing keeps the buffer free of blanks at its ends. An in-place write
  of `_` (`jsturing.js:172-173`) and the initial string given to `Reset`
  (`jsturing.js:142`) can both leave one there, so the model states no such
  invariant.
- A comment starts at the first `;` of the line (`jsturing.js:326`). There
  is no escape for `;`.

## Model

| member | source | states |
|---|---|---|
| TuringTape.Normalize | jsturing.js:171 | a space becomes the blank `_`; every other symbol is kept; the result is never a space |
| TuringTape.Repeated | jsturing.js:355-360 | `repeat(c, n)` has length `n` when `n > 0` and is empty otherwise, and every character is `c` |
| TuringTape.Repeat | jsturing.js:355-360 | the decrementing `while` loop builds exactly `Repeated(c, n)`, so the padding is `n` copies of `c`, or empty when `n <= 0` |
| TuringTape.GetTapeSymbol | jsturing.js:155-164 | a buffer index outside `[0, |sTape|)` reads `_`; a stored space reads `_`; any other stored symbol reads as itself; the result is never a space |
| TuringTape.Tape.Cell | jsturing.js:45-46 | the symbol at a logical position is never a space and is `_` outside the buffer; with ReadAfterWrite and WriteFrame it is the observation that tape writes are stated against |
| TuringTape.Tape.Write | jsturing.js:167-183 | writing never shrinks the buffer |
| TuringTape.ReadAfterWrite | jsturing.js:167-183 | after writing `c` at logical position `pos`, reading `pos` gives `c`, with a space read as `_` |
| TuringTape.WriteFrame | jsturing.js:167-183 | a write leaves every other logical cell reading as before, at any offset, including when the buffer grows left |
| TuringTape.WriteBuffer | jsturing.js:172-182 | in range: same length and offset, cell overwritten, every other stored cell unchanged. Outside with a blank: buffer and offset unchanged. Left of the buffer (`n < 0`): the symbol, `-1-n` blanks, then the old buffer, with the offset moved by `n`. Right of it: the old buffer, blanks, then the symbol, with length `n+1` |
| TuringProgram.IndexOf | jsturing.js:326 | the result is the first position of the character, or the length when it is absent |
| TuringProgram.BeforeComment | jsturing.js:326 | the kept text has no `;`. It is the whole line, or it is followed in the line by the line's first `;` |
| TuringProgram.BeforeCommentAfter | jsturing.js:326 | a prefix without `;` is kept whole and the cut happens in what follows |
| TuringProgram.Tokens | jsturing.js:329 | the split always yields at least one token |
| TuringProgram.TokensSepFree | jsturing.js:329 | no token contains a space or a tab |
| TuringProgram.TokensAvoid | jsturing.js:329 | a character absent from the text is absent from every token |
| TuringProgram.TokensEnds | jsturing.js:329 | the first token is empty exactly when the text is empty or starts with a space or tab. The last is empty exactly when the text is empty or ends with one. There is one token exactly when the text has no separator |
| TuringProgram.TokensInterior | jsturing.js:329 | only the first and the last token can be empty |
| TuringProgram.TokensPrefix | jsturing.js:329 | a separator-free word in front of a text becomes part of that text's first token |
| TuringProgram.TokensWordSpace | jsturing.js:329 | a word, one space and a text that starts with a non-separator split into the word followed by that text's tokens |
| TuringProgram.TokensOfJoin | jsturing.js:329 | splitting non-empty separator-free words joined by single spaces gives the words back; text that follows after a separator only adds tokens at the end |
| TuringProgram.JoinWords | jsturing.js:329 | the joined text starts with the first word |
| TuringProgram.JoinWordsAvoids | jsturing.js:329 | joining words adds no character other than a space |
| TuringProgram.ParseLine | jsturing.js:322-352 | an accepted line has non-empty current and new state names; ParseLineWellFormed, ParseLineAcceptance, ParseLineOfWords and ParseLineRunLikeSpace state the rest of its meaning |
| TuringProgram.ParseLineWellFormed | jsturing.js:322-352 | an accepted line yields a well-formed tuple: state names are non-empty, and no field contains a space, a tab or `;` |
| TuringProgram.ParseLineAcceptance | jsturing.js:335-342 | a line is accepted exactly when its text before `;` does not start with a space or tab, has at least five tokens, and when it has exactly five does not end with a separator. So blank lines, lines with leading whitespace and lines with fewer than five words give null |
| TuringProgram.ParseLineRoundTrip | jsturing.js:344-351 | parsing the canonical text of a well-formed tuple (single spaces, one-character fields 1-3) returns the tuple, whatever comment or extra tokens follow |
| TuringProgram.ParseLineOfWords | jsturing.js:322-352 | a line of five or more non-empty words without separators or `;`, joined by single spaces and followed by nothing, a comment or a separator, parses to words 0 and 4 whole and the FIRST CHARACTER of words 1-3, of any length; words after the fifth are ignored |
| TuringProgram.TokensRun | jsturing.js:329 | a non-empty run of spaces and tabs before a word or the end of the text splits off exactly one empty token |
| TuringProgram.TokensRunLikeSpace | jsturing.js:329 | anywhere in a text, a run of spaces and tabs followed by a word or the end splits exactly like one space |
| TuringProgram.ParseLineRunLikeSpace | jsturing.js:326-329 | in a line, a run of spaces and tabs before a word, a comment or the end parses exactly like one space; with ParseLineOfWords this covers fields separated by tabs or by several separators |
| TuringProgram.StripCR | jsturing.js:300 | no `\r` remains, the text does not grow, and a text without `\r` is unchanged |
| TuringProgram.StripCRAppend | jsturing.js:300 | removing `\r` from a concatenation removes it from each part |
| TuringProgram.StripCRChar | jsturing.js:300 | each `\r` is dropped and every other character is kept in its place, so the result is the text with its `\r`s filtered out |
| TuringProgram.CompiledIgnoresCR | jsturing.js:298-302 | inserting a `\r` anywhere in the source leaves the compiled program unchanged, so `\r\n` line ends compile like `\n` |
| TuringProgram.SplitLines | jsturing.js:302 | there is at least one line and no line contains `\n` |
| TuringProgram.SplitLinesRoundTrip | jsturing.js:302 | joining the lines with `\n` gives back the text |
| TuringProgram.SplitLinesPrefix | jsturing.js:302 | a newline-free prefix becomes part of the first line |
| TuringProgram.JoinLinesRoundTrip | jsturing.js:302 | splitting newline-free lines joined with `\n` gives back the lines |
| TuringProgram.CompileLastWins | jsturing.js:303-316 | a (state, symbol) key is in the program exactly when some line defines it. The stored rule is the one from the LAST such line, with that line's 0-based index as `sourceLineNumber` |
| TuringProgram.CompileRedefinition | jsturing.js:309-316 | two well-formed lines with the same key, in canonical form, compile to a program holding only the second line's rule, numbered 1; CompileLastWins gives the general case |
| TuringProgram.Install | jsturing.js:309-316 | storing a line's rule puts `Rule(newSymbol, action, newState, line)` under its (state, symbol) key, adds that state and symbol to the keys, losing none, adds no other state or symbol to any row, and leaves every other stored rule unchanged |
| TuringProgram.CompilePrefix | jsturing.js:303-316 | the program after the first `k` lines; CompilePrefixNext and CompileLastWins state its meaning (last definition wins, with its 0-based line index) |
| TuringProgram.Compiled | jsturing.js:298-316 | the program compiled from a source text; Machine.Compile is proved to produce it, and CompileLastWins, CompileRedefinition and CompiledIgnoresCR state its meaning |
| TuringProgram.CompilePrefixNext | jsturing.js:303-316 | compiling one more line leaves the program unchanged when the line does not parse, and otherwise stores that line's rule under its key with the line's index |
| TuringProgram.CompileTwice | jsturing.js:309-316 | two parsed rules for the same key leave only the second rule, numbered 1 |
| TuringProgram.TwoLines | jsturing.js:300-302 | two lines without `\r` or `\n`, joined by a newline, split back into exactly those two lines |
| TuringProgram.InstallReplaces | jsturing.js:312-316 | storing a rule under a key that already holds the only rule replaces it |
| TuringMachine.Lookup | jsturing.js:50-63 | a rule under the exact (state, symbol) key is always the one used, and a catch-all (`*`, `*`) rule guarantees some rule is found; LookupPrecedence states the full order |
| TuringMachine.Transition | jsturing.js:35-98 | a step that reports it continues never ends in `halt`; TransitionHalted, TransitionContinues, TransitionNoRule and TransitionApplies state the rest of one step |
| TuringMachine.Batch | jsturing.js:104-117 | a batch never calls more steps than its budget; BatchCounts, BatchStopped, BatchExtend and SingleBatch state the rest |
| TuringMachine.Move | jsturing.js:68-69 | a step moves the head by -1, 0 or +1 |
| TuringMachine.MoveMapping | jsturing.js:68-69 | `r`, `R`, `>` move right. `l`, `L` move left. Any other character stays, and so does `<` |
| TuringMachine.LookupPrecedence | jsturing.js:50-63 | the rule used is the one under the first key, in the order (state, symbol), (state, `*`), (`*`, symbol), (`*`, `*`), that has a rule. There is none exactly when no key has one |
| TuringMachine.TransitionHalted | jsturing.js:37-41 | a step in state `halt` returns false and changes nothing |
| TuringMachine.TransitionContinues | jsturing.js:82-97 | a step returns true exactly when the new state is not `halt`. From any other state it adds exactly one to the step count |
| TuringMachine.TransitionNoRule | jsturing.js:71-79 | with no matching rule the machine halts in place: the cell keeps its symbol, every cell reads as before, the head stays, and the step returns false |
| TuringMachine.TransitionApplies | jsturing.js:65-70 | with a rule, the cell under the head gets the rule's symbol, or keeps its own when the rule says `*`, and every other cell is kept. The head moves by the action. The state becomes the rule's, or stays when the rule says `*` |
| TuringMachine.BatchCounts | jsturing.js:104-111 | a full-speed batch calls 1 to 25 steps. It reschedules only when all of them continued, and otherwise ends in `halt`. From a running machine the step count grows by the number of calls; from a halted one the batch changes nothing |
| TuringMachine.BatchStopped | jsturing.js:107-109 | once a step returns false, further budget runs no more steps |
| TuringMachine.BatchExtend | jsturing.js:107-109 | each loop round after a continuing step runs exactly one more step |
| TuringMachine.SingleBatch | jsturing.js:113-116 | normal speed runs exactly one step and reschedules exactly when it continues |
| TuringMachine.RunScenario | jsturing.js:35-117 | with the rules `0 1 0 r 1` and `1 _ 1 l halt` on tape "1", one full-speed call makes two steps. The tape then reads "01", the head is at 0, the state is `halt` and nothing is rescheduled |
| TuringMachine.Machine.constructor | jsturing.js:21-28 | the initial globals: tape "0110110", offset, head and steps 0, state "0", empty program |
| TuringMachine.Machine.SetTapeSymbol | jsturing.js:167-183 | the new buffer and offset are `Tape.Write` of the old ones |
| TuringMachine.Machine.Step | jsturing.js:35-98 | the new configuration and the result are `Transition` of the old configuration under the program; the program is unchanged |
| TuringMachine.Machine.Run | jsturing.js:102-118 | the new configuration and the reschedule flag are a `Batch` of 25 steps at full speed, or of 1 otherwise |
| TuringMachine.Machine.Reset | jsturing.js:139-151 | the tape is the given string; offset, head and step count are 0; the state is "0"; the program is compiled from the given text |
| TuringMachine.Machine.Compile | jsturing.js:294-320 | the program is `Compiled(source)`, whatever the old program was |

## Left out

- Rendering and status output are not modelled (`RenderTape`, `RenderState`, `RenderSteps`, `UpdateStatusMessage`, `UpdateInterface`, `debug`, `ClearDebug`). They are display only, so their calls inside `Step`, `Compile` and `Run` are treated as doing nothing. The redefinition warning, the no-rule message and the halted-state warning are therefore not modelled.
- Buttons and their enabling are user interface and are not modelled (`EnableButtons`, `StepButton`, `RunButton`, `StopButton`, `ResetButton`, `SpeedCheckbox`, `ClickTape`, `EditTape`).
- `LoadProgram` is not modelled: it is an asynchronous network request, plus a regular expression for `$INITIAL_TAPE`.
- Timers are host scheduling and are not modelled (`setTimeout`, `clearInterval`, `StopTimer`, `RunStep`, `BlinkFont`, `setBlinkFont`, `stopBlink`). `Run` returns whether it would schedule another tick instead of scheduling one.
- `GetTapeLeft`, `GetTapeRight` and `x` have empty bodies and are not modelled.
- Machine.Reset: takes the program text as a parameter instead of reading the page's source field. A `null` initial tape, which the code turns into "", cannot occur in the model, because Dafny strings are never null.
- The program is a plain Dafny map. JavaScript object-key collisions, such as a state named `constructor`, are not modelled.
- Rule.sourceLineNumber: the code stores the array key of a `for ... in` loop, which is the decimal string of the index. The model stores the index as a number.
- Characters are Dafny `char`s, and only ASCII case is modelled for the action test. The code compares `toLowerCase()` with `r` and `l`; no other character lowercases to these.
- Strings are sequences of Dafny `char`, which are Unicode scalar values. JavaScript strings are UTF-16 code units, so a symbol outside the Basic Multilingual Plane takes two cells of `sTape` and `charAt(0)` (`jsturing.js:347-349`) yields a lone surrogate. In the model such a symbol is one cell. Ordinary programs and tapes are ASCII, where the two agree.
- `nSteps`, `nHeadPosition` and `nTapeOffset` are JavaScript numbers (doubles), exact only up to 2^53. The model uses unbounded `int` and `nat`, so it does not capture rounding after 2^53 steps or cells.

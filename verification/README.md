# Verified model of xplevent

xplevent is an event server for the xPL home automation protocol. It runs user
scripts when messages arrive or the clock says so, and talks to an xPL hub.
This project models its script compiler and virtual machine, its message
printer and parser, its receive queue, its script transfer, its scheduler, its
hub discovery and its poller in Dafny, and proves what they promise. The command
`dafny verify dfyconfig.toml` checks everything.

## What is modelled and proved

**Scripts.** A program is an AST of the phrases the grammar derives (`Script`),
and its meaning is given statement by statement over a store of
insertion-ordered hashes (`OrderedStore`). The grammar actions append flat
instructions and patch jumps by walking back (`Emitter`, over `Pcode`); the
execution loop counts consecutive pushes, fetches operands by stepping back,
and jumps (`Interpreter`, over the machine of `PcodeMachine`). The main result,
`Interpreter.ParseAndExec`, says that parsing and then executing any program
does exactly what the program means: same variables, same commands and spawns
in order, same first failure, in the normal and the `ignoreAssignErrors` mode,
from any state of the variables. On the way: patching never trips an assertion
and touches nothing but the construct it completes, every jump goes where block
matching on the flat list says (`Jumps`), every jump goes forward, so no
instruction runs twice, and the operand count is right on every path
(`OperandCounts`). The symbol table with its cached hash words refines the
store, and the store is what a history of updates says it is (`SymbolTable`,
`OrderedStore`). `ScriptProperties` derives what holds of all runs: fail-stop,
and how the two error modes compare. `Aborts` is about the assertion that
xplcmd makes of the hash it sends: a condition on the script that excludes a
failure in either mode, and the exact condition on a run.

`ScriptMeaning` says what runs of compiled code do in terms that do not rest on
the definitions of the meaning: which block an if takes, as an inequality of
real numbers; which command an xplcmd sends; what an assignment stores.
`ScriptRecord.RunIsRecorded` gives the whole effect of any run: its calls and
assignments leave a record of stores, saved pairs, attempts and events, and the
final world is the initial one with the record done to it. What a lookup then
gives is the last value stored (`OrderedStore.ReplayMeaning`).

An outcome is `Done`, `Failed(reason)`, or `Aborted`, which is an assertion of
the original. Numbers are what `strtod` may return, with IEEE comparison
(infinities, NaN); the conversion itself is a parameter. So are the results of
database writes and spawns, by the number of the attempt.

**Messages.** `XplMessage` prints into the 1500-byte buffer, fragment by
fragment; `MessageParser` is the six-state character machine over its three
buffers. A text is parsed locally and in bounds. Parsing a printed message
gives the same message exactly when it is framed (fits the buffers, holds no
delimiter) and has allowed characters; both directions are proved, for all
messages (`ParsedMessages.RoundTripExactly`). `VALID_CHAR` (`xplcore.c:79`)
assigns where a comparison was meant, so every character outside 32 to 122
becomes `|` (`MessageRoundTrip.CharacterReceived`). `XplMessage.RenderingText`
writes the text of a message out, and `MessageRoundTrip.HopIsParsed` says what
such a text is parsed to, with any hop count.

**Receive queue.** `RxQueue` is the linked queue; `RxProtocol` is the two
threads, the lock and the event counter as interleaved steps. A wake-up is lost
exactly when an event write failed while the main thread slept with the counter
at zero, and none has succeeded since (`RxProtocol.ForgottenExactly`); nothing
is lost, duplicated or reordered.

**Script transfer.** Sender, line reader and receiver with its doubling buffer
(`ScriptTransfer`, over the splitter in `Split`). A transfer succeeds exactly
within the limits and delivers the normal form of the script. The line reader
drops carriage returns, so a line of nothing but carriage returns arrives
empty: `ScriptTransfer.NormalizedIsStable` says that a second transfer changes
nothing exactly when there is no such line.

**Scheduler.** `Cron` is the matching loop, with the meaning of well-formed
expressions; `Scheduler` is the gate that compares only the minute of the hour.
The gate is exact exactly when no two consecutive polls are some full hours
apart (`Scheduler.GateExact`); with polls at most a minute apart, each minute
is walked once and the calls made are those due in each minute
(`Scheduler.CronRuns`). Over a day, each entry for dawn, dusk, sunrise or sunset
is called once, in the minute calculated at midnight
(`Scheduler.DawnOncePerDay` and its three siblings). A calculated hour of 24 or
more is never reached: `calcDawnDusk` adds a day to a negative hour and takes
none off (`scheduler.c:138-145`). Three places where the code and its description differ:
the comment above `schedulerWalk` lists `N/M`, which means just `N`
(`Cron.StepAfterNumberIgnored`); months count from zero; and a scheduler
started in minute 0 of an hour does not walk in that minute
(`Scheduler.FirstMinute`).

**Hub discovery.** Ticks, received messages, enabling and failing sends act on
the timer, the try counter and the discovery state (`HubDiscovery`). After any
run the hub is confirmed exactly when the service's own heartbeat came back
since it was last enabled. A heartbeat request without a command item ends the
process, and nothing else in these runs does (`HubDiscovery.CrashesExactly`).
The timer is looked at before it is counted down, so discovery heartbeats are 4
ticks apart, those without a hub 61 and those with one 301 (documented: 3, 60
and 300 seconds). The tick does not look at the enabled flag:
`HubDiscovery.SilentExactly` says when a disabled service is silent.
`HubDiscovery.EchoConfirms` joins printer, parser and state machine.

**Poller and identifiers.** The doubly linked registration list agrees with the
kernel's set after any operations (`PollList`). Generated identifiers are cut
at 16 characters; with a prefix of at most eight, such as the four made at
start-up, they differ unless made a multiple of 36^8 milliseconds apart, and
the condition for longer prefixes is given too
(`Identifier.IdentifiersDiffer`).

## Model

| member | source | states |
|---|---|---|
| Interpreter.ParseAndExec | parser.c:1099-1264 | Compiling and executing any non-empty derivable program, from any variables, leaves the variables, the log of commands and spawns, and the outcome that the program's meaning gives. |
| Interpreter.CompiledCorrect | parser.c:1099-1264 | For every program, mode and initial world, the run of its back-patched code ends in the world and outcome of the program; all its jumps go forward. |
| CompilerCorrectness.StmtRuns | parser.c:1115-1249 | Wherever the code of a statement stands in a list, running it has the statement's effect and ends right behind it, or stops on its failure. |
| CompilerCorrectness.BlockRuns | grammar.y:69-75 | The same for a statement list: effects in order, nothing after the first failure. |
| CompilerCorrectness.IfRuns | grammar.y:92-97 | The code of an if runs its block when the test holds or an undefined operand is ignored, and otherwise lands behind its END. |
| CompilerCorrectness.IfElseRuns | grammar.y:105-109 | The code of an if-else runs exactly one block and lands behind the else END. |
| CompilerCorrectness.BodyRuns | parser.c:1133-1138 | A block's END leads behind it, or over the else block when it carries a jump. |
| CompilerCorrectness.TestRuns | parser.c:1165-1243 | A test goes on, goes past its jump, or stops with the failure that its meaning gives, in the order in which operands are fetched and converted. |
| CompilerCorrectness.SimpleRuns | parser.c:1148-1162 | Pushes and the instruction that takes them have the effect of the call or assignment. |
| CompilerCorrectness.PushesRun | parser.c:1140-1146 | After n pushes, n are counted, and the operands before the next instruction are those pushed. |
| CompilerCorrectness.RunReached | parser.c:1115-1257 | Running from a state ends as running from any state reached from it. |
| PcodeMachine.Step | parser.c:1115-1138 | In code whose jumps go forward every step strictly advances the position and stays in the list. |
| PcodeMachine.OperandsBeforeAt | parser.c:396-403 | Operands can be fetched by stepping back n times exactly when the n instructions before are pushes, and are theirs, in order. |
| Jumps.JumpsExact | parser.c:978-1038 | In every compiled program each skip is the one block matching on the flat list asks for: a test to its block's END or the else BEGIN, a then END to its else END, none anywhere else; and all go forward. |
| Jumps.StmtExact | parser.c:978-1038 | The jumps of one statement are exact wherever its code stands, if no block begins behind it. |
| Jumps.ScanStmt | grammar.y:117-135 | The blocks in a statement's code are balanced: a search for an enclosing END passes over it. |
| Jumps.MatchingOwnEnd | grammar.y:117-135 | The END that matches a block's BEGIN is the one emitted for it. |
| OperandCounts.OperandsCounted | parser.c:1123-1166 | At every instruction reached on any path of any program: it takes operands iff it is the taker of a construct of the source; then its opcode is that of the construct, the push count is the number of the construct's operands (for a call, its arguments), and stepping back finds exactly those operands, in order. |
| OperandCounts.StepCounted | parser.c:1123-1146 | One step keeps the count equal to the run of pushes behind the machine, jumps included. |
| OperandCounts.ReachedCounted | parser.c:1115-1146 | So does any number of steps. |
| Emitter.ParseCtrl.SetJumps | parser.c:978-1038 | The list becomes the patched list; it fails exactly when an assertion of the walk would fire. |
| Emitter.ParseCtrl.WalkBack | parser.c:1006-1036 | The walk finds the nearest wanted instruction at its depth, or stops at a shallower one or the front. |
| Emitter.ParseCtrl.PushAll | grammar.y:188-219 | One push is appended for each operand, in order. |
| Emitter.ParseCtrl.IfTest | grammar.y:141-146 | The depth counter goes up before the operands and the test are appended. |
| Emitter.ParseCtrl.Block | grammar.y:117-135 | BEGIN, the code of the statements, END; the depth counter is unchanged. |
| Emitter.ParseCtrl.IfConst | grammar.y:92-97 | The code of the if is appended with its jump patched; what was there is unchanged, and the depth counter is balanced. |
| Emitter.ParseCtrl.IfElseConst | grammar.y:105-109 | The same for an if-else with its two jumps. |
| Emitter.ParseCtrl.Statement | grammar.y:81-84 | The same for any statement, of any nesting; no assertion of the patching fires. |
| Emitter.ParseCtrl.StatementList | grammar.y:69-75 | The same for a statement list. |
| Pcode.IfPatching | parser.c:1022-1037 | Patching after an if gives its code, whatever precedes it, and changes nothing else. |
| Pcode.IfElsePatching | parser.c:1001-1037 | Patching after an if-else gives its code, whatever precedes it, and changes nothing else. |
| Pcode.PatchedIf | parser.c:1022-1037 | Over any nested block, only the test of this if is found, and it is made to skip to the END at the tail. |
| Pcode.PatchedIfElse | parser.c:1001-1037 | Over any nested blocks, the then END is found and skips to the tail, and the test skips to the else BEGIN. |
| Pcode.FindBackOver | parser.c:1006-1036 | A walk back passes over deeper code without stopping. |
| Pcode.BlockCodeNested | grammar.y:141-146 | The code of a statement list is nowhere shallower than its depth, and at that depth has no test and no END. |
| ScriptProperties.FailStop | parser.c:1115 | Code that fails in its first statements ends as if the others had not been compiled. |
| ScriptProperties.RunsInOrder | grammar.y:69-75 | A list runs its first part, then the rest from there if that ended normally. |
| ScriptProperties.BlockExtends | parser.c:216-222 | No run takes back a command or spawn, undefines a hash, or forgets a saved key. |
| ScriptRecord.RunIsRecorded | parser.c:1115-1257 | The world after any run of any compiled program, from any world, is the one at the start with the record of the calls and assignments that the run comes to done to it: a store for each assignment of a defined value, a pair saved for each successful write to nvstate, a clearing for each xplcmd that sends, the commands and spawns, and the number of attempts, each in order. |
| ScriptMeaning.ComparesNumbers | parser.c:1190-1216 | With operands whose texts stand for finite numbers, the run of an if or if-else on any of the six numeric operators is the run of the block that x = y, x != y, x > y, x < y, x >= y or x <= y of the reals selects. |
| ScriptMeaning.ComparesNaN | parser.c:1190-1216 | With a NaN only != lets the block run. |
| ScriptMeaning.ComparesInfinities | parser.c:1190-1216 | The infinities are below and above all finite numbers, and equal to themselves. |
| ScriptMeaning.ComparesStrings | parser.c:1217-1219 | The string comparison lets the block run exactly when the two texts are the same. |
| ScriptMeaning.ComparesNoNumber | parser.c:1174-1187 | A text that is no number fails a numeric comparison and changes nothing. |
| ScriptMeaning.ComparesUndefined | parser.c:1167-1187 | An undefined operand fails the script with its name, or lets the block run if that is ignored; the left one, and its number, come first. |
| ScriptMeaning.TestsExistence | parser.c:1231-1243 | An exists test lets the block run exactly when the variable has a value. |
| ScriptMeaning.SendsCommand | parser.c:369-458 | The run of xplcmd with a tag of allowed lengths sends a command to that tag with the class, type and hash contents given, in this place, empties the hash and changes nothing else; without a live service nothing is sent and all else is the same. |
| ScriptMeaning.RefusesTag | parser.c:407-411 | A text that is no tag of allowed lengths fails the script with that text and changes nothing. |
| ScriptMeaning.Spawns | parser.c:336-350 | The run of spawn logs the command given, or fails with it; the attempt is counted. |
| ScriptMeaning.CountsArguments | parser.c:336-338 | xplcmd with other than four arguments, and spawn with other than one, fails with the count. |
| ScriptMeaning.Stores | parser.c:1148-1162 | The run of an assignment stores the value under the key in the hash named, and changes nothing else. |
| ScriptMeaning.Saves | parser.c:655-658 | An assignment to nvstate saves the pair in the database if the write succeeds, and otherwise counts as undefined. |
| ScriptMeaning.StoresNothing | parser.c:188-203 | An undefined value is not stored: the script fails with the name of its hash, or goes on. |
| Aborts.NeverAborts | parser.c:433-434 | A script whose every xplcmd sends a hash that was there from the start or was surely stored to on the way (by assignments, by what passed tests need, in both branches of an if-else) never trips the assertion; in both error modes, each with what it ensures. |
| Aborts.AbortsExactly | parser.c:433-434 | A run of any script trips the assertion if and only if it comes to an xplcmd with four arguments and a good tag whose hash was neither in the store at the start nor stored to on the way. |
| Aborts.BlockTraced | parser.c:1115-1257 | The calls and assignments that a run comes to form a chain: each finds the world the one before it left, the last leaves the final world, and the run aborts iff one of them does. |
| Aborts.KeysAlong | parser.c:647-731 | At each of them a hash is defined iff it was at the start or an earlier assignment stored to it. |
| Aborts.UnstoredSendAborts | parser.c:433-434 | Sending a hash never stored to aborts, from any such world, in either mode. |
| Aborts.FillThenSend | parser.c:433-434 | Storing a literal in a hash and sending it never aborts. |
| Aborts.FillFromVariable | parser.c:188-203 | Filling the hash from a variable and sending it aborts iff assignment errors are ignored and the variable has no value. |
| ScriptProperties.ModesAgree | parser.c:188-203 | With ignored assignment errors no script fails for an undefined variable, and a script that does not fail so otherwise runs exactly alike. |
| Interpreter.InvokeAborts | parser.c:396-434 | A call with derivable arguments trips an assertion exactly when it is an xplcmd with four arguments and a good tag that names a hash never stored to. |
| Interpreter.XplCmdArguments | parser.c:396-403 | Fetching the four arguments from last to first gives the meaning of the call. |
| Interpreter.AssignOperands | parser.c:1148-1159 | Two pushes right before an assignment are its target and its value. |
| Interpreter.PcodeHeader.ExecPcode | parser.c:1099-1264 | The loop ends with the world and outcome of the machine's run; an empty list trips the assertion on its head. |
| Interpreter.PcodeHeader.ExecInstr | parser.c:1115-1257 | One turn of the loop takes the header from one machine state to the next. |
| Interpreter.PcodeHeader.ExecAssign | parser.c:1148-1162 | An assignment stores, or fails or is skipped for an undefined variable, or trips an assertion, as its meaning says. |
| Interpreter.PcodeHeader.ExecTest2 | parser.c:1165-1229 | A comparison jumps exactly when it is false, and fails in the order of its checks. |
| Interpreter.PcodeHeader.ExecExists | parser.c:1231-1243 | An exists test jumps exactly when the key has no value. |
| Interpreter.PcodeHeader.AssignOperand | parser.c:1150-1161 | The value is fetched before the variable is stored to; either can be the undefined one. |
| Interpreter.PcodeHeader.SendXPLCommand | parser.c:369-464 | The command call: argument count, arguments, tag, hash, in this order of failure. |
| Interpreter.PcodeHeader.SendHash | parser.c:407-458 | The pairs of the hash are sent in order, and exactly that hash is emptied; on a bad tag nothing changes. |
| Interpreter.PcodeHeader.SpawnCommand | parser.c:321-354 | One argument is spawned, and a failure is recorded. |
| Interpreter.PcodeHeader.HashGetValue | parser.c:592-623 | A value is read from the database for nvstate and from memory otherwise. |
| Interpreter.PcodeHeader.HashAddKeyValue | parser.c:647-731 | A value is written to the database for nvstate, which can fail, and to memory otherwise. |
| OrderedStore.ReplayMeaning | parser.c:647-731 | After any stores and clears, from any store: a hash is defined iff it was or was ever stored to, has each key once in order of first store, and a lookup gives the last value stored. |
| OrderedStore.KeysUpsert | parser.c:697-728 | Overwriting keeps every position; a new key goes to the end. |
| OrderedStore.FindUpsert | parser.c:697-728 | After a store the key has the new value, and every other key its old one. |
| SymbolTable.Table.FindHash | parser.c:241-267 | Comparing cached words first finds the hash exactly when it is defined. |
| SymbolTable.Table.GetValue | parser.c:592-623 | The lookup of the abstract store. |
| SymbolTable.Table.AddKeyValue | parser.c:647-731 | The store changes at this hash and key only; names and keys stay unique, and cached words right. |
| SymbolTable.Table.InsertKey | parser.c:684-728 | An entry is replaced in place or appended. |
| SymbolTable.Table.DeleteHashContents | parser.c:216-222 | Exactly this hash is emptied, and it stays defined. |
| SymbolTable.StoreOfUpdate | parser.c:697-728 | Replacing the list of one entry changes the store at its name only, and names stay unique. |
| StringHash.UtilHash | util.c:507-526 | The loop computes the 32-bit hash word, with signed characters and wrap-around. |
| XplTag.ParserSplitXPLTag | parser.c:490-570 | Accepts a tag exactly when it is vendor-device.instance, cut at the first '-' and the next '.', of lengths 1 to 9, 0 to 8, 0 to 8; the parts agree with the message parser's cut. |
| XplTag.Cut | xplcore.c:1533-1554 | The cut rejoins to the text, and fails only when no separable tag has this text. |
| XplTag.CutOfJoin | xplcore.c:1533-1554 | Cutting undoes joining. |
| XplMessage.TxBuffer.FormatMessage | xplcore.c:862-932 | Succeeds exactly when the rendering is shorter than 1500, and the buffer then holds it, terminated; otherwise the fragments before the first that does not fit. |
| XplMessage.TxBuffer.AppendText | xplcore.c:832-849 | A text that fits is appended and terminated; one that does not changes nothing. |
| XplMessage.PrintedMeaning | xplcore.c:832-849 | Appending fragments until one does not fit: the exact condition, and what has been written. |
| XplMessage.ConcatFragments | xplcore.c:862-932 | All fragments together are the two printed blocks. |
| XplMessage.RenderingText | xplcore.c:862-932 | The printed text of a message, written out with the literal headers, delimiters, hop count and wildcard. |
| XplMessage.ItemLine | xplcore.c:912-924 | Each item is printed as a line name=value behind those before it. |
| MessageParser.ParseBlock | xplcore.c:1311-1493 | The machine over its buffers computes the parsed block for every text, in bounds, and only appends to the list. |
| MessageParser.BlockChar | xplcore.c:1328-1481 | One character, in any state, takes the buffers from one machine state to the next. |
| MessageParser.HeaderChar | xplcore.c:1329-1360 | A header character is stored, ends the header, or overflows it. |
| MessageParser.NameChar | xplcore.c:1386-1424 | The same for a name. |
| MessageParser.ValueChar | xplcore.c:1426-1465 | The same for a value, which completes an item. |
| MessageParser.ParseBounds | xplcore.c:1311-1493 | The count is within the text; zero says that nothing but junk was there, and the header of a complete block is not empty. |
| MessageParser.BlockLocal | xplcore.c:1311-1493 | A complete block is found the same in every text that begins with the same characters. |
| MessageParser.Norm | xplcore.c:79 | The stored character is always allowed, and is the one read exactly when that is allowed. |
| MessageParser.GetNamedValue | xplcore.c:351-364 | The value of the first item of the name. |
| MessageParser.NamedValueMeaning | xplcore.c:351-364 | There is no value exactly when no item has the name; otherwise it is that of the first item that has. |
| MessageParser.ParseMessageHeader | xplcore.c:1509-1602 | The header items are accepted exactly when hop, source and target are in order. |
| MessageParser.HeaderMeaning | xplcore.c:1509-1602 | The header items give a hop count, source and target exactly when the first hop item is that number, at least 1, the first source item is the joined source, and the first target item is "*" or the joined target. |
| MessageParser.ParseMessage | xplcore.c:1618-1705 | Two runs of the block machine over one text give the parsed message. |
| MessageRoundTrip.BlockRun | xplcore.c:1311-1493 | A printed block is parsed to its header and items, wherever the text goes on. |
| MessageRoundTrip.PrintedIsParsed | xplcore.c:1618-1705 | The text printed for a framed message is parsed to the message with its characters replaced: type, source, target or broadcast, schema, and items in order. |
| MessageRoundTrip.RoundTrip | xplcore.c:862-932 | A framed message survives printing and parsing exactly when all its characters are allowed. |
| MessageRoundTrip.CharacterReceived | xplcore.c:79 | Each character of a value is received as itself if its code is 32 to 122 or 124, and as "\|" otherwise; so "~" is lost. |
| MessageRoundTrip.HopIsParsed | xplcore.c:1517-1525 | A well-formed text with any hop count of digits is parsed to that count and the message if the count is 1 to 2147483647, and is refused if not. |
| MessageRoundTrip.LeadingJunkIgnored | xplcore.c:1337-1340 | Characters up to 32 and above 127 in front of a text make no difference to what it is parsed to. |
| ParsedMessages.ParsedIsFramed | xplcore.c:1618-1705 | Every message the parser returns, from any text, is framed and has allowed characters. |
| ParsedMessages.RoundTripExactly | xplcore.c:1618-1705 | For all messages: printing and parsing gives the message back if and only if it is framed and its characters are allowed. |
| ParsedMessages.ParsedPrintsBack | xplcore.c:1618-1705 | Printing a parsed message and parsing that changes nothing. |
| ParsedMessages.SendAndReceive | xplcore.c:947-960 | Through the bounded buffer: the message arrives iff it is short enough, framed, and of allowed characters. |
| RxQueue.RxHead.QueueRawString | xplrx.c:195-217 | The string goes to the end, and the linked list and its count stay consistent. |
| RxQueue.RxHead.DQRawString | xplrx.c:286-323 | The first string is taken, or none when the queue is empty. |
| RxQueue.RxHead.Drain | xplcore.c:401-407 | The loop returns all queued strings in order and leaves the queue empty. |
| RxProtocol.NoLostWakeup | xplrx.c:235-268 | Over every interleaving: packets wait unnoticed only if the latest event write failed; and the packets delivered, then those queued, then the one the receiver holds are those that came in, in order. |
| RxProtocol.ForgottenExactly | xplrx.c:113-130 | Packets are forgotten if and only if an event write failed while the main thread slept with the counter at zero, and none has succeeded since. |
| RxProtocol.ForgottenNeedsFailure | xplrx.c:113-130 | With successful event writes no interleaving forgets a packet. |
| RxProtocol.FailedWriteForgets | xplrx.c:235-268 | A failing write, whose result is not looked at, leaves a packet waiting. |
| RxProtocol.EverythingIsDelivered | xplcore.c:401-407 | When the receiver is outside its critical section and its latest write succeeded, the main thread alone delivers all packets that came in, in order. |
| Split.SplitAt | util.c:313-372 | The two-state scan with its growing array returns the pieces. |
| Split.UtilSplitString | util.c:313-372 | The pieces at one separator. |
| Split.UtilSplitWhite | util.c:235-294 | The pieces at blanks and tabs. |
| Split.PiecesGood | util.c:313-372 | No piece is empty or has a separator. |
| Split.PiecesContent | util.c:313-372 | The pieces hold all other characters, in order. |
| Split.PiecesCons | util.c:313-372 | A piece and a separator in front add that piece. |
| Split.PiecesSkip | util.c:313-372 | Leading separators do not matter. |
| ScriptTransfer.MonitorSendScript | monitor.c:1151-1166 | What is sent is the framed script. |
| ScriptTransfer.MonRcvInfo.MonitorRecvScript | monitor.c:1245-1318 | One line has the effect of the receiver function; the text stays terminated within the buffer, which is 2048 doubled, at most 131072, and doubles at most once per line. |
| ScriptTransfer.MonRcvInfo.Grow | monitor.c:1298-1303 | The buffer is doubled and keeps the text. |
| ScriptTransfer.MonRcvInfo.Append | monitor.c:1304-1305 | The line and a newline follow the text, with a NUL behind them. |
| ScriptTransfer.WireRead | socket.c:989-1000 | The lines that arrive are those framed, without carriage returns. |
| ScriptTransfer.FramesReceived | monitor.c:1281-1305 | Lines are stored whatever they contain, "se:" and "er:" included, up to the limits. |
| ScriptTransfer.TransferRoundTrip | monitor.c:1245-1318 | The receiver finishes if and only if lines, name and size are within the limits, and then holds the name and exactly the non-empty lines, each ended by a newline; otherwise it is in error. |
| ScriptTransfer.ReceivesPayloads | monitor.c:1245-1318 | A new receiver fed any lines whatever: its text is the concatenation of the script lines between the first begin line and the line that ends the transfer, which is the first that is shorter than 3 or longer than 258, reports an error, ends the script, or does not fit in 65536. |
| ScriptTransfer.CollectsPayloads | monitor.c:1278-1306 | The same from the begin line on, whatever is stored already. |
| ScriptTransfer.NormalizedIsStable | monitor.c:1151-1166 | A second transfer changes nothing if and only if no line held nothing but carriage returns. |
| ScriptTransfer.DoubledGap | monitor.c:1298-1303 | Buffer sizes below twice the limit are at most the limit, so one doubling is enough. |
| ScriptTransfer.Transfer | monitor.c:1245-1318 | The same for the sender, the line reader and the receiver object together. |
| Numerals.AtoiOfNumeral | scheduler.c:219-223 | atoi() of digits followed by something else is the number written. |
| Numerals.DecimalNumber | xplcore.c:1134 | What is printed for a number consists of digits and is read as the number. |
| Cron.CountMatches | scheduler.c:396-467 | Five matches are counted if and only if there are five fields and they match the minute, the hour, the day of the month, the month and the weekday, in this order. |
| Cron.CronNumEval | scheduler.c:208-226 | The count goes up by one if and only if some number of the list is the value. |
| Cron.CronWildCardEval | scheduler.c:245-262 | The count goes up if and only if the step is not zero and divides the value. |
| Cron.FieldMeaning | scheduler.c:402-461 | A well-formed field matches exactly the values it stands for. |
| Cron.ExpressionMeaning | scheduler.c:378-473 | An expression of well-formed fields, however spaced, is due if and only if it has at least five, and the first stands for the minute, the second for the hour, the third for the day of the month, the fourth for the month from zero, and the fifth for the weekday. |
| Cron.StepAfterNumberIgnored | scheduler.c:353-362 | N/M, listed as supported, matches N only. |
| Cron.MalformedNeverDue | scheduler.c:396-461 | An expression with fewer than five fields, or with one among the first five that starts with neither a digit, a lone "*" nor "*/", is never due. |
| Scheduler.GateExact | scheduler.c:509-512 | Walks happen at exactly the changes of the minute if and only if no two consecutive polls are a nonzero number of full hours apart. |
| Scheduler.GateOnMinuteChange | scheduler.c:509-512 | They do when time runs forward in steps below an hour. |
| Scheduler.EveryMinuteOnce | scheduler.c:491-530 | With polls at most a minute apart every minute is walked exactly once, in order. |
| Scheduler.FirstMinute | scheduler.c:548-559 | At the start the first minute is walked unless it is minute 0 of an hour. |
| Scheduler.OncePerMinute | scheduler.c:491-530 | Polling has the effect of one unconditional walk in each minute. |
| Scheduler.CronRuns | scheduler.c:491-530 | While polling, the calls made are, for every minute reached and in list order, the cron entries due in it. |
| Scheduler.WalkCalls | scheduler.c:378-473 | A walk calls the due entries in list order. |
| Scheduler.WalkStartups | scheduler.c:304-308 | A walk calls the first startup entry of the list if none has been called before, and no other. |
| Scheduler.DawnWalk | scheduler.c:322-326 | Over any list of entries, a walk calls the "@dawn" entries, in list order, if and only if dawn and dusk are valid and the time has the hour and minute of dawn. |
| Scheduler.DuskWalk | scheduler.c:328-332 | The same for "@dusk" and dusk. |
| Scheduler.SunriseWalk | scheduler.c:310-314 | The same for "@sunrise", if sunrise and sunset are valid. |
| Scheduler.SunsetWalk | scheduler.c:316-320 | The same for "@sunset". |
| Scheduler.UnknownAtNeverRuns | scheduler.c:342-344 | An entry behind an "@" with another name is never called. |
| Scheduler.DawnOncePerDay | scheduler.c:491-530 | Polled at least once a minute from the minute before midnight on, with any entries: each "@dawn" entry has been called exactly once when the minute of the dawn calculated at this midnight has been reached, and not before; none is called if that is not valid or no minute of the day. |
| Scheduler.DuskOncePerDay | scheduler.c:491-530 | The same for "@dusk" and dusk. |
| Scheduler.SunriseOncePerDay | scheduler.c:491-530 | The same for "@sunrise" and sunrise. |
| Scheduler.SunsetOncePerDay | scheduler.c:491-530 | The same for "@sunset" and sunset. |
| Scheduler.AddedEntryDue | scheduler.c:651-687 | An entry added with a well-formed expression, however spaced, is due exactly when the five columns stand for the minute, hour, day of the month, month from zero and weekday of the time. |
| Scheduler.SchedInfo.SchedulerAdd | scheduler.c:651-687 | The entry goes to the end, with its name, expression, parameter, and the pieces of the expression at blanks and tabs. |
| Scheduler.SchedInfo.CronAtCommand | scheduler.c:278-345 | The '@' entry runs when its event is now, and startup entries once. |
| Scheduler.SchedInfo.SchedulerWalk | scheduler.c:378-473 | The walk over the list. |
| Scheduler.SchedInfo.SchedulerDo | scheduler.c:491-530 | A poll: nothing when disabled or in the minute of the last walk, else the sun at midnight, a walk, and the minute noted. |
| Scheduler.SchedInfo.PollRepeatedly | monitor.c:816-841 | Repeated polls have the effect the theorems are about. |
| HubDiscovery.RunSound | xplcore.c:1217-1243 | Over all runs: fewer than 40 tries while searching, exactly 40 after giving up, and bounded timers. |
| HubDiscovery.ConfirmedMeaning | xplcore.c:476-489 | After any run that has not crashed the hub is confirmed if and only if the service's own heartbeat was received since it was last enabled. |
| HubDiscovery.EnabledMeaning | xplcore.c:1795-1821 | After any run that has not crashed the service is enabled exactly when that was asked for last. |
| HubDiscovery.CrashesExactly | xplcore.c:449-452 | A run ends in a crash if and only if an hbeat.request without an item named command is received in it. |
| HubDiscovery.SilentHub | xplcore.c:1217-1243 | With no answer, after n ticks: heartbeats 4 ticks apart, given up at tick 156 with 40 tries, then 61 apart. |
| HubDiscovery.ConfirmedBeats | xplcore.c:714-725 | A confirmed service sends a heartbeat every 301 ticks. |
| HubDiscovery.CountDown | xplcore.c:714-725 | No heartbeat before the timer has run out, and one right then. |
| HubDiscovery.SilentExactly | xplcore.c:714-725 | A service, enabled or not, is silent for n ticks if and only if its timer is at least n. |
| HubDiscovery.RetriedUntilSent | xplcore.c:714-725 | A heartbeat that cannot be sent changes nothing and is tried again at every tick, until one is sent. |
| HubDiscovery.RequestAnswered | xplcore.c:449-458 | A heartbeat request sets the timer to its rest by 7, or to 2 or 3 where that is 0 or 1, and the answer is sent at the first tick after that many. |
| HubDiscovery.OthersIgnored | xplcore.c:437-489 | Messages other than heartbeat requests and the own heartbeat change neither state nor timer. |
| HubDiscovery.EchoConfirms | xplcore.c:1121-1172 | The heartbeat of any service with a fitting tag, address and version is printed so that it parses back to itself, and so confirms the hub and sets the timer to the interval. |
| HubDiscovery.HeartbeatTells | xplcore.c:1121-1172 | The heartbeat is a status message to all from the service; it tells the interval in minutes and the port in digits, the address, and the version if and only if there is one. |
| HubDiscovery.XplService.SendHeartbeat | xplcore.c:1185-1249 | A successful send counts a try while searching and sets the timer by the state; a failed one changes nothing. |
| HubDiscovery.XplService.XplTick | xplcore.c:686-732 | One tick for one service. |
| HubDiscovery.XplService.ReceiveMessage | xplcore.c:437-489 | Requests shorten the timer, a request without a command crashes, and the echo confirms. |
| HubDiscovery.XplService.SetServiceState | xplcore.c:1795-1821 | Enabling starts the search anew and sends a heartbeat; disabling sends a goodbye; no change, no effect. |
| Identifier.LongToBase36 | xplcore.c:255-275 | The text in the buffer is kept, and the last eight base 36 digits of the value follow it. |
| Identifier.FillDigits | xplcore.c:268-274 | The loop that stops early leaves zeros in front of the digits. |
| Identifier.SuffixMeaning | xplcore.c:255-275 | The eight digits stand for the value modulo 36 to the 8th. |
| Identifier.SameSuffix | xplcore.c:255-275 | Two values get the same digits if and only if they agree modulo 36 to the 8th. |
| Identifier.GenerateFairlyUniqueID | xplcore.c:294-318 | The identifier is prefix and digits, cut at 16 characters. |
| Identifier.CutIdentity | xplcore.c:309-312 | What the cut leaves: the prefix, and the first digits, which are the digits of the time divided by a power of 36. |
| Identifier.IdentifiersDiffer | xplcore.c:294-318 | When the identifiers returned are equal, for one prefix: with at most 8 characters iff the times agree modulo 36 to the 8th; with a longer prefix, of whose digits the cut at 16 leaves k, iff they agree in those k digits; with 16 or more always. |
| PollList.PollHeader.RegEvent | poll.c:132-200 | The descriptor goes to the end of a well-formed list; a duplicate, refused by the kernel, is not listed. |
| PollList.PollHeader.UnRegEvent | poll.c:385-428 | Exactly this descriptor leaves the list and the kernel's set; one not listed is refused. |
| PollList.PollHeader.RemovePollItem | poll.c:89-114 | Unlinking an entry, wherever it stands, leaves a well-formed list of the others in order. |
| PollList.PollHeader.FindEntry | poll.c:400-409 | The walk finds the first entry with the descriptor, or none. |
| PollList.RegistrationOrder | poll.c:132-200 | After any operations the list holds exactly the registered descriptors, each once, in order of registration. |

## Left out

- Lexing and the parser tables: programs start as ASTs of the phrases that the grammar derives. Literals are texts; a program has at least one statement. What the top-level parse function returns after a syntax error is not part of the model.
- The p-code list and the symbol table lists are sequences held in fields; a link is a position. Allocation and freeing of their nodes, and pointer aliasing, are not captured. The poll list and the receive queue are linked heap nodes.
- SymbolTable.Table.InsertKey: one sequence update stands for the relinking of list nodes.
- SymbolTable.Table.HashAppend: a sequence append stands for linking through the tail pointer.
- Emitter.ParseCtrl.PcodeEmit: a sequence append stands for the head, tail, next and prev links.
- ScriptTransfer.WireRead: is about complete lines; the reader's growing line buffer, its end-of-file result and its time-outs are not modelled.
- Memory pools, magic numbers, logging, tracing and line numbers.
- The database is a map for `nvstate` whose writes can fail and whose reads succeed; the SQL is not modelled. The no-operation and unused if opcodes, which the grammar never emits, are not modelled.
- Conversion of text to floating point numbers is a parameter; comparison is modelled, with infinities and NaN.
- Sockets, epoll, eventfd and timer calls are parameters, an abstract set, or a counter; the wire between the two ends of a script transfer is reliable. The partial-write path of the socket printer is not modelled. The event counter does not overflow, and its read succeeds once it is positive.
- Termination of the receiver thread, and empty datagrams, are not part of the queue model.
- Strings hold no NUL in the middle. The splitter handles the terminating NUL after its loop.
- `atoi()` is that of a platform with 64-bit long and 32-bit int: out of range values saturate, then lose their high bits.
- The astronomical calculation gives arbitrary results; the local time in each minute is arbitrary but for its minute of the hour, so no daylight saving jump of less than an hour occurs.
- HubDiscovery.SilentHub: takes every send to succeed; failing sends are in the run theorems.
- Scheduler.CronRuns: is about lists of cron entries; lists with '@' entries are the subject of the walk and day theorems.
- Scheduler.DawnOncePerDay: is about days whose clock shows each of the 24 hours once; days of a clock change are not covered.
- RxProtocol.EverythingIsDelivered: lets the main thread run alone; fairness of the thread scheduler is not modelled.
- Dispatch of messages to listeners, groups, and configurable services. Goodbye messages are only counted.
- One-shot removal from the poll list while events are dispatched, and the poll loop itself.
- Access control lists, the configuration reader, and command line handling.

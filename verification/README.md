# Bakaneko: a verified model of its state machines, models and codecs

This project models the parts of Bakaneko whose correctness does not show in any one body, and of the
libraries it carries: the client's refresh protocol, the row models that the client keeps in step with
the server, the two terminal emulators, spdlog's pattern compiler with its padder and its two time
caches, and the text codecs (Base64, `\xHH` unescaping, versions, D-Bus signatures, `split` and the INI
loader).  Code that works by changing fields and buffers is modelled by classes and methods with
loops, each proved against a specification function; the theorems are about those functions, for all
inputs, all runs or all interleavings.  `dafny verify dfyconfig.toml` checks the whole project.

| file | what it holds |
|---|---|
| `RefreshProtocol.dfy`, `RefreshTheorems.dfy`, `Sums.dfy` | the refresh protocol as a state machine and its conservation law |
| `RefreshOrder.dfy`, `RefreshReset.dfy`, `RefreshSignals.dfy`, `RefreshProgress.dfy`, `RefreshOverlap.dfy` | what follows over whole runs: the reset of an offline client and what undoes it, the signals, progress and jams, runs with overlapping cycles |
| `RefreshFlags.dfy` | what the availability flags and the hostname say, over whole runs |
| `RefreshCode.dfy`, `RefreshServer.dfy` | straight-line code running alone, and the server's own methods, each proved to do what a schedule of the state machine does |
| `Reconcile.dfy`, `Adapters.dfy`, `Services.dfy`, `Drives.dfy`, `Updates.dfy` | the row models and the handlers that reconcile them with a message |
| `Terminal.dfy`, `DumbTerminal.dfy`, `LinuxTerminal.dfy`, `LinuxEmulator.dfy`, `LinuxTheorems.dfy`, `LinuxPen.dfy`, `LinuxEffects.dfy` | wrapping, the dumb terminal, the Linux terminal, its bounds, its pen and what each control sequence shows |
| `Padding.dfy`, `Pattern.dfy`, `PatternFlags.dfy`, `PatternFormatter.dfy` | the padder, the pattern compiler and its meaning, what each flag writes, the formatter class with its caches |
| `Base64.dfy`, `Unescape.dfy`, `UnescapeLoops.dfy`, `Version.dfy`, `Decimal.dfy` | codecs and decimal text |
| `DBusSignature.dfy` | the signature generator and a parser of the D-Bus type system |
| `Split.dfy`, `Ini.dfy` | splitting and the INI table |
| `Options.dfy` | the option datatype that the others share |

## What was found

Properties that the code does not have everywhere are stated with their exact condition.

- The latch of six is not always paid back. The extra `count_down` belongs to the adapters fetch, but the
  fetch worth two steps is `/service`; so a cycle that runs to its end balances exactly when its `/service`
  fetch failed and its adapters fetch ended in an HTTP status, or neither happened
  (`RefreshTheorems.CreditsPaidIff`). There are two ways of never refreshing again: the latch has wrapped, as
  after an overpaid cycle that ran to its end, or `/service` failures outnumber the overpayments that there
  have been or may yet be (`RefreshProgress.JamsInTwoWays`, exact for the first 2^64 cycles;
  `RefreshProgress.CanBeginAgainIff`, exact for every run). An overpaid cycle that has not run to its end can
  also let the next one begin beside it (`RefreshOverlap.CyclesCanOverlap`).
- Beside an unfinished cycle an offline client can come to show any hostname
  (`RefreshOverlap.OfflineCanShowAHostname`). Until the next tick an offline client that was reset is found
  reset exactly while no task in flight can still write a flag or the hostname and no two `update_info` can
  go online and then offline (`RefreshReset.OfflineStaysResetIff`).
- After six overpaid cycles two `update_info` can be in flight and signal one change twice
  (`RefreshOverlap.SignalsCanRepeat`). Until the next tick the signals keep alternating exactly while no ping
  in flight can repeat the last signal, or another ping's (`RefreshSignals.SignalsStayAlternatingIff`).
- `encode` equals RFC 4648 exactly on messages in which no byte of 128 or more follows another byte of its
  group, unless those before it are 255 (`Base64.EncodeIsRfcIff`). `decode` takes the letter `A` for an
  unknown one, so the round trip needs a message without a zero sextet (`Base64.RoundTripIff`).
- Messages of second 0 get a zeroed date until some message of another second was formatted
  (`PatternFormatter.DateShownIsRightIff`).
- `%+` shows the milliseconds of a message exactly when its time is not before the epoch or has no whole
  millisecond beyond a full second; otherwise it shows an unsigned wrap-around of ten digits
  (`PatternFlags.MillisAre`).
- `clone` runs the same program exactly when no flag that the pattern uses was added or changed since the
  last compilation (`PatternFormatter.PatternFormatter.Clone`, `PatternFormatter.DefaultProgramIff`).
- The two ways of writing the `\xHH` loop part at an escape that has one hex digit and something behind it,
  and what follows never brings them together again (`UnescapeLoops.LoopsAgreeIff`).
- The signature of a type is one that the D-Bus type system allows exactly when every `std::map` in it has
  keys of a basic type; the generator takes any (`DBusSignature.SignatureParsesIff`).
- `from_string` reads every number that fits, except the least value of a signed type
  (`Version.ConversionIsRightIff`, `Version.SignedConversionIsRightIff`).
- An update's installed version is not refreshed while its name stays; it is the one that came with the name
  (`Updates.OldVersionIsFromStretch`).
- In the Linux terminal `A`, `B`, `C`, `H`, `J`, `K` and `m` can leave the grid or read off the palette;
  `LinuxTheorems.CommandKeepsBoundsIff` gives the condition for each. On a screen of zero columns both
  terminals divide by zero at a backspace past column 0, and only there.

## Model

| member | source | states |
|---|---|---|
| RefreshServer.Server.UpdateInfo | src/client/objects/server.cpp:81-149 | does exactly what a tick and its own actions do in the state machine: nothing while the latch is not zero; else, by the ping's answer and the state, in the server's own fields, the five fetches with their flags, the fetches of the pages available, or the reset, and the steps paid; it keeps the conservation law, as FinishFetch and the handlers below do |
| RefreshServer.Server.StayOnline | src/client/objects/server.cpp:91-101 | two steps paid, and for each page a fetch or a step, by the flags the source tests |
| RefreshServer.Server.FinishFetch | src/client/objects/server.cpp:273-334 | on an exception, an HTTP status or a body, does exactly what the fetch's own actions do: the flag it reports to, of the four, is set, cleared or kept, the other three stay, the handler is queued or the steps are paid, with the extra count_down of the adapters fetch |
| RefreshServer.Server.HandleInfo | src/client/objects/server.cpp:396-411 | takes the hostname and pays one step |
| RefreshServer.Server.HandleService | src/client/objects/server.cpp:697-700 | pays one step and issues the `/services` fetch |
| RefreshCode.RunsOut | src/client/objects/server.cpp:81-149 | straight-line code that runs alone ends where its actions, done in order, lead |
| RefreshFlags.FlagsAreLastTold | src/client/objects/server.cpp:273-334 | over every run, overlapping cycles or not, each of the four flags is true if and only if the last write to it was an accepted fetch of the endpoint it is named after, and the hostname is the one last told or the configured one |
| RefreshTheorems.StepKeepsBalance | src/client/objects/server.cpp:273-334 | every single action of every task, and every tick, keeps the latch in balance with the work outstanding |
| RefreshTheorems.LatchIsOutstandingWork | src/client/objects/server.cpp:81-149 | in every interleaving, over any number of cycles, the latch is the weight of the work not yet done plus `/service` failures less overpayments, modulo 2^64 |
| RefreshTheorems.CycleBeginsCleanIff | src/client/objects/server.cpp:83-85 | when the guard of update_info lets a cycle begin, no earlier work is outstanding if and only if overpayments match `/service` failures |
| RefreshTheorems.NoOverlapWithoutOverpayment | src/client/objects/server.cpp:81-149 | without an overpayment no cycle begins beside earlier work and the latch never wraps |
| RefreshTheorems.CreditsPaidIff | src/client/objects/server.cpp:273-334 | a whole cycle pays its six credits if and only if both faults or neither happened; otherwise no later run changes the client |
| RefreshTheorems.QuietCyclesArePaid | src/client/objects/server.cpp:89-107 | the first action of every whole cycle is its ping's answer, and a cycle whose ping finds the machine still online, or offline, always ends with the latch at zero |
| RefreshOrder.OfflineMeansReset | src/client/objects/server.cpp:120-141 | in every run whose cycles begin with nothing in flight, offline, outside the reset itself, means all four flags are false and the hostname is the configured one |
| RefreshReset.ResetLastsIff | src/client/objects/server.cpp:123-141 | a reset client with no update_info in flight stays reset over every continuation up to the next tick if and only if no task in flight can still write a flag or the hostname |
| RefreshReset.OfflineStaysResetIff | src/client/objects/server.cpp:108-141 | an offline, reset client, whatever is in flight, is found reset whenever it is offline with no code running, over every continuation up to the next tick, if and only if no task can still write and no two update_infos can go online and then offline |
| RefreshOrder.UnpaidRunsAreClean | src/client/objects/server.cpp:317-322 | in every run without an overpayment all cycles begin with nothing in flight |
| RefreshSignals.SignalsAlternate | src/client/objects/server.cpp:108-121 | in every run with one update_info at a time, overpaid or not, the online and offline signals are the state changes after the first, and strictly alternate |
| RefreshSignals.OneUpdateIsNeededIff | src/client/objects/server.cpp:108-121 | for a client of known state that has told every change up to those it is about to make, the signals alternate over every continuation up to the next tick if and only if no ping is in flight or no other update_info beside it |
| RefreshSignals.SignalsStayAlternatingIff | src/client/objects/server.cpp:108-121 | after every run, the signals alternate over every continuation up to the next tick if and only if they do so far and no ping in flight can repeat the last of them or another ping's |
| RefreshProgress.JammedForever | src/client/objects/server.cpp:81-85 | once `/service` failures, and 2^64 for each wrap of the latch, outnumber the overpayments there have been or may yet be, no cycle ever begins again |
| RefreshProgress.CanBeginAgainIff | src/client/objects/server.cpp:81-85 | after every run, some continuation brings the latch to zero, so that a cycle can begin, if and only if those failures and wraps do not outnumber those overpayments |
| RefreshProgress.JamsInTwoWays | src/client/objects/server.cpp:81-85 | within the first 2^64 cycles no further cycle can begin if and only if the latch has wrapped or `/service` failures outnumber those overpayments |
| RefreshProgress.CyclesAreFinite | src/client/objects/server.cpp:81-149 | a run that begins n cycles performs at most 32 n actions beyond what was in flight, whatever the network does |
| RefreshProgress.TasksNeverBlock | src/client/objects/server.cpp:273-334 | every task in flight of a reachable client can act |
| RefreshOverlap.OfflineCanShowAHostname | src/client/objects/server.cpp:123-141 | a run with overlapping cycles that leaves an offline, idle client showing any hostname |
| RefreshOverlap.CyclesCanOverlap | src/client/objects/server.cpp:317-322 | a concrete run in which an overpaid cycle lets a second one begin beside a fetch in flight |
| RefreshOverlap.SignalsCanRepeat | src/client/objects/server.cpp:108-121 | a concrete run with two update_infos in flight whose signals do not alternate |
| Reconcile.KeysAfter | src/client/objects/server.cpp:542-600 | the keys after a message are the old ones it lists, in old order, then the new ones in first-occurrence order, duplicates or not, and distinct keys stay distinct |
| Reconcile.KeysStayDistinct | src/client/objects/server.cpp:542-600 | over any run from an empty model the keys are pairwise distinct |
| Reconcile.RowAfter | src/client/objects/server.cpp:704-756 | the row of a key depends only on its row before and on the entries under that key: gone if none, else updated by each in turn |
| Reconcile.RowAfterRun | src/client/objects/server.cpp:704-756 | the same over a whole run of messages |
| Reconcile.RowIsFromReports | src/client/objects/server.cpp:704-756 | the row of a key after a run is made of the entries under that key since it last appeared, and of nothing else |
| Adapters.AdapterModel.InsertRows | src/client/models/adaptermodel.cpp:129-137 | both parallel arrays grow at the same place |
| Adapters.AdapterModel.RemoveRows | src/client/models/adaptermodel.cpp:139-147 | both parallel arrays lose the same rows |
| Adapters.HandleAdapters | src/client/objects/server.cpp:540-603 | the erase and insert loops end, keep the arrays parallel and compute the reconciliation |
| Adapters.RowShowsLastTwo | src/client/objects/server.cpp:555-599 | over any run a row exists exactly while the last message lists its adapter; field by field it shows the name, MTU and addresses first reported, the state, speed and counters last reported, and as previous counters those reported just before |
| Adapters.DeltaBitsExactIff | src/client/models/adaptermodel.cpp:70-82 | the unsigned subtraction, and its scaling to bits, are exact if and only if the counter did not fall, and rose by less than 2^61 |
| Adapters.RatesNeverWrap | src/client/models/adaptermodel.cpp:70-82 | over any run, if an adapter's counters and times never decrease, none of the three subtractions wraps |
| Services.HandleServices | src/client/objects/server.cpp:702-759 | the loops compute the reconciliation of the service rows |
| Services.RowShowsFirstWithLast | src/client/objects/server.cpp:702-759 | over any run a service has a row exactly while the last message lists it, whose id, type and description are the first report's and whose state, enablement and display name are the last one's |
| Services.HandleService | src/client/objects/server.cpp:679-700 | types not yet listed are appended in first-occurrence order, each once |
| Updates.HandleUpdates | src/client/objects/server.cpp:413-435 | rows are matched by position, and a row of the same name keeps its installed version |
| Updates.RowsShowLastMessage | src/client/objects/server.cpp:413-435 | after any run names and new versions are those of the last message and the source is never filled in |
| Updates.OldVersionIsFromStretch | src/client/objects/server.cpp:413-435 | over every run, the installed version at a position is the one from the first message of the unbroken stretch in which that position carried that name, and empty for a nameless update in a new row |
| Drives.DrivesModel.InsertRow | src/client/models/drivesmodel.cpp:69-79 | a new row owns a new, empty partition model and no other row's changes |
| Drives.DrivesModel.RemoveRow | src/client/models/drivesmodel.cpp:81-89 | the drive and its partition model go together |
| Drives.UpdatePartitions | src/client/objects/server.cpp:454-503 | the partition model holds exactly the message's partitions afterwards |
| Drives.UpdatePartitionsAt | src/client/objects/server.cpp:454-503 | updating one drive's partitions leaves every other row as it was |
| Drives.HandleDrives | src/client/objects/server.cpp:437-538 | the loops end, keep the partition models distinct objects, and compute the reconciliation |
| Drives.PartitionsMatchMessage | src/client/objects/server.cpp:437-538 | with distinct device nodes every listed drive has one row whose partitions are the message's in all fields |
| Drives.RowShowsFirstWithLast | src/client/objects/server.cpp:437-538 | over any run a drive has a row exactly while the last message lists it, with its own fields as first reported and the partitions last reported |
| Terminal.LineRecount | src/client/term/term.cpp:53-77 | the two loops count, for every grid and any column count, the sum of the lines each row wraps to |
| Terminal.LinesIsCeiling | src/client/term/term.cpp:61-73 | for a column count that is not negative that is max(1, ceil(n / (c + 1))) |
| DumbTerminal.Dumb.AddText | src/client/term/terms/dumb.cpp:25-110 | the byte loop meets the byte-by-byte specification and recounts exactly when some byte asks for it; it is undefined exactly at a backspace past column 0 on a screen of zero columns |
| DumbTerminal.GridIsWhatWasWritten | src/client/term/terms/dumb.cpp:31-105 | for every stream: rows, cursor, row lengths and every cell, described from the stream alone |
| DumbTerminal.RecountsIff | src/client/term/terms/dumb.cpp:25-110 | for every stream so far and further text, told by the stream's columns alone: wrapped lines are counted again exactly at a newline or a backspace that lands on a multiple of the column count |
| DumbTerminal.SplitText | src/client/term/terms/dumb.cpp:25-110 | how a stream is divided over calls does not matter, up to the first NUL |
| LinuxEmulator.Linux.AddText | src/client/term/terms/linux.cpp:47-123 | the byte loop meets the specification, with its throws and its undefined accesses as results |
| LinuxEmulator.Linux.ParseBuffer | src/client/term/terms/linux.cpp:127-330 | every branch of parse_buffer meets the specification of its command |
| LinuxEmulator.Linux.SelectAll | src/client/term/terms/linux.cpp:154-248 | the loop over the parameters of `m`, with the leaving of the loop at 38 and 48 |
| LinuxEmulator.Linux.AddLetter | src/client/term/terms/linux.cpp:332-383 | a letter is written at the cursor, with padding, or the access is out of bounds |
| LinuxTheorems.SelectionIsSafeIff | src/client/term/terms/linux.cpp:154-248 | an `m` sequence throws or reads off the palette if and only if, before any 38 or 48, a parameter is no number or 98, 99, 108 or 109 |
| LinuxPen.PenIsLastTold | src/client/term/terms/linux.cpp:154-248 | the pen after every list of numbers: each part is told by the last number that speaks of it before any 38 or 48, with the thirties and forties exchanged under reversed video and 7 and 27 exchanging the colours |
| LinuxEffects.SelectionTakesPen | src/client/term/terms/linux.cpp:155-249 | the same from the bytes of `ESC [ ... m`, and a fault exactly when a number before any 38 or 48 is off the palette; nothing else changes |
| LinuxTheorems.ParamsReadBack | src/client/term/terms/linux.cpp:154-165 | the parameters read are the numbers written, and none at all mean a single zero |
| LinuxTheorems.CommandKeepsBoundsIff | src/client/term/terms/linux.cpp:127-330 | each command, run in bounds, ends without a fault and in bounds if and only if a condition on it, the cursor and the screen holds |
| LinuxEffects.MovesGoSoFar | src/client/term/terms/linux.cpp:278-321 | from their bytes, how far `A`, `B`, `C` and `D` move, with a number or without, and where they stop |
| LinuxEffects.CursorGoesTo | src/client/term/terms/linux.cpp:141-148 | from its bytes, `H` goes to the line and column given, counted from one, zero meaning one |
| LinuxEffects.ClearEmpties | src/client/term/terms/linux.cpp:149-154 | from its bytes, `J` leaves one empty line, counts it, and keeps the cursor |
| LinuxEffects.EraseBlanks | src/client/term/terms/linux.cpp:250-277 | from its bytes, which cells `K` blanks and in which colours, for each of its three spans; every other cell and the cursor stay |
| LinuxEffects.ControlsShow | src/client/term/terms/linux.cpp:74-109 | what newline, return, bell and backspace do to the cells, the cursor and the recount |
| LinuxEffects.LetterShows | src/client/term/terms/linux.cpp:332-383 | a letter is shown at the cursor in the pen's colours, with blanks before it where the row was shorter; no other cell changes |
| LinuxTheorems.WellFormedStreamsStayInBounds | src/client/term/terms/linux.cpp:54-120 | from every state in bounds, with any command or letter begun, and for every stream of safe commands and valid text: no throw, every access in bounds, cursor and foreground index in range |
| LinuxTheorems.CallsStayInBounds | src/client/term/terms/linux.cpp:47-123 | the same over any number of add_text calls, on screens that change size between them, however commands and letters are cut between the calls |
| LinuxTheorems.BufferStaysOk | src/client/term/terms/linux.cpp:54-120 | over every stream the command buffer stays empty, led by ESC with no letter yet, or led by a high-bit byte |
| LinuxTheorems.PlainTextLooksTheSame | src/client/term/terms/linux.cpp:332-383 | on plain seven-bit text both terminals show the same letters, cell by cell |
| LinuxTheorems.PlainTextRecounts | src/client/term/terms/linux.cpp:47-123 | a call with plain text has the wrapped lines counted exactly if it has a newline |
| Padding.ScopedPadder.constructor | externals/spdlog/include/spdlog/pattern_formatter-inl.h:38-60 | the spaces before the field, never more than the padder has |
| Padding.ScopedPadder.Destroy | externals/spdlog/include/spdlog/pattern_formatter-inl.h:68-79 | the spaces behind the field, or the cut |
| Padding.PaddingLaw | externals/spdlog/include/spdlog/pattern_formatter-inl.h:35-91 | a field of exact size takes max(width, n), or exactly width when truncating; what was before it is untouched; centring leaves the odd space behind |
| Padding.TruncationSparesIff | externals/spdlog/include/spdlog/pattern_formatter-inl.h:68-79 | with a declared size that is wrong, truncation spares the earlier output if and only if the size exceeds the text by no more than the width |
| Pattern.CompilationPreservesMeaning | externals/spdlog/include/spdlog/pattern_formatter-inl.h:1327-1372 | for every pattern, set of custom flags and message, the compiled list writes what reading the pattern left to right writes |
| PatternFlags.FlagsShowTheirFields | externals/spdlog/include/spdlog/pattern_formatter-inl.h:1061-1269 | the patterns `%n`, `%l`, `%L`, `%v`, `%t`, `%P` and `%%` write the message's own fields, numbers in decimal without leading zeros |
| PatternFlags.SourceFlagsShow | externals/spdlog/include/spdlog/pattern_formatter-inl.h:753-878 | `%@`, `%s`, `%g`, `%#` and `%!` write nothing without a source location, and with one its parts; `%s` the longest end of the file name without a separator |
| PatternFlags.OtherFlagsShow | externals/spdlog/include/spdlog/pattern_formatter-inl.h:1061-1269 | for every other character, the date and time flags write their text and an unknown one stands for itself |
| PatternFlags.PaddedFlagShows | externals/spdlog/include/spdlog/pattern_formatter-inl.h:35-91 | for every flag, side, width and mark, the spaces and the cut around what the flag alone shows; a `!` flag without the mark is taken for one |
| PatternFlags.ColoursMarkTheirRange | externals/spdlog/include/spdlog/pattern_formatter-inl.h:727-752 | `%^` and `%$` mark the range between what is written before each |
| PatternFlags.FullLayout | externals/spdlog/include/spdlog/pattern_formatter-inl.h:905-995 | the layout of `%+`, piece by piece, with the decimal value of every number, the pieces left out, and the colour range of the level |
| PatternFlags.MillisAre | externals/spdlog/include/spdlog/pattern_formatter-inl.h:950-951 | the milliseconds of `%+` are those within the second if and only if the time is not before the epoch or has none; otherwise a 32-bit wrap-around |
| PatternFlags.PlainPatternIsItself | externals/spdlog/include/spdlog/pattern_formatter-inl.h:1354-1371 | a pattern without a percent sign is written as it stands |
| Pattern.SameProgramIff | externals/spdlog/include/spdlog/pattern_formatter-inl.h:1061-1269 | two sets of custom flags compile a pattern to the same list if and only if they agree on the flags it uses |
| Pattern.PadSpecReadsBack | externals/spdlog/include/spdlog/pattern_formatter-inl.h:1274-1325 | a pad spec reads back as written: side, decimal width capped at 64, truncation mark |
| PatternFormatter.PatternFormatter.CompilePattern | externals/spdlog/include/spdlog/pattern_formatter-inl.h:1327-1372 | the loop compiles the pattern to its program, with nothing cached |
| PatternFormatter.PatternFormatter.HandlePadSpec | externals/spdlog/include/spdlog/pattern_formatter-inl.h:1274-1325 | the loop over the digits reads the pad spec, in size_t arithmetic |
| PatternFormatter.PatternFormatter.HandleFlag | externals/spdlog/include/spdlog/pattern_formatter-inl.h:1061-1269 | what one flag appends: custom, built in, unknown, or the function name for `!` |
| PatternFormatter.PatternFormatter.Clone | externals/spdlog/include/spdlog/pattern_formatter-inl.h:1018-1026 | a clone runs the program of the present flags, which is the same one if and only if the flags used are those last compiled with |
| PatternFormatter.PatternFormatter.Format | externals/spdlog/include/spdlog/pattern_formatter-inl.h:1028-1043 | for timestamps in any order, both caches together write what the program writes for the time shown, then the end of line |
| PatternFormatter.FlagFormatter.FullDate | externals/spdlog/include/spdlog/pattern_formatter-inl.h:914-952 | the cached date is that of the second's time whenever it is used |
| PatternFormatter.DateShownIsRightIff | externals/spdlog/include/spdlog/pattern_formatter-inl.h:1028-1036 | the date shown is that of the message's own second if and only if some message so far was not in second 0 |
| PatternFormatter.ProgramsAreCapped | externals/spdlog/include/spdlog/pattern_formatter-inl.h:1278-1324 | no compiled formatter asks the padder for more than its 64 spaces |
| PatternFormatter.DefaultProgramIff | externals/spdlog/include/spdlog/pattern_formatter-inl.h:1008-1016 | the default formatter is what `%+` compiles to if and only if there is no custom flag `+` |
| Base64.Encode | src/common/base64.hpp:22-51 | the loops write section 4 of RFC 4648 of the bytes as signed widening leaves them, 4 * ceil(n / 3) letters |
| Base64.LettersAreStandard | src/common/base64.hpp:15-20 | the letters are Table 1 of RFC 4648 with the pad behind it |
| Base64.GroupsAreNumbers | src/common/base64.hpp:22-51 | each group of sextets of that section is the number of its bytes written in base 64 |
| Base64.EncodeIsRfcIff | src/common/base64.hpp:22-51 | that is RFC 4648 of the message if and only if every byte of 128 or more has only 255 before it in its group |
| Base64.SevenBitIsFaithful | src/common/base64.hpp:22-51 | every message of 7-bit characters meets that condition |
| Base64.Decode | src/common/base64.hpp:53-80 | the loop throws on letters it does not know, `A` among them, and otherwise yields the bytes up to the last that is not NUL |
| Base64.DecodedRfc | src/common/base64.hpp:53-80 | decoding a standard encoding throws if some sextet is zero and otherwise gives the message |
| Base64.RoundTripIff | src/common/base64.hpp:22-80 | decoding what was encoded gives the message back if and only if nothing was overwritten and no sextet is zero |
| Unescape.UnescapeDrive | src/server/drives.cpp:135-148 | the loop in place ends with the single left-to-right pass, for every text |
| Unescape.UnescapeService | src/server/services.cpp:239-258 | the other loop likewise, and it reads past the end of an empty string |
| Unescape.UnescapesWhatWasEscaped | src/server/services.cpp:239-258 | both undo any escaping that writes every backslash as `\x` and two digits of the tables 0-9a-f and 0-9A-F; decoded letters are never read again |
| Unescape.ReadHexIs | src/server/drives.cpp:141 | what at most two characters are read as in base 16: one digit or two, or one behind space or a sign, and nothing else |
| Unescape.LoopsAgree | src/server/drives.cpp:161-174 | the two loops agree on every text in which no escape come to has one digit and something behind it, readable or not |
| UnescapeLoops.LoopsAgreeIff | src/server/services.cpp:239-258 | for every text the two loops agree if and only if no escape come to has one digit and something behind it, or both come to an escape without a digit and throw |
| Version.FromString | externals/ljh/include/ljh/char_convertions.hpp:34-67 | the forward and the backward loop compute the power sum of the longest digit prefix in 32 bits |
| Version.PowerSumIsValue | externals/ljh/include/ljh/char_convertions.hpp:52-65 | the right-to-left power sum is the decimal value read left to right |
| Version.ConversionIsRightIff | externals/ljh/include/ljh/char_convertions.hpp:34-67 | the value read is the decimal value of the digit prefix if and only if that is below 2^32 |
| Version.SignedFromString | externals/ljh/include/ljh/char_convertions.hpp:34-67 | for a signed type the loops skip a minus sign, sum the digits behind it and negate last; a sum past the type is undefined |
| Version.SignedConversionIsRightIff | externals/ljh/include/ljh/char_convertions.hpp:34-67 | the signed value read is the decimal one if and only if the type holds that value and it is not the type's least |
| Version.FromText | externals/ljh/include/ljh/version.hpp:56-84 | the constructor reads the first four pieces between dots, missing ones as zero |
| Version.PrintedVersionReadsBack | externals/ljh/include/ljh/version.hpp:157-162 | printing any version and reading the text gives the version |
| Version.DottedNumbersReadBack | externals/ljh/include/ljh/version.hpp:56-84 | any number of printed numbers with dots between them read back as the first four, missing ones zero |
| Version.CompareIsByRank | externals/ljh/include/ljh/version.hpp:107-114 | versions compare as the 128-bit numbers whose 32-bit digits are their parts |
| DBusSignature.SignatureParsesIff | externals/ljh/include/ljh/unix/dbus.hpp:162-202 | a parser of the D-Bus type system, with its table of basic types and its basic dict keys, run on a generated signature and any suffix, finds the type's shape, down to the size and sign of integers, and leaves the suffix if and only if every std::map in the type has keys of a basic type |
| DBusSignature.SignaturesArePrefixFree | externals/ljh/include/ljh/unix/dbus.hpp:162-202 | for all types, whatever their keys, no signature is a proper prefix of another |
| DBusSignature.SameSignatureIff | externals/ljh/include/ljh/unix/dbus.hpp:162-202 | two types share a signature if and only if they differ at most in std::string for `const char*` |
| Split.Split | externals/ljh/include/ljh/string_utils.hpp:178-218 | the loop computes the pieces, with the limit as size_t arithmetic reads it |
| Split.JoinRestores | externals/ljh/include/ljh/string_utils.hpp:178-218 | joining the pieces restores the text, for every separator and limit |
| Split.PiecesAreFree | externals/ljh/include/ljh/string_utils.hpp:178-218 | all pieces but the last are free of the separator, the last too unless the limit was reached, and a limit of two or more is kept |
| Split.SplitUndoesJoin | externals/ljh/include/ljh/string_utils.hpp:178-197 | for a one-character separator splitting undoes joining |
| Ini.ReadLine | src/common/ini.hpp:163-188 | comment, trimming, header, assignment and the lines that throw |
| Ini.LineMeans | src/common/ini.hpp:163-188 | for every line: a comment and the space before it are dropped; the rest is nothing, a header up to its first bracket, a key and a value about its first equals sign, or malformed |
| Ini.Ini.FindOrInsert | src/common/ini.hpp:191-197 | the first section of that name, or a new one at the end |
| Ini.Ini.Assign | src/common/ini.hpp:120-128 | the first item of that key, or a new one, is set; an empty key throws |
| Ini.Ini.LoadFile | src/common/ini.hpp:154-189 | the line loop leaves the table as the events of the text do, in order, up to the line that throws |
| Ini.LastWriteWins | src/common/ini.hpp:154-189 | every item has the last value the text assigns to it, or the one it had before |
| Ini.LoadKeepsUnique | src/common/ini.hpp:191-197 | section names and item keys stay unique and old sections keep their places |
| Ini.LoadsIff | src/common/ini.hpp:163-188 | a text loads to its end if and only if no line is malformed, no key is empty and every assignment follows a header |
| Ini.WrittenTextReadsBack | src/common/ini.hpp:154-189 | headers and assignments written line by line are read back as written, in order |

## Left out

- The latch is boost::latch, whose source is not part of this model: its `try_wait` and `reset` are taken as one atomic step, and a count_down at zero as wrapping its size_t.
- Handlers queued on the event loop may interleave with each other in the model at every action, which is more than one event loop allows; what is proved for every interleaving holds for those too.
- A fetch is reduced to its outcome (an exception, an HTTP status, success), and what it parses to the hostname; sockets, HTTP and JSON are not part of this model.
- Two cycles that overlap share the flags in the model as in the source, but reads and writes of one flag are taken as indivisible.
- Qt signals, roles, fonts and painting are left out; of the models only the row arrays are kept. `DrivesModel::insertRows` is modelled for one row at a time, which is all the handler asks for.
- The scaling of a rate to a unit and its division by a floating-point time are left out; the integer subtractions and the scaling to bits are modelled.
- Cursor positions and `m`, `K` and cursor parameters of the Linux terminal are unbounded integers within what std::stoi accepts; the C++ int arithmetic on them is not wrapped.
- The UTF-8 conversion of the Linux terminal is a parameter, and may fail for any run of bytes.
- The sixteen colours of the palette are places in it; which colours they are is not modelled.
- Screen sizes are parameters of each call; Qt's notification of a changed line count is not modelled, only whether a recount is due.
- The text of the date, elapsed-time and timezone flags, and of custom formatters, are functions given as parameters; so the fixed sizes that the date flags declare, and their truncation, are not modelled.
- `get_time_` is a function of a message's second, as its conversion to time_t makes it; the local timezone is part of that function.
- A custom formatter is a number, so a clone of one is taken to behave as the original.
- PatternFormatter.FlagFormatter: one class stands for all formatter classes of spdlog, with the cache fields that only the full formatter uses.
- A separator of length zero makes `split` push pieces for ever; it is excluded.
- Version.FromString: both conversions are modelled for types of 32 bits and a variable that is zero before, as the constructors leave it, and take `pow` as exact.
- `operator<` of versions without three-way comparison is left out, as are comparisons across limits.
- Base64: `char` is taken as signed, which is what makes the encoder widen with ones.
- Unescape: chars are the 256 values of a byte; of the six loops in the sources, alike up to names, two are modelled.
- DBusSignature: the limits of the D-Bus Specification on the length and nesting of signatures are not in the parser.
- DBusSignature: `message::add` and `message::get` need libdbus, which is not part of this model.
- Ini: reading the file is left out; `boost::lexical_cast` from and to strings is taken as the identity, and conversions to other types are not modelled.
- lsblk and df parsing, systemd, WMI, registry and Wake-on-LAN calls, server discovery, routing and settings are input and output around the parts modelled here.

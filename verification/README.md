# SanitizerSymbolizerTool: a verified model

SanitizerSymbolizerTool drives `llvm-symbolizer` or `addr2line` as a child process over two pipes
and turns their text replies into frames and data records. This project models the library in
Dafny and proves what its parts promise, for every input, every outcome of a system call and every
sequence of calls. `dafny verify dfyconfig.toml` checks all of it.

| file | what it models |
|---|---|
| `Bytes.dfy`, `Sets.dfy` | C strings, `strcspn`, `strstr`, `atoll`, printed numerals |
| `Framing.dfy` | the end-of-output tests, the read loop over arbitrary read chunks, the addr2line cut |
| `Grammar.dfy` | the declarative split of a location line and what the two parsers compute |
| `Replies.dfy` | the replies both tools print; print/read/cut/parse round trips |
| `Memory.dfy`, `Parser.dfy` | malloc/free with a set of live blocks; the parsers with their loops and in-place truncation |
| `Commands.dfy` | the command lines and their fixed buffers |
| `Descriptors.dfy` | the system as one process object sees it; the two high-numbered pipes |
| `Process.dfy`, `Runs.dfy` | `SymbolizerProcess` with its restart state machine; whole runs of `SendCommand`, `Restart` and `Kill` |
| `PoolTrace.dfy`, `Competitive.dfy`, `LowerBound.dfy` | pool contents as a function of the requests; the competitive bound, and that no smaller one holds |
| `Pool.dfy`, `PoolRuns.dfy`, `Symbolize.dfy` | `Addr2LinePool`, its whole runs, and `SymbolizeAddr` |
| `Session.dfy`, `Interface.dfy` | the public interface as a state machine, and over its global pointers with string ownership |
| `Library.dfy`, `EndToEnd.dfy` | the public interface with the tool behind it; what a caller reads in terms of what the children print |

## How the system is modelled

- Every outcome a system call may have is possible at every call: `pipe` hands out any two new
  descriptors or fails, a `write` may be cut, a `read` returns any part of what is waiting or fails and
  returns nothing, `fork`, the file check, `waitpid` and the kill succeed or fail at will; `close` always
  closes. A pipe end only carries data to or from the child that sits on the other end.
- The system keeps a ghost record of what it did: the outcomes of `pipe`, the processes forked, the process and
  the answer of every `waitpid` and every kill, how much each read asked for, the number of file checks, pipes and
  forks that failed and of writes to the child that were cut (`faults`), and the number of reads that returned
  nothing (`emptyReads`). What the library does, and what goes wrong in it, is stated in terms of this record.
- The child answers each command it receives in full with one well-formed reply, which may depend on all
  the commands before it. After a command it got only in part it may write anything. Everything about
  request and reply rests on this assumption; for llvm-symbolizer it needs commands of one line
  (`LlvmCommandIsOneLine` says which are).
- Where the source leaves its input or fails a CHECK on data from outside, the method says so in a result
  (`ParseOutcome`, `exited`, `Ending`), exactly when it happens, and promises nothing more.
- A process object is looked at in isolation: nobody else closes or reuses its descriptor numbers.
- A `const char*` into a reply is the text from there to the NUL. Token blocks are arrays with
  their NUL. `malloc` does not fail. `Heap.Free` demands a live block, so no verified method frees twice.
- `atoll` saturates at 64 bits, as the usual C libraries do; the C standard leaves larger numerals undefined.
  `snprintf` returns a negative number when the length does not fit an `int`, as POSIX says; the
  model takes the buffer then to hold the cut text.
- A contract stated over snapshots (`CallStep`, `PoolStep`, `Session.Step`) is what the class
  methods are proved against; the lemmas about whole runs follow from it.

## Where the code does not do what one expects

- The base read loop returns true even if a read returned nothing, because the inner `ret` shadows
  the outer one (lib/symbolizer.cpp:99-123). For llvm-symbolizer a reply cut short is then a success, and its
  rest comes with the next reply. The texts are the answers to their own commands if and only if no read came
  back empty (`Synchrony`); `ShiftedReplies` is a run out of step, and even there no character is lost
  (`Conservation`). For addr2line the CHECK of its override ends the program instead (`ReadFromSymbolizer`).
- `file:?` loses its mark except for one-character file names (`OneLetterFileKeepsMark`; lib/use_llvm_symbolizer.cpp:89-94).
- An addr2line reply is cut too early exactly when an entry other than a leading `??` has a
  function name ending in `??` and the location `??:0` (`Addr2LineCut`; `UnknownFrameIsLost` has such a reply;
  lib/use_addr2line.cpp:72-84).
- A location line that is a bare `:digits` group is scanned past its start, and an empty one leaves the
  file pointer unset. A reply is parsed without either exactly if no frame has such a line (`LineFaults`,
  `ReplyFaults`; `FaultyReplies` has a reply for each; lib/use_llvm_symbolizer.cpp:30-43).
- An llvm command longer than an `int` can count passes the length test cut (`LongNameIsCut`; lib/use_llvm_symbolizer.cpp:214-229).
- A flush of the pool leaves the descriptors of a process open if and only if it held some, and has no pid or is
  not killed by the system (`FlushPool`; lib/symbolizer.cpp:389-403, lib/use_addr2line.cpp:105-112). A process whose
  first start-up check failed holds two and has no pid (`Strand`; lib/symbolizer.cpp:361-375). One whose child
  started well and died, and whose next start-up check failed, keeps the pid of the dead child
  (`StrandedProcesses`; lib/symbolizer.cpp:83-92).
- The header says that all global pointers are null after an init that fails. A second init with a
  bad path leaves the first session up (`FailedInit`, `SecondInitFails`; include/sanitizer_symbolizer_tool.h:22-24,
  lib/interface.cpp:72-106).

## Model

| member | source | states |
|---|---|---|
| Bytes.AtollNumeral | lib/symbolizer.cpp:425-433 | reading back a printed decimal gives the number, up to the largest signed 64-bit one |
| Bytes.AtollReads | lib/symbolizer.cpp:425-433 | blanks, a sign, leading zeros and a decimal, whatever follows, are read as its number, with the two ends of the signed 64-bit integers as bounds |
| Bytes.CharClasses | lib/common.h:286-292 | the digits and the blanks by their members |
| Framing.ChunkingIrrelevant | lib/symbolizer.cpp:96-124 | a reply whose end is recognised only at its end is read whole under every split into nonempty reads |
| Framing.NoStraddle | lib/use_addr2line.cpp:72-80 | the terminator never occurs across the boundary of an answer and the terminator after it |
| Framing.Addr2LineFraming | lib/use_addr2line.cpp:52-87 | for every nonempty answer, the loop stops only at the end of answer and terminator, and the cut leaves the answer, if and only if the terminator does not occur in the answer after index 0 |
| Framing.LlvmFraming | lib/use_llvm_symbolizer.cpp:123-127 | lines closed by an empty line end where the loop stops, and nowhere before, if and only if no line but perhaps the first is empty |
| Framing.WellFormedFraming | lib/use_addr2line.cpp:68-87 | on a well-formed reply the CHECK for the terminator holds and the trimmed buffer is the answer |
| Framing.StopsExactly | lib/symbolizer.cpp:96-124 | of a reply whose end can only be seen at its end, the text read so far reaches the end of output if and only if nothing is left |
| Framing.CutExactly | lib/use_addr2line.cpp:68-87 | of an addr2line reply read in part or whole, the terminator is found if and only if it was read whole, and the cut then leaves its answer |
| Grammar.SplitLine | lib/use_llvm_symbolizer.cpp:25-46 | splits any line into a file and the maximal number, at most two, of trailing `:digits` groups |
| Grammar.SplitUnique | lib/use_llvm_symbolizer.cpp:22-46 | there is only one such split of a line |
| Grammar.FrameShows | lib/use_llvm_symbolizer.cpp:63-99 | for every function line and location line: function and file are null if and only if they read `??`, the mark `:?` is cut under the three tests, and line and column are the numbers of the groups |
| Grammar.UptrReads | lib/symbolizer.cpp:425-433 | every decimal a signed 64-bit integer holds is read as itself, a negative one modulo 2^64 |
| Grammar.LineFaults | lib/use_llvm_symbolizer.cpp:30-43 | how far left the two rounds of the scan read, for every line, in terms of its declarative split; they read before the line if and only if it is a bare group, and the file stays unset if and only if the line is empty |
| Grammar.ReplyFaults | lib/use_llvm_symbolizer.cpp:53-101 | a reply is parsed without either fault if and only if every frame has a location line that is neither empty nor a bare group |
| Grammar.FaultyReplies | lib/use_llvm_symbolizer.cpp:30-43 | one reply for either fault |
| Parser.ExtractToken | lib/symbolizer.cpp:405-413 | the new block holds the text before the first delimiter; what follows that delimiter is returned |
| Parser.ExtractUptr | lib/symbolizer.cpp:425-433 | the token's number, and its block is freed again |
| Parser.WalkDigits | lib/use_llvm_symbolizer.cpp:33 | stops at the last character that is no digit, or at the first character |
| Parser.ScanFileLineInfo | lib/use_llvm_symbolizer.cpp:30-42 | stays inside its block exactly if no round reads before the line, and then leaves the file of the declarative split in place and yields its groups as line and column |
| Parser.ParseFileLineInfo | lib/use_llvm_symbolizer.cpp:25-46 | for every line: out of the line, file unset, or file, line and column of the split with only the new file block left allocated |
| Parser.NullIfUnknown | lib/use_llvm_symbolizer.cpp:79-98 | a name that reads `??` is freed and becomes null, any other stays |
| Parser.CutUnknownLine | lib/use_llvm_symbolizer.cpp:89-94 | `:?` is cut off in place exactly when no line was found and the text is longer than three |
| Parser.ParseFrame | lib/use_llvm_symbolizer.cpp:63-99 | unless its location line is at fault, the frame of one function and location line; each block it still owns is owned by one field |
| Parser.NextFrame | lib/use_llvm_symbolizer.cpp:54-63 | an empty function line ends the reply and its block is freed |
| Parser.ParseSymbolizeAddrOutput | lib/use_llvm_symbolizer.cpp:53-101 | for every reply: ends in the fault of its first faulty line, or appends exactly the frames of the reply, and every block allocated is freed or owned by exactly one field of one new frame |
| Parser.ParseSymbolizeDataOutput | lib/use_llvm_symbolizer.cpp:110-118 | fills in the record of the reply in two new blocks, and does not free the strings it replaces |
| Replies.FrameRoundTrip | lib/use_llvm_symbolizer.cpp:25-100 | a printed frame is read back as printed if and only if its location is recoverable |
| Replies.OneLetterFileKeepsMark | lib/use_llvm_symbolizer.cpp:89-94 | the input `a:?` on which the mark stays in the file name |
| Replies.ParsePrinted | lib/use_llvm_symbolizer.cpp:53-101 | parsing printed frames gives them back in order, as many as printed, and all equal if and only if every location is recoverable |
| Replies.LlvmEndToEnd | lib/use_llvm_symbolizer.cpp:123-127 | read in any pieces, a printed llvm reply arrives whole and parses to its frames if and only if they are recoverable |
| Replies.InteriorTerminator | lib/use_addr2line.cpp:72-77 | the terminator occurs in printed frames after index 0 if and only if some frame but a leading unknown one looks final |
| Replies.Addr2LineCut | lib/use_addr2line.cpp:54-87 | the reply is read to its end and cut to the answer if and only if no frame clashes with the terminator |
| Replies.UnknownFrameIsLost | lib/use_addr2line.cpp:72-84 | a known frame followed by an unknown one: only the first survives the cut |
| Replies.Addr2LineEndToEnd | lib/use_addr2line.cpp:52-103 | read in any pieces and cut, a printed addr2line reply without a clash parses to its frames if and only if they are recoverable |
| Replies.PrintedRepliesWellFormed | lib/use_llvm_symbolizer.h:21-30 | printed replies are well-formed in the sense the process protocol assumes |
| Replies.DataRoundTrip | lib/use_llvm_symbolizer.cpp:103-118 | the three-line data reply is read back whole if and only if the file name has no colon |
| Replies.DataWithoutFile | include/sanitizer_symbolizer_tool.h:127-131 | without the third line the file reads a newline and the line is 0 |
| Replies.DataFraming | lib/use_llvm_symbolizer.cpp:123-127 | either data reply, read in any pieces, reaches the parser whole |
| Commands.Addr2LineCommandWhole | lib/use_addr2line.cpp:133-136 | for every 64-bit offset the command is the two lines `0x`, offset in hexadecimal and `0xffffffffffffffff`, whole in its buffer; as a reader of hexadecimal takes them only with their `0x`, they are the offset and an address no 32-bit offset has |
| Commands.LlvmCommandWhole | lib/use_llvm_symbolizer.cpp:214-229 | for every text: it goes out whole if and only if it has fewer than 16384 characters, not at all if and only if it has more and an int counts them, and else its first 16383 |
| Commands.PathFits | lib/use_llvm_symbolizer.h:58 | every request for a name of at most 4096 characters, as long as a path may be, and any 64-bit offset goes out whole |
| Commands.LongNameIsCut | lib/use_llvm_symbolizer.cpp:214-229 | a name for which the command goes out cut |
| Commands.LlvmCommandDecodes | lib/use_llvm_symbolizer.cpp:214-221 | a reader that wants the quotes, the space and the `0x` where they belong takes the command as its prefix, name and offset if and only if the name has no quote |
| Commands.LlvmCommandIsOneLine | lib/use_llvm_symbolizer.cpp:214-221 | the command is a single line if and only if prefix and name hold no newline |
| Descriptors.AtMostThreeLowPairs | lib/symbolizer.cpp:149-154 | of any number of disjoint pairs at most three touch a standard stream |
| Descriptors.ClosePairs | lib/symbolizer.cpp:158-172 | closes exactly the first pairs but the kept one |
| Descriptors.CreateTwoHighNumberedPipes | lib/symbolizer.cpp:146-184 | succeeds within five calls unless a call of pipe fails; success opens exactly four distinct descriptors above 2, both ends of two pipes, failure none; both CHECKs hold |
| Process.SymbolizerProcess.ReadUntilEnd | lib/symbolizer.cpp:96-124 | the buffer is that of the read loop over what the reads returned, each of which asked for at least 1024 characters; a read came back empty if and only if the text does not reach the end of output, which for a reply with one recognisable end means that some of it is left; the result is true all the same |
| Process.SymbolizerProcess.ReadFromSymbolizer | lib/use_addr2line.cpp:68-87 | text, cut mark and what is left are exactly what was waiting; for addr2line nothing is left, and the CHECK fails if and only if a read came back empty |
| Process.SymbolizerProcess.WriteToSymbolizer | lib/symbolizer.cpp:126-137 | true for a nonempty command if and only if the pipe leads to the child and the system took the command whole |
| Process.SymbolizerProcess.SendCommandImpl | lib/symbolizer.cpp:73-81 | for every command, the empty one included: null means that there is no connection or that a write was cut; otherwise the text and what is left are what was unread and the reply to this command |
| Process.SymbolizerProcess.IsRunning | lib/symbolizer.cpp:383-387 | asks the system about the process of the object, once, if it has one |
| Process.SymbolizerProcess.Kill | lib/symbolizer.cpp:389-403 | with a pid the system is asked once to kill that very process and its answer is the result; success closes what the object held and drops the pid, failure changes neither |
| Process.SymbolizerProcess.StartSubprocess | lib/symbolizer.cpp:194-216 | both descriptors given to the child are closed in the parent even if fork fails |
| Process.SymbolizerProcess.StartSymbolizerSubprocess | lib/symbolizer.cpp:321-377 | the object then holds the two ends that face the new child, with nothing unread, if and only if none of file check, pipe and fork failed, and else nothing; the start-up check asks about the process just forked, decides the result and whether that pid is taken; an invalid path is noted if and only if the file check failed; CHECK_GT holds |
| Process.SymbolizerProcess.Restart | lib/symbolizer.cpp:83-92 | asks about the process it had and kills that one, once, if and only if it is reported as running; closes what was held, leaves no old reply behind, and is connected again if and only if no system call of the start failed; the result is then what the start-up check says of the process just forked, and else false |
| Process.SymbolizerProcess.SendCommand | lib/symbolizer.cpp:52-71 | keeps the descriptor, pid, budget and latch invariants and makes one CallStep: one restart per failed attempt, as many as it had no connection or system calls failed; null exactly when the latch is set, else text of the child that got the command, nothing lost; a latched object is not touched; addr2line ends the program if and only if a read comes back empty |
| Runs.Operate | lib/symbolizer.cpp:52-92 | any mix of commands, restarts and kills is a run, broken off if and only if a read for addr2line comes back empty; the descriptors opened and not closed are among the two in the fields; no process is asked about, killed or taken that the object did not fork |
| Runs.RestartBudget | lib/symbolizer.h:130-133 | over any run: the restarts made by calls equal the counter and are at most 5, the latch holds exactly at 5, attempts are calls that returned text plus restarts |
| Runs.FaultAccount | lib/symbolizer.cpp:52-92 | over any run the restarts made by calls are exactly accounted for by the first start, failed system calls, connections cut by kills and connections mended by public restarts |
| Runs.AnswersUnlessSystemFails | lib/symbolizer.cpp:52-81 | in a run with fewer than four failed system calls and connections cut by kills every call returns text |
| Runs.FourFaultsLatch | lib/symbolizer.cpp:60-70 | a run in which four failed system calls make a call return null |
| Runs.Strand | lib/symbolizer.cpp:361-403 | a new process whose start reaches the start-up check and fails it keeps two descriptors open after Kill, and the system was never asked to kill |
| Runs.StrandedProcesses | lib/symbolizer.cpp:83-92 | a run to such a process, which no kill can disconnect, and one to a process with the pid of a dead child |
| Runs.ServedCommands | lib/symbolizer.cpp:73-81 | over any run the children received exactly the commands of the calls that returned text, in order |
| Runs.CleanCall | lib/symbolizer.cpp:73-137 | with nothing unread, a call returns the answer to its own command if and only if none of its reads came back empty, and then leaves nothing unread |
| Runs.Synchrony | lib/symbolizer.cpp:52-137 | over any run every text returned is the answer to its own command, given the commands received before, if and only if no read came back empty |
| Runs.Addr2LineInStep | lib/use_addr2line.cpp:68-87 | for addr2line every text returned is the answer to its own command, and no read of a run came back empty |
| Runs.Conservation | lib/symbolizer.cpp:96-137 | while one child is kept, the texts returned and what is unread are, in order, what the child wrote for the commands it received |
| Runs.ShiftedReplies | lib/symbolizer.cpp:99-123 | two calls of which the second returns the rest of the first reply |
| Runs.LatchIsFinal | lib/symbolizer.cpp:52-70 | after the latch every call returns null and makes no attempt, and only the public Restart starts the process again |
| PoolTrace.PoolContents | lib/use_addr2line.cpp:116-131 | the pool holds the distinct modules requested since the last flush in first-request order, at most 16, no two alike |
| PoolTrace.FlushCondition | lib/use_addr2line.cpp:125-127 | a request flushes if and only if 16 modules were requested since the last flush and it is for another one |
| PoolTrace.CreatedByPhase | lib/use_addr2line.cpp:125-131 | the processes created are 16 for each flush and one for each module present |
| Competitive.PoolIsCompetitive | lib/common.h:65-73 | against any policy, even one knowing the future, that keeps at most h modules, the pool creates at most 16/(17-h) times as many processes as it loads |
| Competitive.SixteenCompetitive | lib/common.h:65-73 | with the same capacity the factor is 16 |
| LowerBound.BoundIsReached | lib/use_addr2line.cpp:105-131 | for every capacity h there are requests of any number of phases, all missed by the pool, on which a policy of that capacity meets the bound up to the constant 16 * (h - 1) |
| LowerBound.NoSmallerFactor | lib/use_addr2line.cpp:105-131 | no factor below 16/(17-h) bounds the pool against policies of capacity h, whatever constant is added |
| Pool.Addr2LinePool.Find | lib/use_addr2line.cpp:117-124 | finds the process of the module if and only if the pool has one |
| Pool.Addr2LinePool.FlushPool | lib/use_addr2line.cpp:105-112 | empties the pool and calls Kill on every member once; a member leaves nothing open if and only if it held nothing, or has a pid and the system kills it, and else what it held |
| Pool.Addr2LinePool.Add | lib/use_addr2line.cpp:125-131 | flushes exactly when full, then appends a fresh process object for the module |
| Pool.Addr2LinePool.SendCommand | lib/use_addr2line.cpp:116-137 | makes one PoolStep: the request goes to the process started for this very module, no other member changes, and the CHECK holds; the program ends if and only if a read for that process comes back empty |
| PoolRuns.ServePool | lib/use_addr2line.cpp:116-137 | every sequence of requests to a new pool is a run of PoolSteps, to its end unless a read for the process of a requested module comes back empty |
| PoolRuns.PoolFollowsTrace | lib/use_addr2line.cpp:116-137 | in every run the members and the number of processes created are those of the request trace |
| PoolRuns.PoolCreatesCompetitively | lib/use_addr2line.cpp:125-131 | in every run the pool creates at most 16 times the loads of any policy |
| PoolRuns.HistoryIsAsked | lib/use_addr2line.cpp:116-137 | the process of a module has received exactly the requests for it answered since the last flush |
| PoolRuns.AnswersAreOfTheModule | lib/use_addr2line.cpp:132-136 | every non-null result is the answer of the requested module's process to this request, given the requests for the module answered since the last flush |
| PoolRuns.StartsPerProcess | lib/symbolizer.cpp:60-65 | over any run at most 5 processes are started for each process object created, those of flushed objects included |
| PoolRuns.AnswersUnlessSystemFails | lib/use_addr2line.cpp:116-137 | in any run a request fails only if four system calls have failed for the process of its module |
| PoolRuns.LatchedUntilFlush | lib/use_addr2line.cpp:105-137 | once a module's process has latched, every request for the module fails until the pool is flushed |
| Symbolize.SymbolizeAddr | lib/use_addr2line.cpp:96-103 | on success appends the frames of the answer to this request in fresh blocks, otherwise nothing; or ends in the fault of the answer, or if and only if a read for the module's process comes back empty |
| Symbolize.RunSymbolizes | lib/use_addr2line.cpp:96-137 | in every run a non-null result parses without fault to exactly the entries the module's child printed |
| Session.SelectByBaseName | lib/interface.cpp:77-94 | an executable path selects llvm-symbolizer if and only if its last component begins with that name, addr2line if and only if it is that name, and is else unsupported |
| Session.SelectsNothing | lib/interface.cpp:75-81 | a path that cannot be executed gives err_path_not_executable whatever it reads, an empty one err_path_corrupted |
| Session.Codes | lib/interface.cpp:72-207 | after any calls, the return code of every further call: each error of a session that is down and of one that is up, by its name |
| Session.NewSession | lib/interface.cpp:103-106 | after a successful init there is no frame to read, and the record is null pointers and zeros |
| Session.VisibleFrames | lib/interface.cpp:103-181 | the session is up exactly after a successful init and no fini since, and the visible frames are those of all answered sends since they were last emptied |
| Session.SendAndRead | lib/interface.cpp:154-181 | an answered send reports the number of visible frames; reads return them by index, and err_outofbound past the end; a failed send reports none and leaves them |
| Session.FailedInit | include/sanitizer_symbolizer_tool.h:22-24 | after a failed init the pointers are null exactly if they were before |
| Session.SecondInitFails | lib/interface.cpp:72-106 | two inits of which the second fails and leaves the first session up |
| Session.DataAccount | lib/interface.cpp:183-207 | data_read shows the record of the last answered data send of the session, without its strings once they were freed |
| Session.LeakOfCall | lib/interface.cpp:72-195 | what one call leaks, after any calls: all strings of the session that a successful init replaces, two strings at an answered data send over an unfreed record, and else none |
| Session.LeaksExactly | include/sanitizer_symbolizer_tool.h:147-168 | over any sequence of calls no string is leaked if and only if no init replaces a session that holds strings and no answered data send finds an earlier record unfreed |
| Session.DisciplineLeaksNothing | lib/interface.cpp:108-195 | a caller that inits only when down and frees between answered data sends leaks no string |
| Interface.FreeStrings | lib/interface.cpp:123-127 | frees each string of the frames exactly once |
| Interface.FreeDataStrings | lib/interface.cpp:110-117 | frees the strings of a data record and nulls their pointers |
| Interface.SanSymTool.Init | lib/interface.cpp:72-106 | the three pointers are set together or not at all; what an earlier session held is leaked |
| Interface.SanSymTool.FreeDataRes | lib/interface.cpp:108-119 | frees the record's strings and keeps its numbers |
| Interface.SanSymTool.FreeAddrRes | lib/interface.cpp:121-130 | frees all frame strings and empties the frames |
| Interface.SanSymTool.Fini | lib/interface.cpp:141-151 | the buffers: all pointers null; the live strings are the leaked ones |
| Interface.SanSymTool.SendAddrDat | lib/interface.cpp:154-167 | for every reply: ends in its fault, or appends its frames and reports their total; a failure touches neither frames nor n_frames |
| Interface.SanSymTool.ReadAddrDat | lib/interface.cpp:169-181 | the frame at the index, or the error the session gives |
| Interface.SanSymTool.SendDataDat | lib/interface.cpp:183-195 | replaces the record; the strings of the earlier one are leaked |
| Interface.SanSymTool.ReadDataDat | lib/interface.cpp:197-207 | the fields of the record |
| Interface.SanSymTool.Perform | lib/interface.cpp:65-207 | each call ends in the fault of its reply or does what the abstract session does, and every live string is owned by exactly one field or leaked |
| Interface.SanSymTool.Run | lib/interface.cpp:65-207 | any sequence of calls ends in its first fault or follows the session; after a final fini the number of live strings is the leak count, none exactly for a careful caller |
| Library.FormatAndSendCommand | lib/use_llvm_symbolizer.cpp:208-228 | a command of fewer than 16384 characters, so every one for a path of at most 4096, is one CallStep of the process; a longer one whose length an int holds leaves the process as it was and fails |
| Library.Library.Ask | lib/symbolizer.h:69-70 | one request to whatever tool there is is one step of its processes; the program ends if and only if a read for the addr2line of the module comes back empty |
| Library.Library.Start | lib/interface.cpp:72-106 | a successful init creates a new tool of the selected kind with fresh buffers, a failed one changes nothing |
| Library.Library.TwoForEachProcess | lib/symbolizer.cpp:83-92 | while there is a tool each of its processes, at most 16, holds at most two descriptors |
| Library.Library.Stop | lib/interface.cpp:132-152 | Kill is called once on every process of the tool and the tool is gone; a process leaves nothing open if and only if it held nothing, or has a pid and the system kills it; all pointers null, and the live strings are the leaked ones |
| Library.Library.SendAddr | lib/interface.cpp:154-167 | the children of the tool are asked once and the session gets their text; the program ends in addr2line's CHECK if and only if a read for the module's process comes back empty, and else only in the fault of the text |
| Library.Library.SendData | lib/interface.cpp:183-195 | llvm-symbolizer is asked with DATA, addr2line never, and the session gets the text |
| Library.Library.Run | lib/interface.cpp:65-207 | any sequence of public calls is a trace of the session and of the processes behind it, with the same account of strings after a final fini |
| EndToEnd.AnswerParses | lib/use_llvm_symbolizer.cpp:182-189 | the text that answers an address request parses without fault to the frames of the entries that the asked child printed |
| EndToEnd.CallerReadsWhatChildrenPrint | lib/interface.cpp:154-181 | over any sequence of public calls, restarts and flushes included: if the entries printed for the answered requests are recoverable and do not clash, no read from llvm-symbolizer comes back empty and no llvm command is longer than an int counts, then no reply is at fault and addr_read gives exactly the frames of the entries printed by the requested modules' children since the frames were last emptied |
| EndToEnd.CallerReadsTheRecordPrinted | lib/interface.cpp:183-207 | over any such sequence data_read gives the record that llvm-symbolizer printed for the last answered data request of the session, in the three-line form or the older one, without its names once they were freed |
| EndToEnd.AnswersUnlessSystemFails | lib/interface.cpp:154-167 | over any sequence of public calls an address request on a session that is up is answered, unless its llvm command has 16384 characters or more or four system calls have failed for the process it goes to |
| EndToEnd.PathsAreAnswered | lib/interface.cpp:154-167 | so a request for a module with a path of at most 4096 characters is answered unless four system calls have failed for its process |

## Left out

- Addr2LinePool.SendCommand: does not model descriptor numbers shared between pool members; a failed start or a kill leaves stale numbers in the fields that another member may reuse, so each process has its own descriptor table here.
- Process.SymbolizerProcess.Kill: does not claim that the child ends; `KillChildProcess` reports success without a signal when the child is still running.
- Process.SymbolizerProcess.ReadUntilEnd: does not bound how long a read blocks; an end of file is a read that returns nothing. A read for an empty command, to which no child replies, is taken to return nothing in the end.
- Process.SymbolizerProcess.ReadFromSymbolizer: when the first read for addr2line returns nothing, the source searches from one past the end of an empty text, in the zero-filled rest of the buffer; the model takes the terminator as not found there.
- Interface.SanSymTool.Init: takes the outcome of `access` as a parameter; a null path is a path that is not executable.
- Parser.ParseSymbolizeAddrOutput: after a fault nothing is promised, because the source then reads memory or a pointer that nobody set.
- Library.Library.SendAddr: module names are texts, not null pointers; the architecture is the unknown one that the public interface always passes.
- The child side of `fork`, `execv`, `dup2`, `setsid`, signals, `usleep` and the argument vectors: system effects.
- `std::vector` capacities beyond room for 1024 more characters in a read, log messages, architecture names: environmental or easy.
- The block of a pool member's module name, freed and deleted at a flush: a constant of the object here.
- Discriminator suffixes of addr2line: outside the grammar the parser handles.

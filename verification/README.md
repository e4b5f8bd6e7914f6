# A verified model of the FTP daemon

The program is a forking FTP server (RFC 959). A parent daemon accepts connections, forks a child for each, and keeps
a linked list of its children. A child runs one session: it cuts the control connection into commands, resolves client
paths below a root directory, moves files over data connections at a limited rate, and reports its state to the daemon
as frames on one pipe that all children share.

| module | what it models |
|---|---|
| `CStrings` | C strings in buffers; `strlcpy`, `trim_whitespace` |
| `Paths`, `Vfs` | the canonicaliser of client paths: a walk on a stack of names, and the walk in the fixed buffer that refines it |
| `Wire` | the frames of the state pipe as bytes, and what each says |
| `Daemon` | daemon, children, kernel and pipe as one step system; its invariant over every schedule |
| `ChildList` | the linked list, `seek_pipe`, `recv_state` and the daemon's signal handling in place, refining the steps of `Daemon` |
| `Framer` | `read_cmd`, `parse_cmd`, `remove_cmd` and the main loop in the command buffer, refining a split at newlines |
| `CommandPool` | the growing, sorted command table and its binary search |
| `Server`, `Session` | the session machine behind the table and its gate; the handlers on the session object, refining it |
| `Service` | what a client gets from the session machine, command by command, in the terms of the protocol |
| `Conversation` | the framer feeding the session machine: a whole session |
| `Throttle`, `Transfer` | the pause after each block and what it makes of a whole transfer; the block loops of RETR and STOR |
| `Calendar` | `convert_time` for any leap-year rule |
| `Config` | the line scanner, the attribute parser and the checks of a configuration |

One `char` stands for one byte and a C string is the sequence before its terminator. `int` in the C code is modelled
with its 32 bits where a value can leave them: the block counter of a transfer, the byte count and the milliseconds of
the throttle, the integers of the configuration.

## Assumptions about the environment

- Allocation succeeds.
- `login.user`, which `new_session` leaves uninitialised (server.c:188-191), is null until a USER command.
- An account has a home directory; `anon_root_dir` may be null, and what follows from that is modelled.
- A write of one frame is atomic: the largest frame is 1036 bytes, below the 4096 of Linux's `PIPE_BUF` (`Wire.Encode`).
- A pipe read returns the bytes asked for, or as many as there are.
- `fork` returns a pid below 2^31 that no unreaped child has and no frame in the pipe carries.
- SIGCHLD is raised only by a child that terminates; `waitpid` finds a terminated child when there is one.
- A splice moves its whole block, or fails and moves nothing. `sendfile` at the end of a file moves nothing.
- The clock does not run backwards. A `nanosleep` that is interrupted leaves strictly less than it was asked for, and
  any one run meets finitely many interruptions.
- `mmap` maps whole pages of 4096 bytes. `qsort` sorts.

## Where the code departs from its intent

These are kept as the code has them; the lemma named says what follows.

- One child is waited for per SIGCHLD flag, and the flag word is cleared whole. Two children that die before the
  handler runs leave one child more unreaped, and one place less under the client cap, than signals will make up for:
  exactly one for every merged signal (`Daemon.ForgottenCountsMerges`, `Daemon.ASlotCanBeLost`).
- A terminating signal that comes together with a SIGCHLD is cleared with it and the daemon goes on (`Daemon.EndsIff`).
- `strlcpy` writes nothing for an empty source, so an empty file name or path reports what the pool last held
  (`Wire.FilenameToldIff`, `Wire.EmptyNameRepeatsThePath`).
- The number of blocks of a RETR is an `int`: a completed transfer of 2^43 bytes or more is not the file
  (`Transfer.SentIsTheRestIff`). When the splice of the remainder finds the end of the file, its bytes are still counted
  and the transfer still succeeds (`Transfer.FullIff`, `Transfer.AShorterFileIsCounted`).
- STOR leaves the restart position for the next transfer where RETR resets it (`Transfer.Channel.Store`).
- The byte count of a throttle window is copied to an `int`; one of 2^31 skips the sleep
  (`Throttle.TruncationSkipsTheSleep`). Rates from some 4.28 million kB/s on, and no lower ones, get there within half a
  second of steady calls (`Throttle.CountableIff`); a window that is never ended because calls are 24 days apart gets
  there at any rate (`Throttle.RareCallsOverflow`).
- A client that sends many short commands at once fills the buffer, although none of them is too long
  (`Framer.ABurstIsTooLong`, `Framer.FillsExactlyOnOverrun`).
- LIST leaves the session in the listed directory when `opendir` fails (`Server.ListKeepsCwdIff`).
- With anonymous logins allowed and no anonymous directory, which an empty configuration file leaves,
  USER and PASS use a null pointer (`Server.FaultsExactlyWithoutARoot`, `Config.EmptyFileIsUnchecked`). The same defaults
  make a file that only names a port unacceptable (`Config.PortAloneIsRejected`).
- USER with a name after an anonymous USER leaves `anonymous` set, so the next PASS logs in anonymously, at the
  anonymous directory, whatever its argument (`Server.TheAnonymousUserStays`, `Server.AnonymousIff`).
- `is_leap` tests for a non-zero remainder: every year that is no multiple of 400 is a leap year
  (`Calendar.WrittenRuleIsRightIff`).
- The configuration scanner looks one or two bytes behind the file, which leaves the mapping for files of certain sizes
  (`Config.LeavesTheMapIff`), and `trim_whitespace` walks off the front of a line, or of the name before
  an equals sign, that is not all blanks but has nothing except white space, as a blank line ending in CRLF does not
  (`Config.StraysIff`, `Config.FileStraysIff`). Both are reads outside the program's memory: the model calls the outcome
  undefined and says nothing of what follows.

## Model

| member | source | states |
|---|---|---|
| CStrings.CopiedSays | util.c:77-89 | after strlcpy the destination reads as the source exactly when the source fits, or is empty and the destination already read empty |
| CStrings.Strlcpy | util.c:77-89 | the bounded copy touches only its part of the buffer and returns the full source length, so callers can see truncation |
| CStrings.TerminatedAt | util.c:77-89 | the first NUL alone decides what a buffer says |
| CStrings.TrimWhitespace | util.c:91-110 | trimming yields the string without leading blanks and writes at most one NUL, between the last solid character and the old end, whatever follows in the buffer |
| CStrings.TrimSays | util.c:91-110 | behind that NUL the string reads without trailing white space |
| CStrings.LastNonSpace | util.c:101-107 | the walk back, which has no test for the start of the string, stops at the last character that is not white space when there is one |
| CStrings.RightTrimKeeps | util.c:101-107 | no character that is not white space is ever trimmed away |
| CStrings.SkipBlanksIs | util.c:96-98 | all the spaces and tabs in front of a string are skipped, and nothing else |
| Paths.FailsExactlyOnOverflow | vfs.c:99-144 | the walk in a bounded buffer succeeds exactly when the directory after every prefix of the components fits, and then ends where an unbounded walk ends |
| Paths.WalkSucceedsIff | vfs.c:99-144 | the same, against the recursive condition that every intermediate directory fits |
| Paths.AllFitIff | vfs.c:126-131 | that condition is one about every prefix of the path |
| Paths.ResolveIsCanonical | vfs.c:74-147 | whatever path is resolved from a canonical directory, the outcome is canonical: leading slash, no empty, "." or ".." piece, no trailing slash but the root's, under 1024 bytes |
| Paths.RenderIsCanonical | vfs.c:132-144 | a stack of ordinary names always renders to a canonical string |
| Paths.CanonicalIsRender | vfs.c:72-98 | every canonical string is the rendering of its own components, so the saved directory loses nothing when fed back |
| Paths.ComponentsOfRender | vfs.c:99-144 | cutting a rendered stack at its slashes gives the stack back |
| Paths.ResolveInTwoSteps | vfs.c:74-147 | resolving p and then a relative q is resolving p/q, failures included |
| Paths.CanonicalResolvesToItself | vfs.c:74-147 | a canonical absolute path resolves to itself from any directory |
| Paths.DotStays | vfs.c:112-114 | "." and the empty path resolve to the current directory |
| Paths.NameIsAppended | vfs.c:124-136 | an ordinary name resolves to the current directory, a slash and the name, or fails from 1024 bytes on |
| Paths.UpUndoesDown | core.c:109-138 | ".." after any ordinary name that could be entered restores the directory |
| Paths.UpFromRoot | vfs.c:116-123 | no number of ".." and "." components leaves the root |
| Paths.NothingAboveRoot | vfs.c:116-123 | every path of such components, with any slashes between them, resolves to the root from the root |
| Vfs.Pool.constructor | vfs.c:16-39 | a new pool reads as the root directory followed by "/" and its virtual part as "/" |
| Vfs.Pool.Realpath | vfs.c:74-147 | the in-place canonicaliser computes the stack walk: it fails exactly when the walk overflows or the current directory does not fit, and leaves root + canonical path as one string and the path as its tail, all inside the buffer |
| Vfs.Pool.Begin | vfs.c:82-97 | the buffer starts from the root for an absolute path and from the current directory otherwise |
| Vfs.Pool.Step | vfs.c:107-137 | one component takes the buffer from one stack to the next, failing exactly when the pushed name does not fit |
| Vfs.Pool.Up | vfs.c:116-123 | the backward scan stops at the slash before the last name and never before the start of the virtual path |
| Vfs.Pool.Push | vfs.c:124-136 | a name is appended behind exactly one slash, or the call fails, exactly from 1024 bytes on |
| Vfs.Pool.Finish | vfs.c:139-146 | the final slash is dropped unless it is the root, and both strings end there |
| Vfs.Pool.RealIsRootThenVirt | vfs.c:16-39 | real_path always reads as the root directory followed by what virt_path reads |
| Vfs.Pool.Chdir | vfs.c:201-209 | the caller's directory becomes the canonical resolution, or stays byte for byte when that fails |
| Vfs.NextPiece | vfs.c:99-106 | one turn of the outer loop cuts off exactly the first component of what is left |
| Vfs.LastSlash | vfs.c:116-123 | for every non-root stack the buffer holds the slash ".." goes back to, and the front of the stack before it |
| Wire.DecodeEncode | state.c:222-267 | a frame reads back as it was written, whatever bytes follow, and reading takes exactly its bytes |
| Wire.FramesAppend | state.c:222-267 | an atomic write to a pipe of whole frames adds one whole frame at the end |
| Wire.FramesFirst | state.c:72-119 | the first frame of a whole pipe has the right magic and a known type, and taking it leaves a whole pipe |
| Wire.SplitConcat | state.c:72-119 | two pipes of whole frames put together are the frames of both |
| Wire.ReceivingIsTold | state.c:121-220 | reading a frame changes the daemon's record, as C strings, just as sending it changed what the child has told |
| Wire.FilenameToldIff | state.c:307-318 | a reported file name is the session's own exactly when it is non-empty and under 256 bytes, or empty while the pool starts with NUL |
| Wire.EmptyNameRepeatsThePath | state.c:307-318 | for every directory just reported, an empty file name sent next reports that directory, cut to 255 bytes, in its place |
| Wire.FillKeepsLastNul | state.c:269-326 | no message writes the last byte of the pool, whatever was sent before |
| Wire.PayloadIsSafe | state.c:269-326 | login and directory frames always carry their terminator |
| Wire.ReceiveTerminates | state.c:121-185 | receiving keeps every string of a record inside its array |
| Daemon.NeverFaults | state.c:72-119 | in every schedule of forks, messages, deaths, signals, reaps and reads, the pipe is a sequence of whole frames, recv_state never fails, waitpid never comes back empty and remove_client never runs off the list |
| Daemon.ListIsTheChildren | daemon.c:105-134 | at every loop head the list is exactly the unreaped children, each once, and no schedule brings their number above the cap |
| Daemon.TheCapIsReached | daemon.c:238-253 | every number of clients up to the cap, and any number without one, is served at once in some run |
| Daemon.RecordsFollowTheChildren | state.c:121-220 | in every reachable state, reading the frames still in the pipe makes each listed record say what that child last told, and with an empty pipe it already does |
| Daemon.RecordsShowTheLastWord | state.c:222-326 | in every run each listed record, once the pipe is drained, shows the last login name, directory under 1024 bytes, file name, transfer report and start or stop its child sent since it was forked |
| Daemon.SayAddsOneFrame | state.c:222-267 | every message adds exactly one frame, of its sender, kind and size, behind the others, but for a directory from 1024 bytes and a file name above 256 |
| Daemon.RunKeeps | daemon.c:105-134 | the joint invariant holds after every schedule of steps |
| Daemon.StepKeeps | daemon.c:148-253 | every single step keeps it |
| Daemon.ForkKeeps | daemon.c:148-204 | a fork under the cap keeps the books, with the child not yet in the list |
| Daemon.AddKeeps | child.c:15-24 | adding the forked child makes the list exact again |
| Daemon.SayKeeps | state.c:222-267 | a message from any live child keeps every record in step, including a child between fork and add |
| Daemon.SayOneInStep | state.c:222-267 | a frame brings its own sender's view along and leaves all others' alone |
| Daemon.ReceiveKeeps | state.c:72-119 | consuming a frame, even of a child already removed, changes no listed child's final record |
| Daemon.HandleSignalKeeps | daemon.c:206-236 | a set SIGCHLD flag means a dead child that is in the list, and reaping it keeps the list exact |
| Daemon.KernelKeeps | signals.c:8-34 | deaths and merged signals never leave more flags and pending signals than dead children |
| Daemon.EndsIff | daemon.c:206-236 | the daemon ends exactly when it looks at signals of which none is SIGCHLD, and every look clears them all |
| Daemon.EndedIsEnded | daemon.c:105-143 | once it has ended no child is forked, listed or removed any more |
| Daemon.RemovedList | child.c:58-78 | taking out one entry removes that pid and no other |
| Daemon.WaitedIsListed | daemon.c:214-223 | whenever a run reaches the reaping, the pid to remove is in the list: the precondition remove_client does not check |
| Daemon.ForgottenCountsMerges | daemon.c:214-223 | over any run, the dead children that no flag or signal stands for grow by exactly the number of SIGCHLDs merged into one already there |
| Daemon.NobodyForgottenIff | daemon.c:214-223 | in every run, flags and pending signals are as many as dead children exactly when no SIGCHLD was merged |
| Daemon.ForgottenStayListed | daemon.c:214-223 | whatever happens later, at least as many dead children as are forgotten now stay unreaped and hold places in the list |
| Daemon.ASlotCanBeLost | daemon.c:214-223 | from any state with two live children and no signal about, two deaths before the handler leave one of them dead, listed, and with no flag or signal to remove it |
| ChildList.ChildList.AddClient | child.c:15-24 | the new node becomes the last entry and the others stay as they are |
| ChildList.ChildList.RemoveClient | child.c:58-78 | given that the pid is listed, exactly its first entry goes and the rest keep their order |
| ChildList.ChildList.FindBefore | child.c:60-67 | the walk, which has no end test, stops before the first entry with the pid |
| ChildList.ChildList.CountClients | child.c:80-91 | the count is the number of entries behind the head |
| ChildList.ChildList.FindClient | child.c:123-134 | the node found is the first with the pid, and null exactly when there is none |
| ChildList.Pipe.Seek | util.c:112-140 | skipping in blocks takes exactly the bytes asked for off the pipe, or all there are |
| ChildList.RecvState | state.c:72-119 | one frame leaves the pipe and lands in its sender's record if still listed; otherwise only the pipe changes; fails exactly on a broken header |
| ChildList.RecvIsByParts | state.c:72-119 | header first and payload second is what the step system does in one go, failures included |
| ChildList.ReceivePayload | state.c:98-118 | the payload of an unknown client is skipped whole, of a known one received whole |
| ChildList.ReceiveInto | state.c:121-220 | the receive functions change the fields of their message and no others |
| ChildList.Master.HandleSignal | daemon.c:206-236 | with a SIGCHLD the waited child leaves the list and the session goes on; any other flag ends it; every flag is cleared |
| ChildList.Master.Admit | daemon.c:238-253 | a client is admitted exactly when there is no cap or the list is below it |
| Throttle.MsecDiffBounds | util.c:142-146 | msecdiff is within a millisecond of the true difference and not negative for ordered readings |
| Throttle.PausePays | throttle.c:23-71 | after a pause the window has lasted, but for 2 ms, as long as its bytes take at the rate, even when the pause ended the window |
| Throttle.TurnsLate | throttle.c:43-48 | a window ends only when it is more than half a second old |
| Throttle.SleepIsPaidFor | throttle.c:50-71 | over any transfer with no call 2^31 ms after its window began, all pauses together ask for no more sleep than its bytes take at the rate; without a limit they ask for none |
| Throttle.TruncationSkipsTheSleep | throttle.c:23-62 | with 2^31 bytes or more in a window the pause sleeps for nothing, at any rate and any time |
| Throttle.TurnKeepsPace | throttle.c:23-71 | one block and its pause keep the bytes of a transfer within rate times time plus one slack for each window ended or count overflown |
| Throttle.RateIsCapped | core.c:308-343 | over any transfer with a monotone clock and rate of at least 1, bytes are at most rate times (elapsed + 2 ms) plus a block and 2 ms worth for each window ended or overflown turn, and windows are over half a second each |
| Throttle.SleepShows | throttle.c:51-62 | a sleep of d ms moves msecdiff on by at least d while a window is under half a second old, whichever way its divisions round |
| Throttle.WindowStaysSmall | throttle.c:43-62 | at countable rates, over any transfer with no call 2^31 ms after its window began, a window holds less than 501 ms worth of bytes and a block, and its count never overflows |
| Throttle.CountableIff | throttle.c:23-62 | the rates at which no such transfer overflows the count are exactly those with 501 r + 8192 at most 2^31 |
| Throttle.BusyOverflows | throttle.c:23-62 | at every other rate blocks sent as fast as the pauses let them overflow it within one window |
| Throttle.RareCallsOverflow | throttle.c:31-41 | with calls 2^31 ms apart the window is never paid for and the count overflows at every rate |
| Throttle.CountableRateIsCapped | core.c:308-343 | at countable rates and with such calls the cap holds without an overflow term |
| Transfer.SentIsTheRestIff | core.c:297-372 | what a completed RETR sends is the file from the restart position to its end exactly when that is under 2^43 bytes |
| Transfer.BlocksFit | core.c:303-304 | the int block counter covers all but the remainder exactly below 2^43 bytes |
| Transfer.Channel.Pause | throttle.c:11-75 | in place, for every answer of the clock: nanosleep is called exactly when the window is not behind its rate, first for exactly what is missing and then only for what an interruption left; the pause lasts that long and the window moves as it should |
| Transfer.Channel.SleepFor | throttle.c:60-71 | however often it is interrupted, swapping the two timespecs, the loop sleeps at least the time computed, asking first for that and then for less each time |
| Transfer.Channel.SpliceFully | core.c:312-331 | however often the splice is interrupted, its bytes go out at most once, and all of them on success |
| Transfer.Channel.SendBlock | core.c:308-343 | a block is on the wire exactly when it is counted |
| Transfer.Channel.SendBlocks | core.c:308-343 | wherever the loop ends, the bytes sent are the first xfer_len from the offset, in order, the log of its turns is a paced schedule, and it ends as the splices and signals it met say |
| Transfer.FullIff | core.c:347-369 | a transfer that succeeds has sent its remainder exactly when the splice of it did not meet the end of the file |
| Transfer.HarmlessSucceeds | core.c:312-343 | however many interruptions that do not end the session there are, a transfer succeeds, remainder included |
| Transfer.EndOfIs | core.c:308-371 | a download ends behind the first block after which a signal ends it, or at its first splice that does: Quit for such an interruption, Abort for a reset or an early end, Error for a failure; without any, with Success behind the remainder |
| Transfer.HarmlessStores | core.c:374-417 | however many interruptions that do not end the session there are, an upload succeeds with everything stored |
| Transfer.PlacedIs | core.c:374-417 | an upload leaves its bytes from the restart position on, and zeros in front of them |
| Transfer.AShorterFileIsCounted | core.c:347-371 | RETR of a file that has lost its bytes since stat replies success, sends nothing and counts them all |
| Transfer.Channel.TransferFile | core.c:293-372 | what the splices and signals meet decides status and remainder; success puts all blocks, and the remainder unless its splice met the end, on the wire, an early end exactly the bytes counted |
| Transfer.Channel.TransferRest | core.c:495-496 | a transfer that succeeds delivers the rest of the file once and in order exactly when it is under 2^43 bytes and its remainder, if any, was moved; it counts what it sent exactly when its remainder was moved; all within the rate |
| Transfer.Channel.Retrieve | core.c:419-514 | RETR refuses a position behind the end and sends nothing then; otherwise it delivers, counts and resets the position, keeping total_down the sum over all RETRs |
| Transfer.CappedWithin | core.c:308-372 | the whole transfer, its unpaced remainder included, is within the cap plus less than a block |
| Transfer.Channel.StoreFile | core.c:374-417 | what arrived, and nothing else, is in the file from the restart position on, within the rate; the upload ends behind the first block after which a signal ends it, or at its first splice that does, with the status that says why, or with Success when the data is used up |
| Transfer.Channel.Store | core.c:516-580 | STOR ends as its splices and signals say, adds what it wrote to total_up and keeps the restart position; undisturbed, it succeeds with all the data in the file |
| Transfer.WrittenStep | core.c:383-404 | writing chunk after chunk at growing offsets is writing their concatenation at the first |
| Framer.ServeSplitsTheStream | server.c:49-62 | however the input is chunked, the commands dispatched are a prefix of the newline split of the stream, and all of it up to the command that ends the session unless the buffer fills |
| Framer.ChunkingDoesNotMatter | server.c:268-317 | two chunkings of the same bytes that do not fill the buffer dispatch the same commands |
| Framer.FillsExactlyOnOverrun | server.c:268-317 | the session ends as too long exactly when some chunk, added to the unfinished line before it, reaches 1024 bytes before a command ends the session |
| Framer.ABurstIsTooLong | server.c:268-317 | any short line, repeated until it fills the buffer, dispatches nothing when sent at once, and every command when sent line by line |
| Framer.ReadKeepsTheStream | server.c:268-317 | reading loses, adds and reorders no byte of the stream |
| Framer.ParsePrinted | server.c:346-390 | verb SP argument CRLF parses back to the verb and the argument |
| Framer.PrintedStreamParses | server.c:346-390 | any sequence of commands printed as section 5.3 of RFC 959 has it is split and parsed back to itself |
| Framer.WrittenParses | server.c:346-390 | every form of a line: a verb alone has no argument; behind a space, any white space is skipped and the rest is the argument; with CR or without |
| Framer.WrittenStreamParses | server.c:346-390 | a stream of lines in any of these forms, CRLF and LF mixed, is the commands they mean, in order |
| Framer.NulCutsTheLine | server.c:346-390 | what follows a NUL in a line does not matter |
| Framer.OptionPasses | ls.c:131-157 | an option of LIST is passed over with the blanks behind it and shows hidden entries when it has an a |
| Framer.PathStays | ls.c:131-157 | what does not start with a dash is the path, without the white space behind it |
| Framer.EndsAsTheStream | server.c:268-317 | a session that is neither stopped by a command nor too long fails when its stream fails first, and is closed otherwise |
| Framer.CommandBuffer.ReadCmd | server.c:268-317 | receiving in place yields the buffered bytes followed by whole chunks up to the first that brings a newline |
| Framer.CommandBuffer.RemoveCmd | server.c:322-339 | the memmove leaves exactly the bytes behind the current command |
| Framer.CommandBuffer.ParseCmd | server.c:346-390 | the two strings left in the buffer are the parse of its first line; the argument pointer stays inside the command; nothing behind it changes |
| Framer.CommandBuffer.RestArgument | core.c:272-275 | the trimming of REST yields the argument without trailing white space and leaves the next pipelined command alone |
| Framer.CommandBuffer.SkipWord | ls.c:138-149 | an option word is passed over up to a blank or the end, and shows hidden entries exactly when it has an a |
| Framer.CommandBuffer.ListArgument | ls.c:131-157 | the path left is what follows the option words, trimmed; for every argument, even of dashes and white space only, the parser and its trimming stay inside the current command |
| Framer.CommandBuffer.FtpMain | server.c:49-62 | the loop on the buffer, with handlers editing their own command, dispatches what the reference session dispatches, to the same end |
| Framer.CommandBuffer.NextCommand | server.c:54-61 | parse, execute and remove consume exactly one line |
| Framer.Socket.ReadPoll | server.c:224-264 | a look at the socket gives the next chunk, cut to the room there is |
| CommandPool.CompareSwaps | command.c:46-62 | the comparison is antisymmetric, ignoring case |
| CommandPool.CompareChains | command.c:46-62 | it is transitive, and equal names are interchangeable |
| CommandPool.EqualIff | command.c:46-62 | two names are equal exactly when they are letter for letter the same, upper and lower case of the alphabet taken as one |
| CommandPool.InsertKeepsSorted | command.c:86-100 | a new entry keeps a sorted table sorted |
| CommandPool.LookupIgnoresOrder | command.c:102-116 | in a table without duplicate names the order makes no difference to a lookup |
| CommandPool.Qsort | command.c:96-97 | the result is sorted and a permutation |
| CommandPool.Pool.AddCommand | command.c:64-84 | the entry is added behind the others within capacity, which doubles exactly when it is full |
| CommandPool.Pool.AddCommandList | command.c:86-100 | after any sequence of calls the pool is a sorted permutation of everything ever added |
| CommandPool.Pool.Bsearch | command.c:112-116 | the binary search succeeds exactly when a linear scan of everything added would, with the same entry when names are unambiguous |
| Server.SessionStaysInside | core.c:109-138 | in every session the directory is canonical, every path handed to the system is the root followed by a canonical path, every reported directory fits its frame, every accept is on a listening socket, and nothing at all happens before a login |
| Server.RunKeeps | command.c:102-132 | the joint invariant of login, root, pools and effects holds after every command sequence, without a fault when the configuration is safe |
| Server.StepKeeps | command.c:102-132 | every command keeps it, and one after the login keeps identity and root |
| Server.RowIsGated | core.c:14-42 | every handler that reaches the file system, the daemon or a data connection needs a login, and those that accept need a passive socket |
| Server.CoreTableFinds | core.c:14-42 | no two names of the program's table are equal up to case, and every handler is found under its own name however the table is sorted |
| Server.TableIsUnambiguous | command.c:102-116 | in any table of its rows, in any order, a name finds its own row exactly when the row is there, so the binary search and a scan agree |
| Server.HandlerBehaves | core.c:109-138 | behind the gate every handler keeps identity, root and pools and adds only proper effects |
| Server.TransferBehaves | core.c:419-514 | a transfer accepts on an open socket only and reports its start and stop |
| Server.DirectoryBehaves | ls.c:168-208 | listing a directory, with all the stats of its entries, stays below the root |
| Server.LoginHandlers | auth.c:21-107 | before the login no handler faults but PASS for an anonymous user without a directory |
| Server.LoginIsForGood | auth.c:21-74 | once logged in, identity and root never change |
| Server.UserIsTheLastNamed | auth.c:21-61 | until the login the stored user is the one the last USER command named |
| Server.AnonymousIff | auth.c:21-61 | until the login the session stands for the anonymous user exactly when that is allowed and some USER command named it, whoever was named last |
| Server.TheAnonymousUserStays | auth.c:21-83 | USER anonymous, USER of somebody else and PASS log in anonymously |
| Server.EveryLoginIsVouchedFor | auth.c:63-107 | every logged-in session got there by one PASS: the anonymous login at the anonymous directory exactly when that is allowed and was named before, otherwise the accepted password of the last USER name at that user's home |
| Server.FaultsExactlyWithoutARoot | auth.c:76-83 | no session ever fails a pool assertion or uses a null directory exactly when anonymous logins are off or have a directory |
| Server.TwoCommandsFault | auth.c:76-83 | otherwise USER and PASS are enough |
| Server.ListKeepsCwdIff | ls.c:168-208 | LIST leaves the directory alone exactly when opendir succeeds, the directory cannot be resolved, or it is the current one |
| Server.CdupUndoesCwd | core.c:109-138 | CDUP after CWD into an ordinary name restores the directory |
| Service.VerbReaches | core.c:14-42 | each of the twenty-five verbs, in upper or lower case, reaches its own handler in the program's table, however it is sorted |
| Service.WhoGetsThrough | command.c:134-157 | a command reaches its handler exactly when the session is logged in, or the command needs no login, it listens, or the command needs no data connection, and there is an argument, or none is needed; otherwise it does nothing |
| Service.LoginAndEnter | auth.c:21-107 | USER and the right password log in at that user's home and report it, and CWD then enters and reports a directory below it |
| Service.WrongPasswordEnds | auth.c:91-96 | a wrong password ends the session |
| Service.CwdEnters | core.c:109-131 | CWD into a directory enters and reports it; into anything else the session stays where it is |
| Service.RestSets | core.c:272-291 | REST sets the position, or resets it for an argument that is none |
| Service.RetrServes | core.c:419-514 | RETR of a regular file asks about and opens the file its path means from here, accepts the client, reports start and stop and resets the position |
| Service.RetrRefuses | core.c:419-514 | in every other case it reports no transfer and keeps the position |
| Service.StorServes | core.c:516-580 | STOR creates the file its path means from here, reports start and stop and keeps the position |
| Service.PasvListens | core.c:140-183 | PASV listens exactly when socket and listen succeed, and ends the session without a socket |
| Service.PathCommandsReach | core.c:589-640 | MKD, RMD, DELE, SIZE and MDTM hand the system the one name their path means, or nothing when it has none |
| Service.QuitEnds | core.c:241-246 | QUIT ends the session and the commands without effect have none |
| Service.ListLists | ls.c:20-77 | LIST of a directory that opens looks at it, accepts, opens it, looks at every name in it, and is back where it was |
| Service.AcceptDecides | util.c:168-187 | waiting for the client ends the session exactly when a signal or an aborted connection says so |
| Service.BaseNameIs | util.c:189-194 | the base name is the part behind the last slash |
| Session.Session.constructor | server.c:104-204 | a new session is the machine's initial state, and its command pool holds the table, sorted |
| Session.Session.DoPass | auth.c:63-107 | the object follows the machine, null directory included, with pools set up before the login stands |
| Session.Session.Reach | vfs.c:149-254 | the string handed to the system is the machine's: root followed by the resolution |
| Session.Session.DoCwd | core.c:109-131 | the directory buffer after CWD is the machine's, and so is the report to the daemon |
| Session.Session.ListDirectory | ls.c:168-208 | save, change, list and restore leave the directory buffer as the machine has it, opendir failing or not |
| Session.Session.FindCommand | command.c:112-116 | the binary search in the sorted pool finds what a scan of the table finds |
| Session.Session.DoCmd | command.c:102-132 | on the session object, with its buffers and pools, every command does what one step of the machine does, so all that holds over runs of the machine holds of the object |
| Calendar.ConvertTime | util.c:26-72 | for every leap rule and time the fields are in range, the month search ends by December, and they put together again to the time |
| Calendar.FindMonth | util.c:55-65 | the month loop stays inside the table and finds the month a day of the year falls into |
| Calendar.OrderIsKept | util.c:26-72 | dates are ordered field by field exactly as their times are, so the conversion is strictly monotone and its result unique |
| Calendar.DayIsInItsYear | util.c:44-53 | a valid date's day number lies within its own year |
| Calendar.TwelveMonthsAreAYear | util.c:28-29 | the month table adds up to the year, leap or not |
| Calendar.MonthsHave | util.c:28-29 | April, June, September and November have 30 days, February 28 or 29, the others 31 |
| Calendar.WrittenRuleIsRightIff | util.c:16-24 | with is_leap as written, a date is the Gregorian one exactly before 1 March 1970 |
| Config.ParseConfig | config.c:123-194 | scanning in place with a growing line buffer is folding the attribute parser over the lines that are neither empty nor comments, up to the first bad one with its line number, with or without a final newline; it leaves the mapping exactly when no line is bad and the look behind the last is outside |
| Config.LeavesTheMapIff | config.c:102-156 | with whole pages mapped, that look is outside exactly for a file that fills its last page, or misses that by one byte and has no final newline |
| Config.ScanTurn | config.c:146-190 | a turn of the scan either reports the bad line the fold stops at or leaves the rest of the file still to fold |
| Config.ScanLine | config.c:148-183 | a turn takes exactly the next line, and parses it unless it is empty or a comment |
| Config.CopyLine | config.c:165-181 | the line buffer, grown when short, reads as the line up to its first NUL |
| Config.LoadConfig | config.c:62-121 | a non-empty file is accepted exactly when every line parses, the scan stays inside the mapping, and ports, rate and anonymous directory pass; where the code reads outside its memory nothing is said; an empty file always is accepted |
| Config.FirstBadLineDecides | config.c:146-190 | the first line that is not fine decides the outcome, with its number, and whether a line is fine does not depend on the lines before it |
| Config.FileStraysIff | config.c:146-190 | a scan leaves its line buffer exactly when some line strays and all before it are fine |
| Config.StraysIff | config.c:196-249 | a line strays exactly when it, or what stands before the equals sign of an attribute with an argument, is neither all blanks nor has a character that is not white space |
| Config.CoreConfigFinds | config.c:223-229 | every option is found under its own name in upper or lower case |
| Config.FindsItsKey | config.c:223-229 | in any table of such options a name finds its own option, and none when it is not there |
| Config.AttributeAssigns | config.c:196-249 | an attribute with any white space around its name and argument assigns the argument to its option |
| Config.NumbersAreSet | config.c:251-265 | each of the six numeric options sets its own field, and nothing else, to what strtol reads |
| Config.BadNumbersFail | config.c:251-265 | what strtol cannot read is no number, and what an int cannot hold is out of range, in each of them |
| Config.FlagsAreSet | config.c:267-279 | each of the four flags sets its own field, true exactly for an argument that starts with 1, y or t in either case |
| Config.TextsAreSet | config.c:281-294 | each of the three texts sets its own field to the argument, to the letter |
| Config.LineThenRest | config.c:146-190 | the first line of a file is parsed into the configuration the other lines start from |
| Config.CommentsChangeNothing | config.c:153-163 | comments and empty lines change nothing but the line count |
| Config.LinesMakeTheFile | config.c:146-160 | the lines put together again are the file, and none has a newline |
| Config.OneOptionFile | config.c:123-194 | a file that is one attribute loads as the defaults with what that attribute sets |
| Config.RootAloneIsAccepted | config.c:355-393 | a file that only names the anonymous directory passes the checks |
| Config.PortAloneIsRejected | config.c:355-393 | a file that only names a port does not |
| Config.EmptyFileIsUnchecked | config.c:318-335 | the defaults, accepted for an empty file, would fail those checks |
| Config.TrimFailsIff | util.c:91-110 | on a line alone in its buffer the walk back leaves the line exactly when it has something besides blanks but only white space |
| Config.ArgumentIsTrimmed | config.c:203-216 | the argument of a trimmed line starts behind its blanks and ends in a character that is not white space |
| Config.TextIsTrimmed | config.c:281-294 | so the second trimming of a text value changes nothing and cannot stray |
| Conversation.SessionRunsTheText | server.c:49-62 | however the stream is cut up, the session ends in the state its text, split at newlines, leads to, and only a full buffer stops it on the way |
| Conversation.CutsDoNotMatter | server.c:49-62 | two ways of cutting up the same bytes that do not fill the buffer have the same effects and leave the same login, directory and restart position |
| Conversation.EffectsGrow | server.c:49-62 | the effects of the first commands of a stream are a prefix of the effects of all |

## Left out

- Sockets, files, poll, mmap, sendfile and processes: only as the answers they give, chosen freely.
- The search of pasv_listen for a free port: one answer, listening or not.
- sendall, reply wording, logging, usage text, argument parsing: no hard property.
- NOOP, SYST, FEAT, OPTS, CLNT, ALLO, ACCT, ABOR and TYPE: they change no modelled state; they are rows of the table.
- Listing text and the formatting of MDTM and SIZE.
- Password hashing and the shadow file: the `accounts` of `Server.Setup`, any function from name and password to a home.
- strtol and strtoll: a function with its three outcomes in `Config`, any offset or none in `Server`.
- Config.LoadConfig: where trimming leaves the line buffer or the scan the mapping, it promises nothing of what the
  program then does.
- Symbolic links: the canonicaliser is lexical, as its comment says.
- Short writes and short sendfile results: excluded by the splice contract; the code does not resume them.
- Which descriptor STOR closes when accepting the data connection fails: the code has overwritten it.
- Termination of the daemon on a signal that arrives together with SIGCHLD: all bits are cleared, so none is promised.
- remove_all_clients, destroy_client and statistics: no state outlives them.
- The contents of ftp_xfer_info_t in a frame: 72 bytes, carried unread.
- Wrap-around of 64-bit byte totals and of `int` day counts.
- Session.Session.DoCmd: the transfers of RETR and STOR themselves are in `Transfer`, on an object of their own; here
  they are a start and a stop.
- Server.FaultsExactlyWithoutARoot: takes `login.user` as null before the first USER; the code leaves it uninitialised.
- parse_attribute: on values. Its edits of the line, all inside the line buffer, are not shown in place.
- CommandPool.Pool.Bsearch: which of two entries with names equal up to case is found is left open, as bsearch leaves it;
  `Server.CoreTableFinds` shows that the program's table has no such pair.
- CommandPool.Qsort: a method that inserts one by one stands for the library's qsort; only its contract is used.
- Transfer.Channel.StoreFile: the file is new; creat truncates an old one first.
- Daemon.NeverFaults: schedules are finite sequences of steps, so nothing is said about fairness.

# Verification of libvoyeur

libvoyeur lets one process observe another and all its descendants. It preloads small libraries into them that replace
`exec*`, `posix_spawn`, `exit*`, `open` and `close`. The replacements serialise each call onto a Unix-domain socket; a
server in the observing process multiplexes the sockets with `select`, decodes the events and calls the user back.

The project models this from the bytes of one integer up to the whole system, and proves the pieces against each other.

| module | models |
|---|---|
| `Wrappers`, `Bytes`, `CStrings` | missing values, fixed-width integers in memory, strings in fixed-size buffers |
| `Wire` | the wire format as functions: writing an event, taking a message apart |
| `Sessions` | whole connections: the callbacks that a stream of bytes amounts to |
| `Meaning` | what the user is told: each callback and its arguments, by the numbers and names of the public interface |
| `Net` | `src/net.c`: exact transfers over short counts, interrupts, end of file and broken connections |
| `Events` | the decoders of `src/event.c` and `handle_message`, as methods that consume a socket |
| `Settings` | the option characters and the library list |
| `Env`, `Propagation` | the augmentation of an environment, and what it does along chains of execs |
| `Interposers` | the replaced calls with their static state, one call at a time |
| `Threads` | one replaced library under any interleaving of threads and its destructor |
| `Nesting` | another replaced library together with libvoyeur-close, through which its destructor closes its socket |
| `Refinement` | the two views of the replaced calls, `Interposers` and `Threads`, do the same: open, posix_spawn, close, their destructors, execve and exit, with any connection |
| `Server` | `run_server`: descriptors, stale snapshots, and what is made of each connection |
| `System` | all of it together: processes, threads, kernel and server, interleaved |
| `Loop` | `run_server` is one of the servers that `System` leaves open |
| `Delivery` | runs in which everything gets through, from any reachable state |

How the parts fit: the methods of `Net`, `Events`, `Interposers`, `Env`, `Settings` and `Server` follow the C code and are
proved to compute the functions of `Wire`, `Sessions`, `Env` and `Settings`; the theorems are about those functions. The
step machines of `Threads` and `System` use the same functions, for every interleaving.

Conventions:

- LP64 sizes and one (little-endian) byte order; `LD_PRELOAD` and `.so`, the Linux names.
- The kernel is an oracle. For each socket a schedule says which calls are interrupted and how little the others move; any
  finite sequence of answers with finitely many retries is the start of a schedule. A connection delivers some bytes and
  then, for ever, end of file or an error; it accepts some number of bytes and then nothing more.
- In `Net`, `Events` and `Server` a socket's `pending` is everything it will ever deliver: blocking is not visible there.
  `System` interleaves sending and reading byte by byte.
- `getenv` finds the first entry that starts with the key and an equals sign. Results of `access`, `getcwd`, `getpid` and
  of the real calls are parameters. The linker's preload list is separated by colons and spaces.
- A process may have any environment whatever. Theorems about a connection ask only that its own library agrees with the
  server about the format; theorems about process trees say which arguments of exec bring that about.
- One process writes on a socket. A process forked after initialization would share its parent's socket under a mutex of
  its own; the code does not protect that, and the model does not contain it.

- A thread calls a replaced function only from outside of them: a signal handler that calls `open` or `close` while its
  thread is inside one would wait for the mutex that the thread itself holds, and is not modelled.

## Where the code falls short

- `src/event.c:275-277`: the comment promises room for a terminating NUL in the option buffer, but all four characters are
  used (`Settings.RequestedOpts` ensures there is no NUL in it). The model takes LIBVOYEUR_OPTS to be those four characters.
- `src/env.c:46`: the size check forgets the name of the variable, the colon and the NUL. `Propagation.PreloadIntact` gives
  the exact bound, `CheckedButTruncated` and `TruncationHappens` the values in between, which are silently cut.
- `src/voyeur.c:188-195`: the listening socket is closed twice. `Server.RunServer` proves that exactly one close fails in
  every run, and on which descriptor.
- `src/env.c:42`: the search for the libraries in an existing preload list is a substring search that does not stop at
  colons. With `/a/libvoyeur-exec.so` as the only library, `LD_PRELOAD=/a/libvoyeur-exec.so.old` is taken to contain it
  and passed on as it is, so that nothing is instrumented from there on (`Propagation.NeighbourPreloaded`).
  `Propagation.IdealListed` and `TreePropagation` say exactly when all libraries are elements of the list.
- `src/event.c:228-233`: the list is not quoted, so a library directory with a space or a colon in its path loads nothing
  (`Settings.LibrariesRecovered` and `Propagation.LibrariesAtEveryDepth` are if and only if).
- `src/voyeur-open.c:43-73`: the mutex is held during the real call, which may block for ever. If one thread opens a FIFO
  for reading and another one the same FIFO for writing, neither ever goes on, while the program without the library
  would (`Nesting.FifoDeadlock`); the same goes for `posix_spawn` and `close`. `Nesting.WaitChains` says exactly when a
  thread that others wait for can go on, `HeldUpUntilTheAnswer` that nothing else helps.
- `src/voyeur-close.c:47-49`: a `close` after the destructor jumps through a NULL pointer if the library had never been
  initialized. `Threads.CloseAfterBareDestructor` is a run, `Threads.CrashCondition` the exact condition over all runs;
  `Threads.NoSelfDeadlock` shows that the destructor's own close is safe.
- The same through the other libraries: their destructors close their sockets with libvoyeur-close's `close`. If that
  library is destroyed first, in a process that has never closed anything, the process crashes at exit
  (`Nesting.CrashAtExit`, `Nesting.NestedCrashCondition`).
- `src/voyeur.c:130-131`: a handler that fails half way goes unnoticed until the next read (`Sessions.CutEventIsSilent`).
- `src/net.c:63` and `src/voyeur-exec.c:99-121`: a process whose own environment has lost one of the three variables passes
  a NULL pointer on; the model calls this a crash. LIBVOYEUR_SOCKET is missed by every library, the others by exec and
  spawn (`Interposers.Execve`, `SpawnLib.Spawn`, `OpenLib.Open`, `CloseLib.Close`, `ExitLib.WriteExitEvent`). Execs alone
  never lead there (`Propagation.ChainNeverCrashes`); clearing the environment does (`ClearedEnvironmentCrashes`).
  `Propagation.SettingSurvives` says exactly when a variable reaches the next program with the right value.

## Model

| member | source | states |
|---|---|---|
| Bytes.IntLayout | src/net.c:182-185 | an int is sent as two's complement, four bytes, the least significant first |
| Bytes.IntRoundTrip | src/net.c:182-190 | an int read from memory bytes is the int written, for every signed 32-bit value |
| Bytes.SizeRoundTrip | src/net.c:192-200 | the same for size_t |
| Bytes.ToFromBytes | src/net.c:182-200 | every byte pattern is the memory image of exactly the number it reads as |
| Wire.StringTaken | src/net.c:212-253 | a written string, clipped at 4096 and empty for NULL, is read back and nothing after it is touched |
| Wire.CountedTaken | src/voyeur-exec.c:42-49 | a counted list of strings is read back element by element, whatever follows |
| Wire.ExecTaken | src/voyeur-exec.c:38-71 | round trip of the context-dependent exec payload against the exec handler |
| Wire.OpenTaken | src/voyeur-open.c:75-96 | round trip of the open payload: mode 0 without O_CREAT, cwd only if asked for |
| Wire.MessageTaken | src/event.c:27-180 | for every event and agreeing options, decoding its message followed by anything gives its view and leaves exactly the rest |
| Wire.AgreementIsExact | src/event.c:48-70 | every event survives the trip if and only if the two ends agree on the four bits that shape the format |
| Wire.ReaderDecidesPresence | src/event.c:45-70 | which optional fields are non-NULL in a callback depends on the server's bits alone, on any bytes |
| Wire.MessageStable | src/net.c:124-150 | reading a complete message never depends on what arrives after it |
| Wire.MessageExact | src/event.c:27-164 | what one round takes from the front of any bytes is by itself a message with the same reading |
| Wire.ProperPrefixIsShort | src/event.c:27-164 | self-delimitation: no proper prefix of a message, cut anywhere, reads as a message |
| Meaning.ExecMeaning | src/event.c:27-106 | for every exec event on the wire: the exec callback is made exactly if it is registered, with all its strings cut at 4096 bytes, and with environment, PATH and directory exactly if bits 2, 4 and 1 ask for them |
| Meaning.ExitMeaning | src/event.c:108-121 | the same for exit |
| Meaning.OpenMeaning | src/event.c:123-149 | the same for open: the mode with O_CREAT, bit 64 of the flags, and 0 without; the directory exactly if bit 1 asks for it |
| Meaning.CloseMeaning | src/event.c:151-164 | the same for close |
| Meaning.Headers | src/net.h:33-36 | the types in the header of a message and of DONE, as numbers |
| Meaning.UnknownTypes | src/voyeur.c:120-136 | what becomes of a message or event of an unknown type |
| Meaning.EveryEventCalledBack | src/voyeur.c:113-137 | with all callbacks registered a stream up to DONE calls back every event, in order, with those arguments |
| Meaning.RegisteredKindsOnly | src/event.c:141-146 | with some registered, exactly the events of those kinds |
| Meaning.OnlyWhatWasAsked | src/event.c:81-86 | no callback of an unregistered kind, no argument that was not asked for and none missing |
| Meaning.ReportsAreCallbacks | src/voyeur.c:113-137 | the reports that the theorems about runs speak of are the callbacks of the messages, one after the other |
| Sessions.HandleMessage | src/voyeur.c:113-137 | a connection that stays open has become shorter, so repeated handling ends |
| Sessions.CutEventIsSilent | src/voyeur.c:113-137 | a cut event makes no callback; the connection is reported at once if the cut is in the header, at the next call otherwise |
| Sessions.PrefixSafety | src/voyeur.c:113-137 | of a well-formed stream cut anywhere, exactly the events lying wholly before the cut are called back, in order |
| Sessions.WholeIsExact | src/net.c:124-150 | which events lie wholly inside the first n bytes, both directions |
| Sessions.ExactlyOnce | src/voyeur.c:120-122 | a stream delivered up to DONE is called back completely, and nothing after DONE is |
| Net.Socket.Read | src/net.c:128-147 | one read of the kernel: short counts, retries, end of file, errors |
| Net.Socket.Send | src/net.c:104-118 | one send of the kernel |
| Net.DoRead | src/net.c:124-150 | for every schedule: terminates, succeeds exactly if enough bytes come, takes those and no more into the buffer |
| Net.DoWrite | src/net.c:100-122 | for every schedule: terminates, success means all bytes were carried in order, failure that only what the connection accepted was |
| Net.ReadInt | src/net.c:187-190 | reads exactly what the format function takes |
| Net.ReadString | src/net.c:227-253 | reads exactly what the format function takes; a failure exhausts the connection, except that a string too long for a caller's buffer is left there |
| Net.WriteString | src/net.c:212-225 | sends exactly the bytes of the format, also with a length given by the caller and when the connection breaks in between |
| Events.ReadStrings | src/event.c:37-43 | the argv and envp loops read the list the format describes, and fail exactly when it is cut |
| Events.HandleExec | src/event.c:27-106 | consumes exactly one exec payload and makes exactly its callback if exec_cb is set, with the arguments exec_opts asks for |
| Events.HandleExit | src/event.c:108-121 | the same for exit and exit_cb |
| Events.HandleOpen | src/event.c:123-149 | the same for open, open_cb and open_opts |
| Events.HandleClose | src/event.c:151-164 | the same for close and close_cb |
| Events.ServeMessage | src/voyeur.c:113-137 | handle_message refines the function the session theorems are about: return value, callbacks, bytes left |
| Settings.OptionCharacter | src/env.c:95-101 | the encoding is printable, never NUL, and keeps five bits |
| Settings.RequestedOpts | src/event.c:273-289 | fills all four characters; the context stays as it is with an exec callback, and gets the silent bit, and nothing else, without |
| Settings.OptionPositions | src/env.c:95-110 | which character carries which option byte, and what a missing or short variable means |
| Settings.OptionAgreement | src/env.c:103-110 | for every option byte of every event the client decodes the server's low five bits, so both ends agree |
| Settings.AppendLibrary | src/event.c:228-234 | one macro expansion extends the colon-join, cut to the buffer |
| Settings.RequestedLibs | src/event.c:236-267 | the strlcat chain gives the colon-join of the requested libraries, cut to the computed size; the callback is restored |
| Settings.LibraryOfCallback | src/event.c:228-233 | which library is requested for which callback, by name and in order |
| Settings.AllLibrariesFill | src/event.c:193-200 | all four libraries fill the computed size but for one byte |
| Settings.LibrariesFit | src/event.c:193-200 | the list is complete exactly when it is shorter than the buffer, and always for directories up to 4096 characters |
| Settings.LibrariesRecovered | src/event.c:228-267 | the linker, separating at colons and spaces, finds just the requested libraries if and only if the directory has no separator in its path |
| CStrings.SplitJoin | src/event.c:228-267 | splitting undoes joining, for every list of elements without separators |
| CStrings.SplitAppend | src/env.c:66-71 | putting one list in front of another with a colon concatenates them |
| CStrings.TwoElements | src/env.c:66-71 | a colon or a space makes two elements |
| CStrings.Buffer.Cat | src/env.c:56 | strlcat keeps the string inside its buffer |
| Env.FindPreload | src/env.c:29-39 | the scan finds the last preload entry |
| Env.StorePreload | src/env.c:41-73 | the preload buffer holds the entry the source's two tests call for, cut to 2047 characters |
| Env.AugmentEnvironment | src/env.c:23-93 | the new array holds the augmented environment, directly followed by NULL, and every write is inside its envlen + 5 slots |
| Env.OneKey | src/env.c:34 | an entry defines at most one key |
| Propagation.PreloadCases | src/env.c:41-73 | what is stored in the preload entry in each case; in particular a list that the libraries cannot be added to is passed on as it was |
| Propagation.AugmentLayout | src/env.c:75-90 | the new environment entry by entry, with the names of the variables |
| Propagation.AugmentFrame | src/env.c:75-90 | every entry keeps its place except the last preload entry, replaced in place; at most one preload entry before gives exactly one after |
| Propagation.ForeignVariablesUnchanged | src/env.c:75-90 | every variable outside the four has an unchanged lookup |
| Propagation.PreloadIntact | src/env.c:41-73 | the preload variable gets its ideal value if and only if name, value and NUL fit the buffer |
| Propagation.CheckedButTruncated | src/env.c:45-49 | whatever passes the source's check without fitting is cut short |
| Propagation.TruncationHappens | src/env.c:45-49 | there are such values |
| Propagation.Settled | src/env.c:41-44 | where the libraries are in place, augmenting only appends three entries |
| Propagation.AugmentTwice | src/env.c:41-90 | a second augmentation changes the answer to no lookup; the library list is not stacked |
| Propagation.SettingSurvives | src/env.c:55-62 | when exactly a setting reaches the next program |
| Propagation.IdealListed | src/env.c:41-44 | the preload value lists all libraries as elements if and only if the substring search was not mistaken |
| Propagation.NeighbourPreloaded | src/env.c:42 | any longer file name that starts with the library's path misleads the search; the settings are passed on and nothing is loaded |
| Propagation.ChainNeverCrashes | src/voyeur-exec.c:119-121 | whatever arguments the execs of a chain have, every environment defines all three variables |
| Propagation.ChainGrows | src/voyeur-exec.c:119-121 | one exec more at the end of any chain |
| Propagation.SettingAtEveryDepth | src/voyeur-exec.c:99-121 | one setting down a chain of execs, whatever becomes of the others: it reaches every depth if it fits and no argument has another value |
| Propagation.AugmentInstruments | src/voyeur-exec.c:95-127 | one exec turns a clean argument into an environment with the settings and all libraries listed, if and only if the search was not mistaken |
| Propagation.TreePropagation | src/voyeur-exec.c:95-127 | along any chain of clean execs, where only programs that load the exec library are interposed, all depths have the root's settings and list all libraries if and only if no argument misleads the search |
| Propagation.LibrariesAtEveryDepth | src/voyeur.c:219-224 | the same for the settings of a context and the libraries it asks for, for every directory |
| Propagation.LibraryAtEveryDepth | src/event.c:228-233 | at every depth the linker finds the library of a callback exactly if that is registered, where the argument did not list it before |
| Propagation.SettingsByName | src/voyeur.c:219-224 | every descendant finds the socket and the libraries under the names of the variables, if no argument contradicts them |
| Propagation.InheritedIsClean | src/voyeur-exec.c:366-373 | passing on one's own environment satisfies the condition of that theorem |
| Propagation.InheritedIsNotMistaken | src/voyeur-exec.c:366-373 | and misleads the search no more than the first environment did |
| Propagation.Prepare | src/voyeur.c:205-227 | the settings and first environment of a context, or NULL if there is no server socket; the user's options survive if there is an exec callback |
| Propagation.AgreementAtEveryDepth | src/voyeur-exec.c:99-101 | every descendant decodes the server's low five bits, so format and silence agree at every depth, if only no argument contradicts LIBVOYEUR_OPTS |
| Interposers.WriteCounted | src/voyeur-exec.c:42-49 | the counting and emitting loops send the counted list of the format |
| Interposers.WriteExecEvent | src/voyeur-exec.c:22-72 | sends one complete message unless bit 16 is set, or the file is not accessible and bit 8 is not set; nothing otherwise |
| Interposers.ReportExec | src/voyeur-exec.c:105-114 | a one-shot connection carries at most one event, then DONE |
| Interposers.Execve | src/voyeur-exec.c:95-127 | puts the complete message, when the bits and access say so, and DONE on a one-shot connection, closes that and passes on the argument augmented with the process's own settings; crashes exactly if a variable is missing or closing does |
| Interposers.SpawnLib.Init | src/voyeur-exec.c:170-184 | settings are read once and cached; crashes exactly without LIBVOYEUR_SOCKET |
| Interposers.SpawnLib.Spawn | src/voyeur-exec.c:186-233 | every call augments with the cached settings and appends its event to the one cached stream, or crashes on a missing setting with nothing sent |
| Interposers.SpawnLib.Cleanup | src/voyeur-exec.c:153-168 | the destructor ends the stream with DONE and closes the socket; crashes exactly if closing does |
| Interposers.ExitLib.WriteExitEvent | src/voyeur-exit.c:18-40 | the first call sends one event and DONE and closes, later ones do nothing; when exactly it crashes |
| Interposers.OpenLib.Open | src/voyeur-open.c:41-101 | a call appends its complete event to the current stream; the first crashes exactly without LIBVOYEUR_SOCKET |
| Interposers.OpenLib.Cleanup | src/voyeur-open.c:24-39 | the destructor ends the stream with DONE, closes the socket and forgets it; crashes exactly if closing does |
| Interposers.CloseLib.Close | src/voyeur-close.c:45-78 | before finalization one event per call; after it a plain forward without the mutex; when exactly it crashes |
| Interposers.CloseLib.CloseSocket | src/net.c:84-92 | repeated while interrupted; through libvoyeur-close every attempt becomes an event, from its own destructor none does, no lock is taken and the real close is reached |
| Interposers.CloseLib.Cleanup | src/voyeur-close.c:26-43 | DONE ends the stream, the socket is closed through the replaced close, the mutex is free |
| Refinement.OpenCall | src/voyeur-open.c:41-101 | one call of the method leaves the same bytes on the socket as an undisturbed call of the step machine, connected or not and wherever the connection breaks |
| Refinement.OpenCleanup | src/voyeur-open.c:24-39 | the same for the destructor |
| Refinement.SpawnCall | src/voyeur-exec.c:186-233 | the same for posix_spawn, whose event the options may suppress |
| Refinement.SpawnCleanup | src/voyeur-exec.c:153-168 | the same for its destructor |
| Refinement.ExecveCall | src/voyeur-exec.c:95-114 | execve puts on its connection what a library used for one call and destroyed does |
| Refinement.ExecveCalledBack | src/voyeur-exec.c:26-37 | an accessible exec at the default options, or any not silent, makes exactly its callback |
| Refinement.ExitCall | src/voyeur-exit.c:18-40 | so does the first exit |
| Refinement.CloseCall | src/voyeur-close.c:52-78 | the same for close before finalization |
| Refinement.CloseCallFinalized | src/voyeur-close.c:45-50 | and after it: both forward, or both jump through NULL |
| Refinement.CloseCleanup | src/voyeur-close.c:26-43 | the same for the destructor of libvoyeur-close |
| Threads.StepKeepsInv | src/voyeur-close.c:26-78 | every step of any thread keeps mutual exclusion and the stream grammar |
| Threads.StreamGrammar | src/voyeur-open.c:24-101 | in every reachable state each socket carries complete events then at most DONE; only what the mutex holder still has to send is missing |
| Threads.RunGrows | src/voyeur-close.c:26-43 | whatever happens later, nothing follows DONE on a socket and no byte follows its close, even after re-initialization |
| Threads.NoSelfDeadlock | src/voyeur-close.c:45-50 | the own close of libvoyeur-close's destructor never waits for its mutex and never jumps through NULL, in any reachable state |
| Threads.CloseAfterBareDestructor | src/voyeur-close.c:45-50 | a run in which an application's close does jump through NULL |
| Threads.FlagsRemember | src/voyeur-close.c:19-24 | over all runs: the real close is known exactly if the library was ever initialized, the finalized flag set exactly if the destructor ever ran |
| Threads.CrashCondition | src/voyeur-close.c:45-50 | over all runs: a call jumps through NULL exactly after the destructor of a libvoyeur-close that was never initialized |
| Threads.UndisturbedCall | src/voyeur-open.c:41-101 | a call left alone puts its complete event on the socket and frees the mutex |
| Threads.ReportedUnlessSilent | src/voyeur-exec.c:26-29 | every event but an exec of a silent library is put on the socket, as far as the connection goes |
| Threads.UndisturbedDestructor | src/voyeur-close.c:26-43 | a destructor left alone ends the stream with DONE, closes the socket and frees the mutex |
| Threads.SilentExec | src/voyeur-exec.c:26-29 | a silent library never puts an exec event on any socket |
| Nesting.EachIsARun | src/net.c:84-92 | a run of two nested libraries is for each of them a run of the step machine, so its theorems hold of both |
| Nesting.WaitChains | src/voyeur-open.c:24-75 | in every reachable state a waiting thread is behind one or two others, and the last of these can go on if and only if it has not crashed and waits for no answer the kernel withholds: of anything, of the replaced calls only, or of nothing at all |
| Nesting.HeldUpUntilTheAnswer | src/voyeur-open.c:43-75 | a thread behind one that is in its real call stays there until that returns, whatever else happens |
| Nesting.FifoDeadlock | src/voyeur-open.c:43-73 | a run in which that call waits for the thread behind it |
| Nesting.NestedCrashCondition | src/voyeur-close.c:45-50 | over all runs: the close of another library's destructor jumps through NULL exactly if libvoyeur-close was destroyed and never initialized |
| Nesting.CrashAtExit | src/voyeur-open.c:24-39 | from every reachable state with an open connection and an unused libvoyeur-close such a run goes on |
| Server.AcceptKeeps | src/voyeur.c:101-111 | accepting keeps the descriptor discipline |
| Server.CloseKeeps | src/voyeur.c:165-183 | closing keeps it |
| Server.ServeClient | src/voyeur.c:180-183 | one message of one client: its books stay balanced and nobody else's change |
| Server.BooksBalance | src/voyeur.c:164-185 | whatever the loop does in whatever order, what a client has had called back and what the rest of its connection amounts to are its whole session |
| Server.ServeFd | src/voyeur.c:164-185 | the loop body: which descriptor is closed or accepted, what the snapshot says about later descriptors still holds afterwards, and the books are right |
| Server.ServePass | src/voyeur.c:151-185 | the clients ready and not failing at the select get one handle_message each and nobody else does; whatever failed is closed; a ready listener accepts if accept has a descriptor to give |
| Server.ServedExactly | src/voyeur.c:164-185 | who these clients are: one message for an open, readable and not failing descriptor below 1024, in ascending order, none otherwise |
| Server.ExitCodes | src/voyeur.c:197-202 | the code of a child that exited, and -1 for one ended by a signal |
| Server.Sweep | src/voyeur.c:190-195 | the sweep closes everything left, and fails on the listening socket only |
| Server.RunServer | src/voyeur.c:139-203 | every pass until the child's exit is made; every client, the pipe and the listener are closed exactly once, exactly one close fails, callbacks are a prefix of each session and the whole session of finished clients, and the result is the exit status |
| Server.ClientReports | src/voyeur.c:113-203 | the loop on a well-formed stream: callbacks of whole events only, in order, all of them once DONE was read |
| System.NextByte | src/voyeur.c:113-137 | one byte more than an incomplete message is incomplete, or exactly the next event, or exactly DONE |
| System.StepKeeps | src/voyeur.c:113-186 | every step of a process with any environment, a thread, the kernel or the server keeps the invariant |
| System.EndToEndSafety | src/voyeur.c:113-186 | in every reachable state the callbacks of a connection whose library agrees on the format are those of an initial part of its events, all sent in full, whatever the other processes' environments |
| System.ExactlyOnceAtDone | src/voyeur.c:120-122 | a connection closed at DONE has had all its events called back and never gets another |
| System.AllWholeEventsAtEnd | src/voyeur.c:180-183 | a connection closed at its end without a break has had exactly the events sent in full called back |
| System.AgreesWithSession | src/voyeur.c:113-186 | the interleaved server makes the callbacks of the sequential one |
| System.ReadingReachesDone | src/voyeur.c:151-185 | progress: reading a finished stream reaches DONE with its last byte and reports everything |
| System.TreeAgrees | src/voyeur.c:219-224 | a process at the end of a chain of execs that keep LIBVOYEUR_OPTS agrees with the server |
| Loop.ServedMatches | src/voyeur.c:113-137 | on any bytes, a handle_message of the loop and the reads and ends of the system do the same to a client |
| Loop.LoopIsARun | src/voyeur.c:139-203 | any sequence of accepts, messages and drops of the loop is a sequence of steps of the system with the same callbacks |
| Loop.SelectLoopObserves | src/voyeur.c:113-227 | from voyeur_prepare to run_server: the select loop itself reports for a process of the tree an initial part of the events sent in full, all of them on a finished unbroken connection |
| Loop.TreeSeesUserOptions | src/event.c:282-284 | from the context as registered, through voyeur_prepare, to the callbacks: only registered kinds, with the arguments the user's own option bytes ask for |
| Loop.LoopSeesUserOptions | src/event.c:282-284 | the same of the select loop |
| System.TreeIsObserved | src/voyeur.c:113-227 | from voyeur_prepare to the callbacks: safety, exactly once at DONE and completeness at the end for such a process, among others of any kind |
| System.SilentExecEverywhere | src/event.c:247-260 | without an exec callback no process at any depth ever puts an exec event on any connection, though the linker finds the library in its preload list |
| Delivery.DeliveryPossible | src/voyeur.c:151-185 | from every reachable state of a running server between messages, a process with any agreeing environment can have any reportable events called back, in order and once, with the other connections untouched |
| Delivery.EventDelivered | src/voyeur-exec.c:26-37 | in particular any one event, unless it is an exec of a silent library, with its callback |
| Delivery.DeliveryInTree | src/voyeur.c:205-227 | the same after any run for a process at any depth of a tree prepared by voyeur_prepare, so the safety theorems are about runs that deliver |

## Left out

- Server.RunServer: the callback guarantees hold as long as select never reports a failure of the child's pipe; after one, the pipe's number can be given to a client and is then taken for the pipe. The guarantees about closing hold in any case.
- Server.RunServer: descriptors are assumed to stay below FD_SETSIZE; accept is modelled as failing otherwise. Nothing is said about a client still connected when the child exits except that its callbacks are a prefix.
- Loop.SelectLoopObserves: the processes have done all they do when the loop begins, as the sockets of Server are settled from the start; that reading earlier makes no difference is proved of the system (System.AgreesWithSession: the callbacks are those of the whole stream, whenever it is read) but not step by step of the loop, which does nothing else while it waits for bytes. A process that outlives the server can be taken to die after it.
- System.EndToEndSafety: nothing is said about a connection whose library does not agree with the server; by Wire.AgreementIsExact there are then events that arrive as something else.
- Propagation.TreePropagation: arguments of exec are assumed clean (no contradiction to the settings, one preload entry at most, a value that fits) and passed by processes whose own environment is the one they were started with.
- Events.HandleExec: a negative count on the wire, a length that wraps in `malloc(len + 1)`, and running out of memory are not modelled; the writers never produce the first two. Heap ownership of decoded strings is not modelled either: early returns and `cwd` of an open event leak.
- Interposers.ExitLib.WriteExitEvent: `did_exit_already` is read and set without a mutex; two threads exiting at once are not modelled.
- Threads.StreamGrammar: an application closing the library's own descriptor is not modelled, nor that the first call of a process without LIBVOYEUR_SOCKET ends it, which is one of the ways to die at any time.
- Nesting.WaitChains: signal handlers that call a replaced function while their thread is inside one are not modelled.
- Nesting.WaitChains: two libraries at a time; any other one nests in libvoyeur-close in the same way, and none of the others calls a third.
- Completeness of delivery when the child exits and ordering between connections: the code guarantees neither.
- Streams from other writers than libvoyeur's: decoded by the model as the code does, but no theorem is about them.
- Socket creation, connect retries, temporary directories, waitpid and the thread that feeds the pipe: system calls without logic of their own.
- `dlsym`, `dladdr`, the OS X interposing macros and the default resource path: the linker's behaviour; the library directory is an input.
- `execl`, `execle`, `execlp` and their variable arguments, `vfork`: thin wrappers around what is modelled.
- `voyeur_observe_*`, `voyeur_set_resource_path`, logging and debugging helpers: setters and output only.

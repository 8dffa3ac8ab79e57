# Verified model of the Docker SDK for Go: durable startup, waiting, logs, auth, lifecycle

This project models the parts of the SDK whose correctness depends on more than one function, and
proves what they promise. Each module follows one source file or one concern of it.

**Durable startup** (`container/durable_startup.go`). `Shell` is a small POSIX shell: the token
recognition of IEEE Std 1003.1-2017 (XCU 2.2.1, 2.2.2, 2.3), `set -e`, `export`, `cd`, `exec` and
`su -c`. `DurableScript` is the compiler from a command with environment, working directory and
login user to shell text, and its meaning in that shell. `GoPath` holds the `path` and `fmt`
functions the allocator calls. `DurableAllocator` is the allocator, whose only state is the list of
files; `DurableLayout` shows that re-parsing the paths it printed amounts to keeping an explicit
registry; `DurableDispatch` gives the order in which the dispatcher's sorted globs (XCU 2.13.3) come
to the scripts; `DurableStartup` puts these together. `DurableRun` is the dispatcher at work, down to
the commands it starts, and `DurableLoops` the text of its loops as the commands it is; `DurableForeign`
is the allocator among files that are not its own. `Patterns` are the regular expressions of the names.

**Waiting** (`container/wait`). `WaitTree` is the walk that prunes a tree of strategies in place,
`WaitAll` the same tree run under nested deadlines, `LogWait` and `HostPort` the two polling loops
against a target that answers as it likes.

**Logs** (`container/container.logs.go`). `LogDemux` decodes the multiplexed stream from a source
that splits its reads as it likes.

**Auth** (`config/config.go`). `Base64Auth` is the legacy `auth` field (RFC 4648 section 4, RFC 7617
section 2), `AuthResolver` the uncached resolver, `AuthCache` the cache as a state machine over
atomic steps of any number of goroutines, `AuthConfigs` the same methods as one goroutine runs them.

**Lifecycle** (`container/lifecycle.go` and the `container.*.go` operations). `Lifecycle` combines
and runs hooks and models Start, Stop and Terminate under arbitrary failures.

**Build arguments** (`image/dockerfiles.go`). `BuildArgs` is the reference pattern, the single-pass
replacement and the loop over FROM lines.

Code that changes things step by step is imperative here too (classes, arrays, loops with
invariants), proved against a function of the inputs or of the old state; the properties are then
proved about that function.

## Where the code and what it is meant to do part ways

Each of these is proved as an exact condition or shown on an input; the model follows the code.

- A rendered script does what its executable asks for exactly when no byte is NUL, every exported key
  is a shell name, the command word is not an option of `exec`, and the working directory is empty or
  does not start with `-` and no kept entry is for `PWD` or `OLDPWD`, which `cd` sets behind the exports
  (`DurableScript.CompilationIsExact`; `DurableScript.DashCommandFails` and `DurableScript.PwdEntryFails`
  are inputs).
- Scripts run in registration order exactly as long as indices print with three digits
  (`DurableDispatch.DispatchOrderIsExact`).
- The allocator counts names instead of looking at the indices in use. What new namespaces come to get
  are the indices above the number of foreign names, and 0 (`DurableForeign.GivenOutExactly`). So one of
  them gets, in some run, an index that a foreign path shows, be it in the second directory of a name,
  exactly if such a path shows an index above the number of foreign names, or shows 0 while the default
  namespace is not known (`DurableForeign.NeverClashesExactly`; `DurableStartup.ForeignIndexIsTaken` is
  an input).
- It counts scripts as well instead of looking at their numbers. So some run gives out a path that a
  file has exactly if a known namespace has a file under a number that is not below the number of its
  scripts (`DurableForeign.NewPathsExactly`).
- The flag of a container can lag behind the daemon: it is up without counting as running exactly if
  a Start whose post-start hooks failed before any of them set the flag, or a Terminate that went on
  although the daemon neither stopped nor removed the container, left it so and no later command
  changed that (`Lifecycle.FlagLagsExactly`; `Lifecycle.StartLags` is an input).
- The log loop can give up on a log that passes exactly when the check passes on the empty log: it
  starts with length 0 as if an empty log had failed (`LogWait.NeverTooEarlyIsExact`); for the
  check by count that means an occurrence count below one, or below two for an empty text
  (`LogWait.CountFailsOnEmpty`).
- A log stream cut inside a payload ends cleanly, and so does one cut between a header and its
  payload; only a cut inside a header is an error (`LogDemux.TruncationIsExact`).
- Every FROM line is recognised, in any mixture of cases, but the image on it is found exactly if the
  keyword is in capitals, there are no flags and what follows the image, if anything, starts with a
  blank; or if the keyword is not in capitals, a blank follows it and the image happens to be called
  like it. So `from nginx` gives `from`, `FROM --platform=linux/amd64 nginx` gives the flag, and a tab
  behind the image becomes part of it (`BuildArgs.FromLineIsExact`).
- A line need not be a FROM line to be taken for one: it is enough that it begins with the keyword
  (`BuildArgs.TakenExactly`). So `FROMAGE x` gives the image `AGE`, and `FROM` alone the empty one
  (`BuildArgs.TakenPart`).
- The comment on `handleBuildArgs` (image/dockerfiles.go:100) says that the original syntax is kept
  when the argument is provided and the default is not; the code then inserts the argument, and keeps
  the syntax when there is neither. An empty default counts as none.

## Model

| member | source | states |
|---|---|---|
| Shell.LexRefusesNul | container/durable_startup.go:371-376 | A script with a NUL byte anywhere has no reading, so the renderer cannot pass one on. |
| Shell.RunKeepsNames | container/durable_startup.go:310-316 | No script can hand a program a variable whose key is not a shell name: the reason keys have to be names. |
| DurableScript.RenderDurableScript | container/durable_startup.go:274-345 | nil, empty command and non-login users are refused in that order; otherwise options apply in order and the text is exactly `ScriptText`. |
| DurableScript.LastOptionCounts | container/exec/processor.go:48-67 | For every list of options: the user is that of the last WithUser, the directory that of the last WithWorkingDir, the environment that of the last WithEnv alone, and each is empty if there is none. |
| DurableScript.RefusedExactly | container/durable_startup.go:274-304 | An executable is refused exactly if it is nil, or has no command, or the last WithUser is for something that does not match the pattern of login names. |
| DurableScript.LoginNamesMatch | container/durable_startup.go:61 | The users that are not refused are those that match the regular expression. |
| DurableScript.KeptExactly | container/durable_startup.go:310-316 | An entry is kept exactly if it is a key that is not empty, a `=` and a value, and the first `=` ends the key. |
| DurableScript.RenderBody | container/durable_startup.go:306-325 | The loops over env entries and arguments write exactly `BodyText`, dropping entries with no `=` or an empty key. |
| DurableScript.LexQuote | container/durable_startup.go:371-376 | A single-quoted string is read as one word equal to the string, inside or at the start of a word, whatever follows. |
| DurableScript.QuotedWordsRoundTrip | container/durable_startup.go:320-325 | Quoted words joined by blanks are read back as exactly the list, for every list of strings without NUL. |
| DurableScript.LexBody | container/durable_startup.go:306-325 | The body is read as exactly one `export` line per kept entry, the `cd` line and the `exec` line. |
| DurableScript.LexSu | container/durable_startup.go:331-341 | The whole body, quoted a second time, reaches `su -c` as one word byte for byte, followed by the user. |
| DurableScript.CompilationPreservesMeaning | container/durable_startup.go:274-345 | For every faithful executable, base environment, directory, user and system: the script ends in exec of exactly the command, with exactly the kept entries on top of the environment of the directory it is in, as the login user; if `cd` or `su` fails nothing is started. |
| DurableScript.CompilationIsExact | container/durable_startup.go:274-345 | Faithfulness, a check on the executable alone, is equivalent to the script doing what was asked for on every system. |
| DurableScript.DashCommandFails | container/durable_startup.go:320-325 | A command word such as `-l` is a concrete executable whose script does something else. |
| DurableScript.PwdEntryFails | container/durable_startup.go:310-319 | With a working directory, an entry `PWD=x` for anything but what `cd` calls the directory never reaches the program. |
| DurableScript.EnvMapLast | container/durable_startup.go:310-316 | Of several entries for one key the last one decides. |
| DurableScript.EnvMapAbsent | container/durable_startup.go:310-316 | A key that no kept entry sets is not exported. |
| GoPath.CleanSimple | container/durable_startup.go:231-247 | `path.Clean`, on which Join and Dir rest, leaves a rooted path of simple pieces alone and drops a slash at its end. |
| GoPath.ScanPad3 | container/durable_startup.go:222-231 | Scanning with `%d` undoes printing with `%03d`, for every index a Go int holds, 1000 and above included. |
| DurableAllocator.ResolveDurableNamespaceDir | container/durable_startup.go:192-248 | The loops over files and known names return the directory of the namespace and whether the dispatcher is there, as functions of the files. |
| DurableAllocator.NamespaceNamesMatch | container/durable_startup.go:53 | The names that are not refused are those that match the regular expression. |
| DurableAllocator.NextDurableCmdIndex | container/durable_startup.go:252-260 | The number of command files directly in the directory. |
| DurableAllocator.Definition.AppendDurableScripts | container/durable_startup.go:146-180 | All or nothing: no executables or a failing one leave the files alone and name the first failure; otherwise the scripts, and the dispatcher if missing, are appended. |
| DurableAllocator.Definition.WithDurableStartupCommand | container/durable_startup.go:102-106 | The new files are the old ones after a call for the default namespace; an error leaves them alone. |
| DurableAllocator.Definition.WithDurableStartupCommandsFromDir | container/durable_startup.go:126-136 | The same for a named namespace; the reserved and malformed names are refused first. |
| DurableAllocator.CollectFails | container/durable_startup.go:151-158 | The error reported is that of the first executable that does not render, with its index. |
| DurableLayout.SplitSub | container/durable_startup.go:213-218 | The first `-` of `NNN-name` ends the number, whatever dashes the name has. |
| DurableLayout.ParsePrinted | container/durable_startup.go:205-226 | Parsing a printed script path gives back its namespace and index. |
| DurableLayout.SubInjective | container/durable_startup.go:231-247 | Different namespaces or indices have different directories. |
| DurableLayout.ScriptPathInjective | container/durable_startup.go:163-169 | Different namespace, index or command number: different path. |
| DurableLayout.IndexStable | container/durable_startup.go:229-232 | The index of a namespace never changes once it is registered. |
| DurableLayout.KnownLayout | container/durable_startup.go:200-227 | From the files alone the scan recovers every registered namespace with its index, and finds the dispatcher exactly after the first success. |
| DurableLayout.CmdCountLayout | container/durable_startup.go:252-260 | Counting files gives the number of commands the namespace has had so far. |
| DurableLayout.CallFollowsRegistry | container/durable_startup.go:160-179 | One successful call turns the layout of a registry into the layout of the registry with the new commands. |
| DurableLayout.RunsFollowRegistry | container/durable_startup.go:146-260 | Over every sequence of the two options, from files with no place in the layout, the files are exactly the layout of the registry. |
| DurableDispatch.GlobIs | container/durable_startup.go:358-360 | A list is what a sorted glob yields exactly if it is sorted by bytes and lists the matches. |
| DurableDispatch.Pad3Sorted | container/durable_startup.go:166 | Up to 999 printed numbers sort as numbers, whatever follows them. |
| DurableDispatch.Pad3Unsorted | container/durable_startup.go:166 | 999 and 1000 do not, so the bound is tight. |
| DurableDispatch.NsWordsLayout | container/durable_startup.go:358-359 | The directory glob matches exactly the directories of the registered namespaces. |
| DurableDispatch.BaseWordsLayout | container/durable_startup.go:360-361 | The file glob of a namespace matches exactly its commands 0, 1, ... and no other namespace's. |
| DurableDispatch.DispatchOrderIsExact | container/durable_startup.go:351-366 | The dispatcher's order is registration order exactly when no namespace index is above 999 and no namespace has more than 1000 commands. |
| DurableDispatch.ScriptHoldsContent | container/durable_startup.go:163-169 | The file with number k of a namespace holds what was registered k-th under it. |
| DurableStartup.EarlierFilesKept | container/durable_startup.go:143-145 | A call keeps the earlier files as a prefix, and adds nothing exactly if it is refused. |
| DurableStartup.OneDispatcher | container/durable_startup.go:171-177 | There is exactly one dispatcher once a call has succeeded, and none before. |
| DurableStartup.IndicesInOrder | container/durable_startup.go:239-247 | Namespaces other than the default one hold the indices 1, 2, ... in first-seen order. |
| DurableStartup.OptionsRunInOrder | container/durable_startup.go:102-136 | After any sequence of the two options the dispatch order is registration order exactly when all indices stay within three digits. |
| DurableStartup.OptionsKeepContents | container/durable_startup.go:146-180 | And the script found under a namespace and number is the one registered there. |
| DurableStartup.CollectKeepsAll | container/durable_startup.go:151-158 | Rendering a call succeeds exactly if every executable renders, and keeps all texts in order. |
| DurableStartup.ContentsAreRendered | container/durable_startup.go:146-180 | What is registered under a name is, in order, the scripts of the executables given for it. |
| DurableStartup.StartupRunsCommands | container/durable_startup.go:69-180 | The file at a namespace's k-th place is the script of the k-th executable given for it, can be started by anybody, and running it does what that executable asks for, if it is faithful. |
| DurableStartup.AddedFilesStart | container/durable_startup.go:39-41 | Over every run of the options and from any files: every file they add, the dispatcher included, can be executed and read by its owner, its group and all others. |
| DurableStartup.DocumentedPaths | container/durable_startup.go:13-28 | The first scripts of the default and of another namespace, and the dispatcher, lie at the documented paths. |
| DurableStartup.CallRefusedExactly | container/durable_startup.go:126-158 | The reserved name, a name that does not match and a call without executables are refused, each with its error; otherwise a call succeeds exactly if every executable renders. |
| DurableStartup.DurablePathsDistinct | container/durable_startup.go:146-180 | After any sequence of the two options every path they gave out, the dispatcher's included, is one that no other file has, and the files before are a prefix. |
| DurableStartup.ForeignIndexIsTaken | container/durable_startup.go:239-247 | An input: with a foreign directory at index 2, the next new namespace gets index 2 as well. |
| DurableStartup.DispatcherHeadReads | container/durable_startup.go:351-356 | The dispatcher starts with lines that are read as `set -e`, the setting and export of LC_ALL, and the assignment of exactly the directory to ROOT. |
| DurableForeign.KnownAfterAppend | container/durable_startup.go:160-179 | On any files, a call keeps all known names with their indices and adds its own, if new, with the number of known names plus one. |
| DurableForeign.RunLearns | container/durable_startup.go:192-248 | On any files and over every run of the options, what the scan knows is determined by what it knew first and the names registered since. |
| DurableForeign.ParseExactly | container/durable_startup.go:205-218 | For every path: it belongs to a namespace exactly if it is under `NUMBER-NAME/` in the startup directory, where the first `-` ends the number and neither is empty. |
| DurableForeign.KnownIsFirst | container/durable_startup.go:200-227 | On any files: what the scan knows of a name is the index that the first file shows for it of those that show one. |
| DurableForeign.CountsCommands | container/durable_startup.go:252-260 | On any files: what is counted is how many of them lie directly in the directory and end in `-cmd.sh`. |
| DurableForeign.GivenOutExactly | container/durable_startup.go:229-247 | For all initial files, the indices that runs of the options give to new namespaces are exactly those above the number of names known at the start, and 0 if the default namespace is not known. |
| DurableForeign.NeverClashesExactly | container/durable_startup.go:205-247 | For all initial files: no run gives a new namespace an index that an initial path shows, whatever its name and its place in the list, exactly if no path shows an index above the number of names known, nor 0 unless the default namespace is known. |
| DurableForeign.NewPathsExactly | container/durable_startup.go:160-179 | For all initial files: over every run of the options every path given out is one that no file before has, exactly if no known namespace has a file under a number that is not below its number of scripts. |
| DurableRun.LoopsRun | container/durable_startup.go:353-364 | Under `set -e` the loops start what lies at each place, in order, each behind what was started before, up to and including the first start that fails, or else all. |
| DurableRun.PlanAligned | container/durable_startup.go:146-180 | At each place of the registration order lies the script of the executable registered there, and anybody can start it. |
| DurableRun.StartupRunsInOrder | container/durable_startup.go:69-180 | End to end: after any sequence of the options within three digits the dispatcher is there with its text and can be started by whoever it is, and starts the registered executables in registration order, each as it asks for if it is faithful, up to and including the first that fails, or else all. |
| DurableLoops.LoopsText | container/durable_startup.go:358-364 | The text behind the head of the dispatcher is that of two nested loops over `"$ROOT"/*/` and `"$ns"*-cmd.sh` with their tests. |
| DurableLoops.TextDoesTheRun | container/durable_startup.go:351-366 | On any files: what these commands do under `set -e`, unmatched patterns included, is the run over the places in the order of the sorted globs. |
| WaitTree.Walk | container/wait/walk.go:23-36 | In place, on any owned tree and for any stateful visitor: the tree left behind and the visits are those of `WalkTree`; the result is an error exactly if the verdict on the last visit is a failure that neither removes nor stops, and then that one. |
| WaitTree.WalkReports | container/wait/walk.go:28-33 | For every tree and every visitor: what is reported follows from the verdict on the last visit alone, an error exactly if that neither removes nor stops. |
| WaitTree.WalkStrategies | container/wait/walk.go:55-71 | The loop that splices the list it ranges over leaves exactly the list `WalkKids` gives; the index stays in range. |
| WaitTree.WalkPrunes | container/wait/walk.go:40-74 | For every tree and every visitor: the walk leaves the tree without exactly the nodes whose visit said remove, order kept, everything behind a stop or an error untouched; it visits in preorder without the insides of removed nodes, up to and including the first visit whose verdict is a failure that stops or does not remove, or else all of it. |
| WaitTree.RemoveMeansOwn | container/wait/walk.go:47-53 | A remove that comes out of a subtree is always that of its own root, which is gone. |
| WaitTree.GoneIsRemoved | container/wait/walk.go:57-66 | The positions removed are those on whose visit the verdict was remove. |
| WaitTree.JoinedRemove | container/wait/walk.go:47-66 | A verdict that joins remove with another error counts as remove only. |
| WaitAll.WaitMulti | container/wait/all.go:72-108 | The code's loop computes `WaitOn` on the tree and leaves every context it derived cancelled. |
| WaitAll.WaitStrategies | container/wait/all.go:83-107 | The loop runs the strategies under the default timeout or none, stopping at the first error. |
| WaitAll.WaitRunsInOrder | container/wait/all.go:83-107 | Leaves run left to right, none skipped or repeated, none after a failure; success means all ran and succeeded. |
| WaitAll.MinOfIsMinimum | container/wait/all.go:74-77 | The deadline a strategy runs under is the minimum of the caller's and its ancestors' contributions, and there is none only without any. |
| WaitAll.DeadlinesAreExact | container/wait/all.go:72-108 | The runs of a wait are exactly those their places in the tree give, however deep: each starts when everything before it in its multi-strategies has succeeded, and its deadline is the minimum of the caller's, of those of the multi-strategies it is in, counted from that instant for each of them, and of the default timeouts on its way that apply. |
| WaitAll.DeadlinesTighten | container/wait/all.go:72-78 | No leaf gets a later deadline than the caller's or than that of the multi-strategy waited for. |
| WaitAll.DefaultTimeoutReaches | container/wait/all.go:91-99 | For everything a list runs: the strategy it was run for, anywhere in the list, adds the default timeout to the bounds, counted from the instant at which those before it had succeeded, exactly if it is a timed leaf without a timeout or a multi-strategy without one; a leaf runs under these bounds, and everything inside a multi-strategy under these and its deadline. |
| WaitAll.EmptyFails | container/wait/all.go:79-81 | A wait that succeeds met no empty multi-strategy, and one that complains met one. |
| WaitAll.WalkThenWait | container/wait/walk.go:55-71 | After pruning a set of leaves a wait runs the surviving ones left to right; if none fails, it succeeds exactly when no multi-strategy was left empty. |
| LogWait.LogStrategy.WaitUntilReady | container/wait/log.go:142-206 | The submatch check counts before the regexp check before the check by count, and the timeout is a minute if none is set; with these the loop computes `WaitLog`. |
| LogWait.LogWaitSound | container/wait/log.go:163-204 | It returns nil only on a log that passes, and ends at once on the first log that passes or on a permanent error. |
| LogWait.VerdictIsExact | container/wait/log.go:163-204 | For every behaviour and check the turns and the verdict are determined: turns one right after the other as long as there is time, up to the first on which the state is an error and the length that last seen, or the check passes or fails for good; otherwise the error of the last check. |
| LogWait.CountPassesExactly | container/wait/log.go:209-215 | The check by count passes exactly on the logs in which the text occurs as often as asked for without overlaps: as many increasing positions, at least its length apart, at which it stands. |
| LogWait.OneOccurrence | container/wait/log.go:209-215 | Asked for one occurrence it passes exactly if the text stands somewhere in the log. |
| LogWait.NeverTooEarlyIsExact | container/wait/log.go:165-204 | With append-only logs it never gives up on a log that passes, exactly when the check fails on the empty log. |
| LogWait.CompleteLogFails | container/wait/log.go:171-187 | If logs freeze at death, giving up is final: the complete log fails the check. |
| LogWait.PollsObserve | container/wait/log.go:171-183 | Each turn looks at liveness first and reads the log after that. |
| LogWait.EndsAfterDeath | container/wait/log.go:185-188 | Once the container is dead for good, two successful reads end the loop at the latest. |
| LogWait.CountMonotone | container/wait/log.go:209-215 | More log never takes an occurrence away. |
| LogWait.CountFailsOnEmpty | container/wait/log.go:209-215 | Which counts fail on the empty log, exactly. |
| LogWait.CountKeepsPassing | container/wait/log.go:209-215 | A log that passes the check by count passes it with anything appended. |
| HostPort.WaitUntilReady | container/wait/host_port.go:158-245 | Against every target: the trace holds the target's true answers and is accepted by the monitor; each failure is about the last event; nil needs a mapped port, a dial and an accepted probe unless skipped. |
| HostPort.DetectInternalPort | container/wait/host_port.go:171-194 | The first phase ends well only with a port that is not zero. |
| HostPort.AwaitMapping | container/wait/host_port.go:196-214 | The second asks for the mapping of that port until it is not zero. |
| HostPort.ExternalCheck | container/wait/host_port.go:247-276 | The third dials the mapped port, again only when refused. |
| HostPort.InternalCheck | container/wait/host_port.go:278-304 | The fourth probes until exit 0, 126 or 127, checking context and liveness before each probe. |
| HostPort.MonitorIsSafe | container/wait/host_port.go:158-304 | On an accepted trace phases never go back and skipped ones do not occur, no mapping is asked for port zero, every dial, exec and repeated poll comes right after a successful liveness check, no poll is repeated once it is settled, and nothing follows a failure. |
| HostPort.ReadyMeansReached | container/wait/host_port.go:216-310 | nil means that some answer gave a mapping, that this port was dialed successfully and that the last event is a probe that exited with 0, 126 or 127, unless skipped. |
| LogDemux.ReadFull | container/container.logs.go:89-92 | The header buffer is filled whole from arbitrarily short reads, or the right error says how far the stream got. |
| LogDemux.CopyN | container/container.logs.go:97-100 | A payload is copied whole, or up to the end of the stream. |
| LogDemux.ParseMultiplexedLogs | container/container.logs.go:50-103 | However the source splits its reads, the output and the close are those of `Decode`. |
| LogDemux.BigEndianRoundTrip | container/container.logs.go:95 | The size in a header is read back for every size below 2^32. |
| LogDemux.Uint32IsPositional | container/container.logs.go:92 | The size of a frame is what its last four bytes stand for, the most significant one first. |
| LogDemux.ErrorsReachConsumer | container/container.logs.go:65-101 | A stream that ends with an error delivers what it would if it just ended, and the pipe is closed with that error, wherever in a frame it comes. |
| LogDemux.DecodeEncode | container/container.logs.go:75-101 | Decoding an encoding yields the payloads in order and a clean close. |
| LogDemux.TruncationIsExact | container/container.logs.go:58-73 | For every cut the payload bytes before it come through, and the close carries an error exactly if the cut is strictly inside a header. |
| Base64Auth.DecodeEncode | config/config.go:296-303 | Base64 decoding undoes encoding, for all byte strings. |
| Base64Auth.LineBreaksAreSkipped | config/config.go:296-303 | Line breaks anywhere in a text do not change what it decodes to. |
| Base64Auth.DecodedFitsBuffer | config/config.go:296-303 | Whatever the text, what it decodes to fits the buffer allocated from its length. |
| Base64Auth.AuthRoundTripIsExact | config/config.go:291-312 | `user:pass` comes back as the pair exactly when the user has no colon. |
| AuthResolver.HostsAreExact | config/auth/registry.go:59-65 | Exactly the six names of Docker Hub are looked up as its index, and every other host as it is. |
| AuthResolver.AliasesAgree | config/auth/registry.go:59-65 | All names of Docker Hub resolve alike. |
| AuthResolver.OneSourceDecides | config/config.go:211-285 | For every config and registry exactly one of the six sources decides, the first in their order that has something to say, and the answer is what it says on its own. |
| AuthResolver.OnlyTheDecidingSourceCounts | config/config.go:211-285 | Two configs in which the same source decides and says the same give the same answer, whatever the others say. |
| AuthResolver.StoredAuthRoundTrip | config/config.go:250-312 | Wherever a stored base64 `auth` field decides, the answer is its user and password exactly when the user has no colon. |
| AuthCache.InvHolds | config/config.go:30-117 | The invariant of slot, mutexes, entries and goroutines holds under every interleaving. |
| AuthCache.CacheAgreesWithResolver | config/config.go:94-117 | At most one cache object is made, every lookup returns what the uncached resolver says, and no error is ever cached. |
| AuthCache.AliasLookupsAgree | config/config.go:94-117 | Any two lookups of Docker Hub agree, though the cache is keyed by the hostname as given. |
| AuthCache.WritersAreAlone | config/config.go:94-117 | A goroutine that writes entries shares the cache with nobody. |
| AuthCache.SlotIsStable | config/config.go:56-82 | Once published the cache object stays, and no goroutine finds none. |
| AuthCache.SomeoneCanMove | config/config.go:30-117 | No deadlock: while a goroutine is under way, one that is under way can move. |
| AuthConfigs.ConfigWithCache.InitCache | config/config.go:62-82 | Initialises once and never loses entries. |
| AuthConfigs.ConfigWithCache.ClearAuthCache | config/config.go:30-36 | Leaves an initialised, empty cache. |
| AuthConfigs.ConfigWithCache.AuthConfigForHostname | config/config.go:94-117 | The answer is the resolver's, whatever is cached, and exactly a good one is kept. |
| AuthConfigs.ConfigWithCache.AuthConfigForImage | config/config.go:148-161 | The registry of the image and the resolver's answer for it, with the server address set. |
| AuthConfigs.ConfigWithCache.AuthConfigsForImages | config/config.go:120-145 | Exactly the registries that resolve, with their answers; missing credentials are skipped, any other error fails the call with all such errors in order. |
| AuthConfigs.FailuresAreExact | config/config.go:125-144 | The errors reported are those of exactly the images that do not parse or whose registry has another error than missing credentials, each with its own, in the order of the images. |
| Lifecycle.CombineContainerHooks | container/lifecycle.go:160-202 | Default before user hooks in every Pre field, user before default ones in every Post field, the pull hooks last in PreCreates. |
| Lifecycle.Container.ApplyContainerHooks | container/lifecycle.go:204-212 | All hooks run in order, whatever fails, and it errs exactly if one did. |
| Lifecycle.Container.ApplyLifecycleHooks | container/lifecycle.go:241-270 | The same over all sets of hooks of one phase. |
| Lifecycle.Container.Start | container/container.start.go:11-35 | The new trace, flag and error are those of `Started`. |
| Lifecycle.Container.Stop | container/container.stop.go:65-90 | The new trace, flag and error are those of `Stopped`. |
| Lifecycle.Container.Cleanup | container/container.terminate.go:42-55 | Every volume is tried, in order, and it errs exactly if one failed. |
| Lifecycle.Container.Terminate | container/container.terminate.go:116-141 | The new trace, flag and outcome are those of `TerminatedWith`. |
| Lifecycle.StartFollowsPlan | container/container.start.go:11-35 | Pre-start hooks, daemon start, post-start hooks, post-ready hooks: each stage in full, none after a stage with a failure, an error exactly if something failed. |
| Lifecycle.StopFollowsPlan | container/container.stop.go:65-90 | The same for pre-stop hooks, daemon stop and post-stop hooks. |
| Lifecycle.PhaseRunsItsField | container/lifecycle.stop.go:6-17 | A phase runs the hooks of the field with its name, and of no other. |
| Lifecycle.ErrorsNameWhatFailed | container/container.start.go:11-35 | An error of Start or Stop names the phase in which a hook failed, or the daemon call that did, and that was the last thing tried. |
| Lifecycle.StartOrder | container/container.start.go:11-35 | The daemon start comes once at most and only if all pre-start hooks succeeded; a post-ready hook runs only if everything up to the last post-start hook did. |
| Lifecycle.TerminateRemoves | container/container.terminate.go:116-141 | Removal is attempted exactly if Stop succeeded or failed cleanup-safely; then hooks and all volumes are tried too, the flag is false, and it errs exactly if any of that failed. |
| Lifecycle.RunningMeansStarted | container/container.start.go:11-35 | Over every sequence of Start, Stop and Terminate with arbitrary failures: a container that counts as running is one whose last successful start, stop or removal was a start. |
| Lifecycle.FlagLagsExactly | container/container.start.go:17-34 | Over every sequence of commands: the container is up without counting as running exactly if some command left the flag behind and no later one changed that. |
| Lifecycle.StartLags | container/container.start.go:17-34 | An input: the daemon starts the container and the readiness hook, its only one, fails behind that. |
| Lifecycle.StartedCounts | container/container.start.go:27-34 | A Start without an error, or with one of a post-ready hook only, leaves the container counted as running. |
| Lifecycle.CombinedReadiness | container/lifecycle.create.go:89-119 | Combining default and user hooks keeps the flag-setting hook out of every field but PostStarts. |
| BuildArgs.ReferenceIs | image/dockerfiles.go:15 | A reference in the pattern's terms: a name without `}`, `:` and `-`, and a default without `}`. |
| BuildArgs.MatchIsExact | image/dockerfiles.go:15 | The pattern matches in one way at most at any place, and exactly the texts of references. |
| BuildArgs.SplitIsUnique | image/dockerfiles.go:102 | Every text has exactly one split into leftmost references and literal characters between them, and the scan finds it. |
| BuildArgs.ReplacementIsValue | image/dockerfiles.go:102-124 | Matching the match again gives the same name and default; the result is the argument, else a non-empty default, else the text itself. |
| BuildArgs.HandleReference | image/dockerfiles.go:101-127 | A value comes out as it is, even if it looks like a reference, and does not affect what follows. |
| BuildArgs.ReplacesOnce | image/dockerfiles.go:101-127 | For every split of every text: literals stay, each reference is replaced by its value, once. |
| BuildArgs.JoinSplits | image/dockerfiles.go:15 | References written down between literals without a dollar sign are split back into exactly those. |
| BuildArgs.ImagesFromReader | image/dockerfiles.go:30-60 | The loop over scanned lines collects the image of every FROM line in order; an error of the scanner is passed on. |
| BuildArgs.ImagesAreExact | image/dockerfiles.go:42-57 | The images are those of exactly the lines that begin with the keyword, one for each, in the order of the lines. |
| BuildArgs.FromLineIsExact | image/dockerfiles.go:42-57 | For FROM in any mixture of cases, any flags, any image and any white space between them: the line is taken for a FROM line, and the result is the image's replacement, for all build arguments, exactly if FROM is in capitals, there are no flags, and nothing or a blank follows the image; or FROM is not in capitals, a blank follows it, and the image is called like it. |
| BuildArgs.TakenExactly | image/dockerfiles.go:42-46 | A line is taken for a FROM line exactly if, behind white space, it begins with FROM in any mixture of cases, whatever is glued to that. |
| BuildArgs.TakenPart | image/dockerfiles.go:42-57 | Such a line with a text behind the keyword, and nothing or a blank behind that, gives the text if the keyword is in capitals, glued to it or not, flag or not, empty or not; and otherwise the keyword with what is glued to it. |

## Left out

- The context store (`context/store.go`): a directory of JSON files, looked up by the digest of a name.
- `ParseProxyConfig`, functional options, builders, `String` methods, legacy adapters and label adders: each does one simple thing.
- Definition hooks (`applyDefinitionHooks`), which stop at their first error, and what the individual default hooks do.
- The Docker daemon, dialling, execs, credential helpers and image reference parsing: arbitrary functions of what happened before, or of their arguments.
- `isCleanupSafe` (container/testing.go): an arbitrary predicate on the error of Stop.
- The regexp engine: the regexp and submatch checks of the log strategy are arbitrary deterministic functions; only the build-argument pattern is modelled, by hand.
- Real time: in `WaitAll` time passes only while a leaf waits; in `LogWait` each call takes an arbitrary time; in `HostPort` fuel bounds the turns of the loops and the end of the context is an answer of the environment.
- Panics, goroutine start-up, and a consumer that closes its end of the log pipe early.
- Shared or cyclic strategy trees, visitors that change the tree themselves, and a nil `*MultiStrategy` inside the interface.
- `su`, PAM and `/etc/passwd`: `su` supplies an arbitrary environment or fails.
- Shell features the renderer never writes: expansions, pipelines, double quotes. A script that uses them has no outcome in `Shell`. Variables some shells make read-only, or set by themselves when they start, are ordinary here, `CDPATH` and the `cd` operand `-` are not followed further.
- How the shell reads the loops of the dispatcher: they are commands here that are written down as its text, not text that is parsed; only the two patterns it uses are modelled.
- Users and groups of files: what the user of the dispatcher is to its files is a parameter, and execution needs the bits for that, although root gets by with fewer.
- Strings stand for bytes, characters above 255 never matter; `Sscanf` and `TrimSpace` skip ASCII white space only, and `bytes.Count` of an empty text counts characters.
- The MD5 key of the auth cache and `cacheStats`: nothing reads them back on a lookup.
- The choice of the lowest bound port when detecting, and the text of error messages and log lines.
- BuildArgs.ImagesFromReader: takes the lines of the scanner, so the limit on the length of a line is an error of the scanner here.
- DurableStartup.OptionsRunInOrder: starts from files that are not the dispatcher and lie in no directory of the startup directory, and is for fewer registrations than a Go int can count; what foreign namespaces do to indices is `DurableForeign.NeverClashesExactly`.
- DurableForeign.NeverClashesExactly: like the other results on foreign files it is for fewer names than a Go int can count.
- DurableForeign.NewPathsExactly: a run may register any number of commands, even more than a Go int can count.
- DurableRun.StartupRunsInOrder: the files are as the options left them, so scripts that change or remove scripts, and files the image brings along, are not modelled; what started programs do and their exit status are arbitrary.
- LogWait.CompleteLogFails: for logs that only grow and stop growing once the container is seen dead, as the loop assumes.
- Lifecycle.RunningMeansStarted: for hooks of which only those in PostStarts set the flag, as the readiness hook does.
- DurableScript.CompilationPreservesMeaning: a path that `cd` cannot enter and one it can are both outcomes of an arbitrary system; how `cd` resolves a relative or symbolic path is not modelled.

# A verified model of ssf-relay

ssf-relay watches local systems for security events and forwards them (sources), and acts on signals that come back
(sinks). This project models its two stream engines, its shutdown protocol, its subscriber and the state its sinks
drive, and proves what they keep. `dafny verify dfyconfig.toml` checks everything with Dafny 4.11.

**Runs.** Where the source is concurrent, or races with an environment, the model is a machine of atomic steps: a system
call, a channel operation, the move of a writer, a peer or a scheduler. A run is a finite list of such steps; a step that
is not enabled does nothing, so the lists are exactly the interleavings and every theorem speaks of all of them. The
classes (`Tailer`, `Listener`, `Run`, `LineScanner`, `Router`, `OpaAdapter`, `VaultAdapter`, `Source`) hold the code's own
loops and updates, proved to compute the specification functions, so that the lemmas about those functions are about
the loops. Where goroutines interleave, a method is the code of one of them, and between its steps the schedule lets all
the others move. `Framing` is the one-shot division into lines that the incremental framers are measured against, and
`SplitJoins`, `SplitLineFree` and `SplitUnique` say that it is the only possible one.

| part | files |
|---|---|
| file tailer | `Tail`, `TailProofs`, `TailCalls`, `TailLedger`, `TailTruncation`, `TailLimits`, `TailLag`, `Tailer` |
| socket listener | `Socket`, `SocketProofs`, `SocketShutdown`, `Listener` |
| source manager | `Manager`, `ManagerRun` |
| subscriber | `Sse`, `SseReader`, `SseStandard`, `SseCut`, `Backoff` |
| router and sink loop | `Router` |
| sinks | `OpaPolicy`, `OpaAdapter`, `VaultAction` |
| Vault audit source | `VaultSource` |
| lines and scanner | `Framing`, `Scanner`, `LineScanner`, `Sequences`, `Wrappers` |

**Environment.** A file is the list of its generations (one more at each rewrite in place), a path names an inode or
nothing, and any append, rewrite, link or unlink may fall between any two calls of the tailer. Requests to OPA and Vault
may be served, refused with any status, or lost before or after they took effect, each independently. Parsers, the JSON
decoder, the template engine and the builders of adapters are arbitrary functions passed in. The context is cancelled by
a step of its own. Time is counted in seconds of waiting.

## Where the code and its documentation differ

The model follows the code.

- `Tail` is documented to return nil when its context is cancelled (relay/tailer.go:26). It does so only from its
  tick loop; from the retry loop, at the start or after a rotation, it returns the context's error
  (relay/tailer.go:107-109). `CancelledWhileOpening` is such a run, and `TailReturns` states exactly which is returned.
- A failed `os.Stat` of the path counts as a rotation (relay/tailer.go:121-125), also when the path still names the open
  file, which is then read again from the start. Hence the condition `Fresh` of `NoByteTwice`; `FreshIsNeeded` is a run
  without it, and `RereadExactlyWhen` states when bytes are in fact read twice.
- Truncation handling is promised (relay/tailer.go:25-26), but a rewrite is noticed if and only if it leaves the file
  shorter than the offset at the check (relay/tailer.go:66): `RewriteNoticedExactly`. `UnnoticedRewriteSplices` is a run
  in which a line is delivered that was never written. Hence the condition `Faithful`, which `SeenIsFaithful` reduces to
  one on the writers' moves.
- The README says the router dispatches in parallel (README.md:37); `Handle` calls adapters one after the other
  (relay/router.go:43-49).
- `flagEntity` speaks of removing the ssf keys (actions/vault/adapter.go:140); two are emptied, and the other two are left
  naming the recovery signal. `FlagsTellLastSignal` states what is there afterwards.
- A 403 on `revoke-self` is taken for success (actions/vault/adapter.go:105-109) although the token may be alive;
  `NilLeavesLiveExactlyWhen` says exactly when that happens.
- `auth/*/login/*` (sources/vault/source.go:117) is any path that starts with `auth/` and contains `/login`.
- `Manager.Run` is documented to wait for all (relay/manager.go:35). It returns at once when a source cannot be built
  (relay/manager.go:43-46): `EarlyReturnExactly`; and the workers started so far then run on: `BuildFailureLeavesWorker`.

## Model

| member | source | states |
|---|---|---|
| Framing.SplitJoins | relay/tailer.go:77-91 | the complete lines with their newlines put back, and the remainder, are the bytes: framing neither loses nor invents |
| Framing.SplitUnique | relay/tailer.go:77-91 | lines without newline and a remainder without newline are the only such division of their concatenation |
| Framing.SplitAppend | relay/tailer.go:74-91 | framing a stream in two chunks with the remainder carried over equals framing it in one |
| Framing.DeliverExactly | relay/tailer.go:82-89 | every line that is not empty goes to the parser whole, and each event stands in its line's place: none is left out, added or moved |
| Tailer.Tailer.Tail | relay/tailer.go:27-96 | the loops, for any list of environment moves and call outcomes, end in the state the machine's run ends in, so all lemmas about runs hold of them |
| Tailer.Tailer.Begin | relay/tailer.go:28-37 | starts to follow the file at its end as it is then |
| Tailer.Tailer.Frame | relay/tailer.go:76-90 | the peeling loop delivers what a one-shot split of the buffered bytes delivers and keeps exactly the newline-free rest |
| Tailer.Tailer.OpenWithRetry | relay/tailer.go:100-113 | opens the file that the path names at the time, or gives up only when cancelled |
| Tailer.Tailer.IsRotated | relay/tailer.go:116-127 | true if and only if the handle could be examined and the path's stat failed or the path names another file or none |
| TailProofs.TailRefinesOneShotSplit | relay/tailer.go:44-91 | in every interleaving the events are, epoch by epoch, those of a one-shot split of the bytes read, and `pending` is exactly the newline-free remainder, however reads were cut |
| TailCalls.FirstEpochStartsAtEnd | relay/tailer.go:34-37 | in every run the first epoch starts at the size the file has when the seek is made, in the generation it has then |
| TailCalls.HistorySkipped | relay/tailer.go:34-37 | so history is not replayed: what the first epoch reads follows the content found at the seek, and it delivers the lines of that alone |
| TailCalls.StartsOverExactly | relay/tailer.go:51-71 | it starts over if and only if it reopens the path or finds the file shorter than the offset, then at offset 0 of the path's file or the same file with nothing pending; an unknown size changes nothing |
| TailCalls.ReopensExactly | relay/tailer.go:52-57 | the checks lead to reopening if and only if the handle could be examined and the path could not, or names another file or none |
| TailProofs.TailConsumesSlices | relay/tailer.go:34-83 | if no byte is read from an unnoticed rewrite, each epoch consumed exactly start..offset of one generation, start being 0 after any reset, and exactly its complete lines were delivered, in order |
| TailProofs.NoByteTwice | relay/tailer.go:51-71 | if moreover each reopened file is a newer generation, no byte of any file is consumed by two epochs |
| TailProofs.RereadExactlyWhen | relay/tailer.go:51-71 | two epochs of one generation share a byte if and only if both read and the later one got past the start of the earlier |
| TailTruncation.RewriteNoticedExactly | relay/tailer.go:51-91 | with the path unchanged and every call successful, a rewrite of the open file before the size check makes the tick reset if and only if the new content is shorter than the offset; if not, the old epoch goes on and delivers the lines of the old `pending` spliced onto the new content |
| TailTruncation.RewriteAfterCheck | relay/tailer.go:66-91 | a rewrite between check and read goes unnoticed by that tick, and bytes of it are read on if and only if it is longer than the offset |
| TailTruncation.SeenIsFaithful | relay/tailer.go:64-74 | if the files being read only grow, or shrink below the offset and stay there until the tailer has looked, every run is faithful: a condition on the writers' moves and the tailer's offset, not on what the tailer reads |
| TailTruncation.NoticedNeverReplays | relay/tailer.go:64-71 | in every run the epoch that a noticed truncation begins shares no byte with any earlier epoch, however the run goes on: only reopening can replay |
| TailLimits.UnnoticedRewriteSplices | relay/tailer.go:66-90 | a run from the start that delivers a line which no generation of the file contains, after a rewrite that is not shorter than the offset |
| TailLedger.ByteLedger | relay/tailer.go:52-91 | over every run: bytes read = bytes framed with their newlines + pending + bytes dropped at resets |
| TailLedger.ResetLosesExactly | relay/tailer.go:52-71 | a reset emits nothing and loses exactly `pending` and the unread suffix of the old file; it loses nothing if and only if the tailer was caught up on a line boundary |
| TailLimits.FailedStatReplays | relay/tailer.go:121-125 | a failed stat with path and file unchanged makes the tailer consume a byte it had consumed a second time, whenever the epoch has read within the first buffer, and deliver the lines there again |
| TailLimits.FreshIsNeeded | relay/tailer.go:121-125 | such a run from the start, in which the file only grows: two epochs cover byte 0, so the newer-generation condition cannot be left out |
| TailLedger.TailReturns | relay/tailer.go:44-57 | once returned without seek error it was cancelled, and the result is nil if and only if it holds an open file |
| TailLimits.CancelledWhileOpening | relay/tailer.go:100-113 | a run from the start that returns the context's error on cancellation |
| TailCalls.CancelReturns | relay/tailer.go:44-49 | cancellation is not missed: from any state of a cancelled run four calls suffice to return |
| TailLag.TickAdvances | relay/tailer.go:73-91 | a tick of full reads advances the offset by 4096 or to the end of the file as it is when read, whatever is appended between its calls |
| TailLag.CatchesUpExactly | relay/tailer.go:73-91 | without writes the tailer is caught up after exactly ceil(backlog / 4096) ticks and not before |
| TailLag.BacklogBound | relay/tailer.go:19-91 | with at most 4096 - d bytes appended per tick the backlog after k ticks is at most max(0, backlog - k*d); with d = 0 it never grows |
| Scanner.ScanIsSplit | relay/socket_listener.go:87-98 | on lines without CR that fit the buffer the scanner yields the plain split and then the unterminated fragment |
| Scanner.ScanExactly | relay/socket_listener.go:87-98 | for any bytes and limit: every line without its CR up to the first that does not fit the buffer, at which the scan ends, and at last the fragment if it fits |
| Scanner.CRLFIsLF | relay/socket_listener.go:87-98 | lines that end in CR LF are scanned as those that end in LF |
| LineScanners.LineScanner.Scan | relay/socket_listener.go:90-98 | successive calls yield the tokens of the whole stream one by one, whatever the sizes of the reads |
| LineScanners.Scan1IsNext | relay/socket_listener.go:90-98 | what the buffer alone decides is what the whole stream holds next, whatever is still to come |
| Listeners.HandleSocketConn | relay/socket_listener.go:73-102 | a connection's events are those of its whole stream's tokens, however it was cut into reads |
| Listeners.Listener.ListenSocket | relay/socket_listener.go:51-69 | the accept loop, with all other goroutines moving between its steps, follows the machine for any schedule, and returns only when cancelled, with the group at zero and every handler gone |
| Listeners.Listener.AcceptCall | relay/socket_listener.go:53-61 | Accept yields a connection only while the listener is open, and otherwise blocks or fails |
| Listeners.Listener.HandleConn | relay/socket_listener.go:64-102 | the handler's goroutine, scan loop and deferred wg.Done, follows the machine among whatever all others do, until it is gone |
| Listeners.Listener.Scan | relay/socket_listener.go:87-98 | a line is yielded when the bytes received hold one, and is then the last of those seen; the scan ends only when they hold none and no more will come, or one too long |
| SocketProofs.WaitGroupCountsHandlers | relay/socket_listener.go:51-68 | in every schedule the group's count is the number of live handlers (one more just before `go`), connections accepted after cancellation included |
| SocketProofs.ReturnsWhenDrained | relay/socket_listener.go:54-58 | it has returned only if cancelled and with every handler gone |
| SocketProofs.NoEmitAfterReturn | relay/socket_listener.go:54-58 | whatever happens after it has returned, nothing more is emitted |
| SocketProofs.EmitsInterleaveConnections | relay/socket_listener.go:52-98 | the global sequence is an interleaving: every event belongs to a connection; each connection's events, in order, are those of the lines scanned so far of the bytes sent on it, and once its handler has left, of all that was read; it leaves only when reads fail or a line is too long |
| SocketProofs.ReceivedIsArrived | relay/socket_listener.go:87-91 | in every schedule what a connection has received is the concatenation, in order, of the pieces its scanner read: nothing is lost, added or moved |
| SocketProofs.EmitsCountUp | relay/socket_listener.go:52-98 | in every schedule as many events are emitted as the lines scanned from all connections deliver: none is duplicated or invented |
| SocketProofs.TransportsAgree | relay/socket_listener.go:87-98 | without CR and with lines under 1 MiB a handler emits what the file tailer's framer emits and then the event of the unterminated fragment |
| SocketShutdown.ShutdownCompletes | relay/socket_listener.go:43-58 | from every state a cancelled run can reach, steps of the relay alone can lead to its return |
| SocketShutdown.EveryShutdownCompletes | relay/socket_listener.go:43-58 | once the listener is closed, every schedule of such steps is bounded in its effective steps, and has returned when none is left: the drain cannot get stuck |
| SocketShutdown.ClosesOnCancel | relay/socket_listener.go:43-47 | the listener is closed only after cancellation, can always be then, and no connection is accepted from then on |
| SocketShutdown.AcceptsAfterCancel | relay/socket_listener.go:52-68 | between cancellation and the closing a connection is still accepted, counted and handled |
| ManagerRun.Run.Execute | relay/manager.go:37-86 | the loops and channel operations, for any schedule of the workers, end in the state the machine's run ends in |
| ManagerRun.Run.StartAll | relay/manager.go:41-74 | the start-up loop, interleaved with workers already running, ends waiting or with the build's error |
| ManagerRun.Run.Collect | relay/manager.go:76-85 | wait, close and first error are the machine's, however the workers finish |
| ManagerProofs.ManagerIsSafe | relay/manager.go:38-77 | in every schedule, failed builds included: no send on a closed channel, no send blocks, the channel never exceeds its capacity, each worker sends at most once, the group counts the live workers |
| ManagerProofs.ManagerReturnsFirstError | relay/manager.go:69-85 | if all sources build it returns after every worker has exited, with nil if and only if no transport of a running worker returned an error, otherwise with the error sent first, which a transport returned |
| ManagerProofs.FailedExactly | relay/manager.go:63-72 | the failures of a run are exactly the errors that transports of running workers returned: none is swallowed or made up |
| ManagerProofs.SentExactly | relay/manager.go:70-72 | the errors sent are those the workers sent, in order |
| ManagerProofs.EarlyReturnExactly | relay/manager.go:41-46 | it returns an error without having waited and closed if and only if the build of a source fails with that error |
| ManagerProofs.OnlyBuildFailureLeavesWorkers | relay/manager.go:35-46 | a worker still live at its return means a source failed to build, whose error it has returned |
| ManagerProofs.BuildFailureLeavesWorker | relay/manager.go:35-46 | a run in which that happens: the second of two sources does not build, the first one's transport runs on |
| ManagerProofs.RunFinishes | relay/manager.go:37-86 | no schedule of n sources has more than 6n + 4 effective steps, and when all transports have returned and nothing can move, it has returned |
| SseReader.ReadSSE | relay/subscriber.go:158-194 | for any reads: the SETs handed to the router, and which of nil, read error and closed is returned, as functions of the body, the 8 MiB and 64 KiB limits and the moment of cancellation |
| SseReader.LimitedIsTake | relay/subscriber.go:158 | limiting the reads is truncating the body at 8 MiB, wherever reads were cut |
| Sse.DecodedExactly | relay/subscriber.go:178-188 | every payload that decodes is handed on, in its place, and no other |
| SseStandard.AgreeOnBlock | relay/subscriber.go:166-176 | on one event the reader and section 9.2.6 of the WHATWG HTML standard agree if and only if it has at most one data field, written `data: ` |
| SseStandard.AgreeExactlyOnPlain | relay/subscriber.go:159-189 | on streams of finished events they agree event by event if and only if every event is of that kind |
| SseStandard.AgreeExactly | relay/subscriber.go:158-189 | on every LF-only stream without byte order mark within both limits, unfinished last event and unterminated last line included, reader and standard agree if and only if every finished event is of that kind and what follows the last one has no payload |
| SseStandard.ReaderMeetsStandard | relay/subscriber.go:158-189 | there the router gets the decoded data of exactly the events the standard dispatches |
| Sse.StdLinesAreLines | relay/subscriber.go:158-159 | without CR the standard's line division is the scanner's |
| SseCut.CutGivesPrefix | relay/subscriber.go:158-194 | wherever a connection is cut (mid-line, by either limit, by cancellation) the router gets an in-order prefix of the SETs sent, if no proper prefix of a payload decodes to something else |
| SseCut.UncutGivesAll | relay/subscriber.go:158-194 | and all of them if the stream arrives whole within both limits and uncancelled |
| SseCut.NothingBeyondLimit | relay/subscriber.go:158 | what follows the first 8 MiB of a body changes nothing |
| SseCut.CancelCutsAtToken | relay/subscriber.go:159-162 | the tokens before the one at which the cancellation is seen are handled, that one and later ones are not |
| Backoff.Run | relay/subscriber.go:53-95 | every wait is min(60, 2^(j+1)) s with j the waits completed since the last success; attempts are spaced by the waits; at most one begins after cancellation; only cancellation ends the loop |
| Backoff.Doubles | relay/subscriber.go:197-202 | capped doubling of one wait is the next wait of the ladder, which starts at 2 s and stays between 2 s and 60 s |
| Backoff.WaitsSinceSuccess | relay/subscriber.go:61-94 | a success sets the wait back to 2 s, and each failure since then, or since the start, doubles it up to 60 s |
| Backoff.WaitSumClosed | relay/subscriber.go:61-94 | n waits without success last 2^(n+1) - 2 s for n <= 5 and 62 + 60(n - 5) s beyond |
| Backoff.FailingWaits | relay/subscriber.go:69-78 | the waits of a run of failures are that ladder |
| Backoff.WindowBound | relay/subscriber.go:64-94 | any window of T seconds holds at most T/2 + 1 attempts |
| Router.Router.Register | relay/router.go:27-32 | keeps the index equal to the flat registration list, each adapter repeated as often as it declares a type |
| Router.Router.Handle | relay/router.go:36-54 | every adapter ends where as many calls of its own as it declares the type leave it, whatever others do; the error lists exactly the failing calls in order, and is nil if and only if no call fails |
| Router.Router.EventTypes | relay/router.go:57-63 | exactly the types whose registration list is not empty, each once |
| Router.RegisterSinks | cmd/ssf-relay/main.go:88-101 | registers one adapter for each distinct action, built from its first sink; fatal if and only if one of those fails to build |
| Router.FirstsAreFirst | cmd/ssf-relay/main.go:89-94 | the sinks built from are the first occurrences, every action once, in order of first occurrence |
| Router.OneAdapterEach | cmd/ssf-relay/main.go:95-100 | each contributes exactly the adapter and state built from it |
| Routing.FanIsAlone | relay/router.go:42-52 | one signal's fan-out is non-interference, and its messages are those of the failing calls in registration order |
| Routing.TimesExactly | relay/router.go:43-47 | an adapter's calls hand its state from one to the next, and complain, as name, colon, space and error, of exactly those that fail |
| Routing.CountIsMultiplicity | relay/router.go:28-30 | an adapter is listed as often as it declares the type |
| Routing.RunIsSolo | relay/router.go:36-54 | over any run of signals each adapter is in the state of its solo run, whatever the others' failures |
| Routing.SoloIgnoresOthers | relay/router.go:37-41 | and that run is determined by the signals of the adapter's own types |
| Routing.IndexedWhenDeclared | relay/router.go:57-63 | a type has a handler if and only if a registered adapter declares it |
| OpaProofs.PolicyIDInjective | actions/opapolicy/adapter.go:135-138 | two policy IDs are equal if and only if the sources are equal up to sanitising and the states are equal |
| OpaProofs.PackageIDInjective | actions/opapolicy/adapter.go:165 | distinct policy IDs keep distinct package IDs, also under a prefix that is itself sanitised |
| OpaProofs.PolicyPresence | actions/opapolicy/adapter.go:118-132 | for any run with any failures: a policy is present if and only if it was put after its last deletion, or was there at first and never deleted |
| OpaProofs.SmoothPresence | actions/opapolicy/adapter.go:118-132 | with all requests successful: present if and only if its signal came after the sanitised source's last recovery, or it was there initially with no recovery since |
| OpaProofs.PolicyText | actions/opapolicy/adapter.go:120-177 | a policy's text is what the compromised template, or the degraded one, gave for the last signal that put it, with ID, package, source, type and reason spelled out |
| OpaProofs.WhichTemplate | actions/opapolicy/adapter.go:120-138 | which template and which suffix belong to which state |
| OpaProofs.OthersUntouched | actions/opapolicy/adapter.go:135-138 | policies outside the adapter's naming scheme are never touched, in any run |
| OpaProofs.NilExactlyWhen | actions/opapolicy/adapter.go:183-231 | which answers make Act return nil: both of the two deletions must be accepted, a 404 counting as accepted |
| OpaProofs.NilMeansApplied | actions/opapolicy/adapter.go:118-132 | nil without a refusal means the policy is put with its text, or both of the source's policies are gone |
| OpaAdapters.OpaAdapter.PutPolicy | actions/opapolicy/adapter.go:141-194 | under prefix, sanitised source and the state's suffix the policy gets the text of the state's template exactly if the request takes effect; every other policy stays as it was; nil means rendered and answered below 400 |
| OpaAdapters.OpaAdapter.DeletePolicy | actions/opapolicy/adapter.go:197-218 | at most the policy named goes, every other stays as it was, and nil means accepted or answered by a 404 |
| OpaAdapters.OpaAdapter.Act | actions/opapolicy/adapter.go:118-132 | a compromise signal puts the one policy from its template, a degraded signal the other; on recovery each goes exactly if its own deletion takes effect, whatever the other met; no other policy changes; any other type is an error |
| OpaAdapters.OpaAdapter.ActAll | actions/opapolicy/adapter.go:118-132 | a sequence of signals leaves the server as the run of the lemmas does |
| OpaAdapters.JoinErrs | actions/opapolicy/adapter.go:220-231 | keeps exactly the errors that are not nil, in order |
| VaultProofs.ActEffect | actions/vault/adapter.go:70-164 | the whole effect of one signal under any failures: at most one token goes, at most one entity's metadata changes, and which |
| VaultProofs.LiveExactlyWhen | actions/vault/adapter.go:85-114 | after any run a token is live if and only if it was and no compromise signal's request reached the server with it |
| VaultProofs.RevokedForGood | actions/vault/adapter.go:70-185 | once the server holds the token revoked, no later signals with it change anything, and each that is answered succeeds |
| VaultProofs.NilLeavesLiveExactlyWhen | actions/vault/adapter.go:98-113 | a compromise signal returns nil and leaves the token live if and only if the server refused with 200, 204 or 403 |
| VaultProofs.LastFlagWins | actions/vault/adapter.go:118-164 | the last update to reach an entity decides its four ssf keys, each spelled out, alone, whatever came before and whatever failed since |
| VaultProofs.FlagsTellLastSignal | actions/vault/adapter.go:133-143 | after successful flags the metadata say the last signal: degraded with its source or neither, and its type and correlation |
| VaultProofs.OtherKeys | actions/vault/adapter.go:145-164 | other metadata survives every run if updates merge, and if they replace exactly until the first update arrives |
| VaultAdapters.VaultAdapter.RevokeSelf | actions/vault/adapter.go:85-114 | exactly the token in the environment goes, if the request arrives; no metadata change; nil for exactly the answers 200, 204 and 403 to a token that is not empty |
| VaultAdapters.VaultAdapter.LookupEntityID | actions/vault/adapter.go:168-199 | an entity is found only if it is the valid token's own; nil with none for exactly an invalid token, one without entity, or a 403 |
| VaultAdapters.VaultAdapter.FlagEntity | actions/vault/adapter.go:118-165 | only the metadata of the token's own entity can change, only after a lookup answered and decoded, and then say the signal; no token is touched; and exactly when nil is returned |
| VaultAdapters.VaultAdapter.ActAll | actions/vault/adapter.go:70-81 | a sequence of signals leaves the server as the run of the lemmas does |
| VaultSource.Source.Parse | sources/vault/source.go:85-131 | the decision on any line, in this order: not decoded or not a response, revocation, dropped path, error, login, first fitting mount rule, nothing; and what the event then reports |
| VaultSource.Source.BuildEvent | sources/vault/source.go:133-165 | the event reports kind, engine, the request's entity or else the token's, name, accessor and request ID, each optional metadata key if and only if its field is not empty, and no other key |
| VaultSource.DecimalReads | sources/vault/source.go:147-150 | the lease duration is written in digits that read as that number, without leading zeros, with a sign if negative |
| VaultSourceProofs.DropRemovesExactly | sources/vault/source.go:99-110 | adding a drop prefix anywhere removes exactly the events, other than revocations, whose path starts with it and changes no other |
| VaultSourceProofs.SameDropsExactly | sources/vault/source.go:105-110 | two drop lists classify every line alike if and only if they drop the same paths, revocation paths aside |
| VaultSourceProofs.DropOrderFree | sources/vault/source.go:105-110 | permuting drop prefixes never changes a result |
| VaultSourceProofs.RuleOrderExactly | sources/vault/source.go:122-127 | the order of mount rules never matters if and only if any two that apply to a common path reaching the rules agree on event and engine |
| VaultSourceProofs.IncomparableRules | sources/vault/source.go:122-127 | in particular rules with pairwise incomparable prefixes may be permuted |

## Left out

- HTTP, TLS, DNS, sockets and file system calls as such: they are steps or answers of the environment.
- JSON, YAML, `text/template` and regexp internals: parsers and decoders are arbitrary functions, sanitising is per character.
- `bufio.Scanner` internals: its documented line splitting (one CR dropped, last fragment delivered, lines that exceed the buffer end the scan) is written out in `Scanner` and taken as given.
- Listening itself: removing a stale socket file, a failing `net.Listen`, and `parseSocketAddr`.
- Closing of handles: the deferred `Close` of `Tail` binds the first handle, so no claim is made that all are closed.
- The seek that resets a truncated file is taken to succeed, and a read error is a read of nothing.
- An append of the environment is atomic, and a rewrite in place begins a new generation; holes and links other than the tailed path are not modelled.
- Fairness of Go's `select`, and wall-clock time other than the waits of the subscriber and the ticks of the tailer.
- Undelivered wake-ups of the ticker: a tick that falls into a long iteration is one that the run does not contain.
- The life of one event stream inside the back-off loop is a number of seconds; what it delivers is the subject of `SseReader`.
- `createStream` and the status checks of `readSSE` before the body: an attempt succeeds or fails.
- Router.Router.Handle: adapters are distinct objects with states of their own, so two that share a remote server are not covered.
- OpaAdapters.OpaAdapter.PutPolicy: a prefix that does not fit a URL path as it stands (it is configured, and not escaped) is not modelled; the ID is the ID the server sees.
- SseStandard.ReaderMeetsStandard: event names, IDs and retry times of the standard have no counterpart in the reader and are not compared.
- VaultAction: other clients of the Vault server, and an entity that changes between lookup and update.
- relay/emitter.go, relay/signing.go, actions/k8scordon, actions/webhook, sources/k8s, sources/opa, configuration, registries, the JWKS endpoint and logging: request builders, flat switches or third-party cryptography that would only add easy members.

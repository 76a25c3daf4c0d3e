# HASP, verified

HASP is a local secret broker: a daemon keeps a vault, and agents get at secrets only through grants. This
project models the parts of it that are small state machines or text transformations, and proves what they
promise over every input, every run or every reachable state.

| files | part |
|---|---|
| AuditChain, AuditLog, AuditMachine | the hash-chained audit file: the chain, the `Log` object with its tail cache, and any number of logs interleaving over one file |
| NonceCache, RequestAuth | the replay cache, and the HTTP request validator with its two clock readings |
| BridgeConnection, Bridge | the Pi extension's JSON-RPC bridge: one connection, and the bridge that replaces failed ones |
| HookFiles, Hooks | a file system that can fail or crash between writes, and the git hook installer over it |
| Grants, Delivery | the grant loops over an arbitrary store, and the delivery of authorized values to the runner |
| Sorting, Decimal, Leases | keyset pagination of leases |
| EditDistance | typo suggestions |
| BlockSplice | the managed block of `write-env --append` |
| TomlSections, CodexConfig | the Codex TOML entry: written, removed, inspected |
| ShellQuote | shell quoting against the token rules of POSIX.1-2017, XCU section 2.2 |
| Option, Text | helpers |

`dafny verify dfyconfig.toml` checks everything.

## Main results

- **Audit.** From a missing, empty or valid file, in every state of every interleaving of Append, Checkpoint and
  WithKey by any number of logs, each unkeyed or with the shared key, the file verifies, its sequences are 1..n, and
  a cache hit equals a rescan (`RunsVerify`, `CachesAreCoherent`). An event of a keyed
  log whose details survive is authenticated, and the file no longer verifies without a key
  (`KeyedAppendAuthenticates`). A checkpoint fixes the whole prefix of any file
  that verifies and carries it (`CheckpointsBind`). The verifier is exact on every file (`ExactDecides`).
- **Replay.** With a clock that does not step back, no date and nonce is accepted twice in any run if and only if
  ttl >= 2 * skew + d (`ReplayBoundIsTight`), and forgetting old nonces shows if and only if some reading of the clock
  evicts an accept that a later one would still count (`ForgettingShowsIffEvictedEarly`).
- **Signatures.** One signature fits one request only: date, nonce, verb, body, path and query
  (`SignatureCoversRequest`); what is authentic is spelled out in both directions (`AuthenticDemands`,
  `HonestRequestIsAuthentic`).
- **Bridge.** In every run each request id is written once, each promise settles at most once, by the first reply that
  names it or by the failure, and exactly once after a failure (`EveryCallSettlesOnce`, `ConnectionsAreApart`);
  what is heard, and what it does for a pending call, is told from the text (`DataReadsLines`, `DataAnswersCalls`);
  the cutting of a stream into chunks does not matter, exactly unless the data handler throws before the end of what
  it has to do (`ChunksDoNotMatter`).
- **Hooks.** At every crash point of every install each text of a hook's files survives in full (`Install`), so over
  any history of installs, crashes within them, and edits only an edit loses a text (`RunHistory`); a finished install
  is ready, a second one writes nothing, and a user's hook lies in the backup that the new hook runs (`HookRunsBoth`).
- **Grants and delivery.** For every store, however many decisions it answers a batch with, the loops are bounded,
  mint each grant once, only for the request that was denied and in the scope given for its kind, and say why they
  refuse (`AuthorizeReferences`, `AuthorizeOne`); each destination gets the value at its own reference's place
  (`Execute`).
- **Text.** Pagination is complete and stable under change; the two-row distance is the shortest edit script; the
  block splice and the TOML entry obey "the last write wins"; quoted argument lists read back as they were.

## What turned out false, and exactly when

- *Splicing twice equals splicing once* holds exactly when the first block's lines hold no marker
  (`LastSpliceWins`). The newline check on values lets an end marker through, and then text leaks out of the block
  (`EndMarkerInValueLeaksOut`).
- *A lease's cursor leads behind it* holds exactly when its id is not empty, does not end in white space, and no
  earlier lease has its key (`CursorLeadsBehindItsLease`).
- *An appended event verifies* exactly when its details decode again and encode to the same text, and its line,
  newline included, fits the scanner's megabyte (`AppendedFileVerifiesIff`); Append looks at neither. Section 6 of
  RFC 8259 names details that may not survive: an integer of more than 53 bits may lose digits, and a number outside
  the range of a double does not decode at all.
- *remove after upsert equals remove* for every file but an empty one, where the first leaves one newline
  (`RemoveUndoesUpsert`).
- *The replay cache answers as one that keeps every accept* exactly for the clock readings t of which no three, at
  i < j < k, have t_i < t_j - ttl and t_i >= t_k - ttl (`ForgettingShowsIffEvictedEarly`). Readings that never step
  back are such (`NonDecreasingIsEnough`).
- *The cutting of a stream into data events does not matter* exactly when a line at which the handler throws, one that
  parses to null, is followed by no further complete line and no tail over the limit (`ChunksDoNotMatter`). The cut
  right behind the throwing line is the one that differs: the next event finds the buffer empty and goes on with what
  one event would have left unread (`CutBehindThrow`).

## How things are modelled

- Foreign code is a parameter: digests, JSON, base64, time parsing, lower-casing. Digests are taken as injective where
  a statement says so (`Injective`), with keyed and unkeyed digests apart.
- An audit line is what its reader learns from it: its length and the event it decodes to, or that it does not
  decode. `World.recode` is decoding a details text and encoding it again, if it decodes. Kinds and actors are taken as
  valid UTF-8: an invalid byte would be hashed as an escape and come back as U+FFFD. One Append write is atomic. A stat
  fingerprint is the file's size together with an arbitrary rest; nothing but the size's growth is used. A scan sees
  the file as it is when it reaches the end.
- Times are unbounded integers of nanoseconds, without the saturation of Go's Duration; clock readings are parameters.
- Failure messages of the bridge are an enumeration, one value for each fixed text. A line `null` makes the data
  handler throw, as reading a property of null does; the runs are those of a process that survives the exception.
  Each `on` handler runs to its end before another starts.
- The disk writes a file by truncating it and adding pieces, keeps every state in between, and lets any operation
  fail. The execute check is the owner's bit.
- The store's answers are functions of the call's number and of the requests or the grant it is called with, so they
  may depend on anything. The repository's own store
  answers a batch with one decision for each request; an arbitrary one may not, so the model says what that causes: a
  first denied decision beyond the requests is an index out of range (`Crashed`, exactly then), and a short reply
  that allows everything is a success.
- Strings are sequences of code points; trimming follows `unicode.IsSpace`.

## Model

All sources are under `apps/server/internal`.

| member | source | states |
|---|---|---|
| AuditChain.AppendVerifiesIffDetailsSurvive | apps/server/internal/audit/audit.go:156-200 | a line appended by a log that is unkeyed or has the verifier's key extends a chain if and only if its details decode again and encode to the same text |
| AuditLog.AppendedFileVerifiesIff | apps/server/internal/audit/audit.go:19-29 | after an append to a file that verifies, the verdict is OK if and only if the details survive and the line fits the scanner |
| AuditChain.ChainExtends | apps/server/internal/audit/audit.go:229-274 | a valid file plus a line is valid exactly when the line links to the last one |
| AuditChain.LinkMeans | apps/server/internal/audit/audit.go:229-260 | a line links exactly when its sequence, predecessor, scheme and hash are the ones written out in Follows |
| AuditChain.NextEventIsSigned | apps/server/internal/audit/audit.go:173-183 | the event is the request's, in sequence, with the digest and the label that the log's key calls for |
| AuditChain.HashFixesPrefix | apps/server/internal/audit/audit.go:236-259 | equal hashes in two files that verify under one key are at one position, and the files agree on every record up to there but for the unhashed label of the unkeyed scheme |
| AuditLog.HitEqualsScan | apps/server/internal/audit/audit.go:343-347 | a fingerprint hit returns what a rescan of the file would |
| AuditLog.ScanKeepsCoherence | apps/server/internal/audit/audit.go:349-382 | a scan leaves a coherent cache even when the file grew after the stat |
| AuditLog.CoherentGrows | apps/server/internal/audit/audit.go:334-383 | others' appends do not spoil a coherent cache |
| AuditLog.NextEventLinks | apps/server/internal/audit/audit.go:173-183 | the event built from the true tail extends the chain under the shared key |
| AuditLog.KeyedAppendAuthenticates | apps/server/internal/audit/audit.go:156-200 | an event of a keyed log whose details survive makes the last line keyed, leaves the unauthenticated lines as they were, and the longer file does not verify without a key |
| AuditLog.VerifiesMeans | apps/server/internal/audit/audit.go:229-260 | a file verifies exactly when each line follows and is shorter than the megabyte |
| AuditLog.CacheAnswersNext | apps/server/internal/audit/audit.go:334-400 | the fingerprint taken after an append finds the appended event and its sequence |
| AuditLog.TallyStep | apps/server/internal/audit/audit.go:261-272 | the running counters keep counting the unkeyed lines that have a keyed line before them, and the least of them |
| AuditLog.ExactDecides | apps/server/internal/audit/audit.go:229-283 | an exact verdict is a scan error, or OK, exactly on the files that deserve it |
| AuditLog.CorruptionIsFirst | apps/server/internal/audit/audit.go:229-260 | what precedes the reported corruption verifies alone |
| AuditLog.VerifyLines | apps/server/internal/audit/audit.go:223-283 | the verifier's loop is exact on every file: OK with the right counts, the first corrupt line's number, or a scan error |
| AuditLog.BytesGrows | apps/server/internal/audit/audit.go:335-344 | the file only gains lines, so a shorter past of it had a smaller size, and a fingerprint with the present size is of the present file |
| AuditLog.AuditFile.Create | apps/server/internal/audit/audit.go:185-189 | opening for append creates a missing file and changes no line |
| AuditLog.AuditFile.Write | apps/server/internal/audit/audit.go:195-197 | a write adds one line at the end |
| AuditLog.Log.constructor | apps/server/internal/audit/audit.go:130-136 | a fresh log has no key and no cache |
| AuditLog.Log.WithKey | apps/server/internal/audit/audit.go:142-154 | the key is replaced and the cache kept |
| AuditLog.Log.ClearCache | apps/server/internal/audit/audit.go:402-406 | the cache is emptied, the key kept |
| AuditLog.Log.CacheEvent | apps/server/internal/audit/audit.go:385-400 | after an append the cache holds the event under the new fingerprint, or nothing |
| AuditLog.Log.StatTail | apps/server/internal/audit/audit.go:335-347 | the stat half of reading the tail, in step with its specification |
| AuditLog.Log.ScanTail | apps/server/internal/audit/audit.go:349-382 | the scan half: the last event and the count, or an error exactly on an unreadable file |
| AuditLog.Log.ReadLast | apps/server/internal/audit/audit.go:334-383 | with no writer between, the tail read is the file's, whatever the cache holds |
| AuditLog.Log.Append | apps/server/internal/audit/audit.go:156-200 | the file grows by exactly the event an uncached log would build: it carries the request's timestamp, kind, actor and details, the next sequence and the last hash, and under a key an HMAC and its label, else the plain digest; a keyed event whose details survive makes the last line keyed, adds nothing unauthenticated, and does not verify without a key; a failure leaves the file as it was |
| AuditLog.Log.Checkpoint | apps/server/internal/audit/audit.go:320-332 | the number of lines and the last hash |
| AuditLog.Log.VerifyDetailed | apps/server/internal/audit/audit.go:213-284 | exact on every file, and OK if and only if each line is numbered by its place, carries the hash before it and a hash of its own in the scheme it names (none is the plain digest, an unknown one fails, HMAC needs the key), and is shorter than the megabyte |
| AuditMachine.StatIsRight | apps/server/internal/audit/audit.go:334-347 | in every state that keeps the invariant, any log's fingerprint hit is the file's tail |
| AuditMachine.WriteKeepsInv | apps/server/internal/audit/audit.go:191-197 | a write under the flock keeps the chain, every other log's cache, and every checkpoint |
| AuditMachine.CheckScanKeepsInv | apps/server/internal/audit/audit.go:349-382 | a Checkpoint's scan without the flock keeps the invariant, although the file may have grown since its stat |
| AuditMachine.StepKeepsInv | apps/server/internal/audit/audit.go:156-406 | every step of every log keeps the file valid, caches coherent and checkpoints right |
| AuditMachine.StepOnlyGrows | apps/server/internal/audit/audit.go:156-200 | no step changes or removes a line |
| AuditMachine.RunKeepsInv | apps/server/internal/audit/audit.go:156-406 | the invariant holds in every state of every run |
| AuditMachine.RunsVerify | apps/server/internal/audit/audit.go:156-284 | in every state of every run the file verifies, TotalEntries is its length, and sequences are 1..n |
| AuditMachine.CachesAreCoherent | apps/server/internal/audit/audit.go:320-406 | in every state of every run a cache hit equals a rescan |
| AuditMachine.CheckpointsBind | apps/server/internal/audit/audit.go:320-332 | a checkpoint taken without the flock names a line that was last during the call, and fixes the prefix of every later file that verifies and carries it |
| NonceCache.Cache.constructor | apps/server/internal/httpapi/auth.go:90-94 | a fresh cache is empty |
| NonceCache.Cache.Remember | apps/server/internal/httpapi/auth.go:261-277 | evicts what is older than the time to live, and then refuses a nonce still held and adds a new one |
| NonceCache.RememberCouples | apps/server/internal/httpapi/auth.go:261-277 | a call refuses exactly the nonces with a live accept, and the map goes on holding exactly the live accepts |
| NonceCache.CacheHoldsLiveAccepts | apps/server/internal/httpapi/auth.go:261-277 | for any clock the map holds exactly the accepts not yet out of date at any later call |
| NonceCache.ForgettingIsInvisible | apps/server/internal/httpapi/auth.go:261-277 | with a clock that does not step back the cache answers as one that keeps every accept for ever, and holds exactly the window |
| NonceCache.ForgettingShowsIffEvictedEarly | apps/server/internal/httpapi/auth.go:261-277 | for given clock readings the verdicts are those of a cache that never forgets, whatever the nonces, if and only if no reading evicts an accept that a later reading would still count |
| NonceCache.SameVerdicts | apps/server/internal/httpapi/auth.go:261-277 | under that condition every verdict of every run agrees |
| NonceCache.SecondLife | apps/server/internal/httpapi/auth.go:265-271 | without it a nonce that comes back is accepted although its first accept would still count |
| NonceCache.NonDecreasingIsEnough | apps/server/internal/httpapi/auth.go:265-271 | a clock that does not step back meets the condition |
| RequestAuth.SignedTextBinds | apps/server/internal/httpapi/auth.go:234-245 | newline-free fields can be read back from the signed text |
| RequestAuth.TargetBinds | apps/server/internal/httpapi/auth.go:247-259 | path and query can be read back from the target |
| RequestAuth.SignatureCoversRequest | apps/server/internal/httpapi/auth.go:140-259 | two requests that are authentic under one key with one signature agree on date, nonce, verb, body, path and query |
| RequestAuth.AuthenticDemands | apps/server/internal/httpapi/auth.go:140-232 | an authentic request has a date within the skew, a nonce of 32 hexadecimal digits, a readable body within the limit, and 32 bytes of base64 that are the HMAC of what it sends |
| RequestAuth.HonestRequestIsAuthentic | apps/server/internal/httpapi/auth.go:140-245 | and every such request is authentic |
| RequestAuth.Validator.constructor | apps/server/internal/httpapi/auth.go:73-95 | options that are not positive take their defaults |
| RequestAuth.NewValidator | apps/server/internal/httpapi/auth.go:65-96 | there is no validator without a key; the defaults are a minute, five minutes and a megabyte |
| RequestAuth.Validator.Validate | apps/server/internal/httpapi/auth.go:140-186 | accepts exactly the authentic requests with a fresh nonce, leaves the nonce cache alone otherwise, and names the first fault |
| RequestAuth.StepIsSafe | apps/server/internal/httpapi/auth.go:140-186 | one step of interleaved calls keeps the replay invariant |
| RequestAuth.RunIsSafe | apps/server/internal/httpapi/auth.go:140-186 | no run accepts a date and nonce twice when ttl >= 2 * skew + d |
| RequestAuth.ValidateTakesTwoSteps | apps/server/internal/httpapi/auth.go:140-186 | an authentic request can take the two steps of a run, whatever comes between, and the second answers as Validate does |
| RequestAuth.SlowReplay | apps/server/internal/httpapi/auth.go:153-185 | below the bound some run accepts a date and a well-formed nonce twice |
| RequestAuth.ReplayBoundIsTight | apps/server/internal/httpapi/auth.go:140-186 | no run replays if and only if ttl >= 2 * skew + d |
| RequestAuth.DefaultsAllowThreeMinutes | apps/server/internal/httpapi/auth.go:25-26 | the defaults are safe if and only if d is at most 180 seconds |
| BridgeConnection.RejectionsAre | apps/server/internal/app/pi_extension.js:34-35 | failing rejects each pending call once and nothing else |
| BridgeConnection.RequestOk | apps/server/internal/app/pi_extension.js:82-97 | a request keeps the connection in order: a new id, written once, pending |
| BridgeConnection.FailOk | apps/server/internal/app/pi_extension.js:28-36 | a failure settles every pending call, once, and leaves none pending |
| BridgeConnection.FailBreaks | apps/server/internal/app/pi_extension.js:28-36 | a failure closes the connection, records its cause, and rejects each pending call with it |
| BridgeConnection.ReplyOk | apps/server/internal/app/pi_extension.js:59-66 | a reply that names a pending call settles that call only |
| BridgeConnection.StrayOk | apps/server/internal/app/pi_extension.js:59-60 | a reply that names no pending call settles nothing |
| BridgeConnection.PumpOk | apps/server/internal/app/pi_extension.js:49-67 | the loop over lines keeps the connection in order |
| BridgeConnection.DataOk | apps/server/internal/app/pi_extension.js:47-69 | so does a data event |
| BridgeConnection.DataReadsLines | apps/server/internal/app/pi_extension.js:47-69 | the history grows by the messages of the complete lines before the first bad one, in order, and by a break exactly when that line is too long or not JSON or the tail is too long |
| BridgeConnection.DataAnswersCalls | apps/server/internal/app/pi_extension.js:47-69 | a pending call is settled with the first message that names it and then pending no more, else stays pending or is rejected with the cause of the break |
| BridgeConnection.AbortAfterSettlement | apps/server/internal/app/pi_extension.js:86-94 | aborting a settled call changes nothing |
| BridgeConnection.PumpAppend | apps/server/internal/app/pi_extension.js:49-67 | text that arrives later does not change what is done with complete lines |
| BridgeConnection.LongTailFails | apps/server/internal/app/pi_extension.js:54-68 | an unterminated tail over the limit fails the connection alike whether it is measured as a tail or as a line |
| BridgeConnection.DataSplits | apps/server/internal/app/pi_extension.js:47-69 | two data events do what one with both texts does |
| BridgeConnection.FeedIsOneChunk | apps/server/internal/app/pi_extension.js:47-69 | a stream in which nothing is left to do behind a throwing line, cut anyhow, does what one chunk does |
| BridgeConnection.ThrowsAtLineEnd | apps/server/internal/app/pi_extension.js:49-60 | a handler that throws has read up to the end of a line, and the rest stays unread |
| BridgeConnection.CutBehindThrow | apps/server/internal/app/pi_extension.js:47-69 | any other stream comes out differently when it is cut right behind the throwing line |
| BridgeConnection.ChunksDoNotMatter | apps/server/internal/app/pi_extension.js:47-69 | all cuts of a stream act on the same messages in the same order and leave the connection alike, if and only if nothing is left to do behind a throwing line |
| BridgeConnection.NoThrowIsSmooth | apps/server/internal/app/pi_extension.js:55-59 | with a parser that never answers null no cut matters |
| BridgeConnection.ClosedIsInert | apps/server/internal/app/pi_extension.js:47-69 | data on a closed connection changes nothing but the unread text |
| Bridge.Connection.constructor | apps/server/internal/app/pi_extension.js:20-20 | a fresh connection |
| Bridge.Connection.Settle | apps/server/internal/app/pi_extension.js:89-93 | settling drops the abort listener and records one settlement |
| Bridge.PiBridge.Fail | apps/server/internal/app/pi_extension.js:28-36 | failing closes once, forgets the connection if it is the current one, remembers the cause, and rejects what is pending with that cause |
| Bridge.PiBridge.RejectAll | apps/server/internal/app/pi_extension.js:34-35 | rejects the pending calls in the order of their ids |
| Bridge.PiBridge.Request | apps/server/internal/app/pi_extension.js:82-97 | writes under the next id and waits for it, unless aborted or closed: the whole new state |
| Bridge.PiBridge.OnMessage | apps/server/internal/app/pi_extension.js:59-66 | settles the call the message names, and lets go of the handles with the last one |
| Bridge.PiBridge.OnLine | apps/server/internal/app/pi_extension.js:52-66 | one line: too long, blank, not JSON, null, or a message |
| Bridge.PiBridge.OnData | apps/server/internal/app/pi_extension.js:47-69 | the handler's loop does what its recursive specification says; DataReadsLines and DataAnswersCalls say what that is in terms of the text |
| Bridge.PiBridge.OnAbort | apps/server/internal/app/pi_extension.js:86-94 | an abort that is still listened for fails the whole connection |
| Bridge.PiBridge.Connect | apps/server/internal/app/pi_extension.js:15-80 | the live connection, or a new one with `initialize` written |
| Bridge.PiBridge.Close | apps/server/internal/app/pi_extension.js:104-106 | fails the current connection, if any |
| Bridge.StepKeepsInv | apps/server/internal/app/pi_extension.js:15-106 | exactly the current connection is open, every connection stays in order, and nothing settled changes |
| Bridge.RunOnlyAdds | apps/server/internal/app/pi_extension.js:15-106 | over any part of a run histories and settlements only grow, and failed connections rest |
| Bridge.EveryCallSettlesOnce | apps/server/internal/app/pi_extension.js:15-102 | in every state of every run: ids written once each, each promise settled as its first reply or the failure says, none open on a failed connection, and handles held exactly while calls are pending |
| Bridge.ConnectionsAreApart | apps/server/internal/app/pi_extension.js:28-66 | what happens on one connection settles nothing on another, then or later |
| HookFiles.Disk.WriteFile | apps/server/internal/hooks/hooks.go:242-244 | touches one file only, in every state on the way, and holds the text in the end or fails |
| HookFiles.Disk.Chmod | apps/server/internal/hooks/hooks.go:245-247 | changes one mode and no text |
| HookFiles.Disk.SaveReplaced | apps/server/internal/hooks/hooks.go:251-263 | writes the text to a file that was not there before, or fails |
| HookFiles.OverwriteIsSafe | apps/server/internal/hooks/hooks.go:234-244 | overwriting one file loses no text that another file of the hook also holds |
| Hooks.RefuseSymlink | apps/server/internal/hooks/hooks.go:265-277 | passes only what is no link |
| Hooks.SaveUserHook | apps/server/internal/hooks/hooks.go:158-190 | keeps a user's hook in the backup and what that replaces in a new file, losing nothing at any crash point |
| Hooks.ReplaceHook | apps/server/internal/hooks/hooks.go:234-248 | saves a changed HASP hook before writing over it |
| Hooks.InstallContent | apps/server/internal/hooks/hooks.go:150-249 | loses nothing at any crash point, ends with the new text executable, leaves a user's hook in the backup that the new text runs and any other backup as it was, touches only this hook's files, writes nothing when the text is there already, and fails only for a fault or a blocked path |
| Hooks.InstallHook | apps/server/internal/hooks/hooks.go:150-249 | the same for the text this build writes |
| Hooks.ContentIsCurrent | apps/server/internal/hooks/hooks.go:191-221 | the text written is what inspection calls managed and current |
| Hooks.HookRunsBoth | apps/server/internal/hooks/hooks.go:191-221 | the hook's text runs the backup, named as one shell word, and ends in the check |
| Text.WholeLine | apps/server/internal/hooks/diagnostics.go:106-106 | between newlines a text contains a line exactly when it is one of its lines |
| Hooks.CurrentMeans | apps/server/internal/hooks/diagnostics.go:105-106 | current exactly when the text has the marker, and the revision as a line of its own |
| Hooks.HookMeans | apps/server/internal/hooks/diagnostics.go:82-121 | each flag of a hook's status, in terms of the file |
| Hooks.InspectMeans | apps/server/internal/hooks/diagnostics.go:36-80 | each state of the repository exactly when the two files are so |
| Hooks.InstalledIsReady | apps/server/internal/hooks/diagnostics.go:82-121 | an installed hook that can be read is inspected as ready |
| Hooks.FamiliesAreApart | apps/server/internal/hooks/hooks.go:45-53 | the two hooks' files are different files |
| Hooks.Install | apps/server/internal/hooks/hooks.go:36-54 | over both hooks: no text lost in any state passed through, each user's hook in its own backup, ready on success, nothing written the second time, failure only for a fault or a blocked path |
| Hooks.CrashInInstall | apps/server/internal/hooks/hooks.go:150-263 | an install stopped in any state it passes through has lost no text |
| Hooks.RunHistory | apps/server/internal/hooks/hooks.go:36-54 | over any run of installs, crashes within them and edits, a text vanishes only by an edit; installs that succeed leave the repository ready and every user's hook in its backup, and one over installed hooks writes nothing |
| Grants.ResolveAll | apps/server/internal/brokerops/authorize_execution.go:20-42 | item i is what reference i resolved to; refused exactly when some reference does not resolve |
| Grants.FindDenied | apps/server/internal/brokerops/authorize_execution.go:56-62 | the first denied decision |
| Grants.Grant | apps/server/internal/brokerops/authorize_execution.go:78-96 | at most one grant call, for what the denied request demands (DemandMeans) |
| Grants.TakeRound | apps/server/internal/brokerops/authorize_execution.go:50-97 | one turn of the loop: allowed, a new grant, an overlong reply, or a refusal with its reason |
| Grants.GrantLoop | apps/server/internal/brokerops/authorize_execution.go:50-97 | ends after at most 2 + (distinct item names) calls, each key minted once, with a crash exactly when the last reply overruns the requests |
| Grants.TakeTurn | apps/server/internal/brokerops/authorize_execution.go:50-97 | a turn keeps what was minted demanded and distinct, and a turn that refuses has a reason |
| Grants.MintsAreBounded | apps/server/internal/brokerops/authorize_execution.go:46-49 | distinct keys bound the number of grants |
| Grants.KeysMean | apps/server/internal/brokerops/authorize_execution.go:70-77 | two grants have one key exactly when both are the lease, or the convenience grant, or secret grants for one item |
| Grants.DemandMeans | apps/server/internal/brokerops/authorize_execution.go:67-96 | when a denied request can be met, and by which grant |
| Grants.DemandedIsCalledFor | apps/server/internal/brokerops/authorize_execution.go:56-96 | a grant demanded by a batch reply is for its first denied request, in the scope given for its kind |
| Grants.SingleDemandMeans | apps/server/internal/brokerops/ops.go:164-195 | when a decision can be met, and that it is met by one grant only, which is for the request and in the scope given for its kind |
| Grants.AuthorizeReferences | apps/server/internal/brokerops/authorize_execution.go:19-98 | for any store: one request for each reference, with the item resolved from it; the calls are bounded; each lease and secret grant is for the request its own batch call denied first, in the scope the caller gave for that kind, relaxed exactly for the access policy in a window, and no key twice; success exactly in the last batch call, which allows everything; a crash exactly when the last reply overruns the requests; a reason for each refusal |
| Grants.Meet | apps/server/internal/brokerops/ops.go:168-195 | the grant that SingleDemand names, whose meaning SingleDemandMeans states |
| Grants.TakeSingleRound | apps/server/internal/brokerops/ops.go:151-167 | one round: delivered, a new grant, or over for a reason |
| Grants.AuthorizeOne | apps/server/internal/brokerops/ops.go:150-253 | the request is for the item, operation, alias and destination given; at most one grant for each requirement kind, each for what its own round raised and in the scope the caller gave for that kind, at most 5 rounds (3 for an item), success in exactly the round that spends the grants, and a reason for each refusal |
| Delivery.Names | apps/server/internal/envmap/envmap.go:44-51 | the map's keys, each once, in strict order |
| Delivery.ValidateChannel | apps/server/internal/envmap/envmap.go:14-42 | one channel: accepted exactly when its entries are in order and its names unseen |
| Delivery.Validate | apps/server/internal/envmap/envmap.go:14-42 | accepts exactly the mappings with well-formed entries and no name used twice across channels |
| Delivery.EntryReadsBack | apps/server/internal/envmap/envmap.go:53-78 | name=value of a valid entry has no NUL and reads back as name and value at the first equals sign |
| Delivery.EntryMeans | apps/server/internal/envmap/envmap.go:22-38 | with a well-formed name and no NUL, a literal is refused exactly when its name begins with HASP_ in any case, and a reference exactly when it is blank |
| Delivery.Fill | apps/server/internal/brokerops/execute.go:130-137 | the filled map has the base and the names, name i with item i's value |
| Delivery.AlignmentDelivers | apps/server/internal/brokerops/execute.go:112-137 | walking sorted names and items in step gives each name the item at its own reference's place |
| Delivery.BuildInput | apps/server/internal/brokerops/execute.go:129-143 | exact contents of the runner's input |
| Delivery.Execute | apps/server/internal/brokerops/execute.go:100-152 | the runner is reached only after validation, review and authorization of every reference by the calls made, whose bound, grants and outcome are those of AuthorizeReferences; env is the disjoint union of literals and references, the i-th name in order with the value authorized for the i-th reference |
| Leases.CursorStart | apps/server/internal/leases/leases.go:91-119 | the search loop finds one past the first lease with the cursor's key |
| Leases.List | apps/server/internal/leases/leases.go:39-89 | the page of the filtered and sorted listing at the cursor: how many leases from where, the total, whether there is more, and the last lease's time and id as the cursor to it; a limit outside 1..100 is 100 |
| Leases.ListingIsOrdered | apps/server/internal/leases/leases.go:71-76 | the listing is ordered and a permutation of what passed the filter |
| Leases.ListingMeans | apps/server/internal/leases/leases.go:54-76 | every lease that was asked for is listed as often as given, and no other; newer before older, lesser id first among those of one time, and leases with one key in their order |
| Leases.NumbersSkip | apps/server/internal/leases/leases.go:91-105 | a number as cursor skips so many leases, within the list |
| Leases.OthersSkipNone | apps/server/internal/leases/leases.go:91-105 | a cursor that is blank, or neither a number nor a time and an id, skips none |
| Leases.CursorIsRead | apps/server/internal/leases/leases.go:91-123 | how a lease's own cursor is parsed back |
| Leases.CursorLeadsBehindItsLease | apps/server/internal/leases/leases.go:91-123 | a cursor leads right behind its lease if and only if the id survives trimming and no earlier lease has the key |
| Leases.SessionsAreComplete | apps/server/internal/leases/leases.go:39-123 | following the cursors ends, and shows every lease once, in order, in ceil(total / limit) pages |
| Leases.NextPageAfterChange | apps/server/internal/leases/leases.go:77-88 | whatever changed in between, the next page is the first leases strictly after the cursor's lease while that is listed; else paging starts over |
| Decimal.IntRoundTrip | apps/server/internal/leases/leases.go:106-123 | a formatted 64-bit time parses back |
| Decimal.DigitsOf | apps/server/internal/leases/leases.go:121-123 | the k-th character from the right is the k-th decimal digit, with no leading zero |
| Decimal.BarIsNoDecimal | apps/server/internal/leases/leases.go:96-105 | a keyset cursor is never taken for a numeric offset |
| Sorting.SortOrders | apps/server/internal/leases/leases.go:71-76 | sorting orders and permutes |
| Sorting.SortIsStable | apps/server/internal/leases/leases.go:71-76 | elements the order does not tell apart stay in their order |
| Sorting.StringLessMeans | apps/server/internal/leases/leases.go:73-73 | strings are ordered as in a dictionary |
| EditDistance.FillRow | apps/server/internal/app/typo_suggestions.go:22-39 | the inner loop fills the next row of the distance table |
| EditDistance.Levenshtein | apps/server/internal/app/typo_suggestions.go:6-43 | two rows compute the recurrence |
| EditDistance.DistIsSymmetric | apps/server/internal/app/typo_suggestions.go:6-43 | the distance is symmetric |
| EditDistance.DistIsZeroOnEquals | apps/server/internal/app/typo_suggestions.go:6-43 | it is zero exactly on equal inputs |
| EditDistance.DistObeysTriangle | apps/server/internal/app/typo_suggestions.go:6-43 | it obeys the triangle inequality |
| EditDistance.OneEditIsNear | apps/server/internal/app/typo_suggestions.go:25-36 | one edit anywhere is at distance at most one |
| EditDistance.NoScriptIsShorter | apps/server/internal/app/typo_suggestions.go:6-43 | no edit script is shorter than the distance |
| EditDistance.ShortestScript | apps/server/internal/app/typo_suggestions.go:6-43 | some edit script is as short |
| EditDistance.DistIsShortest | apps/server/internal/app/typo_suggestions.go:6-43 | the distance is the least length of a script that turns one into the other |
| EditDistance.ClosestMatch | apps/server/internal/app/typo_suggestions.go:56-72 | a suggestion exactly when a candidate is within one edit of an input of at most three letters, or within two of a longer one, and then the earliest nearest |
| BlockSplice.SpliceAppend | apps/server/internal/app/exec.go:525-558 | the branches compute the splice |
| BlockSplice.SpliceMeans | apps/server/internal/app/exec.go:525-558 | refused exactly when the file holds two begin markers; else the two marker lines with the lines between them are written |
| BlockSplice.HaspMarkersAreProper | apps/server/internal/app/exec.go:364-365 | the two markers have what the laws need |
| BlockSplice.SpliceKeepsTheRest | apps/server/internal/app/exec.go:541-557 | every byte before the begin marker and behind the end marker's line is kept |
| BlockSplice.SpliceAppends | apps/server/internal/app/exec.go:533-540 | a file without a block keeps everything but its trailing newlines |
| BlockSplice.KeptPartsAreFree | apps/server/internal/app/exec.go:525-557 | what a successful splice keeps holds no begin marker |
| BlockSplice.ReparseIffMarkerFree | apps/server/internal/app/exec.go:541-557 | a spliced file comes apart into what was kept if and only if the lines hold no marker |
| BlockSplice.SecondBegin | apps/server/internal/app/exec.go:525-528 | a begin marker within the lines makes the next write refuse |
| BlockSplice.LastSpliceWins | apps/server/internal/app/exec.go:525-558 | a later splice replaces an earlier one as if that had never been, if and only if the earlier lines hold no marker; with equal lines: idempotence |
| BlockSplice.SpliceReadsBack | apps/server/internal/app/exec.go:525-558 | marker-free lines: exactly one begin marker afterwards, and the block reads back as the lines |
| BlockSplice.BuildLines | apps/server/internal/app/write_env_export.go:58-68 | a line for each destination, free of newlines, or none at all exactly when a value has a line break |
| BlockSplice.EndMarkerInValueLeaksOut | apps/server/internal/app/write_env_export.go:19-24 | over any file that is not refused, every value that holds the end marker passes the newline check and breaks the law of the last splice |
| TomlSections.RewriteLines | apps/server/internal/app/setup_agents.go:428-453 | the writing loop replaces the first table of ours by the entry and drops the others |
| TomlSections.DropOurs | apps/server/internal/app/setup_agents.go:557-573 | the removing loop keeps exactly the lines that stand under no header of ours |
| TomlSections.AnyUnderEnv | apps/server/internal/app/agent_wrapper_diagnostics.go:199-213 | the reading loop finds exactly a line under the env header that passes the test |
| TomlSections.UnderMeans | apps/server/internal/app/setup_agents.go:433-450 | a line stands under the last header at or before it |
| TomlSections.KeptIsOutside | apps/server/internal/app/setup_agents.go:428-453 | the lines before and behind the entry are the lines not ours, in their order |
| TomlSections.OnlyTheBlockIsOurs | apps/server/internal/app/setup_agents.go:428-453 | in a written file exactly the entry is ours |
| CodexConfig.ClassesAreTheTests | apps/server/internal/app/setup_agents.go:433-442 | the line classes are the loops' string tests |
| CodexConfig.UpsertEntry | apps/server/internal/app/setup_agents.go:418-454 | the method computes the rewritten text |
| CodexConfig.RemoveEntry | apps/server/internal/app/setup_agents.go:551-574 | the method computes the text without our tables |
| CodexConfig.UpsertShape | apps/server/internal/app/setup_agents.go:418-454 | a written file is the entry between lines that hold no header of ours, which are the old lines not ours, in order |
| CodexConfig.WrittenEntry | apps/server/internal/app/setup_agents.go:418-454 | a written file has the server's header once, followed by its command and then by another header or the end, and no env table of the server |
| CodexConfig.LastUpsertWins | apps/server/internal/app/setup_agents.go:418-454 | a later write replaces an earlier one up to trailing newlines, for every file; with the same command: idempotence |
| CodexConfig.RemoveUndoesUpsert | apps/server/internal/app/setup_agents.go:551-574 | removing after writing equals removing, byte for byte, for every file but an empty one |
| CodexConfig.RemoveMeans | apps/server/internal/app/setup_agents.go:551-574 | removing leaves, line by line, what stands in no table of the server, without the white space at both ends |
| CodexConfig.NonemptyLines | apps/server/internal/app/agent_status.go:176-184 | keeps the lines that are not blank |
| CodexConfig.InspectToml | apps/server/internal/app/agent_status.go:117-125 | current exactly when a write would change no line that is not blank |
| CodexConfig.UpsertIsCurrent | apps/server/internal/app/agent_status.go:117-125 | after a write the entry is current, whatever the file was |
| CodexConfig.CurrentHasEntry | apps/server/internal/app/agent_status.go:117-125 | a file reported current holds the header and the command, with nothing but blank lines between |
| CodexConfig.CodexHaspEnvOverride | apps/server/internal/app/agent_wrapper_diagnostics.go:199-221 | finds exactly an assignment of the key in the server's env table |
| CodexConfig.OverrideMeans | apps/server/internal/app/agent_wrapper_diagnostics.go:199-221 | an override is an assignment of the key behind the env header and before the next header |
| CodexConfig.UpsertClearsEnvOverride | apps/server/internal/app/agent_wrapper_diagnostics.go:199-213 | after a write no env table of the server overrides the key |
| CodexConfig.CurrentHasNoEnvOverride | apps/server/internal/app/agent_status.go:117-125 | a file reported current has no override, however it came about |
| ShellQuote.ShellJoinArgs | apps/server/internal/app/app_consumers.go:437-443 | the joined line reads back as the arguments |
| ShellQuote.ArgLexes | apps/server/internal/app/app_consumers.go:445-457 | each quoted argument is read as one word, itself |
| ShellQuote.WordsOfJoinedArgs | apps/server/internal/app/app_consumers.go:437-457 | for every list, with empty arguments and quotes, tokenizing gives back exactly the list |
| ShellQuote.WordsOfSingleQuote | apps/server/internal/hooks/hooks.go:282-284 | a single-quoted text is one word, itself |

## Left out

- The bodies of `store`, `runtime`, `runner`, `redactor`, `reposcan`, `release` and `telemetry`: not part of this model; the store is an arbitrary oracle.
- SHA-256, HMAC, JSON, base64, hex and time parsing: parameters.
- Torn audit writes, recovery, a log file replaced or cut by others, and locks on platforms that have none: the audit model is of whole writes to one file that only Append changes.
- AuditLog.Log.VerifyDetailed: reads a file that does not change meanwhile, and the key as it is at the start.
- The `nil` receiver and request checks, `Events`, `HMACKey`, and the HTTP middleware around the validator: easy members.
- AuditLog.Log.Append: one call without interference; the steps between which other logs act are those of AuditMachine.
- AuditLog.Log.Checkpoint: one call without a writer between its stat and its scan; AuditMachine has the interleavings, and CheckpointsBind says what they report.
- Bridge.PiBridge.Connect: child processes, streams, and the write that follows `initialize` are foreign; their events are the Break and Ready steps of a run, and Ready clears the last error even after a failure, as the source does.
- Hooks.Install: git's resolution of the hooks directory, making that directory, the modes of saved copies, and changes by others between a check and the write that follows it.
- Hooks.RunHistory: conserves texts, not permissions; the run is sequential, one install at a time.
- BlockSplice.BuildLines: the authorization of each item before its line, which is that of AuthorizeOne.
- Grants.AuthorizeOne: the resolution of the one reference, which is that of ResolveAll; error texts are not modelled.
- AuthorizeCapture: for an existing item it is AuthorizeItem, and for a new one it has no loop, only a second look after the project lease.
- Delivery.Execute: the ConfigureRunner hook and replaced dependencies; with the built-in authorization the length check on its result cannot fail, whatever the store.
- Delivery.Validate: which of several faults is reported, and its text.
- BlockSplice.SpliceReadsBack: the temporary file and the rename; the order of lines, which Go's map iteration leaves open, is any order.
- Leases.List: instants outside the range of 64-bit nanoseconds, where UnixNano is undefined.
- EditDistance.ClosestMatch: lower-casing is a parameter.
- JSON and Pi package configuration formats, `upsertPathBlock`, `gitsafe` caching, help, prompts, rendering and wiring.

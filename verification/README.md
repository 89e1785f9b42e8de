# Verified models of the shared infrastructure modules

A Dafny project that models the algorithms and protocols behind this repository's Go services and Terraform
modules, and proves what their comments and tests promise, over every input and every run. `dafny verify
dfyconfig.toml` checks it.

| files | what they model |
|---|---|
| `Limiter`, `SecondaryRateLimit` | the pausable limiter of the GitHub transport as a protocol of callers, waiters, timers and a clock, and the retrying transport above it |
| `RecorderPath`, `Paths`, `Hex`, `Calls`, `NdJson`, `LogRotate`, `AtLeastOnce` | the recorder's path encoding, the log rotator's flush and its run loop over a host whose calls may fail, and the at-least-once guarantee of the two together |
| `Redact`, `RedactLaws`, `RedactFallback`, `CustomerTag`, `JsonText`, `JsonGrammar`, `JsonParse`, `RedactBody` | the Zendesk redactor: the deny-by-default walk in its two modes, the customer-tag pass, the JSON scanner and the grammar it decides, and the fail-closed driver |
| `CloudEvent`, `Ingress`, `OrderingKeys` | the broker ingress: messages, publishers and routing, and ordering keys under concurrent publish failures |
| `TopicNames`, `OverrideTable`, `Cutover` | moving an event type to a dedicated topic, as a state machine over applied Terraform configurations |
| `OtlpHeaders`, `PathBuckets`, `Sampling`, `CheckOutput` | header parsing, GitHub path bucketing, trace sampling and the check-run text |
| `Text`, `Options` | Go string operations, and an option type |

Objects whose methods update fields are classes, loops are loops, and each such method is proved equal to a
function or predicate about which the laws are then proved. Concurrent parts are state machines: a step relation,
an invariant kept by every step, and theorems about every reachable state.

Failure is part of the models. Every call into the file system or the bucket is put to a host, which answers for
itself whether the call fails and logs it, so that an operation can only fail for a reason in the log; publishing is
answered by the service in the same way. A failed close may or may not have committed, and the close on the error path
may commit a partial blob.

## Where the code does less than one might expect

Each of these is a lemma with a concrete input or run, next to a lemma that says exactly when the property holds.

- A delivery that was acknowledged can be lost: when the same event is delivered again and that write fails, the
  recorder removes or shortens the file it had written (`FailedRedeliveryLosesEvent`), and a flush in between uploads
  the shortened one (`ShortenedFileIsUploaded`). `AcknowledgedIsSafeIff` gives the exact condition; the redelivery of
  the failed attempt restores the file (`RetryRestores`). The recorder tells events apart by type, date and ID, so an
  event of another source with the same three overwrites the file in the same way.
- A second, longer pause releases everyone who waits for the first (`LongerPauseReleasesEarly`); `Wait` does not
  loop. A wait ends early exactly then (`EarlyReleaseIffSuperseded`).
- A `Retry-After` of 9223372037 seconds wraps around (`RetryAfterOverflows`), and of less does not
  (`RetryAfterHonouredIff`).
- A limited response whose reset instant has already passed asks for a pause that is over at once
  (`PastResetRetriesAtOnce`), so its call is retried without backing off; every other one backs off (`BacksOffIff`).
- The fallback mode of the redactor can keep what the normal mode removes: booleans, nulls, arrays and objects under
  `tags` (`FallbackIsNotSmaller`). It is a further cut exactly for bodies whose tags arrays hold only strings and
  numbers (`FallbackIsSmallerIff`). The comment above `walk` (modules/zendesk-events/internal/redact/redact.go:162-163)
  says the tags array is kept whole; the code filters it.
- A forward whose context ends while its publish is under way can leave its ordering key paused
  (`AbandonedPublishLeavesKeyPaused`, `PausedAtQuiescenceIff`), until the next event for the key
  (`NextForwardHealsKey`).
- The Terraform preconditions do not enforce the cutover order (`PreconditionsAreNotEnough`); `RecordedOnceIff` is
  what a configuration needs.
- for_each keys and topic names collide for some regions and types (`RightExtensionCollides`,
  `LeftExtensionCollides`, `DotsAndDashesCollide`); `NamesNeverCollideIff` gives the regions for which they never do.
- Header values are documented as URL-encoded per RFC 3986, but a bare `+` is read as a space (`PlusIsReadAsSpace`);
  values without one are read as documented, and no others (`PercentDecodingIff`).
- One line of 5 MiB (`LongLineIsNotScannable`) makes `Flush` return an error and `Run` end with it. A flush fails
  exactly for such a line, for a failed call other than closing a blob, or for three failed closes of one blob
  (`Uploader.Flush`). Nothing is lost by that.

## Assumptions

- A close without an error commits exactly the bytes written; successive flushes have different timestamps; files
  the walk found are not rewritten during the flush; nothing is delivered after the cancellation was observed.
- The Pub/Sub client does what modules/cloudevent-broker/cmd/ingress/main.go:201-205 says: a failed publish pauses
  its key, further publishes on a paused key fail, ResumePublish lifts the pause; and, as pkg/pubsub/cloudevent.go:48-49
  says, a key is rejected without ordering enabled.
- Clocks are integer nanoseconds far above the zero time and do not run backwards; the base rate limiter admits
  everything, as `rate.Inf` does.
- White space is the ASCII white space of TrimSpace. Go strings are sequences of bytes.
- The JSON decoder, the JSON encoder and the regex passes after the customer-tag pass are arbitrary functions.
- Terraform's recorder method is `trigger`, and `extra_brokers` is wired to the broker's `dedicated` output.
- The "type:topic" table is read as the environment library does: items split at commas, each cut at its first
  colon, both halves trimmed.

## Model

| member | source | states |
|---|---|---|
| `LimiterProtocol.Limiter.CapturePause` | modules/github-bots/sdk/ratelimit.go:207-221 | A Wait gets no channel exactly when no pause is in force, and otherwise the one open channel, whose own timer is pending at the end of the pause |
| `LimiterProtocol.Limiter.PauseFor` | modules/github-bots/sdk/ratelimit.go:226-251 | One call is the pause step of the protocol (only a strictly later deadline closes the old channel and installs a new one with its own timer), and keeps the invariant of the protected state |
| `LimiterProtocol.Limiter.TimerExpired` | modules/github-bots/sdk/ratelimit.go:242-249 | A timer ends the pause only if its channel is still the one in force, otherwise it only goes away; either way the invariant of the protected state is kept |
| `LimiterProtocol.PauseKeepsInv` | modules/github-bots/sdk/ratelimit.go:226-240 | A pause request keeps the protocol invariant: no blocked waiter is left on a channel nobody will close |
| `LimiterProtocol.StepKeepsInv` | modules/github-bots/sdk/ratelimit.go:207-252 | Every step of callers, waiters, timers, contexts and the clock keeps the invariant |
| `LimiterProtocol.RunKeepsInv` | modules/github-bots/sdk/ratelimit.go:207-252 | So does every run, whatever the interleaving |
| `LimiterProtocol.ReachableInv` | modules/github-bots/sdk/ratelimit.go:207-252 | The invariant holds in every reachable state |
| `LimiterProtocol.MaxDeadline` | modules/github-bots/sdk/ratelimit.go:226-231 | The specification the limiter refines: an upper bound of all requested deadlines that one of them attains |
| `LimiterProtocol.PauseIsHonoured` | modules/github-bots/sdk/ratelimit.go:229-236 | While any requested pause is unexpired the limiter is paused at least until its deadline |
| `LimiterProtocol.RefinesMaxDeadline` | modules/github-bots/sdk/ratelimit.go:226-251 | The limiter is paused into the future exactly while the largest requested deadline lies ahead, and until exactly that instant |
| `LimiterProtocol.ArrivalDuringPauseBlocks` | modules/github-bots/sdk/ratelimit.go:207-221 | A Wait arriving during any unexpired pause blocks until the largest deadline, and cannot be released at once |
| `LimiterProtocol.ReleaseHasTwoCauses` | modules/github-bots/sdk/ratelimit.go:212-221 | A Wait that left a pause without a context error had reached its captured deadline or was superseded by a strictly later pause |
| `LimiterProtocol.EarlyReleaseIffSuperseded` | modules/github-bots/sdk/ratelimit.go:231-235 | Before its deadline a blocked Wait can be released if and only if a strictly later pause was requested since |
| `LimiterProtocol.LongerPauseReleasesEarly` | modules/github-bots/sdk/ratelimit.go:233-235 | Waiting out the pause is not what the code does: a concrete run releases a waiter before its own and the longer deadline |
| `LimiterProtocol.ChannelsAreClosedOnce` | modules/github-bots/sdk/ratelimit.go:233-248 | No channel is closed twice; the open channel is pauseCh and has a live timer; pauseCh is nil exactly when pauseUntil is zero |
| `LimiterProtocol.NoStrandedWaiter` | modules/github-bots/sdk/ratelimit.go:215-219 | Every blocked waiter can go now or a pending timer will let it go |
| `LimiterProtocol.TimersRunOut` | modules/github-bots/sdk/ratelimit.go:238-250 | Without further pauses the pending timers drop by exactly one per timer step |
| `LimiterProtocol.NextTimer` | modules/github-bots/sdk/ratelimit.go:238-250 | After some wait a pending timer can fire, and one fewer is then pending |
| `LimiterProtocol.DrainRun` | modules/github-bots/sdk/ratelimit.go:238-250 | From every state a run of ticks and timers alone empties the timers and makes every blocked waiter releasable |
| `LimiterProtocol.StaleTimerChangesNothing` | modules/github-bots/sdk/ratelimit.go:244 | The timer of a superseded pause changes nothing but its own disappearance |
| `SecondaryRateLimit.WrapDuration` | modules/github-bots/sdk/ratelimit.go:139 | Duration arithmetic wraps modulo 2^64 and is exact when it fits |
| `SecondaryRateLimit.ClampDuration` | modules/github-bots/sdk/ratelimit.go:175 | time.Until stays in 64 bits and is exact when it fits |
| `SecondaryRateLimit.RetryAfterHonouredIff` | modules/github-bots/sdk/ratelimit.go:133-141 | A positive Retry-After is the pause asked for if and only if it is at most 9223372036 seconds |
| `SecondaryRateLimit.RetryAfterOverflows` | modules/github-bots/sdk/ratelimit.go:133-141 | One second more wraps, and the default pause is taken |
| `SecondaryRateLimit.OverflowPause` | modules/github-bots/sdk/ratelimit.go:133-165 | A Retry-After beyond what a Duration holds, in either direction, wraps modulo 2^64: a positive result is the pause, any other leaves it to the remaining headers |
| `SecondaryRateLimit.ResetPause` | modules/github-bots/sdk/ratelimit.go:167-181 | Without a positive Retry-After, and with remaining zero, absent or malformed, the pause ends at a usable reset, saturated at the ends of a Duration |
| `SecondaryRateLimit.DefaultPause` | modules/github-bots/sdk/ratelimit.go:183-187 | Without a positive Retry-After, a non-zero remaining count or no usable reset gives the default pause |
| `SecondaryRateLimit.CasesAreComplete` | modules/github-bots/sdk/ratelimit.go:130-187 | With RetryAfterHonouredIff these cases leave no response out |
| `SecondaryRateLimit.BacksOffIff` | modules/github-bots/sdk/ratelimit.go:167-187 | A limited response makes the transport back off at all if and only if its reset has not passed already |
| `SecondaryRateLimit.PastResetRetriesAtOnce` | modules/github-bots/sdk/ratelimit.go:174-181 | A reset one second ago asks for a pause that ended one second ago |
| `SecondaryRateLimit.LimitedPrefix` | modules/github-bots/sdk/ratelimit.go:104-113 | The number of leading attempts that are retried, and that the next one is not |
| `SecondaryRateLimit.Waiter.ProcessLimit` | modules/github-bots/sdk/ratelimit.go:120-188 | Limited means status 403 or 429, and each limited response pauses the limiter once, for the length that the four lemmas on the headers pin down |
| `SecondaryRateLimit.Waiter.RoundTrip` | modules/github-bots/sdk/ratelimit.go:92-116 | Over every response stream: the first attempt that is not limited decides the result, base calls and pauses are counted exactly, and all retries carry the one outcome |
| `SecondaryRateLimit.FirstUnlimitedWins` | modules/github-bots/sdk/ratelimit.go:104-115 | What follows in the stream cannot change the result |
| `SecondaryRateLimit.LimitedResponseBlocksNewCalls` | modules/github-bots/sdk/ratelimit.go:104-106 | A Wait arriving before the instant a limited response asked for blocks, the retry of the same call included |
| `Text.TrimSplits` | pkg/rotate/blob.go:223 | TrimSpace removes white space at both ends, all of it, and nothing else |
| `Text.SplitJoin` | pkg/httpmetrics/metrics.go:499 | Splitting a joined list of separator-free parts gives the parts |
| `Text.JoinSplit` | pkg/httpmetrics/transport.go:394 | Joining what was split gives the text back, and no part holds the separator |
| `NdJson.LinesAreClean` | pkg/rotate/blob.go:222-229 | Every kept line is non-blank, trimmed and free of newlines |
| `NdJson.LinesOfRender` | pkg/rotate/blob.go:222-229 | Written lines are read back unchanged, and nothing runs together with what follows |
| `NdJson.NormaliseIdempotent` | pkg/rotate/blob.go:222-229 | A normalised file is its own normal form |
| `NdJson.CombinedLines` | pkg/rotate/blob.go:139-145 | A directory blob splits into the concatenation of its files' own lines, even without final newlines |
| `NdJson.CombinedContainsEach` | pkg/rotate/blob.go:139-145 | Every file written into a blob is in it whole and contiguous |
| `LogRotate.AddKeepsPartition` | pkg/rotate/blob.go:112-117 | Adding a walked file keeps the groups a partition of the walked files |
| `LogRotate.KeptGrows` | pkg/rotate/blob.go:222-229 | One more raw line adds itself, normalised, unless it is blank |
| `LogRotate.CopyLines` | pkg/rotate/blob.go:222-235 | The scanner loop writes exactly the normalised lines; it succeeds exactly if every read and write does and no line is too long |
| `LogRotate.BufferWriteToBucket` | pkg/rotate/blob.go:206-238 | It succeeds exactly if opening, reading, writing and closing do and the scanner can read the file; then the whole normalised file was appended |
| `LogRotate.Uploader.WriteGroup` | pkg/rotate/blob.go:139-145 | It succeeds exactly if no call fails and every file can be scanned; then the writer holds exactly the combined lines of the group |
| `LogRotate.Uploader.TryUpload` | pkg/rotate/blob.go:132-156 | One attempt touches and closes only its own blob; a clean close leaves exactly the combined lines there; it gets as far as the close exactly if no other call fails and every file can be scanned |
| `LogRotate.Uploader.UploadGroup` | pkg/rotate/blob.go:132-156 | At most three attempts, and another one only after a failed close; the blob holds the combined lines exactly if the files can be scanned, no call but a close failed, and not all three closes did |
| `LogRotate.Uploader.DeleteGroup` | pkg/rotate/blob.go:158-173 | Tries to remove each file of the group once, in order, and nothing else; a file stays exactly if removing it failed, and without an error all are counted |
| `LogRotate.Uploader.UploadDir` | pkg/rotate/blob.go:127-177 | Nothing is deleted unless the whole group is in the blob; it fails exactly for a file that cannot be scanned, a failed call other than a close of the blob, or three failed closes; otherwise the blob was closed at the latest at the third attempt |
| `LogRotate.Uploader.WalkSource` | pkg/rotate/blob.go:101-123 | The walk fails exactly if visiting some entry does; otherwise it partitions all regular files by directory |
| `LogRotate.Uploader.UploadAll` | pkg/rotate/blob.go:127-179 | The loop over the directories keeps the promises of Flush from a completed walk on |
| `LogRotate.UploadKeepsFlushInv` | pkg/rotate/blob.go:127-177 | One directory's upload keeps the state of a half-done flush: finished groups stay finished, waiting ones untouched |
| `LogRotate.UploadFailureLosesNothing` | pkg/rotate/blob.go:146-173 | An upload that fails at any point leaves every file on disk or in a blob |
| `LogRotate.AllGroupsDone` | pkg/rotate/blob.go:127-179 | When every group is done no walked file is lost and none remains |
| `LogRotate.GroupsGiveDirBlobs` | pkg/rotate/blob.go:127-156 | Each directory's blob holds exactly its regular files, each once |
| `LogRotate.AllRegularGone` | pkg/rotate/blob.go:158-179 | The number of processed files is the number walked |
| `Calls.Host.Ask` | pkg/rotate/blob.go:92-173 | Whether a call into the file system or the bucket fails is the host's answer, and every call is logged with it |
| `Calls.ClosesAppend` | pkg/rotate/blob.go:146-156 | The closes of one blob over a run of calls are those of its parts in order |
| `LogRotate.Uploader.Flush` | pkg/rotate/blob.go:85-180 | Whatever fails, no file is lost and older blobs are untouched; it fails exactly for a line that is too long, a failed call other than closing a blob, or three failed closes of one blob; success means all walked files are counted, uploaded to their directory's blob and gone |
| `LogRotate.RoundsSurvive` | pkg/rotate/blob.go:97 | Later flushes never disturb what earlier ones put into their blobs |
| `LogRotate.FoundFileIsInItsBlob` | pkg/rotate/blob.go:127-156 | A file found by a completed flush is whole in the blob of its directory |
| `LogRotate.LongLineIsNotScannable` | pkg/rotate/blob.go:216-220 | A line of 5 MiB is too long for the scanner, and one a byte shorter is not |
| `LogRotate.Uploader.FlushAfter` | pkg/rotate/blob.go:60-68 | One round of the loop keeps every earlier flush in its blobs and, unless it fails for one of those reasons, uploads and empties its own disk |
| `LogRotate.Uploader.Run` | pkg/rotate/blob.go:54-80 | Run stops only after exactly one completed flush that began after the cancellation was seen; every completed flush emptied its disk and is in its blobs for good; a flush that ends the run had one of the reasons above in its own calls and loses nothing; nothing else is called |
| `RecorderPath.SanitizePathComponent` | modules/cloudevent-recorder/cmd/recorder/main.go:37-62 | The byte loop computes the encoding and fails exactly on the empty string |
| `RecorderPath.DecodeEncode` | modules/cloudevent-recorder/cmd/recorder/main.go:33-36 | A decoder inverts the encoding on every byte string |
| `RecorderPath.EncodeInjective` | modules/cloudevent-recorder/cmd/recorder/main.go:33-36 | Distinct byte strings have distinct encodings |
| `RecorderPath.EncodeIsPlain` | modules/cloudevent-recorder/cmd/recorder/main.go:27-32 | An encoding is one non-empty, slash-free component that is not dot-led |
| `RecorderPath.EncodeKeepsIff` | modules/cloudevent-recorder/cmd/recorder/main.go:45-58 | A component is left as it is exactly when all its bytes are safe and it is not dot-led |
| `RecorderPath.EventPathRoundTrip` | modules/cloudevent-recorder/cmd/recorder/main.go:83-84 | For any log path the joined path is clean and lies three levels below it; the rotator's Rel and Split recover type and date as the directory and the ID as the name |
| `RecorderPath.EventFileInjective` | modules/cloudevent-recorder/cmd/recorder/main.go:83-84 | Distinct type, date and ID mean distinct files |
| `RecorderPath.Recorder.RecordEvent` | modules/cloudevent-recorder/cmd/recorder/main.go:69-98 | The call touches the event's file only; an event without a type or an ID is acknowledged without any call; any other is acknowledged exactly if the directory was made and the file written whole, and after a failed write the file is gone unless removing it failed too |
| `Paths.SplitPathParts` | pkg/rotate/blob.go:112 | Split loses nothing, and the name has no slash |
| `Paths.SplitPathUnique` | pkg/rotate/blob.go:112 | Split inverts putting a directory and a name together |
| `Paths.JoinPlain` | modules/cloudevent-recorder/cmd/recorder/main.go:83-84 | Plain components joined to any path, absolute or relative, land below it |
| `Paths.ComponentsOfShow` | modules/cloudevent-recorder/cmd/recorder/main.go:83-84 | Cleaning a cleaned path changes nothing |
| `Hex.UnescapeEscape` | modules/cloudevent-recorder/cmd/recorder/main.go:51-58 | A %XX escape is two upper-case digits and decodes to its byte |
| `Hex.HexDigitValue` | pkg/httpmetrics/metrics.go:511 | Hexadecimal digits of either case have their value |
| `AtLeastOnce.FilesApart` | modules/cloudevent-recorder/cmd/recorder/main.go:33-36 | Deliveries of different events never share a file |
| `AtLeastOnce.Deliver` | modules/cloudevent-recorder/cmd/recorder/main.go:122-124 | One delivery to the recorder is one step of the model, acknowledged exactly if its file was written whole or it has none |
| `AtLeastOnce.FlushOnce` | pkg/rotate/blob.go:61-64 | One flush, successful or not, is one step of the model |
| `AtLeastOnce.StepDecides` | modules/cloudevent-recorder/cmd/recorder/main.go:90-96 | An attempt at the event itself decides about its file, one at another event changes nothing, and a flush takes the file away only into a blob |
| `AtLeastOnce.AcknowledgedIsSafeIff` | modules/cloudevent-recorder/cmd/recorder/main.go:69-98 | Over every run of further deliveries and flushes, with any failures: an acknowledged event is on disk or in a blob unless a later attempt damaged its file and none restored it; and without a blob it is on disk exactly then |
| `AtLeastOnce.FailedRedeliveryLosesEvent` | modules/cloudevent-recorder/cmd/recorder/main.go:90-96 | The condition is needed: a redelivery that fails can remove the acknowledged file, before any blob has it |
| `AtLeastOnce.RetryRestores` | modules/cloudevent-recorder/cmd/recorder/main.go:90-96 | A further redelivery that is acknowledged makes good all damage |
| `AtLeastOnce.ShortenedFileIsUploaded` | pkg/rotate/blob.go:127-173 | A flush that meets a shortened file uploads the beginning, and the blob lacks the acknowledged lines |
| `AtLeastOnce.AcknowledgedIsFound` | modules/cloudevent-recorder/cmd/recorder/main.go:69-98 | What was acknowledged before a flush, and not damaged for good, is what the flush finds |
| `AtLeastOnce.RunUploadsEverything` | pkg/rotate/blob.go:54-80 | With deliveries between the flushes of Run, every event acknowledged before a completed flush, so before the cancellation once Run has stopped, is whole in a blob of its type and date |
| `AtLeastOnce.BlobIsOfTypeAndDate` | pkg/rotate/blob.go:112-117 | Two events share a blob directory exactly when type and date agree |
| `CustomerTag.TagParts` | modules/zendesk-events/internal/redact/redact.go:41 | A match is the prefix and the longest run of tag bytes after it |
| `CustomerTag.MaskIsComplete` | modules/zendesk-events/internal/redact/redact.go:279 | After masking no match is left, in any text |
| `CustomerTag.MaskIdempotent` | modules/zendesk-events/internal/redact/redact.go:279 | Masking twice is masking once, and exactly the texts without a match are unchanged |
| `CustomerTag.MaskIsLocal` | modules/zendesk-events/internal/redact/redact.go:279 | Masking replaces the values of maximal matches and no byte outside them |
| `CustomerTag.MaskMakesNoTag` | modules/zendesk-events/internal/redact/redact.go:279 | Masking the rest of a text never makes a match begin at the byte in front of it |
| `JsonText.TagIsInString` | modules/zendesk-events/internal/redact/redact.go:279 | In JSON text a match can only end inside a string literal |
| `JsonText.MaskKeepsScan` | modules/zendesk-events/internal/redact/redact.go:279 | Masking keeps every quote, escape and structural byte, from every state of a JSON scanner |
| `JsonText.MaskKeepsJson` | modules/zendesk-events/internal/redact/redact.go:138-142 | Masked text is valid JSON exactly when the text was |
| `JsonParse.PrintedIsValid` | modules/zendesk-events/internal/redact/redact.go:137-157 | Every document of the RFC 8259 grammar, with any white space, escapes and number forms and nested at most 10000 deep, is accepted |
| `JsonParse.ValidIsPrinted` | modules/zendesk-events/internal/redact/redact.go:137-157 | Every accepted text is such a document, which is constructed from the text |
| `JsonParse.ValidIff` | modules/zendesk-events/internal/redact/redact.go:137-157 | The scanner accepts exactly the JSON texts |
| `Redact.FilterTags` | modules/zendesk-events/internal/redact/redact.go:254-269 | The loop keeps exactly the allowlisted tag strings, in order |
| `Redact.RedactArray` | modules/zendesk-events/internal/redact/redact.go:241-249 | The loop computes the specification of a cleaned array |
| `Redact.RedactValue` | modules/zendesk-events/internal/redact/redact.go:212-237 | The dispatch computes the specification of a cleaned value |
| `Redact.RedactObject` | modules/zendesk-events/internal/redact/redact.go:189-206 | The loop computes the specification of a cleaned object in whatever order the map is visited |
| `RedactLaws.DenyByDefault` | modules/zendesk-events/internal/redact/redact.go:212-237 | At every depth a surviving string or number was let through by its nearest key or as an allowlisted tag; dropping mode lets no string through |
| `RedactLaws.BodyDeniesByDefault` | modules/zendesk-events/internal/redact/redact.go:189-206 | The same for a whole body |
| `RedactLaws.AllowedLeafSurvives` | modules/zendesk-events/internal/redact/redact.go:189-269 | Every scalar that may stay does stay, at any depth and through arrays and tags, under the same keys |
| `RedactLaws.SurvivingLeafWasAllowed` | modules/zendesk-events/internal/redact/redact.go:189-269 | And nothing else does: every scalar of the output comes from an allowed one of the input under the same keys |
| `RedactLaws.CleanEmbeds` | modules/zendesk-events/internal/redact/redact.go:189-249 | The output embeds in the input: sub-maps, array subsequences, equal leaves |
| `RedactLaws.CleanIdempotent` | modules/zendesk-events/internal/redact/redact.go:189-249 | Each mode is idempotent |
| `RedactLaws.ModesCommute` | modules/zendesk-events/internal/redact/redact.go:189-249 | The two modes commute |
| `RedactLaws.BothModesAreBare` | modules/zendesk-events/internal/redact/redact.go:189-269 | Both modes together leave no string, and every tags array that is an object entry empty |
| `RedactLaws.BodyAlgebra` | modules/zendesk-events/internal/redact/redact.go:189-206 | Idempotence, commutation and embedding on whole bodies |
| `RedactFallback.PlainEmbeds` | modules/zendesk-events/internal/redact/redact.go:189-249 | For plain tags (tags arrays of strings and numbers only) the fallback only removes more than the normal mode |
| `RedactFallback.EmbeddingNeedsPlain` | modules/zendesk-events/internal/redact/redact.go:189-269 | And only for plain tags |
| `RedactFallback.FallbackIsSmallerIff` | modules/zendesk-events/internal/redact/redact.go:189-206 | On whole bodies the fallback is a further cut of the normal mode if and only if the tags are plain |
| `RedactFallback.FallbackIsNotSmaller` | modules/zendesk-events/internal/redact/redact.go:192-201 | A body whose tags are not plain |
| `RedactBody.Redactor.WalkBody` | modules/zendesk-events/internal/redact/redact.go:165-185 | Decoding, cleaning and encoding, with both failures |
| `RedactBody.Redactor.Body` | modules/zendesk-events/internal/redact/redact.go:123-158 | The fail-closed driver computes its specification and counts each degradation exactly |
| `RedactBody.BodyIsFirstJson` | modules/zendesk-events/internal/redact/redact.go:117-158 | Whatever the regex passes, the decoder and the encoder do, a non-empty body becomes JSON: the scrubbed walk if that is JSON, else the scrubbed walk without strings if that is, else the empty object |
| `RedactBody.MaskingNeverFailsClosed` | modules/zendesk-events/internal/redact/redact.go:137-142 | If only the customer-tag pass finds something, the result is the masked document, still JSON, with no tag value left |
| `RedactBody.OnlyAllowedLeavesReachThePasses` | modules/zendesk-events/internal/redact/redact.go:127-157 | What is forwarded is a scrubbed encoding of a tree that holds only allowed leaves |
| `CloudEvent.CarryKeepsHolds` | pkg/pubsub/cloudevent.go:68-83 | Visiting one more extension keeps the attributes what they should be |
| `CloudEvent.FromCloudEvent` | pkg/pubsub/cloudevent.go:56-90 | A subscriber that reads the message by attribute name gets every field of the event back, every carried extension and nothing else, in whatever order the extensions come; the ordering key is the partition key |
| `CloudEvent.MessageIsRead` | pkg/pubsub/cloudevent.go:56-90 | Reading the attributes by name gives each field of the event, and under ce- names its carried extensions, exactly |
| `CloudEvent.StandardIff` | pkg/pubsub/cloudevent.go:18-28 | An extension is skipped exactly if it is called id, specversion, type, source, subject or time |
| `CloudEvent.AttributesAreUnique` | pkg/pubsub/cloudevent.go:67-83 | The attribute map does not depend on the iteration order |
| `CloudEvent.StampedMessage` | modules/cloudevent-broker/cmd/ingress/main.go:195-197 | With the actor stamped on, a subscriber still reads the event's own fields and extensions, and the authenticated sender as the actor; the ordering key is the partitionkey extension |
| `Ingress.PublisherFor` | modules/cloudevent-broker/cmd/ingress/main.go:54-62 | One publisher per topic, with ordering enabled |
| `Ingress.ListPublishers` | modules/cloudevent-broker/cmd/ingress/main.go:71-74 | Each publisher is listed once |
| `Ingress.BuildPublishers` | modules/cloudevent-broker/cmd/ingress/main.go:52-76 | Fails exactly on an empty override topic; otherwise one publisher per distinct topic, each listed once, and every type mapped to its own |
| `Ingress.RoutingFollowsTopics` | modules/cloudevent-broker/cmd/ingress/main.go:81-86 | An event goes to its override topic, else the default; types share a publisher exactly when they share a topic |
| `Ingress.MessageIsDetermined` | modules/cloudevent-broker/cmd/ingress/main.go:195-197 | An event has one possible message; a subscriber reads the event's own fields and extensions in it, and an actor no extension can forge |
| `Ingress.Publisher.Publish` | modules/cloudevent-broker/cmd/ingress/main.go:200-205 | The client contract: one attempt is recorded; a key is rejected at once exactly if it is paused or ordering is not enabled, otherwise the service decides; only success delivers, and a message sent in vain pauses its key |
| `Ingress.Forward` | modules/cloudevent-broker/cmd/ingress/main.go:195-214 | Exactly the event's message is published, once, and its outcome returned, which is success exactly if the client accepts the key and the service the message; failure leaves the event's key unpaused and touches no other key |
| `OrderingKeys.StepKeepsInv` | modules/cloudevent-broker/cmd/ingress/main.go:199-212 | Every step of concurrent forwards keeps the invariant |
| `OrderingKeys.PausedKeyIsOwed` | modules/cloudevent-broker/cmd/ingress/main.go:201-208 | Over all interleavings a paused key is owed a resume by a forward in flight, or leaked by an abandoned publish; the empty key is never paused or resumed |
| `OrderingKeys.LeakedIff` | modules/cloudevent-broker/cmd/ingress/main.go:201-208 | A key is paused behind a forward's back exactly when an abandoned publish on it failed and it was not resumed since |
| `OrderingKeys.PausedAtQuiescenceIff` | modules/cloudevent-broker/cmd/ingress/main.go:201-208 | At quiescence a key is paused if and only if some publish on it failed after its forward stopped waiting, with no resume since; never without an abandoned publish |
| `OrderingKeys.AbandonedPublishLeavesKeyPaused` | modules/cloudevent-broker/cmd/ingress/main.go:199-208 | A forward whose context ends during the publish can leave its key paused: a concrete run |
| `OrderingKeys.NextForwardHealsKey` | modules/cloudevent-broker/cmd/ingress/main.go:199-208 | The next event for such a key is rejected and resumes it |
| `OverrideTable.ItemIsRead` | modules/cloudevent-broker/ingress.tf:77-79 | A rendered item is cut at its first colon into the type and the topic |
| `OverrideTable.PaddedItemIsRead` | modules/cloudevent-broker/ingress.tf:77-79 | With white space anywhere around them the type and the topic are read the same |
| `OverrideTable.ItemsAppend` | modules/cloudevent-broker/ingress.tf:77-79 | Items are read one after the other, and a later one wins |
| `OverrideTable.ParseFailsIff` | modules/cloudevent-broker/ingress.tf:74-80 | A table is rejected exactly if some item has no colon |
| `OverrideTable.TableRoundTrip` | modules/cloudevent-broker/ingress.tf:74-80 | The rendered table parses back to the routing map, in any order |
| `TopicNames.NamesNeverCollideIff` | modules/cloudevent-broker/main.tf:26-58 | Keys and topics never collide, whatever the types (apart but for dots), exactly when no region continues another across a dash |
| `TopicNames.SafeNames` | modules/cloudevent-broker/main.tf:38-58 | In such regions every key and topic is its own |
| `TopicNames.RightExtensionCollides` | modules/cloudevent-recorder/main.tf:20-29 | Otherwise two types can be given one for_each key |
| `TopicNames.LeftExtensionCollides` | modules/cloudevent-broker/main.tf:58 | Or a dedicated topic the name of another region's shared topic |
| `TopicNames.DotsAndDashesCollide` | modules/cloudevent-broker/main.tf:58 | Types that differ only in dots and dashes share a dedicated topic |
| `TopicNames.DashedAlike` | modules/cloudevent-broker/main.tf:58 | Two types have the same dashed text exactly if they differ in dots and dashes only |
| `Cutover.IngressReadsTheRoutes` | modules/cloudevent-broker/ingress.tf:67-82 | The ingress routes by exactly the configured map, absent or present |
| `Cutover.ValidEntry` | modules/cloudevent-broker/variables.tf:89-98 | A type that passes the module's validation renders to an item that can be read back |
| `Cutover.ValidatedRoutesAreRead` | modules/cloudevent-broker/variables.tf:89-98 | So validated types are always routed as configured, and no topic is empty, so the ingress can start |
| `Cutover.PublishedOnConfiguredTopic` | modules/cloudevent-broker/cmd/ingress/main.go:52-86 | An ingress built from its rendered table publishes every event on the topic the configuration gives it |
| `Cutover.TriggerShape` | modules/cloudevent-recorder/recorder.tf:136-179 | Every recorder trigger is one recorded type in one region, on the shared or the dedicated topic |
| `Cutover.MatchingOnShared` | modules/cloudevent-recorder/recorder.tf:136-155 | The triggers that match a type on the shared topic: one unless dropped |
| `Cutover.MatchingOnDedicated` | modules/cloudevent-recorder/recorder.tf:159-179 | The triggers that match a type on its dedicated topic: one exactly with an extra_brokers entry |
| `Cutover.RecordedOnceIff` | modules/cloudevent-recorder/main.tf:31-48 | A type is recorded exactly once exactly when routed types have extra triggers and unrouted ones are not dropped |
| `Cutover.PreconditionsAreNotEnough` | modules/cloudevent-recorder/recorder.tf:16-33 | The Terraform preconditions admit both wrong orders, each of which loses the type |
| `Cutover.StepKeepsInv` | modules/cloudevent-recorder/recorder.tf:16-33 | Each documented step, forwards or back, keeps the invariant |
| `Cutover.RunKeepsInv` | modules/cloudevent-recorder/recorder.tf:16-33 | So does every run of steps |
| `Cutover.CutoverNeverLosesAType` | modules/cloudevent-broker/variables.tf:79 | Along every run of the documented order, for any number of types at once, each event of a recorded type, on the topic of the publisher that the ingress built from its table picks, meets exactly one recorder trigger |
| `Cutover.TerraformCutoverNeverLosesAType` | modules/cloudevent-broker/variables.tf:79 | The same for the modules' own names under the exact naming condition, with the table read back from any rendering |
| `OtlpHeaders.ParseOTLPHeaders` | pkg/httpmetrics/metrics.go:498-518 | The loop computes the parser's specification |
| `OtlpHeaders.UnescapeInvertsEscape` | pkg/httpmetrics/metrics.go:511 | Query unescaping inverts query escaping on every byte string |
| `OtlpHeaders.PercentDecodingIff` | pkg/httpmetrics/metrics.go:494-514 | The parser rejects exactly the values RFC 3986 percent-decoding rejects, and reads any other as it does if and only if it holds no plus |
| `OtlpHeaders.PlusIsReadAsSpace` | pkg/httpmetrics/metrics.go:494-497 | A bare plus becomes a space, which RFC 3986 percent-decoding would keep |
| `OtlpHeaders.UnescapeFailsIff` | pkg/httpmetrics/metrics.go:511-514 | A value is rejected exactly if some percent sign is not followed by two hexadecimal digits |
| `OtlpHeaders.HeaderIsParsed` | pkg/httpmetrics/metrics.go:501-515 | One pair, with white space anywhere, is read as its key and value |
| `OtlpHeaders.ParseLayout` | pkg/httpmetrics/metrics.go:498-518 | White space and empty entries anywhere do not change the result |
| `OtlpHeaders.ParsePrinted` | pkg/httpmetrics/metrics.go:498-518 | Parsing inverts printing for every map of well-formed keys to arbitrary byte strings |
| `OtlpHeaders.ParseFailsIff` | pkg/httpmetrics/metrics.go:498-518 | A text is rejected exactly if some entry that is not blank has no name before its first equals sign, no equals sign, or a broken escape |
| `OtlpHeaders.AcceptedKeys` | pkg/httpmetrics/metrics.go:506-510 | Every accepted key, from any text, is non-empty and trimmed |
| `PathBuckets.Spelling` | pkg/httpmetrics/github_api.go:19-235 | No literal of a pattern holds a slash |
| `PathBuckets.GuessIsRight` | pkg/httpmetrics/github_api.go:19-235 | The literals of the patterns are pairwise different |
| `PathBuckets.MatchStringIff` | pkg/httpmetrics/github_api.go:237-244 | Matching segment by segment decides the regular expression, for every path |
| `PathBuckets.OverlapIsSound` | pkg/httpmetrics/github_api.go:19-235 | Two patterns that match one path pass the overlap check |
| `PathBuckets.UniqueMatch` | pkg/httpmetrics/github_api.go:19-235 | At most one row of the table matches a path |
| `PathBuckets.FirstMatchIsTheMatch` | pkg/httpmetrics/github_api.go:237-244 | A row that accepts the path gives the bucket wherever it stands |
| `PathBuckets.UnmatchedIsUnknown` | pkg/httpmetrics/github_api.go:237-244 | A path that no row accepts is unknown |
| `PathBuckets.OrderIndependent` | pkg/httpmetrics/github_api.go:237-244 | Any reordering of the table gives every path the same bucket |
| `PathBuckets.OrgIsTheMatchedSegment` | pkg/httpmetrics/transport.go:393-410 | However the pattern is laid over the path, the text under {org} is the organisation extracted |
| `PathBuckets.OrgAgreesWithBucket` | pkg/httpmetrics/transport.go:391-410 | A path in an org or repo bucket starts with that word and the organisation extracted |
| `PathBuckets.NamesAnOrgIff` | pkg/httpmetrics/github_api.go:19-235 | The rows with an organisation are exactly those whose pattern starts with repos or orgs |
| `PathBuckets.StandingOrgIsExtracted` | pkg/httpmetrics/transport.go:393-408 | A path that starts with repos or orgs and a segment, with or without a slash in front, gives that segment |
| `PathBuckets.UnknownOrg` | pkg/httpmetrics/transport.go:393-410 | Every other path gives unknown |
| `Sampling.SamplingSpanProcessor.OnEnd` | pkg/httpmetrics/metrics.go:561-570 | What was forwarded is exactly the kept spans of all that ended, in order |
| `Sampling.KeptWordsAreLowest` | pkg/httpmetrics/metrics.go:561-570 | The kept low words are the lowest 2 * threshold |
| `Sampling.KeptShare` | pkg/httpmetrics/metrics.go:551-554 | For a rate between 0 and 1 exactly 2 * floor(rate * 2^63) words are kept, within 2^-63 of the rate |
| `Sampling.KeptAtTheEnds` | pkg/httpmetrics/metrics.go:545-550 | Nothing is kept at or below 0, everything at or above 1 |
| `Sampling.KeptGrowsWithRate` | pkg/httpmetrics/metrics.go:544-570 | A higher rate keeps every word a lower rate keeps |
| `Sampling.TraceIsAllOrNothing` | pkg/httpmetrics/metrics.go:529-531 | A trace is forwarded whole or not at all, however spans interleave |
| `Sampling.ExportersNest` | pkg/httpmetrics/metrics.go:544-570 | An exporter with a higher rate gets every span one with a lower rate gets |
| `Sampling.SpanIsKeptIff` | pkg/httpmetrics/metrics.go:544-570 | Below a rate of 1 a span is forwarded exactly if half the big-endian number in bytes 8 to 15 of its trace ID is below floor(rate * 2^63) |
| `Sampling.BigEndianFits` | pkg/httpmetrics/metrics.go:566 | The low word fits 64 bits |
| `Sampling.BigEndianInjective` | pkg/httpmetrics/metrics.go:566 | Different low bytes are different words |
| `CheckOutput.Builder.Writef` | modules/github-bots/sdk/check/check.go:65-78 | One call moves the buffer to the bounded text for the longer history |
| `CheckOutput.ShownAppend` | modules/github-bots/sdk/check/check.go:71-77 | Cutting early loses nothing: the bounded text stands for the whole history, and once cut never changes |
| `CheckOutput.RunShowsHistory` | modules/github-bots/sdk/check/check.go:62-78 | After any run of calls the text is all that was written if that fits 65536 bytes, and otherwise exactly that long: its beginning and the note |
| `CheckOutput.CutTextIsFinal` | modules/github-bots/sdk/check/check.go:71-77 | Once cut, no further run of calls changes the text |

## Left out

- HTTP servers, CloudEvents clients, authentication, and the Pub/Sub, BigQuery and storage SDKs: unseen
  libraries, of which only the contracts above are used.
- The regexes of the redactor other than the customer-tag one, and the UTF-8 and escaping rules of Go's JSON encoder;
  a JSON string literal may hold any byte from the space up, as for `json.Valid`.
- Metrics, logs and traces, except the counters that say how often something degraded or was retried.
- `Upload` (pkg/rotate/blob.go:182-204): a single write and close without a loop or a retry.
- The other span processors and exporter selection in pkg/httpmetrics: one-branch facts.
- `CheckRunCreate` and `CheckRunUpdate`: they copy fields.
- Terraform other than topic routing and recorder triggers; messages in flight while a configuration is applied; the
  `gcs` recorder method.
- The order in which githubAPIPatterns lists its rows: the rows are grouped by their first word, since
  `PathBuckets.OrderIndependent` shows that the order cannot matter.
- SecondaryRateLimit.Waiter.RoundTrip: runs against finite prefixes of the response stream, because an endless run
  of limited responses is an endless call; a prefix that ends early gives `Unfinished`.
- SecondaryRateLimit.Waiter.ProcessLimit: header values come already parsed to a number or a parse error, and Unix
  seconds so large that time.Unix itself overflows are not modelled.
- Text.TrimSplits: ASCII white space only; the further Unicode white space that TrimSpace removes is not modelled.
- Sampling.KeptShare: rates are reals, so NaN is not modelled; scaling a float64 by 2^63 is exact.
- CheckOutput.Builder.Writef: the text arrives already formatted, and a cut may fall inside a multi-byte character,
  as in the code.
- LogRotate.Uploader.Run: the interval timer and the context are a script of what each select observed, and
  deliveries happen between flushes, not during one.

# Mustang in Dafny

A model of the parts of Mustang where state, loops and protocols interact: the streaming `<think>` parser, context
compaction, the password-hash codec, the layered configuration, the gateway adapter, transcripts and their resumption,
the memory store, the assembly of streamed tool calls, and the client's request table and permission queue. Each part
is proved against what the code promises its users, over every input or every run. `dafny verify dfyconfig.toml` checks
the whole project.

| files | what they hold |
|---|---|
| `ThinkTagParser`, `ThinkTagChunks`, `ThinkTagEvents` | the parser object with its loop; independence of how the stream was cut; the parse as an independent description; which events show it |
| `Messages`, `Compaction`, `DroppedRounds`, `RoundPairing`, `Snipping` | the shared messages; the two zero-cost compaction layers, what they drop and shorten, and what they do to the pairing of calls and results |
| `Numerals`, `Base64Url`, `PasswordCodec` | decimal numerals, unpadded base64url after section 5 of RFC 4648, the stored password record |
| `ConfigMerge`, `ConfigSection`, `ConfigRuns`, `ConfigValues`, `ConfigDisk` | merging layers; section objects, owners and readers; updates as interleaved steps; the values and the files after any run |
| `Gateway`, `PermissionReplies`, `PeerSessions` | handlers as a system of steps; what requests are decided by; the table of peer sessions on disk |
| `Transcript`, `TranscriptRuns`, `TranscriptCrashes` | the append-only log and the backward walk; damaged logs; failed writes, crashes and restarts |
| `Conversations`, `OrphanStripping`, `Rebuild`, `ResumedHistory` | the live message list and the removal of unanswered calls; rebuilding from entries; live against resumed history |
| `MarkdownSections`, `MemoryFiles`, `MemoryStores` | bullets under headings; the text of a memory file; cache, files and index |
| `ToolCallAssembly`, `AcpClients`, `PermissionQueues`, `SessionPicker` | fragments to calls; requests matched with responses; prompts one at a time; the session filter |
| `Text`, `Options` | string operations of the host languages; a value that may be absent |

Objects that the code changes in place are classes whose methods are proved against functions on values; the theorems
are about those functions. Concurrency is a state machine over steps, a step being what one task does between two
points where it gives up control.

## Where code and promise differ

Each of these is stated with the exact condition under which the promise holds.

- Micro-compaction can leave results without their call. All of them stand in the protected tail
  (`RoundPairing.NoneDangleBeforeTail`), there are some exactly when a result behind a dropped round names other ids than
  the call that now stands before it (`RoundPairing.DanglingIff`), and with ids that are used once that is exactly when
  the cutoff falls inside a round that is dropped (`RoundPairing.DanglingIffRoundIsCut`), as between a call and its result
  (`RoundPairing.CutBetweenCallAndResult`).
- Snipping twice changes something exactly when a shortened result had at least 10^73 characters
  (`Snipping.SnippingTwice`).
- Merging configuration layers is not associative: a leaf in the middle layer can separate two mappings
  (`ConfigMerge.AssociativeIff`). After a restart an updated section comes back exactly when the layers above the file
  it was written to say nothing else (`ConfigSection.RestartKeepsValueIff`). Locks are per section, and an update writes
  back what it read of the whole file: the other sections stay exactly when what was read of them is still true
  (`ConfigRuns.ReplaceKeepsOthersIff`). Overlapping updates of two sections of one file lose one of them
  (`ConfigRuns.OverlapLosesUpdate`, reached from the start by `ConfigRuns.LossIsReachable`). Over every run a committed
  section is on disk exactly when the last update that wrote its file was its own, or had found the section's present
  value when it read the file (`ConfigDisk.DiskAgreesIff`).
- Permission requests are kept one per key. A request is lost, for good, exactly when another handler of its key
  registers a request or gets its own answer before this one is answered (`Gateway.RequestIsLostIff`,
  `Gateway.LostIffDisplaced`, `Gateway.LostForGood`). Both happen: the second request overwrites the first
  (`Gateway.OverwriteIsReachable`), or the first handler, resuming with its answer, removes the second one's entry
  (`Gateway.RemovalIsReachable`).
- A shutdown answers exactly the requests registered by then that are not lost (`Gateway.AnsweredByStopIff`); one that is
  registered after it waits until a message is read (`Gateway.LateRequestWaits`).
- The peer-session table survives a restart exactly when no peer id holds `|` (`PeerSessions.TableRoundTrip`).
- The transcript's design promises that partial writes are skipped. They are, but the next entry is written on the same
  line and lost with them, and an entry that is linked to a lost one hides all that is older. The writer takes the new
  uuid before it writes, so a failed write that leaves nothing in the file counts as lost too. What is older is still
  read exactly when nothing happened since the last entry was lost, or a restart came next
  (`TranscriptCrashes.HistoryIsKeptIff`, `TranscriptCrashes.FailureLosesHistory`).
- A call counts as answered by a result anywhere in the history, not only by a later one as documented
  (`OrphanStripping.EarlierResultCounts`). The documented orphans are found exactly when every call that has a result has
  one after it (`OrphanStripping.FindsDocumentedOrphansIff`); an id used again hides one
  (`OrphanStripping.ReusedIdHidesOrphan`). The second pass of stripping never removes a result, though it is documented
  to (`OrphanStripping.SecondPassDropsOnlyEmpty`).
- A session that was not compacted, once resumed, sees the same history as the one that goes on exactly when no call
  that was stripped, and not brought back by an earlier resume, has got a result
  (`ResumedHistory.ResumeRebuildsLiveIff`); it fails for calls without an id of their own
  (`ResumedHistory.EmptyIdsMakeResumeDiffer`).
- Under the policy `hide` the code hides every call that has a made-up result, although its comment says the made-up
  result must be the only one; a real result of such a call is left without its call
  (`ResumedHistory.HiddenCallsLeaveNoTraceIff`, `ResumedHistory.RealResultOutlivesCall`).
- A memory body comes back from disk up to outer white space exactly when it has no carriage return inside
  (`MemoryStores.FreshLoadAgreesIff`); a blank line is put in front of it (`MemoryStores.WrittenIsReadBack`).
- Two bullets for two sections may be appended in either order exactly when the first section ends before the second
  heading, or the bullets are equal (`MarkdownSections.AppendsCommuteIff`); it does not when that heading is indented
  (`MarkdownSections.IndentedHeadingExample`).
- The calls that a streamed response makes behind its last `tool_calls` or `stop` are lost
  (`ToolCallAssembly.CallsAfterEndAreLost`); none is exactly when no fragment with an index follows it
  (`ToolCallAssembly.NoneIsLostIff`).
- A client request that could not be sent is settled but stays in the pending table until a response to it or its timer
  comes (`AcpClients.FailedSendLeavesIff`), so that the table is that of the unsettled requests exactly when this
  happens for each of them (`AcpClients.TableIsExactIff`).

## Model

| member | source | states |
|---|---|---|
| ThinkTagParser.Parser.Feed | archive/daemon/daemon/providers/think_tag_parser.py:42-87 | one call emits the events of the scan of the buffer and the new text, and keeps its mode and residue |
| ThinkTagParser.SplitAtPartial | archive/daemon/daemon/providers/think_tag_parser.py:90-106 | the part kept is the longest suffix that is a proper prefix of the tag, and both parts make up the buffer |
| ThinkTagParser.LoopIsScan | archive/daemon/daemon/providers/think_tag_parser.py:55-85 | running the loop to its end gives the scan's events, mode and residue |
| ThinkTagParser.ScanRests | archive/daemon/daemon/providers/think_tag_parser.py:57-64 | after every call the residue could still be the start of the tag sought, and is nothing more than that |
| ThinkTagChunks.ScanConcat | archive/daemon/daemon/providers/think_tag_parser.py:42-87 | reading a text in two parts, the second behind the residue of the first, is reading it whole |
| ThinkTagChunks.CutsDoNotMatter | archive/daemon/daemon/providers/think_tag_parser.py:38-87 | for every way of cutting a text into chunks the final mode, residue and runs are those of the whole text fed at once |
| ThinkTagChunks.CutsDoNotMatterForEvents | archive/daemon/daemon/providers/think_tag_parser.py:42-87 | the events of the separate calls, merged within each tag run, are those of one call, tag flips separating runs |
| ThinkTagChunks.TraceShowsEvents | archive/daemon/daemon/providers/think_tag_parser.py:53-87 | the trace with flips, used to merge, shows exactly the events that the calls return |
| ThinkTagChunks.SameTextSameStream | archive/daemon/daemon/providers/think_tag_parser.py:38-87 | two cuttings of one text, from the start, give the same parse and the same merged events |
| ThinkTagChunks.ScanIsParse | archive/daemon/daemon/providers/think_tag_parser.py:42-106 | the runs with the tags put back and the residue appended are the input; no run holds the tag it was searched for; the residue is longest |
| ThinkTagChunks.ParseIsUnique | archive/daemon/daemon/providers/think_tag_parser.py:42-106 | nothing but the scanner's answer meets that description |
| ThinkTagEvents.OneCallShows | archive/daemon/daemon/providers/think_tag_parser.py:53-87 | the events of a call are the runs of its parse that are not empty, in order, thinking inside the tags and text outside |
| ThinkTagEvents.StreamShowsParse | archive/daemon/daemon/providers/think_tag_parser.py:42-87 | for every cutting of a text its visible text and its thinking are the runs outside and inside of tags, and no event is empty |
| ThinkTagEvents.ReadStream | archive/daemon/daemon/providers/openai_base.py:221-224 | what a provider gets that feeds a parser chunk by chunk shows every parse of the whole text |
| ThinkTagEvents.BlockAndText | archive/daemon/daemon/providers/think_tag_parser.py:53-87 | a thinking block and the text behind it |
| Compaction.EstimateContentChars | archive/daemon/daemon/engine/compact.py:113-123 | the estimate is the sum over the blocks |
| Compaction.BlockCounts | archive/daemon/daemon/engine/compact.py:113-123 | a text and a result count for their characters, other blocks for their printed length |
| Compaction.FindReadOnlyRounds | archive/daemon/daemon/engine/compact.py:214-252 | the marked indices are exactly the dropped messages, and the freed count sums each of them once |
| Compaction.MicroCompact | archive/daemon/daemon/engine/compact.py:191-275 | the new list is the history with dropped messages replaced by one marker pair, with the freed count |
| RoundPairing.OneMarkerInPlace | archive/daemon/daemon/engine/compact.py:257-273 | one marker pair stands where the first dropped message was, and all else keeps its order |
| RoundPairing.SurvivorsVerbatim | archive/daemon/daemon/engine/compact.py:260-273 | messages that are not dropped survive one for one |
| RoundPairing.TailIsVerbatim | archive/daemon/daemon/engine/compact.py:212-219 | the protected tail comes out as it went in |
| RoundPairing.FreedCharsAddUp | archive/daemon/daemon/engine/compact.py:209-275 | what is left and what was freed add up to what there was and the marker pair |
| RoundPairing.CallsStayAnswered | archive/daemon/daemon/engine/compact.py:195-207 | in a history whose rounds are complete no call loses its answer |
| RoundPairing.NoneDangleBeforeTail | archive/daemon/daemon/engine/compact.py:239-252 | before the protected tail the result has no result without its call |
| RoundPairing.StrandedLieInTail | archive/daemon/daemon/engine/compact.py:226-252 | a kept result behind a dropped message of its round stands at or after the cutoff |
| RoundPairing.DanglingIff | archive/daemon/daemon/engine/compact.py:239-273 | a result is left without its call exactly when one behind a dropped round names other ids than the call before it |
| RoundPairing.DanglingIffRoundIsCut | archive/daemon/daemon/engine/compact.py:239-252 | none is when the cutoff divides no dropped round; where ids are used once, exactly then |
| RoundPairing.CutBetweenCallAndResult | archive/daemon/daemon/engine/compact.py:212-252 | a history of one read-only call and its result in which only the result is protected |
| DroppedRounds.KeepsTheRest | archive/daemon/daemon/engine/compact.py:191-275 | exactly the messages stay that are not in a round of read-only calls before the protected tail, and a note in the first gap counts the others |
| DroppedRounds.AssistantIsRemovedIff | archive/daemon/daemon/engine/compact.py:218-237 | an assistant message goes exactly when it is before the tail, has a call, and each of its calls names a read-only tool |
| DroppedRounds.OtherToolsStay | archive/daemon/daemon/engine/compact.py:226-229 | a message with a call of any other tool stays, and all results behind it |
| Snipping.BuildToolNameIndex | archive/daemon/daemon/engine/compact.py:99-110 | the index is the fold over all calls of the history |
| Snipping.LastCallNames | archive/daemon/daemon/engine/compact.py:99-110 | each id is in the index with the name of its last call |
| Snipping.NoCallNoName | archive/daemon/daemon/engine/compact.py:99-110 | an id that no call has is not in the index |
| Snipping.SnipToolResults | archive/daemon/daemon/engine/compact.py:126-183 | the new list shortens exactly the old, long results of the snippable tools, and the count is what they lose |
| Snipping.BlockIsShortenedIff | archive/daemon/daemon/engine/compact.py:126-183 | a block is replaced exactly when it is a result over 100 characters before the tail whose last call is of a snippable tool, and then by a note of its length |
| Snipping.PlaceholderIsShorter | archive/daemon/daemon/engine/compact.py:161-165 | the placeholder of an output over 100 characters is shorter than the output |
| Snipping.FreedIsDrop | archive/daemon/daemon/engine/compact.py:164-166 | the freed count is the drop in estimated characters |
| Snipping.SnippingKeeps | archive/daemon/daemon/engine/compact.py:151-183 | message count, roles, block order, call ids, error flags and the protected tail stay |
| Snipping.SnippingTwice | archive/daemon/daemon/engine/compact.py:126-183 | a second snip changes nothing exactly when no shortened result had 10^73 characters or more |
| Snipping.SnippingKeepsRounds | archive/daemon/daemon/engine/compact.py:218-252 | snipping first does not change which messages the second layer drops |
| Snipping.BothLayersKeepCallsAnswered | archive/daemon/daemon/engine/compact.py:126-275 | both layers, one after the other, leave every call answered |
| Base64Url.B64RoundTrip | src/kernel/kernel/connection_auth/password.py:212-242 | unpadded base64url undoes itself for every length modulo three; the empty string is refused |
| Base64Url.EncodedIsData | src/kernel/kernel/connection_auth/password.py:212-218 | the encoded text is the data characters of the sextets and nothing else |
| Base64Url.DecodeThenEncode | src/kernel/kernel/connection_auth/password.py:226-242 | which unpadded texts are read, and which of them are what their bytes encode to |
| Base64Url.Vector | src/kernel/kernel/connection_auth/password.py:212-218 | a test vector |
| Base64Url.ShortVector | src/kernel/kernel/connection_auth/password.py:212-218 | one without padding, with the characters that end the alphabet |
| Base64Url.OthersAreRefused | src/kernel/kernel/connection_auth/password.py:226-242 | a character outside of the alphabet makes a text malformed |
| PasswordCodec.IntRoundTrip | src/kernel/kernel/connection_auth/password.py:196-199 | every printed integer is read back, and holds no separator |
| PasswordCodec.ReadsIntegerIff | src/kernel/kernel/connection_auth/password.py:196-201 | a text is read as an integer exactly when it is digits, single underscores between them, with one sign at most and white space around |
| PasswordCodec.ReadThenPrint | src/kernel/kernel/connection_auth/password.py:196-203 | a text read as an integer is printed back exactly when it has the printer's form |
| PasswordCodec.FieldsOf | src/kernel/kernel/connection_auth/password.py:164-193 | splitting a printed record gives its six fields, in order |
| PasswordCodec.RoundTrip | src/kernel/kernel/connection_auth/password.py:164-209 | parsing any printed record gives the record, or the one reason it is refused for |
| PasswordCodec.ParseThenPrint | src/kernel/kernel/connection_auth/password.py:178-209 | a stored line that parses is printed back exactly when every field is in the printer's form |
| PasswordCodec.StoredPasswordVerifies | src/kernel/kernel/connection_auth/password.py:75-123 | a stored password accepts exactly the passwords that derive its key |
| PasswordCodec.RecordVerifies | src/kernel/kernel/connection_auth/password.py:91-123 | a record of any parameters accepts exactly what derives its key under its own parameters, and raises exactly when the derivation does |
| PasswordCodec.AcceptedLine | src/kernel/kernel/connection_auth/password.py:103-123 | a line that accepts anything has the tag, positive parameters and data, and the attempt derives that data |
| PasswordCodec.MalformedNeverAccepts | src/kernel/kernel/connection_auth/password.py:105-109 | a line that does not parse is a rejection |
| PasswordCodec.NewPasswordsUseDefaults | src/kernel/kernel/connection_auth/password.py:75-88 | new records are made under the default parameters |
| ConfigMerge.DeepMergeByEntries | src/kernel/kernel/config/loader.py:31-52 | the loop over the higher layer's entries computes the merge |
| ConfigMerge.MergedLeaf | src/kernel/kernel/config/loader.py:31-52 | a leaf of the merge is the higher layer's, else the lower layer's unless a higher value hides it |
| ConfigMerge.HighestLayerWins | src/kernel/kernel/config/loader.py:124-142 | after the left fold each leaf is that of the highest layer that defines it and that no later layer hides |
| ConfigMerge.Collect | src/kernel/kernel/config/loader.py:107-142 | each file's bucket is the fold of its layers in order of priority |
| ConfigMerge.CoveredMergeIsHigh | src/kernel/kernel/config/loader.py:44-52 | a layer that covers the one below is what the merge gives |
| ConfigMerge.AssociativeIff | src/kernel/kernel/config/loader.py:31-52 | merging is associative exactly when no leaf of the middle layer separates two mappings |
| ConfigMerge.AgreeingLayersAssociate | src/kernel/kernel/config/loader.py:31-52 | layers that agree on which paths are mappings associate |
| ConfigMerge.AssociationMatters | src/kernel/kernel/config/loader.py:31-52 | three layers for which the two orders differ |
| ConfigSection.PatchStoresOnlyItsSection | src/kernel/kernel/config/section.py:117-142 | rewriting a file stores exactly the section's non-default fields and changes no other section of any file |
| ConfigSection.StoredIsWhatDiffers | src/kernel/kernel/config/section.py:130-136 | what is stored is exactly the fields that differ from their default, and nothing if none does |
| ConfigSection.ValidateIff | src/kernel/kernel/config/section.py:90-92 | a value is taken exactly when the schema takes each given field, and then filled up with the defaults |
| ConfigSection.ReadStanzaReads | src/kernel/kernel/config/manager.py:222-232 | a section is read exactly when no leaf stands in its place and each stored field is a leaf that the schema takes |
| ConfigSection.StoredFieldsGiveValue | src/kernel/kernel/config/section.py:130-136 | the stored fields over the defaults are the value again |
| ConfigSection.MergedSection | src/kernel/kernel/config/loader.py:124-142 | what the merge of a file and the layers above it holds of one section and one field |
| ConfigSection.RestartKeepsValueIff | src/kernel/kernel/config/loader.py:124-140 | a value read again from the merged layers at startup is the one written exactly when the layers above say nothing else |
| ConfigSection.Section.Update | src/kernel/kernel/config/section.py:72-103 | it succeeds exactly when the schema takes each field given and the write works; a failure leaves disk, memory and listeners as they were; siblings on disk stay |
| ConfigSection.Section.WriteAtomic | src/kernel/kernel/config/section.py:105-142 | the file holds the section's value and all else it held; nothing changes when the write fails |
| ConfigSection.ConfigManager.BindSection | src/kernel/kernel/config/manager.py:117-164 | succeeds exactly for the first owner with a fitting schema, and hands out the state that readers share |
| ConfigSection.ConfigManager.GetSection | src/kernel/kernel/config/manager.py:166-194 | any number of readers get the one state of the section, refused only for schema or data |
| ConfigSection.ConfigManager.GetOrCreateSection | src/kernel/kernel/config/manager.py:196-241 | an existing section is reused under its own schema only; a new one is handed out exactly when what is stored is accepted, and holds it |
| ConfigRuns.SectionsOverRuns | src/kernel/kernel/config/section.py:72-142 | over every run without overlapping writes: one owner, readers see the last commit, commits form a chain, only commits are notified, disk matches memory, siblings stay |
| ConfigRuns.NotifiedAreCommitted | src/kernel/kernel/config/section.py:88-103 | over every run each notification is of a commit of its own, and all commits are notified once no update has still to |
| ConfigValues.ValuesOverRuns | src/kernel/kernel/config/section.py:90-99 | over every run each field of every committed value is accepted or as by default |
| ConfigRuns.ReplaceKeepsOthersIff | src/kernel/kernel/config/section.py:117-142 | a write leaves all other sections as they are exactly when what it read of them is still true |
| ConfigRuns.OverlapLosesUpdate | src/kernel/kernel/config/section.py:94-98 | two overlapping writes of one file: the later one puts back what the file held of the other section |
| ConfigRuns.LossIsReachable | src/kernel/kernel/config/section.py:72-142 | a run from the start after which the file does not hold what is in memory, though nothing is under way |
| ConfigDisk.DiskAgreesIff | src/kernel/kernel/config/section.py:72-142 | over every run, overlapping or not, exactly when a committed section is on disk as it is in memory |
| ConfigRuns.ReplaceStores | src/kernel/kernel/config/section.py:117-142 | in every consistent state a write changes its own section on disk and no other |
| Gateway.NoLockWhileWaiting | src/kernel/kernel/gateways/base.py:192-197 | no handler holds a session lock in a turn or while it waits for a permission |
| Gateway.OneCreatorPerKey | src/kernel/kernel/gateways/base.py:209-218 | at most one handler per key is inside the critical section |
| Gateway.SessionsOverRuns | src/kernel/kernel/gateways/base.py:209-218 | over every interleaving at most one session is created per key, and a recorded one never changes |
| Gateway.RunKeepsFutures | src/kernel/kernel/gateways/base.py:198-203 | every permission future is resolved at most once, by a message that did nothing else or by the shutdown |
| Gateway.RepliersStayPut | src/kernel/kernel/gateways/base.py:198-203 | a message that answered a request starts no turn and takes no lock |
| Gateway.PoliteRunLosesNothing | src/kernel/kernel/gateways/base.py:369-388 | with one outstanding request per key no request is lost |
| Gateway.ReplyReachesWaiter | src/kernel/kernel/gateways/base.py:190-203 | the next message on a waiting handler's key answers it in one step, whoever holds the lock |
| PermissionReplies.AllowsIff | src/kernel/kernel/gateways/base.py:198-203 | a message allows exactly when it is one of the five words up to case, with white space around |
| PermissionReplies.AllowedIffYes | src/kernel/kernel/gateways/base.py:150-203 | over every run a request is allowed exactly when a message of its key that says so answered it; any other message and the shutdown reject |
| Gateway.StopFreesWaiters | src/kernel/kernel/gateways/base.py:150-155 | in every continuation of a shutdown a handler that waits on a request from before it has its answer |
| Gateway.AnsweredByStopIff | src/kernel/kernel/gateways/base.py:150-155 | the same over all runs, exactly for the requests that were not lost |
| Gateway.LateRequestWaits | src/kernel/kernel/gateways/base.py:150-155 | a request registered after it has no answer while no message is read |
| Gateway.RequestIsLostIff | src/kernel/kernel/gateways/base.py:369-388 | a step loses an outstanding request exactly when another handler of its key registers or resumes |
| Gateway.LostForGood | src/kernel/kernel/gateways/base.py:190-203 | nothing ever answers a lost request |
| Gateway.LostIffDisplaced | src/kernel/kernel/gateways/base.py:369-388 | over every run a request is lost exactly when it has been displaced in that way |
| Gateway.SecondRequestOverwrites | src/kernel/kernel/gateways/base.py:377-379 | a second request on the key makes the first unanswerable |
| Gateway.FirstAnswerRemovesSecond | src/kernel/kernel/gateways/base.py:380-388 | the first handler, resuming, makes the second one's request unanswerable |
| Gateway.OverwriteIsReachable | src/kernel/kernel/gateways/base.py:369-388 | a run from the start that overwrites a request |
| Gateway.RemovalIsReachable | src/kernel/kernel/gateways/base.py:369-388 | a run from the start that removes one which overwrote nothing |
| PeerSessions.KeyRoundTrip | src/kernel/kernel/gateways/base.py:408-411 | a key comes back exactly when its peer id holds no bar |
| PeerSessions.Persist | src/kernel/kernel/gateways/base.py:423-438 | the file holds each entry under its encoded key |
| PeerSessions.Load | src/kernel/kernel/gateways/base.py:400-411 | the table holds each entry of the file under its decoded key |
| PeerSessions.TableRoundTrip | src/kernel/kernel/gateways/base.py:400-438 | a table survives writing and reading exactly when no peer id holds a bar |
| Transcript.TranscriptFile.ReadAllEntries | archive/daemon/daemon/sessions/storage.py:192-224 | every entry that parses, in file order |
| Transcript.TranscriptFile.ReadChain | archive/daemon/daemon/sessions/storage.py:226-267 | the loop ends and returns the chain of the readable entries |
| Transcript.TranscriptWriter.Append | archive/daemon/daemon/sessions/storage.py:120-153 | the entry is linked to the previous one, appended, and counted; the first user text gives the title |
| Transcript.TitleIs | archive/daemon/daemon/sessions/storage.py:142-153 | the title is the first line of the first user text, up to 80 characters |
| Transcript.ResumeWriter | archive/daemon/daemon/sessions/manager.py:172-186 | a resumed writer goes on from the end of the chain and leaves the file alone |
| Transcript.ChainShape | archive/daemon/daemon/sessions/storage.py:236-267 | on any entries the chain repeats none, is linked by stored parents, ends at the last entry and cannot be extended |
| TranscriptRuns.LinkedEndIsChain | archive/daemon/daemon/sessions/storage.py:250-258 | a linked end of the file whose first entry leads to no other is the chain |
| TranscriptRuns.ChainAfterLoss | archive/daemon/daemon/sessions/storage.py:212-258 | of a damaged log the chain is exactly the readable entries after the last lost line before the final readable one |
| TranscriptCrashes.ReaderGetsHistory | archive/daemon/daemon/sessions/storage.py:134-140 | after any run of appends, failed writes and restarts the reader gets exactly the stated history |
| TranscriptCrashes.ResumedWritersKeepEverything | archive/daemon/daemon/sessions/storage.py:120-140 | appends split over any number of resumed writers are all read back, in order and linked |
| TranscriptCrashes.FailureLosesHistory | archive/daemon/daemon/sessions/storage.py:134-140 | exactly what is read after one failed write, with or without a restart, and any number of appends |
| TranscriptCrashes.HistoryIsKeptIff | archive/daemon/daemon/sessions/storage.py:134-140 | after a failed write and any appends and restarts, what is older is read exactly when nothing happened since the last entry was lost, or a restart came next |
| Conversations.Conversation.AllUnresolvedToolCalls | archive/daemon/daemon/engine/conversation.py:138-166 | the calls without a result, in order |
| Conversations.Conversation.StripOrphanedToolCalls | archive/daemon/daemon/engine/conversation.py:189-230 | the message list becomes the stripped history; the count is that of the orphans |
| Conversations.Conversation.StripCalls | archive/daemon/daemon/engine/conversation.py:201-211 | walking a snapshot and removing emptied messages by equality filters the list |
| Conversations.Conversation.RemoveEqual | archive/daemon/daemon/engine/conversation.py:210-211 | the first equal message is the one meant when none before it is equal |
| Conversations.Conversation.StripResults | archive/daemon/daemon/engine/conversation.py:213-228 | the second pass filters the tool messages |
| OrphanStripping.StripRemovesExactlyTheOrphans | archive/daemon/daemon/engine/conversation.py:189-230 | exactly the unanswered calls go, all other content stays in order, and their number is returned |
| OrphanStripping.StripTakesUnanswered | archive/daemon/daemon/engine/conversation.py:189-230 | told by the blocks: exactly the assistant's calls go whose id no tool result has, all else stays in order |
| OrphanStripping.StripLeavesNoOrphan | archive/daemon/daemon/engine/conversation.py:168-187 | nothing is unresolved afterwards, and stripping again changes nothing |
| OrphanStripping.SecondPassDropsOnlyEmpty | archive/daemon/daemon/engine/conversation.py:213-228 | the second pass drops no result: only tool messages that were empty |
| OrphanStripping.StripIsOnePass | archive/daemon/daemon/engine/conversation.py:201-228 | without empty messages both passes are one filter over the assistant messages |
| OrphanStripping.EarlierResultCounts | archive/daemon/daemon/engine/conversation.py:146-156 | a result also answers a call that comes after it |
| OrphanStripping.FindsDocumentedOrphansIff | archive/daemon/daemon/engine/conversation.py:146-166 | the calls without a later result are found exactly when every call that has a result has a later one |
| OrphanStripping.ReusedIdHidesOrphan | archive/daemon/daemon/engine/conversation.py:146-166 | a history in which a call without a later result is not found |
| OrphanStripping.EarlyStripIsHarmlessIff | archive/daemon/daemon/engine/orchestrator/orchestrator.py:247-252 | stripping before the history goes on makes no difference exactly when no later result answers a stripped call |
| Rebuild.RebuildConversation | archive/daemon/daemon/sessions/rebuild.py:71-172 | the conversation holds the rebuilt history under the policy, stripped |
| Rebuild.AddEntry | archive/daemon/daemon/sessions/rebuild.py:108-162 | what one entry adds under each policy |
| Rebuild.ResultUnderPolicies | archive/daemon/daemon/sessions/rebuild.py:128-150 | real results are the same under all policies; made-up ones are kept, left out, or marked with when and in which phase |
| Rebuild.HiddenIff | archive/daemon/daemon/sessions/rebuild.py:97-105 | the hidden ids are exactly those with a made-up result |
| Rebuild.RestoredIs | archive/daemon/daemon/sessions/rebuild.py:112-127 | texts and the calls that are not hidden are restored, each in its place |
| ResumedHistory.LiveAgreesIff | archive/daemon/daemon/engine/orchestrator/orchestrator.py:247-254 | over every run of events and resumes the live history and the unstripped one agree once stripped, exactly when no stripped call got a result |
| ResumedHistory.ResumeRebuildsLiveIff | archive/daemon/daemon/sessions/rebuild.py:106-172 | the rebuilt history is the live one, stripped, exactly then |
| ResumedHistory.ResumeFromFileRebuildsLiveIff | archive/daemon/daemon/sessions/manager.py:172-186 | the same from the file that any number of resumed writers left |
| ResumedHistory.ResumedIsRebuilt | archive/daemon/daemon/sessions/manager.py:172-196 | a resumed session begins with what is rebuilt, so that resuming it once more changes nothing |
| ResumedHistory.ReusedIdMakesResumeDiffer | archive/daemon/daemon/engine/orchestrator/orchestrator.py:247-254 | a run in which a second call has the id of a stripped one, and the two histories differ |
| ResumedHistory.HiddenCallsLeaveNoTraceIff | archive/daemon/daemon/sessions/rebuild.py:97-141 | hidden calls leave neither call nor result exactly when none of them also has a real result |
| ResumedHistory.RealResultOutlivesCall | archive/daemon/daemon/sessions/rebuild.py:97-141 | a call with a real and a made-up result: its real result stays without it |
| MarkdownSections.AppendToSection | archive/daemon/daemon/memory/markdown_utils.py:55-111 | the text is the lines with the bullet put at the end of the section |
| MarkdownSections.SplitLinesUndoesJoin | archive/daemon/daemon/memory/markdown_utils.py:71-111 | lines that were written are read as the same lines |
| MarkdownSections.AppendInsertsOneLine | archive/daemon/daemon/memory/markdown_utils.py:55-111 | blank lines aside, exactly one line goes in at the end of the first matching section, or a heading and a line at the end |
| MarkdownSections.RepeatedAppendsKeepOrder | archive/daemon/daemon/memory/markdown_utils.py:55-68 | bullets appended one after the other to one section stand there in this order |
| MarkdownSections.AppendsCommuteIff | archive/daemon/daemon/memory/markdown_utils.py:89-94 | appends to two sections commute exactly when the first ends before the second heading, or the bullets are equal |
| MarkdownSections.TextAppendsCommuteIff | archive/daemon/daemon/memory/markdown_utils.py:55-111 | the same for texts, up to blank lines |
| MarkdownSections.IndentedHeadingDoesNotCommute | archive/daemon/daemon/memory/markdown_utils.py:55-94 | texts with an indented second heading, for which the two orders differ |
| MarkdownSections.UnindentedHeadingEndsSection | archive/daemon/daemon/memory/markdown_utils.py:89-94 | an unindented heading ends the section before it |
| MemoryFiles.ReadWritten | archive/daemon/daemon/memory/markdown_utils.py:29-52 | reading a written file gives its header, and its body with the line ends of text mode |
| MemoryFiles.SplitAsWritten | archive/daemon/daemon/memory/markdown_utils.py:29-52 | a text with a delimiter in front and a first line that begins with one gives that header and body |
| MemoryFiles.HeaderIsSplit | archive/daemon/daemon/memory/markdown_utils.py:29-52 | no other text has a header |
| MemoryFiles.LineEnds | archive/daemon/daemon/memory/store.py:125-150 | reading in text mode ends a line at each carriage return, alone or with a line feed |
| MemoryFiles.BodyIsReadBackIff | archive/daemon/daemon/memory/markdown_utils.py:137-158 | the body is read back up to outer white space exactly when it has no carriage return inside |
| MemoryStores.WrittenIsReadBack | archive/daemon/daemon/memory/markdown_utils.py:114-158 | what a written file gives when it is read: the header, and the body behind a blank line |
| MemoryStores.MemoryStore.Load | archive/daemon/daemon/memory/store.py:125-150 | the cache holds exactly the files that parse, and the index renders it |
| MemoryStores.FilenameIff | archive/daemon/daemon/memory/paths.py:30-43 | the names that are taken: the suffix, no slash, no leading dot and no two in a row |
| MemoryStores.MemoryStore.Write | archive/daemon/daemon/memory/store.py:191-235 | file, cache, index and log after a write, or unchanged with the reason of the refusal |
| MemoryStores.MemoryStore.Append | archive/daemon/daemon/memory/store.py:237-281 | the same for a bullet appended to an aggregate file |
| MemoryStores.MemoryStore.Delete | archive/daemon/daemon/memory/store.py:283-300 | the same for a removal |
| MemoryStores.FreshLoadFindsAll | archive/daemon/daemon/memory/store.py:125-152 | after any run a fresh load finds the same keys and headers |
| MemoryStores.FreshLoadAgreesIff | archive/daemon/daemon/memory/store.py:125-152 | and the same bodies up to outer white space exactly when no body has a carriage return inside |
| ToolCallAssembly.Stream | archive/daemon/daemon/providers/openai_base.py:195-262 | the loop emits the calls of the fragments held at each finishing chunk |
| ToolCallAssembly.Accumulate | archive/daemon/daemon/providers/openai_base.py:226-246 | the dictionary holds, for each index, the call that its own fragments make |
| ToolCallAssembly.LastOnesCount | archive/daemon/daemon/providers/openai_base.py:240-244 | a call's id and name are each the last non-empty one among its fragments |
| ToolCallAssembly.ArgumentsAreJoined | archive/daemon/daemon/providers/openai_base.py:245-246 | a call's arguments are those of its fragments, in the order in which they came |
| ToolCallAssembly.OwnFragments | archive/daemon/daemon/providers/openai_base.py:226-239 | the fragments of a call are exactly those that carry its index, in order |
| ToolCallAssembly.InterleavingDoesNotMatter | archive/daemon/daemon/providers/openai_base.py:195-262 | streams with the same fragments per index emit the same calls, however interleaved and cut |
| ToolCallAssembly.CallsAreOnePerIndex | archive/daemon/daemon/providers/openai_base.py:248-262 | one call per index that occurs, in increasing order, made of exactly its own fragments |
| ToolCallAssembly.EachStretchEmitsItsCalls | archive/daemon/daemon/providers/openai_base.py:248-262 | each stretch of chunks up to a finishing one emits the calls of its own fragments |
| ToolCallAssembly.UnfinishedCallsAreLost | archive/daemon/daemon/providers/openai_base.py:249-250 | chunks that do not finish emit nothing |
| ToolCallAssembly.CallsAfterEndAreLost | archive/daemon/daemon/providers/openai_base.py:248-262 | of every stream exactly the calls behind its last finishing chunk are lost |
| ToolCallAssembly.NoneIsLostIff | archive/daemon/daemon/providers/openai_base.py:248-262 | none is lost exactly when no fragment with an index follows that chunk |
| AcpClients.AcpClient.SendRequest | src/cli/src/acp/client.ts:224-259 | a request gets the next id, an entry, a timer if it has one, and an unsettled promise if it could be sent |
| AcpClients.AcpClient.RouteResponse | src/cli/src/acp/client.ts:161-173 | a response settles the request with its id if that waits, and nothing else |
| AcpClients.AcpClient.TimerFires | src/cli/src/acp/client.ts:246-255 | a timer that was not cleared settles its own request |
| AcpClients.RequestSettlesWithFirstMatch | src/cli/src/acp/client.ts:161-259 | over every interleaving a request is settled once, by the first response with its id or its own timer |
| AcpClients.WhatSettles | src/cli/src/acp/client.ts:161-173 | a result settles the request as that result, an error as a failure with its code and message, the timer as timed out |
| AcpClients.PendingAreUnsettled | src/cli/src/acp/client.ts:235-257 | the pending table holds exactly the unsettled ids when every send works |
| AcpClients.FailedSendStaysPending | src/cli/src/acp/client.ts:235-257 | a request that could not be sent is settled and stays in the table |
| AcpClients.FailedSendLeavesIff | src/cli/src/acp/client.ts:161-259 | its entry leaves exactly with the first response to it or its timer |
| AcpClients.TableIsExactIff | src/cli/src/acp/client.ts:161-259 | over every run the table is exact unless such an entry is left over |
| AcpClients.FailClosedRefuses | src/cli/src/acp/client.ts:330-338 | without an answer only a refusal is selected, and the request is cancelled exactly when it offers none |
| AcpClients.FailClosedPrefersKind | src/cli/src/acp/client.ts:330-338 | the first option whose kind rejects is taken, else the first whose id does, else the one to deny |
| PermissionQueues.PermissionQueue.EnqueueTask | src/cli/src/permissions/queue.ts:4-8 | a task is chained behind the tail, and becomes the tail |
| PermissionQueues.TasksRunOneByOne | src/cli/src/permissions/queue.ts:1-9 | tasks run in the order they were enqueued, without overlap, also behind one that rejects |
| SessionPicker.HasLetters | src/cli/src/sessions/picker.ts:17-26 | the greedy loop finds the letters exactly when the query is a subsequence of the text |
| SessionPicker.FilterSessions | src/cli/src/sessions/picker.ts:14-27 | the sessions whose text holds the query as a subsequence, in their order |
| SessionPicker.ShownIff | src/cli/src/sessions/picker.ts:14-27 | a session is shown when the letters of the trimmed query stand in its title, directory and id in order, whatever their case |
| SessionPicker.PickerState.MovePickerSelection | src/cli/src/sessions/picker.ts:29-36 | every move on a non-empty list ends inside it, as near to its aim as that allows |
| SessionPicker.SelectedIsOnPageIff | src/cli/src/sessions/picker.ts:38-50 | the page shows the selected session in its place exactly when the selection is in the list |

## Left out

- The LLM summarisation layer of compaction: it is one opaque call. Its boundary entries are rebuilt, but the theorems
  on live against resumed history are for histories without them, because rebuilding keeps the older messages.
- Compaction within a session that is resumed later: snipping and micro-compaction change the live messages and write
  no entry, so the theorems on live against resumed history are for sessions in which no layer of compaction ran.
- Images: their data is opaque text in messages, and transcript entries carry none.
- YAML, JSON and pydantic: opaque printers, parsers and per-field acceptance; value coercion and nested models in
  configuration sections are not modelled.
- scrypt: an opaque function; so are random salts, uuids, timestamps and file modes.
- `int()` on digits outside ASCII, and Python's limit on the length of numerals it converts; lower-casing outside ASCII.
- The 50 MB limit of the transcript reader, decoding errors of a torn multi-byte character, and `read_tail`.
- `${secret:...}` expansion and `parse_cli_overrides`; the order of entries within merged mappings.
- Cancellation of gateway handlers and of configuration updates; what commands and turns do.
- Access counting, file sizes, symbolic links and the layout of `index.md` in the memory store; the order in which a
  fresh load lists records that sort equally.
- The text and reasoning events of a model stream, its errors, and the parsing of call arguments as JSON.
- Update handlers, permission handlers and connection set-up of the client; the 50 ms drain after a prompt.
- Characters outside the basic plane in the session filter.
- ConfigSection.Section.Update: for updates that do not overlap others of the same file; overlapping ones are in `ConfigRuns`.
- Conversations.Conversation.StripCalls: each message is one object of its own; a list that holds one object twice is not modelled.
- AcpClients.PendingAreUnsettled: exact when every send works; for the other runs the exact condition is in `AcpClients.TableIsExactIff`.

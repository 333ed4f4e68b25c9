# ByteBucket: models and proofs of its stateful cores

ByteBucket is a single-node S3 store. This project models the parts of it that keep state or transform names, one Dafny
module (or a specification and a class that implements it) per part, and proves what they promise. Byte strings are
sequences of characters below 256, instants and durations are integers handed to each call, MD5, CRC and the lock hash are
arbitrary total functions, the filesystem is a map from names to contents (or a set of files and directories), and a bolt
bucket is a sequence of records in key order.

| modules | what they model |
|---|---|
| `Commit`, `TornUploads` | uploads and deletes as a step system over any number of threads, keys and stripes (`ObjectTree` is the code of one operation), and why temp-like keys are excluded |
| `Collapse` | what a delete removes from the directory tree |
| `Listing`, `Base64` | rollup, merge, cursor, truncation and token of a listing, and the conversation of a paging client |
| `BanTable`, `BanRuns`, `BanStore` | failure and ban tables: specification, theorems about whole runs, and the class proved against it |
| `SessionTable`, `SessionStore` | the admin session table with LRU eviction, specification and class |
| `FailureLimiter` | the credential failure limiter, specification and class |
| `MultipartSpec`, `MultipartStore` | multipart uploads: last-write map, and the staging directories that implement it |
| `Names`, `Paths` | key validation, sidecar names, lexical path cleaning and the contained join |
| `EventLog`, `Flusher` | the pruned, paged event log, and the channel with its batching flusher |
| `SampleStore`, `RequestSeries` | per-minute samples, and the request chart's windows and sums |
| `GoStrings`, `Decimal`, `BigEndian`, `Maps`, `Wrappers` | string, number and map facts the others use |

Where a table evicts, the choice among equally old entries is left open, as Go's map order leaves it; a class method
returns its choice as a ghost and the specification accepts any legal one. Beside each specification function that a method
is proved against stands a lemma, or a clause of the method, that says what it computes in terms of the fields alone.

## Where the code does not do what its text says

- Keys whose last segment looks like `.upload-7` (a 32-bit number, no leading zero) pass validation although the upload path
  uses such names for its temp files (internal/handlers/object.go:154). The pair theorems of `Commit` therefore speak of all
  other keys, and `TempKeyTears` shows for every key of that shape a run that tears its neighbour. `IsTemp` is the condition.
- Completing a multipart upload of `x` assembles the object in `x.mpu.tmp` beside it (internal/storage/multipart.go:336). That
  is an acceptable key, so an object stored under it, say `x.mpu.tmp` itself, is destroyed, and its sidecar stays behind;
  a completion that fails while streaming destroys it too. Other objects survive exactly when there is none at that key
  (`OthersSurviveIff`, `CompletingLosesAnObject`).
- The caps of the session table and the failure limiter, and the ban store's, hold as max(cap, 1): with a cap of zero one entry is still
  stored (`ZeroCapacityHoldsOne`, `ZeroLimitHoldsOne`).
- `before` in a log query excludes every event with the same timestamp, so paging visits everything exactly when timestamps
  are distinct (`OneAtATimeIsCompleteIffDistinct`); a timestamp of zero makes it start over for ever (`ZeroTimeNeverEnds`).
- Event keys are chronological only among timestamps of one sign (`KeysChronologicalIffSameSign`); the pruning theorems ask
  for timestamps that are not negative.
- The chart's offset times its window is an int64 product; beyond 2^63 nanoseconds it wraps and the window is elsewhere
  (`WindowIsInPlaceIff`).
- A sample query with a negative start returns nothing stored after 1970 (`QueryIsExactIff`), and the chart is all zeros then,
  unless nothing is stored before its end.
- A flusher that has stopped leaves later arrivals in the channel; everything accepted before the cancel is written
  (`ShutdownLosesNothing`, `LateEventsAreStranded`).

## Model

| member | source | states |
|---|---|---|
| `Commit.InterleavingLooksSequential` | internal/handlers/object.go:117-147 | For every interleaving of any number of uploads and deletes, a key whose stripe is free has the data file and sidecar that the operations give one at a time in lock order |
| `Commit.QuiescentIsSequential` | internal/handlers/object.go:153-210 | Whenever no lock is held the whole tree equals the sequential one: no operation leaves a temp file behind, no other name has moved |
| `Commit.NeverTorn` | internal/handlers/object.go:117-147 | A key whose stripe is free has data and sidecar both absent, or both present with ETag, CRC and Content-Length of exactly those bytes |
| `Commit.LastOperationIsStored` | internal/handlers/object.go:117-147 | Over every run, when the stripe of a key is free it has what the last logged operation on it left: the uploaded body and a sidecar with the upload's metadata and the three computed entries, or nothing |
| `Commit.UntouchedIsUnchanged` | internal/handlers/object.go:117-147 | A key no logged operation was about has the files it had at the start |
| `Commit.LoggedWasInvoked` | internal/handlers/locks.go:23-31 | Every logged operation was invoked, with that path, body and metadata |
| `Commit.ReplyDescribesBody` | internal/handlers/object.go:146 | What an upload answers is the ETag and size of its own body, whatever runs beside it |
| `Commit.LogRespectsRealTime` | internal/handlers/locks.go:23-31 | The lock order extends real time: an operation not yet under its lock is placed after everything already logged |
| `Commit.StepKeepsInv` | internal/handlers/object.go:153-210 | Every step of every thread keeps the invariant that ties the files in flight to the sequential store |
| `Commit.HoldingStepKeepsInv` | internal/handlers/locks.go:8-21 | A step under a lock that changes only its own object, sidecar and temp name disturbs no other thread |
| `Commit.SequentialKeepsPairs` | internal/handlers/object.go:447-501 | Run one after the other, uploads and deletes never separate an object from its sidecar |
| `TornUploads.TempKeyTears` | internal/handlers/object.go:154 | The exclusion of temp-like keys is needed: for every key p whose last segment is a name os.CreateTemp can draw, and every q beside it on another stripe, there is a run of two uploads after which q is torn with no lock held |
| `Commit.ObjectTree.StreamToObject` | internal/handlers/object.go:153-210 | Streams in chunks through a temp file: only the destination changes, to the bytes sent; ETag, CRC and size are of those bytes |
| `Commit.ObjectTree.FinalizeObjectWrite` | internal/handlers/object.go:117-147 | The upload path is one Put of the sequential store: the body is at the destination, and beside it a sidecar with ETag, CRC and length of the body and every other entry exactly as the upload came with; no other file changes; returns ETag and size of the body |
| `Commit.ObjectTree.RemoveObject` | internal/handlers/object.go:475-483 | The delete path is one Delete of the sequential store: data file and sidecar are gone, no other file changes |
| `Collapse.DeleteIsBelowBucket` | internal/handlers/object.go:456-463 | A path joined under the bucket directory lies strictly below it |
| `Collapse.MetaOfIsText` | internal/handlers/object.go:483 | The sidecar a delete removes is the object's path with .meta behind it |
| `Collapse.Tree.CollapseParents` | internal/handlers/object.go:488-498 | The loop ends; what it removed is a chain of directories strictly between object and bucket with nothing in them but each other; it stopped at the bucket, a missing directory or a non-empty one |
| `Collapse.Tree.Remove` | internal/handlers/object.go:475 | Removes a file or an empty directory and nothing else; reports a missing name, a directory with entries, and a path that leads through a file |
| `Collapse.Tree.RemoveObject` | internal/handlers/object.go:453-501 | Fails, changing nothing, exactly for a key below an object and a key naming a non-empty directory; otherwise exactly the data file, the sidecar and the emptied directories go, every remaining entry keeps its parent and the bucket stays |
| `Collapse.RemovalKeepsRooted` | internal/handlers/object.go:485-487 | Removing a hollow chain leaves no entry without its parent directory |
| `Listing.PagingIsComplete` | internal/handlers/bucket.go:350-467 | On an unchanging bucket, following each token (or marker) from no cursor with any max-keys texts terminates and the pages concatenate to exactly the one-shot listing |
| `Listing.ConversationCoversRest` | internal/handlers/bucket.go:450-467 | From any cursor the pages of a conversation are exactly what lies after it, in at most as many pages as items |
| `Listing.PageProgress` | internal/handlers/bucket.go:461-467 | A truncated page is full, its last key is not empty, and page plus what follows the last key is what was left |
| `Listing.NextRequestNamesLastKey` | internal/handlers/bucket.go:621-623 | The next request of a v1, v2 or marker client resumes at the key the page ended with |
| `Listing.TokenNamesLastKey` | internal/handlers/bucket.go:644-663 | The token a page hands out comes back as that page's last key |
| `Listing.EachKeyRepresentedOnce` | internal/handlers/bucket.go:408-423 | Every visible key with the prefix is represented by exactly one item: itself or the common prefix ending at its first delimiter |
| `Listing.CommonPrefixesAreReal` | internal/handlers/bucket.go:414-420 | Every common prefix is prefix, delimiter-free text and delimiter, stands for some key that may be shown, and equals no listed object's key |
| `Listing.ObjectsAreReal` | internal/handlers/bucket.go:380-423 | Every listed object is a file the walk met, with the prefix, no sidecar, and with no delimiter after the prefix |
| `Listing.FileNameIs` | internal/handlers/bucket.go:384 | The name the sidecar filter looks at is what follows the key's last slash |
| `Listing.ObjectIsNoPrefix` | internal/handlers/bucket.go:414-422 | A key that is not rolled up never equals a common prefix |
| `Listing.ListingUnique` | internal/handlers/bucket.go:425-449 | The declarative listing (strictly increasing, exactly the items of the walk) determines one sequence |
| `Listing.FilterAndRollUp` | internal/handlers/bucket.go:408-423 | The filter loop builds the two arms: the object items in walk order and the set of common prefixes |
| `Listing.Merge` | internal/handlers/bucket.go:425-449 | Merging and sorting the arms gives the listing: strictly increasing, one item for each thing the walk shows |
| `Listing.CutAfter` | internal/handlers/bucket.go:450-459 | The seek drops exactly the items at or before the cursor |
| `Listing.ListObjects` | internal/handlers/bucket.go:329-467 | For the cursor the request names (the token decoded, else start-after in v2, else the marker) the page holds, in order, all listing items above it, or the first max-keys of them and the last one's key |
| `Listing.PageSelects` | internal/handlers/bucket.go:450-467 | That, for every listing, size and cursor, also one that is no item's key |
| `Listing.OneAnswer` | internal/handlers/bucket.go:450-467 | For one walk and one request there is exactly one such page |
| `Listing.ParseMaxKeys` | internal/handlers/bucket.go:630-642 | Always in 1..1000; a legal number is taken as it is, anything else gives 1000 or the ceiling |
| `Base64.RoundTrip` | internal/handlers/bucket.go:647-663 | Decoding an encoded key gives the key back, for every byte string (section 5 of RFC 4648) |
| `Base64.EncodeEmpty` | internal/handlers/bucket.go:652-654 | Only the empty key has an empty token |
| `Base64.SymbolTable` | internal/handlers/bucket.go:648 | The URL-safe alphabet (table 2 in section 5 of RFC 4648) |
| `Base64.EncodingShape` | internal/handlers/bucket.go:648 | Four characters for every three bytes begun, padded at the end and nowhere else |
| `Base64.NewlinesIgnored` | internal/handlers/bucket.go:655 | Line breaks anywhere in a token are ignored |
| `BanRuns.WindowBound` | internal/middleware/ipban.go:122-125 | In any closed span of one window in which an IP is not banned it records at most 2*max-2 failures, over every run about all IPs |
| `BanRuns.WindowBoundIsReached` | internal/middleware/ipban.go:122-125 | For every configuration and IP a run reaches that bound |
| `BanRuns.BanIsExact` | internal/middleware/ipban.go:170-212 | A ban imposed at n is in force at every call in [n, n+ban) and lifted at the first call from n+ban on, whatever calls and sweeps come between |
| `BanRuns.JanitorUnobservable` | internal/middleware/ipban.go:244-260 | Two runs that differ only in their sweeps, any number anywhere, give the same answers about an IP that neither evicts |
| `BanRuns.SweepsUnobservable` | internal/middleware/ipban.go:244-275 | Any sweeps inserted anywhere into a run that never inserts at the cap leave it legal and change no answer about any IP; nothing is asked of the run with the sweeps |
| `BanRuns.OneSweepUnobservable` | internal/middleware/ipban.go:244-260 | In particular one sweep between any two calls |
| `BanTable.ZeroLimitHoldsOne` | internal/middleware/ipban.go:192-226 | With a limit of zero one counter or ban is held all the same: the cap is max(limit, 1) |
| `BanRuns.TablesRefineMachine` | internal/middleware/ipban.go:170-227 | The two lazily cleaned tables answer each IP as an unbounded per-IP machine that knows only live windows and bans |
| `BanTable.RunKeepsInv` | internal/middleware/ipban.go:192-227 | In every reachable state both tables respect their cap, share no key, and every count is in 1..max-1 |
| `BanTable.StepKeepsInv` | internal/middleware/ipban.go:158-260 | Each of the operations keeps that invariant |
| `BanTable.FailureMeans` | internal/middleware/ipban.go:192-227 | What one failure does to the tables and answers: ignored during a ban; otherwise counted from the live counter or from one, at the threshold a ban of full length; an entry of another IP goes only if its table is at the cap, and it is an earliest one |
| `BanStore.OldestFailKey` | internal/middleware/ipban.go:232-242 | The scan returns a key with an earliest window start |
| `BanStore.OldestBanKey` | internal/middleware/ipban.go:232-242 | The scan returns a key with an earliest ban expiry |
| `BanStore.Store.SetConfig` | internal/middleware/ipban.go:158-166 | New thresholds from the configuration's own fields, in seconds, both tables flushed |
| `BanStore.Store.ApplyConfig` | internal/middleware/ipban.go:95-107 | Each field of the configuration is taken if in range and replaced by its own default (20, 60 s, 900 s) if not; both tables are flushed |
| `BanStore.Store.IsBanned` | internal/middleware/ipban.go:170-186 | Banned exactly until the expiry; an expired ban goes, nothing else changes |
| `BanStore.Store.FailEntry` | internal/middleware/ipban.go:216-227 | Reuses a running window or opens a fresh one, evicting an oldest entry only to insert a new key at the cap |
| `BanStore.Store.RecordFailure` | internal/middleware/ipban.go:192-212 | Answers and changes the tables as the specified failure event, with a legal choice of victims |
| `BanStore.Store.Sweep` | internal/middleware/ipban.go:246-260 | Drops exactly the elapsed windows and expired bans |
| `SessionTable.LruSurvival` | internal/auth/session.go:71-110 | Over every run an unexpired, unrevoked session is stored unless at least capacity others were created or looked up no earlier than it was last used; the table respects its cap |
| `SessionTable.ZeroCapacityHoldsOne` | internal/auth/session.go:79-85 | With a capacity of zero one session is held all the same: the cap is max(capacity, 1) |
| `SessionTable.LookupIsRight` | internal/auth/session.go:91-110 | A lookup after any run finds only a live session with the access key it was created for, and finds every one not crowded out |
| `SessionTable.LookupIsInTime` | internal/auth/session.go:91-122 | Over every run a lookup finds a session only if not revoked, created less than the absolute timeout ago and last used less than the idle timeout ago, and finds every such session that fewer than capacity others were used no earlier than |
| `SessionTable.LedgerIs` | internal/auth/session.go:71-118 | Each call changes only its own session's times: creating starts both, a found lookup moves the last use, revoking neither |
| `SessionTable.EvictsOnlyWhenFull` | internal/auth/session.go:76-86 | An unexpired session is evicted only when capacity unexpired ones are held, and then it is a least recently used one |
| `SessionTable.RunKeepsInv` | internal/auth/session.go:71-118 | Every run keeps the table in step with an unbounded ledger of all sessions |
| `SessionTable.VictimIsCrowdedOut` | internal/auth/session.go:135-146 | A least recently used victim of a full table has capacity others used no earlier |
| `SessionStore.Store.Create` | internal/auth/session.go:71-87 | Prunes, then evicts a least recently used session if still full, then stores the new one |
| `SessionStore.Store.Lookup` | internal/auth/session.go:91-110 | Found exactly if the token has the right length and its session is within both timeouts; then only its last use moves; an expired session goes, no other changes |
| `SessionStore.Store.Revoke` | internal/auth/session.go:113-118 | Deletes exactly that session |
| `SessionStore.Store.Prune` | internal/auth/session.go:125-131 | Leaves exactly the sessions within both timeouts |
| `SessionStore.Store.EvictLRU` | internal/auth/session.go:135-146 | Removes one session, with an earliest last use |
| `FailureLimiter.LockoutIsExact` | internal/auth/limiter.go:47-79 | A window opened at t counts every failure before t+window and locks out from the threshold until exactly t+window; no failure moves that end |
| `FailureLimiter.ResetStartsAfresh` | internal/auth/limiter.go:81-86 | After a reset the key is not locked out and its next failure counts from one; every other window is unchanged |
| `FailureLimiter.WindowCounts` | internal/auth/limiter.go:62-79 | Through any undisturbed run a window keeps its start and counts each failure once |
| `FailureLimiter.EvictsOnlyWhenFull` | internal/auth/limiter.go:71-77 | A running window is thrown out only when capacity running ones are held, and it is an oldest one |
| `FailureLimiter.Bounded` | internal/auth/limiter.go:72-78 | Over every run the table respects its cap |
| `FailureLimiter.ZeroCapacityHoldsOne` | internal/auth/limiter.go:72-78 | With a capacity of zero one window is held all the same: the cap is max(capacity, 1) |
| `FailureLimiter.Limiter.IsBlocked` | internal/auth/limiter.go:48-60 | Answers blocked, with the time left, exactly as specified |
| `FailureLimiter.Limiter.RecordFailure` | internal/auth/limiter.go:63-79 | Changes the table as the specified failure event, with a legal victim |
| `FailureLimiter.Limiter.EvictOldest` | internal/auth/limiter.go:98-109 | Removes one window, with an earliest start |
| `FailureLimiter.Limiter.Prune` | internal/auth/limiter.go:89-95 | Leaves exactly the running windows |
| `FailureLimiter.Limiter.Forget` | internal/auth/limiter.go:82-86 | Forgets exactly that key, which is then not locked out |
| `MultipartSpec.LastWriteWins` | internal/storage/multipart.go:169-211 | Over every run of create, upload, complete and abort, a live upload holds under each number exactly the last body uploaded there |
| `MultipartSpec.CompleteSucceedsExactly` | internal/storage/multipart.go:290-325 | Completing after any run succeeds if and only if the upload is live for that bucket and key and the list is non-empty, strictly ascending and matches each part's last upload |
| `MultipartSpec.EchoedETagMatches` | internal/storage/multipart.go:411-415 | The ETag a part upload returned matches, with or without its quotes |
| `MultipartSpec.UploadIsAsCreated` | internal/storage/multipart.go:91-117 | Over every run a live upload has the bucket, key and metadata it was created with |
| `MultipartSpec.PartETagIs` | internal/storage/multipart.go:204 | A part's ETag is its MD5 in lower-case hexadecimal, in quotes |
| `MultipartSpec.HexIs` | internal/storage/multipart.go:275 | Each byte is its two hexadecimal digits, high one first |
| `MultipartSpec.NormalizeIs` | internal/storage/multipart.go:411-415 | Normalizing an ETag removes all quotes at both ends and nothing else |
| `MultipartSpec.FlattenCuts` | internal/storage/multipart.go:341-352 | The assembled bytes are the parts one behind the other, nothing between, before or after |
| `MultipartSpec.CompositeIs` | internal/storage/multipart.go:362 | The composite ETag is the quoted hexadecimal MD5 of the parts' digests one behind the other, a dash and the number of parts |
| `MultipartStore.Validate` | internal/storage/multipart.go:295-325 | An empty list is InvalidPart, one not strictly ascending InvalidPartOrder, a mismatch InvalidPart, in that order; otherwise good |
| `MultipartStore.MatchesMeans` | internal/storage/multipart.go:317-325 | A listed part matches for its MD5 in hexadecimal, quoted or not, and only for texts that are it once quotes are off |
| `MultipartStore.ListParts` | internal/storage/multipart.go:224-261 | Exactly the uploaded part map, ascending, with ETag and size of the stored bytes; never the manifest or a temp file |
| `MultipartStore.SortOfAscending` | internal/storage/multipart.go:81-83 | Because names are zero-padded the final sort has nothing to do |
| `MultipartStore.PartNameFacts` | internal/storage/multipart.go:84-86 | A part's file name parses back to its number and is never the manifest or a temp name |
| `MultipartStore.PartNameOrder` | internal/storage/multipart.go:81-86 | Lexical order of part file names is numeric order, and different parts have different files |
| `MultipartStore.Assemble` | internal/storage/multipart.go:341-352 | The streamed object is the concatenation of the parts opened; size is its length, ETag is H(concat H(part))-n of exactly those bytes, even if a part was replaced after validation |
| `MultipartStore.QuietCompletion` | internal/storage/multipart.go:327-352 | If nothing disturbs the staging directory, what is streamed is the last body uploaded under each listed number |
| `MultipartStore.RenameStoresPart` | internal/storage/multipart.go:182-203 | Temp file and rename change the part map at exactly that number |
| `MultipartStore.Store.Open` | internal/storage/multipart.go:144-167 | Succeeds exactly for a live upload of that bucket and key |
| `MultipartStore.Store.CreateUpload` | internal/storage/multipart.go:91-117 | A new live upload without parts, or the error for missing names |
| `MultipartStore.Store.UploadPart` | internal/storage/multipart.go:173-211 | Range error, no such upload, or the part map updated at that number and the ETag and size of the body returned |
| `MultipartStore.Store.CompleteUpload` | internal/storage/multipart.go:290-388 | On success the object is the parts as opened one behind the other, the ETag answered is their composite, the sidecar holds it, the object's length, the number of parts and the metadata of the creation, the upload and whatever lay at the temp path are gone; an error before streaming changes nothing, one while streaming removes only what lay at the temp path |
| `MultipartStore.Store.Finish` | internal/storage/multipart.go:333-387 | The same for what follows the checks |
| `MultipartStore.Store.Check` | internal/storage/multipart.go:291-332 | Passes exactly when the completion would start to write; otherwise gives the answer of the completion |
| `MultipartStore.Store.Stream` | internal/storage/multipart.go:336-360 | The assembled bytes are in the temp file, or a part is gone and the temp file with it |
| `MultipartStore.OthersSurviveIff` | internal/storage/multipart.go:336-360 | Every other object survives a completion, and a completion that fails while streaming changes nothing, if and only if no object is stored under the key with ".mpu.tmp" appended |
| `MultipartStore.CompletingLosesAnObject` | internal/storage/multipart.go:336-360 | For one: an object stored as x.mpu.tmp does not survive completing an upload of x |
| `MultipartStore.Store.AbortUpload` | internal/storage/multipart.go:420-426 | Removes exactly that upload, or reports that there is none |
| `Decimal.Pad5RoundTrip` | internal/storage/multipart.go:84-86 | Parsing a five-digit padded number gives it back |
| `Decimal.Pad5Order` | internal/storage/multipart.go:81-86 | Padded numbers compare as numbers |
| `Decimal.AtoiReads` | internal/handlers/bucket.go:634 | A decimal number, signed or not, is read back as far as an int64 goes |
| `Decimal.AtoiRefuses` | internal/handlers/bucket.go:634 | Nothing but an optional sign and digits is read |
| `Names.ValidateObjectKey` | internal/storage/names.go:91-130 | Returns the key without one leading slash exactly when it is non-empty, free of control bytes, valid UTF-8 and of safe segments |
| `Names.ValidatedIsAccepted` | internal/storage/names.go:91-130 | Everything validation returns is an accepted key |
| `Names.ValidatedMeans` | internal/storage/names.go:91-149 | Accepted exactly if not empty, free of control bytes, UTF-8 and, without one leading slash, of segments none of which is empty, a dot, a climb, a configuration file or a sidecar name; the result is the key without that slash |
| `Names.ValidUtf8Means` | internal/storage/names.go:107-113 | Valid UTF-8 is exactly the shortest encoding of some scalar values: no overlong form |
| `Names.BucketNameIs` | internal/storage/names.go:24-59 | A bucket name is 1 to 63 lower-case letters, digits and single hyphens, none at either end |
| `Names.AcceptedIsClean` | internal/storage/names.go:78-90 | Path cleaning leaves an accepted key unchanged and its segments are all real |
| `Names.PathsNeverCoincide` | internal/storage/names.go:61-76 | Data, .meta and .tags.json paths of any accepted keys of any buckets coincide only if bucket, key and suffix all do |
| `Names.NoFileBelowASidecar` | internal/storage/names.go:61-76 | No sidecar path is a directory on the way to another object's file or sidecar |
| `Names.BucketConfigIsApart` | internal/storage/names.go:68-76 | No data or sidecar path is a bucket's .acl.json or .cors.json |
| `Names.ListingHidesExactlySidecars` | internal/handlers/bucket.go:318-322 | The listing filter hides every sidecar of an accepted key and never the key itself |
| `Names.SidecarIsUnsafe` | internal/handlers/bucket.go:318-322 | The listing filter hides exactly the segment names validation rejects |
| `Names.DataPathIsNoSidecar` | internal/storage/names.go:136-149 | The data path of an accepted key is no .meta path, which is what the commit protocol needs |
| `Names.CompletionTempIsAKey` | internal/storage/multipart.go:336 | The temp path of a completion is the path of another acceptable key, whatever the key |
| `Names.CompletionTempIsValidated` | internal/storage/multipart.go:336 | Validation accepts that other key whenever it accepts the key |
| `Names.BucketIsOneSegment` | internal/storage/names.go:51-59 | A valid bucket name is a single real path segment |
| `Paths.SafeJoin` | internal/storage/names.go:161-170 | The loop computes the specified join |
| `Paths.SafeJoinExtends` | internal/storage/names.go:155-170 | Succeeds if and only if every name is relative, not empty and never climbs out; the result is the base extended by exactly their segments, at least one each |
| `Paths.SafeJoinInTwoCalls` | internal/storage/names.go:161-170 | Joining in one call or in two gives the same path or the same refusal |
| `Paths.UploadAndDeleteLockTheSameStripe` | internal/handlers/object.go:456-466 | The path an upload locks and the path a delete locks are the same string |
| `Paths.RefusedMeaning` | internal/storage/names.go:164 | The two checks on a name mean: relative, names something, never climbs |
| `Paths.RefusedIffNotBelow` | internal/storage/names.go:155-166 | A name is refused exactly if it is absolute or does not lead, from every directory alike, to a place strictly below it |
| `Paths.CleanNamesTheSame` | internal/storage/names.go:167 | Cleaning a path does not change where it leads, from any directory |
| `Paths.DirIsParent` | internal/handlers/object.go:488 | The parent directory of a rendered path is the path without its last segment |
| `Paths.CleanIdempotent` | internal/storage/names.go:167 | Cleaning twice is cleaning once |
| `Paths.RenderInjective` | internal/storage/names.go:167 | Two clean paths with the same text are the same path |
| `EventLog.KeyOrder` | internal/storage/events.go:142-147 | Byte order of keys is the order of unsigned timestamp, then sequence; keys are equal only if both agree |
| `EventLog.KeysChronologicalIffSameSign` | internal/storage/events.go:25-27 | Keys of different timestamps sort chronologically if and only if the timestamps have the same sign |
| `EventLog.KeyTimeRoundTrip` | internal/storage/events.go:241 | The timestamp read out of a key is the one that was put in |
| `EventLog.BucketIsNewestOfAll` | internal/storage/events.go:219-232 | Over every series of writes under caps that never loosen, the bucket holds exactly the surviving records among all ever written |
| `EventLog.ControlLogIsNewestOfAll` | internal/storage/events.go:43-46 | The control log, whose one cap never changes, is after every series of appends the newest max events of all |
| `EventLog.KeptIsNewestOfWindow` | internal/storage/events.go:219-232 | Of any set of records, however its caps were changed before, a prune keeps the newest min(max, count) of those in the age window |
| `EventLog.PruneOnceIsEnough` | internal/storage/events.go:199-217 | Pruning at every write gives what keeping everything and pruning once would |
| `EventLog.PruneKeeps` | internal/storage/events.go:219-232 | In every bucket age prefix then count prefix remove exactly what does not survive when no timestamp is negative |
| `EventLog.KeptIsPruned` | internal/storage/events.go:219-232 | Both settings in terms of records alone: age cap, count cap, and the only two reasons to go |
| `EventLog.ClockTightens` | internal/storage/events.go:223-226 | A cutoff that follows a clock that does not go back never loosens |
| `EventLog.EventBucket.PutEvent` | internal/storage/events.go:187-197 | Adds exactly one record, under a key not in use |
| `EventLog.EventBucket.PruneByAge` | internal/storage/events.go:237-252 | Deletes exactly the records before the first one in the window |
| `EventLog.EventBucket.PruneByCount` | internal/storage/events.go:257-278 | Deletes exactly the oldest records over the cap; a non-positive cap deletes none |
| `EventLog.EventBucket.PruneBucket` | internal/storage/events.go:222-232 | What is left is exactly what survives both caps |
| `EventLog.EventBucket.AppendEvent` | internal/storage/events.go:159-170 | One record more; then nothing older than the age cap (counted from the event's own time) is left, at most max are, and a record goes only for its age or because max newer ones were there; a bucket that held the newest of everything ever written still does, for the control log always |
| `EventLog.EventBucket.FlushEvents` | internal/storage/events.go:201-217 | An empty batch changes nothing; otherwise nothing older than the age cap is left, at most max are, and a record of bucket or batch goes only for its age or because max newer ones were there; a bucket that held the newest of everything ever written still does |
| `EventLog.EventBucket.QueryEvents` | internal/storage/events.go:283-311 | The cursor loop returns the first limit records, newest first, that are strictly older than the cursor (all when it is not positive) |
| `EventLog.QuerySelects` | internal/storage/events.go:283-306 | Newest first, only records strictly older than a positive cursor, at most limit; none left out is newer than one given, and none is left out while there is room |
| `EventLog.PagingDescends` | internal/storage/events.go:280-283 | Whatever the limits, pages descend strictly and never repeat a record, when times are positive |
| `EventLog.PagingEnds` | internal/storage/events.go:280-283 | With positive limits paging ends after at most one page per record and an empty one |
| `EventLog.ZeroTimeNeverEnds` | internal/storage/events.go:296 | If the oldest record has time zero no page is ever empty: the cursor is read as "from the newest" |
| `EventLog.PagingIsComplete` | internal/storage/events.go:280-311 | With distinct positive times a client that pages to the end sees every record, whatever its limits |
| `EventLog.OneAtATimeIsCompleteIffDistinct` | internal/storage/events.go:296 | Paging one event at a time sees every event if and only if no two share a timestamp |
| `BigEndian.Order` | internal/storage/events.go:144-145 | Byte order of equal-width big-endian encodings is numeric order |
| `BigEndian.RoundTrip` | internal/storage/events.go:241 | Decoding an encoding gives the number back |
| `Flusher.AcceptedExactlyOnce` | internal/storage/events.go:175-184 | Over any interleaving the events that found room are those written, batched and queued, once each and in order; attempts while enabled are written + batched + queued + dropped; queue, batch and transactions respect their bounds |
| `Flusher.StepKeepsInv` | internal/storage/events.go:319-360 | Every step of producers and flusher keeps conservation, bounds and what the drain can still reach |
| `Flusher.HistoryIsOffered` | internal/storage/events.go:175-184 | What was accepted is what producers offered while there was room, in order |
| `Flusher.DrainIsBounded` | internal/storage/events.go:335-351 | However producers interfere, the final drain takes at most capacity + 1 rounds |
| `Flusher.DrainAlwaysMoves` | internal/storage/events.go:337-351 | In a drain the flusher always has a step, which uses a round or finishes |
| `Flusher.ShutdownLosesNothing` | internal/storage/events.go:334-351 | When the flusher is done everything accepted before the cancel is written, even while producers keep sending; with none after it the channel is empty and all is written |
| `Flusher.DueIsAcceptedAtCancel` | internal/storage/events.go:334 | The count the theorem above speaks of is what had been accepted when the cancel was taken |
| `Flusher.LateEventsAreStranded` | internal/storage/events.go:343-350 | After the flusher is done nothing more is written; what producers still get in stays in the channel |
| `Flusher.TickWritesBatch` | internal/storage/events.go:356-357 | A tick while running leaves nothing batched: what was is written, in one transaction |
| `Flusher.ReceiveBatches` | internal/storage/events.go:351-355 | A received event is batched, and the batch written exactly when it is full |
| `Flusher.ToggleDecides` | internal/storage/events.go:175-184 | Once enabled an event that finds room is accepted and queued last; once disabled none is |
| `Flusher.Pipeline.EnqueueEvent` | internal/storage/events.go:175-184 | Queued if there is room, counted as dropped if not, nothing when disabled |
| `Flusher.Pipeline.FlushBatch` | internal/storage/events.go:323-331 | The batch becomes one transaction unless empty; the drop counter is reported and reset |
| `Flusher.Pipeline.Append` | internal/storage/events.go:351-355 | Takes the oldest queued event, and flushes at the batch limit |
| `Flusher.Pipeline.Turn` | internal/storage/events.go:351-357 | One turn of the main select, an event or a tick, is that step of the step system |
| `Flusher.Pipeline.SetEnabled` | internal/storage/events.go:117-119 | Changes only whether later events are taken |
| `Flusher.Pipeline.DrainRound` | internal/storage/events.go:337-347 | One round of the drain is one step of the step system |
| `Flusher.Pipeline.Drain` | internal/storage/events.go:334-350 | With any events arriving before any round the drain ends, and it is a run of the step system |
| `SampleStore.RecordRoundTrip` | internal/storage/request_samples.go:31-43 | A stored record decodes to the sample it was made from |
| `SampleStore.KeyOrder` | internal/storage/request_samples.go:28-35 | Keys sort by the unsigned minute and belong to one minute |
| `SampleStore.Store.Put` | internal/storage/request_samples.go:47-55 | Exactly the sample of that minute is replaced or added |
| `SampleStore.Store.Query` | internal/storage/request_samples.go:60-87 | The cursor loop returns exactly the stretch of samples whose keys are in the range, in order |
| `SampleStore.QueryIsExactIff` | internal/storage/request_samples.go:57-59 | The result is the samples of [from, to) if and only if from is not negative or nothing is stored before to |
| `SampleStore.Store.Prune` | internal/storage/request_samples.go:92-111 | Leaves exactly the samples whose key is not below the cutoff's |
| `SampleStore.PruneIsExactIff` | internal/storage/request_samples.go:89-91 | That is "strictly older" if and only if the cutoff is not negative |
| `RequestSeries.WindowIsInPlaceIff` | internal/handlers/requests_chart.go:82-85 | A window lies where its offset says if and only if offset times window fits an int64 |
| `RequestSeries.WindowsMeet` | internal/handlers/requests_chart.go:62-66 | Successive windows that fit meet, with no gap and no overlap |
| `RequestSeries.WindowsTile` | internal/handlers/requests_chart.go:62-66 | Every second up to the end of the present bucket is in exactly one of the windows that fit |
| `RequestSeries.NowIsInLastBucket` | internal/handlers/requests_chart.go:83-84 | At offset 0 now lies in the last bucket |
| `RequestSeries.EndIsWhole` | internal/handlers/requests_chart.go:83-85 | While the offset fits, a window begins and ends on a whole second |
| `RequestSeries.LandsIff` | internal/handlers/requests_chart.go:101 | Division that truncates toward zero puts a minute into bucket i exactly for the bucket's interval, widened by one bucket width below the first |
| `RequestSeries.FillBuckets` | internal/handlers/requests_chart.go:92-111 | Every slot is the 32-bit sum of the samples that land in it, the totals the 64-bit sum of all that land |
| `RequestSeries.BuildRequestSeries` | internal/handlers/requests_chart.go:67-124 | The whole function over the store: the five ranges with their bar widths, bar counts and lengths, any other token refused; window bounds, navigation flags; if From is not negative or nothing is stored before To, each bar is the sum of exactly the stored minutes it stands for and the totals of those in [From, To); otherwise all are zero |
| `RequestSeries.OneBarEach` | internal/handlers/requests_chart.go:94-97 | Every minute of the window is in exactly one bar |
| `RequestSeries.BarsAddUpIff` | internal/handlers/requests_chart.go:105-110 | The bars of a class add up to its total if and only if no bar overflowed its 32 bits |

## Left out

- HTTP, XML and JSON encoding, metrics, logging, configuration, routing and the web interface.
- Request signing, presigned URLs and secret encryption: string assembly around cryptography that is not modelled.
- The request rate limiter's token bucket lives in another library; only a bounded map would remain.
- I/O failures, crashes, fsync and recovery: `Commit`, `MultipartStore`, `EventLog` and `Flusher` follow the success paths (a failed flush drops its batch in the code).
- Readers of objects, which take no lock, and the sidecar writers that take none (ACL updates, ETag backfill, the sidecar of a completed multipart upload) are not threads of `Commit`; conditional uploads are decided before the lock and are not claimed to be atomic.
- Creating parent directories in an upload, and its race with the collapse of a delete on another stripe: `Collapse` is the effect of one delete.
- The per-bucket byte gauge, `.tags.json` files on delete, ranges and conditional reads.
- Two concurrent uploads of the same part number, which share a temp name: a part upload is one step. Other requests between validation and streaming are modelled by the view of the staging directory each part is opened in.
- Corrupt manifests or log records; and keys that collide with a directory on upload or completion, which are I/O failures there (on delete they are modelled).
- Upload ids and session tokens are random in the code; the model takes the new one as a parameter that is not in use.
- Sorting, directory reading, base64, number parsing, `Clean`, `IsLocal` and UTF-8 checking are Go library calls; they are modelled as functions or small loops from their documented behaviour.
- Bolt's cursor behaviour while deleting: `PruneByCount` deletes the first keys in order, as intended.
- A malformed continuation token restarts the listing; the conversation theorems speak of tokens the server issued.
- The middleware that decides which addresses may be banned, user ACLs, CORS matching and canned ACLs: each is settled by reading a branch or two.
- EventLog.EventBucket.PutEvent: does not model the wrap-around of the sequence number after 2^64 events; its requires rules it out.
- RequestSeries.BuildRequestSeries: instants within a quarter of the int64 range of seconds, so that the bounds themselves do not wrap.
- EventLog.EventBucket.FlushEvents: the claim about everything ever written needs caps no looser than at the write before; a loosened cap cannot bring back what an earlier prune removed.

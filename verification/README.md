# d9ds3: a verified model

d9ds3 is an S3-compatible object store. A gateway sends object payloads to storage nodes and commits small
commands to a Raft log; every node applies the log to a POSIX directory tree in which the newest version of a
key is an ordinary file whose metadata is in extended attributes, older versions are archived payloads, and a
history file holds the version list when a key has more than one version or a delete marker.

This project models the parts with the most state and the most branching, and proves what they are for:

1. **The versioned store.** `Store`, `Machine` and the class `Backend.PosixBackend` do what the backend does to the
   key file, its attributes, the archives and the history file. `Spec` is what the store is for: per key, a
   newest-first list of versions. `Refinement.StepExact` proves that a command leaves a valid disk meaning the
   specified lists and reports the specified error **if and only if** the command is settled, a guard on the
   version lists (`Settled`). `Runs.RunExact` lifts this to whole runs, with every mode switch allowed. What reads
   return, conservation of payloads and agreement of the key indexes follow for every settled run. `Fresh` shows
   that runs are settled in buckets that never had versioning, and in buckets with versioning on when ids are never
   used twice, as the gateway hands them out. `Failures` and `Surfacing` show what goes wrong when each guard is
   broken, at once or at a later delete; `Agreement` when the lists still agree. `Effects`
   and `Copies` say what a read finds after a put, a copy, a mutation or a completed upload; `Buckets` when a bucket
   can be deleted.
2. **Replication.** `Replicas` is a cluster as a state machine (fan-out, commit, apply, staging collection, peer
   pull); every node's committed state is the canonical replay of the prefix it applied. `Shards` proves that
   interleavings of per-shard logs commute, `Snapshot` what installing a snapshot leaves, `Quorum` when a fan-out
   meets every commit quorum, `Fsm` the retry loop around a missing payload
   and `Recovered` that what it stores is the committed payload.
3. **Multipart uploads.** `Multipart`, `Uploads`, `PartsRun`: part lists, validation, assembly and ETags.
4. **Listings.** `Listing` and `VersionListing`: following the cursors of a paginated listing visits everything
   once; for the version listing, exactly when no page would start with a common prefix. `Walks` puts the store under
   them: after every settled run a client that follows the cursors sees exactly the live keys, or the version lists.
5. **S3 Select.** `Sql*`: lexer, recursive-descent parser with a cursor, and the theorem that a syntax tree is the
   parse of some text if and only if it is well formed, its rendering being such a text. `Predicates` gives
   predicates their meaning and proves the LIKE translation; `Where` gives the laws of what a WHERE clause selects;
   `SelectRun` the streaming LIMIT and COUNT(*).
6. **Wire codecs.** `Chunked` and `ChunkedReader`: the aws-chunked decoder with its signature chain (AWS Signature
   Version 4, "Transferring Payload in Multiple Chunks"); `Truncation`: which bodies count as complete; `Compaction`:
   header value normalisation in place;
   `Ranges`: a byte range over two hops (section 14.1.2 of RFC 9110).

## How to read it

State that the source changes in place is a class (`Backend.PosixBackend`, `Fsm.StateMachine`, `SqlParser.Parser`,
`SqlParser.Draft`, `SelectRun.Run`, `ChunkedReader.Reader`) or an array (`Compaction.Compact`), and loops are methods
with invariants; each method is proved equal to a function on values, and the theorems are about those functions.
Library code is an uninterpreted constant: MD5, HMAC, FNV, content-type guessing, date arithmetic, Unicode tables
outside ASCII, float parsing, row encoding. So the theorems hold whatever it computes. Clocks and random ids are
parameters of the commands, as in the source, where the gateway stamps them.

`dafny verify dfyconfig.toml` checks the whole project.

## Where code and documentation disagree

- ARCHITECTURE.md says that replaying a log entry is idempotent; the code has no such check, so it is not claimed.
- The version listing's comment calls its resume inclusive; at a common prefix it is not
  (`VersionListing.ResumeExact`).
- The chunk reader's comment speaks of a clean end after the terminating chunk; a body that ends, or has a blank
  line, at any chunk boundary also ends cleanly (`Truncation.EndsExactly` for every input, `Truncation.TruncatedExact`
  and `Truncation.LossExact` for every place at which a signed body may be cut, `Truncation.ChunkLost` an instance).
- A suffix range of no bytes (`bytes=-0`) reads the whole object; RFC 9110 makes it unsatisfiable
  (`Ranges.SuffixLength`).
- LIKE's wildcards do not match a newline (`Predicates.LikeExact`).

## Model

| member | source | states |
|---|---|---|
| `XMeta.AttrsBack` | internal/storage/backend_xmeta.go:31-108 | the attributes written for a storable version decode to the same attributes, an empty legal hold being the one exception |
| `XMeta.WriteThenRead` | internal/storage/backend_xmeta.go:31-108 | reading a file just written with a live version gives that version back if and only if it is storable, is not archived and records the file's size; whatever attributes the file had before |
| `XMeta.SetOrRemove` | internal/storage/backend_xmeta.go:122-129 | one attribute is set when present and removed when absent |
| `XMeta.WriteTexts` | internal/storage/backend_xmeta.go:31-62 | the text attributes are exactly those of the version, stale ones gone |
| `XMeta.WriteDocuments` | internal/storage/backend_xmeta.go:31-62 | the same for user metadata, tags, ACL, retention and legal hold |
| `XMeta.WriteCurrentXattrs` | internal/storage/backend_xmeta.go:31-62 | every managed attribute is set or removed, so exactly the version's attributes remain, whatever was there |
| `Persist.WriteThenReadKeyMeta` | internal/storage/backend_object.go:27-91 | a written version list reads back, from the attributes or the history file, if and only if the lone live version survives its attributes |
| `Persist.LastWriteWins` | internal/storage/backend_object.go:27-91 | after any sequence of list writes, failed ones among them, the last list that could be written is the one read if and only if it reads back at all: neither an earlier history file nor an earlier attribute shadows it |
| `Displacing.DisplaceKeeps` | internal/storage/backend_object.go:124-141 | displacing under a free archive name frees the key path and leaves exactly the remaining versions, other keys untouched |
| `Finalizing.WriteRefines` | internal/storage/backend_object.go:67-91 | writing a list whose files are in place gives the key exactly the history the list means |
| `Topping.TopRefines` | internal/storage/backend_object.go:113-123 | a new newest version on a displaced key adds exactly that version on top of the history |
| `Writes.InstallExact` | internal/storage/backend_object.go:152-178 | a write (displace, move the bytes in, prepend, write the list) leaves a valid volume that means the old lists with the version added if and only if its id is new, its metadata is writable and the archive name is free |
| `Agreement.InstallMeansExact` | internal/storage/backend_object.go:105-178 | in every mode the lists alone agree after a write, validity aside, if and only if no payload of other bytes is archived over, no null version stays below a new null version, and either versions stay below or the file alone carries the metadata |
| `Surfacing.WriteSurfaces` | internal/storage/backend_object.go:152-290 | metadata that the file cannot carry shows in the list of a write over a lone version, but once the older version is deleted the new one reads back as its file tells it: as written if and only if the file carries it |
| `Deletes.DropExact` | internal/storage/backend_object.go:218-241 | deleting a version by id leaves a valid volume that means the lists without it, the next version promoted, if and only if it is not a newest delete marker above a live version |
| `Surfacing.DropMeansExact` | internal/storage/backend_object.go:218-241 | the lists alone agree, validity aside, if and only if it is not a newest delete marker above a lone live version |
| `Surfacing.MarkerDeleteHidesKey` | internal/storage/backend_object.go:218-241 | above two or more versions, deleting a newest marker leaves a live, readable key without an object file, which no object listing shows, whatever the request |
| `Deletes.PromotedRefines` | internal/storage/backend_object.go:276-290 | deleting the current version brings the next live one back to the key path |
| `Markers.EnabledExact` | internal/storage/backend_object.go:243-254 | a delete with versioning on refines adding a delete marker if and only if the marker id is new and the archive name free |
| `Markers.CurrentExact` | internal/storage/backend_object.go:255-272 | a delete with versioning off or suspended refines its specification exactly under the stated condition on the newest versions |
| `Markers.DeleteExact` | internal/storage/backend_object.go:204-275 | every delete without a version id refines the specification if and only if it is settled |
| `Mutations.MutateExact` | internal/storage/backend_meta.go:16-82 | a metadata mutation leaves a valid volume in which the addressed version only is changed, with the specified error, if and only if it does not give a live version an empty legal hold |
| `Effects.MutateThenRead` | internal/storage/backend_meta.go:16-82 | after a settled mutation, for every read of every key: the addressed version has exactly the tags, ACL, retention or legal hold the command names and every other attribute as before, every other version is unchanged, and the bytes read are the same |
| `Agreement.RewriteMeansExact` | internal/storage/backend_meta.go:16-42 | after rewriting a version's attributes the lists alone agree, validity aside, if and only if the key has other versions, the version is a delete marker or its legal hold does not become empty |
| `Surfacing.HoldSurfaces` | internal/storage/backend_meta.go:43-82 | an empty legal hold set on either of two versions is listed as set, and is gone once the other version is deleted |
| `Attributes.CommandsCommute` | internal/storage/backend_meta.go:16-82 | two metadata mutations on a key commute unless they are about the same thing on the same version |
| `Attributes.MutationsCompose` | internal/storage/backend_meta.go:43-82 | mutations about different things commute, and of two about the same thing the later stands |
| `Attributes.DefaultsOnce` | internal/storage/backend_object.go:635-651 | default retention touches retention only, never overrides one, and is applied at most once |
| `Attributes.DefaultsKept` | internal/storage/backend_object.go:635-651 | a version that brings no retention gets the bucket's mode until the version's time plus the default days, then years; any other version keeps what it brings |
| `Copies.CopyThenGet` | internal/storage/backend_object.go:291-349 | after a settled copy the destination reads as the source's bytes, size and ETag, without its ACL, at the copy's time; the other attributes are the source's or, under a replacement directive, the request's metadata with the source's storage class and no tags or locks; tags go under either directive; retention defaults apply where none is kept |
| `Copies.CopyKeepsReads` | internal/storage/backend_object.go:291-349 | whatever could be read before a settled copy, of another key or, with versioning on, of the destination by its id, reads the same afterwards |
| `Reads.ResolveAgrees` | internal/storage/backend_object.go:350-372 | a version id resolves to the same version, or the same error, as in the version list |
| `Reads.GetAgrees` | internal/storage/backend_object.go:373-439 | a read of any version returns exactly its bytes and metadata, or the specified error |
| `Refinement.PutExact` | internal/storage/backend_object.go:152-178 | a put of any staged or missing payload agrees with the version lists if and only if it is settled |
| `Effects.PutThenGet` | internal/storage/backend_object.go:152-203 | after a settled put the key reads as the staged bytes, under the id the bucket's mode gives, with the command's size, time and attributes and the bucket's default retention, and the token is gone from staging |
| `Refinement.CopyExact` | internal/storage/backend_object.go:291-349 | a copy agrees with the version lists if and only if it is settled: not of the destination's own current file about to be archived |
| `Refinement.CompleteExact` | internal/storage/backend_multipart.go:74-174 | a completion agrees with the version lists if and only if the assembled version is settled |
| `Refinement.PartExact` | internal/storage/backend_multipart.go:50-73 | recording a part always agrees with the specification |
| `Refinement.RemoveExact` | internal/storage/backend.go:259-275 | deleting a bucket refuses exactly the buckets with a version or marker, but for an empty one in which a nested key's history directory is left |
| `Refinement.StepExact` | internal/storage/backend.go:172-219 | on every valid disk a command leaves a valid disk meaning the specified state, and reports the specified error, if and only if the command is settled there |
| `Runs.RunExact` | internal/storage/backend.go:172-219 | a run agrees with the version lists at every step if and only if every command is settled where it runs |
| `Runs.ReadsAfterRun` | internal/storage/backend_object.go:350-439 | after every settled run, reading any version of any key returns what was written under that id |
| `Runs.PayloadsConserved` | internal/storage/backend.go:107-160 | in every valid bucket the live versions and the stored payloads correspond one to one: none lost, none shared, none leaked |
| `Runs.PayloadsAfterRun` | internal/storage/backend_object.go:105-345 | over every settled run this correspondence holds in every bucket |
| `Runs.IndexAgrees` | internal/storage/backend_object.go:440-471 | a key has an object file exactly when its newest version is live, and walking both trees finds exactly the keys with a version |
| `Runs.DeleteDestroysNothing` | internal/storage/backend.go:259-275 | a bucket delete that succeeds destroys no version and no delete marker |
| `Buckets.EmptiedDeletes` | internal/storage/backend.go:259-275 | after every settled run without slashes in its keys, once no version is left the bucket can be deleted and nothing of it stays |
| `Buckets.NestedBlocks` | internal/storage/backend.go:259-275 | once a key with a slash has had two versions, the bucket cannot be deleted after any settled run, not even when emptied |
| `Buckets.NameRefused` | internal/storage/backend.go:220-223 | a bucket name is refused if and only if it is empty or holds a slash or backslash |
| `Buckets.OperatorFileReads` | internal/storage/backend_xmeta.go:64-76 | a file an operator put into the tree reads as the null version with its bytes, their MD5 as ETag and the content type its name suggests |
| `Fresh.SaneStep` | internal/gateway/gateway.go:66-83 | in an orderly state (each bucket with versioning on and all ids distinct, or never versioned with one live null version a key) a sane command is settled and the state stays orderly; sane asks for an id never used before and no copy of a newest version onto itself only where versioning is on |
| `Fresh.SaneRunSettled` | internal/storage/backend.go:172-219 | every run of sane commands is settled |
| `Fresh.SaneRunAgrees` | internal/storage/backend.go:172-219 | from an orderly disk with buckets of both kinds, the empty disk included, every run of sane commands refines the version lists at every step |
| `Fresh.EmptyOrderly` | internal/storage/backend.go:44-62 | the empty disk is valid and orderly |
| `Failures.MarkerDeleteLosesKey` | internal/storage/backend_object.go:218-241 | deleting a newest marker above a lone live version makes that version unreadable and leaks its payload, on every valid bucket |
| `Failures.MarkedLost` | internal/storage/backend_object.go:218-241 | a concrete bucket in which this loses the object |
| `Failures.SelfCopyLosesCurrent` | internal/storage/backend_object.go:291-349 | copying a current version onto its own key with versioning on fails and makes it unreadable |
| `Failures.NullArchivesCollide` | internal/storage/backend.go:119-130 | archiving the null version of a second key makes the first key's null version read the other key's bytes |
| `Failures.SuspendedDeleteTwice` | internal/storage/backend_object.go:255-272 | a second suspended delete puts two versions with the id null on a key |
| `Failures.UnversionedPullIsNewest` | internal/storage/node.go:377-400 | without versioning, a pull for an earlier put returns the later payload the peer has applied |
| `Backend.PosixBackend.WriteMeta` | internal/storage/backend_object.go:67-91 | the method leaves exactly the specified attributes and history file |
| `Backend.PosixBackend.DisplaceCurrent` | internal/storage/backend_object.go:124-141 | the current file is archived or dropped from the list as specified |
| `Backend.PosixBackend.InstallCurrent` | internal/storage/backend.go:107-118 | the new file and list are installed as specified |
| `Backend.PosixBackend.ApplyPutObject` | internal/storage/backend_object.go:152-178 | the put method has the specified effect on the whole disk |
| `Backend.PosixBackend.PromoteNewLatest` | internal/storage/backend_object.go:276-290 | the newest remaining version is marked, and brought to the key path when it is archived |
| `Backend.PosixBackend.DropVersions` | internal/storage/backend_object.go:218-241 | the loop removes every version of the id and its archived payload, and reports whether the key file was among them |
| `Backend.PosixBackend.ApplyDeleteObject` | internal/storage/backend_object.go:204-275 | the delete method has the specified effect in every mode |
| `Backend.PosixBackend.ResolveVersion` | internal/storage/backend_object.go:350-372 | the search loop finds the version the specification names |
| `Backend.PosixBackend.GetObject` | internal/storage/backend_object.go:387-439 | the read method returns the specified bytes or error |
| `Backend.PosixBackend.ApplyCopyObject` | internal/storage/backend_object.go:291-349 | the copy method has the specified effect, the source read after the destination is displaced |
| `Backend.PosixBackend.ApplyObjectMetaMutation` | internal/storage/backend_meta.go:16-42 | the mutation method rewrites the addressed version only |
| `Backend.PosixBackend.ApplyPart` | internal/storage/backend_multipart.go:50-73 | the part is recorded in order, the last upload of a number winning |
| `Backend.PosixBackend.ApplyCompleteMultipart` | internal/storage/backend_multipart.go:74-174 | the completion method validates, assembles, installs and removes the upload as specified |
| `Backend.PosixBackend.CreateBucket` | internal/storage/backend.go:220-258 | creating a bucket, with its refusals |
| `Backend.PosixBackend.DeleteBucket` | internal/storage/backend.go:259-275 | deleting a bucket, with its refusals |
| `Backend.PosixBackend.ConfigureBucket` | internal/storage/backend.go:276-325 | changing versioning or lock configuration |
| `Backend.PosixBackend.ApplyCommand` | internal/storage/backend.go:172-219 | the dispatcher has the specified effect for every command, and on a settled command a valid disk meaning the specified lists results |
| `Backend.PosixBackend.RemoveReplicated` | internal/storage/backend_snapshot.go:25-43 | the loop deletes exactly the managed files of a bucket |
| `Backend.PosixBackend.ClearReplicated` | internal/storage/backend_snapshot.go:115-175 | replicated files and state of every bucket go, the operator's files stay |
| `Backend.PosixBackend.RestoreFrom` | internal/storage/backend_snapshot.go:115-175 | the restore loop unpacks an archive to the specified result |
| `Fsm.MissingChangesNothing` | internal/storage/fsm.go:54-70 | a missing payload leaves the disk as it was |
| `Fsm.FirstFetchDecides` | internal/storage/fsm.go:54-70 | the first fetch after which everything needed is at hand decides the outcome, whatever earlier fetches failed to bring or brought besides |
| `Fsm.SuppliesExact` | internal/storage/fsm.go:54-70 | a fetch supplies a command if and only if it succeeded and the staged payload of a put, or every part a completion would assemble, was there before or came with it or an earlier fetch |
| `Fsm.NoneSupplies` | internal/storage/fsm.go:54-70 | without such a fetch the entry is given up, the disk having gained what was fetched and no more |
| `Fsm.GivesUp` | internal/storage/fsm.go:54-70 | an entry is given up if and only if at no successful fetch its whole payload has come |
| `Fsm.StateMachine.ApplyWithRecovery` | internal/storage/fsm.go:54-70 | the retry loop of at most 120 attempts computes exactly this outcome |
| `Fsm.StateMachine.ApplyEntry` | internal/storage/fsm.go:37-53 | an entry is applied with recovery and the applied index becomes its index whatever the outcome |
| `Recovered.RecoveredPutReads` | internal/storage/node.go:376-427 | a put whose payload never arrived reads, once a fetch brings it, as exactly the bytes the first fetch to carry its token brought |
| `Recovered.RecoveredCompletionReads` | internal/storage/node.go:376-391 | a completion that missed parts reads, at the first fetch after which all are there, as the concatenation of the bytes last fetched of each part, else those the node had |
| `Recovered.RecoveredIsCommitted` | internal/storage/fsm.go:54-70 | in every state of every cluster run, a node that recovers its next put from a peer, at whatever attempt, has the canonical replay of one log entry more |
| `Recovery.ReplayValid` | internal/storage/backend.go:172-219 | the canonical replay of a log of settled entries is valid |
| `Recovery.Provenance` | internal/storage/backend_object.go:152-345 | over every log prefix, a key's versions with a put's id hold that put's payload |
| `Replicas.PulledIsCommitted` | internal/storage/node.go:377-427 | whatever prefix the peer has applied, a payload pulled by version id is the committed one |
| `Replicas.InvAlways` | internal/storage/node.go:377-427 | the cluster invariant holds in every state of every run |
| `Replicas.RecoveryConverges` | internal/storage/fsm.go:37-70 | over every interleaving of fan-out, commit, apply, collection and pull, each node is the canonical replay of its applied prefix, and nodes that applied as much are the same |
| `Replicas.CatchesUp` | internal/storage/fsm.go:50-70 | progress: a node that misses the payload of its next entry and a peer that can serve it are two moves, pull and apply, from the node having applied it, nothing else in the cluster changed |
| `Shards.Frame` | internal/storage/backend.go:172-219 | a command changes its own bucket's volume and at most its own token |
| `Shards.Local` | internal/storage/backend.go:172-219 | what a command does depends only on the volumes and the token it reads |
| `Shards.SameShard` | internal/storage/node.go:103-111 | two named buckets share one of several shards if and only if their hashes do |
| `Shards.Projection` | internal/storage/node.go:103-111 | seen from one shard, the shared backend is the replay of that shard's log alone |
| `Shards.Confluence` | internal/storage/node_http.go:113-138 | interleavings of the same per-shard logs leave the same backend |
| `Snapshot.InstallResult` | internal/storage/backend_snapshot.go:25-175 | installing an archive leaves at each key the source's file and attributes, else the operator's own file, else nothing; histories, payloads, configuration and uploads are the source's |
| `SnapshotRun.ArchiveBucket` | internal/storage/backend_snapshot.go:66-114 | the walks archive exactly the files of a bucket |
| `SnapshotRun.SnapshotTo` | internal/storage/backend_snapshot.go:44-114 | the archive lists exactly the files of every bucket |
| `SnapshotRun.Transfer` | internal/storage/fsm.go:76-95 | a snapshot of one backend restored on another leaves, in every bucket, the source's files and state over what the target's operator owns |
| `Snapshot.InstalledUnique` | internal/storage/backend_snapshot.go:115-175 | target and source determine the installed volume |
| `Snapshot.InstalledAttributes` | internal/storage/backend_snapshot.go:115-175 | installed attributes equal the source's if and only if no stray attribute lies under the file |
| `Snapshot.InstallTwice` | internal/storage/backend_snapshot.go:115-175 | installing twice equals installing once if and only if the target held no strays |
| `Snapshot.InstalledVersions` | internal/storage/backend_snapshot.go:115-175 | a key that the operator does not own reads as at the source, but for the time of a version kept in attributes alone |
| `Snapshot.InstalledTime` | internal/storage/backend_snapshot.go:155-175 | metadata is unchanged if and only if that time was the moment of the install |
| `Snapshot.InstalledValid` | internal/storage/backend_snapshot.go:115-175 | on any target, operator files and all, a valid source installs as a valid volume if and only if every key is installable: a version kept in attributes alone gets a time and, with what the target's file had, a version id that is not blank; an operator file stands only under keys the source knows nothing of, has a time, and has a bucket directory |
| `Quorum.FanOut` | internal/cluster/client.go:171-194 | the counting loop succeeds if and only if more than half of the listed nodes took the payload |
| `Quorum.MeetExact` | internal/cluster/client.go:171-194 | every fan-out meets every commit quorum if and only if the nodes the two lists share are too few for two majorities to share them out |
| `Quorum.PayloadAvailable` | internal/gateway/gateway.go:183-197 | when the gateway's list is the membership, every commit quorum of a put holds a node with the payload |
| `Uploads.RecordAscending` | internal/storage/backend_multipart.go:50-73 | recording a part keeps the part list strictly ascending |
| `Uploads.RecordFinds` | internal/storage/backend_multipart.go:50-73 | it changes what is found under its number and nothing else |
| `Uploads.LastUploadWins` | internal/storage/backend_multipart.go:50-73 | after any sequence of uploads each number holds its last upload |
| `Uploads.EtagExact` | internal/storage/backend_multipart.go:227-229 | two ETags count as equal if and only if they are one text up to quotes around it; bare texts, if and only if they are the same |
| `Uploads.ChooseExact` | internal/storage/backend_multipart.go:82-101 | choosing succeeds if and only if the numbers ascend and every part was uploaded with that ETag up to quotes, and then returns those parts |
| `Uploads.WrongETagRefused` | internal/storage/backend_multipart.go:88-98 | a part named in order under a text that differs by more than quotes from its ETag is refused with InvalidPart |
| `Uploads.FirstRefusal` | internal/storage/backend_multipart.go:88-98 | a refusal is that of the first bad part: out of order, or else not uploaded with that ETag |
| `Uploads.ChosenExact` | internal/storage/backend_multipart.go:81-113 | a completion is accepted if and only if it names a part, in ascending order with the uploaded ETags, all but the last are large enough, and all are at hand |
| `Uploads.SameETag` | internal/gateway/gateway_util.go:34-42 | the ETag every replica stores is the one the gateway computes from the request |
| `Uploads.RefusalChangesNothing` | internal/storage/backend_multipart.go:74-174 | a refused completion, for whatever reason, leaves the disk as it was |
| `Uploads.CompleteThenGet` | internal/storage/backend_multipart.go:74-174 | after a settled completion the object reads as the concatenation of the chosen parts, with its length as size |
| `Effects.CreatedThenCompleted` | internal/storage/backend_multipart.go:30-174 | whatever happens between creating an upload and completing it, as long as it stays open, the completed object has the creation's content type, user metadata, storage class and ACL and nothing else but the request's ETag and the default retention |
| `Effects.StaysOpen` | internal/storage/backend.go:172-219 | over every run that leaves it open an upload keeps its key, its time and what it was created with |
| `Uploads.OnlyUploadCommands` | internal/storage/backend.go:172-219 | only multipart commands and bucket deletion change a bucket's uploads |
| `Uploads.PartsStayOrdered` | internal/storage/backend_multipart.go:50-73 | over every run, settled or not, part lists stay strictly ascending |
| `PartsRun.SortParts` | internal/storage/backend_multipart.go:50-73 | the sort returns a sorted permutation |
| `PartsRun.RecordPart` | internal/storage/backend_multipart.go:50-73 | replace or append, then sort, is the specified recording |
| `PartsRun.ChooseParts` | internal/storage/backend_multipart.go:82-98 | the validation loop stops at the first bad part, with its error |
| `PartsRun.ChooseAll` | internal/storage/backend_multipart.go:81-113 | all validations together, in order |
| `PartsRun.AssembleParts` | internal/storage/backend_multipart.go:115-146 | the loop writes the concatenation, counts its bytes and feeds the digest |
| `PartsRun.GatewayETag` | internal/gateway/gateway_util.go:34-42 | the gateway's loop computes the multipart ETag of the requested parts |
| `Listing.TokenExact` | internal/storage/backend_object.go:700-709 | a key rolls up if and only if the delimiter is not empty and occurs in the key after the prefix, and then into the shortest start of the key that ends with it; otherwise it is listed itself |
| `Listing.DisplayMonotone` | internal/storage/backend_object.go:700-709 | display tokens are monotone in byte order of the keys, strictly unless both roll into one prefix |
| `Listing.FullIsTheListing` | internal/storage/backend_object.go:472-537 | the unpaged listing is the ascending list of exactly the tokens of the listed keys |
| `Listing.ResumeIsRest` | internal/storage/backend_object.go:472-537 | the listing from a page's cursor is exactly what the page left out |
| `Listing.WalkVisitsAll` | internal/storage/backend_object.go:472-537 | following the cursors visits every object and common prefix exactly once, in order, and ends; truncation is reported exactly when something remains |
| `Listing.ListObjects` | internal/storage/backend_object.go:472-537 | the listing loop computes the specified page |
| `Listing.ListObjectsV2` | internal/storage/backend_object.go:472-493 | a missing bucket is refused; otherwise the page is that of the sorted keys of the bucket's tree, of the size asked for, 1000 when that is out of range, and of the three cursors the marker wins over the token and the token over start-after |
| `Walks.ListsLive` | internal/storage/backend_object.go:440-537 | in a valid bucket, following the cursors lists in byte order and each once exactly the keys with the prefix whose newest version is live and in which the delimiter does not occur after it, and the starts of the others up to that delimiter |
| `Walks.ListsLiveAfterRun` | internal/storage/backend_object.go:440-537 | the same after every settled run, in terms of the version lists the run leaves |
| `Sorting.MergeSortedUnique` | internal/storage/backend_object.go:682-699 | the keys of both walks, sorted and each once |
| `Sorting.SortKeys` | internal/storage/backend_object.go:440-471 | the walk's keys, sorted and each once |
| `Sorting.SortedOnce` | internal/storage/backend_object.go:682-699 | there is only one sorted list of a set of keys, so the listing does not depend on how the walks found them |
| `VersionListing.AllInOrder` | internal/storage/backend_object.go:538-612 | versions and common prefixes come in byte order of their keys, each key's newest version first |
| `VersionListing.ResumeExact` | internal/storage/backend_object.go:556-607 | resuming gives exactly what the page left out if and only if the first item left out is a version that its id finds again; a common prefix there is never listed |
| `VersionListing.WalkExact` | internal/storage/backend_object.go:538-612 | following the markers lists the whole answer but for the common prefixes that would start a page; so everything exactly once if and only if the items in places max, 2 max, 3 max and so on of the answer are versions |
| `Walks.PrefixLost` | internal/storage/backend_object.go:538-612 | a concrete bucket of two objects in which paging by one loses a common prefix |
| `VersionListing.PlainWalk` | internal/storage/backend_object.go:538-612 | without a delimiter the walk always lists everything |
| `VersionListing.AnswerIsAll` | internal/storage/backend_object.go:538-612 | the unpaged answer is exactly the versions of the keys with the prefix, or their common prefixes |
| `VersionListing.WellFormedNamedApart` | internal/storage/backend_object.go:538-612 | version lists as the store keeps them meet the walk's condition on ids |
| `VersionListing.ListVersionsOf` | internal/storage/backend_object.go:583-607 | the loop over a key's versions appends them from the marker on and stops at the first one too many |
| `VersionListing.ListItems` | internal/storage/backend_object.go:556-612 | one pass over the sorted keys computes the specified page |
| `VersionListing.ListObjectVersions` | internal/storage/backend_object.go:538-612 | a missing bucket is refused; otherwise the page is that of the sorted keys of both walks, of the size asked for |
| `Walks.AnswerShows` | internal/storage/backend_object.go:538-612 | in a valid bucket the unpaged answer shows each version of each key with the prefix at its place in the version list, but of keys in which the delimiter occurs after the prefix only their start up to it, and nothing else |
| `Walks.WalkShows` | internal/storage/backend_object.go:538-612 | in a valid bucket ids never clash, so a client that follows the markers sees that answer, whole exactly when no page would start with a common prefix |
| `Walks.VersionsAfterRun` | internal/storage/backend_object.go:538-612 | after every settled run, listing versions without a delimiter and following the markers shows exactly the version lists the run leaves |
| `SqlLexer.LexText` | internal/s3select/parser.go:34-156 | the lexer ends on every text, with the tokens of the specification, the end marker last and no other token kinds |
| `SqlLexer.ReadString` | internal/s3select/parser.go:44-66 | the string-literal loop undoes quote doubling and reports a missing closing quote |
| `Characters.ClassesAre` | internal/s3select/parser.go:34-156 | the ASCII letters, digits and identifier characters, one by one |
| `SqlLexer.LexedStream` | internal/s3select/parser.go:34-156 | what the lexer returns ends with the end marker and holds lexical tokens only |
| `SqlLexer.LexBack` | internal/s3select/parser.go:34-156 | lexing the spelling of any lexical tokens gives them back |
| `SqlRoundTrip.ValueBack` | internal/s3select/parser.go:427-507 | a rendered value parses back, whatever follows it but a dot |
| `SqlRoundTrip.OrBack` | internal/s3select/parser.go:323-338 | a rendered predicate, parenthesised where its place needs it, parses back |
| `SqlRoundTrip.AndBack` | internal/s3select/parser.go:339-354 | the same for an operand of OR |
| `SqlRoundTrip.NotBack` | internal/s3select/parser.go:355-426 | the same for an operand of AND |
| `SqlStatements.ProjectionBack` | internal/s3select/parser.go:223-292 | a rendered projection parses back, with its names |
| `SqlStatements.ParseBack` | internal/s3select/parser.go:170-222 | every well-formed statement parses back from its text |
| `SqlImage.ParseSound` | internal/s3select/parser.go:170-507 | every statement the parser returns is well formed |
| `SqlImage.ParsedExactly` | internal/s3select/parser.go:170-507 | a statement is the parse of some text if and only if it is well formed |
| `SqlImage.Normalised` | internal/s3select/parser.go:170-507 | rendering what was parsed and parsing it again changes nothing, for every text |
| `SqlParser.Parser.Advance` | internal/s3select/parser.go:158-164 | the cursor moves on by one token and never leaves the end marker |
| `SqlParser.Parser.PeekNext` | internal/s3select/parser.go:226-227 | the lookahead is in range at every token but the end marker |
| `SqlParser.Parser.ParseOr` | internal/s3select/parser.go:323-338 | the loop reads exactly what the grammar reads and ends |
| `SqlParser.Parser.ParseAnd` | internal/s3select/parser.go:339-354 | the same for AND |
| `SqlParser.Parser.ParseNot` | internal/s3select/parser.go:355-366 | the same for NOT |
| `SqlParser.Parser.ParsePrimary` | internal/s3select/parser.go:367-426 | the same for parentheses, LIKE, comparisons and bare values |
| `SqlParser.Parser.ParseValue` | internal/s3select/parser.go:427-457 | the same for values |
| `SqlParser.Parser.ParseCast` | internal/s3select/parser.go:458-493 | the same for CAST |
| `SqlParser.Parser.ParseColRef` | internal/s3select/parser.go:494-507 | the same for column references |
| `SqlParser.Parser.ParseProjection` | internal/s3select/parser.go:223-272 | the same for the projection, filling the statement |
| `SqlParser.Parser.ParseFrom` | internal/s3select/parser.go:293-322 | the same for the FROM clause |
| `SqlParser.ParseText` | internal/s3select/parser.go:170-222 | the whole parser ends on every text with exactly the tree the grammar gives |
| `Predicates.CompileLike` | internal/s3select/sql.go:297-322 | the two-builder loop yields the pattern's pieces |
| `Predicates.LikeExact` | internal/s3select/sql.go:166-180 | the compiled pattern means what LIKE means, for all patterns, if and only if the text holds no newline |
| `Predicates.NotEqualExact` | internal/s3select/sql.go:146-165 | <> negates = if and only if one of the operands is there |
| `Predicates.NotLikeExact` | internal/s3select/sql.go:166-180 | NOT LIKE negates LIKE if and only if the value is there |
| `Predicates.OperatorsAgree` | internal/s3select/sql.go:191-245 | every comparison says the same with its operands exchanged, and <= negates > |
| `Predicates.TrichotomyExact` | internal/s3select/sql.go:191-245 | exactly one of <, = and > holds, unless both are compared as numbers and one is not a number; then none does, and only then |
| `Predicates.NotMovesInward` | internal/s3select/sql.go:101-190 | for every predicate and every row that has the compared values, moving NOT inward through AND and OR into the operators and LIKEs does not change the outcome |
| `Where.ConnectivesSelect` | internal/s3select/sql.go:101-142 | WHERE l AND r selects the intersection of what l and r select, OR the union, NOT the complement; TRUE and no condition select every row, FALSE none |
| `Where.TextsCompare` | internal/s3select/sql.go:191-245 | two texts that are not numbers compare, under every operator, in byte order |
| `Where.NumbersCompare` | internal/s3select/sql.go:191-245 | a number, written as one or as a text with spaces around it, compares by its value |
| `Where.SpacesIgnored` | internal/s3select/sql.go:247-281 | white space at either end of a text, the six ASCII kinds of it, does not change how it compares as a number |
| `Where.MissingCompares` | internal/s3select/sql.go:148-164 | where a row lacks one side only <> selects it, and where it lacks both nothing does |
| `Where.LikeSelects` | internal/s3select/sql.go:166-180 | LIKE selects a row if and only if the text of its value, without newlines, resembles the pattern, and NOT LIKE if it does not |
| `Where.LikeMissing` | internal/s3select/sql.go:166-190 | a row that lacks the value is selected neither by LIKE or NOT LIKE nor by the bare value |
| `Where.ValueSelects` | internal/s3select/sql.go:282-294 | a bare value selects unless it is NULL, an empty text, FALSE or zero |
| `Where.CastsSelect` | internal/s3select/sql.go:72-97 | CAST to STRING does not change what LIKE sees, CAST to FLOAT of a number how it compares, CAST to INT truncates it, and what is not a number has no such cast |
| `Predicates.LessTransitive` | internal/s3select/sql.go:230-245 | < is transitive among numbers and among values of which at most one is a number |
| `Predicates.LessCycles` | internal/s3select/sql.go:230-245 | and only among those: with two numbers and a text < can go round in a circle, 9 < 10 < '1a' < 9 |
| `Predicates.AliasOptional` | internal/s3select/sql.go:43-52 | a column may be written with the alias or S3Object in front, in whatever case, and with any other name in front is another column |
| `Predicates.SameCase` | internal/s3select/sql.go:43-52 | ASCII names are equal up to case if and only if their upper case is the same |
| `Characters.UpperIs` | internal/s3select/sql.go:43-52 | upper case letter by letter, no other ASCII character changed |
| `SelectRun.Run.Handle` | internal/s3select/s3select.go:96-115 | the row handler counts, writes or stops as specified |
| `SelectRun.Execute` | internal/s3select/s3select.go:91-134 | the streaming loop answers what reading all rows and taking the first LIMIT matches would |
| `SelectRun.StopsEarly` | internal/s3select/s3select.go:106-108 | once more rows match than the limit, what follows does not matter, not even a read failure |
| `SelectRun.FailsAnyway` | internal/s3select/s3select.go:114-127 | a row that cannot be written fails the statement whatever comes after |
| `SelectRun.CountIs` | internal/s3select/s3select.go:109-131 | COUNT(*) is the number of matching rows, capped by LIMIT |
| `Where.AnswersSelected` | internal/s3select/s3select.go:96-115 | the n-th row answered stands at a selected place with n selected places before it |
| `SelectRun.BrokenExact` | internal/s3select/s3select.go:117-127 | a stream that breaks off is answered as every way it might have gone on would be, if and only if more rows matched than were asked for or a row could not be written |
| `Chunked.DeliversSigned` | internal/auth/chunked.go:47-133 | on every input, what is delivered is the concatenation of chunks whose signatures form the chain from the seed |
| `Chunked.DecodeFrames` | internal/auth/chunked.go:67-146 | after signed chunks the decoder has delivered their concatenation, and what follows is decoded as it would be alone |
| `Truncation.EndsExactly` | internal/auth/chunked.go:67-116 | on every input, a body counts as complete if and only if, where the signed chunks stop, there is the terminating chunk, an empty line, or only white space up to an orderly end of the stream |
| `Truncation.TruncatedExact` | internal/auth/chunked.go:67-146 | of every prefix of a signed body: it counts as complete if and only if it reaches past the terminating chunk, or the stream ends in order at the boundary of a chunk; when the connection fails, only the former |
| `Truncation.LossExact` | internal/auth/chunked.go:67-146 | a body cut short reads as complete with less data than was sent if and only if the stream ends in order at the start of one of its chunks, and the chunks before it are then delivered |
| `Truncation.FramesAlone` | internal/auth/chunked.go:67-76 | signed chunks without the terminating chunk read as a complete body, unless the connection fails there |
| `Truncation.BlankLineEnds` | internal/auth/chunked.go:77-83 | an empty line after any signed chunks ends the body as complete, whatever follows and however the stream ends |
| `Truncation.ChunkLost` | internal/auth/chunked.go:67-76 | two chunks sent, the body cut after the first: one is delivered and the body counts as complete |
| `Chunked.DecodeEncode` | internal/auth/chunked.go:47-183 | decoding the signed encoding of non-empty chunks gives their concatenation and ends |
| `Chunked.ForgedStops` | internal/auth/chunked.go:117-133 | a chunk with another signature delivers nothing, and neither does anything after it |
| `Chunked.HeaderBack` | internal/auth/chunked.go:162-183 | a rendered chunk header parses back to its size and signature |
| `Chunked.HexCase` | internal/auth/chunked.go:162-183 | upper and lower case digits of a size count the same |
| `ChunkedReader.ParseChunkHeader` | internal/auth/chunked.go:162-183 | the loop over the extensions takes the last signature |
| `ChunkedReader.Reader.ReadChunk` | internal/auth/chunked.go:67-116 | one chunk is checked and appended, and nothing is appended on an error |
| `ChunkedReader.Reader.Read` | internal/auth/chunked.go:47-66 | a read returns the next bytes or how the body ends; with what remains they are what remained |
| `ChunkedReader.Reader.ReadAll` | internal/auth/chunked.go:47-66 | reading on with buffers of any non-empty sizes delivers everything |
| `ChunkedReader.ReadEncoded` | internal/auth/chunked.go:36-66 | reading a signed body gives back its chunks whatever the buffer sizes |
| `Compaction.StripJoins` | internal/auth/sigv4.go:442-472 | stripping gives exactly the words of the text with one space between them |
| `Compaction.StripTwice` | internal/auth/sigv4.go:442-472 | it is idempotent |
| `Compaction.Compact` | internal/auth/sigv4.go:455-469 | the in-place loop keeps its write index behind its read index and collapses every run |
| `Compaction.StripExcessSpaces` | internal/auth/sigv4.go:442-472 | the whole function, for every text |
| `Ranges.ForwardedBack` | internal/cluster/client.go:354-362 | the node reads back the range the gateway sent |
| `Ranges.HopsAgree` | internal/storage/node_http.go:356-396 | for every header and size, going over the node changes nothing |
| `Ranges.InBounds` | internal/storage/backend_object.go:407-431 | every answer is the whole object, an error, or a non-empty piece inside the object |
| `Ranges.ClosedRange` | internal/s3api/object.go:562-596 | bytes a to b, cut at the end of the object, or an error when there are none |
| `Ranges.OpenRange` | internal/s3api/object.go:562-596 | from byte a to the end, or an error |
| `Ranges.SuffixRange` | internal/s3api/object.go:562-596 | the last n bytes, the whole of a shorter object, an error on an empty one |
| `Ranges.SuffixLength` | internal/s3api/object.go:562-596 | a suffix selects that many bytes, or all there are, if and only if it is not empty |
| `Ranges.Adjoining` | internal/storage/backend_object.go:407-431 | two ranges that meet give the bytes of one read over both |

## Left out

- HTTP handlers, XML and JSON rendering, routing, the web console, the command line and the deployment manifests.
- Raft itself (elections, log replication, membership, transport): one totally ordered committed log per shard is taken as given.
- Signature Version 4 canonicalisation other than the space compaction, and request authorisation.
- IAM accounts, bucket policies, notifications, lifecycle, CORS and the other bucket documents that are stored and returned as they are.
- CSV, JSON and gzip readers, output row encoding and event-stream framing of S3 Select: rows are values with a lookup function, an output line is an uninterpreted function of query and row.
- Error texts: an error is its code, and the parser's errors are one failure.
- Directories: a bucket's directory and a leftover history sub-directory are modelled, pruning of empty parent directories is not; file-system failures other than a missing file are not.
- Object metadata is modelled without its bucket and key fields, which always repeat the place it is stored at.
- Concurrent fan-out is counted one node at a time, and a node list is without repetitions.
- Multipart parts take no part in the recovery protocol: a part command carries no payload token, so a part a node missed is never fetched.
- Settled runs are the promise of the refinement; runs with an unsettled step are covered by the converse of `Runs.RunExact`, by `Failures`, `Surfacing` and `Agreement` only.
- Replicas.RecoveryConverges: buckets with versioning on and non-multipart commands only, because without versioning a pull is not of the committed payload (`Failures.UnversionedPullIsNewest`).
- Fresh.SaneRunAgrees: buckets in which versioning is suspended, or switched on over objects that were there before, are left to `Runs.RunExact` and its guard: their null versions can collide (`Failures.NullArchivesCollide`).
- Walks.ListsLive: no object has the empty key, which the source rejects before a path is made.
- Snapshot.InstallResult: the in-memory account map and modification times of unmanaged files are not modelled.
- ChunkedReader.Reader.ReadChunk: does not model the allocation of the announced chunk size, which the source makes before reading the data.
- Compaction.Compact: bytes are characters.
- Predicates.LikeExact: the regular-expression library is modelled by anchored matching of literals, any-character and any-run pieces.
- SqlLexer.LexText: character classes and case mapping outside ASCII are uninterpreted, so overlaps between Unicode classes are allowed for.
- SelectRun.Execute: negative zero is not told from zero, and number texts stand for the floats they parse to.
- Ranges.InBounds: the recorded size of an object is taken for its length, as `Reads.GetAgrees` proves for every valid store.
- Listing.ListObjects: objects and common prefixes are one list in listing order; the source returns them as two.

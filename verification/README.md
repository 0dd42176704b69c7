# Verified model of Sangraha's core

Sangraha is a single-binary S3-compatible object store written in Go. This project models the parts of it whose
correctness is hard to see and proves what they promise, for all inputs, all runs or all reachable states:

- **Leader election** (`ClusterNode`, `Election`, `ElectionProof`, `ElectionProgress`, `ElectionRaces`). Any number of
  nodes exchange vote requests, votes and heartbeats over a network that may lose, delay, reorder and duplicate
  messages. Each lock region of the program is one step: a vote handler tests in one step and writes in a later one,
  and a heartbeat tick checks the role in one step and reads the term in a later one. Election safety is proved for
  every run in which nobody votes for two candidates in one term, so for every run in which nothing comes between the
  two halves of a vote, whatever happens to heartbeat ticks; the agreement of heartbeats needs whole ticks as well.
  Terms are treated for all runs. From every state that undisturbed runs reach, a node that a majority is ready to
  follow can still be elected and make itself known. Concrete runs show what goes wrong otherwise.
- **Tiered backend** (`Tiered`). Writes go to the first tier and leave stale copies below; reads promote, a worker
  demotes, and each tier operation may fail. The tiers refine a plain map.
- **Storage engine** (`Storage`, `Engine`, `Accounting`, `AccountingLimits`, `VersionSafety`, `Multipart`, `ObjectReads`,
  `StorageWitnesses`, `Lifecycle`, `LifecycleRuns`). `Storage` gives each operation as a function from the records and
  blobs before to the outcome and the records and blobs after; `Engine` is the class that performs the same steps in
  place; the other modules prove what runs of these operations keep. Lifecycle passes are stretches of such runs.
- **Ordered metadata scans** (`Listing`, `VersionScan`). A bbolt bucket is a strictly sorted sequence of records and a
  cursor is an index into it; listing with prefix, delimiter and marker, and the version prefix scan, are loops over it.
- **Signature Version 4** (`SigV4`, `Presign`, `PresignRoundTrip`, `PresignBinding`). Percent-encoding over the
  unreserved set of section 2.3 of RFC 3986, canonical paths and query strings, and presigned URLs from the generator
  through the server's URL parser to the verifier, and what an accepted signature binds. SHA-256 and HMAC are
  arbitrary functions, which are taken to be free of collisions where it matters.
- **Rate limiter** (`RateLimit`). Token buckets over real numbers with a clock that does not run backwards.
- **Policy evaluation** (`Policy`). The recursive glob matcher and the statement loop against a declarative meaning.

`Basics` and `Strings` hold the shared vocabulary: byte strings, their lexicographic order, sorting, splitting, joining
and decimal numerals. Check the project with `dafny verify dfyconfig.toml`.

## Where the code differs from what one might expect

These are properties that do not hold as one would first state them. In each case the exact condition is proved, and for
the storage engine, the tiers and the election runs from the initial state show failures.

- A vote is written after another lock region may have run. In any run some node's term falls exactly when some vote is
  written below the voter's term at that moment (`Election.TermsRiseIff`). A late vote harms an election only as a
  second vote of its voter in one term (`ElectionProof.StepBallotsIff`, `ElectionProof.SafeUnlessDoubleVote`); one such
  vote can elect two leaders in that term (`ElectionRaces.SplitVoteElectsTwoLeaders`). One disturbed heartbeat tick can
  announce two addresses for one term, although no vote is disturbed (`ElectionRaces.SplitTickAnnouncesTwoLeaders`).
- The counters stay right through an operation exactly when the index entries, version records and part records that it
  relies on tell the blobs (`AccountingLimits.StepBalancesIff`, and for whole runs `AccountingLimits.RunBalancesIff`).
  Copies and completions count as new objects even when they overwrite one; a part is recorded with the size that the
  request declares, which need not be the size sent; suspension and the removal of a version leave index entries that
  mislead later puts and deletions (`StorageWitnesses.CopyMiscounts`, `CompletionMiscounts`,
  `MisdeclaredPartMiscounts`, `SuspendedPutMiscounts`, `RemovedVersionMiscounts`).
- An operation changes what a stored version reads exactly when it removes the version, deletes an object whose index
  entry names its blob, or writes other bytes to its blob name (`VersionSafety.StepKeepsVersionIff`, and for whole runs
  `VersionSafety.VersionReadsIff`). Copies and completions do so even while versioning is on, because they write the
  plain blob name; deletions do so after suspension (`StorageWitnesses.CopyOverwritesVersion`,
  `CompletionOverwritesVersion`, `SuspendedDeleteDropsVersion`).
- A marker listing skips keys that extend the marker by a NUL (`Listing.MarkerSkipsNothingIff`), and a walk fails to end
  exactly when an empty key fills a page by itself (`Listing.WalkEndsIff`). The file backend accepts neither kind of key.
- A completion drops only the part blobs numbered 1 to the length of the client's list (`Multipart.OrphanedPartIff`,
  `StorageWitnesses.CompletionOrphansPart`).
- Limits survive an operation exactly when the bytes and objects that it really adds fit (`Multipart.StepLimitsIff`, and
  for whole runs `Multipart.RunLimitsIff`). A put that understates its size passes the quota test, a copy is not tested
  at all, and deleting an object with a negative recorded size adds to the count of bytes
  (`StorageWitnesses.UndeclaredPutBreaksLimit`, `CopyBreaksLimit`).
- The handlers accept object keys that start with `.multipart/`, the name space of part blobs. A part's blob is the last
  body sent for it throughout a run exactly when no put, copy or completion writes other bytes to its name and no
  deletion drops an object of that name (`Multipart.RunPartIff`, `StorageWitnesses.PutReplacesPart`).
- A deletion that fails in a lower tier brings that tier's older copy back as the object
  (`Tiered.FailedDeletionRevives`, `Tiered.DeletionRevives`). So does a read that cannot ask the topmost tier whether it
  holds the object: it promotes the older copy over the newer one (`Tiered.ReadChangesIff`, `Tiered.ReadRevives`).
- A lifecycle rule sees only the first 1000 keys of its prefix; which objects that spares is exact in
  `Lifecycle.ExpiryExact`. In a bucket that has stopped keeping versions a pass takes the blob of a surviving object
  along exactly when a deleted entry named the same blob (`Lifecycle.PassSparesIff`, `Lifecycle.SharedBlobIff`).

## Assumptions

- *Election*: distinct nodes that share one membership, no restarts, unbounded terms.
- *Tiers*: each public operation and each per-object demotion is atomic; a failed tier operation changes nothing.
- *Storage*: one operation at a time and no storage faults; records are stored faithfully; generated identifiers have
  36 characters, hold no slash and are unused, those of one lifecycle pass also distinct. Runs are called proper when
  object keys do not start with `.multipart/`, either; `Multipart.RunPartIff` does without. Identifiers and clock
  readings are inputs. The file backend is a map from bucket and name to bytes, so keys are taken to be clean paths:
  it joins and cleans path names, and two spellings of one path would be one file.
- *Accounting*: `CountersTellHoldings` and `HistoryTellsHoldings` follow a bucket from its creation through runs whose
  versioning goes at most from disabled to enabled, whose copies and completions go to keys that hold no blob and whose
  parts are sent with their true size; `RunBalancesIff` assumes none of this.
- *Scans*: bucket names hold no NUL (they are validated when a bucket is created).
- *Presigning*: `SignatureBinds` and `OnlyTheGeneratedRequest` take the two hash functions to be free of collisions, and
  methods, dates and signed headers to hold no newline. In the round trip the base address is a scheme and a host (a
  name, or an address in brackets, with or without a numeric port) without a path; bucket and key consist of unreserved
  characters and slashes; access key and region hold no slash. The text forms of the clock are inputs, and so is the
  function that reads them back. A host spelled `http:` is excluded, because the generator would trim it a second time.

## Model

| member | source | states |
|---|---|---|
| Election.TermsRiseIff | internal/cluster/handler.go:59-69 | In any run, split votes included, no node's term ever falls exactly when every vote is written at a term no lower than its voter's at that moment; so terms rise in every run of the one-step vote handler |
| Election.StepLowersIff | internal/cluster/handler.go:64-69 | A step takes some node's term down exactly when it writes a vote below the voter's term |
| ClusterNode.Node.constructor | internal/cluster/cluster.go:62-92 | A node without peers leads from the start; any other starts as a follower that knows no leader |
| ClusterNode.Node.ReceiveHeartbeat | internal/cluster/cluster.go:165-190 | A heartbeat of an older term is refused and changes nothing; any other sets term, leader and follower role; a change is reported exactly when role or leader differed |
| ClusterNode.Node.VoteTest | internal/cluster/handler.go:59-63 | A vote is granted exactly for a term above the node's own |
| ClusterNode.Node.VoteWrite | internal/cluster/handler.go:64-69 | The granted term is taken over unconditionally, with the follower role; the known leader stays |
| ClusterNode.Node.Begin | internal/cluster/cluster.go:242-247 | A candidate of the next term; the election's term is that term |
| ClusterNode.Node.CountVotes | internal/cluster/cluster.go:251-256 | One vote of its own and one per peer that granted |
| ClusterNode.Node.Finish | internal/cluster/cluster.go:258-285 | Won exactly when the votes are more than half of the whole membership while the node is still a candidate of the election's term; the winner leads and names itself, a candidate that does not win follows again, and the term stays |
| ElectionProof.QuorumsMeet | internal/cluster/cluster.go:258-260 | Two majorities of one membership share a node |
| ElectionProof.ElectionOutcome | internal/cluster/cluster.go:242-285 | An election that ends makes its node leader of the election's term exactly when the node and the peers that granted are more than half of all nodes and it is still that term's candidate; otherwise a candidate follows again, and nobody else changes |
| ElectionProof.StepInv | internal/cluster/cluster.go:193-285 | Every step of every run, disturbed ones included, keeps the invariant: every leader has won its term, every win is backed by a majority of ballots for it, and every granted vote by a ballot |
| ElectionProof.StepBallotsIff | internal/cluster/handler.go:59-69 | Every step keeps it that nobody has voted for two candidates in one term exactly when it casts no second vote of its voter in a term for another candidate |
| ElectionProof.StepHeartbeats | internal/cluster/cluster.go:226-239 | Each step whose tick is whole sends heartbeats only from the winner of their term, under its address |
| ElectionProof.LoopStarts | internal/cluster/cluster.go:193-239 | A node with peers starts a heartbeat tick only while it leads and an election only while it does not |
| ElectionProof.SafeUnlessDoubleVote | internal/cluster/cluster.go:242-285 | In any run, late votes and split ticks included, two nodes that lead in the same term at any two moments are one node as long as nobody votes for two candidates in one term |
| ElectionProof.ElectionSafety | internal/cluster/cluster.go:242-285 | In every run of the one-step vote handler, whatever happens to heartbeat ticks, two nodes that lead in the same term at any two moments are one node |
| ElectionProof.HeartbeatsAgree | internal/cluster/cluster.go:226-239 | When ticks are whole as well, all heartbeats of one term, whenever sent, come from one node and name one address |
| ElectionProof.KnownLeaders | internal/cluster/cluster.go:165-190 | When ticks and votes are whole, the leader that a node knows has won a term that the node has reached, and an accepted heartbeat makes its receiver a follower that knows the address of the winner of its term |
| Election.TermsRise | internal/cluster/handler.go:59-69 | In any run in which no vote is written below its voter's term, a node's term never goes down between any two moments |
| ElectionProof.LeaderYieldsToHigherTerm | internal/cluster/cluster.go:165-190 | When ticks and votes are whole, a leader stops leading only on a vote request or heartbeat of a strictly higher term |
| ElectionProgress.CanBeElected | internal/cluster/cluster.go:193-285 | From every state that undisturbed votes reach, a waiting node that does not lead can become leader of its next term, whoever does not answer, when more than half of all nodes, itself among them, are up and at no later term |
| ElectionProgress.CanBeKnown | internal/cluster/cluster.go:206-239 | From every such state a waiting leader can make exactly the other nodes at no later term its followers, which then know its address |
| ElectionRaces.PossibleIsRun | internal/cluster/cluster.go:193-285 | Every executable step sequence is a run, and one without disturbed votes a run of the one-step vote handler, so the two counterexamples are runs of the protocol |
| ElectionRaces.SplitVoteElectsTwoLeaders | internal/cluster/handler.go:59-69 | A reachable state of three nodes with two leaders of term 1, after two requests passed one node's test before either was written |
| ElectionRaces.SplitTickAnnouncesTwoLeaders | internal/cluster/cluster.go:206-239 | A state, reachable without a disturbed vote, with heartbeats of one term that name two addresses, after a role check and the term read were separated |
| Tiered.ViewIsFirst | internal/backend/tiered/tiered.go:94-117 | The plain map that the tiers stand for holds each object's topmost copy |
| Tiered.MoveTouchesOneColumn | internal/backend/tiered/tiered.go:244-261 | A move, wherever it stops, changes the copies of its own object only |
| Tiered.PromoteKeepsFirst | internal/backend/tiered/tiered.go:234-236 | Promoting the topmost copy keeps the object's content, also when the move fails after its read, write or delete |
| Tiered.DemoteKeepsFirst | internal/backend/tiered/tiered.go:239-241 | Demoting from any tier into the next keeps the object's content, also half-failed and over stale copies; the topmost copy moves exactly one tier when nothing fails and stays topmost otherwise |
| Tiered.SinksOneTier | internal/backend/tiered/tiered.go:193-231 | Under right records and without a fault, the topmost copy of an object whose tier's threshold has passed is in the next tier after a pass |
| Tiered.SplitJoin | internal/backend/tiered/tiered.go:278-285 | Splitting bucket + "/" + key gives both back for a bucket without slashes |
| Tiered.JoinSplit | internal/backend/tiered/tiered.go:278-285 | Every compound key with a slash is the compound of its split, and the split's bucket has no slash |
| Tiered.DeleteView | internal/backend/tiered/tiered.go:120-131 | A deletion leaves as the object exactly the topmost copy among the tiers that failed, and every other object alone |
| Tiered.SurvivorNoneIff | internal/backend/tiered/tiered.go:120-131 | Nothing is left exactly when no tier whose deletion failed holds a copy |
| Tiered.FailedDeletionRevives | internal/backend/tiered/tiered.go:120-131 | When every copy above could be deleted and a lower one could not, that older copy becomes the object |
| Tiered.DeletionRevives | internal/backend/tiered/tiered.go:120-131 | A run from empty tiers that writes, demotes, writes again and then deletes with a failure in the lower tier ends with the first content |
| Tiered.ReadChangesIff | internal/backend/tiered/tiered.go:94-117 | A read changes the map exactly when the topmost copy is in a tier whose existence test errs, the first copy in another tier is written to the first tier, and the two differ |
| Tiered.ReadRevives | internal/backend/tiered/tiered.go:94-117 | A run from empty tiers after which a read has replaced the last content written by the one before it, in every tier |
| Tiered.TiersRefineMap | internal/backend/tiered/tiered.go:81-261 | Every step of every run of writes, deletions that may fail in any tiers, promoting reads with any errors and demotions with any faults is a step of a plain map, in which a deletion leaves the surviving copy, if any, and a read nothing new unless it promotes a stale copy |
| Tiered.CopiesWereWritten | internal/backend/tiered/tiered.go:81-261 | In a run from empty tiers every copy anywhere, so every survivor of a failed deletion, is the content of an earlier write of that object |
| Tiered.Backend.Write | internal/backend/tiered/tiered.go:81-90 | Success sets the object in the map and its record to the first tier; failure changes nothing |
| Tiered.Backend.Read | internal/backend/tiered/tiered.go:94-117 | Finds, returns and promotes the first copy in a tier whose existence test does not err; that is the object of the map, and no content changes, unless the topmost tier errs; records that named the topmost copies still do exactly when the promotion was whole, or copied nothing and no newer copy was missed, or none was needed |
| Tiered.Backend.Delete | internal/backend/tiered/tiered.go:120-131 | Each tier is tried; the object that survives in the map is the topmost copy among the tiers that failed, and without errors none; the record goes in any case |
| Tiered.Backend.Exists | internal/backend/tiered/tiered.go:134-145 | True exactly for objects of the map, and an error exactly when a tier fails to tell before one holds the object |
| Tiered.Backend.Stat | internal/backend/tiered/tiered.go:148-159 | The size of the object in the map, or nothing, or an error when a tier fails to tell before one holds the object or the holder's own call fails |
| Tiered.Backend.MoveObject | internal/backend/tiered/tiered.go:244-261 | Read, write, then delete of the source copy, stopping at the first failure |
| Tiered.Backend.RecordAccess | internal/backend/tiered/tiered.go:264-274 | The record holds the time and the tier |
| Tiered.Backend.DemoteOne | internal/backend/tiered/tiered.go:196-230 | One record's demotion: nothing happens in the last tier, in a tier without a threshold, or before the tier's threshold has passed since the last access; otherwise the object moves one tier as its fault allows, and the record follows only a complete move |
| Tiered.Backend.RunDemotion | internal/backend/tiered/tiered.go:183-231 | A pass, with any faults and in any order, keeps the map; an object without a record, or whose record names the last tier, a tier without a threshold, or an access more recent than its tier's threshold, keeps all its copies; under right records the topmost copy of any other named object goes down exactly one tier unless a fault stops it; every record still names the topmost copy |
| Storage.VersionedNameInjective | internal/storage/version.go:123-125 | Versioned blob names tell key and version apart |
| Storage.VersionedNameIsNoPart | internal/storage/version.go:123-125 | A versioned blob name is in the name space of parts only if its key is |
| Storage.VersionedNameHitsNoPart | internal/storage/version.go:123-125 | A versioned blob name is never the name of a part blob, whatever its key |
| Storage.PartNameInjective | internal/storage/multipart.go:70-71 | Part blob names tell upload and part number apart |
| Storage.SortRises | internal/storage/multipart.go:137-140 | The completed part list ascends by part number |
| Storage.RunTidy | internal/storage/object.go:54-121 | Runs keep versions and uploads under proper identifiers and all keys out of the name space of parts |
| Engine.StorageEngine.Put | internal/storage/object.go:54-121 | Outcome and whole store after a put: quota first, versioned or plain blob name, version record, index, counters |
| Engine.StorageEngine.Delete | internal/storage/object.go:291-353 | Outcome and whole store after a deletion: a delete marker on a bucket that keeps versions, else the object, its blob and its count |
| Engine.StorageEngine.RemoveVersion | internal/storage/version.go:96-113 | Outcome and whole store after deleting one version: its record and, for a non-marker, its blob and count; the index stays |
| Engine.StorageEngine.Copy | internal/storage/object.go:356-409 | Outcome and whole store after a copy: the plain name of the target, an entry without a version, and one more object in the count |
| Engine.StorageEngine.CreateMultipartUpload | internal/storage/multipart.go:29-60 | A new upload record, or no bucket |
| Engine.StorageEngine.SendPart | internal/storage/multipart.go:63-109 | The part's blob and its declared size, negative ones included, replace earlier ones, or no upload |
| Engine.StorageEngine.MultipartTotalSize | internal/storage/multipart.go:212-222 | The sum of the recorded sizes of the listed parts, zero for a part without a record |
| Engine.StorageEngine.AssembleParts | internal/storage/multipart.go:226-246 | The parts one after the other in the given order; nothing when one is missing |
| Engine.StorageEngine.CleanupMultipart | internal/storage/multipart.go:248-256 | The upload, all its part records and the part blobs 1 to n are gone; nothing else changes |
| Engine.StorageEngine.Complete | internal/storage/multipart.go:112-172 | Outcome and whole store after a completion: quota on the listed sizes, assembly in ascending order, index, count, cleanup |
| Engine.StorageEngine.Abort | internal/storage/multipart.go:175-193 | Outcome and whole store after an abort |
| Engine.StorageEngine.UpdateBucketStats | internal/metadata/bbolt/bbolt.go:210-229 | The counters of one existing bucket move by the given amounts |
| ObjectReads.PutReads | internal/storage/object.go:54-132 | A put is accepted exactly when the bucket exists and the declared size and one more object fit; then, under any versioning, the object reads as the body, and every object whose entry does not name the written blob as before |
| ObjectReads.CopyReads | internal/storage/object.go:356-409 | A copy is made exactly when its source reads as something and the target's bucket exists; then, under any versioning of both buckets, the target reads as the source did, and every other object whose entry does not name the target's blob as before |
| ObjectReads.DeleteReads | internal/storage/object.go:291-353 | After a deletion the object reads as nothing, and every other object whose entry names another blob as before |
| ObjectReads.CompleteReads | internal/storage/multipart.go:112-172 | A completion is accepted exactly when upload and bucket exist, the quota allows the recorded total and no listed part is missing, and otherwise reports the first of these that fails; then the object reads as the parts in ascending order |
| ObjectReads.StepRefinesMap | internal/storage/object.go:54-409 | The objects of a store, as reads find them, are a plain map on which each operation that is done acts by its name alone, under any versioning, as long as no other entry names the blob that it writes or drops |
| ObjectReads.UnversionedIsMap | internal/storage/object.go:54-409 | In every proper run without versioning each operation is a step of that map |
| ObjectReads.EntriesAreLastWritten | internal/storage/object.go:54-409 | In any run from an empty index, each entry has the time, tags, size and version of the last put, copy or completion of its object, and is gone exactly after a deletion |
| ObjectReads.UploadsAreLastStarted | internal/storage/multipart.go:29-60 | In any run from a store without uploads exactly the uploads that were started and not ended are open, each for the object and of the time of its start |
| ObjectReads.VersionsAreMade | internal/storage/object.go:124-132 | In any run from a store without versions exactly the versions and markers are recorded that puts and deletions made under versioning and that were not removed, with their sizes |
| ObjectReads.StepSettings | internal/storage/version.go:22-37 | Buckets and limits stay, and only a switch changes versioning, to what it says |
| Accounting.StepPartsMatch | internal/storage/multipart.go:63-109 | Every operation keeps part records and part blobs of open uploads in step, and the recorded sizes true when parts are sent with their true size |
| Accounting.StepBooks | internal/storage/object.go:54-121 | Every tame operation keeps a bucket's counters, versions and (before versioning) index in agreement with its blobs |
| Accounting.CountersTellHoldings | internal/storage/bucket.go:98-119 | From a new bucket on, in every tame run, ObjectCount and TotalBytes equal the number and summed size of the bucket's non-part blobs, and the emptiness test of DeleteBucket passes exactly when none is held |
| AccountingLimits.CopyBalancesIff | internal/storage/object.go:400-409 | A copy keeps the counters right exactly when no blob was at its target |
| AccountingLimits.PlainPutBalancesIff | internal/storage/object.go:192-214 | A put on a bucket that does not keep versions keeps the counters right exactly when index and blob of the key agree in presence and size |
| AccountingLimits.CompleteBalancesIff | internal/storage/multipart.go:161-169 | A completion keeps the counters right exactly when it fails, or no blob was at its target and the recorded part sizes add up to the length of the assembled parts |
| AccountingLimits.DeleteBalancesIff | internal/storage/object.go:291-353 | A deletion keeps the counters right exactly when the bucket keeps versions, or the key has no index entry, or the blob that the entry names is there with the entry's size |
| AccountingLimits.RemoveVersionBalancesIff | internal/storage/version.go:96-113 | Removing a version keeps the counters right exactly when there is no record, or it is a marker, or its blob is there with the recorded size |
| AccountingLimits.StepBalancesIff | internal/storage/object.go:54-409 | Every operation, under any versioning and with any declared sizes, keeps right counters right exactly when the entries and records it relies on tell the blobs |
| AccountingLimits.RunBalancesIff | internal/storage/object.go:54-409 | In any proper run, whatever sizes are declared and however versioning is switched, counters that are right at the start are right at every moment exactly when every operation meets its condition |
| StorageWitnesses.CopyMiscounts | internal/storage/object.go:385-409 | A run from a new bucket ends with wrong counters after an object is copied onto itself |
| StorageWitnesses.CompletionMiscounts | internal/storage/multipart.go:161-169 | A run from a new bucket ends with wrong counters after an upload is completed over an object |
| StorageWitnesses.MisdeclaredPartMiscounts | internal/storage/multipart.go:82-99 | A run from a new bucket ends with wrong counters after a completion, onto a free key, of a part whose two bytes were declared as none |
| StorageWitnesses.SuspendedPutMiscounts | internal/storage/object.go:192-214 | A run from a new bucket ends with wrong counters after a put over a version's index entry in a suspended bucket |
| StorageWitnesses.RemovedVersionMiscounts | internal/storage/object.go:326-353 | A run from a new bucket ends with wrong counters after a version is removed by identifier and its object deleted once versioning is suspended |
| VersionSafety.PutStores | internal/storage/object.go:54-132 | A put on a bucket that keeps versions makes its bytes readable under the version it returned and as the current object |
| VersionSafety.VersionsAreImmutable | internal/storage/version.go:63-125 | While versioning stays on, a stored version reads the same bytes after any run that does not delete it by its identifier and copies or completes nothing onto its own blob name |
| VersionSafety.CopyHitsVersionIff | internal/storage/object.go:385-409 | A copy changes a stored version exactly when it goes to that version's blob name with other bytes |
| VersionSafety.CompletionHitsVersionIff | internal/storage/multipart.go:137-145 | A completion changes a stored version exactly when it goes to that version's blob name with other bytes |
| VersionSafety.StepKeepsVersionIff | internal/storage/object.go:54-409 | Every operation, under any versioning, keeps what a version reads exactly when it does not remove the version, does not delete an object whose index entry names its blob, and writes no other bytes to its blob name |
| VersionSafety.VersionReadsIff | internal/storage/version.go:63-125 | In any proper run, however versioning is switched, a readable version reads the same at every later moment exactly when every later operation meets that condition |
| StorageWitnesses.CopyOverwritesVersion | internal/storage/object.go:385-409 | In a run from a new bucket a copy replaces the bytes of a version while the bucket keeps versions |
| StorageWitnesses.CompletionOverwritesVersion | internal/storage/multipart.go:137-145 | In a run from a new bucket a completion replaces the bytes of a version while the bucket keeps versions |
| StorageWitnesses.SuspendedDeleteDropsVersion | internal/storage/object.go:335-347 | In a run from a new bucket a deletion after suspension drops the blob of a version whose record stays |
| VersionSafety.LatestIsLastMade | internal/storage/object.go:124-132 | A stored version is latest exactly when it is the last put or delete marker made for its key |
| VersionSafety.OneLatest | internal/metadata/bbolt/bbolt.go:321-356 | No key ever has two latest versions |
| Multipart.PartsAreLastSent | internal/storage/multipart.go:63-109 | While an upload is open in a proper run, the blob of each part is the last body sent for it, whatever else happens in the store |
| Multipart.StepPartIff | internal/storage/object.go:54-409 | Whatever keys clients use, an operation that leaves the upload open keeps a part's blob exactly when it writes no other bytes to its name and deletes no object of that name |
| Multipart.RunPartIff | internal/storage/multipart.go:63-109 | In any run with fresh identifiers, whatever keys clients use, a part's blob is the last body sent at every moment while its upload is open exactly when every operation in between sends the part or meets that condition |
| StorageWitnesses.PutReplacesPart | internal/storage/object.go:54-121 | In a run from a new bucket a put under the name of a part's blob replaces the part |
| Multipart.CompletionAssembles | internal/storage/multipart.go:112-172 | Within the quota a completion fails exactly when a listed part was never sent, leaving the store alone; otherwise the object reads as the last bodies of the listed parts in ascending part number |
| Multipart.TotalMeans | internal/storage/multipart.go:212-222 | A listed part counts with its recorded size and one without a record as nothing |
| Multipart.QuotaSizeIsRecordedSize | internal/storage/multipart.go:121-164 | The size given to the quota test is the size recorded, however the client ordered the list |
| Multipart.CompletionSizeIsTrue | internal/storage/multipart.go:212-246 | With true declared part sizes the recorded size is the length of the completed object |
| Multipart.OrphanedPartIff | internal/storage/multipart.go:248-256 | Whatever sizes were declared, after a completion a part blob is left exactly when the part was sent and its number is not within 1 to the length of the list |
| Multipart.RunPartsMatch | internal/storage/multipart.go:63-109 | In any proper run from a store without uploads the recorded parts of open uploads are exactly those with a blob |
| StorageWitnesses.CompletionOrphansPart | internal/storage/multipart.go:248-256 | A run from a new bucket completes an upload whose only part has number 7 and leaves that part's blob |
| Multipart.AbortLeavesNoPart | internal/storage/multipart.go:175-193 | An abort leaves no part blob of its upload |
| Multipart.StepLimitsIff | internal/storage/object.go:54-409 | Every operation, whatever size it declares, keeps the limits of a bucket exactly when the bytes and objects that it really adds fit |
| Multipart.RunLimitsIff | internal/storage/quota.go:57-81 | In any run from limits that hold, they hold at every moment exactly when every operation meets that condition |
| Multipart.QuotaHolds | internal/storage/quota.go:57-81 | Limits that hold at the start hold throughout every run whose puts declare their size, whose parts declare no negative one and that copies nothing into the bucket |
| Multipart.UndeclaredPutBreaksLimitIff | internal/storage/object.go:63-118 | Whatever size it declares, a put that passes the test breaks no object limit, and breaks the byte limit exactly when the bytes it really adds are too many |
| StorageWitnesses.UndeclaredPutBreaksLimit | internal/storage/object.go:63-118 | A run from a new bucket with a limit of one byte ends above it after two bytes are declared as none |
| StorageWitnesses.CopyBreaksLimit | internal/storage/object.go:356-409 | A run from a new bucket with a limit of one object ends above it after a copy |
| Lifecycle.ObjectMatchesFilter | internal/storage/lifecycle.go:118-131 | True exactly when every tag of the rule has its value on the object, a missing tag counting as empty, and the key is no shorter than the prefix |
| Lifecycle.ListKeys | internal/storage/lifecycle.go:82-85 | The page holds, in ascending order, exactly the keys under the prefix that have fewer than 1000 such keys below them |
| Lifecycle.ExpireObjects | internal/storage/lifecycle.go:81-102 | The store after deleting the overdue objects of the page that was listed first |
| Lifecycle.AbortIncompleteMultiparts | internal/storage/lifecycle.go:104-116 | The store after aborting the bucket's uploads that were stale when listed |
| Lifecycle.ApplyBucketLifecycle | internal/storage/lifecycle.go:57-79 | The store after each enabled rule in turn, expiry before aborts |
| Lifecycle.ExpiryExact | internal/storage/lifecycle.go:81-102 | One rule's expiry removes exactly the objects it covers by prefix, tags and age that have fewer than 1000 keys of the prefix before them |
| Lifecycle.LifecycleExact | internal/storage/lifecycle.go:57-131 | Under any versioning a pass takes no object out of the index unless some enabled rule with positive days covers it, changes no other index entry, and takes out all covered objects when each such prefix has at most 1000 keys |
| Lifecycle.ExpiryByAge | internal/storage/lifecycle.go:57-131 | A pass takes an object out of the index only when an enabled rule with positive days has its prefix and tags and the object was last modified more than that many days of 86,400 seconds ago, and takes out all such objects when each prefix covers at most 1000 keys |
| Lifecycle.RuleByAge | internal/storage/lifecycle.go:81-102 | One rule's expiry takes exactly the objects for which it is due in these terms and that have fewer than 1000 keys of the prefix before them |
| Lifecycle.PassSparesContents | internal/storage/lifecycle.go:57-116 | The objects that a pass leaves, in any bucket, read as before, when the bucket keeps versions or no two of its index entries name one blob |
| Lifecycle.PassSparesIff | internal/storage/lifecycle.go:57-116 | An object that a pass leaves reads as before exactly when it had no content, or the bucket keeps versions, or no deleted entry named its blob |
| Lifecycle.SharedBlobIff | internal/storage/version.go:123-125 | Two index entries name one blob exactly when one of them is plain and its key spells the blob name of the other's version |
| Lifecycle.PassKeepsVersions | internal/storage/lifecycle.go:57-116 | A pass over any bucket leaves every stored version as it was |
| LifecycleRuns.PassIsRun | internal/storage/lifecycle.go:57-116 | A pass whose delete markers get fresh identifiers is a proper run of deletions in its bucket and of aborts, and what that assumes holds again afterwards |
| LifecycleRuns.HistoryIsRun | internal/storage/lifecycle.go:57-116 | Every history in which operations and passes alternate is embedded in a proper run of operations, so all that is proved of runs holds of it |
| LifecycleRuns.HistoryKeepsVersions | internal/storage/version.go:63-125 | While versioning stays on, a stored version reads the same bytes after any history whose single operations neither delete it by its identifier nor copy or complete onto its blob name, whatever passes hit its bucket |
| LifecycleRuns.HistoryTellsHoldings | internal/storage/bucket.go:98-119 | From a new bucket on, the counters tell the blobs held through any history of tame operations and any passes |
| LifecycleRuns.ExpiredIsOld | internal/storage/lifecycle.go:81-131 | In any run from an empty index, what a pass expires was last written, by a put, a copy or a completion, longer ago than some rule with its prefix and tags allows |
| LifecycleRuns.AbortedIsOld | internal/storage/lifecycle.go:104-116 | In any run from a store without uploads, what a pass aborts was started in that bucket longer ago than some rule allows |
| Lifecycle.AbortsExact | internal/storage/lifecycle.go:104-116 | A pass ends exactly the bucket's uploads that some enabled rule with positive abort days finds stale |
| Lifecycle.AbortsByAge | internal/storage/lifecycle.go:104-116 | A pass ends exactly the bucket's uploads that were initiated more days of 86,400 seconds ago than some enabled rule with positive abort days allows |
| Listing.ListObjects | internal/metadata/bbolt/bbolt.go:142-207 | The records of the cursor loop, and its groups as a strictly ascending list |
| Listing.ScanFrom | internal/metadata/bbolt/bbolt.go:168-195 | The cursor loop gathers, over the run of keys with the prefix, what the limit and the delimiter let in |
| Listing.ReachFromPrefix | internal/metadata/bbolt/bbolt.go:162-172 | Without a marker the scan reaches exactly the bucket's keys with the prefix |
| Listing.ReachFromMarker | internal/metadata/bbolt/bbolt.go:148-172 | With a marker under the prefix the scan reaches exactly the keys with the prefix that lie above the marker and do not extend it by a NUL |
| Listing.MarkerSkipsNothingIff | internal/metadata/bbolt/bbolt.go:162-163 | A marker scan misses no later key exactly when no key of the listing extends the marker by a NUL |
| Listing.NextPage | internal/metadata/bbolt/bbolt.go:148-166 | Continuing after the last record of a page reaches exactly what the page left |
| Listing.MarkerPagination | internal/metadata/bbolt/bbolt.go:142-207 | For NUL-free keys and any page size, unless an empty key fills a page, walking by marker ends and yields exactly the bucket's records with the prefix, strictly ascending |
| Listing.WalkEndsIff | internal/metadata/bbolt/bbolt.go:150-152 | A walk over NUL-free keys ends exactly when the empty key is not listed, or shares its page with another key |
| Listing.DelimiterGrouping | internal/metadata/bbolt/bbolt.go:175-206 | With room for all entries, the records are, each once and in key order, those without a delimiter after the prefix, and the groups exactly the cuts of all others |
| Listing.GroupingMeans | internal/metadata/bbolt/bbolt.go:142-207 | With room for all entries, counting 1000 when no positive limit is given, the records are exactly the keys of the prefix without a delimiter behind it, and the groups the beginnings of the others up to and including their first one |
| Listing.CutIsFirst | internal/metadata/bbolt/bbolt.go:177-180 | A group is its key up to and including the first delimiter after the prefix |
| Listing.ListingIsFirstPage | internal/metadata/bbolt/bbolt.go:142-207 | A plain listing from the start returns, ascending, the keys with the prefix that have fewer than MaxKeys such keys below them, MaxKeys being 1000 unless positive |
| VersionScan.PrefixIsKey | internal/metadata/bbolt/bbolt.go:235-242 | For NUL-free names the version prefix of a key is the prefix of exactly that key's versions |
| VersionScan.NulReachesOtherKeys | internal/metadata/bbolt/bbolt.go:235-242 | With a NUL in a name the prefix reaches another key's version |
| VersionScan.MarkVersionsNotLatest | internal/metadata/bbolt/bbolt.go:321-356 | Exactly the versions of the key lose their mark; every other record and every key stays |
| VersionScan.ScanMarksMap | internal/metadata/bbolt/bbolt.go:321-356 | On the map of versions that the database stands for, the scan is the marking that the engine's puts and delete markers do |
| VersionScan.TableIsMap | internal/metadata/bbolt/bbolt.go:235-254 | Every sorted database stands for one map from version identifiers to records |
| SigV4.EncodeLoop | internal/auth/sigv4.go:211-222 | The encoding loop computes the byte-by-byte percent-encoding |
| SigV4.EncodesByByte | internal/auth/sigv4.go:209-229 | Letters, digits, hyphen, dot, underscore and tilde stay, a slash stays unless all is encoded, and any other byte becomes a percent sign and two upper-case hexadecimal digits |
| SigV4.EncodeRoundTrip | internal/auth/sigv4.go:211-229 | Percent-decoding, as in a path or in a query, undoes the encoding of any bytes |
| SigV4.EncodeInjective | internal/auth/sigv4.go:211-229 | Different strings have different encodings |
| SigV4.EncodedAlphabet | internal/auth/sigv4.go:211-229 | A full encoding holds only unreserved characters and percent signs, so neither "=" nor "&" |
| SigV4.SegmentsAreEncoding | internal/auth/sigv4.go:143-153 | Encoding a path segment by segment is encoding it whole with slashes kept |
| SigV4.CanonicalURIFaithful | internal/auth/sigv4.go:143-153 | Two paths have one canonical form exactly when they are equal, no path counting as the root |
| SigV4.CanonicalQueryString | internal/auth/sigv4.go:155-167 | For any order of visiting the map, the result is the canonical string of a list of exactly its pairs |
| SigV4.CanonicalQueryFaithful | internal/auth/sigv4.go:155-167 | Two parameter maps have the same canonical string exactly when they hold the same (name, value) pairs, each as often |
| Presign.CanonicalUnique | internal/auth/sigv4.go:155-167 | A map has one canonical query string |
| Presign.Verify | internal/auth/presign.go:78-121 | The verdict for the canonical query without the signature: missing parameters, bad date, expiry, bad credential and signature, in that order |
| PresignBinding.VerdictMeans | internal/auth/presign.go:78-176 | Malformed exactly without the algorithm or one of the five parameters, then bad date, then expired exactly after date plus expiry, then bad credential without five fields, then accepted exactly when signed |
| Presign.Compare | internal/auth/presign.go:98-121 | Accepted exactly when the signature in the URL is that of the rebuilt string under the key derived from the credential |
| PresignBinding.SignedMeans | internal/auth/presign.go:98-121 | Signed means that the signature is the hexadecimal keyed hash, under the four-link key chain from the secret, of the algorithm, date, scope and the hash of the request's lines: method, path, query, one line per signed header, an empty line, the signed names and UNSIGNED-PAYLOAD |
| PresignBinding.HexMeans | internal/auth/presign.go:114-117 | Each byte of the keyed hash becomes two lower-case hexadecimal digits |
| Presign.HeaderLines | internal/auth/sigv4.go:169-185 | The loop over the sorted signed names writes one line each: the host from the request, any other header trimmed, or nothing |
| PresignBinding.HeaderLineMeans | internal/auth/sigv4.go:169-185 | The line of a header named in small letters: the request's host, or the trimmed value, or nothing |
| PresignBinding.TrimMeans | internal/auth/sigv4.go:169-185 | Exactly the blanks around a value are taken off |
| PresignRoundTrip.QueryRoundTrip | internal/auth/presign.go:51-74 | Parsing a query of encoded pairs gives each value back under its name, in order |
| PresignRoundTrip.QueryIsCanonical | internal/auth/presign.go:51-62 | The query that the generator signs is the canonical query of its parameters |
| PresignRoundTrip.GeneratedRequest | internal/auth/presign.go:25-75 | The server receives a generated URL, sent with any other headers, as its host, its path and its six parameters |
| PresignRoundTrip.StringsAgree | internal/auth/presign.go:98-121 | The verifier rebuilds from that request the very string that the generator signed |
| PresignRoundTrip.PresignedUrlAccepted | internal/auth/presign.go:25-176 | The signed query is the canonical query of the request that a generated URL makes, and with the generator's secret the verifier accepts it at every instant up to the signing second plus the whole expiry seconds, and reports it expired at every later one |
| PresignBinding.SignatureBinds | internal/auth/presign.go:98-121 | Without hash collisions, two signed requests with one signature, secret and key scope have the same method, path, signing time, signed header names and values, and the same unsigned parameters, each as often |
| PresignBinding.OnlyTheGeneratedRequest | internal/auth/presign.go:25-176 | Without hash collisions, an accepted request that carries a generated signature and its key scope has the method, path, host and parameters that were signed, the expiry among them |
| PresignBinding.GeneratesIff | internal/auth/presign.go:32-34 | A URL is generated exactly for an expiry above zero and up to seven days of 86,400 seconds |
| PresignBinding.ParamMeans | internal/auth/presign.go:135-142 | A parameter is the first value of its name or, if that is empty, of the name in small letters |
| PresignBinding.ParseIntMeans | internal/auth/presign.go:168-171 | Decimal numerals with an optional sign are read when 64 bits hold them, and nothing else |
| RateLimit.AfterSound | internal/api/middleware/ratelimit.go:27-49 | Tokens stay between 0 and the capacity |
| RateLimit.WindowBound | internal/api/middleware/ratelimit.go:27-49 | Any window of consecutive calls on one bucket admits at most rps plus rps times the window's length, with the bound written out |
| RateLimit.CallsGoByTheBook | internal/api/middleware/ratelimit.go:27-49 | Each call adds rate times the elapsed time to what the earlier calls left, up to the capacity, is admitted exactly when that makes a whole token, and then takes one |
| RateLimit.SpacedCallsPass | internal/api/middleware/ratelimit.go:27-49 | With a rate of at least one, calls that are at least 1/rps apart are all admitted |
| RateLimit.BurstExact | internal/api/middleware/ratelimit.go:18-49 | Of calls at one instant on a new bucket exactly the first floor(rps) are admitted |
| RateLimit.KeysAreIndependent | internal/api/middleware/ratelimit.go:58-67 | The decisions for one key in any interleaving are those of that key's calls alone |
| RateLimit.LimiterBound | internal/api/middleware/ratelimit.go:58-67 | From no buckets, whatever other keys call, any window of one key's calls admits at most rps plus rps times its length |
| RateLimit.TokenBucket.TryTake | internal/api/middleware/ratelimit.go:27-49 | Decision and new fields of one call, by the refill rule with the product written out |
| RateLimit.RateLimiter.TryTake | internal/api/middleware/ratelimit.go:58-67 | Decision and new state of all buckets: the key's own bucket, made on demand, and no other |
| RateLimit.FreshStampIsIdle | internal/api/middleware/ratelimit.go:18-25 | The moment at which a bucket is made does not matter to its first call |
| Policy.MatchStar | internal/auth/iam.go:199-213 | A leading star matches exactly when the rest of the pattern matches some tail of the target |
| Policy.OneByte | internal/auth/iam.go:218-223 | A byte that is no wildcard stands for one byte that is the same but for the case of an ASCII letter, any two bytes outside ASCII counting as the same |
| Policy.QuestionMark | internal/auth/iam.go:212-217 | A question mark stands for exactly one byte |
| Policy.PlainPattern | internal/auth/iam.go:196-227 | A pattern without wildcards covers exactly the strings that are the same but for case |
| Policy.GlobMatchRecursive | internal/auth/iam.go:196-227 | The matcher ends and agrees with the declarative meaning of a glob: each star any string, each question mark one byte, letters case-folded |
| Policy.GlobMatch | internal/auth/iam.go:189-194 | The same with the shortcut for a lone star |
| Policy.MatchesPrincipal | internal/auth/iam.go:126-164 | A principal is admitted by an absent, a wildcard or an equal name, in a list or in any field of an object |
| Policy.MatchesStringOrSlice | internal/auth/iam.go:174-186 | A string or one string of a list covers the target |
| Policy.EvalPolicy | internal/auth/iam.go:75-97 | Deny exactly when some matching statement denies; allow exactly when none denies and some matching one allows |
| Policy.OrderIsIrrelevant | internal/auth/iam.go:75-97 | Reordering or repeating statements changes no decision |
| Policy.IsAllowed | internal/auth/iam.go:103-124 | Root and absent policies allow; a malformed policy refuses; otherwise some Allow statement must apply to the resource name and no Deny statement |

## Left out

- Votes and heartbeats as HTTP: peers that answer with errors count as not granting; timers are nondeterministic steps; `uint64` terms do not wrap around.
- Interleavings inside one storage or tier operation: `moveObject` holds no lock, and a write between its read and its delete can be lost.
- VersionScan.MarkVersionsNotLatest: takes and returns the sequence of records; the database that the program writes back to is a value here.
- Storage.SortRises: the program sorts the client's list in place; here the sorted list is a new sequence.
- Continuation tokens: the code seeks to the token without the bucket in front, although the handler hands out the bare key.
- A start-after key below the prefix, and delimiter listings that the limit cuts short: the code's pages do not partition the listing there.
- `ListVersions`, `ListBucketVersions` and `ListParts`: prefix scans like the one in `VersionScan`.
- Creating, deleting and re-creating buckets: index entries that `DeleteObjectVersion` leaves behind outlive their bucket.
- `ApplyLifecycle`'s loop over buckets and `DeleteObjects`' loop over keys: one pass, one deletion at a time is modelled.
- Accounting.CountersTellHoldings: says nothing about suspended buckets, overwriting copies and completions, or misdeclared parts; for these AccountingLimits.RunBalancesIff gives the exact condition.
- VersionSafety.VersionsAreImmutable: the version's own blob name is excluded as a target of copies and completions, because the code does not protect it; VersionSafety.VersionReadsIff has no such exclusion, and LifecycleRuns.HistoryKeepsVersions adds passes.
- ETags, content types, metadata, server-side encryption, notifications, webhooks and replication: fields and side effects beside the stores.
- `VerifyRequest` with the Authorization header; of headers with several values the first one counts, as in the program, and trimming knows the ASCII spaces only.
- SHA-256, HMAC, and the clock's text formats: parameters.
- `net/url`: the server's parsing of addresses and queries is modelled for http and https URLs with a path, without user names, ports being part of the host and fragments.
- The float64 rounding of token counts.
- bbolt transactions and JSON encoding of records.
- Part numbers above 99999, whose records bbolt would not keep in numeric order.
- Bucket settings such as ACL, CORS, website, tags and quotas themselves; access keys; console, CLI, GC, export, import, alerts and audit.

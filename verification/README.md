# A verified model of the naust-jmap object database and query runtime

naust-jmap is a JMAP server framework in Go. This project models the parts of it that
are hard to get right, in Dafny 4.11, and proves what they are for:

- **The object database** (`core/objectdb`): one account's records, indexes, blob
  references, change log and state strings in an ordered key-value store, changed by
  atomic batches. `KeyEncoding`, `Keys`, `Store`, `Schema`, `IndexOps`, `Commits`,
  `ObjectDb`, `IndexScans`.
- **The change log** (`Changes`, `ChangedSince`, `TrimChanges`): coalescing and paging,
  trimming, and readers that take no lease while commits and trims go on around them.
  `History`, `ChangeLog`, `Trim`, `Runs`, `LogReaders`, `Witnesses`.
- **Queries** (`core/runtime/query.go`): the filter planner, comparators, windowed
  sorting, `Foo/query`, and `Foo/queryChanges` with its splice, its races and its
  collapsed lists. `Results`, `Places`, `Planner`, `Comparators`, `Selection`,
  `RecordSort`, `Evaluate`, `TornReads`, `QueryPairs`, `TornQuery`, `Splice`,
  `QueryChanges`, `QueryReads`, `QueryRuns`, `QueryReply`, `Collapse`, `CollapsedRuns`.
- **The writer lease**, **blob collection**, **request slots**, the **duplicate-name
  check** of the JSON scanner, and the **mailbox tree**: `Lease`, `LeasedRuns`, `Blobs`,
  `Slots`, `DupNames`, `Mailbox`.

Code that changes state step by step is modelled by classes and methods with loops
(the `Update` that stages a commit, the batch builders, the log walks, the trim, the
sweep, quickselect on an array, the probe table, the mailbox tree) and proved against
specification functions and predicates. Concurrency is modelled by step systems
(`Lease`, `Slots`) and by runs of stores in which every read of a reader has a moment
of its own (`Runs`, `LogReaders`, `TornReads`, `QueryPairs`, `QueryRuns`,
`CollapsedRuns`).

`Results.Result` is what a query's list is, `Runs.IsHistory` what an account's past
is, `Commits.Committed` what a commit is; everything else is tied to these.

## Properties the code does not have

Each comes with a lemma or a method that exhibits an input, and with the exact
condition under which the code is right.

- `Foo/queryChanges` reads its new state before the bound of the log walk. A record
  created between the two reads is reported twice and stays twice in the client's list
  (`QueryChanges.RaceDuplicates`). The next reply with positions is right if and only if
  no result was created there, whatever has become of it since
  (`QueryChanges.NextReplyIff`). The comment at `core/runtime/query.go:294-298` calls
  re-reporting harmless.
- `Foo/query` evaluates with no snapshot and reads the state it reports afterwards. A
  record that enters in between is in no list (`QueryChanges.LateStateHides`); and a
  record that matches before and after a commit, in the same place, is missed when the
  commit falls between two index reads of the one evaluation (`TornQuery.TornMissed`).
  Records no commit named from the first read to the state read are always judged right
  (`QueryPairs.UndisturbedJudged`); the list is the state's result if and only if each of
  the others was judged and placed as at the state (`QueryPairs.QueryPairIff`).
- The last page of `Foo/changes` reports the type's state as read after the scan. A
  commit in between is skipped for good, be it a record
  (`Witnesses.LateCommitMissed`) or a property missing from `updatedProperties`
  (`Witnesses.LatePropsMissed`; exact condition: `LogReaders.LastPageExact`, over runs
  `LogReaders.LastPageInRun`).
- An update that moves an OrderBy sibling of a property it keeps indexed strands the old
  index key; `Put` accepts it, though the descriptor declares the sibling immutable
  (`Witnesses.OrderMoved`; exact condition: `Commits.AgreementNeedsOrderKept` with
  `Commits.CommitKeepsAgreement`, over runs `Runs.RunAgrees`).
- The evaluation narrowed to an upToId anchor misplaces results when a matching record
  lacks the sort property (`QueryReply.NarrowedMisplaces`; exact condition:
  `QueryReply.NarrowedIffPresent`).
- Collapsed replies are wrong when the companion lists only groups whose membership
  changed (`Collapse.MembershipListingFails`; exact condition:
  `Collapse.CollapsedSpliceExact`).
- A value that does not encode compares equal to everything and makes a comparator
  inconsistent (`RecordSort.MuddledCycle`; exact condition: `Comparators.ConsistentIff`).
  Kind-checked records never are (`Evaluate.CheckedSortable`), and nothing else is stored
  (`ObjectDb.CommitKeepsChecked`); it takes a property whose kind changed under records
  stored before.
- Commit times are kept to the millisecond, so a log entry may be trimmed up to one
  millisecond before its retention is over (`Trim.ExpiredEarly`; exact condition:
  `Trim.RetentionKeptIff`), though a client offline for less is promised never to resync.
- Upload times are truncated to the second, so a blob may be collected up to one second
  before the hour section 6 of RFC 8620 grants it is over (`Blobs.CollectedEarly`; exact
  condition: `Blobs.GraceKeptIff`). The comment on `SweepBlobs` says never less.
- Sweeping until there is no more may leave blobs past their grace: a call's worth of
  young nominations with smaller ids hides them (`Blobs.StarvedLate`; exact condition:
  `Blobs.Drain`).

## Model

| member | source | states |
|---|---|---|
| KeyEncoding.Segment | core/internal/keyenc/keyenc.go:13-25 | appending byte by byte yields the escaped, terminated segment |
| KeyEncoding.Key | core/internal/keyenc/keyenc.go:27-40 | the buffer holds exactly the encoded tuple and is filled to the capacity it was allocated with |
| KeyEncoding.PrefixSuccessor | core/internal/keyenc/keyenc.go:43-55 | working in place from the end finds the least string above every string with the prefix, or none |
| KeyEncoding.KeyOrder | core/internal/keyenc/keyenc.go:13-40 | byte order on keys is lexicographic order on segment tuples |
| KeyEncoding.KeyInjective | core/internal/keyenc/keyenc.go:13-40 | different tuples have different keys, whatever their bytes |
| KeyEncoding.PrefixRangeExact | core/internal/keyenc/keyenc.go:43-60 | a prefix range holds exactly the keys of tuples with that prefix |
| KeyEncoding.AtMostRange | core/objectdb/objectdb.go:1235-1266 | the range read for values at most v holds exactly the keys whose value segment is at most v |
| KeyEncoding.AtLeastRange | core/objectdb/objectdb.go:1269-1294 | the range read for values at least v holds exactly the keys whose value segment is at least v |
| Keys.Int64Order | core/providers/backend/backend.go:102-107 | byte order on encoded counters is numeric order over all of int64 |
| Keys.Int64RoundTrip | core/providers/backend/backend.go:102-114 | decoding an encoded counter gives it back |
| Keys.KeyBytesInjective | core/objectdb/keys.go:57-123 | no two facts, of one account or two, share a key |
| Keys.IndexRowOrder | core/objectdb/keys.go:67-73 | index rows of one value scan back in OrderBy order, then id order |
| Keys.LogRowOrder | core/objectdb/keys.go:75-81 | log rows scan back in sequence order |
| Keys.IdFromObjKey | core/objectdb/objectdb.go:302-311 | the backward scan returns what lies between the last two terminators |
| Keys.IdRecovered | core/objectdb/objectdb.go:302-311 | what is read back is the id if and only if it holds no zero byte |
| Keys.CheckId | core/jmap/types.go:19-32 | accepts exactly 1 to 255 bytes of the alphabet of section 1.2 of RFC 8620 |
| Keys.ValidIdRecovered | core/objectdb/objectdb.go:302-311 | every valid id comes back from a key it ends |
| Keys.SeqFromLogKey | core/objectdb/changes.go:212-236 | the sequence number comes back from every log key |
| Store.ApplyAt | core/providers/backend/backend.go:51-53 | a batch is determined key by key: the last operation on a key wins, other keys keep their value |
| IndexOps.RefOps | core/objectdb/blobs.go:368-383 | key by key: dropped references are deleted and nominate their blob, added ones are set and clear the nomination |
| IndexOps.ScalarOps | core/objectdb/objectdb.go:1114-1166 | refused exactly where a value, or an OrderBy value a moved key needs, does not encode; else exactly the keys of the old and new value change |
| IndexOps.MemberOps | core/objectdb/setindex.go:71-108 | refused exactly where changed bytes do not list their members; else exactly the members that came or went change |
| IndexOps.RecordOps | core/objectdb/objectdb.go:965-1037 | refused exactly where one of its indexed properties is; else one record's operations change exactly its own keys, as its old and new versions demand |
| ObjectDb.Update.Get | core/objectdb/objectdb.go:504-517 | reads the staged version if there is one, else the committed one, through the read cache |
| ObjectDb.Update.Create | core/objectdb/objectdb.go:624-646 | accepted exactly for a known type, no id and valid kinds; stages the record with its quoted id |
| ObjectDb.Update.WritableMeans | core/objectdb/objectdb.go:648-687 | a write is accepted exactly on a visible record, under its own id, with every property declared and passing its check |
| ObjectDb.Update.Put | core/objectdb/objectdb.go:648-687 | accepted exactly on a visible record under its own id with valid kinds; keeps the committed pre-image and makes the record loud |
| ObjectDb.Update.PutInternal | core/objectdb/objectdb.go:689-716 | accepted exactly if moreover only Internal properties change; leaves quiet what was quiet |
| ObjectDb.Update.Destroy | core/objectdb/objectdb.go:718-735 | accepted exactly on a visible record; keeps its pre-image |
| ObjectDb.Update.IdsWhereEqual | core/objectdb/objectdb.go:794-844 | mid-commit, exactly the records this Update sees with the value; fails exactly for an unindexed property, a value that does not encode, or a staged record whose value does not |
| ObjectDb.Update.IdsWhereMember | core/objectdb/setindex.go:138-182 | mid-commit, exactly the records this Update sees with the member; fails exactly for a property without set index or a staged record that does not list its members |
| ObjectDb.Update.LowestMemberId | core/objectdb/setindex.go:190-254 | the minimum of that set, though only a prefix of the index range is read; refused exactly where IdsWhereMember is |
| ObjectDb.OverlayIsNextIndex | core/objectdb/objectdb.go:794-844 | what the overlay answers mid-commit is what the committed index answers right after the commit |
| ObjectDb.Update.BuildBatch | core/objectdb/objectdb.go:928-1075 | refused exactly where a staged record's index values do not encode; else the batch is, key by key, what the staged records, the log entry and the states demand |
| ObjectDb.Db.Commit | core/objectdb/objectdb.go:365-470 | nothing, or everything at once with the next sequence number and the clock's milliseconds in the log entry; refused exactly where a staged record's index values do not encode, leaving the store; nothing but kind-checked records is stored |
| ObjectDb.CommitKeepsChecked | core/objectdb/objectdb.go:855-872 | after every commit of an Update all stored records pass their kind checks |
| ObjectDb.CheckedNeverRefused | core/objectdb/objectdb.go:1114-1166 | where kind checks accept only values that encode and list, what an Update accepted is never refused by the commit |
| ObjectDb.FineMeans | core/objectdb/objectdb.go:1114-1192 | a record is refused exactly where an indexed value, an OrderBy value of a moved key or changed members do not encode, value by value |
| IndexScans.IdsWhereAtMost | core/objectdb/objectdb.go:1235-1266 | over an agreeing store, exactly the records whose encoded value is at most the bound, in value, OrderBy and id order, cut at the limit; refused exactly for an unindexed property or a bound that does not encode |
| IndexScans.IdsWhereAtLeast | core/objectdb/objectdb.go:1269-1294 | the same for values at least the bound |
| IndexScans.AtMostRestricts | core/runtime/query.go:463-486 | that read is the set the narrowed evaluation of an anchored reply is restricted to |
| Commits.CommitKeepsAgreement | core/objectdb/objectdb.go:1114-1192 | whatever mix of writes a commit holds, index and reference keys agree with the records after it if no update moves an OrderBy sibling |
| Commits.AgreementNeedsOrderKept | core/objectdb/objectdb.go:1114-1192 | and only then |
| Commits.RowsAreValues | core/objectdb/objectdb.go:1114-1192 | where they agree, an index row is there if and only if the record holds a value with that encoding, with the encodings of its OrderBy siblings, or lists that member |
| Commits.CommitLogsTruth | core/objectdb/objectdb.go:928-1075 | the log entry is a legal account of how the visible data changed; nothing logged means nothing visible changed |
| Commits.LoggedMeans | core/objectdb/objectdb.go:1005-1037 | a record is logged as created, destroyed or updated exactly as the stores around the commit tell, bookkeeping writes excepted |
| Commits.QuietUnlogged | core/objectdb/objectdb.go:689-716 | a commit of bookkeeping writes moves no state and logs nothing |
| Commits.ShownAs | core/objectdb/objectdb.go:1005-1037 | what counts as visible is a record without its Internal properties |
| Commits.PropsCoverUpdates | core/objectdb/objectdb.go:1080-1109 | the logged property list covers every visible change of a reported update |
| Commits.PropsAreChanges | core/objectdb/objectdb.go:1005-1037 | the logged properties are exactly those a reported update changed that are not Internal |
| Commits.StateMovesWithData | core/objectdb/objectdb.go:1038-1075 | the state string moves, to an unused number, exactly when the commit logs or bumps the type |
| ChangeLog.Changes | core/objectdb/changes.go:38-208 | a page is exactly the net effect of the type's entries since the client's state; it ends before the first entry with which it might exceed maxChanges and names the entry before; refused exactly for an unissued or trimmed state, or when it would end with nothing to report |
| ChangeLog.CoalescingIsFate | core/objectdb/changes.go:79-100 | coalescing reports what became of every id, whatever happened to it on the way |
| ChangeLog.PageIsNetChange | core/objectdb/changes.go:179-191 | created is new minus old, destroyed old minus new, updated the survivors touched |
| ChangeLog.PropsCoverNet | core/objectdb/changes.go:147-191 | a reported property set covers every property in which a surviving record differs between the page's ends |
| ChangeLog.PropsOfWindow | core/objectdb/changes.go:79-191 | the properties are known exactly if every updating entry lists its own and no destroyed id came back, and then they are those listed |
| ChangeLog.ChangedSince | core/objectdb/changedids.go:59-206 | per type, the coalesced marks of exactly the window up to the sequence read first; refused exactly for an unissued or trimmed state, for too many commits, or for more than maxIds logged ids |
| ChangeLog.MarksAreFate | core/objectdb/changedids.go:103-137 | the four-way marks carry the same net effect as Changes and mark exactly the touched ids |
| ChangeLog.ChangedSinceIsNetChange | core/objectdb/changedids.go:188-206 | the lists are the net change of the window |
| Trim.TrimChanges | core/objectdb/trim.go:54-173 | deletes exactly as many oldest entries as retention and cap ask for, at most 4096, and raises the floor just past them in the same batch |
| Trim.CountDrop | core/objectdb/trim.go:86-141 | the point reads and the early stops of the counting scan give the number a full count would |
| Trim.OnlyExpiredGo | core/objectdb/trim.go:37-51 | unless the cap forces it, only entries past retention go |
| Trim.ExpiresWhen | core/objectdb/trim.go:37-51 | an entry ages out once the retention has passed since the millisecond of its commit began |
| Trim.RetentionKeptIff | core/objectdb/trim.go:37-40 | it stays for the whole retention if and only if its commit was on a full millisecond |
| Trim.ExpiredEarly | core/objectdb/trim.go:37-40 | an entry that goes half a millisecond early |
| Trim.TrimAll | core/objectdb/trim.go:13-17 | calling until zero stops, with at most maxEntries entries and no expired one in front |
| Runs.FloorTellsTruth | core/objectdb/trim.go:46-53 | over every run the floor only rises, nothing below it is left, and every committed entry at or above it is still there |
| Runs.RunHasHistory | core/objectdb/objectdb.go:928-1075 | every run of commits, trims and blob writes records one legal history per type, which all its stores agree with |
| Runs.LogIsComplete | core/objectdb/changes.go:58-68 | from the floor on, a store's log is the whole truth about every window, property lists included |
| Runs.StatesTellTruth | core/objectdb/objectdb.go:313-337 | where a type's state has not moved, every record shows the same at every moment in between |
| Runs.BracketedReads | core/runtime/query.go:287-292 | an equal sequence before and after means no record of any type changed in between, byte for byte |
| Runs.RunAgrees | core/objectdb/objectdb.go:1114-1192 | over every run, indexes and references agree with the records at every point if and only if no commit moved an OrderBy sibling |
| Runs.RefsAreNames | core/objectdb/blobs.go:337-383 | over every run a reference key is there if and only if a BlobRef property of the stored record, mutable or not, holds the string naming the blob |
| LogReaders.ScanIsSnapshot | core/objectdb/changes.go:164-177 | a scan read row by row under any interleaving, whose start the floor read afterwards does not exceed, is the log at the scan's last moment |
| LogReaders.ChangesInRun | core/objectdb/changes.go:38-208 | a call anywhere in any run answers with the exact net change, lists and properties, up to the boundary it names, or the last commit its scan could see; the state a last page names is the one it leads to if and only if it misses nothing |
| LogReaders.LastPageExact | core/objectdb/changes.go:200-207 | a page is exact up to a later state, lists and properties, if and only if no commit in between made a record come or go, changed it for the first time, or changed a property the page does not name |
| LogReaders.LastPageInRun | core/objectdb/changes.go:200-207 | over any run, the state read after the scan is the one the page leads to if and only if the page misses nothing that way; always when the state is not past the scan |
| LogReaders.CatchUpInRun | core/objectdb/changes.go:122-137 | a client following intermediate states, every page at its own moments of the run, strictly advances, ends, and holds the server's id set, or is refused for its state or an oversized commit |
| Witnesses.LateCommitMissed | core/objectdb/changes.go:200-207 | a run of real commits in which a client is told a state whose one record it never hears of |
| Witnesses.LatePropsMissed | core/objectdb/changes.go:179-207 | a run in which the page's lists are right at the state it names, and its property list is not |
| Witnesses.OrderMoved | core/objectdb/objectdb.go:1152-1163 | a valid descriptor and an accepted write after which the index disagrees with the record |
| LogReaders.ChangedSinceInRun | core/objectdb/changedids.go:59-206 | a call anywhere in any run answers with the exact net change of every type up to the sequence it read first; refused exactly for its state, for being too far behind, or for more touched ids than allowed |
| Lease.RunSerializable | core/providers/lease/storelease.go:121-196 | in every run of any instances, of either manager, the committed batches form one chain, each computed from reads that still held and with no other lease committing since its own was won |
| Lease.LeftAloneCommits | core/providers/lease/storelease.go:121-196 | left alone, a free instance of either manager wins the lease whatever the claim says, and its batch is applied to the store it read |
| Lease.FencedOff | core/providers/lease/lease.go:109-199 | once another instance has won the lease, the old holder's batch is not applied |
| Lease.LateReleaseHarmless | core/providers/lease/storelease.go:308-326 | nor does its release take the lease away from the new holder |
| Lease.OneWinsRace | core/providers/lease/storelease.go:162-196 | of two instances that saw the same claim the first swap wins and the other does not |
| Lease.CachedWins | core/providers/lease/lease.go:109-199 | the in-process manager wins its own claim back without reading it as long as nobody took it |
| Lease.StepKeepsTokens | core/providers/lease/lease.go:109-199 | a token becomes the claim at most once and a replaced claim stays gone |
| Lease.SequenceDense | core/objectdb/objectdb.go:365-396 | sequence numbers rise by exactly one and are never reused |
| LeasedRuns.BuiltFromReads | core/objectdb/objectdb.go:928-1075 | a batch an Update built is fixed by the sequence and the records it read, and by its new ids being new |
| LeasedRuns.TrimmedFromRows | core/objectdb/trim.go:54-173 | a trim's batch is fixed by the log rows it read |
| LeasedRuns.LeasedRun | core/providers/lease/storelease.go:121-196 | whatever the instances do, as long as every batch is an Update's, a trim's or blob bookkeeping as computed from its own reads, the stores of the fenced batches are a run as the log and query readers assume it |
| Splice.SpliceExact | core/runtime/query.go:401-524 | for any lists and sets, the splice rebuilds the new list if and only if old less removed equals new less candidates |
| Splice.SpliceAnchored | core/runtime/query.go:493-524 | a reply cut off at an anchor puts every position up to it right |
| Results.StableResults | core/runtime/query.go:189-203 | records that did not move keep their standing among each other in every query result |
| Results.ResultUnique | core/runtime/query.go:727-730 | a table has one result list |
| QueryChanges.PositionsExact | core/runtime/query.go:401-546 | a reply with positions makes the client's list the result in one committed state, on the general and the immutable path |
| QueryChanges.PositionsKeepSync | core/runtime/query.go:294-300 | the client can go on from it if no result was created between the state read and the bound read |
| QueryChanges.NextReplyIff | core/runtime/query.go:294-300 | the next reply with positions leaves the true result if and only if no result was created there, even one since destroyed or no longer matching |
| QueryChanges.PositionsAtQueryState | core/runtime/query.go:294-300 | with no commit to the type in that window the list is the result at the reply's own state |
| QueryChanges.NoPositionsKeepsSync | core/runtime/query.go:437-456 | a reply without positions keeps the agreement under any race with commits, if every candidate that shows at the bound moved after it |
| QueryChanges.ReadingAnswers | core/runtime/query.go:437-456 | a candidate that failed to match when it was read did not show at the bound, or moved after it |
| QueryChanges.UnchangedKeepsSync | core/runtime/query.go:315-325 | the empty reply is right |
| QueryChanges.RunKeepsSync | core/runtime/query.go:292-546 | over every run of commits and calls, the state being the type's or its companion's, the client agrees with the result on all ids not moved since its state |
| QueryChanges.RaceDuplicates | core/runtime/query.go:294-300 | a run that leaves an id twice in the client's list |
| Places.PlacesDecide | core/runtime/query.go:109-155 | two results over pictures alike outside some ids are one list if and only if each of those ids keeps its place |
| TornReads.SeenStanding | core/runtime/query.go:1560-1565 | a query that reads no Internal property treats a record as the protocol shows it |
| TornReads.ScanTrue | core/runtime/query.go:1136-1159 | an index range read row by row while commits go on is right about every record that stood still |
| TornReads.StillReads | core/runtime/query.go:689-745 | all reads of a torn evaluation are right about a record whose read properties stood still |
| TornReads.UntouchedStill | core/runtime/query.go:689-745 | a record the log does not name over the span stood still |
| TornReads.ImmutableStill | core/runtime/query.go:383-399 | so did, in its immutable properties, one that was neither created nor destroyed |
| TornReads.LoadedChecked | core/objectdb/objectdb.go:855-872 | what a torn evaluation loads from stores of kind-checked records is kind-checked |
| QueryPairs.StateInRun | core/runtime/query.go:840-862 | the state read in a run names a table equal to the one at its moment, with no commit to the type past it |
| QueryPairs.UndisturbedJudged | core/runtime/query.go:109-155 | a record no commit named from the first read to the state read is listed if and only if it matches at the state |
| QueryPairs.QueryPairIff | core/runtime/query.go:109-155 | the list and state of a reply whose reads are spread over any run belong together if and only if every record named in that span was judged and placed as at the state |
| QueryPairs.QueryInRun | core/runtime/query.go:86-155 | the reply is the requested slice of that list, with the same condition |
| TornQuery.TornMissed | core/runtime/query.go:1066-1087 | a run of real commits in which an OR of two index reads misses a record that matches throughout, and the next reply does not mend it |
| QueryChanges.LateStateHides | core/runtime/query.go:109-155 | a record created between the two reads is in neither reply |
| QueryReads.WalkReads | core/runtime/query.go:551-583 | the walk gathers exactly the properties the filter's conditions read, and says whether all of them declare theirs |
| QueryReads.CoreReads | core/runtime/query.go:551-583 | core conditions read exactly the properties the filter names |
| QueryReads.QueryReadsOnly | core/runtime/query.go:551-601 | records that agree on what the query reads, up to how JSON values are written, have the same standing in it |
| QueryReads.ImmutableQuery | core/runtime/query.go:383-399 | the diet is taken exactly for an uncollapsed query known to read immutable properties only |
| QueryReads.ImmutableStays | core/runtime/query.go:383-399 | then no update moves a record in the result, as long as updates keep immutable properties |
| QueryRuns.EvaluatedAt | core/runtime/query.go:526-542 | an evaluation whose reads are spread over a run lists the result at the bound if the sequence read afterwards still is the bound |
| QueryRuns.UnlistedDropped | core/runtime/query.go:526-542 | an evaluation that lists no candidate, however torn, is a reply without positions: every candidate that shows at the bound moved after it |
| QueryRuns.Attempt | core/runtime/query.go:275-542 | one attempt, its reads spread over any run, is refused only for its state, its distance, a failing condition, or a sequence that moved while it has a position to report; else the reply does to any list what the modelled answer does |
| QueryReply.Answer | core/runtime/query.go:401-524 | refused exactly when the removed ids and the candidates among the results up to the anchor are together more than maxChanges; else the reply holds all of the former and each of the latter at its position, and the total is the number of results; refusing on the removed count alone and skipping the evaluation change nothing |
| QueryReply.NarrowedIffPresent | core/runtime/query.go:463-486 | narrowed positions are the full positions if and only if every matching record has the sort property |
| QueryReply.NarrowedMisplaces | core/runtime/query.go:463-486 | two records, one without the property, for which the narrowed list is no prefix of the full one |
| QueryReply.NarrowedAnswerSame | core/runtime/query.go:463-520 | with the property present everywhere the narrowed reply is the full reply |
| Collapse.CollapseByKey | core/runtime/query.go:1207-1219 | one walk keeps the first record of each group |
| Collapse.CollapseCorrect | core/runtime/query.go:1207-1219 | which is the least matching record of each group, in order |
| Collapse.OnePerGroup | core/runtime/query.go:1207-1219 | the list has no two records of one stored grouping value, and for every match one of its value that does not come after it |
| Collapse.CollapsedSpliceExact | core/runtime/query.go:349-422 | the collapsed splice is right if and only if, in every group not listed, a changed member stood ahead of the first unchanged match exactly when one does now |
| Collapse.CollapsedSplice | core/runtime/query.go:349-422 | it is right when every group with a changed member is expanded, although untouched siblings may become representatives |
| Collapse.MembershipListingFails | core/runtime/ext.go:304-314 | listing only groups whose membership changed is not enough |
| CollapsedRuns.StableOver | core/runtime/query.go:349-422 | over any window, records neither logged nor in a listed group keep their place among the representatives |
| CollapsedRuns.ReportsCoverMoves | core/runtime/query.go:357-422 | with every group read at its own moment, the reply names exactly what moved, up to what moved while it was computed |
| CollapsedRuns.NextReplyIff | core/runtime/query.go:294-300 | the next collapsed reply with positions is right if and only if no representative was created between the state read and the bound read |
| CollapsedRuns.RunKeepsSync | core/runtime/query.go:292-546 | over every run of commits and calls whose companion lists every group with a changed member, the client agrees with the collapsed result on all ids not moved since its state, and replies with positions give exactly that result |
| Planner.Matches | core/runtime/query.go:939-998 | the predicate answers or fails as trying children in order until one decides may, and an answer is what the filter means |
| Planner.OperatorLaws | core/runtime/query.go:939-998 | NOT is that OR does not hold, AND is NOT of the NOTs; without children AND and NOT hold and OR does not; no filter matches everything |
| Planner.OneOfTwo | core/runtime/query.go:963-973 | of two children of which one matches, NOT and AND fail and OR holds |
| Planner.OneStoreTrue | core/runtime/query.go:1136-1159 | read from one agreeing store, an indexed equality condition yields exactly its matches |
| Planner.ProduceLeaf | core/runtime/query.go:1098-1129 | whatever each index read returned, the pairs of a condition intersect to a set holding every record all its reads admit, exact where every pair is |
| Planner.Produce | core/runtime/query.go:1039-1092 | for every tree, with no assumption on the reads, the set holds exactly the records the tree's reads admit, exact where every condition is; it fails exactly where a producer that is asked does |
| Planner.AdmitsTrue | core/runtime/query.go:1039-1092 | where the reads tell the truth about a record, the tree admits it if the filter matches it, and only then where it is exact |
| Planner.ProducedCovers | core/runtime/query.go:1039-1092 | over one store the set holds all matches, and exactly the matches where it is called exact |
| Evaluate.LoadAndMatch | core/runtime/query.go:1178-1203 | of any candidates, exactly the loaded records that match are kept |
| Evaluate.FastPath | core/runtime/query.go:698-706 | the ids of an exact set in id order are its list, without loading a record |
| Evaluate.EvaluateWith | core/runtime/query.go:689-745 | however narrowed, restricted, windowed or collapsed, the answer is the list of exactly the records its reads, of one store or torn, judge in; over one store it is what filtering, sorting and collapsing all records gives; it fails where a producer that is asked does, or else only where a record to be loaded lets the filter fail, and never passes over one that leaves it no answer |
| Evaluate.JudgedTrue | core/runtime/query.go:689-745 | a record about which the reads tell the truth is judged in if and only if it matches |
| Evaluate.OneStoreAnswer | core/runtime/query.go:689-745 | over one store the judged list is the query's result |
| Evaluate.AnswerAsMeant | core/runtime/query.go:689-745 | over one store a list is the answer if and only if it holds exactly the stored records the filter matches, in the order the sort means |
| Evaluate.Answer | core/runtime/query.go:86-147 | Foo/query starts at the position, counted from the end or from the anchor's first occurrence and never before the first result, and returns the ids of that list from there on, as many as there are up to the limit, though only its window was put in order |
| Evaluate.CheckedSortable | core/objectdb/objectdb.go:855-872 | when the loaded records are kind-checked the matches of any request compare consistently |
| Comparators.ConsistentIff | core/runtime/query.go:1624-1650 | a comparator is a total preorder on a set of values if and only if no unusable value stands next to two differing usable ones |
| Comparators.ComparesAsMeant | core/runtime/query.go:1624-1674 | comparing two values decides, both ways, whether one may precede the other in the comparator's direction: numbers by size, keys by bytes, digit runs by the number they denote |
| Comparators.DigitRunsCompareNumbers | core/runtime/query.go:1652-1689 | i;ascii-numeric compares the numbers, of any size |
| Comparators.IntegerOrderIsKeyOrder | core/objectdb/objectdb.go:1339-1378 | sorting on the integer gives the order of the index encoding |
| RecordSort.ComparatorsOrderly | core/runtime/query.go:1387-1402 | consistent comparators in turn order records consistently |
| RecordSort.CheckedConsistent | core/descriptor/descriptor.go:202-252 | a comparator is a total preorder on records whose values passed the kind check it decodes |
| RecordSort.MuddledCycle | core/runtime/query.go:1624-1650 | three records in a cycle, one of which fails the check the others pass |
| RecordSort.QuotedOrder | core/runtime/query.go:1400-1446 | comparing stored id values compares the ids |
| RecordSort.RowsCompareRecords | core/runtime/query.go:1404-1447 | comparing values decoded once is comparing the records |
| RecordSort.SortedAsMeant | core/runtime/query.go:1385-1462 | a list is the result if and only if it holds the matches, each before those it is to precede: by the first comparator that tells them apart, in its direction, then by id |
| RecordSort.FirstComparatorDecides | core/runtime/query.go:1624-1650 | along a result decoded numbers, keys and digit runs rise, or fall where the first comparator is descending, and records without a value come first, or last |
| RecordSort.LaterComparatorsDecide | core/runtime/query.go:1385-1402 | records the first comparator does not tell apart are ordered by the rest |
| RecordSort.SortRecords | core/runtime/query.go:1412-1462 | the records are rearranged in place so that every position the window reads holds what the query's result has there, in the order the comparators mean |
| Selection.Partition | core/runtime/query.go:1479-1496 | Hoare partitioning in place: a permutation of the range that the pivot separates |
| Selection.SelectPrefix | core/runtime/query.go:1469-1507 | for any comparison it only rearranges and stops; under a total order the w smallest come first, also after the bail-out |
| Selection.SortWindow | core/runtime/query.go:1448-1457 | every position of the window equals the full stable sort's |
| DupNames.ProbeInsert | core/internal/jsonscan/jsonscan.go:753-767 | for any hash, probing ends and reports a duplicate if and only if the name is one of the object's |
| DupNames.RehashInto | core/internal/jsonscan/jsonscan.go:773-784 | builds a probe table over the hashes in which every name is reached without a gap |
| DupNames.Scanner.AddName | core/internal/jsonscan/jsonscan.go:696-719 | linear below 33 names, hashed and growing above: refused if and only if the object already has the name |
| DupNames.Scanner.CheckMembers | core/internal/jsonscan/jsonscan.go:681-743 | accepts exactly objects with distinct names and acceptable values |
| DupNames.Scanner.CheckValue | core/internal/jsonscan/jsonscan.go:612-670 | accepts exactly values with distinct names in every object and nesting within bounds, and restores the shared name stack also when it refuses |
| DupNames.AcceptableEverywhere | core/internal/jsonscan/jsonscan.go:612-670 | acceptable is, place by place, what has no value nested too deep and no object with two members of one name |
| Blobs.RecordUpload | core/objectdb/blobs.go:131-154 | resets the time to the second, adds the uploader once, nominates the blob |
| Blobs.UploadersGrow | core/objectdb/blobs.go:131-154 | everyone recorded before stays in place and the uploader is added, nobody twice |
| Blobs.CheckBlobRefs | core/runtime/standard.go:1032-1056 | names exactly the properties that name a missing blob |
| Blobs.NoneDangling | core/runtime/standard.go:1025-1056 | with none, every reference of the record is to an existing blob |
| Blobs.HintOrder | core/objectdb/keys.go:57-123 | nominations scan back in id order |
| Blobs.SweepBlobs | core/objectdb/blobs.go:231-333 | judges exactly the first nominations in id order, up to the limit, collects exactly those past their grace and unreferenced, drops stale nominations; more exactly if the limit was reached and one of them went, and then strictly fewer are left |
| Blobs.Drain | core/objectdb/blobs.go:226-230 | sweeping until there is no more stops, and a nomination is left if and only if its blob is in its grace or a call's worth of blobs in theirs come before it |
| Blobs.StarvedLate | core/objectdb/blobs.go:226-230 | uploads after which draining leaves a blob it might collect |
| Blobs.SweepKeepsLive | core/objectdb/blobs.go:207-214 | no sweep touches a referenced blob or one whose record is in its grace |
| Blobs.SweptMeans | core/objectdb/blobs.go:231-333 | of what a sweep judged it leaves exactly the nominations of blobs in their grace and the uploads in their grace or referenced |
| Blobs.NamedBlobStays | core/objectdb/blobs.go:337-383 | in every reachable store a blob that a BlobRef property of a record names exists and no sweep takes it |
| Blobs.UnnamedBlobGoes | core/objectdb/blobs.go:231-333 | a judged blob past its grace that no record names goes, with its nomination |
| Blobs.AlwaysSound | core/objectdb/blobs.go:207-214 | in every reachable store each unreferenced upload is nominated and no reference dangles |
| Blobs.BlobRunIsRun | core/objectdb/blobs.go:131-333 | uploads, sweeps, commits and trims in any order are a run as the log and query readers assume it |
| Blobs.GraceKeptIff | core/objectdb/blobs.go:138-138 | counted from the actual upload the sweep leaves an unreferenced blob alone for the whole grace if and only if the upload was on a full second |
| Blobs.GraceAlmostKept | core/objectdb/blobs.go:138-138 | it never falls short by a whole second |
| Blobs.CollectedEarly | core/objectdb/blobs.go:296-298 | a blob collected half a second before its hour is over |
| Mailbox.DepthAbove | datatypes/mail/mailbox.go:316-339 | on any stored tree, even a cyclic one, counts the ancestors, refusing exactly a missing parent, a walk through the mailbox itself, or one longer than the limit |
| Mailbox.ClearInForest | datatypes/mail/mailbox.go:316-339 | in a forest it counts the level of the parent and refuses exactly a missing parent or one below the mailbox |
| Mailbox.SubtreeHeight | datatypes/mail/mailbox.go:344-367 | the number of levels below, or at least the limit once a real chain exhausts the budget, on any tree |
| Mailbox.Validate | datatypes/mail/mailbox.go:181-263 | accepts if and only if the tree with the mailbox in its new place is a forest of depth at most 10 with unique sibling names and roles |
| Mailbox.WellFormedMeans | datatypes/mail/mailbox.go:181-263 | well formed is: parents exist, no more than ten levels and no cycle, no sibling names twice, no role twice, names, roles and sort orders within their rules |
| Mailbox.Tree.Create | datatypes/mail/mailbox.go:181-263 | keeps the tree well formed and refuses only what would break it |
| Mailbox.Tree.Update | datatypes/mail/mailbox.go:181-263 | the same when a whole subtree moves |
| Mailbox.Tree.Destroy | datatypes/mail/mailbox.go:372-397 | accepted exactly when no child is left behind and no email is lost unasked |
| Mailbox.ForestEnds | datatypes/mail/mailbox.go:312-315 | in a well formed tree every walk upwards ends within the limit and none comes back |
| Slots.PerUserShare | core/runtime/server.go:100-112 | the override or half the pool, where that is at least one and below the pool; one less than the pool for a larger override |
| Slots.StepKeepsInv | core/runtime/pipeline.go:45-135 | every atomic step of every goroutine keeps each counter the number of goroutines it stands for |
| Slots.SharesHold | core/runtime/pipeline.go:72-125 | at every moment of every run no user exceeds its share, all together the pool, and no user alone fills a pool above its share |
| Slots.FreeUnitsGranted | core/runtime/pipeline.go:45-125 | entering never waits, a user below its share gets one more of it, and whoever has one while the pool is not full gets a slot |
| Slots.SharedSemaphore | core/runtime/pipeline.go:43-65 | two goroutines that are not idle are on the same semaphore if and only if they belong to the same user |
| Slots.NothingLeaks | core/runtime/pipeline.go:80-101 | whenever all are idle, cancelled or not, no unit is taken and no map entry is left |
| Slots.LeavingNeverBlocks | core/runtime/pipeline.go:129-135 | giving back never blocks |

## Left out

- Account tags, the notifier, `Memo`, batch `Assert` and `Add` beyond the lease fence and the sequence: bookkeeping beside the modelled batch.
- Id generation: ids given to `Create` are assumed never used before in the account.
- JSON: grammar, string decoding, `CheckValue` and the value encodings are parameters of the model; records map names to raw values.
- Calendar arithmetic of date values: the encoding of a date is a parameter.
- Log lists are sets; the sorted order of the ids in a page is not modelled, and map iteration order is arbitrary.
- Sequence numbers are unbounded except where keys are encoded, and positions and limits do not overflow.
- QueryChanges.RunKeepsSync: a reply cut off at an upToId anchor is covered for one reply (`Splice.SpliceAnchored`), not over runs: past the anchor section 5.6 of RFC 8620 leaves the client's list open.
- QueryRuns.Attempt: one type, not collapsed, without upToId, maxChanges and calculateTotal (those are `CollapsedRuns` and `QueryReply`). The redo after one race is a second attempt. A type's own producers are trusted to be right about records that did not move while they ran.
- QueryPairs.QueryPairIff: uncollapsed replies; in a collapsed one a disturbed record can also change the standing of its siblings. A type's own producers are trusted about records no commit named meanwhile.
- CollapsedRuns.RunKeepsSync: starts from a right list; that a tier-2 reply with nothing to add leaves out only candidates that moved, proved for uncollapsed queries (`QueryRuns.UnlistedDropped`), is part of what an answer is.
- QueryChanges.Setting: record-local queries are functions of a record, as the declarations the code trusts promise; on the immutable diet ids are not reused.
- QueryReads.KeepsImmutable: that updates keep immutable properties is what `Foo/set` enforces (`core/runtime/standard.go:918-931`), not the object database, whose `Put` accepts them changed.
- Evaluate.EvaluateWith: a type's own Sort and the Arrange hook are not modelled, nor is the projection that loads fewer properties.
- Selection.StableSort: stands for the library's stable sort.
- Selection.MedianOfThree: states only that one of the three candidates is picked; that the pivot is their median affects running time alone.
- DupNames.Home: `hash & (n-1)` is written `hash % n`, which is the same for the table's power-of-two sizes.
- Trim.TrimChanges: entries are assumed to decode; a corrupt log entry is not modelled.
- Blobs.CheckBlobRefs: how a value decodes to an id is a parameter; null decodes to the empty id, so a null reference counts as dangling.
- Sweeping over a content store with its own backend: content deletion is then not fenced by the lease.
- `RunSingleton`, waiting and timing of the lease managers: clocks are free in the model, so only safety is stated.
- HTTP, event source, WebSocket, push, the SQL drivers, web push cryptography: I/O and foreign code.
- Mailbox counters, the email cascade on destroy, Identity, VacationResponse, MDN and submission: branch-by-branch validation with easy properties.

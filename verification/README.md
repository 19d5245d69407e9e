# Verified model of the Jarvis memory ledger

A Dafny project that models the parts of the repository whose promises span whole runs, and proves those
promises for every input, every run and every pattern of failures. `dafny verify dfyconfig.toml` checks it.

**Tamper-evident logs**

* The call log (`app/call_log.py`). `CallLogModel` is the state machine of one shared directory (daily files,
  anchor, DEGRADED file) and any number of workers with any number of threads. A turn is one hold of the lock: an
  append, a preflight, a flush, or the marking of an earlier failure, which a worker owes until some later turn of its
  own. An environment value decides which fallible operation fails and what each clock reading shows, so a theorem
  over all environments and all lists of turns covers every failure pattern and every interleaving of the holds.
  `CallLogModel.RecordIsItsTurns`, `GuardIsItsTurns` and `ShutdownIsItsTurns` tie the turns to the whole operations,
  and `CallLogConservation.GapMayComeLater` is a run that only they have. `CallLog.dfy` holds the same log as objects
  (`Directory`, `CallLog`) that change in place; each method is proved to do exactly the model's step.
* The two signing logs (`app/attest.py`). `Trust` and `Attestations` are the replays as functions, `TrustState`
  and `AttestationLog` the loops over mutable state, `AttestationLaws` what follows. The signature check is a
  function parameter that says which key a signature was made with, if any.
* Continuity blocks (`app/blocks.py`) and the checks over a chain of them (`app/pg_schema.py`), and the AMUL
  checkpoints (`app/amul_gc.py`, `app/amul.py`).

A hash is a parameter. No theorem takes it to be injective everywhere, which no hash with 32-byte digests is:
each binding theorem asks for no collision among the finitely many texts hashed in the two computations it compares.

**Searches with a simple specification**

* Graph expansion and bundle selection (`app/emr.py`), the sparse graph (`app/graph.py`: index, components,
  breadth-first search, shortest path), the phrase test (`app/ledger_search.py`). Scores are reals.

What a function means is stated beside it in the terms of its inputs, so that no result rests on a function's own
name alone: `CallLogLaws`, `CallLogRetention`, `BundleLaws`, `TrustLaws`, `AttestationSummary`, `ColdRecords`,
`CheckpointFailures` and `ContinuityLaws` hold these for the larger modules.

**The conflict membrane**

* The write gateway (`app/emr_write.py`) over the store (`agent-hooks/store.py`) and the conflict detection
  (`app/continuity.py`).

## Where the code and its description part

* `_check_hex64` (app/blocks.py:18-24) accepts one line feed after the 64 digits, because `$` matches in front of it
  and the conversion from hexadecimal skips it. Equal roots therefore mean equal entries, and equal *texts* exactly
  when the two lists have their line feeds in the same places: `Blocks.RootFixesEntries`, `Blocks.EqualIffSameLineEnds`,
  with the colliding pair in `Blocks.LineFeedUnseen`. The same pattern guards the attestation fields; there the hashed
  text is injective all the same, as `AttestationText.HashedTextInjective` shows with those line feeds allowed.
* A flood summary never counts a call of another minute window (`CallLogSummaries.SummariesCountTheirCalls`), yet its
  times may lie outside the minute, because the clock is read again after the window is chosen. For every suppressed
  call `window_end` shows the window's minute exactly when the last reading of that append falls in the minute of the
  reading that chose the window, and `window_start` of a new summary likewise for the reading in between:
  `CallLogSummaries.TimesInWindowIff`, with a run in `CallLogSummaries.WindowEndMaySpill`.
* A summary is said never to mix tenants or transports (app/call_log.py:552). That holds of read summaries: every call
  that a read summary entry counts is a read of the entry's own tenant and transport
  (`CallLogTenants.EntryKeepsTenant`). Denied calls have one open summary per worker for all tenants and transports,
  written under the tenant "operator" (app/call_log.py:527-539, 568-580). Two calls of one worker that wait at once share
  a summary, and later an entry, exactly when both are denied or both are reads of one tenant and transport
  (`CallLogTenants.ShareIffAlike`, `CallLogTenants.OneEntryIffAlike`); `CallLogTenants.DeniedMixesTenants` is a run with
  one denied summary of two tenants.
* The caps hold by the minute in which a call's window was chosen. The entry's own time is read later, so by entry
  times a minute may hold one entry more than the cap, never two (`CallLogTimes.CapsHoldByTime`), and that one can occur
  (`CallLogTimes.CapByTimeIsMet`).
* An accepted void statement does not stay in force the way the other statements do: a later accepted void of the same
  number replaces its hash (app/attest.py:429), and the row it named is judged again and reported as replaced
  (`AttestationLaws.OverruledVoidReported`). It is in force exactly when the last accepted void of its number names its hash
  (`Trust.CountedTakesEffect`, `Trust.LastVoidRules`); `Trust.VoidMayBeReplaced` takes one away and brings it back.
* The sparse index links a record to what it supersedes only if that was admitted before it (app/graph.py:27,
  `SparseIndex.BuildLinks`), while the full graph, below its edge limit, does so in any order (app/graph.py:67-69). Listings put newer
  records first (app/store.py:302), so on large ledgers a replacement usually loses its link.
* The membrane does not keep every store free of unresolved sets. `_subject_conflict_block` leaves out what a live
  record of any subject replaces, `detect_conflicts` only what one of the same subject replaces, and an upsert also
  archives the replacement that its target was. For any store without an unresolved set, a governed write leaves one
  exactly when it clashes: for a remember, no live record of the subject makes the claim and one that no live record of
  the subject replaces makes another; for an upsert, such a record other than the target does, or the record that only
  the target replaced on its own subject disagrees with another open one there (`MembraneConflicts.WriteConflictIff`,
  and over runs `MembraneConflicts.RunConflictIff`). Failing inputs are `MembraneConflicts.RetiredIsNeeded` for an upsert
  and `MembraneConflicts.RememberMayClash` for a remember. Only a live record that is replaced aside can cause it
  (`MembraneConflicts.ClashCause`), so it never happens where superseded records are archived, which
  `Membrane.MembraneHolds` starts from and every governed write keeps (`MembraneConflicts.IntactNeverClashes`).
* `_merkle_root` (app/amul_gc.py:268-279) repeats the last node of an odd level, so it tells lists apart only for equal
  lengths (`FieldTree.RootFixesLeaves`); every odd list of several leaves collides with the one that repeats its last
  leaf (`FieldTree.OddListCollides`). The range digest beside it tells raw lines apart whatever their number
  (`FieldLines.JoinedFixesLines`), which is what `Checkpoints.PassingFieldsAgree` rests on.
* An append to a field (app/amul.py:138-146) adds exactly its line only where the file ends between two lines; after a
  torn line it changes that line (`FieldLines.AppendAddsIff`, `FieldLines.AppendToTorn`).
* A compaction counts the loaded artifacts but seals the file's lines (app/amul_gc.py:338-363). Its counts cover the
  range exactly when at least as many artifacts are loaded as the file has lines (`Checkpoints.SealFollows`); after a
  line that does not parse it seals a checkpoint that verification rejects (`Checkpoints.ShortFieldSealsFailure`).
* Some results need the table's primary key: levels and voids speak about one row per `signer_seq`
  (app/pg_schema.py:720-753), stated as `AttestationLaws.Numbered`.

## Model

| member | source | states |
|---|---|---|
| CallLogConservation.CallsConserved | app/call_log.py:517-624 | after any run of any workers under any failures: calls recorded and writes refused = own entries + summary counts + gap counts + open summaries + DEGRADED file + outages in memory + marks still owed |
| CallLogConservation.ActTally | app/call_log.py:417-473 | one hold of the lock adds exactly its own call or refusal to that total, and a settled mark or a flush nothing |
| CallLogConservation.GapMayComeLater | app/call_log.py:618-624 | a call that another worker writes between a failed append and its mark stands in the log without a gap in front of it |
| CallLogModel.RecordIsItsTurns | app/call_log.py:618-624 | a record without another hold in between is its append and then its mark |
| CallLogModel.GuardIsItsTurns | app/call_witness.py:270-279 | the same for a guarded write: its preflight and then its mark |
| CallLogModel.ShutdownIsItsTurns | app/call_log.py:582-616 | the same for a shutdown: flush, the mark of a failed flush, the counts that are left |
| CallLogConservation.MarkDegradedTally | app/call_log.py:417-442 | marking moves the counts to the file or keeps them in memory, and loses none either way |
| CallLogConservation.CloseOutageTally | app/call_log.py:444-473 | a gap entry carries exactly what the DEGRADED file and the memory held, or nothing changes |
| CallLogLaws.AppendMeans | app/call_log.py:517-566 | an append succeeds exactly when every disk operation it tries does; then a recorded outage is the first thing it writes, with all its counts and its earliest start, and is over; its own entry comes last and is there exactly when it answers so |
| CallLogLaws.AppendLeaves | app/call_log.py:529-562 | which calls are suppressed, and what a call leaves open: every other call closes the denied summary, a write tool, a storing POST and a change of one record close the reads as well, a failed or other call closes no reads |
| CallLogLaws.PreflightMeans | app/call_log.py:444-473 | a preflight succeeds exactly when its disk operations do; then a recorded outage has its entry and is over, and nothing else is written |
| CallLogLaws.FlushMeans | app/call_log.py:568-616 | a flush succeeds exactly when its disk operations do; then nothing is open, and the denied summary and then one entry per tenant and transport were written, in that order, each with the count and times of its summary |
| CallLogLaws.FlushWarns | app/call_log.py:608-616 | a flush that fails with a summary open leaves an outage on record; any other leaves none of its own |
| CallLogLaws.MarkMeans | app/call_log.py:394-442 | a mark adds its counts to one record, in the file when it can be written and else in memory, that begins when the earliest of its parts began |
| CallLogLaws.AddEntryOfDay | app/call_log.py:480-492 | a line goes behind the lines of its day and nowhere else, even when the clock went back to an earlier day |
| CallLogChain.RunSound | app/call_log.py:475-515 | every run with a clock that never goes back keeps the chain, the time order, the file order and the anchor below the kept files |
| CallLogChain.RunVerifies | app/call_log.py:736-781 | after every such run `verify` reports no problem and the head that `_head` reports, retention included |
| CallLogChain.NoProblemsIffAccepted | app/call_log.py:736-781 | the walk reports nothing exactly when numbers rise by one, links fit and stored hashes match |
| CallLogLaws.ProblemsMean | app/call_log.py:768-774 | which entries the walk reports, and as what: edited, numbered wrongly after the one before, or not linked to it |
| CallLogChain.HeadIsEnd | app/call_log.py:367-379 | `_head` is the last entry ever appended, whether it is still in a file or only in the anchor |
| CallLogChain.RetainSound | app/call_log.py:495-515 | dropping old files keeps the chain and moves the anchor to the entry in front of the rest; which files go is stated by the two rows of `CallLogRetention` |
| CallLogRetention.AppendRetains | app/call_log.py:475-515 | an append keeps every file whose day is at most `retainDays` days before today, with all its entries; it leaves no older file when one of the files is not older, and drops nothing when all are |
| CallLogRetention.AppendedRunKeeps | app/call_log.py:475-624 | after a run that ends in an appended entry, every entry of the run written within `retainDays` days of that entry's day is still in a file |
| CallLogChain.HeadFixesLog | app/call_log.py:736-781 | two accepted logs from one anchor with one head are equal |
| CallLogChain.AcceptedSelectionIsPrefix | app/call_log.py:736-781 | an accepted selection of a log's entries, in any order, is a prefix of it |
| CallLogFlood.CapsHold | app/call_log.py:529-564 | in every run a worker writes at most the cap of denied calls per window minute, and of reads per window minute and tenant, one by one |
| CallLogSummaries.SummariesCountTheirCalls | app/call_log.py:529-606 | at every point of every run each open summary counts exactly the suppressed calls that wait for it, all of its minute and kind, and each summary entry exactly the calls that went to it, all of one worker, minute and kind: denied calls, or the reads of one tenant and transport |
| CallLogSummaries.TraceIsTheSuppressed | app/call_log.py:529-564 | those calls are exactly the ones whose append answered that it was suppressed, each with its own worker, kind, tenant and transport |
| CallLogSummaries.TraceKeeps | app/call_log.py:568-606 | a counted call stays where it is counted: in its entry or in the outage of its worker's end |
| CallLogSummaries.PendingIsWaiting | app/call_log.py:586 | what a worker has open in all is the number of its waiting calls |
| CallLogSummaries.SuppressedJoins | app/call_log.py:529-564 | a suppressed call adds one to the summary of its window, with the times its append read |
| CallLogSummaries.TimesInWindowIff | app/call_log.py:529-564 | for every suppressed call, exactly when the end and the start of its summary show the window's minute |
| CallLogSummaries.WindowEndMaySpill | app/call_log.py:529-545 | a run in which a summary's end shows the minute after its window |
| CallLogSummaries.WriteSeesEarlierReads | app/call_log.py:546-606 | when a ledger write's entry is appended, every read that its worker suppressed in the run is in an entry before it or was handed to the outage counts |
| CallLogSummaries.CloseHandsOver | app/call_log.py:582-591 | closing a worker adds to the outage counts exactly the calls that still waited |
| CallLogTenants.EntryKeepsTenant | app/call_log.py:546-606 | a read summary entry counts only reads of its own tenant and transport, a denied one only denied calls |
| CallLogTenants.ShareIffAlike | app/call_log.py:529-564 | two waiting calls of one worker share an open summary exactly when both are denied or both are reads of one tenant and transport |
| CallLogTenants.OneEntryIffAlike | app/call_log.py:568-606 | once two such calls are in entries, they are in one entry exactly under the same condition |
| CallLogTenants.DeniedMixesTenants | app/call_log.py:529-580 | a run whose one denied summary counts calls of two tenants |
| CallLogTimes.CapsHoldByTime | app/call_log.py:475-564 | by the times that entries show, a worker has at most one entry more than the cap per minute, and per tenant for reads |
| CallLogTimes.CapByTimeIsMet | app/call_log.py:529-545 | a run in which a minute shows one entry more than the cap |
| CallLogObjects.Directory.AppendLocked | app/call_log.py:475-493 | one append in place: retention as `CallLogRetention.AppendRetains` describes it, then the next chained entry or no entry |
| CallLogObjects.Directory.Walk | app/call_log.py:736-781 | the verifying loop over the files finds the problems, the count and the head of the flattened log |
| CallLogObjects.CallLog.MarkDegraded | app/call_log.py:417-442 | the method does the model's step on the file and the memory of the worker |
| CallLogObjects.CallLog.CloseOutage | app/call_log.py:444-473 | the method writes the gap entry and clears both records of the outage, or leaves them |
| CallLogObjects.CallLog.FlushReadsLocked | app/call_log.py:593-606 | the loop writes the open read summaries in key order and stops at the first failure |
| CallLogObjects.CallLog.Append | app/call_log.py:517-566 | the method does the model's append on the shared directory and the worker's windows |
| CallLogObjects.CallLog.Record | app/call_log.py:618-624 | the method records the call or counts it as unlogged |
| CallLogObjects.CallLog.Preflight | app/call_log.py:444-473 | the method does the model's preflight, with the gap entry of a recorded outage |
| CallLogObjects.CallLog.Guard | app/call_witness.py:270-279 | a write is let through exactly when the preflight succeeds, else it is counted as refused |
| CallLogObjects.CallLog.Flush | app/call_log.py:608-616 | the method does the model's flush |
| CallLogObjects.CallLog.FlushForShutdown | app/call_log.py:582-591 | the method flushes, and moves what could not be written to the outage counts |
| CallLogObjects.CallLog.Verify | app/call_log.py:736-781 | true exactly when the walk finds nothing, with the head it reached |
| Encoding.SplitInverse | app/call_log.py:252-266 | splitting gives parts without separators that join to the text |
| CallLogReading.ReverseLines | app/call_log.py:252-266 | the non-empty lines of the first `size` bytes, last first, for every content and block size |
| CallLogReading.ReadsBack | app/call_log.py:252-266 | a file written line by line is read back newest first, each line once, a torn one at its end before them |
| CallLogReading.QueryPage | app/call_log.py:717-734 | the first page of the matching entries, newest first, with a cursor exactly when more match |
| CallLogReading.PageMeans | app/call_log.py:717-734 | a page holds only entries that match, are not too old and lie before the cursor, newest first and at most `limit`; a matching one is missing only from a full page of newer ones, and then there is a cursor, the last one's number |
| CallLogReading.CursorContinues | app/call_log.py:717-734 | a cursor continues exactly behind its page |
| CallLogReading.CursorIgnoresAppends | app/call_log.py:717-734 | entries appended later do not show up behind a cursor |
| CallLogReading.PagesComplete | app/call_log.py:717-734 | following cursors through a growing log gives the entries that matched at the first page, each once, newest first |
| CallLogReading.SelectedDescends | app/call_log.py:649-677 | a page lists no entry twice and the newest first |
| CallLogReading.AcceptedAscends | app/call_log.py:736-781 | every log that `verify` accepts meets what paging needs |
| StrongestPath.ExpandSeed | app/emr.py:1232-1267 | the queue loop of one seed ends, keeps every update a real path, and unless the node cap is met dominates every walk |
| StrongestPath.EveryWalkDominated | app/emr.py:1232-1267 | pruning a label that is no stronger loses no walk: each is dominated by a label at least as strong and no longer |
| StrongestPath.StrengthBounds | app/emr.py:1241-1250 | a product of edge weights and hop decays stays between 0 and 1 |
| Expansion.ApplyGraphExpansion | app/emr.py:1149-1291 | at most `max_nodes` boosts, each explained by a simple path from a seed with that product; with fewer boosts than that, or no more records, each boost is the maximum over all seeds and walks |
| Expansion.BoostMeans | app/emr.py:1241-1290 | a boosted record names a seed and a path of distinct records over bonds of at least the least weight; its boost is the seed's base activation times the graph weight, the bonds, and the decay for each hop after the first, and adds to its base activation |
| Expansion.StrengthIs | app/emr.py:1241-1245 | the strength of a walk is the product of its bonds and of the decay for each hop after the first |
| Expansion.RecordMapHolds | app/emr.py:1164 | by its id every scored record is found as it is |
| Expansion.EveryBondListed | app/emr.py:1174-1222 | the indexes offer exactly the neighbours whose edge weight reaches the minimum, with that weight |
| Expansion.BondBounds | app/emr.py:439-450 | a bond is symmetric and between 0 and 1 |
| Expansion.BondRanks | app/emr.py:439-450 | a shared subject outweighs any overlap of tags, more tags in common weigh more, the full bond needs the subject and all tags, and only records without either have none |
| Expansion.EdgeRanks | app/emr.py:1174-1222 | a supersedes link in either direction has the full weight, a citation at least 0.9 and more only by a stronger bond, any other edge the weight of its bond |
| Expansion.SeedsAreStrongest | app/emr.py:1224-1228 | seeds are eligible and as many as the limit allows; no eligible record outside them is more active than one inside, or as active with a lesser id |
| Expansion.BoostBounded | app/emr.py:1241-1267 | no boost exceeds the graph weight times the largest base activation |
| Bundle.Tokens | app/emr.py:851-855 | a quarter of the length, rounded up |
| Bundle.SelectBundle | app/emr.py:1364-1427 | ends; each entry was the densest that fits and disputes nothing taken, in the right resolution; every eligible record left out is listed for a dispute or has a summary that does not fit; `BundleLaws` says what these mean in the records' fields |
| Bundle.GreedyWithinBudget | app/emr.py:1364-1427 | such a bundle never exceeds the token budget |
| Bundle.GreedyPeaceful | app/emr.py:453-459 | under the exclude policy no two entries contradict each other, in either direction, and none is taken twice; `BundleLaws.EntriesAgree` says it by subject and hash |
| Bundle.Choose | app/emr.py:1394-1403 | the inner loop returns the first of the densest candidates that fit, and none only when none fits |
| BundleLaws.EntriesAgree | app/emr.py:453-459 | every entry was asked for by a term, the graph or the last turn; none is there twice, and under the exclude policy two entries on one subject have one content hash |
| BundleLaws.LeftOutIff | app/emr.py:1380-1427 | a record that was asked for is left out for want of room for its summary, or, under the exclude policy, because an entry on its subject has another hash; it is listed exactly in the second case |
| BundleLaws.ExcludedMeans | app/emr.py:1409-1413 | every excluded id is of a record that was asked for, is not in the bundle, and differs from an entry on its subject |
| BundleLaws.EntryCharged | app/emr.py:1415-1425 | an entry costs the tokens of what it shows: the last turn's resolution where that fits, else the summary; the costs stay within the budget |
| BundleLaws.NextIsDensest | app/emr.py:1394-1407 | each entry had the most activation and weighted bonds per token of its summary among the records that could be taken |
| Abstention.Assess | app/emr.py:1294-1361 | the loop keeps the strongest record of every claim, and the first two decide |
| Abstention.AbstainsIff | app/emr.py:1294-1361 | it abstains exactly for no record, a top score or alignment below the floor, or a record of another claim within the margin or the relative margin of the top; never when not enforced |
| Abstention.CopiesUnseen | app/emr.py:1302-1312 | a record that only repeats a claim some record before it makes at least as strongly changes nothing |
| SparseIndex.BuildExact | app/graph.py:14-28 | with unique ids the index holds exactly the subjects and tags of its memories |
| SparseIndex.BuildLinks | app/graph.py:14-28 | with unique ids a record is linked to what it supersedes exactly when that was admitted before it or is the record itself |
| SparseIndex.BuildHolds | app/graph.py:14-28 | with unique ids the index holds exactly the records that are confident and recent enough, each as it is |
| SparseIndex.RelatedIff | app/graph.py:14-36 | two records of the index are neighbours exactly when they share a subject or a tag, or the later one supersedes the earlier |
| SparseIndex.SparseMemoryIndex.constructor | app/graph.py:14-28 | the loop over the records builds that index, which mentions only its own memories |
| SparseIndex.GraphSymmetric | app/graph.py:30-36 | the neighbour relation is symmetric |
| GraphSearch.BfsSearch | app/graph.py:79-102 | true shortest distances, nearest first, no id twice; every id within the depth unless the node cap is met |
| GraphSearch.ShortestPath | app/graph.py:105-121 | None exactly when an id is unknown or no walk connects the two; else a walk of minimum length, cut at the cap |
| Components.Forest.Find | app/graph.py:139-143 | path halving ends at the root and changes no class |
| Components.Forest.Union | app/graph.py:145-148 | merges exactly the two classes |
| Components.SparseComponents | app/graph.py:135-160 | the groups are exactly the classes of "connected by neighbours", disjoint and covering |
| Components.OneComponentIffConnected | app/graph.py:105-160 | two ids share a group exactly when a walk connects them, so shortest path and components agree |
| LedgerSearch.ContainsRun | app/ledger_search.py:58-79 | true exactly when the run occurs as consecutive items, within 2 (text + run) loop turns in all |
| LedgerSearch.FailureTable | app/ledger_search.py:61-68 | the table holds the longest proper border of each prefix of the run |
| LedgerSearch.FallBack | app/ledger_search.py:63-76 | falling back along the table skips no candidate |
| Blocks.Checked | app/blocks.py:18-24 | which texts pass the check, and that they give 32 bytes |
| Blocks.Split | app/blocks.py:42-44 | the largest power of two strictly below n |
| Blocks.Mth | app/blocks.py:37-45 | the recursion with its search loop ends and computes the tree over the given hashes |
| Blocks.TreeOverLeaves | app/blocks.py:37-59 | over leaf hashes that is the Merkle tree hash of section 2.1 of RFC 6962 |
| Blocks.TreeHashIs | app/blocks.py:27-45 | that hash as section 2.1 of RFC 6962 defines it: prefixes 0 and 1, and the split by the largest power of two below the number |
| Blocks.MerkleRoot | app/blocks.py:55-59 | the root of the entries, and a refusal exactly for an empty list or a malformed row hash |
| Blocks.RootIs | app/blocks.py:55-59 | there is a root exactly for a list of hashes that is not empty, and it is the tree hash in hexadecimal of their bytes in order |
| Blocks.TreeHashFixesEntries | app/blocks.py:27-45 | equal tree hashes come from equal lists, of any two lengths |
| Blocks.LeafNeverNode | app/blocks.py:27-34 | the prefixes keep a leaf and an interior node apart |
| Blocks.RootFixesEntries | app/blocks.py:55-59 | equal roots exactly for the same entries in the same order and number |
| Blocks.EqualIffSameLineEnds | app/blocks.py:18-24 | lists with the same entries are equal texts exactly when their trailing line feeds agree |
| Blocks.LineFeedUnseen | app/blocks.py:18-24 | two different accepted lists with one root |
| Blocks.BlockTextInjective | app/blocks.py:62-73 | the block text tells every field, for any tenant bytes |
| Blocks.BlockTextIs | app/blocks.py:62-73 | the block text is its fields between bars, the tenant with its length in front |
| Blocks.TipFixesChain | app/pg_schema.py:448-545 | the tip hash of a linked chain fixes the tenant, the number of blocks, every block field and every sealed entry |
| Encoding.FieldsInjective | app/blocks.py:69-73 | fields joined by bars are read back |
| Encoding.SizedCut | app/attest.py:250-251 | a length-prefixed name ends where its length says, whatever it holds |
| Encoding.HexRoundTrip | app/blocks.py:55-59 | hexadecimal text is read back |
| Trust.Provenance | app/attest.py:357-438 | every root, key, cutoff, void and cosignature rests on a finite chain of good signatures down to a pinned root |
| Trust.LaterStatementsOnlyAdd | app/attest.py:357-392 | statements with higher numbers never remove a root or key and never raise a cutoff |
| Trust.CountedTakesEffect | app/attest.py:395-438 | what an accepted statement says is in force in every longer log, but for a void exactly when the last accepted void of its number names its hash |
| Trust.LastVoidRules | app/attest.py:424-430 | a row is voided with the hash of the last accepted void of its number, and not without one |
| Trust.OnlyAnotherVoidReplaces | app/attest.py:424-430 | a void out of force was followed by an accepted void of its number with another hash |
| Trust.VoidMayBeReplaced | app/attest.py:424-430 | three accepted voids of one number: the second takes the first one's hash away, the third brings it back |
| TrustLaws.CountsIff | app/attest.py:357-438 | a statement counts exactly when it comes next with the hash of its own text and the signature of a root trusted so far, and meets what its kind asks for: the key that it names and that is new, a known key and a cutoff, or a number and a hash |
| TrustLaws.StepMeans | app/attest.py:362-438 | an accepted statement changes exactly what its kind is for and reports nothing; any other changes nothing and is reported |
| TrustLaws.NoProblemsIff | app/attest.py:357-392 | the log has no problem exactly when every statement counts |
| TrustLaws.NoProblemsNumbered | app/attest.py:357-392 | such a log is numbered from 1, each statement naming the hash of the one before and the first one 64 zeros |
| TrustLaws.ReplayedInOrder | app/attest.py:362 | all statements are replayed, by number, and a list in that order stays as it is |
| TrustLaws.TrustMessageIs | app/attest.py:276-282 | a message is made exactly for the five kinds and no subject hash or a hash; it is the fields between bars |
| TrustLaws.TrustMessageInjective | app/attest.py:276-282 | what a root signs tells the tenant, the kind and every field but the public key, which the key id names |
| TrustLaws.StatementHashFixes | app/attest.py:285-286 | the stored hash tells the tenant, every field, the signer and the canonical signature |
| TrustLaws.StatementHashJoins | app/attest.py:285-286 | it is of the message, the signer and the canonical signature, a line each |
| TrustState.State.ApplyStatement | app/attest.py:395-438 | every kind and every refusal, on the mutable state |
| TrustState.State.Turn | app/attest.py:362-391 | one turn of the loop reports the findings in order and carries on from the stored hash |
| TrustState.EvaluateTrust | app/attest.py:357-392 | the loop is the fold over the statements by number |
| AttestationText.HashedTextInjective | app/attest.py:250-273 | the hashed text tells the tenant and every field, the signature up to its canonical text |
| AttestationText.MessageIs | app/attest.py:260-269 | a message is made exactly for the three kinds, two hashes, a time of the form and a subject without bars and line breaks; it is the fields between bars |
| AttestationText.AttestationHashJoins | app/attest.py:272-273 | a row's hash is of its message, its key id and its canonical signature, a line each |
| AttestationText.CheckpointRoundTrip | app/attest.py:289-306 | a checkpoint subject is parsed back as it was built |
| AttestationText.ParseCheckpointIff | app/attest.py:300-306 | a subject is read as a checkpoint exactly when it is those five parts between colons, digits for the numbers and a hash for each hash |
| AttestationText.CheckpointTextIs | app/attest.py:293-297 | a checkpoint's digest is of its fields between bars |
| AttestationText.CheckpointHashFixes | app/attest.py:293-297 | and tells the tenant, the covered number and head, and the tip |
| AttestationText.BlockRoundTrip | app/attest.py:309-311 | a block subject is parsed back as it was built |
| AttestationSummary.BlockSubjectIff | app/attest.py:309-311 | a subject is read as a block exactly when it is the tag and a positive number without leading zeros |
| Attestations.ValidMeans | app/attest.py:483-536 | a valid row has its hash, an authorised key inside its window, that key's signature and a subject that checks |
| AttestationSummary.ValidIff | app/attest.py:483-536 | a row is valid exactly when it fits the chain with its own hash, no root voided its number, its key is authorised in its window and made its signature, its subject checks, and no earlier unvoided row attests the same |
| AttestationSummary.EvaluatedExact | app/attest.py:483-565 | the summary holds exactly what the valid rows say: a height or receipt with the number and hash of its row, each valid checkpoint with what it covers and the newest, the keys used, the voided numbers, and the checkpoints that a cosignature names by number and hash |
| AttestationSummary.EvaluatedCleanIff | app/attest.py:483-565 | no problem is reported exactly when no row has a finding and every cosignature names a checkpoint of the log by number and hash |
| AttestationSummary.JudgedInOrder | app/attest.py:488 | all rows are judged, by number, and a list in that order stays as it is |
| AttestationLaws.BadSeqsAreBadRows | app/attest.py:483-565 | the reported bad numbers are exactly those of rows with a finding |
| AttestationLaws.VoidShrinksBad | app/attest.py:503-528 | a void of a row's number and hash only shrinks the bad set and keeps every other row's chain, key, signature and subject verdict |
| AttestationLaws.RootVoidShrinksBad | app/attest.py:357-565 | the same for an accepted void statement, through both evaluations |
| AttestationLaws.OverruledVoidReported | app/attest.py:504-509 | a row whose number was last voided with another hash is reported as replaced and bad |
| AttestationLaws.OneValidPerSubject | app/attest.py:524-531 | no subject has two valid unvoided attestations |
| AttestationLaws.NoProblemsChained | app/attest.py:483-565 | a log without problems is numbered from 1, linked and correctly hashed throughout |
| AttestationLaws.SharedHashSharedPast | app/attest.py:260-273 | two chained logs that hold one hash agree on every row up to it |
| AttestationLaws.CosignedPastAgrees | app/attest.py:483-565 | two problem-free logs of one tenant, in two databases and under two trust states, with the same checkpoint hash agree on every row up to it |
| AttestationLaws.LevelTwoMeans | app/attest.py:739-748 | level 2 only where a valid checkpoint covers the number and a root cosigned that checkpoint's hash |
| AttestationSummary.LevelTwoIff | app/attest.py:739-748 | and there always |
| AttestationSummary.LevelZeroIff | app/attest.py:739-748 | level 0 exactly without a row number |
| AttestationLaws.BlockAtLevelTwo | app/attest.py:739-748 | a block at level 2 has a valid unvoided attestation of its real hash, covered that way, by roots backed down to a pinned one |
| AttestationLaws.ReceiptAtLevelTwo | app/attest.py:739-748 | the same for a receipt, whose evidence is intact |
| AttestationLog.Evaluation.CheckSubject | app/attest.py:568-604 | the findings for a block, receipt or checkpoint subject |
| AttestationLog.Evaluation.Judge | app/attest.py:490-528 | all findings of a row in order, and whether a root voided it |
| AttestationLog.Evaluation.Turn | app/attest.py:490-556 | one turn of the loop on the summary and both dictionaries; what a valid row adds is `AttestationSummary.EvaluatedExact` |
| AttestationLog.EvaluateAttestations | app/attest.py:483-565 | the loops are the scan by number and the pass over the cosignatures, whose summary `AttestationSummary.EvaluatedExact` describes |
| AttestationLog.AttestationLevel | app/attest.py:739-748 | the loop answers 2 exactly when a cosigned valid checkpoint covers the number |
| FieldTree.MerkleRoot | app/amul_gc.py:268-279 | the loop over levels computes the tree with the repeated last node |
| FieldTree.RootFixesLeaves | app/amul_gc.py:268-279 | equal roots over equally many leaves come from equal leaves |
| FieldTree.MerkleFixesLines | app/amul_gc.py:258-279 | the same for the lines behind the leaves |
| FieldTree.OddListCollides | app/amul_gc.py:268-279 | every odd list of several leaves shares its root with the list that has its last leaf once more |
| FieldTree.RootOfHalves | app/amul_gc.py:268-279 | over two equally long halves of a power of two of leaves each, the root is the digest of their roots, left before right |
| FieldLines.RawLinesRaw | app/amul_gc.py:247-255 | the raw lines of any bytes are single lines, none blank, each with its line break but perhaps the last |
| FieldLines.RawLinesOfJoined | app/amul_gc.py:247-255 | raw lines written out are read back as the same lines |
| FieldLines.JoinedFixesLines | app/amul_gc.py:258-265 | a range's text tells its raw lines and their number, with any line breaks and without the last |
| FieldLines.AppendAddsIff | app/amul.py:138-146 | an append adds exactly its line if and only if the file ends between two lines |
| FieldLines.AppendToTorn | app/amul.py:138-146 | otherwise it lengthens the torn line, or makes one with the blank the file ends in |
| FieldTree.RangeAuthenticators | app/amul_gc.py:258-265 | one pass gives the digest of the range's text and the tree root over its lines |
| Checkpoints.RunVerifies | app/amul_gc.py:302-460 | after any run of appends and compactions verification fails only the tail artifacts whose payload does not match its digest |
| Checkpoints.IntactRunPasses | app/amul_gc.py:302-460 | when every appended artifact matches its digest, verification lists nothing after any such run |
| Checkpoints.ActKeepsSound | app/amul_gc.py:302-375 | an append or a compaction keeps ranges contiguous from 0, links, addresses, counts, cold sets and range digests |
| Checkpoints.SealFollows | app/amul_gc.py:328-360 | a sealed checkpoint continues the chain over the file's lines and has nothing hot that was ever cold (its lists are `ColdRecords.SealSplits`); it counts its whole range exactly when no fewer artifacts are loaded than there are lines |
| ColdRecords.SealSplits | app/amul_gc.py:328-363 | a sealed checkpoint lists as cold exactly the records of its range that are not hot and as hot exactly the others, in order and without repeats, and counts their artifacts |
| ColdRecords.CompactsIff | app/amul_gc.py:302-341 | over any run, told by its appends and hot sets alone: a compaction goes through exactly when there are new lines and no record is hot that had an artifact sealed while it was not |
| ColdRecords.DeadStaysRefused | app/amul_gc.py:333-341 | once a record's artifact was sealed while the record was not hot, every later compaction with it hot is refused |
| Checkpoints.ShortFieldSealsFailure | app/amul_gc.py:338-363 | a compaction seals a checkpoint that verification rejects for its counts exactly when fewer artifacts are loaded than there are lines |
| Checkpoints.NoFailuresIff | app/amul_gc.py:378-460 | for any file and any loaded artifacts, verification lists nothing exactly when the chain is sound over the raw lines and the tail's payloads match |
| CheckpointFailures.FailuresMean | app/amul_gc.py:378-460 | which failures are listed, and for what: a start, link, address or count that is wrong, a record hot again, a range that differs from the lines, a payload behind every checkpoint that differs from its digest |
| Checkpoints.DeadStaysDeadAlways | app/amul_gc.py:420-428 | in a chain that passes, no record is hot after it was cold |
| Checkpoints.OneChainOneField | app/amul_gc.py:430-439 | any two files that match one chain have the same covered lines, wherever they end |
| Checkpoints.OneTreeOneField | app/amul_gc.py:430-439 | the tree roots alone do the same for any two lists of lines that the ranges lie in |
| Checkpoints.PassingFieldsAgree | app/amul_gc.py:396-460 | any two fields that both pass under one chain have identical covered lines |
| AmulField.FieldStore.constructor | app/amul.py:118-136 | loading keeps the artifacts up to the first text that does not parse |
| AmulField.LoadedMeans | app/amul.py:118-136 | the texts are loaded in order up to the first that does not parse; by an id the last one with it is found |
| AmulField.FieldStore.Append | app/amul.py:138-146 | the file, the artifacts and the order grow by the artifact, and no old byte changes |
| AmulField.FieldStore.Latest | app/amul.py:159-166 | the last artifact of a record in one resolution, and none only when there is none |
| AmulField.CheckpointFile.CompactField | app/amul_gc.py:302-375 | seals or refuses as the model does, which `ColdRecords.SealSplits` and `ColdRecords.CompactsIff` describe; a refusal leaves the chain as it was |
| AmulField.CheckpointFile.VerifyStructure | app/amul_gc.py:378-393 | the structural failures in order |
| AmulField.CheckpointFile.VerifyGc | app/amul_gc.py:396-460 | all failures in order, with and without a chain |
| Continuity.ListingMembers | agent-hooks/store.py:117-160 | under the listing limit a listing holds exactly the records its filter keeps |
| ContinuityLaws.ListingMeans | agent-hooks/store.py:117-160 | a listing is newest first, and what its filter keeps is missing only from a full one of newer records |
| Continuity.UnresolvedIffDisagree | app/continuity.py:96-150 | an unresolved set is reported exactly when two open records of a subject disagree |
| ContinuityLaws.ReportMeans | app/continuity.py:96-150 | one set for each subject asked about with two or more open records, by name; it lists exactly those, oldest first, and is unresolved exactly when two make different claims |
| Membrane.AdmittedAgrees | app/emr_write.py:256-315 | a write that is not blocked agrees with every live claim that it does not supersede |
| Membrane.RememberKeeps | app/emr_write.py:318-380 | a governed create keeps agreement, retirement and every record |
| Membrane.UpsertKeeps | app/emr_write.py:383-462 | a governed supersede keeps agreement, retirement and every record but for archiving its target |
| Membrane.MembraneHolds | app/emr_write.py:318-462 | every run of governed writes keeps all that, leaves verified records untouched, drops no content and keeps supersedes chains finite |
| Membrane.NoUnresolvedConflict | app/continuity.py:108-150 | after every such run no reader gets an unresolved conflict |
| Membrane.AgreeIffNoConflict | app/continuity.py:96-150 | with superseded records archived, live claims agree exactly when nothing unresolved is reported |
| MembraneConflicts.ConflictIsReported | app/continuity.py:96-150 | the report has an unresolved set exactly when two records of a subject that none of it replaces disagree |
| MembraneConflicts.WriteConflictIff | app/emr_write.py:256-462 | from any store without a conflict, a governed write leaves one exactly when it is admitted and clashes with what was open before |
| MembraneConflicts.WriteReportIff | app/emr_write.py:256-462 | the same in terms of the report before and after |
| MembraneConflicts.RunConflictIff | app/emr_write.py:318-462 | a run of governed writes never shows a conflict exactly when none of its writes clashes |
| MembraneConflicts.BlockedIff | app/emr_write.py:256-315 | for a subject that is not in conflict, the membrane refuses exactly when unreplaced claims exist and none of them is the new one |
| MembraneConflicts.BlockedInConflict | app/emr_write.py:300-315 | for a subject in conflict, exactly when some open record of it is outside what the write supersedes |
| MembraneConflicts.ConflictRefuses | app/emr_write.py:256-462 | no governed write is accepted on a subject in conflict, and nothing changes: an upsert supersedes one record, and at least two are open |
| MembraneConflicts.AcceptedIff | app/emr_write.py:223-462 | a write is accepted exactly when writing is on, the user asked for it, it is a draft of enough text and no transcript, its target is there, unverified and the one it names, it has a session, and the claims on its subject allow it |
| MembraneConflicts.RefusalKeeps | app/emr_write.py:318-462 | a refused write changes nothing |
| MembraneConflicts.MembraneReason | app/emr_write.py:223-315 | the reason is the membrane exactly when everything asked before it holds and the claims do not allow the write |
| MembraneConflicts.RememberRecord | app/emr_write.py:318-380 | an accepted create answers with the newest live record of its subject that makes the claim and changes nothing, or adds a draft with what the request says |
| MembraneConflicts.UpsertRecord | app/emr_write.py:383-462 | an accepted upsert adds a draft that names its target, archives the target and touches nothing else |
| MembraneConflicts.ClashCause | app/emr_write.py:268-284 | an admitted write clashes only over a live record that a record of another subject or the write's own target replaced |
| MembraneConflicts.IntactNeverClashes | app/emr_write.py:256-462 | where live claims agree and superseded records are archived no admitted write clashes |
| MembraneConflicts.RetiredIsNeeded | app/emr_write.py:383-462 | with a live record and its live replacement on one subject, an upsert of the replacement brings the old claim back |
| MembraneConflicts.RememberMayClash | app/emr_write.py:268-284 | with a live record and its live replacement on another subject, a remember of a new claim is admitted beside the old one |
| JarvisStore.FindConflicts | app/continuity.py:108-150 | the grouping loops report subject by subject what the specification says |
| JarvisStore.JarvisStore.CreateMemory | agent-hooks/store.py:210-234 | a new record with the hash of its content, or a refusal for an unknown target and no change |
| JarvisStore.JarvisStore.UpdateMemory | agent-hooks/store.py:236-269 | the given fields change, the hash follows the content, id and creation time stay; no change on a refusal |
| JarvisStore.JarvisStore.SubjectConflictBlock | app/emr_write.py:256-315 | the decision of the membrane on the store as it is, which `MembraneConflicts.BlockedIff` and `MembraneConflicts.BlockedInConflict` describe |
| JarvisStore.JarvisStore.Remember | app/emr_write.py:318-380 | the method does the model's create, with all its refusals and the idempotent answer |
| JarvisStore.JarvisStore.Upsert | app/emr_write.py:383-462 | the method creates, then archives, as the model's step does |

## Left out

- Cryptography, base64 armour and JSON text: the hash, the signature check, the key parser and the canonical texts are parameters.
- File handles, locks, descriptor pinning, fsync and Windows branches of the call log: under the lock a write happens or fails.
- CallLogModel.HandOver: counts, marks and clears in one turn, because the server has stopped serving by then (app/main.py:159): no thread of that worker is left to suppress a call in between.
- Torn lines and partial writes in the call log; an empty day file that was opened and not written; failing retention or a failing removal of the DEGRADED file.
- `_adopt_legacy_chain`, tenant paths and the refusal for an ambiguous owner in the checkpoint code: file moves.
- `classify_retention`, activation, query alignment, stemming and embeddings: the hot set and the scores are parameters; scores are reals without the rounding to 4 or 6 digits.
- `find_related` and `reconstruct_prefix`: they read and change nothing, and no property here depends on their answers.
- `anchor_memory`: it chooses which artifacts to append, and the checkpoint results hold for every choice.
- `delete_memory` and other writes around the gateway: the membrane results over runs are about governed writes only.
- The networkx graph of `app/graph.py`, its filters by confidence and age, and edge labels.
- Evidence references as text: a record carries the ids they name. Tenant membership, transport and tool names are values.
- HTTP, authentication, middleware and the database loading and reporting around `evaluate_trust` and `evaluate_attestations`.
- Non-ASCII digits in checkpoint subjects, which the original accepts as digits and may fail to convert.
- Negative ranges and counts in a checkpoint file: the model's are natural numbers, as `compact` writes them.
- CallLogModel.Append: takes `args_hash`, client names and error codes as one opaque text, because no branch looks at them.
- Membrane.MembraneHolds: assumes that a store stays under the 9999 records one listing returns and that a new id is held and mentioned by nothing; create and archive of one upsert share a clock reading.
- MembraneConflicts.WriteConflictIff: the same listing limit and fresh ids.
- CallLogSummaries.SummariesCountTheirCalls: starts with workers that have no summary open, as a process starts, over any log.
- AmulField.FieldStore.constructor: takes the texts of the file's lines as a parameter, apart from its bytes: decoding and JSON are not part of this model.
- ColdRecords.CompactsIff: is about runs that start from an empty field; `ColdRecords.SealSplits` holds for any.
- CallLogRetention.AppendedRunKeeps: starts from files in the order of their days that hold entries of their own day, with a clock that never goes back.
- Checkpoints.RunVerifies: is about fields that start empty and are appended to by one process; other files are what `Checkpoints.NoFailuresIff` is for.
- AttestationLaws.CosignedPastAgrees: assumes key ids that are not empty and hold no line feed, as the table stores them.
- Bundle.SelectBundle: takes the summary and evidence texts as parameters and asks for unique ids.
- Expansion.ApplyGraphExpansion: takes case folding as a parameter and asks for unique ids and activations without a boost, as `activate` leaves them.

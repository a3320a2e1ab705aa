# Verified core of the IPFS observer club

A Dafny model of the parts of the observer club in which a mistake would stay silent: files put
together from untrusted blocks, a catalog kept in step with its message log, the protocol that
limits how often a document is classified, the two-lane work queue, and the gossip daemon.

The network is an oracle that may refuse or lose any request at any time but never returns bytes
that do not hash to the CID asked for. SQLite tables are sequences and maps, one statement after
the other. Clocks, hashes, signatures, text extraction and the language model are inputs.
Functions and lemmas model code that computes values; classes and methods with loops model code
that changes tables, buffers and slices in place, each proved against a function whose
properties are then proved for all inputs or all runs.

| files | what they hold |
|---|---|
| `Digits`, `Varint`, `BaseText`, `CidText` | varints, base58, base32, CIDs printed and parsed |
| `DagPb`, `FileDag`, `Assembly`, `WholeFile`, `Fetch` | dag-pb parsing, the flattening of a file, the wave walk |
| `Catalog`, `CatalogEntries`, `Erasure`, `FieldNames`, `CatalogStore` | the event-sourced catalog, blacklisting, field normalisation |
| `Labels`, `LabelCounts`, `Keywords`, `Ties`, `Voters` | the vote on labels, its order and ties, and who votes |
| `SkipHook`, `Indexer`, `Settling`, `Votes`, `Publishing` | one processing step, what it leaves in the queue, and the voting protocol over runs |
| `WorkRows`, `Listing`, `Admission`, `AdmissionLimits`, `Eviction`, `DropOrder`, `WorkDb`, `Pruning`, `Keeping`, `Scheduler`, `Entering` | the work queue |
| `Limit`, `Leases`, `Daemon` | the daemon's limiter, claims and order of checks |
| `Text`, `JsonText`, `Canon`, `CanonLaws`, `CanonWriter`, `CanonVectors` | the two canonical printers |
| `Vectors` | literal examples that fix the formats |

## Main results

- **Whole files.** Whatever the network loses, `Assembly.AssembleFile` returns a prefix of what a
  perfect walk gives; unflagged and of a type that can be judged, it is all of it. That is the
  depth-first flattening exactly when no block fetched after sniffing carries both links and data (`WholeFile.UnflaggedIsWhole`),
  and an honest `filesize` rules the other case out. An available page beyond the byte budget comes
  back as its first `MAX_BYTES` bytes, flagged, and is judged on their text (`Indexer.LargePageIsJudged`).
- **Verdicts.** Which message is sent and how the row is marked is told exactly by the fingerprint, the
  prior, the model and clubd (`Indexer.WhatIsSent`, `Indexer.HowItIsMarked`).
- **PDF verdicts.** For every way of extracting and judging text, what `Indexer.ProcessOne` publishes
  about a PDF carries the text of complete bytes. These are the whole file exactly when no later block
  carries both links and data (`Indexer.SentPdfIsWhole`), so in particular for every file whose mixed
  blocks come early or whose `filesize` is honest. A PDF that was cut short gets no verdict; one that
  can be had whole is judged on its whole text.
- **Catalog.** Every run of ingest, blacklist, unblacklist, purge and expiry keeps the tables equal
  to views of the log; blacklisting leaves the state of a history that never saw the publisher,
  exactly when field normalisation is idempotent (`Erasure.ErasureNeedsIdempotence`), that is, exactly
  when every alias of the club's profile that can be reached leads to a field that stays itself
  (`FieldNames.ErasureIffSettled`), as in the shipped profile (`FieldNames.AcademicSettles`).
- **Votes.** At most two independent classifies per CID without `wrong` reports, and one per node
  with them, over all runs of any number of nodes that do what `ProcessOne` does
  (`Publishing.HonestNodesVoteTwice`). A second vote is let through exactly while there is one
  (`Votes.SecondVoteIff`), and every run with one goes on to two (`Votes.SecondVoteFollows`).
- **Queue.** Live rows in every run stay within `2 * max_queue - lane_cap` plus the arrivals no lane
  was asked about; the bound is reached for every queue size. The scheduler is work-conserving
  exactly for an even number of workers, or one. Pruning a queue with room keeps exactly the current
  rows (`Keeping.UncrowdedKeeps`), and no sniffed row out of date is ever left (`Keeping.NothingStaleIsLeft`).
- **Canonical text.** Each printer's text identifies the document up to key order and signatures;
  the two agree exactly on clean documents, and a text both can write is one document. Keys ascend at every
  depth, character by character (`CanonVectors.KeysAscend`, `Text.LexLtIsPrecedes`).

Where the code does not keep what its comments or its design suggest, the model keeps the code and
proves the exact condition:

- A block with links *and* data in the wave phase loses its data unnoticed when no `filesize` betrays it
  (`WholeFile.LosesDataUnflagged`, with a network and a file in `WholeFile.MixedBlockLosesData`).
- clubd and the catalog may disagree about a lease: a refresh that shortens it and is handled
  after its new end is kept by one side only (`Leases.ShrinkingLeaseIsTurnedAway`).
- A full HTML lane drops reported raw rows: for a given table exactly those with fewer waiting rows ahead
  than the lane must lose (`Pruning.ReportedGoesIff`).
- A dropped folder returns although interest did not grow (`Eviction.SamePeerTwice`).
- Odd worker counts from three on leave one worker idle while both lanes have work
  (`Scheduler.ConservingIffEven`), and a batch of several rows counts its own picks twice: from a
  well-stocked table its size is known, and it stops short by an exact condition on that table
  (`Scheduler.BatchStopsShortIff`); asked for as many rows as there are workers, an idle node leaves
  workers idle exactly when it has three or more (`Scheduler.FullBatchIdlesWorkers`).
- Rejected gossip stays in the duplicate table: the same payload sent again is dropped exactly while no full
  table has flushed its hash (`Daemon.RefusedIsLost`), and one other payload may be enough for that
  (`Limit.FullTableForgets`).
- docs/PROTOCOL.md shows the unique winner of a vote; the code shows the first-seen key of maximal votes. The
  two agree, and the order of the ballots is irrelevant, exactly when one key leads
  (`Ties.AheadIffOneLeader`, `Ties.OrderMattersIffTied`).

## Model

| member | source | states |
|---|---|---|
| `Varint.RoundTrip` | tests/pdfdag.py:32-42 | reading back an encoded varint, whatever follows it, gives the number and exactly its length |
| `Varint.EncodedLength` | tests/pdfdag.py:32-42 | a number below 128^k takes at most k bytes |
| `Varint.ReadVarint` | observer/unixfs.py:18-27 | the loop yields the little-endian base-128 value, and fails exactly when the bytes run out |
| `Varint.ReadVarintBounded` | observer/cidutil.py:36-49 | the same value, and a failure exactly for cut-off or more than ten bytes: both readers agree whenever this one succeeds |
| `BaseText.B58EncodeLoop` | observer/unixfs.py:77-85 | the division loop computes the specified base58 text, one `1` per leading zero byte |
| `BaseText.B58DecodeLoop` | observer/cidutil.py:27-33 | the multiply-and-add loop computes the specified bytes, and fails exactly on a foreign character |
| `BaseText.B58DecodeOfEncode` | observer/cidutil.py:27-33 | decoding an encoding is the identity on every byte string, leading zeros included |
| `BaseText.B58EncodeOfDecode` | observer/unixfs.py:77-85 | encoding what a base58 text decodes to gives that text back: one text per byte string |
| `BaseText.B32EncodeLoop` | observer/unixfs.py:60-72 | the bit buffer emits the base32 digits of the bytes, the last group padded with zero bits |
| `BaseText.B32RoundTrip` | observer/cidutil.py:72-75 | unpadded base32 text, padded again and decoded, gives the bytes (section 6 of RFC 4648) |
| `CidText.CidFromHashLoop` | observer/unixfs.py:55-74 | a 34-byte sha2-256 multihash prints in base58, everything else as `b` and base32 |
| `CidText.V0RoundTrip` | observer/cidutil.py:52-102 | every 32-byte digest prints as 46 characters starting `Qm` and parses to version 0, dag-pb, sha2-256 and that digest |
| `CidText.V1RoundTrip` | observer/cidutil.py:52-102 | every well-formed CIDv1 survives printing, the multibase text and both varint readers |
| `CidText.VerifiedBlockIsUnique` | observer/cidutil.py:116-129 | with a hash without collisions at most one block verifies against a CID |
| `Vectors.VarintVector` | tests/pdfdag.py:32-42 | 300 is the two bytes AC 02 |
| `Vectors.Base58Alphabet` | observer/cidutil.py:11-33 | the 58 digits, letter by letter, in both directions |
| `Vectors.Base58Only` | observer/cidutil.py:27-33 | no other character is read, so none of the four look-alikes |
| `Vectors.Base58Vector` | observer/unixfs.py:77-85 | two texts, one with a leading zero byte |
| `Vectors.Base32Alphabet` | observer/cidutil.py:72-75 | the 32 digits of section 6 of RFC 4648 |
| `Vectors.Base32Vector` | observer/unixfs.py:60-72 | two bytes as four characters after the multibase `b` |
| `Vectors.UnpaddedIsRead` | observer/cidutil.py:72-75 | unpadded base32 passes exactly when its length leaves whole bytes |
| `Vectors.OtherBase` | observer/cidutil.py:72-84 | the other multibase prefixes, and none besides |
| `Vectors.HexPair` | observer/cidutil.py:81-82 | two hex digits are a byte |
| `Vectors.HexDigits` | observer/cidutil.py:81-82 | in either case |
| `Vectors.OwnBlockVerifies` | observer/cidutil.py:116-129 | a block verifies against a printed CIDv0 exactly when its sha2-256 is the digest |
| `Vectors.OwnBlockVerifiesV1` | observer/cidutil.py:116-129 | and against a CIDv1 exactly when its sha2-256, or for the identity hash itself, is the digest; other hashes never verify |
| `DagPb.ReadFields` | observer/unixfs.py:30-52 | the field loop ends on every input and yields the specified fields, or fails on a cut-off varint |
| `DagPb.ReadLink` | observer/unixfs.py:105-113 | the last hash and name of a link win, and a link without hash is dropped |
| `DagPb.ParseLoop` | observer/unixfs.py:98-126 | type, inline data, filesize and links in order, or a failure, as specified on the field list |
| `DagPb.ParseOfEncode` | tests/pdfdag.py:56-94 | parsing an encoded node returns its type, data, filesize and ordered links |
| `Vectors.FolderVector` | observer/unixfs.py:98-126 | one directory block, byte by byte, and its node |
| `Vectors.TypeCodes` | observer/unixfs.py:14-15 | the six UnixFS types |
| `Vectors.BlockInFile` | observer/fetch.py:226-240 | what a block is worth inside a file: a folder nothing, a file its data and links, anything else itself |
| `FileDag.FlatUnfold` | observer/fetch.py:226-240 | the flattening is a block's bytes followed by the flattening of its links, and distributes over siblings |
| `FileDag.LeavesVersusFlat` | observer/fetch.py:364-368 | dropping the data of link-bearing blocks shortens the file exactly when there is such data |
| `Assembly.SniffedKeepsFile` | observer/fetch.py:316-331 | the sniff phase moves bytes to the front without losing any of the file |
| `Assembly.SniffPhase` | observer/fetch.py:316-331 | the loop reaches the specified head, or stops at the first failed fetch with no fewer bytes than it began with and a prefix of that head |
| `Assembly.FetchChildren` | observer/fetch.py:243-271 | siblings come back in link order; each is had at the first request, or at a second one unless every one of several missed |
| `Assembly.TakeWave` | observer/fetch.py:345-350 | a wave is the run of unresolved links at the front, bounded by the room, and never empty when there is one |
| `Assembly.Expand` | observer/fetch.py:360-369 | every block gives its links, or its data when it has none, in link order; one missing block fails the wave |
| `Assembly.EntriesStand` | observer/fetch.py:360-369 | the deque entries stand for exactly the leaves under the wave, for all its blocks but its own, and for its names |
| `Assembly.WavePhase` | observer/fetch.py:342-371 | output and deque together always denote the same file, and names heard and to come the same names; the walk ends done, out of budget or at a failed fetch, never with fewer bytes, and each wave makes progress |
| `Assembly.Finish` | observer/fetch.py:336-377 | a prefix of the rest of the file, all of it when unflagged; under any failure what was sniffed, up to the budget; with every block within reach exactly the budget's worth, flagged when there is more; an opening beyond the budget as it is |
| `Assembly.KeptIsWhole` | observer/fetch.py:326-368 | what a perfect walk keeps is the flattening exactly when no later block is mixed, and is shorter otherwise |
| `Assembly.AssembleFile` | observer/fetch.py:294-377 | under any failures a prefix with the root's own bytes; all of it and not short of filesize when unflagged; with every block available and allowed exactly the budget's worth of it, flagged when there is more, with every name in it; an unread type as far as it was sniffed; fetches bounded |
| `Assembly.SniffedKeepsNames` | observer/fetch.py:316-331 | and without losing any name |
| `WholeFile.UnflaggedIsWhole` | observer/fetch.py:364-377 | an unflagged sample is the flattening if and only if no later block is mixed; a filesize at least the true length forces it |
| `WholeFile.SampleIsPrefix` | observer/fetch.py:294-377 | without mixed later blocks every sample, flagged or not, is a prefix of the file |
| `WholeFile.MixedBlockLosesData` | observer/fetch.py:364-368 | a concrete network and file: the sample comes back unflagged without one of the file's bytes |
| `WholeFile.LosesDataUnflagged` | observer/fetch.py:364-377 | every available file that fits, has a later mixed block and declares no larger filesize comes back unflagged and too short |
| `WholeFile.VerifiedIsAddressed` | observer/cidutil.py:116-129 | bytes that pass verification are the one block the CID addresses |
| `WholeFile.ChunkedIsWhole` | tests/pdfdag.py:97-129 | the fixture encoder's chunked file flattens to its payload, with one block per chunk |
| `WholeFile.FetchChunkedPdf` | observer/fetch.py:41-48 | every chunked PDF below the byte budget comes back whole and unflagged: the block cap follows by ceiling division |
| `Fetch.PickIsStable` | observer/unixfs.py:154-170 | a name with a listed extension stays the pick when names are appended |
| `Fetch.PickFrom` | observer/unixfs.py:154-170 | a name is picked exactly when there is a usable one, and one with a listed extension exactly when there is one |
| `Vectors.PickIsFirst` | observer/unixfs.py:154-170 | the first name with a listed extension, and only without one the first plain name |
| `Vectors.SniffVector` | observer/extract.py:218-238 | a source-code name decides first, then `%PDF` at the very front, then HTML |
| `Fetch.FinalPdfWasJudgedPdf` | observer/fetch.py:274-277 | bytes finally sniffed as PDF were sniffed as PDF when the budget was chosen |
| `Fetch.FetchCid` | observer/fetch.py:380-426 | missing blocks and folders are told apart exactly; an unflagged PDF sample is complete; what can be had comes back whole and unflagged, under a name of the file; an available page beyond the byte budget comes back as its first `MAX_BYTES` bytes, flagged; a PDF declared too large as what was sniffed, flagged; under any failure the root's own bytes |
| `Fetch.CompleteIsWhole` | observer/fetch.py:375-377 | complete bytes are the single block, or the whole flattening of a file with no later mixed block or an honest filesize |
| `Indexer.ProcessOne` | observer/indexer.py:146-330 | fetches exactly what is valid and what the hook, case by case, lets through, and notes why it does not; what can be had is had whole, and of what is too large a prefix; what is sent, leased and marked follows from the sample by the oracles alone; a published PDF verdict carries the text of complete bytes, and of the whole file when that is well formed |
| `Indexer.Judge` | observer/indexer.py:243-327 | of a usable text: each of the three messages, each mark and the lease exactly, on the fingerprint, the prior, the model and clubd |
| `Indexer.JudgeSample` | observer/indexer.py:179-241 | a folder, a missing block, a cut PDF or unusable text gets no verdict and its own mark; any other sample is judged on its text |
| `Indexer.WhatIsSent` | observer/indexer.py:212-327 | a reuse exactly for a known text with no due vote; a classify exactly when the model, asked, says yes and the prior does not rule the text out; a skip exactly when it does, or the model says no to an uncertain one; only for usable text that clubd accepts |
| `Indexer.HowItIsMarked` | observer/indexer.py:212-327 | indexed, out of scope, incomplete, unprocessable, remembered, `llm_disagreed` or queued again, each exactly |
| `Indexer.AskHook` | observer/indexer.py:149-170 | the checks before a fetch let exactly the open cases through, and mark the others by the club's verdict |
| `Indexer.OpenIsProceeds` | observer/indexer.py:155-170 | and they are the hook the voting protocol speaks of |
| `Indexer.SentPdfIsWhole` | observer/indexer.py:212-225 | whatever is sent about a PDF was judged on complete bytes, which are the file if and only if it is a single block or no later block is mixed |
| `Indexer.WholePdfIsJudged` | observer/indexer.py:227-241 | a PDF had whole is judged on its whole text if and only if that text is not empty and has the minimal length |
| `Indexer.LargePageIsJudged` | observer/indexer.py:212-241 | an available page beyond the byte budget is judged on the text of its first `MAX_BYTES` bytes |
| `Settling.ProcessRow` | observer/indexer.py:146-330 | the sample decides the outcome, and its mark the whole queue; afterwards the row is not being processed, and a folder has made room for its documents and entered the ledger |
| `Settling.NothingLeftProcessing` | observer/indexer.py:146-330 | whatever mark the indexer ends with, no row of the CID is left processing |
| `Settling.MarkIsWritten` | observer/work.py:470-481 | each mark leaves its status and error in the row, what is queued again waits, and no other row changes |
| `Settling.ForgottenIsGone` | observer/work.py:180-205 | a forgotten cid has no row and no peers left; one that is remembered is never queued from a sighting again |
| `Settling.FolderIsGone` | observer/indexer.py:183-192 | a processed folder is out of the queue and held back exactly while fewer peers than it had were heard since |
| `Settling.SettleRow` | observer/indexer.py:183-203 | the statements behind each mark leave the specified queue |
| `SkipHook.FirstClassifyAnswersForever` | observer/store.py:724-768 | once a CID has a classify, lookups keep answering with it in every run without blacklist or purge |
| `SkipHook.LookupWithoutClassify` | observer/store.py:753-768 | without a classify a lookup tells exactly a live claim of another node, else exactly a live skip, else nothing |
| `Votes.VoterIsNew` | observer/store.py:384-431 | an allowed classify comes from a node with none of its own, and opens the CID or is a due second vote |
| `Votes.OneClassifyPerNode` | observer/indexer.py:152-170 | in every legal run no node has two classifies of one CID, whatever is reported |
| `Votes.BallotsAreVoters` | observer/store.py:413-424 | with one classify per node, independent classifies and the publishers the skip-hook counts number the same |
| `Votes.AtMostTwoVotes` | observer/store.py:419-431 | in every legal run without `wrong` reports no CID gets a third independent classify |
| `Votes.ReportReopens` | observer/store.py:399-431 | after a `wrong` report a node may vote if and only if it has no classify of that CID |
| `Votes.SecondVoteIff` | observer/store.py:419-431 | on a classified CID nobody reported `wrong`, a node may vote if and only if it has no classify of it and there is exactly one independent ballot |
| `Votes.SecondVoteFollows` | observer/store.py:419-424 | every legal run that ends with one ballot extends, by any node without a classify, to a legal run with two |
| `Votes.NoReuseOnKnown` | observer/indexer.py:243-245 | no node may add a reuse row to a CID that has its search row |
| `Publishing.SentIsAllowed` | observer/indexer.py:152-259 | a classify that processing sends, on what the hook said, is a step the voting protocol allows |
| `Publishing.HonestNodesVoteTwice` | observer/indexer.py:146-330 | in every run whose classifies come out of processing there is one per node, and at most two independent ones without `wrong` reports |
| `Voters.IndependentAreVoters` | observer/labels.py:59-68 | the list made by query, filter and dictionary has no repeats and names exactly the publishers the skip-hook counts |
| `Voters.ListedVotersAreBallots` | observer/labels.py:59-77 | with one classify per node it is as long as there are independent classifies |
| `Voters.AtMostTwoListed` | observer/labels.py:59-68 | in every legal run without `wrong` reports it names at most two publishers |
| `Catalog.StepConsistent` | observer/store.py:508-653 | every operation keeps `messages` free of repeats and of blacklisted publishers, `classifies`, `reports` and `aliases` equal to views of it, one search row per classified CID, the index row for row and the cached count exact |
| `Catalog.StepFirstSeen` | observer/store.py:285-314 | every operation keeps the search row that of the earliest classify |
| `Catalog.RebuiltIsOriginal` | observer/store.py:515-522 | a rebuilt row equals the first one if and only if normalising its field twice changes nothing |
| `CatalogEntries.TakenIff` | observer/store.py:580-612 | a message changes the catalog exactly when it is new, of this club, from a publisher that may speak, and about a valid CID |
| `CatalogEntries.FirstClassify` | observer/store.py:300-315 | the first classify of a CID gives the search row, the index row and the count their columns |
| `CatalogEntries.LaterClassify` | observer/store.py:666-681 | a later one only adds a vote |
| `CatalogEntries.IndexFollowsRows` | observer/store.py:286-315 | in every consistent catalog the index holds of each search row its CID, field and texts |
| `CatalogEntries.VerdictEndsLeases` | observer/store.py:618-624 | a classify or a skip ends the leases on its CID, and no others |
| `CatalogEntries.LastSkipStands` | observer/store.py:618-624 | a skip replaces the skip of its CID |
| `CatalogEntries.ClaimHeldIff` | observer/store.py:625-636 | a claim is held exactly when it is live and its publisher holds no other live one |
| `CatalogEntries.ReportsSpeakForThemselves` | observer/store.py:637-652 | a `wrong` report opens the CID for review; a `clear` takes back that reporter's word and no other |
| `CatalogEntries.ClearedWhenLastObjectorYields` | observer/store.py:637-648 | after a `clear` the CID is still open exactly if somebody else's last word is `wrong` |
| `CatalogEntries.AliasIsShort` | observer/store.py:684-693 | an alias is the collapsed name cut to 32 characters, and a blank one removes it |
| `CatalogEntries.NothingOfHisIsLeft` | observer/store.py:525-567 | blacklisting takes exactly what the publisher said out of every table, skips and claims included |
| `CatalogEntries.NotYourself` | observer/store.py:525-533 | nobody, and the node itself, cannot be blacklisted |
| `CatalogEntries.OnlyMalformedGo` | observer/store.py:801-828 | the purge takes exactly what has a malformed CID, and keeps every alias |
| `CatalogEntries.ExpiryIsExact` | observer/store.py:831-842 | expiry ends exactly the leases that have run out, and the skips that are old and not for good |
| `Catalog.PurgeSearch` | observer/store.py:801-828 | purging invalid CIDs keeps search rows, index and count in step |
| `Erasure.RunConsistent` | observer/store.py:580-653 | consistency holds in every state any run reaches |
| `Erasure.RunFirstSeen` | observer/store.py:285-314 | so does first-seen, on a clock that does not go back |
| `Erasure.RunErased` | observer/store.py:525-567 | in step with a second run that never saw the publisher, the logs differ by its messages only |
| `Erasure.BlacklistErases` | observer/store.py:525-567 | after any history, blacklisting leaves messages, classifies, docs, index, count, reports and aliases as if the publisher had never spoken |
| `Erasure.NormalisingTwiceBreaksErasure` | observer/store.py:515-522 | without idempotence a report and a blacklisting rewrite a search row |
| `Erasure.ErasureNeedsIdempotence` | observer/store.py:515-567 | erasure of search rows holds for all histories if and only if normalisation is idempotent |
| `Erasure.FirstDocStays` | observer/store.py:300-314 | no message and no expiry replaces a search row |
| `FieldNames.KeyIsSlug` | observer/club.py:62-66 | the key of any value is lower case, without underscores, in words one blank apart |
| `Vectors.FieldLookUp` | observer/club.py:62-73 | key, then dashes for blanks, then the aliases of either, then `other` |
| `Vectors.MappedAt` | observer/club.py:65-65 | capitals become small and underscores dashes, one by one |
| `Vectors.FirstWord` | observer/club.py:66-66 | the key is the words of the value, one blank apart |
| `Vectors.KeyVector` | observer/club.py:65-66 | one key as text |
| `FieldNames.IdempotentIffSettled` | observer/club.py:62-73 | normalising twice is normalising once if and only if every alias that can be reached leads to a field that normalises to itself |
| `FieldNames.ErasureIffSettled` | observer/club.py:62-73 | blacklisting erases all search traces in all histories if and only if the club's aliases settle in this sense |
| `FieldNames.UnlistedTargetBreaks` | observer/club.py:73 | an alias into a word outside the vocabulary does not settle |
| `FieldNames.ListedTargetsSettle` | observer/club.py:73 | a profile whose aliases all lead into its vocabulary settles |
| `FieldNames.AcademicSettles` | clubs/academic/club.toml:6-22 | the shipped profile does |
| `CatalogStore.Store.UpsertDoc` | observer/store.py:285-314 | inserts row, index entry and count for a new CID, and leaves a known one alone |
| `CatalogStore.Store.DropDoc` | observer/store.py:508-512 | removes row and index entry and lowers the count only if there was a row |
| `CatalogStore.Store.RebuildDoc` | observer/store.py:515-522 | drops the row and puts back the one of the earliest classify left |
| `CatalogStore.Store.IngestMessage` | observer/store.py:580-653 | the new database is the specified one, the answer is whether the message was new, and a review is asked for exactly on a new `wrong` report |
| `CatalogStore.Store.BlacklistPeer` | observer/store.py:525-567 | on the trimmed name the new database is the specified one and the alias is kept with it; the node itself and the empty name are refused |
| `CatalogStore.Store.UnblacklistPeer` | observer/store.py:570-577 | exactly the trimmed name leaves the blacklist, and the search tables stay aligned |
| `CatalogStore.Store.RebuildAll` | observer/store.py:564-565 | rebuilding CID by CID, in any order, gives the specified search tables |
| `CatalogStore.Store.ExpireClaims` | observer/store.py:831-842 | exactly the leases that have run out go |
| `Labels.LatestPerPublisher` | observer/labels.py:71-77 | the dictionary loop leaves each publisher's last row, in order of first appearance |
| `Labels.BallotIsLastWord` | observer/labels.py:71-77 | the ballots hold, for each publisher, exactly its last row |
| `Labels.LastWordIsLatest` | observer/labels.py:71-77 | on rows ordered by time no row of that publisher is later |
| `Labels.CountVotes` | observer/labels.py:80-89 | the counting loop computes votes, first spellings and the order of first sight |
| `Labels.CountFacts` | observer/labels.py:80-89 | each key's votes are its occurrences, and all votes sum to the items counted |
| `Labels.WinnerIsFirstMaximum` | observer/labels.py:92-99 | the winner has maximal votes and every earlier-seen key has fewer |
| `Ties.AheadIffOneLeader` | docs/PROTOCOL.md:101-103 | the key shown is a unique winner if and only if no two keys share the most votes |
| `Ties.OrderMattersIffTied` | observer/labels.py:92-99 | every order of the same ballots has the same winner if and only if no two keys share the most votes |
| `Ties.TieGoesToTheFirst` | observer/labels.py:92-99 | two ballots for two keys: the one heard first wins |
| `Ties.UniqueLabels` | observer/labels.py:110-136 | for the labels of a CID: the tallies of field and topic tell whether each is a unique winner and independent of the order |
| `Labels.TallyAddsUp` | observer/labels.py:110-136 | field votes sum to the number of voters and no keyword exceeds it |
| `LabelCounts.VotesAreVoters` | observer/labels.py:110-136 | every vote in a tally is that of a voter: its field, its topic, and each of its keywords once |
| `LabelCounts.WhoIsHeard` | observer/labels.py:45-57 | rows of reuse are heard exactly when no other row is there |
| `LabelCounts.FirstSpelling` | observer/labels.py:80-89 | a key is shown in the spelling it was first heard in |
| `LabelCounts.TopicShownIsSaid` | observer/labels.py:110-123 | the topic shown is some voter's own text |
| `Keywords.RankedIsSorted` | observer/labels.py:102-107 | ranking keeps every key and puts each strictly before all that follow, by votes and then alphabetically |
| `Keywords.KeywordsAreTheBest` | observer/labels.py:102-107 | a tally shows at most ten keywords in that order, and none left out comes before one shown |
| `Keywords.VotesThenAlphabet` | observer/labels.py:102-107 | of two keywords shown the first has more votes, or as many and stands first in the alphabet, character by character |
| `Labels.ReuseNeverVotes` | observer/labels.py:45-48 | once an independent row exists, reuse rows do not change the result |
| `Labels.ConsensusMany` | observer/labels.py:148-173 | the batched query equals the single one for every requested CID, under any chunk size |
| `Labels.FillChunk` | observer/labels.py:158-169 | one chunk's query fills exactly the buckets of its CIDs, each in time order |
| `WorkRows.LanesPartition` | observer/work.py:512-519 | live and busy rows are shared out between the lanes without rest or overlap |
| `WorkRows.FirstIsFirst` | observer/work.py:533-547 | a selection finds a row whenever one matches, and nothing matching comes before it |
| `WorkRows.DropFirstCount` | observer/work.py:373-381 | as many matching rows go as were asked for, or all of them |
| `WorkRows.FirstGoFirst` | observer/work.py:373-381 | no dropped row comes after a matching row that stays |
| `DropOrder.DroppedIffFewAhead` | observer/work.py:373-381 | a matching row is dropped if and only if fewer rows than the limit are ahead of it, ties in table order |
| `Admission.RecordKeepsLanes` | observer/spool.py:30-105 | a spool line keeps the lane bound, whether it inserts, refreshes or is refused |
| `Entering.NewCidIsQueuedIff` | observer/spool.py:30-105 | a cid that is not queued gets a row exactly when it is valid, readable, released, wanted by enough peers and its lane has room; the columns of that row, which waits |
| `Entering.QueuedCidIsRefreshed` | observer/spool.py:76-83 | a further sighting of a queued cid moves its time, count and peers, and touches no other row |
| `Entering.SightingKeepsRoots` | observer/spool.py:91-97 | sightings never take the unidentified roots above their cap |
| `Admission.AdoptKeepsLanes` | observer/work.py:236-270 | directory children keep it too; each queued row renamed into the PDF lane costs one |
| `Entering.FolderAdds` | observer/work.py:224-270 | whatever a folder adds is a row for one of the first PDF names of its listing, valid and not settled before, waiting and old enough to be taken; nothing else changes but missing names |
| `Entering.WelcomeIsQueued` | observer/work.py:236-270 | every such document that was not queued gets its row, unless the named rows or their lane are at the limit in the end |
| `Entering.NamedWithinCap` | observer/work.py:231-270 | the live named rows grow by exactly the documents added, and these stop at the cap |
| `Admission.RunKeepsLanes` | observer/work.py:633-660 | in every run one lane is within its share, up to unchecked arrivals |
| `Admission.LiveRowsAreBounded` | observer/work.py:633-660 | live rows never exceed `2 * max_queue - lane_cap` plus the unchecked arrivals of the run |
| `AdmissionLimits.BoundIsReached` | observer/work.py:645-660 | for every queue size a run of sightings reaches that bound exactly |
| `Admission.ReviewIsAnEvent` | observer/work.py:153-177 | a review is one of the events of a run and costs the bound at most one row |
| `Entering.ReviewIsReady` | observer/work.py:153-177 | a CID called up for review may be taken at once as a report, whatever had become of its row |
| `Entering.ReviewTouchesOne` | observer/work.py:153-177 | a node's own classify or a malformed CID is never called up, and a call touches no other row |
| `Eviction.ReturnsWhenAsManyPeers` | observer/spool.py:53-105 | a dropped folder stays away if and only if fewer distinct peers than it had were heard before the last sighting; the sighting that releases it queues it if and only if its lane has room |
| `Eviction.SamePeerTwice` | observer/work.py:208-221 | a folder wanted by one peer is released when that peer asks twice, and queued if and only if its lane has room |
| `Listing.DocChildLinks` | observer/unixfs.py:136-151 | the loop returns the first documents of the listing, up to the limit and in order |
| `Listing.DocsAreNamedPdf` | observer/unixfs.py:136-151 | each is a base name ending in .pdf, without a path and not too long, of an entry of the listing |
| `Vectors.EntryIsDocument` | observer/unixfs.py:136-151 | an entry is a document exactly when its base name, trimmed, ends in .pdf in any case and is not too long |
| `Vectors.BaseOfPath` | observer/unixfs.py:136-151 | the base name follows the last separator of either kind |
| `Vectors.TrimIs` | observer/unixfs.py:136-151 | trimming takes the white space at both ends and nothing else |
| `Vectors.WhiteSpace` | observer/unixfs.py:136-151 | what is white space |
| `WorkDb.Record` | observer/spool.py:30-105 | the statements leave the specified database and counts |
| `WorkDb.EnqueueDocChildren` | observer/work.py:224-270 | from the directory listing on, the loop leaves the specified database and returns the children added |
| `WorkDb.EnqueueReview` | observer/work.py:153-177 | inserts or calls up the row as specified, unless the CID is invalid or this node's own |
| `WorkDb.DropDirectory` | observer/work.py:208-221 | the folder leaves the queue and its peers, and enters the ledger with the peers it had |
| `Entering.FolderLedger` | observer/work.py:208-221 | the ledger notes the peers the folder's row had, one at least, and no other row or entry changes |
| `WorkDb.Conn.ForgetFirst` | observer/work.py:373-381 | selecting and forgetting leaves the specified rows and changes no remaining peers |
| `Pruning.Prune` | observer/work.py:342-433 | the stages, with the counts the code goes on with, leave the specified rows; the result counts drops and requeues |
| `Pruning.ExpireLocalSkips` | observer/work.py:436-467 | exactly the expired skips are requeued and counted |
| `Pruning.PrunedLiveBound` | observer/work.py:342-433 | live rows at most the queue's size or the kept rows, plus expired skips |
| `Pruning.PrunedProbeBound` | observer/work.py:414-430 | unidentified dag-pb rows at most their cap or those processing, plus expired ones |
| `Pruning.HtmlShareKept` | observer/work.py:361-382 | the HTML lane comes down exactly to what the PDF lane leaves of the queue, half of it at least, or to what of it is being processed |
| `Pruning.PdfShareKept` | observer/work.py:383-399 | the PDF lane loses unidentified roots only, exactly as many as it has above what the HTML lane should leave |
| `Pruning.CutLiveBound` | observer/work.py:393-413 | the last cut brings the live rows down to exactly the queue's size or the kept rows, and no further |
| `Pruning.CutProbesBound` | observer/work.py:414-430 | and the unidentified roots to exactly their cap or those being processed |
| `Keeping.Columns` | observer/work.py:495-519 | the lane conditions on the columns of a row |
| `Keeping.UncrowdedKeeps` | observer/work.py:342-433 | in a queue with room a live sniffed row stays if and only if it was seen within the last `max_age` seconds and is dag-pb, named `.pdf`, being processed or wanted by enough peers; a named one if it is named `.pdf` or being processed; a reported one always |
| `Keeping.NothingStaleIsLeft` | observer/work.py:352-359 | however crowded the queue, no live sniffed row that is out of date is left |
| `Keeping.LanesLoseTheirOldest` | observer/work.py:373-398 | each lane loses waiting rows only, and those seen least recently |
| `Keeping.LastCutInOrder` | observer/work.py:393-413 | the last cut takes sniffed rows only, unidentified roots, then raw blocks, then the rest, the oldest first in each |
| `Keeping.RequeuedIff` | observer/work.py:436-467 | exactly the due skips are requeued, told by status, type, error and age, with the error that says why |
| `Keeping.SettledRowsStay` | observer/work.py:342-467 | a row that is not live stays, or is requeued, unless it would then be raw and wanted by too few |
| `Pruning.RootsGoFirst` | observer/work.py:393-413 | the last cut drops a document only when no unkept unidentified root is left, and older roots before newer |
| `Pruning.ProtectedSurvives` | observer/work.py:342-433 | a reported dag-pb row and a kept row named `.pdf` are never dropped |
| `Pruning.SafeSurvives` | observer/work.py:342-433 | nor is any row that is not live, unless requeueing makes it lonely raw |
| `Pruning.PruneAddsNothing` | observer/work.py:342-467 | every survivor stood in the table, as it was or as a skip that came due |
| `Pruning.ReportedRowsKept` | observer/work.py:373-381 | for every queue size, some table loses a given reported row if and only if it is waiting in the HTML lane |
| `Pruning.ReportedGoesIff` | observer/work.py:361-382 | in a given table, a reported row waiting in the HTML lane goes if and only if fewer waiting HTML rows are ahead of it than the lane must lose |
| `Scheduler.BatchClaims` | observer/work.py:687-743 | a batch holds distinct rows that were discovered, no more than asked for, and changes no other row |
| `Scheduler.ProbesInBudget` | observer/work.py:663-686 | in every run from an idle table the probes in flight stay within `max_dir_probes` |
| `Scheduler.ReportsComeFirst` | observer/work.py:705-714 | an eligible report is always picked before either lane, and no less wanted one before it |
| `Entering.EligibleIff` | observer/work.py:533-547 | a row may be taken exactly when it waits, is wanted, old enough, seen lately or kept, and not tried too often |
| `Entering.DocumentIsReady` | observer/work.py:258-269 | a folder's document may be taken at once |
| `Entering.LaneOffersItsBest` | observer/work.py:663-686 | each lane offers its best row, documents before roots and roots only within their budget: by kind, then peers, then how lately it was seen |
| `Scheduler.ThirdBranchIsDead` | observer/work.py:721-727 | the third branch is never taken; with two loaded lanes nothing is picked if and only if both are at half |
| `Scheduler.PickBalances` | observer/work.py:715-742 | a pick with both lanes loaded leaves its lane within half and one step closer to balance |
| `Scheduler.IdleIff` | observer/work.py:704-733 | a turn takes nothing if and only if nothing waits or both loaded lanes count as full, extras included |
| `Scheduler.BatchTallies` | observer/work.py:715-742 | the extras are the batch's own lane picks, and all its picks are among the busy rows as well |
| `Scheduler.BatchStopsIff` | observer/work.py:702-733 | a batch under way stops at its next turn if and only if nothing waits, or both loaded lanes are at half with its own lane picks counted twice |
| `Scheduler.LoadedBatchSize` | observer/work.py:702-742 | while both lanes have work, a batch is as large as asked for or as the lanes' room at its start, each pick counted twice |
| `Scheduler.StockedIsLoaded` | observer/work.py:705-718 | without a waiting report and with a document and a page for every turn, both lanes have work throughout |
| `Scheduler.BatchStopsShortIff` | observer/work.py:704-743 | from such a table a batch has a known size, and leaves a worker free short of its limit if and only if the busy rows of the table say so |
| `Scheduler.FullBatchIdlesWorkers` | observer/work.py:687-743 | asked for as many rows as there are workers, an idle well-stocked node leaves workers idle if and only if it has three or more |
| `Scheduler.FourWorkersTakeTwo` | observer/work.py:687-743 | concretely, four workers with four rows of each kind get two |
| `Scheduler.ConservingIffEven` | observer/work.py:332-334 | a free worker with work waiting always gets a row if and only if the number of workers is even or at most one |
| `Scheduler.TakeRows` | observer/work.py:687-743 | the loop leaves the specified table and returns the specified picks |
| `Limit.FilterInPlace` | clubd/internal/limit/limit.go:68-78 | filtering into the slice's own array leaves the recent times, in order |
| `Limit.GrantKeepsBound` | clubd/internal/limit/limit.go:61-85 | a grant with fewer than the maximum recent keeps every window bounded |
| `Limit.RunIsBounded` | clubd/internal/limit/limit.go:61-85 | in every run no half-open window holds more than the maximum grants |
| `Limit.WindowCounts` | clubd/internal/limit/limit.go:61-85 | the grants in a window are the times in it, one by one |
| `Limit.Limiter.Allow` | clubd/internal/limit/limit.go:61-85 | a named publisher is refused if and only if the maximum really lies in the window, though only recent times are stored |
| `Limit.Limiter.Duplicate` | clubd/internal/limit/limit.go:35-59 | answers whether the hash is known, and leaves exactly the specified table |
| `Limit.KeptUnlessFlushed` | clubd/internal/limit/limit.go:45-57 | a known hash is forgotten if and only if a new one meets a full table in which it is old, or nothing is |
| `Limit.TabledIffNotFlushed` | clubd/internal/limit/limit.go:35-59 | over any run of other hashes it is still tabled if and only if no full table flushed it |
| `Limit.RoomMeansKept` | clubd/internal/limit/limit.go:35-59 | while the table has room for every arrival nothing is flushed |
| `Limit.FullTableForgets` | clubd/internal/limit/limit.go:52-54 | a table full of recent hashes is dropped whole by one more |
| `Limit.FullTableThins` | clubd/internal/limit/limit.go:45-52 | a full table with anything old in it loses exactly what is old |
| `Limit.RememberFits` | clubd/internal/limit/limit.go:45-57 | the table never outgrows its cap |
| `Leases.ClaimTracker.Allow` | clubd/claims.go:24-40 | grants if and only if the lease has not run out and its publisher holds no live lease on another CID, and then holds exactly it |
| `Leases.ClaimTracker.Clear` | clubd/claims.go:42-52 | frees the slot only for the CID it holds |
| `Leases.VerdictFreesPublisher` | clubd/claims.go:42-52 | a publisher that has classified or skipped its CID may claim any other at once |
| `Leases.DeliverInStep` | observer/store.py:618-636 | from sides in step no accepted claim is turned away, and step is lost if and only if a lease shrinks late |
| `Leases.InStepIffNoLateShrink` | observer/store.py:618-636 | over whole histories the catalog's live leases are clubd's if and only if no lease shrinks late |
| `Leases.NothingIsTurnedAway` | clubd/main.go:415-428 | in such a history the catalog refuses no claim clubd accepted |
| `Leases.LongerRefreshesAreSafe` | clubd/claims.go:24-40 | refreshes that never end earlier cannot shrink a lease |
| `Leases.ShrinkingLeaseIsTurnedAway` | observer/store.py:618-636 | a concrete history in which the catalog refuses what clubd accepted |
| `Daemon.Clubd.ApplyClaimPolicy` | clubd/main.go:415-428 | refuses exactly a named claim that is not grantable, and leaves exactly the specified leases |
| `Daemon.Clubd.AcceptGossip` | clubd/main.go:401-413 | each answer exactly, in the order duplicate, rate, claim, inbox; hashes, histories, leases and inbox exactly |
| `Daemon.Serve` | clubd/main.go:401-413 | statement by statement and as a step on values, the daemon does the same |
| `Daemon.LeasesAreDelivered` | clubd/main.go:401-428 | in every run the daemon's leases are those of the two-sided lease protocol on what passed the first two checks |
| `Daemon.AppendedClaimIsNotTurnedAway` | observer/store.py:625-636 | so without late shrinking the catalog turns away no claim the daemon appended |
| `Daemon.RefusedIsLost` | clubd/main.go:403-411 | a refused payload sent again after any other traffic is dropped if and only if no full table flushed its hash in between |
| `JsonText.GoBodyIs` | clubd/internal/canon/canon.go:67-76 | the three text replacements together restore HTML characters and damage exactly the literal escapes |
| `JsonText.ValuesAgree` | clubd/internal/canon/canon.go:67-76 | both programs write a string value alike if and only if it has no literal HTML escape and no line or paragraph separator |
| `JsonText.KeysAgree` | clubd/internal/canon/canon.go:88-92 | and a key if and only if it has no HTML character and no separator |
| `Canon.ValueEnds` | observer/protocol.py:31-34 | a printed value followed by a separator splits in one way only, whichever programs printed it |
| `CanonLaws.ReadGoValue` | clubd/internal/canon/canon.go:67-76 | one reader gives back every string the daemon writes, damaged escapes included |
| `CanonLaws.ReadPython` | observer/protocol.py:31-34 | and every string the observer writes (section 7 of RFC 8259), and the daemon's keys |
| `CanonLaws.NormMeans` | observer/protocol.py:37-42 | stripping and sorting keep the document's meaning: dictionaries without order and without `sig` |
| `CanonLaws.SameFormSameMeaning` | observer/protocol.py:31-42 | normal forms are equal if and only if the documents mean the same |
| `CanonLaws.TextIsMeaning` | observer/protocol.py:31-47 | each program's texts are equal if and only if the documents are, up to key order and signatures at every depth |
| `CanonLaws.ProgramsAgree` | clubd/internal/canon/canon.go:11-14 | the programs print a document alike if and only if every unsigned value and key in it is clean |
| `CanonLaws.AcrossPrograms` | clubd/internal/canon/canon.go:11-14 | a text of one equals a text of the other if and only if it is the same document and clean |
| `Text.LexLtIsPrecedes` | observer/protocol.py:31-34 | a key comes before another if and only if it is a proper prefix of it or has the smaller character where they first differ |
| `CanonVectors.KeysAscend` | observer/protocol.py:31-34 | what both programs print means the document and has its keys in ascending order, at every depth |
| `CanonVectors.PythonCharacter` | observer/protocol.py:31-34 | each character as the observer writes it |
| `CanonVectors.GoKeyCharacter` | clubd/internal/canon/canon.go:88-92 | and as the daemon writes it in a key: otherwise for five characters |
| `CanonVectors.GoValueCharacter` | clubd/internal/canon/canon.go:67-76 | and in a value: otherwise for two |
| `CanonVectors.CharacterByCharacter` | observer/protocol.py:31-34 | strings are written character by character before the replacements |
| `CanonVectors.LiteralEscapeIsDamaged` | clubd/internal/canon/canon.go:67-76 | the six characters of a literal escape come out as two from the daemon |
| `CanonVectors.ConstantTexts` | clubd/internal/canon/canon.go:45-55 | null, the two booleans and the empty containers as text |
| `CanonVectors.DocumentText` | observer/protocol.py:31-42 | one document with keys out of order, an array, a boolean, a null and signatures at two depths, as the text both programs sign |
| `CanonWriter.Write` | clubd/internal/canon/canon.go:45-114 | the buffer grows by the specified text, keys sorted before their values are written |
| `CanonWriter.Marshal` | clubd/internal/canon/canon.go:15-21 | the signed bytes are the specified text of the stripped document |

## Left out

- HTTP gateways, Kubo, libp2p, bootstrap, process supervision, the web routes and the admin pages: plumbing around the modelled core.
- SQLite, its locks and retries: every operation is one atomic step on sequences and maps; the full-text index is keyed by CID instead of row id.
- Signatures, the club name and the shape checks at the head of `acceptGossip`: a message that reaches the model has passed them.
- SHA-256 and Ed25519: a hash is a function (without collisions where verification needs it), and a payload stands for its own hash.
- Text extraction, licence and HTML recognition, the academic prior and the model: answers given from outside; sniffing keeps the PDF magic bytes and the filename rule.
- Alias collapsing, keyword splitting and topic normalisation are parameters; field normalisation is one in the catalog and modelled in `FieldNames`, with ASCII lower-casing.
- DagPb.ReadLink: link names stay raw bytes; their UTF-8 decoding with replacement characters is not modelled.
- `peek_hamt_pdfs`, `_spread` and the byte rate limiter of observer/fetch.py: no result of the assembly depends on them.
- Uppercase base32 outside ASCII, and other multibase prefixes than the ones observer/cidutil.py accepts.
- JSON numbers are integers; floats, non-canonical `json.Number` text, lone surrogates and invalid UTF-8 are not modelled.
- Skips and claims in the erasure theorem: replacing a skip and deleting another publisher's claim really do lose information.
- Equal receive times are ordered by insertion, as the index on the table orders them.
- Purging invalid CIDs exists on the value `Catalog.Db` only, not as a method of the class.
- Convergence between nodes: documents are first-seen, so catalogs that hear messages in different orders differ.
- Votes.AtMostTwoVotes: nodes decide and publish atomically on up-to-date catalogs; races between deciding and publishing are not modelled.
- Indexer.ProcessOne: the semaphore around claims and the release of a lease on failure are reduced to whether a lease was taken. The filename that prior and model also see is part of those oracles.
- Settling.SettleRow: a mark sets status and error; the type, size, name and times noted beside them are not modelled, nor is the short look into sharded folders.
- Admission.LiveRowsAreBounded: reviews, renames into the PDF lane and requeued skips are charged to the bound, because the code does not check the lanes for them.
- WorkRows.FirstIsFirst: rows that an ORDER BY does not tell apart are taken in table order.
- Configuration values that cannot occur in a working set-up, such as a negative `max_queue` or retry count, are excluded by their types.
- Schema migrations, snapshots, statistics and the janitor's file handling: no invariant of interest.

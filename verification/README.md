# Verified models of the source verifier, the proxy bridge and the identity evidence tools

Dafny models of the parts of the browser project that decide things, with proofs of what those
decisions mean. `dafny verify dfyconfig.toml` checks them all.

**The source-archive verifier** (`GitObjects`, `Trees`, `ArchiveScan`, `EolExport`, `Reconcile`,
`Verifier`, `PinnedContents`, `Directories`, `VerifierRun`, `RunVerdict`). It rebuilds Git's Merkle
tree from a stream of archive members, prunes by identifier, walks only what differs against
authenticated metadata, adds authenticated gitlinks and admits one reviewed line-ending export. The
hash is a parameter and is never assumed injective. A theorem that needs two objects to be equal says that
they are equal or that two different byte strings, from two named finite sets of strings the run
and the pinned tree themselves consist of, have the same digest. `PinnedContents` has the main
results: a verified archive holds the pinned contents, a faithful archive is verified, and the
verdict is exact. `Directories` and `VerifierRun` are the mutable directory objects, the metadata
memo and the run on them, proved to compute what the functions say; `RunVerdict` carries the main
results over to that run, whose memo is filled by path and asked by identifier.

**The MASQUE-to-SOCKS5 bridge** (`SocksCodec`, `Streams`, `SocksClient`, `Capsules`, `Teardown`).
Connections are unread and sent bytes with segmentation, short writes and failures chosen by the
transport. Formats follow sections 3 to 7 of RFC 1928, section 2 of RFC 1929, section 16 of
RFC 9000, sections 3.2 and 3.5 of RFC 9297 and sections 4 and 5 of RFC 9298. The teardown of a flow
is a state machine over the steps of its workers and its handler.

**The Structured Field reader** (`StructuredFields`, `FieldReader`, `ChromiumVersions`). The grammar
of the accepted subset of RFC 8941 is written as a printer with free layout; the cursor-based reader
accepts exactly what it prints.

**Evidence gates and canonical forms** (`Ledger`, `Inventory`, `IdentityGate`, `RuntimeVersions`,
`ProfileComparison`, `FlatPaths`, `Brands`, `WireFingerprint`, `JsonText`, `CaptureFixture`,
`WorkerCleanup`). Each loop-heavy decision procedure is proved against a declarative meaning. The
fixture that records wire receipts and the race over who gives back a worker, its channel and its
registration are state machines over every sequence of events.

`Bytes`, `Contexts`, `Decimals`, `Ordering` and `Results` hold what several of these share.

Where the code does not do what its comments or its shape suggest, a lemma says so with a concrete
case and another says exactly when it does:

- `Capsules.PathsCanDiffer`: the two payload paths differ on long spellings of context 0, exactly
  under the condition of `Capsules.PathsAgreeExactly`.
- `WireFingerprint.ProtoGoesUnnoticed`: an own `__proto__` member can escape the comparison, exactly
  as `WireFingerprint.DiffEmptyExactly` and `WireFingerprint.UnreportedExactly` say.
- `WireFingerprint.GreaseIncludesRfc8701`: the comment at src/tools/network-fingerprint-corpus.ts:98
  promises matching bytes, which the mask does not ask for; `WireFingerprint.Rfc8701Exactly` says
  what is missing.
- `WorkerCleanup.EarlyCleanupLeaks`: cleanup called from outside at an early moment does not release
  what the capture makes afterwards; `WorkerCleanup.AllReleasedExactly` says when all is released.

## Model

| member | source | states |
|---|---|---|
| Ordering.SortExactly | patches/chromium/verify-source-archive.py:80-81 | Lists without repeated keys sort to the same list exactly if they have the same members, so a sort by key depends on nothing else |
| GitObjects.ObjectBytesInjective | patches/chromium/verify-source-archive.py:73-75 | The bytes hashed for an object determine its kind and its payload |
| GitObjects.EncodeEntriesInjective | patches/chromium/verify-source-archive.py:82-84 | A tree payload can be read back in one way only |
| GitObjects.PayloadIgnoresOrder | patches/chromium/verify-source-archive.py:78-85 | The payload of a tree does not depend on the order in which its entries were inserted |
| GitObjects.PayloadDeterminesEntries | patches/chromium/verify-source-archive.py:78-85 | Equal payloads list equal entry maps |
| GitObjects.TreeIdOfListing | patches/chromium/verify-source-archive.py:78-85 | tree_id gives the identifier of the entry map, whatever order the dictionary yields |
| GitObjects.TreeIdInjective | patches/chromium/verify-source-archive.py:78-85 | Equal tree identifiers mean equal entry maps, or the two encodings are different strings with one digest |
| Trees.PutFailsExactly | patches/chromium/verify-source-archive.py:169-181 | Putting a member into the tree is refused exactly when a leaf lies on its way or something lies in its place |
| Trees.PutAt | patches/chromium/verify-source-archive.py:169-204 | After a member is put, its path holds it, its ancestors are directories, and every other path is as before |
| Trees.PutHash | patches/chromium/verify-source-archive.py:169-204 | Putting hashed stamps step by step gives the hash of the tree the contents would make, and is refused alike |
| Trees.MerkleInjective | patches/chromium/verify-source-archive.py:88-97 | Equal root identifiers mean equal trees at every depth, or two of the trees' own object encodings collide |
| ArchiveScan.ParsedNamesValid | patches/chromium/verify-source-archive.py:120-130 | Every component of an accepted path is a name Git can hold: not empty, no slash, no NUL, not a dot or two |
| ArchiveScan.ScanExact | patches/chromium/verify-source-archive.py:154-209 | The scan accepts exactly the well-formed member lists; the tree then holds the files and links at their paths, folders at the proper ancestors and directory members, and nothing else; the captures and the seen paths are exact too |
| ArchiveScan.PrefixDerived | patches/chromium/verify-source-archive.py:157-158 | Where no prefix is given, the one taken from the first member of a well-formed list is the prefix of all of them |
| ArchiveScan.ScanConfluent | patches/chromium/verify-source-archive.py:154-209 | Every permutation of the members is accepted or refused alike and gives the same tree, captures and seen paths |
| EolExport.UniformCrlfExact | patches/chromium/verify-source-archive.py:383-395 | The three byte tests pass exactly if the export is the CRLF spelling of a text without CR and with at least one LF; that text is unique, and the export is longer by the number of its newlines |
| Reconcile.CanonicalAuthentic | patches/chromium/verify-source-archive.py:246-264 | Metadata that is accepted lists valid entries, each name once, that hash to the identifier asked for |
| Reconcile.LastCheckNeverFails | patches/chromium/verify-source-archive.py:433 | Once every canonical entry of a directory is reconciled, the final comparison of identifiers cannot fail |
| Reconcile.VisitAddsOnlyGitlinks | patches/chromium/verify-source-archive.py:419-433 | The reconciled tree is the archive's tree with gitlinks added where it had nothing or an empty directory, and exactly those are reported |
| Reconcile.VisitKeepsValid | patches/chromium/verify-source-archive.py:402-436 | Reconciling keeps the tree valid |
| Reconcile.VisitSound | patches/chromium/verify-source-archive.py:402-436 | A reconciled tree equals the tree named by the identifier up to gitlinks, or named objects of the two collide |
| Reconcile.VisitComplete | patches/chromium/verify-source-archive.py:402-436 | With honest metadata every tree that is the canonical one minus gitlinks is reconciled, to the canonical tree, with its gitlinks |
| Reconcile.VisitExact | patches/chromium/verify-source-archive.py:402-436 | With honest metadata reconciling succeeds exactly for the canonical tree minus gitlinks, unless named objects collide |
| Reconcile.SourceDoesNotMatter | patches/chromium/verify-source-archive.py:326-333 | Two authenticated sources that both lead to a result lead to the same one, whatever their answers depend on, unless two listings for one identifier collide |
| Verifier.CommitTreeExact | patches/chromium/verify-source-archive.py:238-243 | The tree of a commit is read exactly when its first line is the word tree and forty lower-case hexadecimal digits, and is then what they spell |
| Verifier.CommitNamesOneTree | patches/chromium/verify-source-archive.py:317-324 | One commit identifier authenticates one root tree, or the commit objects collide |
| Verifier.ExportsOnlyReviewed | patches/chromium/verify-source-archive.py:366-399 | The exports change nothing but reviewed paths, each to the blob of its own LF text with the mode it had and under its own exact rule |
| Verifier.ReviewedExportsFit | patches/chromium/verify-source-archive.py:52-57 | The list of reviewed exports in use meets what the theorems ask of such a list |
| PinnedContents.VerifiedMeansPinned | patches/chromium/verify-source-archive.py:469-487 | A run that verifies means that at every path the archive holds what the pinned commit's contents hold, except gitlinks over nothing or an empty directory and reviewed CRLF exports; or named objects collide |
| PinnedContents.FaithfulArchiveVerifies | patches/chromium/verify-source-archive.py:469-487 | With an authentic commit and honest metadata every archive faithful to the pinned contents is verified |
| PinnedContents.VerdictExact | patches/chromium/verify-source-archive.py:469-487 | With honest metadata the run verifies exactly the well-formed archives faithful to the pinned contents under an authentic commit, unless named objects collide |
| Directories.VisitMonotone | patches/chromium/verify-source-archive.py:414-416 | Metadata that knows more changes nothing that was already decided |
| Directories.MemoTransparent | patches/chromium/verify-source-archive.py:326-333 | Reconciling at any path through the memo, however it was filled, gives what asking the source by path every time gives; it gives something where that gives nothing only if the source refuses at one path what it served at another; or two listings for one identifier collide |
| Directories.CachedExtends | patches/chromium/verify-source-archive.py:326-333 | Whatever the source serves at a path, the memo keyed by identifier answers too, and alike, unless two listings for one identifier collide |
| Directories.MemoHonest | patches/chromium/verify-source-archive.py:326-333 | A source that tells the truth about every directory at its own path still does through the memo, or two listings collide |
| Directories.Metadata.Tree | patches/chromium/verify-source-archive.py:326-333 | Answers from the memo or fetches and remembers; what is remembered only grows and is always authentic |
| Directories.Directory.ChildStamp | patches/chromium/verify-source-archive.py:92-94 | The mode and identifier of one child, those of a subdirectory being computed |
| Directories.Directory.Oid | patches/chromium/verify-source-archive.py:96-97 | Computes the Merkle identifier of the value the objects stand for, in whatever order the children come |
| Directories.Directory.PutLeaf | patches/chromium/verify-source-archive.py:199-204 | Replaces one child and nothing else |
| Directories.Directory.SetDefault | patches/chromium/verify-source-archive.py:171 | Creates a missing subdirectory and leaves an existing child alone |
| Directories.Directory.Insert | patches/chromium/verify-source-archive.py:169-204 | Puts a member below the directory exactly when the tree has room for it, and the objects then stand for the resulting tree |
| Directories.Directory.Reconcile | patches/chromium/verify-source-archive.py:409-433 | Computes the reconciled tree and its gitlinks in place, with the metadata it ends up remembering, and is refused only where no reconciliation exists |
| Directories.Directory.ReconcileAgainst | patches/chromium/verify-source-archive.py:414-416 | The same, once the identifiers are known to differ |
| Directories.Directory.ReconcileAll | patches/chromium/verify-source-archive.py:417-418 | The same, once the canonical entries are at hand: unexpected names are refused |
| Directories.Directory.ReconcileNamed | patches/chromium/verify-source-archive.py:419-433 | The loop over the canonical entries followed by the check that cannot fail |
| Directories.Directory.ReconcileLoop | patches/chromium/verify-source-archive.py:419-432 | The loop reconciles every canonical entry, keeping apart what each turn has done |
| Directories.Directory.ReconcileEntry | patches/chromium/verify-source-archive.py:420-432 | One canonical entry: a gitlink over nothing or an empty directory, a subdirectory, or an equal leaf |
| Directories.Directory.ReconcileBelow | patches/chromium/verify-source-archive.py:428-430 | Reconciles one subdirectory and leaves its siblings untouched |
| Directories.ScanInto | patches/chromium/verify-source-archive.py:154-209 | The member loop accepts exactly when the scan does, and its objects stand for the hashed tree of the scanned contents |
| Directories.ScanMember | patches/chromium/verify-source-archive.py:157-208 | One turn of that loop |
| VerifierRun.CanonicalEntryOf | patches/chromium/verify-source-archive.py:346-356 | Walks the canonical trees to one entry, authenticating and remembering each on the way |
| VerifierRun.ArchivedEntry | patches/chromium/verify-source-archive.py:358-364 | Finds the leaf at a path of the mutable tree, if there is one |
| VerifierRun.ReplaceEntry | patches/chromium/verify-source-archive.py:396 | Replaces the leaf at a path in place and nothing else |
| VerifierRun.AdmitExport | patches/chromium/verify-source-archive.py:374-396 | Admits one export and changes the tree exactly when every check on its mode, rule and bytes holds |
| VerifierRun.RuleHolds | patches/chromium/verify-source-archive.py:376-389 | Decides an export of the right mode: exactly whether its rule is the canonical one and its bytes are the CRLF spelling of the canonical blob |
| VerifierRun.AuthenticateExport | patches/chromium/verify-source-archive.py:366-396 | One turn of the loop over the reviewed exports |
| VerifierRun.AuthenticateExports | patches/chromium/verify-source-archive.py:336-399 | The loop leaves the tree that the reviewed exports make of it, and fails exactly where one of them is not admitted |
| VerifierRun.ExportAndReconcile | patches/chromium/verify-source-archive.py:477-483 | Exports and then reconciliation, on one mutable tree and one memo |
| VerifierRun.RunReaches | patches/chromium/verify-source-archive.py:482-483 | The last comparison of the run never refuses a tree that was reconciled |
| VerifierRun.Verify | patches/chromium/verify-source-archive.py:469-487 | The whole run on mutable objects, through the memo it fills on the way: where it ends verified it has the tree and the gitlinks of the run on values that asks the memo it leaves, and where it does not, no run that asks that memo and then the source verifies |
| RunVerdict.MemoCostsNothing | patches/chromium/verify-source-archive.py:326-333 | Where a run that fetches by path every time ends verified, the run with its memo does too, with the same tree and gitlinks, or two listings for one identifier collide |
| RunVerdict.VerifiedIsPinned | patches/chromium/verify-source-archive.py:469-487 | Whatever is served at each path, a mutable run that ends verified had an archive faithful to the pinned contents at every path and reports exactly their submodules, or named objects collide |
| RunVerdict.OutcomeExact | patches/chromium/verify-source-archive.py:469-487 | Where the source tells the truth about each directory at its own path, the mutable run ends verified exactly if the commit record is authentic, the members are well formed and the archive is faithful at every path; or named objects or two listings collide |
| SocksCodec.ParseWire | native/agent-browser-masque-bridge/socks5.go:272-314 | A frame laid out as section 7 of RFC 1928 says, with a port above 0, is parsed to its address, port and payload |
| SocksCodec.ParsedIsWire | native/agent-browser-masque-bridge/socks5.go:272-314 | Only such frames are parsed, so every index used lies inside the frame |
| SocksCodec.EncodedIsWire | native/agent-browser-masque-bridge/socks5.go:215-229 | An encoded address is laid out as section 5 of RFC 1928 says, and spells the normalised host |
| SocksCodec.ParseAfterEncode | native/agent-browser-masque-bridge/socks5.go:260-314 | Parsing an encoded frame gives back the endpoint with its host normalised, and the payload |
| SocksCodec.EncodeAfterParse | native/agent-browser-masque-bridge/socks5.go:260-314 | Encoding what was parsed gives the frame back exactly if its address was canonical |
| SocksCodec.NormalIdempotent | native/agent-browser-masque-bridge/socks5.go:215-221 | Normalising a host again changes nothing |
| Streams.Connection.WriteFull | native/agent-browser-masque-bridge/socks5.go:320-332 | Under every schedule of short writes and errors either all of the value is sent, in order, or a prefix of it and an error is reported |
| Streams.Connection.ReadFull | native/agent-browser-masque-bridge/socks5.go:147-151 | Under every segmentation either exactly the wanted bytes are read, or the transport ended or failed |
| SocksClient.Open | native/agent-browser-masque-bridge/socks5.go:128-179 | Sends exactly the greeting and, with a user name, the request of section 2 of RFC 1929, and accepts exactly the replies that grant the method |
| SocksClient.ReadAddress | native/agent-browser-masque-bridge/socks5.go:231-258 | Reads one address and leaves what follows it unread |
| SocksClient.SendCommand | native/agent-browser-masque-bridge/socks5.go:181-213 | Sends exactly the request, returns the endpoint of the reply and leaves precisely what follows the reply unread |
| SocksClient.Dial | native/agent-browser-masque-bridge/socks5.go:52-70 | After a successful dial the bytes sent are the opening and the request, and the tunnel starts at the byte after the reply |
| SocksClient.ReplyUnderstood | native/agent-browser-masque-bridge/socks5.go:194-212 | Every well-formed reply followed by any tail is read as its endpoint, with the tail left over |
| SocksClient.OnlyRepliesUnderstood | native/agent-browser-masque-bridge/socks5.go:194-212 | Only well-formed successful replies are understood |
| SocksClient.AuthReadBack | native/agent-browser-masque-bridge/socks5.go:157-164 | The other side reads back the user name and password exactly if neither is longer than 255 bytes |
| Capsules.PathsAgreeExactly | native/agent-browser-masque-bridge/server.go:287-304 | The capsule path and the datagram path treat a datagram differently exactly if it spells context 0 in L bytes and is longer than 1501 bytes but by no more than L longer than 1500; so they agree wherever the spelling is one byte |
| Capsules.PathsCanDiffer | native/agent-browser-masque-bridge/server.go:291-304 | A longer spelling of context 0 with a full-size payload is forwarded by one path and dropped by the other |
| Capsules.VarintRoundTrip | native/agent-browser-masque-bridge/server.go:275-277 | A variable-length integer of section 16 of RFC 9000 is read back, with what follows it left over |
| Capsules.CapsuleRoundTrip | native/agent-browser-masque-bridge/server.go:258-260 | A written DATAGRAM capsule is decoded to its value, with what follows it left over |
| Capsules.ReadVarint | native/agent-browser-masque-bridge/server.go:275-277 | Reads one integer from the stream under every segmentation |
| Capsules.NextCapsule | native/agent-browser-masque-bridge/server.go:277-296 | Consumes exactly one capsule whatever its type or length, so the reader is on a capsule boundary again |
| Capsules.Relay | native/agent-browser-masque-bridge/server.go:188-201 | Sends the one frame of a payload, or stops |
| Capsules.ConsumeCapsules | native/agent-browser-masque-bridge/server.go:268-310 | The frames sent are those of the forwarded capsules of a prefix of the decoded stream, in order; the loop stops only at the end of the stream, at a payload it cannot relay, or at the first datagram it has read once the context is cancelled |
| Capsules.RelayDatagrams | native/agent-browser-masque-bridge/server.go:156-186 | The frames sent are those of the datagrams with context 0 and at most 1500 bytes, in order |
| Capsules.AnswerRecovered | native/agent-browser-masque-bridge/server.go:233-235 | A client that reads an answer by either delivery finds context 0 and the payload of the packet |
| Capsules.SendPayload | native/agent-browser-masque-bridge/server.go:252-266 | A payload is delivered once, as a datagram or, when that is too large, as a capsule |
| Capsules.RelayAnswers | native/agent-browser-masque-bridge/server.go:203-245 | What is delivered are the answers to the packets from the relay with an acceptable target and payload, in order, up to a failed write or the first packet received after the context was cancelled, which is dropped |
| Teardown.RunKeepsInv | native/agent-browser-masque-bridge/server.go:128-150 | In every interleaving each worker sends at most once, the channel holds at most its capacity and no result is lost or received twice |
| Teardown.SendNeverBlocks | native/agent-browser-masque-bridge/server.go:130-140 | A worker that has stopped can always send, whatever the others do |
| Teardown.ReturnedMeansAllDone | native/agent-browser-masque-bridge/server.go:142-150 | The handler returns only after it has received one result from each worker and every worker has exited |
| Teardown.StepLowersRank | native/agent-browser-masque-bridge/server.go:128-150 | Every step lowers a rank |
| Teardown.SureStepExists | native/agent-browser-masque-bridge/server.go:142-150 | Once any worker has stopped, a step that needs no peer is possible until the handler has returned |
| Teardown.EveryRunTearsDown | native/agent-browser-masque-bridge/server.go:128-150 | Every run is finite, has a step that needs no peer as long as some worker has stopped and the handler has not returned, and has one result from every worker when it has |
| Teardown.BothFlowsTearDown | native/agent-browser-masque-bridge/server.go:69-150 | A CONNECT-UDP flow with its four workers and four release actions is torn down so within eighteen steps, and a TCP tunnel with its two workers and three actions within eleven |
| StructuredFields.ListLanguage | src/tools/client-hints.ts:45-71 | The texts accepted as lists are exactly those the grammar prints for 1 to 32 members with free blanks, within 16384 characters, and each is read as what was printed |
| StructuredFields.StringLanguage | src/tools/client-hints.ts:73-79 | The texts accepted as strings are exactly the printed printable-ASCII strings with blanks around them |
| StructuredFields.ListRead | src/tools/client-hints.ts:57-71 | Reading a printed list gives its members back |
| StructuredFields.StringPrinted | src/tools/client-hints.ts:27-44 | Every string that is read is the print of its value |
| FieldReader.StructuredFieldReader.Whitespace | src/tools/client-hints.ts:21 | Moves the cursor over blanks only |
| FieldReader.StructuredFieldReader.String | src/tools/client-hints.ts:27-44 | Reads one string, moving the cursor past exactly its spelling |
| FieldReader.StructuredFieldReader.BrandMember | src/tools/client-hints.ts:45-55 | Reads one brand with exactly one version parameter |
| FieldReader.StructuredFieldReader.List | src/tools/client-hints.ts:57-71 | The loop reads the list the reader function reads; the cursor strictly advances with every member |
| FieldReader.ParseHintList | src/tools/client-hints.ts:85-92 | The parser objects accept exactly the lists of the grammar |
| FieldReader.ParseHintString | src/tools/client-hints.ts:73-79 | The parser objects accept exactly the strings of the grammar |
| ChromiumVersions.FullVersionExactly | src/tools/client-hints.ts:94-101 | The versions accepted are exactly the canonical prints of four numbers up to 0xffffffff with a first one above 0, each read as those numbers |
| Ledger.Aggregate | src/tools/fingerprint-acceptance.ts:459-487 | The aggregation is refused exactly where binding, known IDs or distinct IDs fail; otherwise it yields one row per declared probe in manifest order, and totals and verdict that count those rows |
| Ledger.CountRows | src/tools/fingerprint-acceptance.ts:475-483 | The totals are the counts of the rows by kind and status |
| Ledger.CountSplit | src/tools/fingerprint-acceptance.ts:475-477 | The five status totals sum to the number of rows |
| Ledger.StatusFitsSupport | src/tools/fingerprint-acceptance.ts:408-451 | A row keeps its probe's ID and declaration; a supported probe never becomes UNSUPPORTED and an unsupported one is UNSUPPORTED or FAIL |
| Ledger.EligibleExactly | src/tools/fingerprint-acceptance.ts:484-485 | Eligible means exactly that every supported row is PASS and every unsupported row UNSUPPORTED |
| Ledger.EvidenceSound | src/tools/fingerprint-acceptance.ts:358-376 | Accepted evidence is for this probe, bound to this run on every key, and has distinct IDs |
| Ledger.ReferencesSound | src/tools/fingerprint-acceptance.ts:377-387 | Accepted references each cite a piece of evidence of the wanted place and kind |
| Ledger.ChecksSound | src/tools/fingerprint-acceptance.ts:388-401 | Every accepted check is in a declared context and cites evidence of that context and of the probe's kind |
| Ledger.PassMeansEvidence | src/tools/fingerprint-acceptance.ts:408-451 | A PASS row covers every declared context with a check, all its checks passed, and each cites evidence of the same kind and context bound to this run on every key |
| Ledger.OrderDoesNotMatter | src/tools/fingerprint-acceptance.ts:466-474 | The rows are the same whatever the order of the submissions, and follow the manifest |
| Ledger.StatusFixpoint | src/tools/fingerprint-acceptance.ts:408-451 | Normalising a row that is handed in again keeps its status |
| Ledger.ReaggregationIsStable | src/tools/fingerprint-acceptance.ts:459-487 | Aggregating the ledger's own rows reproduces every status, every total and the verdict |
| Inventory.CanonicalManifest | src/tools/fingerprint-acceptance.ts:297-316 | Accepts exactly the declared manifest of a supported lane, declaration by declaration |
| Inventory.OneManifestPerLane | src/tools/fingerprint-acceptance.ts:297-316 | Of a lane only one manifest is accepted, so no declaration can be dropped, added, moved or changed |
| Inventory.ManifestWellDeclared | src/tools/fingerprint-acceptance.ts:276-292 | The manifest declared for every lane meets what the ledger's theorems ask, Firefox's replaced declaration included |
| Inventory.AggregateSubmitted | src/tools/fingerprint-acceptance.ts:459-487 | Whatever manifest, binding and results are handed in, a summary has one row for each declared probe of the lane in their order, and is eligible exactly if every supported one passed and every unsupported one is recorded as that |
| CaptureFixture.RunKeepsInv | src/tools/host-identity-capture.ts:264-352 | After every sequence of requests, captures, releases and server errors at most one run is active, every run's receipts are numbered from 0 and unique by context and phase, recorded bytes stay within 262144, and only the active run holds receipts |
| CaptureFixture.TwelveAtMost | src/tools/host-identity-capture.ts:306-314 | A run holds at most twelve receipts, and with twelve it holds one for each context and phase |
| CaptureFixture.AnsweredMeansRecorded | src/tools/host-identity-capture.ts:289-326 | An answer of 200 to opt-in or echo has just been recorded under the next number, and no other answer of 200 records anything |
| CaptureFixture.AnswerMeaning | src/tools/host-identity-capture.ts:286-326 | Answers of 200 and 404 leave every failure as it was; any other answer leaves a failure with the active run, or for good if none is active |
| CaptureFixture.FailureIsFirst | src/tools/host-identity-capture.ts:266 | The failure of a run is the first reason given while it was active, and the fatal one the first given while none was |
| CaptureFixture.PoisonIsPermanent | src/tools/host-identity-capture.ts:266 | A capture that is unhealthy stays so whatever happens |
| CaptureFixture.FailurePoisons | src/tools/host-identity-capture.ts:266 | A request answered neither 200 nor 404, or an error of a server, makes the active run, or every run if none is active, unhealthy at once and after whatever follows |
| CaptureFixture.UnhealthyExactly | src/tools/host-identity-capture.ts:349 | assertHealthy throws exactly if some event failed while the run, or no run, was active |
| CaptureFixture.ReceiptsGrow | src/tools/host-identity-capture.ts:306-314 | Without a release of it a run's receipts are only added to, and those of an inactive run never change |
| CaptureFixture.Run.Answer | src/tools/host-identity-capture.ts:290-326 | The handler inside a run, updating its count, bytes and receipts |
| CaptureFixture.Fixture.constructor | src/tools/host-identity-capture.ts:265 | A fixture starts with no run, no failure and no capture |
| CaptureFixture.Fixture.RecordFailure | src/tools/host-identity-capture.ts:266 | Keeps the first reason, on the active run or, without one, on the fixture |
| CaptureFixture.Fixture.HandleRequest | src/tools/host-identity-capture.ts:284-327 | Answers a request and changes the fixture as the state machine says |
| CaptureFixture.Fixture.BeginCapture | src/tools/host-identity-capture.ts:344-348 | Starts a run unless the fixture is closing, busy, failed or past 32 captures |
| CaptureFixture.Fixture.AssertHealthy | src/tools/host-identity-capture.ts:349 | Tells whether the run is healthy |
| CaptureFixture.Fixture.ReleaseRun | src/tools/host-identity-capture.ts:350 | Frees the fixture if the run is the active one, and empties its receipts either way |
| WorkerCleanup.ExactlyOneUnregister | src/tools/host-identity-capture.ts:179-217 | In every interleaving of registration, deadline, expiries and repeated cleanup a registration granted with the owned scope gets exactly one unregister call once cleanup was called, none before, and one of another scope gets none |
| WorkerCleanup.CleanupTellsTheTruth | src/tools/host-identity-capture.ts:183-206 | When cleanup succeeds, nothing was registered or the owned registration was reported removed, and no release it attempted threw |
| WorkerCleanup.ReleasedOnce | src/tools/host-identity-capture.ts:185-195 | In every interleaving cleanup attempts once, and only once, to release each worker, port and listener the capture held when cleanup was first called, and nothing it acquires later |
| WorkerCleanup.AllReleasedExactly | src/tools/host-identity-capture.ts:206-246 | When a capture has left its try block, all it acquired has been released exactly if it never went on to make its listener or its channel after cleanup had been called |
| WorkerCleanup.LeftAloneReleasesAll | src/tools/host-identity-capture.ts:206-246 | Unless somebody else calls cleanup while the capture is in its try block, everything is released |
| WorkerCleanup.EarlyCleanupLeaks | src/tools/host-identity-capture.ts:183-224 | Cleanup called while the registration is pending can report success and the capture still make a listener and a channel that stay |
| WorkerCleanup.StepLowersRank | src/tools/host-identity-capture.ts:183-246 | Every event brings the end nearer, except a repeated call of cleanup, which changes nothing |
| WorkerCleanup.CaptureReturns | src/tools/host-identity-capture.ts:244-248 | A capture that has started can always go on by its own clocks, and has returned within eleven events |
| WorkerCleanup.WorkerCapture.UnregisterOwned | src/tools/host-identity-capture.ts:179-182 | Calls unregister on a registration of the owned scope and on no other |
| WorkerCleanup.WorkerCapture.CleanUp | src/tools/host-identity-capture.ts:183-203 | Attempts every release and the unregistration once, and gives the promise already made when called again |
| WorkerCleanup.WorkerCapture.ReleaseHeld | src/tools/host-identity-capture.ts:187-195 | Attempts to release what is held in a fixed order, going on past a release that throws and noting that one did |
| WorkerCleanup.WorkerCapture.OnGranted | src/tools/host-identity-capture.ts:211-215 | Records the registration and, after a cancellation, unregisters it |
| WorkerCleanup.WorkerCapture.OnActivated | src/tools/host-identity-capture.ts:224 | Makes the channel once the service worker is active, cancelled or not |
| WorkerCleanup.WorkerCapture.LeaveTry | src/tools/host-identity-capture.ts:243-246 | Leaving the try block cleans up |
| JsonText.StringifyInjective | src/tools/network-fingerprint-corpus.ts:234 | Equal JSON texts mean equal values with members and items in the same order, as far as the numbers in them are written unambiguously |
| JsonText.TextsTellApart | src/tools/network-fingerprint-corpus.ts:234 | With every finite double written unambiguously, any two values have equal texts exactly if they are equal |
| WireFingerprint.GreaseIncludesRfc8701 | src/tools/network-fingerprint-corpus.ts:98-101 | The mask catches every GREASE value of section 2 of RFC 8701, and 0x0a1a, which is not one, too |
| WireFingerprint.Rfc8701Exactly | src/tools/network-fingerprint-corpus.ts:98-101 | A sixteen-bit value is one of section 2 of RFC 8701 exactly if the mask catches it and its two bytes are the same |
| WireFingerprint.SortSorts | src/tools/network-fingerprint-corpus.ts:107-114 | Sorting gives an ascending list of the same values |
| WireFingerprint.OneSortedOrder | src/tools/network-fingerprint-corpus.ts:107-114 | There is only one such list, so any correct sort gives it |
| WireFingerprint.ExtensionsExactly | src/tools/network-fingerprint-corpus.ts:123 | Two extension lists have one canonical form exactly if they are the same multiset once GREASE is masked |
| WireFingerprint.PermutedExtensions | src/tools/network-fingerprint-corpus.ts:121-123 | Permuting the extensions and choosing other GREASE code points leaves the canonical form alone |
| WireFingerprint.ClientHellosExactly | src/tools/network-fingerprint-corpus.ts:116-139 | Two ClientHellos have one canonical form exactly if they differ at most in GREASE code points and in the order of their extensions |
| WireFingerprint.DiffEmptyExactly | src/tools/network-fingerprint-corpus.ts:229-250 | No difference is reported exactly if the values are equal up to the order of object members outside arrays, save that of two objects met at one place one may lack a __proto__ that the other owns as an empty object or one whose only member is a null __proto__ |
| WireFingerprint.SameExactly | src/tools/network-fingerprint-corpus.ts:229-250 | Equality up to the order of members is that relation between values of which, wherever two objects are met, both or neither own a __proto__ |
| WireFingerprint.UnreportedExactly | src/tools/network-fingerprint-corpus.ts:229-250 | An empty difference means equality up to the order of members exactly for the values that are not alike with such a gap |
| WireFingerprint.UnseenExactly | src/tools/network-fingerprint-corpus.ts:244-249 | Read against Object.prototype, a value is not reported exactly if it is an empty object or one whose only member is a null __proto__ |
| WireFingerprint.ProtoGoesUnnoticed | src/tools/network-fingerprint-corpus.ts:244-249 | An own member called __proto__ that is an empty object goes unnoticed where the other value has none |
| WireFingerprint.DiffSymmetric | src/tools/network-fingerprint-corpus.ts:229-250 | Comparing the other way round reports the same paths |
| FlatPaths.JoinInjective | src/tools/profile-identity-comparison.ts:245 | A dotted path has one reading as keys without dots |
| FlatPaths.FlattenGet | src/tools/profile-identity-comparison.ts:244-247 | The flat record sends exactly the paths that end in a value to that value |
| FlatPaths.FlattenExactly | src/tools/profile-identity-comparison.ts:244-247 | Two records without dots in their keys flatten alike exactly if they are equal up to the order of members |
| Brands.RealBrandsExactly | src/tools/profile-identity-comparison.ts:95-105 | Lists that name no brand twice come to the same exactly if they hold the same real brands and versions: order and GREASE members do not matter, nothing else is lost |
| ProfileComparison.HeaderMap | src/tools/profile-identity-comparison.ts:131-150 | The headers are accepted exactly if both forms are well formed and list the same headers, and are then those headers |
| ProfileComparison.RawMap | src/tools/profile-identity-comparison.ts:139-147 | The raw list is a map exactly if its pairs are well formed and no name repeats once lowered |
| ProfileComparison.RawOrderIrrelevant | src/tools/profile-identity-comparison.ts:139-149 | Neither the order nor the casing of raw headers decides whether they are accepted |
| ProfileComparison.Compare | src/tools/profile-identity-comparison.ts:254-285 | With issues there is no verdict; otherwise the differences are exactly the paths with different values, in order, and the profile is reverified exactly if there are none |
| ProfileComparison.ReverifiedExactly | src/tools/profile-identity-comparison.ts:275-284 | No difference is found exactly if the projected fields are equal |
| ProfileComparison.SamplesReverified | src/tools/profile-identity-comparison.ts:254-285 | A profile is reverified exactly if both samples project, with equal facts and path and distinct runs, and agree in every context |
| ProfileComparison.SwappedDifferences | src/tools/profile-identity-comparison.ts:278-283 | Comparing the other way round finds the same paths with before and after exchanged |
| ProfileComparison.IssuesSymmetric | src/tools/profile-identity-comparison.ts:266-274 | Which sample came first has no part in whether the comparison can be made, nor in the issues between usable samples |
| ProfileComparison.ComparisonSwapped | src/tools/profile-identity-comparison.ts:254-285 | The comparison the other way round has the same verdict and the same paths with before and after exchanged, and between usable samples the same issues |
| ProfileComparison.ProjectShaped | src/tools/profile-identity-comparison.ts:206-242 | Every projection has keys without dots and values that are already in order |
| ProfileComparison.ProjectionsExactly | src/tools/profile-identity-comparison.ts:170-243 | Two samples project to the same fields exactly if in every context they agree in every navigator value, identity header and policy value, brands counted as sets of real ones and lists as sets: brand order, GREASE, and the order and casing of raw headers do not matter, and nothing else is lost |
| ProfileComparison.NavigatorsExactly | src/tools/profile-identity-comparison.ts:106-130 | Two navigators project alike exactly if they agree in every value, brands as sets of real ones and form factors as a set |
| ProfileComparison.HeadersExactly | src/tools/profile-identity-comparison.ts:151-160 | Two wires project alike exactly if they agree in every identity header, brand lists as sets of real ones |
| ProfileComparison.PoliciesExactly | src/tools/profile-identity-comparison.ts:230-239 | Two policies project alike exactly if they agree in every value, hint lists as sets of lowered names |
| IdentityGate.VerdictExactly | src/tools/host-identity-validation.ts:431-434 | The verdict is PASS exactly if every required assertion passed |
| IdentityGate.NegotiateAll | src/tools/host-identity-validation.ts:267-298 | The first loop asserts each context's negotiation and records which contexts are ready or blocked |
| IdentityGate.CaptureAll | src/tools/host-identity-validation.ts:299-345 | The second loop asserts each navigator and records an identity for every context that could be gone on with |
| IdentityGate.CrossAll | src/tools/host-identity-validation.ts:346-347 | The third loop asserts every recorded identity against the window's |
| IdentityGate.RequestAll | src/tools/host-identity-validation.ts:361-417 | The last loop asserts each context's request and headers |
| IdentityGate.ValidateIdentity | src/tools/host-identity-validation.ts:171-436 | All assertions in order, and the verdict over them |
| IdentityGate.NavigatorExactly | src/tools/host-identity-validation.ts:299-333 | A navigator's assertions all pass exactly if it was captured with a complete and well-typed identity |
| IdentityGate.RequestExactly | src/tools/host-identity-validation.ts:361-396 | A request's assertions all pass exactly if it was captured, succeeded at the negotiated origin and its headers are fine |
| IdentityGate.PassMeansEstablished | src/tools/host-identity-validation.ts:361-434 | A PASS means that in every context each hint required or sent spells that context's navigator value, which is the window's; or that it is a worker with every hint null, where policy allows it and a passing control of the same run, host and program omitted them too under an equal negotiation |
| IdentityGate.PassExactly | src/tools/host-identity-validation.ts:171-436 | The gate passes exactly if the bindings agree, the control if any passed and is bound to the run, every context is so established and nothing else failed |
| IdentityGate.GateSound | src/tools/host-identity-validation.ts:160-166 | Through the whole gate no window or frame passes by omission, and where a worker does, the control of the same run, host and program negotiated the same there, omitted the hints too and has itself been established in every context |
| RuntimeVersions.VersionsExactly | src/tools/host-identity-validation.ts:212-228 | With every context established, the assertions on versions, user agents and brand versions all pass exactly if product, version element and executable name one version, the window's user agent is the runtime's and fits it, and the window's brands carry it |
| RuntimeVersions.PassWithVersions | src/tools/host-identity-validation.ts:171-436 | The gate with these assertions passes exactly if the bindings agree, the control passed, every context is established, there is one such version and nothing else failed |
| RuntimeVersions.OneVersionOnTheWire | src/tools/host-identity-validation.ts:361-434 | In a run that passes, the request of every context carries the runtime's user agent and brand lists with the executable's major and whole version for every brand and no other, or is a worker's with every hint left out |

## Left out

- Real hashing, decompression, tar parsing, file identity checks, HTTPS fetching, retries and evidence files of the source verifier: the run starts from members, a commit record and a function that supplies documents.
- Names in the source verifier are byte strings; that encoding a Python string with surrogate escapes is one-to-one on the names met is not part of the model.
- The counters of the scan report, the progress events and the report itself.
- Directories.Directory.Insert: recurses along the path where the original walks down in a loop; the effect on the objects is the same.
- Directories.Metadata.Tree: the second memo inside the reconciliation is folded into this one, since both are keyed by the same identifier.
- VerifierRun.Verify: the report fields and the events between the stages are not modelled.
- The text form of IP addresses: parsing and printing are a parameter of which only that they are inverse on addresses is asked, which SocksCodec.LawfulTextsExist shows can be had.
- QUIC, HTTP/3, TLS, certificates, DNS, deadlines, contexts and logging of the bridge, and the resolution of an unspecified relay address.
- Streams.Connection.Read: a read that returns neither bytes nor an error does not occur, as the contract of io.Reader discourages it.
- SocksCodec.ParseWire: takes ports from 1, which is what the parser accepts.
- Teardown.EveryRunTearsDown: workers are steps that stop, send and are received; what they relay is modelled apart, and a worker blocked in a write is taken to be released like one blocked in a read.
- Inventory.ManifestWellDeclared: the probe lists are not spelled out; that they are as ProbesOk says is asked of them.
- Ledger.Aggregate: starts from a manifest already found canonical; Inventory.AggregateSubmitted starts from any.
- Ledger.StatusFixpoint: says nothing of reasons, since a second pass can rewrite the reason of an unsupported row that failed.
- Values with cycles in recorded observations, which the original refuses with its set of ancestors.
- CaptureFixture.Fixture.HandleRequest: URL parsing, sizes of serialised values and the reading of a content length are parameters; responses are reduced to their status.
- Starting and closing the fixture's servers, and the failure at src/tools/host-identity-capture.ts:332, which is recorded only while a fixture that was never handed out is closing.
- WorkerCleanup.CleanupTellsTheTruth: the message handlers that are reset together with the release of a worker or a port are part of that release.
- Browser-side capture in src/tools/host-identity-capture.ts, and the corpora for fonts, graphics and canvas.
- JsonText.StringifyInjective: lone surrogates and numbers that are not finite are not among its values, and 0 and -0 are one number; how a number is written is a parameter, of which it is asked that no two finite doubles are written alike, and JsonText.LawfulNumeralsExist shows that this can be had.
- WireFingerprint.DiffEmptyExactly: of what objects inherit, __proto__ is Object.prototype and everything else a function, which has no JSON text.
- canonicalizeTlsAndHttp2 and canonicalizeHttp3, which select fields, and the fingerprint hash.
- ProfileComparison.SamplesReverified: the checks of project on bindings, versions, receipts, URLs and fixture topology are one flag of a sample, and the navigator and headers kept twice in a capture are read once.
- IdentityGate.ValidateIdentity: the assertions on the supported host and mode, host fields, high-entropy brands and full version, managed configuration, native CPU, legacy aliases and the legacy core are a parameter; they can only make the verdict stricter.
- RuntimeVersions.PassWithVersions: appends the version group where the original asserts it in between, which changes the order of the assertions and not the verdict.
- IdentityGate.CrossAll: compares leaf values by equality, where the original compares canonical JSON; the two differ only on values that the type assertions refuse anyway.
- parseChromiumUserAgentVersion and the host patterns for user agents, which are regular expressions: RuntimeVersions takes them as parameters.
- The desktop application, its services, the native installers and the Python SDK.

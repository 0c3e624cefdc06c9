# Microvisor platform: verified models

Dafny models of the parts of the platform whose correctness is not visible from one
function: layer ingestion and storage, garbage collection, the incremental build, the
packet NAT, and VM provisioning. `dafny verify dfyconfig.toml` checks everything.

| files | component |
|---|---|
| `StreamAdapter`, `IngestProtocol` | chunk channels read as byte streams; the upload protocol of one forwarding task and two readers, as interleaved steps |
| `OnesComplement`, `PacketNat`, `PacketNatLaws` | the tc classifiers editing a packet buffer in place, judged against full checksum recomputation |
| `Hex`, `LayerStore`, `LayerStoreLaws`, `LayerStoreObject` | the content-addressed store, its invariants over whole runs, mark-and-sweep collection |
| `MetaKeys`, `FileBackend`, `StoreKeys` | the file-backed metadata map refining the in-memory one, and crash behaviour |
| `InputHasher`, `InputHasherLaws` | cache keys, and exactly what of a stage they depend on |
| `DockerfileParser`, `DockerfileParserLaws`, `ParserTextLaws` | the parser, what a file means told from its lines, and what each text function computes |
| `BuildOrchestrator` | the stage loop against a build from scratch |
| `BuildHistory`, `BuildTransparency`, `SampleDockerfile` | the build's store explained by a log of publishes; when caching cannot be noticed; concrete Dockerfiles |
| `IpAllocator`, `Provisioning` | the compare-and-swap address allocator, and launches that interleave, fail and roll back |

How the outside world enters:

- SHA-256 is a parameter. The layer store uses an arbitrary function; the build system
  needs one without collisions and with NUL-free, non-empty results (`Ideal`; `IdealExists`
  exhibits one). A manifest digest is assumed not to collide with a different stored manifest.
- JSON documents are values, so reading back what was written is a round trip.
- A backend call that fails is a fault parameter or a step of its own. Clocks, UUIDs and
  temporary names are parameters.
- The kernel checksum helpers follow equation 3 in section 3 of RFC 1624, in network byte
  order; `ByteOrderIndependent` shows that a little-endian machine stores the same bytes.
- The engine and packer together are one deterministic function of a stage's text, as
  written, and its parent's output.

Results that are not what the comments or specifications suggest:

- A read with no room in the caller's buffer drops queued chunks
  (`PollConservesBytes` gives the exact condition).
- Rewriting an ICMP error updates the outer ICMP checksum once too often: it stays valid
  only if the two addresses have equal word sums modulo 0xFFFF
  (`IcmpChecksumKeptExactlyWhen`), against control-plane/microvisor-ebpf/src/main.rs:187-189.
- Collecting a superseded layer removes the index entry of the live layer that replaced
  it. fs-storage/specs/004-integrity-and-gc.md speaks of orphaned entries only; the model
  follows the code (`IndexSurvivesExactlyWhen`, `LiveIndexEntryEvicted`).
- Tag names may end in ".json", and the file backend then lists them under another name
  (`ListRefinesExactlyWhen`, `JsonTagIsMislisted`).
- After a cache hit the manifest carries the input hash that published the output last. It
  is the stage's own if and only if that key was not published before or was the last to
  publish the output (`BuildOnHistory`, `CachedInputHashCanDiffer`).
- Normalization cuts '#' and white space inside quotes too. Over the Dockerfiles the parser
  accepts, no stage of any build ever shows an earlier build if and only if the engine makes
  the same of any two ancestries of accepted stages with the same normal form
  (`AcceptedTransparentExactlyWhen`). For released layers alone this condition is
  sufficient, it is necessary between released ancestries, and it is exact for a class of
  files that releases every ancestry somewhere (`TransparentExactlyWhen`). Two accepted
  Dockerfiles that differ in a quoted space show it fail (`QuotedSpacesShow`).
- A label line is recognized in any case, but its key is found only behind an upper-case
  LABEL; any other spelling silently sets nothing (`OtherCaseLabelIsLost`).
- A publish that fails between its deploy blob and its record strands the layer: every
  retry reports success and the layer never resolves (`FailedPublishNeverHeals`;
  `PublishedIsPulled` has the exact condition).
- No code path gives a returned VM's address back, so a host returns at most 64 VMs in its
  life (`ReturnedForGood`, `AtMost64Return`).
- Looking up and deleting tags does not check the name; under a name that is not one path
  component the two backends can differ (`UncheckedNameDiffers`).
- A returned VM's provisioning context still names its address, snapshot and jail; only
  never cleaning it up again protects them (`ReturnedContextStillNames`).
- build-system/specs/004-content-addressing.md asks for ARG values and image digests to be
  resolved before hashing; the code does neither, and the model follows the code.

## Model

| member | source | states |
|---|---|---|
| `StreamAdapter.PollDeliversInOrder` | fs-storage/src/server.rs:54-90 | With room in the buffer, delivered bytes followed by what remains are what was owed, for every chunking including empty chunks; zero bytes means exactly closed and drained, pending exactly open and drained |
| `StreamAdapter.PollFillsRoom` | fs-storage/src/server.rs:60-77 | A read delivers as much of the first non-empty chunk owed as fits, and no more |
| `StreamAdapter.PollConservesBytes` | fs-storage/src/server.rs:60-88 | A read loses no byte if and only if it has room or the chunks it would replace are empty |
| `StreamAdapter.PollWithoutRoomLoses` | fs-storage/src/server.rs:79-83 | A concrete read without room that drops a held byte |
| `StreamAdapter.Adapter.PollRead` | fs-storage/src/server.rs:54-90 | The loop over buffer, position and channel performs exactly the specified poll and appends exactly its bytes to the caller's buffer |
| `StreamAdapter.HashingReader.PollRead` | fs-storage/src/layer_store.rs:42-61 | The hasher has absorbed exactly the bytes delivered, no more and no fewer |
| `IngestProtocol.EveryRunCompletes` | fs-storage/src/server.rs:193-214 | For every stream and interleaving: runs are bounded by the stream; a stopped run has completed unless artifacts are read in sequence and there are more than 32 cache chunks, and then it has not; a completed run stored and hashed each artifact's chunks in stream order |
| `IngestProtocol.StepKeepsInv` | fs-storage/src/server.rs:199-211 | Every step of the three actors conserves each artifact's bytes in order, respects channel capacity and uses up work |
| `IngestProtocol.NotStuck` | fs-storage/src/layer_store.rs:145-150 | Reading both artifacts at once, some actor can always move until both blobs are stored |
| `IngestProtocol.RunsReachAStop` | fs-storage/src/server.rs:199-213 | Every reachable state leads to a stopped one |
| `IngestProtocol.SequentialReadingDeadlocks` | fs-storage/src/layer_store.rs:128-131 | With more than 32 cache chunks, reading in sequence really gets stuck before completing |
| `IngestProtocol.AbandonedTaskEnds` | fs-storage/src/layer_store.rs:138-140 | Once the handler returns early and drops both receivers, wherever the protocol stood, the forwarding task ends within the messages up to the next chunk and two steps, reading nothing beyond that chunk |
| `IngestProtocol.UnreadChannelBlocks` | fs-storage/src/server.rs:199-211 | With a full channel and no reader only the drop releases the forwarding task |
| `PacketNat.CsumReplace` | control-plane/microvisor-ebpf/src/main.rs:128-142 | The checksum field at an offset is updated in place for an address change, or the call fails and nothing changes |
| `PacketNat.TcEgress` | control-plane/microvisor-ebpf/src/main.rs:84-208 | The in-place classifier produces the packet and verdict of the egress specification, errors included |
| `PacketNat.TcIngress` | control-plane/microvisor-ebpf/src/main.rs:215-313 | The same for ingress |
| `PacketNatLaws.EgressGuards` | control-plane/microvisor-ebpf/src/main.rs:106-130 | An IPv4 packet that passes came from the guest address, was not for the metadata endpoint, and leaves with the host address and its destination unchanged |
| `PacketNatLaws.IngressGuards` | control-plane/microvisor-ebpf/src/main.rs:229-249 | A packet for the host address reaches the guest address with its source unchanged; any other passes unmodified |
| `PacketNatLaws.EgressExactly` | control-plane/microvisor-ebpf/src/main.rs:84-208 | The verdict for every frame from its bytes: shorter than 14 bytes, dropped; not of type 0x0800, passed unchanged; IPv4, passed if and only if the header is whole, the source is 169.254.1.2, the destination is not 169.254.169.254, a host address is configured, and the frame is long enough for its protocol |
| `PacketNatLaws.IngressExactly` | control-plane/microvisor-ebpf/src/main.rs:215-313 | The same for ingress: another destination passes unchanged, the host address passes if and only if the frame is long enough for its protocol |
| `PacketNatLaws.PayloadExactly` | control-plane/microvisor-ebpf/src/main.rs:161-198 | Without a transport checksum or a matching embedded address nothing after the IP header changes; a matching embedded address is rewritten and exactly its two checksums are updated |
| `PacketNatLaws.EgressKeepsChecksums` | control-plane/microvisor-ebpf/src/main.rs:123-159 | For a packet from the guest not aimed at the metadata endpoint: after egress, IP, TCP and UDP checksums verify under full recomputation exactly when they did before; a UDP checksum is zero exactly when it was; no byte outside the address and checksum fields changes |
| `PacketNatLaws.IngressKeepsChecksums` | control-plane/microvisor-ebpf/src/main.rs:242-275 | The same for every packet addressed to the host address, on ingress |
| `PacketNatLaws.TranslateKeepsHeaderChecksum` | control-plane/microvisor-ebpf/src/main.rs:125-130 | The incrementally updated IP header checksum agrees with recomputation over the rewritten header, in either direction and for every protocol |
| `PacketNatLaws.TranslateKeepsTcpChecksum` | control-plane/microvisor-ebpf/src/main.rs:135-144 | The same for TCP over pseudo-header and segment |
| `PacketNatLaws.TranslateKeepsUdpChecksum` | control-plane/microvisor-ebpf/src/main.rs:146-159 | The same for UDP, where zero means no checksum and stays that way |
| `PacketNatLaws.TranslateFrame` | control-plane/microvisor-ebpf/src/main.rs:123-198 | Exactly which bytes a translation may touch, for every protocol |
| `PacketNatLaws.RoundTrip` | control-plane/microvisor-ebpf/src/main.rs:123-275 | For TCP, UDP and packets with no embedded header: egress, exchanging the ends, then ingress gives the exchanged original; checksums return bit for bit, except that an IP or TCP checksum of 0xFFFF returns as zero |
| `PacketNatLaws.TranslateKeepsInnerChecksum` | control-plane/microvisor-ebpf/src/main.rs:174-185 | The embedded header of an ICMP error stays exactly as valid as it was |
| `PacketNatLaws.TranslateShiftsIcmpSum` | control-plane/microvisor-ebpf/src/main.rs:176-196 | The ICMP message sum moves by exactly old minus new address, modulo 0xFFFF |
| `PacketNatLaws.IcmpChecksumKeptExactlyWhen` | control-plane/microvisor-ebpf/src/main.rs:187-196 | A valid ICMP error leaves valid if and only if the two addresses have equal word sums modulo 0xFFFF |
| `PacketNatLaws.IcmpErrorInvalidated` | control-plane/microvisor-ebpf/src/main.rs:170-198 | A concrete ICMP error, valid in both IP headers and its ICMP checksum, that leaves with an invalid ICMP checksum for host address 10.0.0.1 |
| `PacketNatLaws.ByteOrderIndependent` | control-plane/microvisor-ebpf/src/main.rs:41-59 | Computing on byte-swapped loads gives the byte-swapped result, so the byte order of the machine is irrelevant |
| `Hex.HashText` | fs-storage/src/types.rs:35-53 | A hash survives a trip through text; text parses exactly when it is 64 hex digits of either case, and survives exactly when it is lower case |
| `Hex.EncodeDecode` | fs-storage/src/types.rs:41-53 | Accepted text is written back in lower case |
| `LayerStoreLaws.ReachableStoresAreSound` | fs-storage/src/layer_store.rs:72-126 | In every state reached by publishes failing at any call, manifests, tags and collections: an input hash that resolves leads to a record naming that input, with both blobs present and matching its checksums; every tag leads to a stored manifest |
| `LayerStoreLaws.PublishKeepsInv` | fs-storage/src/layer_store.rs:132-162 | A publish, whichever call fails, keeps the store sound; the early return and latest-wins registration are the cases |
| `LayerStoreLaws.PublishedIsPulled` | fs-storage/src/layer_store.rs:132-162 | With the deploy blob present a publish changes nothing and reports success; otherwise success means exactly the given artifacts are stored under a record and index entry leading to them, and nothing else is touched; after success the input resolves to the layer if and only if the blob was absent or the input resolved to it before |
| `LayerStoreLaws.PublishLeaves` | fs-storage/src/layer_store.rs:138-160 | For each failing call, exactly which blobs, record and index entries are left of a layer that was not there |
| `LayerStoreLaws.StrandedForGood` | fs-storage/src/layer_store.rs:138-140 | A layer with a deploy blob and no record stays so along every run in which no collection names it; no input resolves to it and no report lists it |
| `LayerStoreLaws.FailedPublishNeverHeals` | fs-storage/src/layer_store.rs:138-156 | After a failure between deploy blob and record, every retry reports success, changes nothing and leaves the layer unresolvable |
| `LayerStoreLaws.RecordedBytesNeverChange` | fs-storage/src/layer_store.rs:101-126 | Along every run in which no collection names the layer, a recorded layer's record and bytes stay as they are |
| `LayerStoreLaws.ManifestsAreKept` | fs-storage/src/layer_store.rs:166-201 | Along every run stored manifests stay, unchanged |
| `LayerStoreLaws.StoredManifestIs` | fs-storage/src/layer_store.rs:166-201 | The manifest is stored under its hash either way; the result is its hash if and only if it was catalogued; nothing else changes |
| `LayerStoreLaws.TaggingExactly` | fs-storage/src/layer_store.rs:273-286 | Tagging succeeds if and only if the name is accepted and the manifest stored; then the tag leads there and every other key and blob is unchanged; otherwise nothing changes and the error names the failed check |
| `LayerStoreLaws.TagsFollowTheRun` | fs-storage/src/layer_store.rs:273-317 | Along every run a tag leads to the hash of the last accepted tagging of its name until it is removed, whatever is published or collected |
| `LayerStoreLaws.TagNamesGrow` | fs-storage/src/layer_store.rs:273-279 | Accepted names start with a lower-case letter or digit and go on with those, dots, underscores and dashes; all such names are accepted |
| `LayerStoreLaws.CollectionKeepsDocuments` | fs-storage/src/layer_store.rs:349-434 | A collection leaves every manifest, tag and catalogue entry as it was |
| `LayerStoreLaws.CollectionSparesLiveLayers` | fs-storage/src/layer_store.rs:349-434 | A report executed at any later time takes no blob of a layer listed by a stored manifest, provided no manifest published since lists a candidate |
| `LayerStoreLaws.TakesLiveBlobExactlyWhen` | fs-storage/src/layer_store.rs:408-434 | Executing any report takes a live blob if and only if a candidate is listed by a stored manifest and still has a blob |
| `LayerStoreLaws.CollectionIsComplete` | fs-storage/src/layer_store.rs:379-433 | After executing a fresh report the remaining records are exactly the referenced ones, and a second report is empty |
| `LayerStoreLaws.CollectionConservesBytes` | fs-storage/src/layer_store.rs:389-420 | Recorded bytes before equal recorded bytes after plus the reclaimable total of the report |
| `LayerStoreLaws.IndexSurvivesExactlyWhen` | fs-storage/src/layer_store.rs:422-430 | An index entry survives a collection if and only if no candidate's record names its input |
| `LayerStoreLaws.LiveIndexEntryEvicted` | fs-storage/src/layer_store.rs:422-430 | After an input is rebuilt and only the new layer released, collecting leaves the live layer without its index entry |
| `LayerStoreObject.InMemoryBackend.ListMeta` | fs-storage/src/backends/memory.rs:84-92 | A listing has every key of the namespace, once, in any order |
| `LayerStoreObject.LayerStoreService.PublishLayer` | fs-storage/src/layer_store.rs:132-162 | The method changes the backend exactly as the publish specification, fault by fault |
| `LayerStoreObject.LayerStoreService.ResolveInputHash` | fs-storage/src/layer_store.rs:72-82 | In a sound store a found hash has a record naming the input and both blobs, matching its checksums; nothing is found only if nothing is indexed |
| `LayerStoreObject.LayerStoreService.StoreManifest` | fs-storage/src/layer_store.rs:166-201 | Writes the manifest, then the catalogue entry; if the second write fails the manifest is there all the same |
| `LayerStoreObject.LayerStoreService.SetTag` | fs-storage/src/layer_store.rs:273-286 | Succeeds if and only if the name is accepted and the manifest stored; then the tag leads to it and nothing else changes; otherwise nothing changes and the error says which check failed |
| `LayerStoreObject.LayerStoreService.RemoveTag` | fs-storage/src/layer_store.rs:314-317 | The tag is gone, every other key and blob is unchanged, and a sound store stays sound |
| `LayerStoreObject.LayerStoreService.LiveSet` | fs-storage/src/layer_store.rs:371-377 | The live set is exactly the layers the given manifests list |
| `LayerStoreObject.LayerStoreService.GcCandidates` | fs-storage/src/layer_store.rs:349-406 | The report lists the unreferenced records, each once with its recorded sizes, all of them, and their total |
| `LayerStoreObject.LayerStoreService.GcExecute` | fs-storage/src/layer_store.rs:408-434 | The loop performs the whole sweep and counts two blobs and the reported bytes per candidate |
| `FileBackend.FilesRefineMemory` | fs-storage/src/backends/local_json.rs:137-216 | Every sequence of put, get, delete and list on plain names, with no tag put under a ".json" name, gets the replies of the in-memory map, lists compared as sets |
| `FileBackend.BackendsAgree` | fs-storage/src/backends/memory.rs:73-98 | From an empty root on, no such sequence tells the two backends apart |
| `FileBackend.ListRefinesExactlyWhen` | fs-storage/src/backends/local_json.rs:167-207 | The two backends list the same keys if and only if no name kept in a bare file ends in ".json" |
| `FileBackend.PutIsAtomicAcrossCrash` | fs-storage/src/backends/local_json.rs:137-156 | A crash anywhere in a metadata write, then reopening, leaves the old store or the new one |
| `FileBackend.PutExactly` | fs-storage/src/backends/local_json.rs:137-156 | A put changes exactly the key's file and leaves no temporary file |
| `FileBackend.ReopenedExactly` | fs-storage/src/backends/local_json.rs:32-41 | Opening takes exactly the files directly under the temporary directory |
| `FileBackend.MetaPathOf` | fs-storage/src/backends/local_json.rs:53-67 | The prefix dispatch sends each namespace to its own directory and file name |
| `FileBackend.PathText` | fs-storage/src/backends/local_json.rs:53-67 | The path of each kind of key, spelled out |
| `FileBackend.PathInjective` | fs-storage/src/backends/local_json.rs:53-67 | Different keys never share a file |
| `FileBackend.PlainIsWalkedTo` | fs-storage/src/backends/local_json.rs:53-67 | For a plain name the file system looks exactly where the model does |
| `FileBackend.UncheckedNameDiffers` | fs-storage/src/layer_store.rs:292-299 | Looked up as "./" and its name, every stored tag is found in files and not in memory |
| `FileBackend.LocalJsonBackend.constructor` | fs-storage/src/backends/local_json.rs:15-44 | Opening removes exactly the files of the temporary directory |
| `FileBackend.LocalJsonBackend.PutMeta` | fs-storage/src/backends/local_json.rs:137-156 | Writing a temporary file and renaming it puts exactly the new content at the final path and leaves no temporary file; a memory map the files represented is represented with the key updated |
| `FileBackend.LocalJsonBackend.GetMeta` | fs-storage/src/backends/local_json.rs:158-165 | For a plain name, returns what every memory map the files represent holds under the key |
| `FileBackend.LocalJsonBackend.DeleteMeta` | fs-storage/src/backends/local_json.rs:209-216 | Deleting what is not there changes nothing; a memory map the files represented is represented without the key |
| `FileBackend.LocalJsonBackend.ListMeta` | fs-storage/src/backends/local_json.rs:167-207 | The loop lists exactly the files of the directory, suffix stripped |
| `StoreKeys.StoreKeysArePlain` | fs-storage/src/layer_store.rs:273-286 | Hash-named keys and accepted tag names are single path components; only tag names ending in ".json" would be listed differently |
| `StoreKeys.RenderedText` | fs-storage/src/layer_store.rs:72-87 | The strings under which layers, inputs, manifests, tags and builds are stored |
| `StoreKeys.JsonTagIsMislisted` | fs-storage/src/backends/local_json.rs:167-207 | After the accepted tag "a.json" is put on an empty root, the two backends list different tags |
| `StoreKeys.RenderedInjective` | fs-storage/src/layer_store.rs:84-87 | Different keys render as different strings |
| `InputHasher.NormalizeIdempotent` | build-system/src/hasher.rs:54-64 | Normalizing twice is normalizing once |
| `InputHasher.NormalizeIgnoresRuns` | build-system/src/hasher.rs:61-63 | Which white space separates two parts, and how much, does not matter |
| `InputHasher.NormalizeIgnoresEdges` | build-system/src/hasher.rs:61-63 | Leading and trailing white space does not matter |
| `InputHasher.NormalizeIgnoresComments` | build-system/src/hasher.rs:55-59 | A comment changes nothing and a comment-only instruction is empty |
| `InputHasherLaws.StripCommentIs` | build-system/src/hasher.rs:55-59 | What is kept is the text before the first '#' |
| `InputHasherLaws.WordsOfSpaced` | build-system/src/hasher.rs:61-63 | However words are laid out in white space, they are found |
| `InputHasherLaws.EveryTextIsSpaced` | build-system/src/hasher.rs:61-63 | Every text is its words laid out in white space, so the words are all there is |
| `InputHasherLaws.JoinAppend` | build-system/src/hasher.rs:61-63 | Joined words are separated by exactly one space |
| `InputHasherLaws.NormalFormIs` | build-system/src/hasher.rs:54-64 | Words without '#' joined by single spaces are their own normal form |
| `InputHasherLaws.NormalizeExactly` | build-system/src/hasher.rs:54-64 | Two instructions normalize alike if and only if their words before the first '#' are the same list |
| `InputHasher.BlankLinesAreInvisible` | build-system/src/hasher.rs:24-30 | Instructions that normalize to nothing never reach the hasher |
| `InputHasherLaws.LinesExactly` | build-system/src/hasher.rs:24-30 | Two stages hash the same lines if and only if their non-empty word lists are the same, in order |
| `InputHasher.AbsorbStage` | build-system/src/hasher.rs:10-33 | The hasher loop absorbs exactly parent hash, NUL and the newline-terminated normalized instructions |
| `InputHasher.PreImageInjective` | build-system/src/hasher.rs:13-30 | The pre-image determines the parent hash, its absence, and every normalized instruction |
| `InputHasherLaws.PreImageReadsBack` | build-system/src/hasher.rs:13-30 | Parent hash, NUL and newline-terminated normal forms read back from the hashed text |
| `InputHasher.KeyInjective` | build-system/src/hasher.rs:10-33 | Input hashes are equal if and only if normalization leaves the same instructions at every level of the ancestry |
| `InputHasherLaws.KeyExactly` | build-system/src/hasher.rs:10-33 | Two stages get the same input hash if and only if, at every level of the ancestry, they have the same lists of words before comments, blank instructions aside |
| `InputHasherLaws.WordChangesKey` | build-system/src/hasher.rs:93-114 | One changed word changes the input hash |
| `InputHasher.IdealExists` | build-system/src/hasher.rs:10-33 | A hash function of the assumed kind exists |
| `DockerfileParser.Parse` | build-system/src/parser.rs:9-108 | Returns the graph the text parses to, or fails exactly when there is none, with the error of the first bad line, for a missing release, or of the validation |
| `DockerfileParserLaws.ParsedMeans` | build-system/src/parser.rs:9-108 | For all texts and graphs: the stages partition the counted lines from the first FROM line on, one FROM line each; name, parent, layer name and order follow from the stage's own lines, the released layers and workload entries from the last such labels of the file |
| `DockerfileParserLaws.ParentExactlyWhen` | build-system/src/parser.rs:34-45 | A later stage has parent p if and only if p is the second word of its FROM line, is not "scratch" in any case, and names an earlier stage |
| `DockerfileParserLaws.FailsExactlyWhen` | build-system/src/parser.rs:13-92 | Reading fails exactly at the first FROM line without operand after a stage or order label that is no number, with that error |
| `DockerfileParserLaws.OtherCaseLabelIsLost` | build-system/src/parser.rs:55-67 | A label line not spelled LABEL sets no layer, order, release or workload entry |
| `DockerfileParserLaws.LayerStageAt` | build-system/src/parser.rs:123-128 | A layer name stands for the last stage that carries it |
| `ParserTextLaws.LabelIsFound` | build-system/src/parser.rs:111-121 | However a label line is spaced and quoted, its key and value are found |
| `ParserTextLaws.TrimIs` | build-system/src/parser.rs:15-19 | Trimming takes all white space off both ends and nothing else |
| `ParserTextLaws.SplitIs` | build-system/src/parser.rs:82-83 | The parts of a split have no separator and joined by it are the text |
| `ParserTextLaws.U32Exactly` | build-system/src/parser.rs:62-62 | An order reads as v if and only if it is v in decimal, with optional plus sign and leading zeros, below 2^32 |
| `ParserTextLaws.UpperExactly` | build-system/src/parser.rs:21-21 | Keywords are recognized in exactly the mixtures of cases |
| `ParserTextLaws.LowerExactly` | build-system/src/parser.rs:39-39 | So is the word "scratch" |
| `SampleDockerfile.SampleParses` | build-system/src/parser.rs:9-121 | A four-line Dockerfile with any command is accepted, as one stage that is released |
| `SampleDockerfile.TwoStagesParse` | build-system/src/parser.rs:154-180 | A two-stage file with a lower-case FROM, an order label and quoted values parses to the graph it describes, parent included |
| `DockerfileParser.Validate` | build-system/src/parser.rs:123-145 | Accepts if and only if every released layer is defined and layer names correspond one to one to orders 0..n-1; otherwise the error is the first undefined layer, or else the gap |
| `DockerfileParser.OrderCheckExactlyWhen` | build-system/src/parser.rs:136-142 | Sorting and comparing with positions accepts exactly the one-to-one numberings, whatever order the map yields |
| `DockerfileParser.LinesKeepParents` | build-system/src/parser.rs:21-53 | Over all lines each parent is the name of an earlier stage |
| `BuildOrchestrator.Build` | build-system/src/orchestrator.rs:47-209 | The two loops perform the stage-by-stage specification, hit, miss and failure, and assemble the manifest in release order |
| `BuildOrchestrator.StageFailsExactlyWhen` | build-system/src/orchestrator.rs:71-173 | On any store, which stage fails and with which error |
| `BuildOrchestrator.IncrementalBuild` | build-system/src/orchestrator.rs:59-191 | For every sound graph, every cache coherent for a set of ancestries that includes the graph's, and every engine that makes the same of any two of them with equal normal form: the cache stays coherent wherever the build stops; without an injected failure it never stops early; the released outputs are those of building every stage from scratch |
| `BuildOrchestrator.SameOutputsAsFromScratch` | build-system/src/orchestrator.rs:59-173 | Layer by layer, outputs equal those of a build with an empty cache, which always gets through |
| `BuildOrchestrator.StagesAreFaithful` | build-system/src/orchestrator.rs:59-173 | After any number of stages, results are the keys and clean outputs of the chains the stages encode |
| `BuildOrchestrator.PublishKeepsCoherence` | build-system/src/mocks.rs:67-78 | Publishing a clean output keeps every indexed key leading to the clean output of its chain |
| `BuildHistory.EveryStoreIsExplained` | build-system/src/mocks.rs:67-78 | After any sequence of builds, each stopping anywhere: the metadata under an output names the input hash that published it last, and that input hash still resolves to the output |
| `BuildHistory.BuildOnHistory` | build-system/src/orchestrator.rs:59-191 | For every hash function and engine: a whole build continues the log of publishes wherever it stops; for a sound graph it stops early only where a failure was injected, so never for a missing parent, layer or metadata; each released entry carries its own stage's input hash if and only if that key was unpublished, or the last publisher of the output, before that stage, and the last publisher's otherwise |
| `BuildHistory.OutputStays` | build-system/src/orchestrator.rs:71-86 | A published input hash keeps its output through every later stage |
| `BuildHistory.StagesAreTracked` | build-system/src/orchestrator.rs:59-173 | Stage by stage, results with their cache-hit flags, metadata and store agree with the log, on hits, misses and failures; the build stops exactly where the log does |
| `BuildHistory.LastPublisherResolves` | build-system/src/mocks.rs:67-78 | In a log that publishes no key twice, the last publisher of an output leads to that output |
| `BuildHistory.EveryStoreDescends` | build-system/src/orchestrator.rs:147-163 | After any builds, metadata with the input hash of an ancestry has the input hash of its parent as parent hash, and none for a root |
| `BuildHistory.BuildAfterBuilds` | build-system/src/orchestrator.rs:177-191 | So has every entry a build releases after any builds |
| `BuildTransparency.TransparentExactlyWhen` | build-system/src/hasher.rs:54-64 | For every class of sound files: every stage gets its from-scratch output after any builds of the class, or after any one, if and only if the engine makes the same of any two ancestries of the class with equal normal form; then releases are clean too, and clean releases imply it on released ancestries |
| `BuildTransparency.AcceptedTransparentExactlyWhen` | build-system/src/orchestrator.rs:47-173 | The same if-and-only-if for the class of all Dockerfiles the parser accepts |
| `BuildTransparency.CacheShows` | build-system/src/orchestrator.rs:71-86 | For stages with equal normal form in any two files, every hash function and engine: building one file and then the other gives the second stage what the first got |
| `BuildTransparency.ReleaseShows` | build-system/src/orchestrator.rs:71-86 | The same for the layers two files release |
| `BuildTransparency.QuotedSpacesShow` | build-system/src/hasher.rs:54-64 | Two accepted Dockerfiles that differ in one quoted space: with an engine that reads every line to the letter, the second releases the first one's output, which is not its own |
| `BuildTransparency.AcceptedFilesShow` | build-system/src/hasher.rs:54-64 | So for that engine earlier builds show, in stages and in releases of accepted Dockerfiles |
| `BuildOrchestrator.CachedInputHashCanDiffer` | build-system/src/orchestrator.rs:71-86 | Two stages with equal outputs for which a cached rebuild releases another input hash than a build from scratch |
| `IpAllocator.IpAm.Allocate` | control-plane/src/vmm/network.rs:53-65 | Under any interference between loads and swaps and between lost swaps and next loads: every turn before the deciding one lost its swap; that turn saw all 64 taken and fails changing nothing, or its swap found the word as loaded and set just the lowest free bit, whose address is returned |
| `IpAllocator.IpAm.Release` | control-plane/src/vmm/network.rs:68-75 | Clears just the address's bit; addresses outside the pool are ignored |
| `IpAllocator.ReleasedExactly` | control-plane/src/vmm/network.rs:68-75 | After a release a bit is set if and only if it was and is not the released address's |
| `IpAllocator.NoAddressHeldTwice` | control-plane/src/vmm/network.rs:53-75 | In every state reached by interleaved loads, swaps and releases the set bits are exactly the held addresses and none has two owners |
| `IpAllocator.WinnerTakesLowestFree` | control-plane/src/vmm/network.rs:55-63 | A winning swap returns the lowest address nobody holds at that moment, even if the word changed and changed back since the load |
| `IpAllocator.OutcomeExplained` | control-plane/src/vmm/network.rs:55-63 | Giving up means all 64 addresses were held at the load; a lost swap means another thread's step changed the word since |
| `Provisioning.LedgerBalances` | control-plane/src/vmm/mod.rs:100-157 | For any interleaving of launches, each failing anywhere, and repeated cleanups: set bits are exactly the addresses of returned VMs and live contexts, each with one owner; every launch's resources are accounted for; a failed launch owns nothing, a returned VM owns everything |
| `Provisioning.RollbackIsReverse` | control-plane/src/vmm/mod.rs:407-466 | In every reachable state, rollback included: no process without its cgroup and jail on record, no cgroup of a launch without its address, no address of one without its snapshot |
| `Provisioning.AddressMoves` | control-plane/src/vmm/mod.rs:142-144 | Only a won swap moves an address or the word; allocation fails a launch exactly when the loaded word had no free slot |
| `Provisioning.CleanupIsIdempotent` | control-plane/src/vmm/mod.rs:412-466 | From a failed launch on, whatever interleaves and however often it is cleaned up again, none of its steps changes the host |
| `Provisioning.ReturnedForGood` | control-plane/src/vmm/mod.rs:434-438 | From then on, whatever happens, a returned launch stays as it is and its address bit stays set |
| `Provisioning.AtMost64Return` | control-plane/src/vmm/mod.rs:100-157 | At most 64 launches ever return, and after that many none does |
| `Provisioning.SecondCleanupFreesNothing` | control-plane/src/vmm/mod.rs:372-374 | A whole second cleanup of a failed launch leaves host and launch as they were |
| `Provisioning.CleanAllRestores` | control-plane/src/vmm/mod.rs:412-466 | Failing at any point and cleaning up gives back exactly what was taken |
| `Provisioning.LaunchVm` | control-plane/src/vmm/mod.rs:100-314 | A launch succeeds if and only if an address is free and the chosen operation is not one that can fail; a failed launch leaves the machine as it found it; a successful one owns every resource and the lowest free address, and disturbs nobody |
| `Provisioning.ReturnedContextStillNames` | control-plane/src/vmm/mod.rs:303-314 | Cleaning up a returned context would free the address, snapshot and jail of the running VM, and nothing else |
| `Provisioning.ProvisioningContext.Cleanup` | control-plane/src/vmm/mod.rs:412-466 | Empties the context and releases exactly what it recorded; nothing if it was empty |
| `Provisioning.TransitionsAccepted` | control-plane/src/vmm/mod.rs:123-301 | Every lifecycle transition of the provisioning program is accepted |
| `Provisioning.TransitionExactly` | control-plane/src/vmm/state.rs:53-73 | A transition is accepted if and only if it goes to the next state in order, from launching to running, or to termination from a state between pending and terminating |
| `Provisioning.ContextBoundedByState` | control-plane/src/vmm/mod.rs:123-301 | The lifecycle state bounds what the context contains, from below and above |
| `Provisioning.LifecycleIsFinite` | control-plane/src/vmm/state.rs:53-73 | Every run of accepted transitions is finite by a rank, and only `Destroyed` has no successor |
| `Provisioning.VmStateMachine.TransitionTo` | control-plane/src/vmm/state.rs:41-51 | Accepted transitions take effect and lower the rank; rejected ones change nothing |

## Left out

- SHA-256, zstd, JSON and protobuf internals; gRPC, subprocess, ioctl and HTTP plumbing.
- Checksum offload: the helpers are modelled for packets whose checksums are in the packet, not for hardware-completed ones.
- IPv4 options and fragments: transport checksums are stated for headers of five words, as the fixed offsets assume.
- The first message of an upload, which must carry the layer metadata.
- A `put_blob` that returns before its stream ends while the other goes on reading, and a request stream that errors: readers drain their channel or the handler gives up as a whole.
- Overlapping publishes of one content hash, and collections whose deletes fail.
- Blob files of the file backend: only its metadata map is modelled, and file contents change at once except for the crash points of a metadata write.
- Names that are not single path components, beyond how the file system walks to them and one such lookup: the agreement of the two backends is stated for plain names.
- `list_builds`, `verify_store`, and the build catalogue beyond its key.
- 32-bit overflow of `base_ip + index`, 64-bit overflow of byte totals: integers are unbounded.
- The gRPC store client of the build system, which returns blank metadata; the store contract is the plain maps of build-system/src/mocks.rs.
- Sizes, timestamps and host names in build metadata.
- Upper and lower case beyond what can match the ASCII keywords FROM, LABEL, AS and scratch.
- Provisioning steps are atomic: a primitive that fails leaves nothing behind, except the jail directory, which may be left partly made. Teardown succeeds. Cancelling a launch is not modelled.
- The CPU-set allocators and storage manager.

/**
 * The content-addressed layer store (fs-storage/src/layer_store.rs) on the in-memory
 * backend (fs-storage/src/backends/memory.rs). Metadata documents are kept as values:
 * JSON encoding is a round trip. `sha` stands for SHA-256 and is an arbitrary function.
 */
module LayerStore {
  import opened Basics
  import opened Hex

  datatype Format = Deploy | BuildCache

  /** Metadata keys; StoreKeys renders them as the strings the backends see. */
  datatype Key =
    | LayerKey(content: Hash)
    | IndexKey(input: Hash)
    | ManifestKey(manifest: Hash)
    | TagKey(tag: string)
    | BuildKey(id: string)

  datatype LayerMeta = LayerMeta(
    inputHash: Hash, contentHash: Hash, sizeDeploy: nat, sizeCache: nat, checksumDeploy: Hash, checksumCache: Hash)

  /** A release manifest; `layers` are the content hashes it references. */
  datatype Manifest = Manifest(id: string, layers: seq<Hash>)

  datatype CatalogEntry = CatalogEntry(id: string, manifest: Hash, layers: seq<Hash>)

  datatype Doc =
    | LayerDoc(meta: LayerMeta)
    | ManifestDoc(body: Manifest)
    | HashDoc(hash: Hash)
    | CatalogDoc(entry: CatalogEntry)

  datatype Store = Store(blobs: map<(Hash, Format), seq<byte>>, meta: map<Key, Doc>)

  const EMPTY := Store(map[], map[])

  /** Every key holds its own kind of document. */
  predicate Fits(key: Key, doc: Doc) {
    match key
    case LayerKey(_) => doc.LayerDoc?
    case IndexKey(_) => doc.HashDoc?
    case ManifestKey(_) => doc.ManifestDoc?
    case TagKey(_) => doc.HashDoc?
    case BuildKey(_) => doc.CatalogDoc?
  }

  ghost predicate WellTyped(s: Store) {
    forall key :: key in s.meta ==> Fits(key, s.meta[key])
  }

  datatype StoreResult<T> = Ok(value: T) | NotFound | InvalidTagName | BackendError

  datatype Outcome<T> = Outcome(store: Store, result: StoreResult<T>)

  // --- Publishing a layer ---

  /**
   * Which backend call of a publish fails. The two blob writes of the concurrent variant
   * finish independently; the sequential one never stores the cache blob alone.
   */
  datatype PublishFault =
    | NoFault | AtLookup | AtBlobs(deployStored: bool, cacheStored: bool) | AtRecord | AtIndex

  predicate HasLayer(s: Store, content: Hash) {
    (content, Deploy) in s.blobs
  }

  function BlobOf(s: Store, content: Hash, format: Format): Option<seq<byte>> {
    if (content, format) in s.blobs then Some(s.blobs[(content, format)]) else None
  }

  function WithBlob(s: Store, content: Hash, format: Format, data: seq<byte>): Store {
    s.(blobs := s.blobs[(content, format) := data])
  }

  function WithDoc(s: Store, key: Key, doc: Doc): Store {
    s.(meta := s.meta[key := doc])
  }

  function Publish(
    sha: seq<byte> -> Hash, s: Store, meta: LayerMeta, deploy: seq<byte>, cache: seq<byte>, fault: PublishFault)
    : Outcome<Hash>
  {
    var c := meta.contentHash;
    if fault.AtLookup? then Outcome(s, BackendError)
    else if HasLayer(s, c) then Outcome(s, Ok(c))
    else if fault.AtBlobs? then
      var s1 := if fault.deployStored then WithBlob(s, c, Deploy, deploy) else s;
      Outcome(if fault.cacheStored then WithBlob(s1, c, BuildCache, cache) else s1, BackendError)
    else
      var stored := WithBlob(WithBlob(s, c, Deploy, deploy), c, BuildCache, cache);
      var record := meta.(checksumDeploy := sha(deploy), checksumCache := sha(cache));
      if fault.AtRecord? then Outcome(stored, BackendError)
      else
        var recorded := WithDoc(stored, LayerKey(c), LayerDoc(record));
        if fault.AtIndex? then Outcome(recorded, BackendError)
        else Outcome(WithDoc(recorded, IndexKey(meta.inputHash), HashDoc(c)), Ok(c))
  }

  function Resolve(s: Store, input: Hash): Option<Hash> {
    if IndexKey(input) in s.meta && s.meta[IndexKey(input)].HashDoc? then Some(s.meta[IndexKey(input)].hash) else None
  }

  // --- Manifests and tags ---

  /** `hash` is the digest of the serialized manifest; `catalogued` says whether the second write succeeds. */
  function PublishManifest(s: Store, m: Manifest, hash: Hash, buildId: string, catalogued: bool): Outcome<Hash> {
    var s1 := WithDoc(s, ManifestKey(hash), ManifestDoc(m));
    if !catalogued then Outcome(s1, BackendError)
    else Outcome(WithDoc(s1, BuildKey(buildId), CatalogDoc(CatalogEntry(buildId, hash, m.layers))), Ok(hash))
  }

  predicate IsTagStart(c: char) {
    'a' <= c <= 'z' || '0' <= c <= '9'
  }

  /** `^[a-z0-9][a-z0-9._-]*$`. */
  predicate IsTagName(name: string) {
    && name != "" && IsTagStart(name[0])
    && forall i :: 0 <= i < |name| ==> IsTagStart(name[i]) || name[i] in {'.', '_', '-'}
  }

  predicate HasManifest(s: Store, hash: Hash) {
    ManifestKey(hash) in s.meta && s.meta[ManifestKey(hash)].ManifestDoc?
  }

  function CreateTag(s: Store, name: string, hash: Hash): Outcome<()> {
    if !IsTagName(name) then Outcome(s, InvalidTagName)
    else if !HasManifest(s, hash) then Outcome(s, NotFound)
    else Outcome(WithDoc(s, TagKey(name), HashDoc(hash)), Ok(()))
  }

  function DeleteTag(s: Store, name: string): Store {
    s.(meta := s.meta - {TagKey(name)})
  }

  // --- Garbage collection ---

  datatype GcCandidate = GcCandidate(content: Hash, sizeDeploy: nat, sizeCache: nat)

  datatype GcReport = GcReport(candidates: seq<GcCandidate>, totalReclaimable: nat)

  datatype GcSummary = GcSummary(deletedBlobs: nat, deletedBytes: nat)

  /** Some stored manifest lists the layer. */
  ghost predicate Referenced(s: Store, content: Hash) {
    exists h: Hash :: HasManifest(s, h) && content in s.meta[ManifestKey(h)].body.layers
  }

  predicate HasRecord(s: Store, content: Hash) {
    LayerKey(content) in s.meta && s.meta[LayerKey(content)].LayerDoc?
  }

  function RecordOf(s: Store, content: Hash): LayerMeta
    requires HasRecord(s, content)
  {
    s.meta[LayerKey(content)].meta
  }

  function BytesOf(candidates: seq<GcCandidate>): nat {
    if candidates == [] then 0
    else
      var n := |candidates| - 1;
      BytesOf(candidates[..n]) + candidates[n].sizeDeploy + candidates[n].sizeCache
  }

  /** What `gc_candidates` may report: the unreferenced records, each once, with their sizes. */
  ghost predicate IsReport(s: Store, report: GcReport) {
    && (forall k :: 0 <= k < |report.candidates| ==>
          var c := report.candidates[k];
          && HasRecord(s, c.content) && !Referenced(s, c.content)
          && c.sizeDeploy == RecordOf(s, c.content).sizeDeploy && c.sizeCache == RecordOf(s, c.content).sizeCache)
    && (forall j, k :: 0 <= j < k < |report.candidates| ==>
          report.candidates[j].content != report.candidates[k].content)
    && (forall c: Hash :: HasRecord(s, c) && !Referenced(s, c) ==> IsCandidate(report.candidates, c))
    && report.totalReclaimable == BytesOf(report.candidates)
  }

  predicate IsCandidate(candidates: seq<GcCandidate>, c: Hash) {
    exists k :: 0 <= k < |candidates| && candidates[k].content == c
  }

  /** One turn of the sweep: both blobs, the index entry the record names, the record. */
  function Sweep(s: Store, c: Hash): Store {
    var indexed := if HasRecord(s, c) then {IndexKey(RecordOf(s, c).inputHash)} else {};
    Store(s.blobs - {(c, Deploy), (c, BuildCache)}, s.meta - indexed - {LayerKey(c)})
  }

  function SweepAll(s: Store, candidates: seq<GcCandidate>): Store {
    if candidates == [] then s
    else Sweep(SweepAll(s, candidates[..|candidates| - 1]), candidates[|candidates| - 1].content)
  }
}

/** Invariants of the layer store over whole runs, and what garbage collection may take. */
module LayerStoreLaws {
  import opened Basics
  import opened Hex
  import opened LayerStore

  // --- Runs ---

  datatype Step =
    | PublishLayer(meta: LayerMeta, deploy: seq<byte>, cache: seq<byte>, fault: PublishFault)
    | PutManifest(body: Manifest, hash: Hash, buildId: string, catalogued: bool)
    | Tag(name: string, hash: Hash)
    | Untag(name: string)
    | Gc(report: GcReport)

  /** Manifest digests do not collide with those already stored. */
  predicate Enabled(s: Store, step: Step) {
    step.PutManifest? && HasManifest(s, step.hash) ==> s.meta[ManifestKey(step.hash)].body == step.body
  }

  /** A collection acts on whatever report it is given, stale or not. */
  function Apply(sha: seq<byte> -> Hash, s: Store, step: Step): Store {
    match step
    case PublishLayer(meta, deploy, cache, fault) => Publish(sha, s, meta, deploy, cache, fault).store
    case PutManifest(body, hash, buildId, catalogued) =>
      LayerStore.PublishManifest(s, body, hash, buildId, catalogued).store
    case Tag(name, hash) => CreateTag(s, name, hash).store
    case Untag(name) => DeleteTag(s, name)
    case Gc(report) => SweepAll(s, report.candidates)
  }

  predicate Leads(sha: seq<byte> -> Hash, s: Store, steps: seq<Step>, s': Store)
    decreases |steps|
  {
    if steps == [] then s == s'
    else Enabled(s, steps[0]) && Leads(sha, Apply(sha, s, steps[0]), steps[1..], s')
  }

  // --- Invariant ---

  /** A record comes with both blobs, and its checksums are theirs. */
  ghost predicate RecordInv(sha: seq<byte> -> Hash, s: Store, c: Hash) {
    HasRecord(s, c) ==>
      && BlobOf(s, c, Deploy).Some? && BlobOf(s, c, BuildCache).Some?
      && RecordOf(s, c).contentHash == c
      && RecordOf(s, c).checksumDeploy == sha(BlobOf(s, c, Deploy).value)
      && RecordOf(s, c).checksumCache == sha(BlobOf(s, c, BuildCache).value)
  }

  /** An index entry leads to a record that names the same input. */
  ghost predicate IndexInv(s: Store, i: Hash) {
    Resolve(s, i).Some? ==> HasRecord(s, Resolve(s, i).value) && RecordOf(s, Resolve(s, i).value).inputHash == i
  }

  ghost predicate TagInv(s: Store, name: string) {
    TagKey(name) in s.meta ==> s.meta[TagKey(name)].HashDoc? && HasManifest(s, s.meta[TagKey(name)].hash)
  }

  ghost predicate Inv(sha: seq<byte> -> Hash, s: Store) {
    && WellTyped(s)
    && (forall c: Hash :: RecordInv(sha, s, c))
    && (forall i: Hash :: IndexInv(s, i))
    && (forall name :: TagInv(s, name))
  }

  lemma {:induction false} BlobKeepsInv(
    sha: seq<byte> -> Hash, s: Store, c: Hash, format: Format, data: seq<byte>)
    requires Inv(sha, s) && !HasRecord(s, c)
    ensures Inv(sha, WithBlob(s, c, format, data)) && !HasRecord(WithBlob(s, c, format, data), c)
  {
    var s' := WithBlob(s, c, format, data);
    forall d: Hash
      ensures RecordInv(sha, s', d) && IndexInv(s', d)
    {
      assert RecordInv(sha, s, d) && IndexInv(s, d);
    }
    forall name
      ensures TagInv(s', name)
    {
      assert TagInv(s, name);
    }
  }

  /** Writing a document keeps the store sound if that holds of the key's own kind. */
  lemma {:induction false} DocKeepsInv(sha: seq<byte> -> Hash, s: Store, key: Key, doc: Doc)
    requires Inv(sha, s) && Fits(key, doc)
    requires key.LayerKey? ==> !HasRecord(s, key.content) && RecordInv(sha, WithDoc(s, key, doc), key.content)
    requires key.IndexKey? ==> IndexInv(WithDoc(s, key, doc), key.input)
    requires key.TagKey? ==> TagInv(WithDoc(s, key, doc), key.tag)
    ensures Inv(sha, WithDoc(s, key, doc))
  {
    var s' := WithDoc(s, key, doc);
    forall d: Hash
      ensures RecordInv(sha, s', d)
    {
      assert RecordInv(sha, s, d);
    }
    forall i: Hash
      ensures IndexInv(s', i)
    {
      assert IndexInv(s, i);
    }
    forall name
      ensures TagInv(s', name)
    {
      assert TagInv(s, name);
    }
  }

  lemma {:induction false} PublishKeepsInv(
    sha: seq<byte> -> Hash, s: Store, meta: LayerMeta, deploy: seq<byte>, cache: seq<byte>, fault: PublishFault)
    requires Inv(sha, s)
    ensures Inv(sha, Publish(sha, s, meta, deploy, cache, fault).store)
  {
    hide Inv;
    var c := meta.contentHash;
    if !HasLayer(s, c) {
      NoRecordWithoutBlob(sha, s, c);
      BlobKeepsInv(sha, s, c, Deploy, deploy);
      BlobKeepsInv(sha, s, c, BuildCache, cache);
      BlobKeepsInv(sha, WithBlob(s, c, Deploy, deploy), c, BuildCache, cache);
      var stored := WithBlob(WithBlob(s, c, Deploy, deploy), c, BuildCache, cache);
      var record := meta.(checksumDeploy := sha(deploy), checksumCache := sha(cache));
      DocKeepsInv(sha, stored, LayerKey(c), LayerDoc(record));
      DocKeepsInv(sha, WithDoc(stored, LayerKey(c), LayerDoc(record)), IndexKey(meta.inputHash), HashDoc(c));
    }
  }

  lemma {:induction false} NoRecordWithoutBlob(sha: seq<byte> -> Hash, s: Store, c: Hash)
    requires Inv(sha, s) && !HasLayer(s, c)
    ensures !HasRecord(s, c)
  {
    assert RecordInv(sha, s, c);
  }

  lemma {:induction false} ManifestKeepsInv(sha: seq<byte> -> Hash, s: Store, step: Step)
    requires Inv(sha, s) && Enabled(s, step) && (step.PutManifest? || step.Tag? || step.Untag?)
    ensures Inv(sha, Apply(sha, s, step))
  {
    hide Inv, IsTagName;
    match step
    case PutManifest(body, hash, buildId, catalogued) =>
      DocKeepsInv(sha, s, ManifestKey(hash), ManifestDoc(body));
      DocKeepsInv(sha, WithDoc(s, ManifestKey(hash), ManifestDoc(body)), BuildKey(buildId),
                  CatalogDoc(CatalogEntry(buildId, hash, body.layers)));
    case Tag(name, hash) =>
      if IsTagName(name) && HasManifest(s, hash) {
        DocKeepsInv(sha, s, TagKey(name), HashDoc(hash));
      }
    case Untag(name) =>
      UntagKeepsInv(sha, s, name);
  }

  lemma {:induction false} UntagKeepsInv(sha: seq<byte> -> Hash, s: Store, name: string)
    requires Inv(sha, s)
    ensures Inv(sha, DeleteTag(s, name))
  {
    var s' := DeleteTag(s, name);
    forall d: Hash
      ensures RecordInv(sha, s', d) && IndexInv(s', d)
    {
      assert RecordInv(sha, s, d) && IndexInv(s, d);
    }
    forall other
      ensures TagInv(s', other)
    {
      assert TagInv(s, other);
    }
  }

  lemma {:induction false} SweepKeepsInv(sha: seq<byte> -> Hash, s: Store, c: Hash)
    requires Inv(sha, s)
    ensures Inv(sha, Sweep(s, c))
  {
    var s' := Sweep(s, c);
    forall d: Hash
      ensures RecordInv(sha, s', d)
    {
      assert RecordInv(sha, s, d);
    }
    forall i: Hash
      ensures IndexInv(s', i)
    {
      assert IndexInv(s, i);
    }
    forall name
      ensures TagInv(s', name)
    {
      assert TagInv(s, name);
    }
  }

  lemma {:induction false} SweepAllKeepsInv(sha: seq<byte> -> Hash, s: Store, candidates: seq<GcCandidate>)
    requires Inv(sha, s)
    ensures Inv(sha, SweepAll(s, candidates))
    decreases |candidates|
  {
    hide Inv;
    if candidates == [] {
    } else {
      var n := |candidates| - 1;
      SweepAllKeepsInv(sha, s, candidates[..n]);
      SweepKeepsInv(sha, SweepAll(s, candidates[..n]), candidates[n].content);
    }
  }

  lemma {:induction false} StepKeepsInv(sha: seq<byte> -> Hash, s: Store, step: Step)
    requires Inv(sha, s) && Enabled(s, step)
    ensures Inv(sha, Apply(sha, s, step))
  {
    hide Inv, Publish, SweepAll;
    match step
    case PublishLayer(meta, deploy, cache, fault) => PublishKeepsInv(sha, s, meta, deploy, cache, fault);
    case Gc(report) => SweepAllKeepsInv(sha, s, report.candidates);
    case _ => ManifestKeepsInv(sha, s, step);
  }

  lemma {:induction false} RunKeepsInv(sha: seq<byte> -> Hash, s: Store, steps: seq<Step>, s': Store)
    requires Inv(sha, s) && Leads(sha, s, steps, s')
    ensures Inv(sha, s')
    decreases |steps|
  {
    hide Inv, Enabled, Apply;
    if steps == [] {
    } else {
      StepKeepsInv(sha, s, steps[0]);
      RunKeepsInv(sha, Apply(sha, s, steps[0]), steps[1..], s');
    }
  }

  /**
   * Whatever was published, failed, tagged or collected before: an input hash that resolves
   * leads to a record naming that input, with both blobs present and matching the recorded
   * checksums; and every tag leads to a stored manifest.
   */
  lemma {:induction false} ReachableStoresAreSound(sha: seq<byte> -> Hash, steps: seq<Step>, s: Store)
    requires Leads(sha, EMPTY, steps, s)
    ensures Inv(sha, s)
    ensures forall i: Hash :: Resolve(s, i).Some? ==>
              var c := Resolve(s, i).value;
              && HasRecord(s, c) && RecordOf(s, c).inputHash == i
              && BlobOf(s, c, Deploy).Some? && sha(BlobOf(s, c, Deploy).value) == RecordOf(s, c).checksumDeploy
              && BlobOf(s, c, BuildCache).Some? && sha(BlobOf(s, c, BuildCache).value) == RecordOf(s, c).checksumCache
    ensures forall name :: TagKey(name) in s.meta ==>
              s.meta[TagKey(name)].HashDoc? && HasManifest(s, s.meta[TagKey(name)].hash)
  {
    RunKeepsInv(sha, EMPTY, steps, s);
    forall i: Hash | Resolve(s, i).Some?
      ensures IndexInv(s, i) && RecordInv(sha, s, Resolve(s, i).value)
    {
    }
    forall name | TagKey(name) in s.meta
      ensures s.meta[TagKey(name)].HashDoc? && HasManifest(s, s.meta[TagKey(name)].hash)
    {
      assert TagInv(s, name);
    }
  }

  // --- Records are immutable until collected ---

  lemma {:induction false} CandidateBeforeOrLast(candidates: seq<GcCandidate>, c: Hash)
    requires candidates != []
    ensures var n := |candidates| - 1;
            IsCandidate(candidates, c) <==> IsCandidate(candidates[..n], c) || candidates[n].content == c
  {
    var n := |candidates| - 1;
    if k :| 0 <= k < n && candidates[..n][k].content == c {
      assert candidates[k].content == c;
    }
    if k :| 0 <= k < |candidates| && candidates[k].content == c {
      assert k < n ==> candidates[..n][k].content == c;
    }
  }

  lemma {:induction false} SweptOnly(s: Store, candidates: seq<GcCandidate>, c: Hash)
    ensures IsCandidate(candidates, c) ==> var s' := SweepAll(s, candidates);
              !HasRecord(s', c) && BlobOf(s', c, Deploy).None? && BlobOf(s', c, BuildCache).None?
    ensures !IsCandidate(candidates, c) ==> var s' := SweepAll(s, candidates);
              && (HasRecord(s', c) <==> HasRecord(s, c)) && (HasRecord(s, c) ==> RecordOf(s', c) == RecordOf(s, c))
              && BlobOf(s', c, Deploy) == BlobOf(s, c, Deploy) && BlobOf(s', c, BuildCache) == BlobOf(s, c, BuildCache)
    decreases |candidates|
  {
    if candidates == [] {
      assert !IsCandidate(candidates, c);
    } else {
      hide IsCandidate;
      SweptOnly(s, candidates[..|candidates| - 1], c);
      CandidateBeforeOrLast(candidates, c);
    }
  }

  /** The step does not collect `c`. */
  predicate Spares(step: Step, c: Hash) {
    step.Gc? ==> !IsCandidate(step.report.candidates, c)
  }

  /** `c` is recorded in both stores, with the same record and the same bytes. */
  ghost predicate SameLayer(s: Store, s': Store, c: Hash) {
    && HasRecord(s, c) && HasRecord(s', c) && RecordOf(s', c) == RecordOf(s, c)
    && BlobOf(s', c, Deploy).Some? && BlobOf(s', c, Deploy) == BlobOf(s, c, Deploy)
    && BlobOf(s', c, BuildCache).Some? && BlobOf(s', c, BuildCache) == BlobOf(s, c, BuildCache)
  }

  lemma {:induction false} StepKeepsLayer(sha: seq<byte> -> Hash, s: Store, step: Step, c: Hash)
    requires Inv(sha, s) && Enabled(s, step) && HasRecord(s, c) && Spares(step, c)
    ensures SameLayer(s, Apply(sha, s, step), c)
  {
    hide SweepAll, Publish, IsTagName, Inv;
    RecordIsWhole(sha, s, c);
    match step
    case PublishLayer(meta, deploy, cache, fault) => PublishKeepsLayer(sha, s, meta, deploy, cache, fault, c);
    case Gc(report) => SweptOnly(s, report.candidates, c);
    case _ =>
  }

  /** Publishing a present layer returns early; publishing another leaves this one alone. */
  lemma {:induction false} PublishKeepsLayer(
    sha: seq<byte> -> Hash, s: Store, meta: LayerMeta, deploy: seq<byte>, cache: seq<byte>, fault: PublishFault,
    c: Hash)
    requires SameLayer(s, s, c)
    ensures SameLayer(s, Publish(sha, s, meta, deploy, cache, fault).store, c)
  {
  }

  /**
   * Along every run in which no collection names `c`, its record and its bytes stay as they
   * are, although a blob write overwrites.
   */
  lemma {:induction false} RecordedBytesNeverChange(
    sha: seq<byte> -> Hash, s: Store, steps: seq<Step>, s': Store, c: Hash)
    requires Inv(sha, s) && Leads(sha, s, steps, s') && HasRecord(s, c)
    requires forall k :: 0 <= k < |steps| ==> Spares(steps[k], c)
    ensures SameLayer(s, s', c)
    decreases |steps|
  {
    hide Inv, Enabled, Apply, Spares;
    if steps == [] {
      RecordIsWhole(sha, s, c);
    } else {
      var next := Apply(sha, s, steps[0]);
      StepKeepsLayer(sha, s, steps[0], c);
      StepKeepsInv(sha, s, steps[0]);
      RecordedBytesNeverChange(sha, next, steps[1..], s', c);
    }
  }

  lemma {:induction false} RecordIsWhole(sha: seq<byte> -> Hash, s: Store, c: Hash)
    requires Inv(sha, s) && HasRecord(s, c)
    ensures SameLayer(s, s, c)
  {
    assert RecordInv(sha, s, c);
  }

  /**
   * A publish of a layer whose deploy blob is present returns early and changes nothing. Any
   * other that reports success stored exactly the two artifacts it was given, under a record
   * and an index entry that lead to them, and touched nothing else. So success means that the
   * input resolves to the layer exactly when the blob was absent or the input did so before.
   */
  lemma {:induction false} PublishedIsPulled(
    sha: seq<byte> -> Hash, s: Store, meta: LayerMeta, deploy: seq<byte>, cache: seq<byte>, fault: PublishFault)
    ensures var r, c := Publish(sha, s, meta, deploy, cache, fault), meta.contentHash;
            && (HasLayer(s, c) ==> r.store == s && (r.result == Ok(c) <==> !fault.AtLookup?))
            && (!HasLayer(s, c) ==> (r.result.Ok? <==> fault.NoFault?))
            && (!HasLayer(s, c) && r.result.Ok? ==>
                  && r.result.value == c && HasRecord(r.store, c)
                  && BlobOf(r.store, c, Deploy) == Some(deploy) && BlobOf(r.store, c, BuildCache) == Some(cache)
                  && RecordOf(r.store, c).inputHash == meta.inputHash
                  && RecordOf(r.store, c).sizeDeploy == meta.sizeDeploy
                  && RecordOf(r.store, c).sizeCache == meta.sizeCache)
            && (r.result.Ok? ==>
                  (Resolve(r.store, meta.inputHash) == Some(c) <==>
                     !HasLayer(s, c) || Resolve(s, meta.inputHash) == Some(c)))
            && (forall d: Hash, f :: d != c ==> BlobOf(r.store, d, f) == BlobOf(s, d, f))
            && (forall key :: key != LayerKey(c) && key != IndexKey(meta.inputHash) ==>
                  (key in r.store.meta <==> key in s.meta) && (key in s.meta ==> r.store.meta[key] == s.meta[key]))
  {
  }

  // --- A layer that is stored but never recorded ---

  /** The deploy blob is there and the record is not. */
  predicate Stranded(s: Store, c: Hash) {
    HasLayer(s, c) && !HasRecord(s, c)
  }

  lemma {:induction false} StepKeepsStranded(sha: seq<byte> -> Hash, s: Store, step: Step, c: Hash)
    requires Stranded(s, c) && Spares(step, c)
    ensures Stranded(Apply(sha, s, step), c)
  {
    hide SweepAll, IsTagName;
    match step
    case Gc(report) =>
      SweptOnly(s, report.candidates, c);
      assert BlobOf(SweepAll(s, report.candidates), c, Deploy) == BlobOf(s, c, Deploy);
    case _ =>
  }

  /**
   * A stranded layer stays so along every run in which no collection names it, and no report
   * made on the way names it; no input resolves to it.
   */
  lemma {:induction false} StrandedForGood(sha: seq<byte> -> Hash, s: Store, steps: seq<Step>, s': Store, c: Hash)
    requires Inv(sha, s) && Leads(sha, s, steps, s') && Stranded(s, c)
    requires forall k :: 0 <= k < |steps| ==> Spares(steps[k], c)
    ensures Stranded(s', c)
    ensures forall i: Hash :: Resolve(s', i) != Some(c)
    ensures forall report :: IsReport(s', report) ==> !IsCandidate(report.candidates, c)
    decreases |steps|
  {
    hide Inv, Enabled, Apply, Spares;
    if steps == [] {
      NothingLeadsToStranded(sha, s, c);
    } else {
      StepKeepsStranded(sha, s, steps[0], c);
      StepKeepsInv(sha, s, steps[0]);
      StrandedForGood(sha, Apply(sha, s, steps[0]), steps[1..], s', c);
    }
  }

  lemma {:induction false} NothingLeadsToStranded(sha: seq<byte> -> Hash, s: Store, c: Hash)
    requires Inv(sha, s) && Stranded(s, c)
    ensures forall i: Hash :: Resolve(s, i) != Some(c)
    ensures forall report :: IsReport(s, report) ==> !IsCandidate(report.candidates, c)
  {
    forall i: Hash
      ensures Resolve(s, i) != Some(c)
    {
      assert IndexInv(s, i);
    }
  }

  /**
   * A publish that fails between its deploy blob and its record: from then on, whatever
   * happens short of a collection naming the layer, every retry that can reach the store
   * reports success, changes nothing, and leaves the layer unresolvable.
   */
  lemma {:induction false} FailedPublishNeverHeals(
    sha: seq<byte> -> Hash, s: Store, meta: LayerMeta, deploy: seq<byte>, cache: seq<byte>, fault: PublishFault,
    steps: seq<Step>, s': Store, retry: LayerMeta, deploy': seq<byte>, cache': seq<byte>, fault': PublishFault)
    requires Inv(sha, s) && !HasLayer(s, meta.contentHash)
    requires fault.AtRecord? || (fault.AtBlobs? && fault.deployStored)
    requires Leads(sha, Publish(sha, s, meta, deploy, cache, fault).store, steps, s')
    requires forall k :: 0 <= k < |steps| ==> Spares(steps[k], meta.contentHash)
    requires retry.contentHash == meta.contentHash && !fault'.AtLookup?
    ensures var c := meta.contentHash;
            && Publish(sha, s', retry, deploy', cache', fault') == Outcome(s', Ok(c))
            && forall i: Hash :: Resolve(s', i) != Some(c)
  {
    hide Inv, Leads, Spares;
    var after := Publish(sha, s, meta, deploy, cache, fault).store;
    PublishKeepsInv(sha, s, meta, deploy, cache, fault);
    NoRecordWithoutBlob(sha, s, meta.contentHash);
    assert Stranded(after, meta.contentHash);
    StrandedForGood(sha, after, steps, s', meta.contentHash);
  }

  /** What each fault leaves behind of a layer that was not there. */
  lemma {:induction false} PublishLeaves(
    sha: seq<byte> -> Hash, s: Store, meta: LayerMeta, deploy: seq<byte>, cache: seq<byte>, fault: PublishFault)
    requires !HasLayer(s, meta.contentHash)
    ensures var r, c := Publish(sha, s, meta, deploy, cache, fault).store, meta.contentHash;
            && (fault.AtLookup? ==> r == s)
            && BlobOf(r, c, Deploy) == (if fault.AtLookup? || (fault.AtBlobs? && !fault.deployStored) then None
                                        else Some(deploy))
            && BlobOf(r, c, BuildCache) == (if fault.AtLookup? || (fault.AtBlobs? && !fault.cacheStored)
                                            then BlobOf(s, c, BuildCache) else Some(cache))
            && (fault.AtLookup? || fault.AtBlobs? || fault.AtRecord? ==> r.meta == s.meta)
            && (fault.AtIndex? ==> HasRecord(r, c) && forall i: Hash :: Resolve(r, i) == Resolve(s, i))
  {
  }

  // --- Tags ---

  function TagOf(s: Store, name: string): Option<Hash> {
    if TagKey(name) in s.meta && s.meta[TagKey(name)].HashDoc? then Some(s.meta[TagKey(name)].hash) else None
  }

  /** Every key but this one, and every blob, is as it was. */
  ghost predicate OnlyKeyChanged(s: Store, s': Store, changed: Key) {
    && s'.blobs == s.blobs
    && forall key :: key != changed ==>
         (key in s'.meta <==> key in s.meta) && (key in s.meta ==> s'.meta[key] == s.meta[key])
  }

  /**
   * Tagging succeeds exactly for an accepted name and a stored manifest; then the tag leads
   * to that manifest and nothing else changes. Otherwise nothing changes and the error names
   * the check that failed, the name first.
   */
  lemma {:induction false} TaggingExactly(s: Store, name: string, hash: Hash)
    ensures var r := CreateTag(s, name, hash);
            && (r.result == Ok(()) <==> IsTagName(name) && HasManifest(s, hash))
            && (r.result.Ok? ==> TagOf(r.store, name) == Some(hash) && OnlyKeyChanged(s, r.store, TagKey(name)))
            && (!r.result.Ok? ==>
                  r.store == s && r.result == if IsTagName(name) then NotFound else InvalidTagName)
  {
    hide IsTagName;
  }

  /** A tag's value after a run: set by accepted taggings of its name, cleared by untagging it. */
  function LastTagged(sha: seq<byte> -> Hash, s: Store, steps: seq<Step>, name: string, value: Option<Hash>)
    : Option<Hash>
    decreases |steps|
  {
    if steps == [] then value
    else
      var next := match steps[0]
        case Tag(n, hash) => if n == name && IsTagName(n) && HasManifest(s, hash) then Some(hash) else value
        case Untag(n) => if n == name then None else value
        case _ => value;
      LastTagged(sha, Apply(sha, s, steps[0]), steps[1..], name, next)
  }

  /** Collections leave every manifest, tag and catalogue entry alone. */
  lemma {:induction false} CollectionKeepsDocuments(s: Store, candidates: seq<GcCandidate>, key: Key)
    requires !key.LayerKey? && !key.IndexKey?
    ensures var s' := SweepAll(s, candidates);
            (key in s'.meta <==> key in s.meta) && (key in s.meta ==> s'.meta[key] == s.meta[key])
    decreases |candidates|
  {
    if candidates == [] {
    } else {
      CollectionKeepsDocuments(s, candidates[..|candidates| - 1], key);
    }
  }

  /** Along every run, whatever is published or collected, a tag leads where it was last accepted to. */
  lemma {:induction false} TagsFollowTheRun(sha: seq<byte> -> Hash, s: Store, steps: seq<Step>, s': Store, name: string)
    requires Leads(sha, s, steps, s')
    ensures TagOf(s', name) == LastTagged(sha, s, steps, name, TagOf(s, name))
    decreases |steps|
  {
    hide Enabled, IsTagName, Apply;
    if steps == [] {
    } else {
      TagStep(sha, s, steps[0], name);
      TagsFollowTheRun(sha, Apply(sha, s, steps[0]), steps[1..], s', name);
    }
  }

  lemma {:induction false} TagStep(sha: seq<byte> -> Hash, s: Store, step: Step, name: string)
    ensures TagOf(Apply(sha, s, step), name) ==
              match step
              case Tag(n, hash) =>
                if n == name && IsTagName(n) && HasManifest(s, hash) then Some(hash) else TagOf(s, name)
              case Untag(n) => if n == name then None else TagOf(s, name)
              case _ => TagOf(s, name)
  {
    hide SweepAll, IsTagName;
    if step.Gc? {
      CollectionKeepsDocuments(s, step.report.candidates, TagKey(name));
    }
  }

  /** A name grows by allowed characters only, from a letter or a digit. */
  lemma {:induction false} TagNamesGrow(name: string, c: char)
    ensures !IsTagName("")
    ensures IsTagName([c]) <==> c in "abcdefghijklmnopqrstuvwxyz" || c in "0123456789"
    ensures name != "" ==>
              (IsTagName(name + [c]) <==>
                 IsTagName(name) && (c in "abcdefghijklmnopqrstuvwxyz" || c in "0123456789" || c in "._-"))
  {
    LettersAndDigits(c);
    if name != "" {
      var longer := name + [c];
      assert longer[0] == name[0] && longer[|name|] == c;
      assert forall i :: 0 <= i < |name| ==> longer[i] == name[i];
      assert c in "._-" <==> c in {'.', '_', '-'};
    }
  }

  lemma LettersAndDigits(c: char)
    ensures IsTagStart(c) <==> c in "abcdefghijklmnopqrstuvwxyz" || c in "0123456789"
  {
    Letters(c);
    Digits(c);
  }

  lemma Letters(c: char)
    ensures 'a' <= c <= 'z' <==> c in "abcdefghijklmnopqrstuvwxyz"
  {
    var letters := "abcdefghijklmnopqrstuvwxyz";
    if 'a' <= c <= 'z' {
      assert letters[(c - 'a') as int] == c;
    }
  }

  lemma Digits(c: char)
    ensures '0' <= c <= '9' <==> c in "0123456789"
  {
    var digits := "0123456789";
    if '0' <= c <= '9' {
      assert digits[(c - '0') as int] == c;
    }
  }

  // --- Storing a manifest ---

  /** The manifest is stored either way; success means that it is catalogued too. */
  lemma {:induction false} StoredManifestIs(s: Store, m: Manifest, hash: Hash, buildId: string, catalogued: bool)
    ensures var r := LayerStore.PublishManifest(s, m, hash, buildId, catalogued);
            && (r.result == Ok(hash) <==> catalogued) && (r.result == BackendError <==> !catalogued)
            && HasManifest(r.store, hash) && r.store.meta[ManifestKey(hash)].body == m
            && (catalogued ==> BuildKey(buildId) in r.store.meta
                               && r.store.meta[BuildKey(buildId)] == CatalogDoc(CatalogEntry(buildId, hash, m.layers)))
            && r.store.blobs == s.blobs
            && forall key :: key != ManifestKey(hash) && !(catalogued && key == BuildKey(buildId)) ==>
                 (key in r.store.meta <==> key in s.meta) && (key in s.meta ==> r.store.meta[key] == s.meta[key])
  {
  }

  // --- Manifests only grow ---

  lemma {:induction false} SweepAllKeepsManifests(s: Store, candidates: seq<GcCandidate>, h: Hash)
    ensures var s' := SweepAll(s, candidates);
            (ManifestKey(h) in s'.meta <==> ManifestKey(h) in s.meta)
            && (ManifestKey(h) in s.meta ==> s'.meta[ManifestKey(h)] == s.meta[ManifestKey(h)])
    decreases |candidates|
  {
    if candidates == [] {
    } else {
      SweepAllKeepsManifests(s, candidates[..|candidates| - 1], h);
    }
  }

  lemma {:induction false} ManifestsAreKept(sha: seq<byte> -> Hash, s: Store, steps: seq<Step>, s': Store, h: Hash)
    requires Leads(sha, s, steps, s') && HasManifest(s, h)
    ensures HasManifest(s', h) && s'.meta[ManifestKey(h)] == s.meta[ManifestKey(h)]
    decreases |steps|
  {
    if steps == [] {
    } else {
      if steps[0].Gc? {
        SweepAllKeepsManifests(s, steps[0].report.candidates, h);
      }
      ManifestsAreKept(sha, Apply(sha, s, steps[0]), steps[1..], s', h);
    }
  }

  lemma {:induction false} SameReferences(s: Store, candidates: seq<GcCandidate>, c: Hash)
    ensures Referenced(SweepAll(s, candidates), c) <==> Referenced(s, c)
  {
    var s' := SweepAll(s, candidates);
    forall h: Hash
      ensures HasManifest(s', h) <==> HasManifest(s, h)
      ensures HasManifest(s, h) ==> s'.meta[ManifestKey(h)] == s.meta[ManifestKey(h)]
    {
      SweepAllKeepsManifests(s, candidates, h);
    }
  }

  // --- Collection is safe ---

  /** A layer some stored manifest lists has lost a blob it had. */
  ghost predicate TakesLiveBlob(s: Store, candidates: seq<GcCandidate>) {
    exists c: Hash, f :: Referenced(s, c) && BlobOf(s, c, f).Some? && BlobOf(SweepAll(s, candidates), c, f).None?
  }

  /** Exactly when executing a report, fresh or stale, takes a blob of a referenced layer. */
  lemma {:induction false} TakesLiveBlobExactlyWhen(s: Store, candidates: seq<GcCandidate>)
    ensures TakesLiveBlob(s, candidates) <==>
              exists c: Hash, f :: Referenced(s, c) && IsCandidate(candidates, c) && BlobOf(s, c, f).Some?
  {
    var s' := SweepAll(s, candidates);
    forall c: Hash, f | BlobOf(s, c, f).Some?
      ensures BlobOf(s', c, f).None? <==> IsCandidate(candidates, c)
    {
      SweptOnly(s, candidates, c);
      assert f == Deploy || f == BuildCache;
    }
    if c: Hash, f :| Referenced(s, c) && IsCandidate(candidates, c) && BlobOf(s, c, f).Some? {
      assert BlobOf(s', c, f).None?;
    }
  }

  /**
   * A report taken in `s` and executed in any later `s'` takes nothing a manifest needs,
   * provided no manifest published in between lists a candidate.
   */
  lemma {:induction false} CollectionSparesLiveLayers(
    sha: seq<byte> -> Hash, s: Store, report: GcReport, steps: seq<Step>, s': Store)
    requires IsReport(s, report) && Leads(sha, s, steps, s')
    requires forall h: Hash, c: Hash ::
               HasManifest(s', h) && !HasManifest(s, h) && c in s'.meta[ManifestKey(h)].body.layers ==>
                 !IsCandidate(report.candidates, c)
    ensures forall c: Hash :: Referenced(s', c) ==> !IsCandidate(report.candidates, c)
    ensures !TakesLiveBlob(s', report.candidates)
  {
    forall c: Hash | Referenced(s', c)
      ensures !IsCandidate(report.candidates, c)
    {
      var h: Hash :| HasManifest(s', h) && c in s'.meta[ManifestKey(h)].body.layers;
      if HasManifest(s, h) {
        ManifestsAreKept(sha, s, steps, s', h);
        assert Referenced(s, c);
      }
    }
    TakesLiveBlobExactlyWhen(s', report.candidates);
  }

  // --- Collection is complete, and its figures add up ---

  lemma {:induction false} CollectionIsComplete(s: Store, report: GcReport, again: GcReport)
    requires IsReport(s, report) && IsReport(SweepAll(s, report.candidates), again)
    ensures forall c: Hash :: HasRecord(SweepAll(s, report.candidates), c) <==> HasRecord(s, c) && Referenced(s, c)
    ensures again.candidates == [] && again.totalReclaimable == 0
  {
    var s' := SweepAll(s, report.candidates);
    forall c: Hash
      ensures HasRecord(s', c) <==> HasRecord(s, c) && Referenced(s, c)
    {
      SweptOnly(s, report.candidates, c);
      if IsCandidate(report.candidates, c) {
        var k :| 0 <= k < |report.candidates| && report.candidates[k].content == c;
      }
    }
    if again.candidates != [] {
      SameReferences(s, report.candidates, again.candidates[0].content);
    }
  }

  /** Compressed size a document accounts for. */
  function SizeOf(doc: Doc): nat {
    if doc.LayerDoc? then doc.meta.sizeDeploy + doc.meta.sizeCache else 0
  }

  /** Bytes recorded in all documents. */
  ghost function RecordedBytes(meta: map<Key, Doc>): nat
    decreases |meta|
  {
    if meta.Keys == {} then 0
    else
      var key :| key in meta.Keys;
      SmallerWithout(meta, key);
      SizeOf(meta[key]) + RecordedBytes(meta - {key})
  }

  lemma {:induction false} SmallerWithout(meta: map<Key, Doc>, key: Key)
    requires key in meta
    ensures |meta - {key}| < |meta|
  {
    assert (meta - {key}).Keys == meta.Keys - {key};
  }

  lemma {:induction false} RecordedBytesWithout(meta: map<Key, Doc>, key: Key)
    requires key in meta
    ensures RecordedBytes(meta) == SizeOf(meta[key]) + RecordedBytes(meta - {key})
    decreases |meta|
  {
    hide SizeOf;
    var pick :| pick in meta.Keys && RecordedBytes(meta) == SizeOf(meta[pick]) + RecordedBytes(meta - {pick});
    if pick != key {
      SmallerWithout(meta, pick);
      SmallerWithout(meta, key);
      RecordedBytesWithout(meta - {pick}, key);
      RecordedBytesWithout(meta - {key}, pick);
      assert meta - {pick} - {key} == meta - {key} - {pick};
    }
  }

  lemma {:induction false} SweepTakesRecordedBytes(s: Store, c: Hash)
    requires HasRecord(s, c) && WellTyped(s)
    ensures var m := RecordOf(s, c);
            RecordedBytes(s.meta) == RecordedBytes(Sweep(s, c).meta) + m.sizeDeploy + m.sizeCache
  {
    hide RecordedBytes;
    var index := IndexKey(RecordOf(s, c).inputHash);
    RecordedBytesWithout(s.meta, LayerKey(c));
    var rest := s.meta - {LayerKey(c)};
    if index in s.meta {
      RecordedBytesWithout(rest, index);
      assert rest - {index} == Sweep(s, c).meta;
    } else {
      assert rest == Sweep(s, c).meta;
    }
  }

  /** Recorded bytes are conserved: what a fresh report promises is exactly what its execution removes. */
  lemma {:induction false} CollectionConservesBytes(sha: seq<byte> -> Hash, s: Store, report: GcReport, n: nat)
    requires Inv(sha, s) && IsReport(s, report) && n <= |report.candidates|
    ensures var swept := report.candidates[..n];
            RecordedBytes(s.meta) == RecordedBytes(SweepAll(s, swept).meta) + BytesOf(swept)
    ensures n == |report.candidates| ==>
              RecordedBytes(s.meta) == RecordedBytes(SweepAll(s, report.candidates).meta) + report.totalReclaimable
    decreases n
  {
    hide RecordedBytes, Sweep, RecordInv, IndexInv, TagInv, Referenced, SizeOf;
    var cs := report.candidates;
    if n == 0 {
    } else {
      CollectionConservesBytes(sha, s, report, n - 1);
      var c, s1 := cs[n - 1].content, SweepAll(s, cs[..n - 1]);
      assert cs[..n][..n - 1] == cs[..n - 1];
      SweptOnly(s, cs[..n - 1], c);
      SweepAllKeepsInv(sha, s, cs[..n - 1]);
      SweepTakesRecordedBytes(s1, c);
    }
    assert cs[..|cs|] == cs;
  }

  // --- What happens to index entries ---

  predicate Names(s: Store, c: Hash, i: Hash) {
    HasRecord(s, c) && RecordOf(s, c).inputHash == i
  }

  ghost predicate NamedByCandidate(s: Store, candidates: seq<GcCandidate>, i: Hash) {
    exists k :: 0 <= k < |candidates| && Names(s, candidates[k].content, i)
  }

  lemma {:induction false} NamedSplit(s: Store, candidates: seq<GcCandidate>, i: Hash)
    requires candidates != []
    ensures var n := |candidates| - 1;
            && (NamedByCandidate(s, candidates, i) <==>
                  NamedByCandidate(s, candidates[..n], i) || Names(s, candidates[n].content, i))
            && (IsCandidate(candidates[..n], candidates[n].content) && Names(s, candidates[n].content, i) ==>
                  NamedByCandidate(s, candidates[..n], i))
  {
    var n := |candidates| - 1;
    assert forall k :: 0 <= k < n ==> candidates[..n][k] == candidates[k];
    if k :| 0 <= k < |candidates| && Names(s, candidates[k].content, i) {
      assert k == n || Names(s, candidates[..n][k].content, i);
    }
  }

  /** An index entry survives exactly when no candidate's record names its input, whatever it points to. */
  lemma {:induction false} IndexSurvivesExactlyWhen(s: Store, candidates: seq<GcCandidate>, i: Hash)
    ensures Resolve(SweepAll(s, candidates), i) == if NamedByCandidate(s, candidates, i) then None else Resolve(s, i)
    decreases |candidates|
  {
    if candidates == [] {
    } else {
      var n := |candidates| - 1;
      IndexSurvivesExactlyWhen(s, candidates[..n], i);
      SweptOnly(s, candidates[..n], candidates[n].content);
      NamedSplit(s, candidates, i);
    }
  }

  /** `input` was built twice with different results; only the second is released. */
  function Superseded(sha: seq<byte> -> Hash, first: Hash, second: Hash, input: Hash): Store {
    var m := LayerMeta(input, first, 1, 1, first, first);
    var s1 := Publish(sha, EMPTY, m, [], [], NoFault).store;
    var s2 := Publish(sha, s1, m.(contentHash := second), [], [], NoFault).store;
    LayerStore.PublishManifest(s2, Manifest("release", [second]), input, "build", true).store
  }

  /** Collecting a superseded layer evicts the index entry of the live layer that replaced it. */
  lemma {:induction false} LiveIndexEntryEvicted(
    sha: seq<byte> -> Hash, first: Hash, second: Hash, input: Hash, report: GcReport)
    requires first != second && IsReport(Superseded(sha, first, second, input), report)
    ensures var s := Superseded(sha, first, second, input);
            && Resolve(s, input) == Some(second) && Referenced(s, second)
            && HasRecord(SweepAll(s, report.candidates), second)
            && Resolve(SweepAll(s, report.candidates), input) == None
  {
    var s := Superseded(sha, first, second, input);
    SupersededShape(sha, first, second, input);
    assert IsCandidate(report.candidates, first);
    var k :| 0 <= k < |report.candidates| && report.candidates[k].content == first;
    assert Names(s, report.candidates[k].content, input);
    IndexSurvivesExactlyWhen(s, report.candidates, input);
    SweptOnly(s, report.candidates, second);
  }

  lemma {:induction false} SupersededShape(sha: seq<byte> -> Hash, first: Hash, second: Hash, input: Hash)
    requires first != second
    ensures var s := Superseded(sha, first, second, input);
            && Resolve(s, input) == Some(second) && Referenced(s, second) && !Referenced(s, first)
            && HasRecord(s, second) && Names(s, first, input)
  {
    var s := Superseded(sha, first, second, input);
    assert forall h: Hash :: HasManifest(s, h) ==> h == input;
    assert HasManifest(s, input) && s.meta[ManifestKey(input)].body.layers == [second];
  }
}

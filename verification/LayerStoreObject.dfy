/** The in-memory backend and the layer store as objects updated in place. */
module LayerStoreObject {
  import opened Basics
  import opened Hex
  import opened LayerStore
  import opened MetaKeys
  import LayerStoreLaws

  function NamespaceOf(key: Key): Namespace {
    match key
    case LayerKey(_) => Layers
    case IndexKey(_) => Index
    case ManifestKey(_) => Manifests
    case TagKey(_) => Tags
    case BuildKey(_) => Builds
  }

  /** What follows the namespace in the rendered key; hashes appear in hex. */
  function NameOf(key: Key): string {
    match key
    case LayerKey(c) => ToText(c)
    case IndexKey(i) => ToText(i)
    case ManifestKey(h) => ToText(h)
    case TagKey(name) => name
    case BuildKey(id) => id
  }

  lemma {:induction false} KeyByName(a: Key, b: Key)
    requires NamespaceOf(a) == NamespaceOf(b) && NameOf(a) == NameOf(b)
    ensures a == b
  {
    match a
    case LayerKey(c) => TextInjective(c, b.content);
    case IndexKey(i) => TextInjective(i, b.input);
    case ManifestKey(h) => TextInjective(h, b.manifest);
    case TagKey(_) =>
    case BuildKey(_) =>
  }

  ghost predicate Named(keys: set<Key>, ns: Namespace, name: string) {
    exists key :: key in keys && NamespaceOf(key) == ns && NameOf(key) == name
  }

  ghost predicate Lists(keys: set<Key>, ns: Namespace, names: seq<string>) {
    && (forall key :: key in keys && NamespaceOf(key) == ns ==> NameOf(key) in names)
    && (forall k :: 0 <= k < |names| ==> Named(keys, ns, names[k]))
    && (forall j, k :: 0 <= j < k < |names| ==> names[j] != names[k])
  }

  class InMemoryBackend {
    var blobs: map<(Hash, Format), seq<byte>>
    var meta: map<Key, Doc>

    constructor ()
      ensures State() == EMPTY
    {
      blobs, meta := map[], map[];
    }

    ghost function State(): Store
      reads this
    {
      Store(blobs, meta)
    }

    /** Listing order is unspecified, as for any hash map. */
    method ListMeta(ns: Namespace) returns (names: seq<string>)
      ensures Lists(meta.Keys, ns, names)
    {
      names := [];
      var todo := meta.Keys;
      while todo != {}
        invariant todo <= meta.Keys
        invariant Lists(meta.Keys - todo, ns, names)
        decreases todo
      {
        var key :| key in todo;
        ListGrows(meta.Keys - todo, ns, names, key);
        if NamespaceOf(key) == ns {
          names := names + [NameOf(key)];
        }
        assert meta.Keys - (todo - {key}) == meta.Keys - todo + {key};
        todo := todo - {key};
      }
      assert meta.Keys - todo == meta.Keys;
    }
  }

  lemma {:induction false} ListGrows(keys: set<Key>, ns: Namespace, names: seq<string>, key: Key)
    requires Lists(keys, ns, names) && key !in keys
    ensures Lists(keys + {key}, ns, if NamespaceOf(key) == ns then names + [NameOf(key)] else names)
  {
    var longer := if NamespaceOf(key) == ns then names + [NameOf(key)] else names;
    forall k | 0 <= k < |longer|
      ensures Named(keys + {key}, ns, longer[k])
      ensures k < |names| && NamespaceOf(key) == ns ==> longer[k] != NameOf(key)
    {
      if k < |names| {
        assert Named(keys, ns, names[k]);
        var other :| other in keys && NamespaceOf(other) == ns && NameOf(other) == names[k];
        assert other in keys + {key};
        if NamespaceOf(key) == ns && NameOf(other) == NameOf(key) {
          KeyByName(other, key);
        }
      } else {
        assert key in keys + {key};
      }
    }
  }

  /** The layers listed by the manifests in `hashes`. */
  ghost predicate ListedBy(s: Store, hashes: set<Hash>, c: Hash) {
    exists h: Hash :: h in hashes && HasManifest(s, h) && c in s.meta[ManifestKey(h)].body.layers
  }

  /** The report covers exactly the listed layer records that are not live. */
  ghost predicate Covers(s: Store, names: seq<string>, report: GcReport) {
    && (forall k :: 0 <= k < |report.candidates| ==>
          var c := report.candidates[k];
          && HasRecord(s, c.content) && !Referenced(s, c.content) && ToText(c.content) in names
          && c.sizeDeploy == RecordOf(s, c.content).sizeDeploy && c.sizeCache == RecordOf(s, c.content).sizeCache)
    && (forall j, k :: 0 <= j < k < |report.candidates| ==>
          report.candidates[j].content != report.candidates[k].content)
    && (forall c: Hash :: HasRecord(s, c) && !Referenced(s, c) && ToText(c) in names ==>
          IsCandidate(report.candidates, c))
    && report.totalReclaimable == BytesOf(report.candidates)
  }

  /** A record for `input`, with both blobs present and matching its checksums. */
  ghost predicate IsIntact(sha: seq<byte> -> Hash, s: Store, c: Hash, input: Hash) {
    && HasRecord(s, c) && RecordOf(s, c).inputHash == input && RecordOf(s, c).contentHash == c
    && BlobOf(s, c, Deploy).Some? && sha(BlobOf(s, c, Deploy).value) == RecordOf(s, c).checksumDeploy
    && BlobOf(s, c, BuildCache).Some? && sha(BlobOf(s, c, BuildCache).value) == RecordOf(s, c).checksumCache
  }

  lemma {:induction false} FoundIsIntact(sha: seq<byte> -> Hash, s: Store, input: Hash)
    requires LayerStoreLaws.Inv(sha, s)
    ensures Resolve(s, input).None? <==> IndexKey(input) !in s.meta
    ensures Resolve(s, input).Some? ==> IsIntact(sha, s, Resolve(s, input).value, input)
  {
    assert LayerStoreLaws.IndexInv(s, input);
    if Resolve(s, input).Some? {
      assert LayerStoreLaws.RecordInv(sha, s, Resolve(s, input).value);
    }
    if IndexKey(input) in s.meta {
      assert Fits(IndexKey(input), s.meta[IndexKey(input)]);
    }
  }

  class LayerStoreService {
    const backend: InMemoryBackend

    constructor (b: InMemoryBackend)
      ensures backend == b
    {
      backend := b;
    }

    method PublishLayer(
      sha: seq<byte> -> Hash, meta: LayerMeta, deploy: seq<byte>, cache: seq<byte>, fault: PublishFault)
      returns (r: StoreResult<Hash>)
      modifies backend
      ensures Outcome(backend.State(), r) == Publish(sha, old(backend.State()), meta, deploy, cache, fault)
    {
      var c := meta.contentHash;
      if fault.AtLookup? {
        return BackendError;
      }
      if (c, Deploy) in backend.blobs {
        return Ok(c);
      }
      if !fault.AtBlobs? || fault.deployStored {
        backend.blobs := backend.blobs[(c, Deploy) := deploy];
      }
      if !fault.AtBlobs? || fault.cacheStored {
        backend.blobs := backend.blobs[(c, BuildCache) := cache];
      }
      if fault.AtBlobs? || fault.AtRecord? {
        return BackendError;
      }
      var record := meta.(checksumDeploy := sha(deploy), checksumCache := sha(cache));
      backend.meta := backend.meta[LayerKey(c) := LayerDoc(record)];
      if fault.AtIndex? {
        return BackendError;
      }
      backend.meta := backend.meta[IndexKey(meta.inputHash) := HashDoc(c)];
      return Ok(c);
    }

    /** In a sound store, what is found is a complete, intact layer built from that input. */
    method ResolveInputHash(input: Hash, ghost sha: seq<byte> -> Hash) returns (content: Option<Hash>)
      ensures content == Resolve(backend.State(), input)
      ensures LayerStoreLaws.Inv(sha, backend.State()) ==>
                && (content.None? <==> IndexKey(input) !in backend.meta)
                && (content.Some? ==> IsIntact(sha, backend.State(), content.value, input))
    {
      ghost var s := backend.State();
      if LayerStoreLaws.Inv(sha, s) {
        FoundIsIntact(sha, s, input);
      }
      if IndexKey(input) in backend.meta && backend.meta[IndexKey(input)].HashDoc? {
        return Some(backend.meta[IndexKey(input)].hash);
      }
      return None;
    }

    method StoreManifest(m: Manifest, hash: Hash, buildId: string, catalogued: bool) returns (r: StoreResult<Hash>)
      modifies backend
      ensures Outcome(backend.State(), r) == PublishManifest(old(backend.State()), m, hash, buildId, catalogued)
      ensures HasManifest(backend.State(), hash) && backend.meta[ManifestKey(hash)].body == m
      ensures r == (if catalogued then Ok(hash) else BackendError)
    {
      backend.meta := backend.meta[ManifestKey(hash) := ManifestDoc(m)];
      if !catalogued {
        return BackendError;
      }
      backend.meta := backend.meta[BuildKey(buildId) := CatalogDoc(CatalogEntry(buildId, hash, m.layers))];
      return Ok(hash);
    }

    method SetTag(name: string, hash: Hash) returns (r: StoreResult<()>)
      modifies backend
      ensures Outcome(backend.State(), r) == CreateTag(old(backend.State()), name, hash)
      ensures r == Ok(()) <==> IsTagName(name) && HasManifest(old(backend.State()), hash)
      ensures r.Ok? ==>
                && LayerStoreLaws.TagOf(backend.State(), name) == Some(hash)
                && LayerStoreLaws.OnlyKeyChanged(old(backend.State()), backend.State(), TagKey(name))
      ensures !r.Ok? ==>
                && backend.State() == old(backend.State())
                && r == if IsTagName(name) then NotFound else InvalidTagName
    {
      LayerStoreLaws.TaggingExactly(backend.State(), name, hash);
      if !IsTagName(name) {
        return InvalidTagName;
      }
      if ManifestKey(hash) !in backend.meta || !backend.meta[ManifestKey(hash)].ManifestDoc? {
        return NotFound;
      }
      backend.meta := backend.meta[TagKey(name) := HashDoc(hash)];
      return Ok(());
    }

    /** The tag is gone, everything else stays, and a sound store stays sound. */
    method RemoveTag(name: string, ghost sha: seq<byte> -> Hash)
      modifies backend
      ensures backend.State() == DeleteTag(old(backend.State()), name)
      ensures TagKey(name) !in backend.meta && backend.blobs == old(backend.blobs)
      ensures forall key :: key != TagKey(name) ==>
                && (key in backend.meta <==> key in old(backend.meta))
                && (key in backend.meta ==> backend.meta[key] == old(backend.meta[key]))
      ensures LayerStoreLaws.Inv(sha, old(backend.State())) ==> LayerStoreLaws.Inv(sha, backend.State())
    {
      hide LayerStoreLaws.Inv;
      ghost var s := backend.State();
      backend.meta := backend.meta - {TagKey(name)};
      if LayerStoreLaws.Inv(sha, s) {
        LayerStoreLaws.ManifestKeepsInv(sha, s, LayerStoreLaws.Untag(name));
      }
    }

    /** Phases 1 and 2 of marking: the manifests tags point to, then all stored manifests. */
    method ManifestHashes() returns (hashes: set<Hash>)
      ensures forall h: Hash :: HasManifest(backend.State(), h) ==> h in hashes
    {
      hide FromText, ToText;
      hashes := {};
      var tags := backend.ListMeta(Tags);
      for k := 0 to |tags| {
        var key := TagKey(tags[k]);
        if key in backend.meta && backend.meta[key].HashDoc? {
          hashes := hashes + {backend.meta[key].hash};
        }
      }
      var names := backend.ListMeta(Manifests);
      for k := 0 to |names|
        invariant forall j :: 0 <= j < k && FromText(names[j]).Some? ==> FromText(names[j]).value in hashes
      {
        var hash := FromText(names[k]);
        if hash.Some? {
          hashes := hashes + {hash.value};
        }
      }
      forall h: Hash | HasManifest(backend.State(), h)
        ensures h in hashes
      {
        assert NameOf(ManifestKey(h)) in names;
        HashText(h, "");
      }
    }

    /** Phase 3: every layer a manifest lists is live. */
    method LiveSet(hashes: set<Hash>) returns (live: set<Hash>)
      ensures forall c: Hash :: c in live <==> ListedBy(backend.State(), hashes, c)
    {
      live := {};
      var todo := hashes;
      while todo != {}
        invariant todo <= hashes
        invariant forall c: Hash :: c in live <==> ListedBy(backend.State(), hashes - todo, c)
        decreases todo
      {
        var h :| h in todo;
        ghost var before := live;
        if ManifestKey(h) in backend.meta && backend.meta[ManifestKey(h)].ManifestDoc? {
          live := live + set c | c in backend.meta[ManifestKey(h)].body.layers;
        }
        forall c: Hash
          ensures c in live <==> ListedBy(backend.State(), hashes - (todo - {h}), c)
        {
          ListedGrows(backend.State(), hashes - todo, h, c);
          assert hashes - (todo - {h}) == hashes - todo + {h};
        }
        todo := todo - {h};
      }
      assert hashes - todo == hashes;
    }

    method GcCandidates() returns (report: GcReport)
      requires WellTyped(backend.State())
      ensures IsReport(backend.State(), report)
    {
      var hashes := ManifestHashes();
      var live := LiveSet(hashes);
      ghost var s := backend.State();
      assert forall c: Hash :: c in live <==> Referenced(s, c);
      report := GcReport([], 0);
      var names := backend.ListMeta(Layers);
      for k := 0 to |names|
        invariant Covers(s, names[..k], report)
      {
        var content := FromText(names[k]);
        assert Named(s.meta.Keys, Layers, names[k]);
        ghost var key :| key in s.meta.Keys && NamespaceOf(key) == Layers && NameOf(key) == names[k];
        HashText(key.content, "");
        ghost var before := report;
        if content.Some? && content.value !in live {
          if LayerKey(content.value) in backend.meta && backend.meta[LayerKey(content.value)].LayerDoc? {
            var meta := backend.meta[LayerKey(content.value)].meta;
            report := GcReport(
              report.candidates + [GcCandidate(content.value, meta.sizeDeploy, meta.sizeCache)],
              report.totalReclaimable + meta.sizeDeploy + meta.sizeCache);
          }
        }
        CoversGrows(s, names, k, before, key.content);
      }
      assert names[..|names|] == names;
      forall c: Hash | HasRecord(s, c)
        ensures ToText(c) in names
      {
        assert NameOf(LayerKey(c)) in names;
      }
    }

    /** Blobs first, then the index entry the record names, then the record. */
    method DeleteLayer(c: Hash)
      modifies backend
      ensures backend.State() == Sweep(old(backend.State()), c)
    {
      backend.blobs := backend.blobs - {(c, Deploy)};
      backend.blobs := backend.blobs - {(c, BuildCache)};
      if LayerKey(c) in backend.meta && backend.meta[LayerKey(c)].LayerDoc? {
        backend.meta := backend.meta - {IndexKey(backend.meta[LayerKey(c)].meta.inputHash)};
      }
      backend.meta := backend.meta - {LayerKey(c)};
      assert backend.State() == Sweep(old(backend.State()), c);
    }

    method GcExecute(report: GcReport) returns (summary: GcSummary)
      modifies backend
      ensures backend.State() == SweepAll(old(backend.State()), report.candidates)
      ensures summary == GcSummary(2 * |report.candidates|, BytesOf(report.candidates))
    {
      hide Sweep;
      var cs := report.candidates;
      summary := GcSummary(0, 0);
      for k := 0 to |cs|
        invariant backend.State() == SweepAll(old(backend.State()), cs[..k])
        invariant summary == GcSummary(2 * k, BytesOf(cs[..k]))
      {
        assert cs[..k + 1][..k] == cs[..k];
        DeleteLayer(cs[k].content);
        summary := GcSummary(summary.deletedBlobs + 2, summary.deletedBytes + cs[k].sizeDeploy + cs[k].sizeCache);
      }
      assert cs[..|cs|] == cs;
    }
  }

  lemma {:induction false} ListedGrows(s: Store, hashes: set<Hash>, h: Hash, c: Hash)
    ensures ListedBy(s, hashes + {h}, c) <==>
              ListedBy(s, hashes, c) || (HasManifest(s, h) && c in s.meta[ManifestKey(h)].body.layers)
  {
    if g: Hash :| g in hashes && HasManifest(s, g) && c in s.meta[ManifestKey(g)].body.layers {
      assert g in hashes + {h};
    }
    if HasManifest(s, h) && c in s.meta[ManifestKey(h)].body.layers {
      assert h in hashes + {h};
    }
  }

  /** One more listed record: reported exactly when it is not live. */
  lemma {:induction false} CoversGrows(s: Store, names: seq<string>, k: nat, report: GcReport, c: Hash)
    requires k < |names| && names[k] == ToText(c) && HasRecord(s, c) && Covers(s, names[..k], report)
    requires forall j :: 0 <= j < k ==> names[j] != names[k]
    ensures Referenced(s, c) ==> Covers(s, names[..k + 1], report)
    ensures !Referenced(s, c) ==>
              var m := RecordOf(s, c);
              Covers(s, names[..k + 1],
                     GcReport(report.candidates + [GcCandidate(c, m.sizeDeploy, m.sizeCache)],
                              report.totalReclaimable + m.sizeDeploy + m.sizeCache))
  {
    assert names[..k + 1] == names[..k] + [names[k]];
    var m := RecordOf(s, c);
    var longer := report.candidates + [GcCandidate(c, m.sizeDeploy, m.sizeCache)];
    assert longer[..|longer| - 1] == report.candidates;
    forall d: Hash | ToText(d) == names[k]
      ensures d == c
    {
      TextInjective(d, c);
    }
    assert IsCandidate(longer, c) by {
      assert longer[|longer| - 1].content == c;
    }
    forall d: Hash | IsCandidate(report.candidates, d)
      ensures IsCandidate(longer, d) && d != c
    {
      var j :| 0 <= j < |report.candidates| && report.candidates[j].content == d;
      assert longer[j].content == d;
    }
  }
}

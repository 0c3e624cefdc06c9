/**
 * The incremental build (build-system/src/orchestrator.rs:47-209) against the store
 * contract of build-system/src/mocks.rs:47-83. `sha` is the hash function, `engine` the
 * combined solve-and-pack step: a function of a stage's text as written and its parent's
 * content, where contents are identified by their output hashes.
 */
module BuildOrchestrator {
  import opened Basics
  import opened InputHasher
  import opened DockerfileParser

  type Engine = (seq<string>, Option<string>) -> string

  datatype LayerMetadata = LayerMetadata(inputHash: string, outputHash: string, parentInputHash: Option<string>)

  datatype StageResult = StageResult(inputHash: string, outputHash: string, wasCacheHit: bool)

  /** The store: input hash to output hash, and output hash to metadata. */
  datatype Cache = Cache(index: map<string, string>, layers: map<string, LayerMetadata>)

  const EMPTY_CACHE := Cache(map[], map[])

  datatype ManifestLayer = ManifestLayer(
    name: string, order: nat, inputHash: string, outputHash: string, parentInputHash: Option<string>)

  /** Where a stage fails, if it does: before anything reaches the store, or after publishing. */
  datatype Fault = NoFault | BeforePublish | AfterPublish

  datatype BuildError = Injected | LayerNotFound | ParentResultMissing | MissingMetadata

  datatype Built = Built(results: map<string, StageResult>, metas: map<string, LayerMetadata>, cache: Cache)

  datatype Step = Done(built: Built) | Failed(cache: Cache, error: BuildError)

  function ParentKey(results: map<string, StageResult>, stage: Stage): Option<string> {
    if stage.parentName.Some? && stage.parentName.value in results
    then Some(results[stage.parentName.value].inputHash)
    else None
  }

  function InputHash(sha: string -> string, results: map<string, StageResult>, stage: Stage): string {
    sha(PreImage(ParentKey(results, stage), Lines(stage.instructions)))
  }

  function Recorded(b: Built, stage: Stage, result: StageResult, meta: LayerMetadata): Built {
    b.(results := b.results[stage.name := result], metas := b.metas[stage.layerName := meta])
  }

  /** The cache after `publish_layer` with metadata `meta`. */
  function Published(cache: Cache, meta: LayerMetadata): Cache {
    Cache(cache.index[meta.inputHash := meta.outputHash], cache.layers[meta.outputHash := meta])
  }

  /** One turn of the stage loop. */
  function BuildStage(sha: string -> string, engine: Engine, b: Built, stage: Stage, fault: Fault): Step {
    var key := InputHash(sha, b.results, stage);
    if fault.BeforePublish? then Failed(b.cache, Injected)
    else if key in b.cache.index then
      var output := b.cache.index[key];
      if output !in b.cache.layers then Failed(b.cache, LayerNotFound)
      else Done(Recorded(b, stage, StageResult(key, output, true), b.cache.layers[output]))
    else if stage.parentName.Some? && stage.parentName.value !in b.results then Failed(b.cache, ParentResultMissing)
    else
      var parent := if stage.parentName.Some? then Some(b.results[stage.parentName.value]) else None;
      if parent.Some? && parent.value.wasCacheHit && parent.value.outputHash !in b.cache.layers
      then Failed(b.cache, LayerNotFound)
      else
        var output := engine(stage.instructions, if parent.Some? then Some(parent.value.outputHash) else None);
        var meta := LayerMetadata(key, output, ParentKey(b.results, stage));
        var cache := Published(b.cache, meta);
        if fault.AfterPublish? then Failed(cache, Injected)
        else Done(Recorded(b.(cache := cache), stage, StageResult(key, output, false), meta))
  }

  /** On any store, however broken: which stage fails, and how. */
  lemma StageFailsExactlyWhen(sha: string -> string, engine: Engine, b: Built, stage: Stage, fault: Fault)
    ensures var step, key := BuildStage(sha, engine, b, stage, fault), InputHash(sha, b.results, stage);
            var hit, parent := key in b.cache.index, stage.parentName;
            && (step == Failed(b.cache, LayerNotFound) <==>
                  && !fault.BeforePublish?
                  && if hit then b.cache.index[key] !in b.cache.layers
                     else parent.Some? && parent.value in b.results && b.results[parent.value].wasCacheHit
                          && b.results[parent.value].outputHash !in b.cache.layers)
            && (step == Failed(b.cache, ParentResultMissing) <==>
                  !fault.BeforePublish? && !hit && parent.Some? && parent.value !in b.results)
            && (step.Failed? && step.error == Injected ==>
                  fault.BeforePublish? || (fault.AfterPublish? && !hit && key in step.cache.index))
            && (fault.BeforePublish? ==> step == Failed(b.cache, Injected))
            && (step.Failed? ==> step.error != MissingMetadata)
  {
    hide InputHash;
  }

  /** The stage loop from stage `k` on; `faults[k]` is what happens to stage `k`. */
  function BuildStages(sha: string -> string, engine: Engine, b: Built, stages: seq<Stage>, faults: seq<Fault>): Step
    requires |faults| == |stages|
    decreases |stages|
  {
    if stages == [] then Done(b)
    else
      match BuildStage(sha, engine, b, stages[0], faults[0])
      case Done(next) => BuildStages(sha, engine, next, stages[1..], faults[1..])
      case Failed(cache, e) => Failed(cache, e)
  }

  datatype Outcome = Released(cache: Cache, layers: seq<ManifestLayer>) | Aborted(cache: Cache, error: BuildError)

  ghost predicate IsManifest(order: seq<string>, metas: map<string, LayerMetadata>, layers: seq<ManifestLayer>) {
    && |layers| == |order|
    && forall k :: 0 <= k < |order| ==> order[k] in metas && layers[k] == ManifestEntry(order, metas, k)
  }

  /** `build` after parsing. */
  method Build(sha: string -> string, engine: Engine, graph: Graph, cache: Cache, faults: seq<Fault>)
    returns (r: Outcome)
    requires |faults| == |graph.stages|
    ensures var run := BuildStages(sha, engine, Built(map[], map[], cache), graph.stages, faults);
            match run
            case Failed(c, e) => r == Aborted(c, e)
            case Done(b) =>
              && r.cache == b.cache
              && (r.Released? <==>
                    forall k :: 0 <= k < |graph.release.layerOrder| ==> graph.release.layerOrder[k] in b.metas)
              && (r.Released? ==> IsManifest(graph.release.layerOrder, b.metas, r.layers))
              && (r.Aborted? ==> r.error == MissingMetadata)
  {
    hide BuildStage;
    var b := Built(map[], map[], cache);
    var stages := graph.stages;
    for k := 0 to |stages|
      invariant BuildStages(sha, engine, b, stages[k..], faults[k..])
             == BuildStages(sha, engine, Built(map[], map[], cache), stages, faults)
    {
      assert stages[k..][1..] == stages[k + 1..] && faults[k..][1..] == faults[k + 1..];
      var step := BuildStage(sha, engine, b, stages[k], faults[k]);
      if step.Failed? {
        return Aborted(step.cache, step.error);
      }
      b := step.built;
    }
    var order, layers := graph.release.layerOrder, [];
    for k := 0 to |order|
      invariant |layers| == k
      invariant forall j :: 0 <= j < k ==> order[j] in b.metas && layers[j] == ManifestEntry(order, b.metas, j)
    {
      if order[k] !in b.metas {
        return Aborted(b.cache, MissingMetadata);
      }
      var meta := b.metas[order[k]];
      layers := layers + [ManifestLayer(order[k], k, meta.inputHash, meta.outputHash, meta.parentInputHash)];
    }
    return Released(b.cache, layers);
  }

  function ManifestEntry(order: seq<string>, metas: map<string, LayerMetadata>, k: nat): ManifestLayer
    requires k < |order| && order[k] in metas
  {
    var meta := metas[order[k]];
    ManifestLayer(order[k], k, meta.inputHash, meta.outputHash, meta.parentInputHash)
  }

  // --- Building everything from scratch: the reference ---

  /** What a chain of stages produces with no cache at all. */
  function Clean(engine: Engine, chain: Chain): string {
    engine(chain.text, if chain.parent.Some? then Some(Clean(engine, chain.parent.value)) else None)
  }

  /** What the engine makes of these chains depends only on what normalization leaves of them. */
  ghost predicate BlindOn(engine: Engine, scope: iset<Chain>) {
    forall a, b :: a in scope && b in scope && Normalized(a) == Normalized(b) ==> Clean(engine, a) == Clean(engine, b)
  }

  /** For every stage name, the ancestry of the last stage that carries it. */
  function Chains(stages: seq<Stage>): map<string, Chain> {
    if stages == [] then map[]
    else
      var n := |stages| - 1;
      Chains(stages[..n])[stages[n].name := ChainOf(Chains(stages[..n]), stages[n])]
  }

  function ChainOf(chains: map<string, Chain>, stage: Stage): Chain {
    Chain(stage.instructions,
          if stage.parentName.Some? && stage.parentName.value in chains
          then Some(chains[stage.parentName.value])
          else None)
  }

  /** The ancestry of stage `j`. */
  function ChainAt(stages: seq<Stage>, j: nat): Chain
    requires j < |stages|
  {
    ChainOf(Chains(stages[..j]), stages[j])
  }

  ghost predicate ChainsIn(stages: seq<Stage>, scope: iset<Chain>) {
    forall j :: 0 <= j < |stages| ==> ChainAt(stages, j) in scope
  }

  /** For every layer name, the clean output of the last stage that carries it. */
  function CleanLayers(engine: Engine, stages: seq<Stage>): map<string, string> {
    if stages == [] then map[]
    else
      var n := |stages| - 1;
      CleanLayers(engine, stages[..n])[stages[n].layerName := Clean(engine, ChainAt(stages, n))]
  }

  // --- Coherence ---

  /** A key that encodes a chain of interest leads to that chain's clean output, with metadata for it. */
  ghost predicate Coherent(sha: string -> string, engine: Engine, scope: iset<Chain>, cache: Cache) {
    forall chain :: chain in scope && KeyOf(sha, chain) in cache.index ==>
      var output := cache.index[KeyOf(sha, chain)];
      output == Clean(engine, chain) && output in cache.layers && cache.layers[output].outputHash == output
  }

  lemma {:induction false} PublishKeepsCoherence(
    sha: string -> string, engine: Engine, scope: iset<Chain>, cache: Cache, chain: Chain, meta: LayerMetadata)
    requires Ideal(sha) && BlindOn(engine, scope) && Coherent(sha, engine, scope, cache)
    requires chain in scope && meta.inputHash == KeyOf(sha, chain) && meta.outputHash == Clean(engine, chain)
    ensures Coherent(sha, engine, scope, Published(cache, meta))
  {
    hide Clean, KeyOf, Normalized, Ideal;
    var after := Published(cache, meta);
    forall c | c in scope && KeyOf(sha, c) in after.index
      ensures var output := after.index[KeyOf(sha, c)];
              output == Clean(engine, c) && output in after.layers && after.layers[output].outputHash == output
    {
      if KeyOf(sha, c) == KeyOf(sha, chain) {
        KeyInjective(sha, c, chain);
      }
    }
  }

  /** The results so far are those of the chains the stages encode, and the cache is coherent. */
  ghost predicate Faithful(sha: string -> string, engine: Engine, scope: iset<Chain>, stages: seq<Stage>, b: Built) {
    && b.results.Keys == Chains(stages).Keys
    && (forall name :: name in b.results ==>
          && b.results[name].inputHash == KeyOf(sha, Chains(stages)[name])
          && b.results[name].outputHash == Clean(engine, Chains(stages)[name])
          && (b.results[name].wasCacheHit ==> b.results[name].outputHash in b.cache.layers))
    && b.metas.Keys == CleanLayers(engine, stages).Keys
    && (forall layer :: layer in b.metas ==> b.metas[layer].outputHash == CleanLayers(engine, stages)[layer])
    && Coherent(sha, engine, scope, b.cache)
  }

  /** Keys depend on the parents' keys alone: the key computed for a stage is the key of its chain. */
  lemma {:induction false} StageKey(
    sha: string -> string, done: seq<Stage>, results: map<string, StageResult>, stage: Stage)
    requires results.Keys == Chains(done).Keys
    requires forall name :: name in results ==> results[name].inputHash == KeyOf(sha, Chains(done)[name])
    ensures InputHash(sha, results, stage) == KeyOf(sha, ChainOf(Chains(done), stage))
  {
    hide Lines, PreImage, Chains;
  }

  /** Recording a stage's clean output extends the correspondence by one stage. */
  lemma {:induction false} RecordingIsFaithful(
    sha: string -> string, engine: Engine, scope: iset<Chain>, done: seq<Stage>, b: Built, stage: Stage,
    cache: Cache, hit: bool, meta: LayerMetadata)
    requires Faithful(sha, engine, scope, done, b) && Coherent(sha, engine, scope, cache)
    requires b.cache.layers.Keys <= cache.layers.Keys
    requires meta.outputHash == Clean(engine, ChainOf(Chains(done), stage)) && meta.outputHash in cache.layers
    ensures var chain := ChainOf(Chains(done), stage);
            Faithful(sha, engine, scope, done + [stage],
                     Recorded(b.(cache := cache), stage,
                              StageResult(KeyOf(sha, chain), Clean(engine, chain), hit), meta))
  {
    hide Coherent, KeyOf, Clean, ChainOf;
    var stages := done + [stage];
    assert stages[..|stages| - 1] == done && stages[|stages| - 1] == stage;
  }

  /** One stage, hit or miss, failing or not. */
  lemma {:induction false} StageIsFaithful(
    sha: string -> string, engine: Engine, scope: iset<Chain>, done: seq<Stage>, b: Built, stage: Stage, fault: Fault)
    requires Ideal(sha) && BlindOn(engine, scope) && Faithful(sha, engine, scope, done, b)
    requires ChainOf(Chains(done), stage) in scope
    ensures match BuildStage(sha, engine, b, stage, fault)
            case Done(next) => Faithful(sha, engine, scope, done + [stage], next)
            case Failed(cache, e) =>
              && Coherent(sha, engine, scope, cache) && e != LayerNotFound && e != MissingMetadata
              && (e == ParentResultMissing ==> stage.parentName.Some? && stage.parentName.value !in Chains(done))
              && (e == Injected ==> !fault.NoFault?)
  {
    hide Coherent, Ideal, BlindOn, KeyOf, InputHash;
    var chain := ChainOf(Chains(done), stage);
    StageKey(sha, done, b.results, stage);
    var key, output := KeyOf(sha, chain), Clean(engine, chain);
    if key in b.cache.index {
      HitIsClean(sha, engine, scope, b.cache, chain);
      RecordingIsFaithful(sha, engine, scope, done, b, stage, b.cache, true, b.cache.layers[output]);
      assert b.(cache := b.cache) == b;
    } else if stage.parentName.Some? ==> stage.parentName.value in b.results {
      var meta := LayerMetadata(key, output, ParentKey(b.results, stage));
      PublishKeepsCoherence(sha, engine, scope, b.cache, chain, meta);
      RecordingIsFaithful(sha, engine, scope, done, b, stage, Published(b.cache, meta), false, meta);
    }
  }

  lemma {:induction false} HitIsClean(
    sha: string -> string, engine: Engine, scope: iset<Chain>, cache: Cache, chain: Chain)
    requires Coherent(sha, engine, scope, cache) && chain in scope && KeyOf(sha, chain) in cache.index
    ensures var output := cache.index[KeyOf(sha, chain)];
            output == Clean(engine, chain) && output in cache.layers && cache.layers[output].outputHash == output
  {
  }

  lemma {:induction false} StagesAreFaithful(
    sha: string -> string, engine: Engine, scope: iset<Chain>, done: seq<Stage>, b: Built,
    stages: seq<Stage>, faults: seq<Fault>)
    requires Ideal(sha) && BlindOn(engine, scope) && Faithful(sha, engine, scope, done, b) && |faults| == |stages|
    requires ParentsAreEarlier(done + stages) && ChainsIn(done + stages, scope)
    ensures match BuildStages(sha, engine, b, stages, faults)
            case Done(last) => Faithful(sha, engine, scope, done + stages, last)
            case Failed(cache, e) =>
              && Coherent(sha, engine, scope, cache)
              && e == Injected && exists k :: 0 <= k < |faults| && !faults[k].NoFault?
    decreases |stages|
  {
    hide Faithful, Coherent, Ideal, BlindOn, BuildStage, Chains, ChainsIn, ParentsAreEarlier;
    if stages == [] {
      assert done + stages == done;
    } else {
      NextChain(done, stages, scope);
      StageIsFaithful(sha, engine, scope, done, b, stages[0], faults[0]);
      var step := BuildStage(sha, engine, b, stages[0], faults[0]);
      assert done + stages == done + [stages[0]] + stages[1..];
      if step.Done? {
        StagesAreFaithful(sha, engine, scope, done + [stages[0]], step.built, stages[1..], faults[1..]);
        assert forall k :: 0 <= k < |faults| - 1 ==> faults[1..][k] == faults[k + 1];
      } else {
        ParentIsBuilt(done, stages);
      }
    }
  }

  lemma {:induction false} NextChain(done: seq<Stage>, stages: seq<Stage>, scope: iset<Chain>)
    requires stages != [] && ChainsIn(done + stages, scope)
    ensures ChainOf(Chains(done), stages[0]) in scope
  {
    var all, k := done + stages, |done|;
    assert all[..k] == done && all[k] == stages[0];
    assert ChainAt(all, k) in scope;
  }

  /** Parsing guarantees that a parent's result is there. */
  lemma {:induction false} ParentIsBuilt(done: seq<Stage>, stages: seq<Stage>)
    requires stages != [] && ParentsAreEarlier(done + stages)
    ensures stages[0].parentName.Some? ==> stages[0].parentName.value in Chains(done)
  {
    var all, k := done + stages, |done|;
    assert all[k] == stages[0] && all[..k] == done;
    if stages[0].parentName.Some? {
      var j :| 0 <= j < |done| && done[j].name == stages[0].parentName.value;
      NamesAreBuilt(done, j);
    }
  }

  lemma {:induction false} NamesAreBuilt(stages: seq<Stage>, j: nat)
    requires j < |stages|
    ensures stages[j].name in Chains(stages)
    decreases |stages|
  {
    var n := |stages| - 1;
    if j == n {
    } else {
      NamesAreBuilt(stages[..n], j);
    }
  }

  lemma {:induction false} LayersAreBuilt(engine: Engine, stages: seq<Stage>)
    ensures LayerStages(stages).Keys <= CleanLayers(engine, stages).Keys
    decreases |stages|
  {
    if stages == [] {
    } else {
      LayersAreBuilt(engine, stages[..|stages| - 1]);
    }
  }

  // --- Main results ---

  /** The manifest a build from scratch would produce, as far as outputs go. */
  ghost predicate IsCleanManifest(engine: Engine, graph: Graph, layers: seq<ManifestLayer>) {
    && |layers| == |graph.release.layerOrder|
    && forall k :: 0 <= k < |layers| ==>
         && layers[k].name == graph.release.layerOrder[k] && layers[k].order == k
         && layers[k].name in CleanLayers(engine, graph.stages)
         && layers[k].outputHash == CleanLayers(engine, graph.stages)[layers[k].name]
  }

  lemma {:induction false} FaithfulRelease(
    sha: string -> string, engine: Engine, scope: iset<Chain>, graph: Graph, b: Built)
    requires GraphIsSound(graph) && Faithful(sha, engine, scope, graph.stages, b)
    ensures Coherent(sha, engine, scope, b.cache)
    ensures forall k :: 0 <= k < |graph.release.layerOrder| ==> graph.release.layerOrder[k] in b.metas
    ensures forall layers ::
              IsManifest(graph.release.layerOrder, b.metas, layers) ==> IsCleanManifest(engine, graph, layers)
  {
    hide Coherent, LayerStages, CleanLayers, ParentsAreEarlier;
    LayersAreBuilt(engine, graph.stages);
  }

  /**
   * For every sound graph, every cache coherent for a set of chains that includes the graph's,
   * and every engine blind on that set: the build leaves the cache coherent wherever it stops; it
   * stops early only where a failure was injected; and what it releases is what building
   * everything from scratch would release.
   */
  method IncrementalBuild(
    sha: string -> string, engine: Engine, graph: Graph, cache: Cache, faults: seq<Fault>, ghost scope: iset<Chain>)
    returns (r: Outcome)
    requires Ideal(sha) && BlindOn(engine, scope) && GraphIsSound(graph) && Coherent(sha, engine, scope, cache)
    requires ChainsIn(graph.stages, scope) && |faults| == |graph.stages|
    ensures Coherent(sha, engine, scope, r.cache)
    ensures r.Aborted? ==> r.error == Injected && exists k :: 0 <= k < |faults| && !faults[k].NoFault?
    ensures r.Released? ==> IsCleanManifest(engine, graph, r.layers)
  {
    hide BuildStages, Ideal, BlindOn, ChainsIn, Coherent, Faithful;
    hide ParentsAreEarlier, LayerStages, IsManifest, IsCleanManifest;
    r := Build(sha, engine, graph, cache, faults);
    NothingBuiltYet(sha, engine, scope, cache);
    assert [] + graph.stages == graph.stages;
    ghost var start := Built(map[], map[], cache);
    StagesAreFaithful(sha, engine, scope, [], start, graph.stages, faults);
    if BuildStages(sha, engine, start, graph.stages, faults).Done? {
      FaithfulRelease(sha, engine, scope, graph, BuildStages(sha, engine, start, graph.stages, faults).built);
    }
  }

  lemma EmptyCacheIsCoherent(sha: string -> string, engine: Engine, scope: iset<Chain>)
    ensures Coherent(sha, engine, scope, EMPTY_CACHE)
  {
  }

  lemma {:induction false} NothingBuiltYet(sha: string -> string, engine: Engine, scope: iset<Chain>, cache: Cache)
    requires Coherent(sha, engine, scope, cache)
    ensures Faithful(sha, engine, scope, [], Built(map[], map[], cache))
  {
  }

  /**
   * Any coherent cache gives, layer by layer, the outputs of a build with an empty cache,
   * which always gets through.
   */
  lemma {:induction false} SameOutputsAsFromScratch(
    sha: string -> string, engine: Engine, scope: iset<Chain>, graph: Graph, cache: Cache,
    faults: seq<Fault>, clear: seq<Fault>)
    requires ChainsIn(graph.stages, scope)
    requires Ideal(sha) && BlindOn(engine, scope) && GraphIsSound(graph) && Coherent(sha, engine, scope, cache)
    requires |faults| == |graph.stages| == |clear| && forall k :: 0 <= k < |clear| ==> clear[k] == NoFault
    ensures var cached := BuildStages(sha, engine, Built(map[], map[], cache), graph.stages, faults);
            var scratch := BuildStages(sha, engine, Built(map[], map[], EMPTY_CACHE), graph.stages, clear);
            && scratch.Done?
            && (forall k :: 0 <= k < |graph.release.layerOrder| ==> graph.release.layerOrder[k] in scratch.built.metas)
            && (cached.Done? ==>
                  && cached.built.metas.Keys == scratch.built.metas.Keys
                  && forall layer :: layer in scratch.built.metas ==>
                       cached.built.metas[layer].outputHash == scratch.built.metas[layer].outputHash)
  {
    hide BuildStages, Ideal, BlindOn, ChainsIn, Coherent, ParentsAreEarlier, LayerStages;
    NothingBuiltYet(sha, engine, scope, cache);
    EmptyCacheIsCoherent(sha, engine, scope);
    NothingBuiltYet(sha, engine, scope, EMPTY_CACHE);
    assert [] + graph.stages == graph.stages;
    StagesAreFaithful(sha, engine, scope, [], Built(map[], map[], cache), graph.stages, faults);
    StagesAreFaithful(sha, engine, scope, [], Built(map[], map[], EMPTY_CACHE), graph.stages, clear);
    LayersAreBuilt(engine, graph.stages);
  }

  /**
   * Two root stages with different text but the same output: after both have been built,
   * rebuilding the first alone releases the second's input hash, which a build from
   * scratch would not.
   */
  lemma {:induction false} CachedInputHashCanDiffer(sha: string -> string, first: Stage, second: Stage)
    requires Ideal(sha) && first.parentName == None && second.parentName == None && first.name != second.name
    requires Lines(first.instructions) != Lines(second.instructions)
    ensures var engine: Engine := (text, parent) => "same";
            var start := Built(map[], map[], EMPTY_CACHE);
            var both := BuildStages(sha, engine, start, [first, second], [NoFault, NoFault]);
            && both.Done?
            && var again := BuildStage(sha, engine, Built(map[], map[], both.built.cache), first, NoFault);
               var scratch := BuildStage(sha, engine, start, first, NoFault);
               && again.Done? && scratch.Done?
               && again.built.metas[first.layerName].inputHash != scratch.built.metas[first.layerName].inputHash
  {
    hide Lines, PreImage;
    var engine: Engine := (text, parent) => "same";
    var start := Built(map[], map[], EMPTY_CACHE);
    var a, b := PreImage(None, Lines(first.instructions)), PreImage(None, Lines(second.instructions));
    LinesAreLines(first.instructions);
    LinesAreLines(second.instructions);
    if a == b {
      PreImageInjective(None, Lines(first.instructions), None, Lines(second.instructions));
    }
    assert sha(a) != sha(b);
    var one := BuildStage(sha, engine, start, first, NoFault);
    assert one.Done? && one.built.cache.index == map[sha(a) := "same"];
    var two := BuildStage(sha, engine, one.built, second, NoFault);
    assert two.Done? && two.built.cache.layers["same"].inputHash == sha(b);
    assert [first, second][1..] == [second] && [NoFault, NoFault][1..] == [NoFault];
    assert BuildStages(sha, engine, one.built, [second], [NoFault]) == BuildStages(sha, engine, two.built, [], []);
  }
}

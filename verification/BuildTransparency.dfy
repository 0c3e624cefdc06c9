/**
 * When caching cannot be noticed: normalization (build-system/src/hasher.rs:54-64) cuts
 * '#' and white space inside quoted commands too, so the answer depends on the engine.
 */
module BuildTransparency {
  import opened Basics
  import opened InputHasher
  import opened DockerfileParser
  import opened BuildOrchestrator
  import opened BuildHistory
  import opened SampleDockerfile

  function NoFaults(n: nat): (faults: seq<Fault>)
    ensures |faults| == n && forall k :: 0 <= k < n ==> faults[k] == NoFault
  {
    seq(n, k => NoFault)
  }

  /** A build without failures on a store. */
  function Run(sha: string -> string, engine: Engine, cache: Cache, stages: seq<Stage>): BuildOrchestrator.Step {
    BuildStages(sha, engine, Built(map[], map[], cache), stages, NoFaults(|stages|))
  }

  /** The metadata under the layer name of stage `j` has the output of building that stage from scratch. */
  ghost predicate IsCleanAt(engine: Engine, stages: seq<Stage>, j: nat, run: BuildOrchestrator.Step)
    requires j < |stages|
  {
    && run.Done? && stages[j].layerName in run.built.metas
    && run.built.metas[stages[j].layerName].outputHash == Clean(engine, ChainAt(stages, j))
  }

  /** Built on this store, stage `j` gets the output of building it from scratch. */
  ghost predicate StageIsClean(sha: string -> string, engine: Engine, cache: Cache, stages: seq<Stage>, j: nat)
    requires j < |stages|
  {
    IsCleanAt(engine, stages[..j + 1], j, Run(sha, engine, cache, stages[..j + 1]))
  }

  // --- Classes of Dockerfiles ---

  /** The graphs of all Dockerfiles the parser accepts. */
  ghost const ACCEPTED: iset<Graph> := iset g: Graph | Accepted(g)

  ghost predicate AreSound(files: iset<Graph>) {
    forall g :: g in files ==> GraphIsSound(g)
  }

  /** The chains of the stages of these files. */
  ghost function EncodedBy(files: iset<Graph>): iset<Chain> {
    iset c: Chain | IsEncoded(files, c)
  }

  ghost predicate IsEncoded(files: iset<Graph>, c: Chain) {
    exists g, j: nat :: g in files && j < |g.stages| && ChainAt(g.stages, j) == c
  }

  /** Stage `j` is the one a released layer name stands for. */
  ghost predicate IsReleased(g: Graph, j: nat) {
    IsLast(g.stages, j) && g.stages[j].layerName in g.release.layerOrder
  }

  /** The chains of the stages these files release. */
  ghost function ReleasedBy(files: iset<Graph>): iset<Chain> {
    iset c: Chain | IsReleasedChain(files, c)
  }

  ghost predicate IsReleasedChain(files: iset<Graph>, c: Chain) {
    exists g, j: nat :: g in files && IsReleased(g, j) && ChainAt(g.stages, j) == c
  }

  /** Builds of these files, each stopping anywhere. */
  ghost predicate AreBuildsOf(files: iset<Graph>, jobs: seq<Job>) {
    AreJobs(jobs) && forall k :: 0 <= k < |jobs| ==> IsBuildOf(files, jobs[k])
  }

  ghost predicate IsBuildOf(files: iset<Graph>, job: Job) {
    exists g :: g in files && g.stages == job.stages
  }

  /** After any builds of these files, every stage of every file gets its from-scratch output. */
  ghost predicate StagesTransparent(sha: string -> string, engine: Engine, files: iset<Graph>) {
    forall jobs, g: Graph, j: nat :: AreBuildsOf(files, jobs) && g in files && j < |g.stages| ==>
      StageIsClean(sha, engine, StoreAfter(sha, engine, jobs), g.stages, j)
  }

  /** The same after at most one build, without failures. */
  ghost predicate PairsTransparent(sha: string -> string, engine: Engine, files: iset<Graph>) {
    && (forall g: Graph, j: nat :: g in files && j < |g.stages| ==>
          StageIsClean(sha, engine, EMPTY_CACHE, g.stages, j))
    && (forall g: Graph, g': Graph, j: nat :: g in files && g' in files && j < |g'.stages| ==>
          StageIsClean(sha, engine, FirstStore(sha, engine, g.stages), g'.stages, j))
  }

  /** After any builds of these files, every file releases from-scratch outputs. */
  ghost predicate ReleasesTransparent(sha: string -> string, engine: Engine, files: iset<Graph>) {
    forall jobs, g: Graph, j: nat :: AreBuildsOf(files, jobs) && g in files && IsReleased(g, j) ==>
      IsCleanAt(engine, g.stages, j, Run(sha, engine, StoreAfter(sha, engine, jobs), g.stages))
  }

  // --- Blind engines: nothing shows ---

  lemma {:induction false} PrefixChains(stages: seq<Stage>, n: nat, scope: iset<Chain>)
    requires n <= |stages| && ChainsIn(stages, scope) && ParentsAreEarlier(stages)
    ensures ChainsIn(stages[..n], scope) && ParentsAreEarlier(stages[..n])
  {
    hide Chains, ChainOf, HasName;
    forall j | 0 <= j < n
      ensures ChainAt(stages[..n], j) in scope
      ensures stages[j].parentName.Some? ==> HasName(stages[..n][..j], stages[j].parentName.value)
    {
      assert stages[..n][..j] == stages[..j];
      assert ChainAt(stages, j) in scope;
    }
  }

  lemma {:induction false} FileChains(files: iset<Graph>, g: Graph)
    requires g in files
    ensures ChainsIn(g.stages, EncodedBy(files))
  {
    hide Chains, ChainOf;
    forall j | 0 <= j < |g.stages|
      ensures ChainAt(g.stages, j) in EncodedBy(files)
    {
      assert IsEncoded(files, ChainAt(g.stages, j));
    }
  }

  lemma {:induction false} StoreIsCoherent(sha: string -> string, engine: Engine, files: iset<Graph>, jobs: seq<Job>)
    requires Ideal(sha) && AreSound(files) && BlindOn(engine, EncodedBy(files)) && AreBuildsOf(files, jobs)
    ensures Coherent(sha, engine, EncodedBy(files), StoreAfter(sha, engine, jobs))
    decreases |jobs|
  {
    hide Ideal, BlindOn, EncodedBy, Coherent, BuildStages, ChainsIn, LayerStages, OrdersAreBijective, ParentsAreEarlier;
    var scope := EncodedBy(files);
    if jobs == [] {
      EmptyCacheIsCoherent(sha, engine, scope);
    } else {
      var n := |jobs| - 1;
      StoreIsCoherent(sha, engine, files, jobs[..n]);
      var cache := StoreAfter(sha, engine, jobs[..n]);
      assert IsBuildOf(files, jobs[n]);
      var g :| g in files && g.stages == jobs[n].stages;
      FileChains(files, g);
      NothingBuiltYet(sha, engine, scope, cache);
      assert [] + g.stages == g.stages;
      StagesAreFaithful(sha, engine, scope, [], Built(map[], map[], cache), g.stages, jobs[n].faults);
    }
  }

  /** On a coherent store a build gets through, with clean outputs layer by layer. */
  lemma {:induction false} RunIsClean(
    sha: string -> string, engine: Engine, scope: iset<Chain>, cache: Cache, stages: seq<Stage>, j: nat)
    requires Ideal(sha) && BlindOn(engine, scope) && Coherent(sha, engine, scope, cache)
    requires ParentsAreEarlier(stages) && ChainsIn(stages, scope) && IsLast(stages, j)
    ensures IsCleanAt(engine, stages, j, Run(sha, engine, cache, stages))
  {
    hide Ideal, BlindOn, Coherent, BuildStages, ParentsAreEarlier, ChainsIn, CleanLayers, Chains;
    NothingBuiltYet(sha, engine, scope, cache);
    assert [] + stages == stages;
    StagesAreFaithful(sha, engine, scope, [], Built(map[], map[], cache), stages, NoFaults(|stages|));
    CleanLayerAt(engine, stages, j);
  }

  lemma {:induction false} CleanLayerAt(engine: Engine, stages: seq<Stage>, j: nat)
    requires IsLast(stages, j)
    ensures var layers, layer := CleanLayers(engine, stages), stages[j].layerName;
            layer in layers && layers[layer] == Clean(engine, ChainAt(stages, j))
    decreases |stages|
  {
    hide Clean, ChainOf, Chains;
    var n := |stages| - 1;
    if j == n {
    } else {
      assert stages[n].layerName != stages[j].layerName;
      assert forall i :: j < i < n ==> stages[..n][i] == stages[i];
      CleanLayerAt(engine, stages[..n], j);
      assert stages[..n][..j] == stages[..j];
    }
  }

  lemma {:induction false} BlindIsTransparent(sha: string -> string, engine: Engine, files: iset<Graph>)
    requires Ideal(sha) && AreSound(files) && BlindOn(engine, EncodedBy(files))
    ensures StagesTransparent(sha, engine, files) && ReleasesTransparent(sha, engine, files)
  {
    hide Ideal, BlindOn, EncodedBy, Coherent, Run, IsCleanAt, StoreAfter, ChainsIn;
    hide LayerStages, OrdersAreBijective, ParentsAreEarlier;
    var scope := EncodedBy(files);
    forall jobs, g: Graph, j: nat | AreBuildsOf(files, jobs) && g in files && j < |g.stages|
      ensures StageIsClean(sha, engine, StoreAfter(sha, engine, jobs), g.stages, j)
    {
      StoreIsCoherent(sha, engine, files, jobs);
      FileChains(files, g);
      PrefixChains(g.stages, j + 1, scope);
      RunIsClean(sha, engine, scope, StoreAfter(sha, engine, jobs), g.stages[..j + 1], j);
    }
    forall jobs, g: Graph, j: nat | AreBuildsOf(files, jobs) && g in files && IsReleased(g, j)
      ensures IsCleanAt(engine, g.stages, j, Run(sha, engine, StoreAfter(sha, engine, jobs), g.stages))
    {
      StoreIsCoherent(sha, engine, files, jobs);
      FileChains(files, g);
      RunIsClean(sha, engine, scope, StoreAfter(sha, engine, jobs), g.stages, j);
    }
  }

  // --- Other engines: something shows ---

  /** What a layer gets is what the log has for its stage's key, before the build already if it was there. */
  lemma {:induction false} OutputIsLogged(
    sha: string -> string, engine: Engine, log: Log, cache: Cache, stages: seq<Stage>, j: nat)
    requires Explained(cache, log) && IsLast(stages, j) && Run(sha, engine, cache, stages).Done?
    ensures var metas, key := Run(sha, engine, cache, stages).built.metas, KeyAt(sha, stages, j);
            && stages[j].layerName in metas
            && var output := Some(metas[stages[j].layerName].outputHash);
               && OutputIn(Logged(sha, engine, log, stages, NoFaults(|stages|)).log, key) == output
               && (OutputIn(log, key).Some? ==> OutputIn(log, key) == output)
  {
    hide Explained, BuildStages, Logged, OutputIn, LastPublisher, KeyOf, Chains, ChainOf;
    var faults, key := NoFaults(|stages|), KeyAt(sha, stages, j);
    BuildIsTracked(sha, engine, log, cache, stages, faults);
    var metas := Run(sha, engine, cache, stages).built.metas;
    assert ReportsLast(sha, engine, log, stages[..j + 1], faults[..j + 1], metas);
    assert stages[..j + 1][..j] == stages[..j];
    OutputStays(sha, engine, log, stages, faults, j + 1, key);
    if OutputIn(log, key).Some? {
      NothingLogged(sha, engine, log, stages[..0], faults[..0]);
      OutputStays(sha, engine, log, stages, faults, 0, key);
    }
  }

  lemma NothingLogged(sha: string -> string, engine: Engine, log: Log, stages: seq<Stage>, faults: seq<Fault>)
    requires stages == [] && faults == []
    ensures Logged(sha, engine, log, stages, faults).log == log
  {
  }

  /** The store a file leaves, built on an empty one. */
  function FirstStore(sha: string -> string, engine: Engine, stages: seq<Stage>): Cache {
    CacheOf(Run(sha, engine, EMPTY_CACHE, stages))
  }

  /** What the log of a file has for the key of stage `j` is what the stage got, and the layer if it is the last. */
  lemma {:induction false} FirstBuildIsLogged(
    sha: string -> string, engine: Engine, stages: seq<Stage>, j: nat) returns (log: Log)
    requires j < |stages|
    ensures Explained(FirstStore(sha, engine, stages), log)
    ensures Run(sha, engine, EMPTY_CACHE, stages[..j + 1]).Done? ==>
              var metas := Run(sha, engine, EMPTY_CACHE, stages[..j + 1]).built.metas;
              && stages[j].layerName in metas
              && OutputIn(log, KeyAt(sha, stages, j)) == Some(metas[stages[j].layerName].outputHash)
    ensures IsLast(stages, j) && Run(sha, engine, EMPTY_CACHE, stages).Done? ==>
              var metas := Run(sha, engine, EMPTY_CACHE, stages).built.metas;
              && stages[j].layerName in metas
              && OutputIn(log, KeyAt(sha, stages, j)) == Some(metas[stages[j].layerName].outputHash)
  {
    hide Explained, BuildStages, Logged, OutputIn, LastPublisher, KeyOf, Chains, ChainOf;
    var faults, prefix := NoFaults(|stages|), stages[..j + 1];
    log := Logged(sha, engine, [], stages, faults).log;
    NothingPublished();
    BuildIsTracked(sha, engine, [], EMPTY_CACHE, stages, faults);
    if Run(sha, engine, EMPTY_CACHE, prefix).Done? {
      OutputIsLogged(sha, engine, [], EMPTY_CACHE, prefix, j);
      assert faults[..j + 1] == NoFaults(j + 1) && prefix[..j] == stages[..j];
      OutputStays(sha, engine, [], stages, faults, j + 1, KeyAt(sha, stages, j));
    }
    if IsLast(stages, j) && Run(sha, engine, EMPTY_CACHE, stages).Done? {
      OutputIsLogged(sha, engine, [], EMPTY_CACHE, stages, j);
    }
  }

  /**
   * Two stages, in any two files, that normalization makes equal: whatever the hash function
   * and the engine, building the first file and then the second gives the second stage what
   * the first one got.
   */
  lemma {:induction false} CacheShows(
    sha: string -> string, engine: Engine, first: seq<Stage>, j: nat, second: seq<Stage>, k: nat)
    requires j < |first| && k < |second| && Normalized(ChainAt(first, j)) == Normalized(ChainAt(second, k))
    requires Run(sha, engine, EMPTY_CACHE, first[..j + 1]).Done?
    requires Run(sha, engine, FirstStore(sha, engine, first), second[..k + 1]).Done?
    ensures var got := Run(sha, engine, EMPTY_CACHE, first[..j + 1]).built.metas;
            var gets := Run(sha, engine, FirstStore(sha, engine, first), second[..k + 1]).built.metas;
            && first[j].layerName in got && second[k].layerName in gets
            && gets[second[k].layerName].outputHash == got[first[j].layerName].outputHash
  {
    hide Explained, Run, Logged, OutputIn, Normalized, KeyOf, ChainAt, FirstStore;
    var log := FirstBuildIsLogged(sha, engine, first, j);
    SameNormalFormSameKey(sha, ChainAt(first, j), ChainAt(second, k));
    ChainOfPrefix(second, k);
    OutputIsLogged(sha, engine, log, FirstStore(sha, engine, first), second[..k + 1], k);
  }

  /** The same for the layers the two files release. */
  lemma {:induction false} ReleaseShows(
    sha: string -> string, engine: Engine, first: seq<Stage>, j: nat, second: seq<Stage>, k: nat)
    requires IsLast(first, j) && IsLast(second, k) && Normalized(ChainAt(first, j)) == Normalized(ChainAt(second, k))
    requires Run(sha, engine, EMPTY_CACHE, first).Done?
    requires Run(sha, engine, FirstStore(sha, engine, first), second).Done?
    ensures var got := Run(sha, engine, EMPTY_CACHE, first).built.metas;
            var gets := Run(sha, engine, FirstStore(sha, engine, first), second).built.metas;
            && first[j].layerName in got && second[k].layerName in gets
            && gets[second[k].layerName].outputHash == got[first[j].layerName].outputHash
  {
    hide Explained, Run, Logged, OutputIn, Normalized, KeyOf, ChainAt, FirstStore;
    var log := FirstBuildIsLogged(sha, engine, first, j);
    SameNormalFormSameKey(sha, ChainAt(first, j), ChainAt(second, k));
    OutputIsLogged(sha, engine, log, FirstStore(sha, engine, first), second, k);
  }

  lemma {:induction false} ChainOfPrefix(stages: seq<Stage>, j: nat)
    requires j < |stages|
    ensures ChainAt(stages[..j + 1], j) == ChainAt(stages, j)
  {
    hide Chains, ChainOf;
    assert stages[..j + 1][..j] == stages[..j];
  }

  lemma {:induction false} TransparentIsBlind(sha: string -> string, engine: Engine, files: iset<Graph>)
    requires PairsTransparent(sha, engine, files)
    ensures BlindOn(engine, EncodedBy(files))
  {
    hide Run, Normalized, Clean, ChainAt, FirstStore;
    forall a, b | a in EncodedBy(files) && b in EncodedBy(files) && Normalized(a) == Normalized(b)
      ensures Clean(engine, a) == Clean(engine, b)
    {
      assert IsEncoded(files, a) && IsEncoded(files, b);
      var g: Graph, j: nat :| g in files && j < |g.stages| && ChainAt(g.stages, j) == a;
      var h: Graph, k: nat :| h in files && k < |h.stages| && ChainAt(h.stages, k) == b;
      assert StageIsClean(sha, engine, EMPTY_CACHE, g.stages, j);
      assert StageIsClean(sha, engine, FirstStore(sha, engine, g.stages), h.stages, k);
      ChainOfPrefix(g.stages, j);
      ChainOfPrefix(h.stages, k);
      CacheShows(sha, engine, g.stages, j, h.stages, k);
    }
  }

  /** A history of one build without failures. */
  function Once(g: Graph): seq<Job> {
    [Job(g.stages, NoFaults(|g.stages|))]
  }

  lemma {:induction false} ShortHistories(sha: string -> string, engine: Engine, files: iset<Graph>, g: Graph)
    requires g in files
    ensures AreJobs([]) && AreBuildsOf(files, []) && StoreAfter(sha, engine, []) == EMPTY_CACHE
    ensures AreJobs(Once(g)) && AreBuildsOf(files, Once(g))
    ensures StoreAfter(sha, engine, Once(g)) == FirstStore(sha, engine, g.stages)
  {
    hide BuildStages;
    assert IsBuildOf(files, Once(g)[0]);
    assert Once(g)[..0] == [];
  }

  lemma {:induction false} TransparentToPairs(sha: string -> string, engine: Engine, files: iset<Graph>)
    requires StagesTransparent(sha, engine, files)
    ensures PairsTransparent(sha, engine, files)
  {
    hide StageIsClean, AreBuildsOf, StoreAfter, FirstStore, Once, AreJobs;
    forall g: Graph, j: nat | g in files && j < |g.stages|
      ensures StageIsClean(sha, engine, EMPTY_CACHE, g.stages, j)
    {
      ShortHistories(sha, engine, files, g);
      assert StageIsClean(sha, engine, StoreAfter(sha, engine, []), g.stages, j);
    }
    forall g: Graph, h: Graph, j: nat | g in files && h in files && j < |h.stages|
      ensures StageIsClean(sha, engine, FirstStore(sha, engine, g.stages), h.stages, j)
    {
      ShortHistories(sha, engine, files, g);
      assert StageIsClean(sha, engine, StoreAfter(sha, engine, Once(g)), h.stages, j);
    }
  }

  lemma {:induction false} ReleasesAreBlind(sha: string -> string, engine: Engine, files: iset<Graph>)
    requires ReleasesTransparent(sha, engine, files)
    ensures BlindOn(engine, ReleasedBy(files))
  {
    hide Run, Normalized, Clean, ChainAt, FirstStore, StoreAfter, Once, AreBuildsOf, AreJobs;
    forall a, b | a in ReleasedBy(files) && b in ReleasedBy(files) && Normalized(a) == Normalized(b)
      ensures Clean(engine, a) == Clean(engine, b)
    {
      assert IsReleasedChain(files, a) && IsReleasedChain(files, b);
      var g: Graph, j: nat :| g in files && IsReleased(g, j) && ChainAt(g.stages, j) == a;
      var h: Graph, k: nat :| h in files && IsReleased(h, k) && ChainAt(h.stages, k) == b;
      ShortHistories(sha, engine, files, g);
      assert IsCleanAt(engine, g.stages, j, Run(sha, engine, StoreAfter(sha, engine, []), g.stages));
      assert IsCleanAt(engine, h.stages, k, Run(sha, engine, StoreAfter(sha, engine, Once(g)), h.stages));
      ReleaseShows(sha, engine, g.stages, j, h.stages, k);
    }
  }

  /**
   * For every class of files: builds never show in the stages of later builds, whether after
   * any history or after one build, exactly when the engine makes the same of any two chains
   * of the class that normalization makes equal. Then they never show in what is released;
   * and if they never show there, the engine does so on all released chains. So releases too
   * are decided by it in a class that releases every chain somewhere.
   */
  lemma {:induction false} TransparentExactlyWhen(sha: string -> string, engine: Engine, files: iset<Graph>)
    requires Ideal(sha) && AreSound(files)
    ensures StagesTransparent(sha, engine, files) <==> BlindOn(engine, EncodedBy(files))
    ensures PairsTransparent(sha, engine, files) <==> BlindOn(engine, EncodedBy(files))
    ensures BlindOn(engine, EncodedBy(files)) ==> ReleasesTransparent(sha, engine, files)
    ensures ReleasesTransparent(sha, engine, files) ==> BlindOn(engine, ReleasedBy(files))
    ensures ReleasedBy(files) == EncodedBy(files) ==>
              (ReleasesTransparent(sha, engine, files) <==> BlindOn(engine, EncodedBy(files)))
  {
    hide Ideal, AreSound, StagesTransparent, PairsTransparent, ReleasesTransparent, BlindOn, EncodedBy, ReleasedBy;
    if BlindOn(engine, EncodedBy(files)) {
      BlindIsTransparent(sha, engine, files);
    }
    if StagesTransparent(sha, engine, files) {
      TransparentToPairs(sha, engine, files);
    }
    if PairsTransparent(sha, engine, files) {
      TransparentIsBlind(sha, engine, files);
    }
    if ReleasesTransparent(sha, engine, files) {
      ReleasesAreBlind(sha, engine, files);
    }
  }

  /** The case of all Dockerfiles the parser accepts. */
  lemma {:induction false} AcceptedTransparentExactlyWhen(sha: string -> string, engine: Engine)
    requires Ideal(sha)
    ensures StagesTransparent(sha, engine, ACCEPTED) <==> BlindOn(engine, EncodedBy(ACCEPTED))
    ensures PairsTransparent(sha, engine, ACCEPTED) <==> BlindOn(engine, EncodedBy(ACCEPTED))
  {
    hide GraphIsSound, Accepted;
    forall g | g in ACCEPTED
      ensures GraphIsSound(g)
    {
      AcceptedIsSound(g);
    }
    TransparentExactlyWhen(sha, engine, ACCEPTED);
  }

  // --- Two Dockerfiles that differ in a quoted space ---

  /** An engine that runs every line to the letter. */
  function Verbatim(text: seq<string>, parent: Option<string>): string {
    Terminated(text)
  }

  const ONE_SPACE := "RUN echo 'a" + " " + "b'"
  const TWO_SPACES := "RUN echo 'a" + "  " + "b'"

  lemma {:induction false} SameLines(head: seq<string>, a: string, b: string)
    requires Normalize(a) == Normalize(b)
    ensures Lines(head + [a]) == Lines(head + [b])
    decreases |head|
  {
    hide Normalize;
    if head == [] {
      assert ([] + [a])[1..] == [] == ([] + [b])[1..];
    } else {
      assert (head + [a])[1..] == head[1..] + [a] && (head + [b])[1..] == head[1..] + [b];
      SameLines(head[1..], a, b);
    }
  }

  lemma {:induction false} TerminatedLength(head: seq<string>, last: string)
    ensures |Terminated(head + [last])| == |Terminated(head)| + |last| + 1
    decreases |head|
  {
    if head == [] {
      assert ([] + [last])[1..] == [];
    } else {
      assert (head + [last])[1..] == head[1..] + [last];
      TerminatedLength(head[1..], last);
    }
  }

  lemma {:induction false} QuotedChains()
    ensures var a, b := ChainAt(SampleGraph(ONE_SPACE).stages, 0), ChainAt(SampleGraph(TWO_SPACES).stages, 0);
            Normalized(a) == Normalized(b) && Clean(Verbatim, a) != Clean(Verbatim, b)
  {
    hide Normalize, Lines, Terminated;
    var head := [FROM_LINE, LAYER_LINE, RELEASE_LINE];
    NormalizeIgnoresRuns("RUN echo 'a", " ", "  ", "b'");
    SameLines(head, ONE_SPACE, TWO_SPACES);
    TerminatedLength(head, ONE_SPACE);
    TerminatedLength(head, TWO_SPACES);
    assert head + [ONE_SPACE] == SampleStage(ONE_SPACE).instructions;
    assert head + [TWO_SPACES] == SampleStage(TWO_SPACES).instructions;
  }

  lemma {:induction false} FirstStageIsClean(sha: string -> string, engine: Engine, stage: Stage)
    requires stage.parentName.None?
    ensures IsCleanAt(engine, [stage], 0, Run(sha, engine, EMPTY_CACHE, [stage]))
  {
    hide Lines, PreImage;
    var step := BuildStage(sha, engine, Built(map[], map[], EMPTY_CACHE), stage, NoFault);
    assert [stage][1..] == [] && [stage][..0] == [];
    assert NoFaults(1)[1..] == [];
    assert BuildStages(sha, engine, step.built, [], []) == step;
    assert Run(sha, engine, EMPTY_CACHE, [stage]) == step;
  }

  /**
   * Two accepted Dockerfiles that differ in one quoted space: whatever the hash function,
   * after the first has been built the second releases the first one's output, which is not
   * its own.
   */
  lemma {:induction false} QuotedSpacesShow(sha: string -> string)
    ensures var first, second := SampleGraph(ONE_SPACE), SampleGraph(TWO_SPACES);
            var run := Run(sha, Verbatim, FirstStore(sha, Verbatim, first.stages), second.stages);
            && ParsesTo(Dockerfile(ONE_SPACE), first) && ParsesTo(Dockerfile(TWO_SPACES), second)
            && second.release.layerOrder == ["l"] && run.Done? && "l" in run.built.metas
            && run.built.metas["l"].outputHash == Clean(Verbatim, ChainAt(first.stages, 0))
            && Clean(Verbatim, ChainAt(first.stages, 0)) != Clean(Verbatim, ChainAt(second.stages, 0))
  {
    hide Run, FirstStore, Clean, ChainAt, Normalized, ParsesTo, GraphIsSound, BuildStages, Explained;
    var first, second := SampleGraph(ONE_SPACE), SampleGraph(TWO_SPACES);
    AreCommands();
    SampleParses(ONE_SPACE);
    SampleParses(TWO_SPACES);
    AcceptedIsSound(second);
    QuotedChains();
    FirstStageIsClean(sha, Verbatim, SampleStage(ONE_SPACE));
    SecondRunIsDone(sha, Verbatim, first.stages, second);
    ReleaseShows(sha, Verbatim, first.stages, 0, second.stages, 0);
  }

  lemma AreCommands()
    ensures IsCommand(ONE_SPACE) && IsCommand(TWO_SPACES)
  {
    assert ONE_SPACE[..4][0] == 'R' && ONE_SPACE[..5][0] == 'R';
    assert TWO_SPACES[..4][0] == 'R' && TWO_SPACES[..5][0] == 'R';
  }

  lemma {:induction false} SecondRunIsDone(sha: string -> string, engine: Engine, first: seq<Stage>, second: Graph)
    requires first != [] && GraphIsSound(second)
    ensures Run(sha, engine, FirstStore(sha, engine, first), second.stages).Done?
  {
    hide BuildStages, GraphIsSound, FirstStore, Explained;
    var log := FirstBuildIsLogged(sha, engine, first, 0);
    AbortIsInjected(sha, engine, log, FirstStore(sha, engine, first), second, NoFaults(|second.stages|));
  }

  lemma {:induction false} AcceptedFilesShow(sha: string -> string)
    ensures !PairsTransparent(sha, Verbatim, ACCEPTED) && !ReleasesTransparent(sha, Verbatim, ACCEPTED)
  {
    hide PairsTransparent, ReleasesTransparent, Clean, ChainAt, Normalized, ParsesTo, Chains;
    var first, second := SampleGraph(ONE_SPACE), SampleGraph(TWO_SPACES);
    QuotedSpacesShow(sha);
    QuotedChains();
    assert first in ACCEPTED && second in ACCEPTED;
    assert IsReleased(first, 0) && IsReleased(second, 0);
    var a, b := ChainAt(first.stages, 0), ChainAt(second.stages, 0);
    assert IsEncoded(ACCEPTED, a) && IsEncoded(ACCEPTED, b);
    assert IsReleasedChain(ACCEPTED, a) && IsReleasedChain(ACCEPTED, b);
    if PairsTransparent(sha, Verbatim, ACCEPTED) {
      TransparentIsBlind(sha, Verbatim, ACCEPTED);
    }
    if ReleasesTransparent(sha, Verbatim, ACCEPTED) {
      ReleasesAreBlind(sha, Verbatim, ACCEPTED);
    }
  }
}

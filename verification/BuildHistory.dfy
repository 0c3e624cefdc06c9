/**
 * Who published what: builds told as an append-only log of publishes, and the store of
 * build-system/src/mocks.rs:67-78 explained by it. Nothing is assumed of the hash function
 * or the engine here.
 */
module BuildHistory {
  import opened Basics
  import opened InputHasher
  import opened DockerfileParser
  import opened BuildOrchestrator

  /** One publish: an input hash and the output it was published with. */
  datatype Publish = Publish(key: string, output: string)

  type Log = seq<Publish>

  /** The output an input hash was published with. */
  function OutputIn(log: Log, key: string): Option<string> {
    if log == [] then None
    else
      var n := |log| - 1;
      if log[n].key == key then Some(log[n].output) else OutputIn(log[..n], key)
  }

  /** The input hash that last published an output. */
  function LastPublisher(log: Log, output: string): Option<string> {
    if log == [] then None
    else
      var n := |log| - 1;
      if log[n].output == output then Some(log[n].key) else LastPublisher(log[..n], output)
  }

  /** No input hash is published twice. */
  ghost predicate PublishedOnce(log: Log) {
    forall i, j :: 0 <= i < j < |log| ==> log[i].key != log[j].key
  }

  /**
   * A build so far: the log, what each stage name stands for, whether its input hash had been
   * published before, and whether the build stopped.
   */
  datatype Progress = Progress(log: Log, outputs: map<string, string>, known: map<string, bool>, stopped: bool)

  /** The input hash of stage `j`. */
  function KeyAt(sha: string -> string, stages: seq<Stage>, j: nat): string
    requires j < |stages|
  {
    KeyOf(sha, ChainAt(stages, j))
  }

  /**
   * What building `stages` after the publishes of `log` adds to them: a stage publishes
   * unless its input hash was published before, or its parent has no result.
   */
  function Logged(sha: string -> string, engine: Engine, log: Log, stages: seq<Stage>, faults: seq<Fault>): Progress
    requires |faults| == |stages|
    decreases |stages|
  {
    if stages == [] then Progress(log, map[], map[], false)
    else
      var n := |stages| - 1;
      var before := Logged(sha, engine, log, stages[..n], faults[..n]);
      LoggedStage(engine, before, KeyAt(sha, stages, n), stages[n], faults[n])
  }

  function LoggedStage(engine: Engine, p: Progress, key: string, stage: Stage, fault: Fault): Progress {
    var known := OutputIn(p.log, key);
    if p.stopped || fault.BeforePublish? then p.(stopped := true)
    else if known.Some? then
      p.(outputs := p.outputs[stage.name := known.value], known := p.known[stage.name := true])
    else if stage.parentName.Some? && stage.parentName.value !in p.outputs then p.(stopped := true)
    else
      var parent := if stage.parentName.Some? then Some(p.outputs[stage.parentName.value]) else None;
      var output := engine(stage.instructions, parent);
      Progress(p.log + [Publish(key, output)], p.outputs[stage.name := output], p.known[stage.name := false],
               fault.AfterPublish?)
  }

  // --- The log ---

  lemma Extended(log: Log, p: Publish)
    ensures forall key :: OutputIn(log + [p], key) == if key == p.key then Some(p.output) else OutputIn(log, key)
    ensures forall o :: LastPublisher(log + [p], o) == if o == p.output then Some(p.key) else LastPublisher(log, o)
  {
    assert (log + [p])[..|log|] == log;
  }

  lemma {:induction false} KeyIsLogged(log: Log, key: string)
    ensures OutputIn(log, key).Some? <==> exists i :: 0 <= i < |log| && log[i].key == key
    ensures OutputIn(log, key).Some? ==> Publish(key, OutputIn(log, key).value) in log
    decreases |log|
  {
    if log == [] {
    } else {
      var n := |log| - 1;
      KeyIsLogged(log[..n], key);
      assert log == log[..n] + [log[n]];
    }
  }

  /** In a log without repetition, the last publisher of an output still leads to it. */
  lemma {:induction false} LastPublisherResolves(log: Log, output: string)
    requires PublishedOnce(log) && LastPublisher(log, output).Some?
    ensures OutputIn(log, LastPublisher(log, output).value) == Some(output)
    decreases |log|
  {
    var n := |log| - 1;
    if log[n].output != output {
      LastPublisherResolves(log[..n], output);
      var key := LastPublisher(log[..n], output).value;
      KeyIsLogged(log[..n], key);
    }
  }

  // --- The store explained by the log ---

  /**
   * The index holds each published key with its output; the metadata under an output is
   * that of its last publisher.
   */
  ghost predicate Explained(cache: Cache, log: Log) {
    && PublishedOnce(log)
    && (forall key :: key in cache.index <==> OutputIn(log, key).Some?)
    && (forall key :: key in cache.index ==> OutputIn(log, key) == Some(cache.index[key]))
    && (forall o :: o in cache.layers <==> LastPublisher(log, o).Some?)
    && (forall o :: o in cache.layers ==>
          LastPublisher(log, o) == Some(cache.layers[o].inputHash) && cache.layers[o].outputHash == o)
  }

  lemma {:induction false} ReportedKeyResolves(cache: Cache, log: Log)
    requires Explained(cache, log)
    ensures forall o :: o in cache.layers ==>
              cache.layers[o].inputHash in cache.index && cache.index[cache.layers[o].inputHash] == o
    ensures forall key :: key in cache.index ==> cache.index[key] in cache.layers
  {
    hide OutputIn, LastPublisher, PublishedOnce;
    forall o | o in cache.layers
      ensures cache.layers[o].inputHash in cache.index && cache.index[cache.layers[o].inputHash] == o
    {
      LastPublisherResolves(log, o);
    }
    forall key | key in cache.index
      ensures cache.index[key] in cache.layers
    {
      OutputHasPublisher(log, key);
    }
  }

  lemma {:induction false} OutputHasPublisher(log: Log, key: string)
    requires OutputIn(log, key).Some?
    ensures LastPublisher(log, OutputIn(log, key).value).Some?
    decreases |log|
  {
    var n := |log| - 1;
    if log[n].key != key {
      OutputHasPublisher(log[..n], key);
    }
  }

  lemma {:induction false} PublishIsExplained(cache: Cache, log: Log, meta: LayerMetadata)
    requires Explained(cache, log) && meta.inputHash !in cache.index
    ensures Explained(Published(cache, meta), log + [Publish(meta.inputHash, meta.outputHash)])
  {
    hide OutputIn, LastPublisher;
    Extended(log, Publish(meta.inputHash, meta.outputHash));
    KeyIsLogged(log, meta.inputHash);
  }

  // --- One build ---

  /** The metadata recorded for the last of `stages`: its output, and who published that last by then. */
  ghost predicate ReportsLast(
    sha: string -> string, engine: Engine, log: Log, stages: seq<Stage>, faults: seq<Fault>,
    metas: map<string, LayerMetadata>)
    requires |faults| == |stages| && stages != []
  {
    var n, now := |stages| - 1, Logged(sha, engine, log, stages, faults).log;
    && stages[n].layerName in metas
    && var meta := metas[stages[n].layerName];
       && OutputIn(now, KeyAt(sha, stages, n)) == Some(meta.outputHash)
       && LastPublisher(now, meta.outputHash) == Some(meta.inputHash)
  }

  /** The build has got through `done`, and the log explains its results, metadata and store. */
  ghost predicate Tracked(
    sha: string -> string, engine: Engine, log: Log, done: seq<Stage>, faults: seq<Fault>, b: Built)
    requires |faults| == |done|
  {
    var p := Logged(sha, engine, log, done, faults);
    && !p.stopped && Explained(b.cache, p.log)
    && b.results.Keys == Chains(done).Keys == p.outputs.Keys == p.known.Keys
    && (forall name :: name in b.results ==>
          && b.results[name].inputHash == KeyOf(sha, Chains(done)[name])
          && b.results[name].outputHash == p.outputs[name] && p.outputs[name] in b.cache.layers
          && b.results[name].wasCacheHit == p.known[name])
    && forall j :: IsLast(done, j) ==> ReportsLast(sha, engine, log, done[..j + 1], faults[..j + 1], b.metas)
  }

  /** The log of one more stage. */
  lemma LoggedSnoc(
    sha: string -> string, engine: Engine, log: Log, done: seq<Stage>, faults: seq<Fault>, stage: Stage, fault: Fault)
    requires |faults| == |done|
    ensures var key := KeyOf(sha, ChainOf(Chains(done), stage));
            && Logged(sha, engine, log, done + [stage], faults + [fault])
            == LoggedStage(engine, Logged(sha, engine, log, done, faults), key, stage, fault)
            && KeyAt(sha, done + [stage], |done|) == key
            && Chains(done + [stage]) == Chains(done)[stage.name := ChainOf(Chains(done), stage)]
  {
    hide LoggedStage, KeyOf, ChainOf;
    assert (done + [stage])[..|done|] == done && (faults + [fault])[..|done|] == faults;
  }

  /** Recording a stage's output and metadata as the log tells them. */
  lemma {:induction false} RecordingIsTracked(
    sha: string -> string, engine: Engine, log: Log, done: seq<Stage>, faults: seq<Fault>, b: Built,
    stage: Stage, fault: Fault, cache: Cache, hit: bool, meta: LayerMetadata)
    requires |faults| == |done| && Tracked(sha, engine, log, done, faults, b)
    requires b.cache.layers.Keys <= cache.layers.Keys && meta.outputHash in cache.layers
    requires var p := Logged(sha, engine, log, done + [stage], faults + [fault]);
             && !p.stopped && Explained(cache, p.log)
             && p.outputs == Logged(sha, engine, log, done, faults).outputs[stage.name := meta.outputHash]
             && p.known == Logged(sha, engine, log, done, faults).known[stage.name := hit]
             && OutputIn(p.log, KeyAt(sha, done + [stage], |done|)) == Some(meta.outputHash)
             && LastPublisher(p.log, meta.outputHash) == Some(meta.inputHash)
    ensures var key := KeyAt(sha, done + [stage], |done|);
            Tracked(sha, engine, log, done + [stage], faults + [fault],
                    Recorded(b.(cache := cache), stage, StageResult(key, meta.outputHash, hit), meta))
  {
    hide Explained, KeyOf, Logged, ReportsLast, IsLast, OutputIn, LastPublisher, Chains, ChainOf, KeyAt, LoggedStage;
    LoggedSnoc(sha, engine, log, done, faults, stage, fault);
    MetasAreTracked(sha, engine, log, done, faults, b.metas, stage, fault, meta);
  }

  /** What a tracked build knows about its next stage. */
  lemma {:induction false} NextStage(
    sha: string -> string, engine: Engine, log: Log, done: seq<Stage>, faults: seq<Fault>, b: Built, stage: Stage)
    requires |faults| == |done| && Tracked(sha, engine, log, done, faults, b)
    ensures var p := Logged(sha, engine, log, done, faults);
            && InputHash(sha, b.results, stage) == KeyAt(sha, done + [stage], |done|)
            && !p.stopped && Explained(b.cache, p.log) && b.results.Keys == p.outputs.Keys
            && forall name :: name in b.results ==>
                 b.results[name].outputHash == p.outputs[name] && p.outputs[name] in b.cache.layers
  {
    hide Explained, InputHash, KeyOf, Logged, ReportsLast, IsLast, Chains, ChainOf;
    StageKey(sha, done, b.results, stage);
    assert (done + [stage])[..|done|] == done;
  }

  /** A cache hit. */
  lemma {:induction false} HitIsTracked(
    sha: string -> string, engine: Engine, log: Log, done: seq<Stage>, faults: seq<Fault>, b: Built,
    stage: Stage, fault: Fault)
    requires |faults| == |done| && Tracked(sha, engine, log, done, faults, b)
    requires !fault.BeforePublish? && InputHash(sha, b.results, stage) in b.cache.index
    ensures var step := BuildStage(sha, engine, b, stage, fault);
            step.Done? && Tracked(sha, engine, log, done + [stage], faults + [fault], step.built)
  {
    hide Tracked, Explained, InputHash, KeyOf, KeyAt, Logged, Chains, ChainOf, OutputIn, LastPublisher;
    NextStage(sha, engine, log, done, faults, b, stage);
    LoggedSnoc(sha, engine, log, done, faults, stage, fault);
    var key := KeyAt(sha, done + [stage], |done|);
    StoreAnswers(b.cache, Logged(sha, engine, log, done, faults).log, key);
    var meta := b.cache.layers[b.cache.index[key]];
    RecordingIsTracked(sha, engine, log, done, faults, b, stage, fault, b.cache, true, meta);
    assert b.(cache := b.cache) == b;
  }

  /** A cache miss that reaches the store. */
  lemma {:induction false} MissIsTracked(
    sha: string -> string, engine: Engine, log: Log, done: seq<Stage>, faults: seq<Fault>, b: Built,
    stage: Stage, fault: Fault)
    requires |faults| == |done| && Tracked(sha, engine, log, done, faults, b)
    requires !fault.BeforePublish? && InputHash(sha, b.results, stage) !in b.cache.index
    requires stage.parentName.Some? ==> stage.parentName.value in b.results
    ensures var p := Logged(sha, engine, log, done + [stage], faults + [fault]);
            match BuildStage(sha, engine, b, stage, fault)
            case Done(next) => Tracked(sha, engine, log, done + [stage], faults + [fault], next)
            case Failed(cache, e) => p.stopped && Explained(cache, p.log)
  {
    hide Tracked, Explained, InputHash, KeyOf, KeyAt, Logged, Chains, ChainOf, OutputIn, LastPublisher;
    NextStage(sha, engine, log, done, faults, b, stage);
    LoggedSnoc(sha, engine, log, done, faults, stage, fault);
    var p, key := Logged(sha, engine, log, done, faults), KeyAt(sha, done + [stage], |done|);
    StoreAnswers(b.cache, p.log, key);
    var parent := if stage.parentName.Some? then Some(p.outputs[stage.parentName.value]) else None;
    var meta := LayerMetadata(key, engine(stage.instructions, parent), ParentKey(b.results, stage));
    PublishIsExplained(b.cache, p.log, meta);
    Extended(p.log, Publish(key, meta.outputHash));
    if !fault.AfterPublish? {
      RecordingIsTracked(sha, engine, log, done, faults, b, stage, fault, Published(b.cache, meta), false, meta);
    }
  }

  /** One stage: what it returns, and the store it leaves, are explained by one more stage of the log. */
  lemma {:induction false} StageIsTracked(
    sha: string -> string, engine: Engine, log: Log, done: seq<Stage>, faults: seq<Fault>, b: Built,
    stage: Stage, fault: Fault)
    requires |faults| == |done| && Tracked(sha, engine, log, done, faults, b)
    ensures var p := Logged(sha, engine, log, done + [stage], faults + [fault]);
            match BuildStage(sha, engine, b, stage, fault)
            case Done(next) => Tracked(sha, engine, log, done + [stage], faults + [fault], next)
            case Failed(cache, e) => p.stopped && Explained(cache, p.log)
  {
    hide Tracked, Explained, InputHash, KeyOf, KeyAt, Logged, Chains, ChainOf, OutputIn, LastPublisher;
    var hit := InputHash(sha, b.results, stage) in b.cache.index;
    if !fault.BeforePublish? && hit {
      HitIsTracked(sha, engine, log, done, faults, b, stage, fault);
    } else if !fault.BeforePublish? && (stage.parentName.Some? ==> stage.parentName.value in b.results) {
      MissIsTracked(sha, engine, log, done, faults, b, stage, fault);
    } else {
      NextStage(sha, engine, log, done, faults, b, stage);
      LoggedSnoc(sha, engine, log, done, faults, stage, fault);
      StoreAnswers(b.cache, Logged(sha, engine, log, done, faults).log, InputHash(sha, b.results, stage));
    }
  }

  /** How the store's answers for a key read in the log. */
  lemma {:induction false} StoreAnswers(cache: Cache, log: Log, key: string)
    requires Explained(cache, log)
    ensures key in cache.index <==> OutputIn(log, key).Some?
    ensures key in cache.index ==>
              var output := cache.index[key];
              && OutputIn(log, key) == Some(output) && output in cache.layers
              && LastPublisher(log, output) == Some(cache.layers[output].inputHash)
              && cache.layers[output].outputHash == output
  {
    hide OutputIn, LastPublisher, PublishedOnce;
    ReportedKeyResolves(cache, log);
  }

  lemma {:induction false} MetasAreTracked(
    sha: string -> string, engine: Engine, log: Log, done: seq<Stage>, faults: seq<Fault>,
    metas: map<string, LayerMetadata>, stage: Stage, fault: Fault, meta: LayerMetadata)
    requires |faults| == |done|
    requires forall j :: IsLast(done, j) ==> ReportsLast(sha, engine, log, done[..j + 1], faults[..j + 1], metas)
    requires var now := Logged(sha, engine, log, done + [stage], faults + [fault]).log;
             && OutputIn(now, KeyAt(sha, done + [stage], |done|)) == Some(meta.outputHash)
             && LastPublisher(now, meta.outputHash) == Some(meta.inputHash)
    ensures var stages, all := done + [stage], faults + [fault];
            forall j :: IsLast(stages, j) ==>
              ReportsLast(sha, engine, log, stages[..j + 1], all[..j + 1], metas[stage.layerName := meta])
  {
    hide Logged, OutputIn, LastPublisher, KeyAt;
    var stages, all, after := done + [stage], faults + [fault], metas[stage.layerName := meta];
    forall j: nat | IsLast(stages, j)
      ensures ReportsLast(sha, engine, log, stages[..j + 1], all[..j + 1], after)
    {
      if j == |done| {
        assert stages[..j + 1] == stages && all[..j + 1] == all;
      } else {
        assert stages[|done|].layerName != stages[j].layerName;
        assert forall i :: j < i < |done| ==> stages[i] == done[i];
        assert IsLast(done, j);
        assert stages[..j + 1] == done[..j + 1] && all[..j + 1] == faults[..j + 1];
      }
    }
  }

  /** A stopped build logs nothing more. */
  lemma {:induction false} StoppedForGood(
    sha: string -> string, engine: Engine, log: Log, done: seq<Stage>, faults: seq<Fault>,
    stages: seq<Stage>, rest: seq<Fault>)
    requires |faults| == |done| && |rest| == |stages| && Logged(sha, engine, log, done, faults).stopped
    ensures Logged(sha, engine, log, done + stages, faults + rest) == Logged(sha, engine, log, done, faults)
    decreases |stages|
  {
    hide Logged, KeyOf;
    if stages == [] {
      assert done + stages == done && faults + rest == faults;
    } else {
      LoggedSnoc(sha, engine, log, done, faults, stages[0], rest[0]);
      StoppedForGood(sha, engine, log, done + [stages[0]], faults + [rest[0]], stages[1..], rest[1..]);
      assert done + [stages[0]] + stages[1..] == done + stages && faults + [rest[0]] + rest[1..] == faults + rest;
    }
  }

  /** All remaining stages, wherever the build stops. */
  lemma {:induction false} StagesAreTracked(
    sha: string -> string, engine: Engine, log: Log, done: seq<Stage>, faults: seq<Fault>, b: Built,
    stages: seq<Stage>, rest: seq<Fault>)
    requires |faults| == |done| && |rest| == |stages| && Tracked(sha, engine, log, done, faults, b)
    ensures match BuildStages(sha, engine, b, stages, rest)
            case Done(last) => Tracked(sha, engine, log, done + stages, faults + rest, last)
            case Failed(cache, e) =>
              var p := Logged(sha, engine, log, done + stages, faults + rest);
              p.stopped && Explained(cache, p.log)
    decreases |stages|
  {
    hide Tracked, Explained, BuildStage, Logged;
    if stages == [] {
      assert done + stages == done && faults + rest == faults;
    } else {
      StageIsTracked(sha, engine, log, done, faults, b, stages[0], rest[0]);
      var step := BuildStage(sha, engine, b, stages[0], rest[0]);
      assert done + [stages[0]] + stages[1..] == done + stages && faults + [rest[0]] + rest[1..] == faults + rest;
      if step.Done? {
        StagesAreTracked(sha, engine, log, done + [stages[0]], faults + [rest[0]], step.built, stages[1..], rest[1..]);
      } else {
        StoppedForGood(sha, engine, log, done + [stages[0]], faults + [rest[0]], stages[1..], rest[1..]);
      }
    }
  }

  lemma {:induction false} StartIsTracked(sha: string -> string, engine: Engine, log: Log, cache: Cache)
    requires Explained(cache, log)
    ensures Tracked(sha, engine, log, [], [], Built(map[], map[], cache))
  {
    hide Explained;
  }

  /** A whole build continues the log, and stops exactly where the log does. */
  lemma {:induction false} BuildIsTracked(
    sha: string -> string, engine: Engine, log: Log, cache: Cache, stages: seq<Stage>, faults: seq<Fault>)
    requires |faults| == |stages| && Explained(cache, log)
    ensures var p := Logged(sha, engine, log, stages, faults);
            match BuildStages(sha, engine, Built(map[], map[], cache), stages, faults)
            case Done(b) => Tracked(sha, engine, log, stages, faults, b)
            case Failed(after, e) => p.stopped && Explained(after, p.log)
  {
    hide Tracked, Explained, BuildStages, Logged;
    StartIsTracked(sha, engine, log, cache);
    StagesAreTracked(sha, engine, log, [], [], Built(map[], map[], cache), stages, faults);
    assert [] + stages == stages && [] + faults == faults;
  }

  // --- The input hash a manifest carries ---

  /**
   * What the entry of stage `j` carries, read in the log before that stage: its own input
   * hash exactly when that was not published yet or was the last to publish the output.
   */
  ghost predicate CarriesLastPublisher(
    sha: string -> string, engine: Engine, log: Log, stages: seq<Stage>, faults: seq<Fault>, j: nat,
    entry: ManifestLayer)
    requires |faults| == |stages| && j < |stages|
  {
    var before, key := Logged(sha, engine, log, stages[..j], faults[..j]).log, KeyAt(sha, stages, j);
    && (OutputIn(before, key).Some? ==>
          && OutputIn(before, key) == Some(entry.outputHash)
          && LastPublisher(before, entry.outputHash) == Some(entry.inputHash))
    && (entry.inputHash == key <==> OutputIn(before, key).None? || LastPublisher(before, entry.outputHash) == Some(key))
  }

  lemma {:induction false} ReportReadBefore(
    sha: string -> string, engine: Engine, log: Log, stages: seq<Stage>, faults: seq<Fault>, j: nat,
    metas: map<string, LayerMetadata>, entry: ManifestLayer)
    requires |faults| == |stages| && j < |stages|
    requires !Logged(sha, engine, log, stages[..j + 1], faults[..j + 1]).stopped
    requires ReportsLast(sha, engine, log, stages[..j + 1], faults[..j + 1], metas)
    requires var meta := metas[stages[j].layerName];
             entry.inputHash == meta.inputHash && entry.outputHash == meta.outputHash
    ensures CarriesLastPublisher(sha, engine, log, stages, faults, j, entry)
  {
    hide Logged, OutputIn, LastPublisher, KeyOf, ChainOf;
    assert stages[..j + 1] == stages[..j] + [stages[j]] && faults[..j + 1] == faults[..j] + [faults[j]];
    LoggedSnoc(sha, engine, log, stages[..j], faults[..j], stages[j], faults[j]);
    var p, key := Logged(sha, engine, log, stages[..j], faults[..j]), KeyAt(sha, stages, j);
    if OutputIn(p.log, key).None? {
      var now := Logged(sha, engine, log, stages[..j + 1], faults[..j + 1]);
      Extended(p.log, now.log[|now.log| - 1]);
    }
  }

  /** An unstopped build did not stop earlier. */
  lemma {:induction false} NotStoppedBefore(
    sha: string -> string, engine: Engine, log: Log, stages: seq<Stage>, faults: seq<Fault>, j: nat)
    requires |faults| == |stages| && j <= |stages| && !Logged(sha, engine, log, stages, faults).stopped
    ensures !Logged(sha, engine, log, stages[..j], faults[..j]).stopped
  {
    hide Logged;
    assert stages[..j] + stages[j..] == stages && faults[..j] + faults[j..] == faults;
    if Logged(sha, engine, log, stages[..j], faults[..j]).stopped {
      StoppedForGood(sha, engine, log, stages[..j], faults[..j], stages[j..], faults[j..]);
    }
  }

  /** Metadata is only recorded under the layer names of stages. */
  lemma {:induction false} MetasComeFromStages(
    sha: string -> string, engine: Engine, b: Built, stages: seq<Stage>, faults: seq<Fault>, layer: string)
    requires |faults| == |stages| && layer !in b.metas
    requires var run := BuildStages(sha, engine, b, stages, faults); run.Done? && layer in run.built.metas
    ensures exists j :: 0 <= j < |stages| && stages[j].layerName == layer
    decreases |stages|
  {
    hide InputHash;
    if stages[0].layerName != layer {
      var next := BuildStage(sha, engine, b, stages[0], faults[0]).built;
      MetasComeFromStages(sha, engine, next, stages[1..], faults[1..], layer);
      var j :| 0 <= j < |stages[1..]| && stages[1..][j].layerName == layer;
      assert stages[j + 1].layerName == layer;
    }
  }

  lemma {:induction false} LastExists(stages: seq<Stage>, j: nat) returns (last: nat)
    requires j < |stages|
    ensures IsLast(stages, last) && stages[last].layerName == stages[j].layerName
    decreases |stages| - j
  {
    if i :| j < i < |stages| && stages[i].layerName == stages[j].layerName {
      last := LastExists(stages, i);
    } else {
      last := j;
    }
  }

  /** A released entry belongs to the last stage with its layer name, and carries what the log before it says. */
  ghost predicate EntryIsExplained(
    sha: string -> string, engine: Engine, log: Log, graph: Graph, faults: seq<Fault>, entry: ManifestLayer)
    requires |faults| == |graph.stages|
  {
    exists j: nat :: IsLast(graph.stages, j) && graph.stages[j].layerName == entry.name
      && CarriesLastPublisher(sha, engine, log, graph.stages, faults, j, entry)
  }

  lemma {:induction false} EntriesAreExplained(
    sha: string -> string, engine: Engine, log: Log, cache: Cache, graph: Graph, faults: seq<Fault>, k: nat)
    requires |faults| == |graph.stages| && Explained(cache, log) && k < |graph.release.layerOrder|
    requires var run := BuildStages(sha, engine, Built(map[], map[], cache), graph.stages, faults);
             run.Done? && graph.release.layerOrder[k] in run.built.metas
    ensures var run := BuildStages(sha, engine, Built(map[], map[], cache), graph.stages, faults);
            EntryIsExplained(sha, engine, log, graph, faults,
                             ManifestEntry(graph.release.layerOrder, run.built.metas, k))
  {
    hide BuildStages, Logged, Explained, ReportsLast, IsLast, CarriesLastPublisher;
    var start, layer := Built(map[], map[], cache), graph.release.layerOrder[k];
    var b := BuildStages(sha, engine, start, graph.stages, faults).built;
    BuildIsTracked(sha, engine, log, cache, graph.stages, faults);
    MetasComeFromStages(sha, engine, start, graph.stages, faults, layer);
    var i :| 0 <= i < |graph.stages| && graph.stages[i].layerName == layer;
    var j := LastExists(graph.stages, i);
    IsLastIsStage(graph.stages, j);
    NotStoppedBefore(sha, engine, log, graph.stages, faults, j + 1);
    var entry := ManifestEntry(graph.release.layerOrder, b.metas, k);
    ReportReadBefore(sha, engine, log, graph.stages, faults, j, b.metas, entry);
  }

  lemma IsLastIsStage(stages: seq<Stage>, j: nat)
    requires IsLast(stages, j)
    ensures j < |stages|
  {
  }

  // --- Why a build stops ---

  /** On an explained store a stage fails only by injection or for want of its parent. */
  lemma {:induction false} StageFailure(
    sha: string -> string, engine: Engine, log: Log, done: seq<Stage>, faults: seq<Fault>, b: Built,
    stage: Stage, fault: Fault)
    requires |faults| == |done| && Tracked(sha, engine, log, done, faults, b)
    requires BuildStage(sha, engine, b, stage, fault).Failed?
    ensures var e := BuildStage(sha, engine, b, stage, fault).error;
            || (e == Injected && !fault.NoFault?)
            || (e == ParentResultMissing && stage.parentName.Some? && stage.parentName.value !in Chains(done))
  {
    hide Explained, InputHash, KeyOf, Logged, ReportsLast, IsLast, Chains, ChainOf, OutputIn, LastPublisher;
    StoreAnswers(b.cache, Logged(sha, engine, log, done, faults).log, InputHash(sha, b.results, stage));
  }

  lemma {:induction false} StagesFailure(
    sha: string -> string, engine: Engine, log: Log, done: seq<Stage>, faults: seq<Fault>, b: Built,
    stages: seq<Stage>, rest: seq<Fault>)
    requires |faults| == |done| && |rest| == |stages| && Tracked(sha, engine, log, done, faults, b)
    requires ParentsAreEarlier(done + stages) && BuildStages(sha, engine, b, stages, rest).Failed?
    ensures BuildStages(sha, engine, b, stages, rest).error == Injected
    ensures exists k :: 0 <= k < |rest| && !rest[k].NoFault?
    decreases |stages|
  {
    hide Tracked, BuildStage, Logged, ParentsAreEarlier, Chains;
    var step := BuildStage(sha, engine, b, stages[0], rest[0]);
    if step.Failed? {
      StageFailure(sha, engine, log, done, faults, b, stages[0], rest[0]);
      ParentIsBuilt(done, stages);
    } else {
      StageIsTracked(sha, engine, log, done, faults, b, stages[0], rest[0]);
      assert done + stages == done + [stages[0]] + stages[1..];
      StagesFailure(sha, engine, log, done + [stages[0]], faults + [rest[0]], step.built, stages[1..], rest[1..]);
      var k :| 0 <= k < |rest[1..]| && !rest[1..][k].NoFault?;
      assert !rest[k + 1].NoFault?;
    }
  }

  lemma {:induction false} LayerIsRecorded(
    sha: string -> string, engine: Engine, log: Log, stages: seq<Stage>, faults: seq<Fault>, b: Built, layer: string)
    requires |faults| == |stages| && Tracked(sha, engine, log, stages, faults, b) && layer in LayerStages(stages)
    ensures layer in b.metas
  {
    hide Logged, Explained, LayerStages, OutputIn, LastPublisher, KeyAt;
    LayerHasStage(stages, layer);
    var i :| 0 <= i < |stages| && stages[i].layerName == layer;
    var j := LastExists(stages, i);
    assert ReportsLast(sha, engine, log, stages[..j + 1], faults[..j + 1], b.metas);
  }

  /**
   * A whole build on a store that a log explains, for every hash function and engine: the
   * store it leaves is explained by the continued log wherever it stops; for a sound graph it
   * stops early only where a failure was injected; and each released entry carries its own
   * stage's input hash exactly when the log before that stage says so.
   */
  method BuildOnHistory(
    sha: string -> string, engine: Engine, graph: Graph, cache: Cache, faults: seq<Fault>, ghost log: Log)
    returns (r: Outcome)
    requires |faults| == |graph.stages| && Explained(cache, log)
    ensures Explained(r.cache, Logged(sha, engine, log, graph.stages, faults).log)
    ensures GraphIsSound(graph) && r.Aborted? ==>
              r.error == Injected && exists k :: 0 <= k < |faults| && !faults[k].NoFault?
    ensures r.Released? ==> forall k :: 0 <= k < |r.layers| ==>
              EntryIsExplained(sha, engine, log, graph, faults, r.layers[k])
  {
    hide BuildStages, Logged, Explained, EntryIsExplained, OrdersAreBijective, ParentsAreEarlier;
    r := Build(sha, engine, graph, cache, faults);
    BuildIsTracked(sha, engine, log, cache, graph.stages, faults);
    if GraphIsSound(graph) && r.Aborted? {
      AbortIsInjected(sha, engine, log, cache, graph, faults);
    }
    if r.Released? {
      forall k | 0 <= k < |r.layers|
        ensures EntryIsExplained(sha, engine, log, graph, faults, r.layers[k])
      {
        EntriesAreExplained(sha, engine, log, cache, graph, faults, k);
      }
    }
  }

  lemma {:induction false} AbortIsInjected(
    sha: string -> string, engine: Engine, log: Log, cache: Cache, graph: Graph, faults: seq<Fault>)
    requires |faults| == |graph.stages| && Explained(cache, log) && GraphIsSound(graph)
    ensures match BuildStages(sha, engine, Built(map[], map[], cache), graph.stages, faults)
            case Failed(_, e) => e == Injected && exists k :: 0 <= k < |faults| && !faults[k].NoFault?
            case Done(b) => forall k :: 0 <= k < |graph.release.layerOrder| ==> graph.release.layerOrder[k] in b.metas
  {
    hide BuildStages, Logged, Explained, Tracked, OrdersAreBijective, ParentsAreEarlier, LayerStages;
    var start := Built(map[], map[], cache);
    var run := BuildStages(sha, engine, start, graph.stages, faults);
    if run.Failed? {
      StartIsTracked(sha, engine, log, cache);
      assert [] + graph.stages == graph.stages;
      StagesFailure(sha, engine, log, [], [], start, graph.stages, faults);
    } else {
      BuildIsTracked(sha, engine, log, cache, graph.stages, faults);
      forall k | 0 <= k < |graph.release.layerOrder|
        ensures graph.release.layerOrder[k] in run.built.metas
      {
        LayerIsRecorded(sha, engine, log, graph.stages, faults, run.built, graph.release.layerOrder[k]);
      }
    }
  }

  // --- Lineage ---

  /** The input hash of a chain's parent. */
  function ParentKeyOf(sha: string -> string, chain: Chain): Option<string> {
    if chain.parent.Some? then Some(KeyOf(sha, chain.parent.value)) else None
  }

  /** The two input hashes of this metadata are those of a chain and of its parent. */
  ghost predicate Descends(sha: string -> string, meta: LayerMetadata) {
    exists c: Chain :: KeyOf(sha, c) == meta.inputHash && ParentKeyOf(sha, c) == meta.parentInputHash
  }

  ghost predicate StoreDescends(sha: string -> string, cache: Cache) {
    forall o :: o in cache.layers ==> Descends(sha, cache.layers[o])
  }

  /** The results so far have the input hashes of their chains, and all metadata descends. */
  ghost predicate InLine(sha: string -> string, done: seq<Stage>, b: Built) {
    && b.results.Keys == Chains(done).Keys
    && (forall name :: name in b.results ==> b.results[name].inputHash == KeyOf(sha, Chains(done)[name]))
    && StoreDescends(sha, b.cache) && forall layer :: layer in b.metas ==> Descends(sha, b.metas[layer])
  }

  lemma {:induction false} StageInLine(
    sha: string -> string, engine: Engine, done: seq<Stage>, b: Built, stage: Stage, fault: Fault)
    requires InLine(sha, done, b)
    ensures match BuildStage(sha, engine, b, stage, fault)
            case Done(next) => InLine(sha, done + [stage], next)
            case Failed(cache, _) => StoreDescends(sha, cache)
  {
    hide InputHash, KeyOf, Descends, ParentKeyOf, Chains, ChainOf;
    var chain, key := ChainOf(Chains(done), stage), InputHash(sha, b.results, stage);
    StageKey(sha, done, b.results, stage);
    ParentKeyIs(sha, done, b, stage);
    var step := BuildStage(sha, engine, b, stage, fault);
    if key in b.cache.index && b.cache.index[key] in b.cache.layers {
      var output := b.cache.index[key];
      RecordInLine(sha, done, b, stage, b.cache, StageResult(key, output, true), b.cache.layers[output]);
      assert b.(cache := b.cache) == b;
    } else if step.Done? {
      var meta := step.built.metas[stage.layerName];
      ChainDescends(sha, chain, meta.outputHash);
      RecordInLine(sha, done, b, stage, Published(b.cache, meta), StageResult(key, meta.outputHash, false), meta);
    } else {
      forall output
        ensures Descends(sha, LayerMetadata(key, output, ParentKey(b.results, stage)))
      {
        ChainDescends(sha, chain, output);
      }
    }
  }

  lemma {:induction false} ParentKeyIs(sha: string -> string, done: seq<Stage>, b: Built, stage: Stage)
    requires InLine(sha, done, b)
    ensures ParentKey(b.results, stage) == ParentKeyOf(sha, ChainOf(Chains(done), stage))
  {
    hide KeyOf, Chains, StoreDescends, Descends;
  }

  lemma {:induction false} RecordInLine(
    sha: string -> string, done: seq<Stage>, b: Built, stage: Stage, cache: Cache, result: StageResult,
    meta: LayerMetadata)
    requires InLine(sha, done, b) && StoreDescends(sha, cache) && Descends(sha, meta)
    requires result.inputHash == KeyOf(sha, ChainOf(Chains(done), stage))
    ensures InLine(sha, done + [stage], Recorded(b.(cache := cache), stage, result, meta))
  {
    hide KeyOf, ChainOf, StoreDescends, Descends;
    assert (done + [stage])[..|done|] == done;
  }

  lemma ChainDescends(sha: string -> string, chain: Chain, output: string)
    ensures Descends(sha, LayerMetadata(KeyOf(sha, chain), output, ParentKeyOf(sha, chain)))
  {
    hide KeyOf, ParentKeyOf;
  }

  lemma {:induction false} StagesInLine(
    sha: string -> string, engine: Engine, done: seq<Stage>, b: Built, stages: seq<Stage>, faults: seq<Fault>)
    requires InLine(sha, done, b) && |faults| == |stages|
    ensures match BuildStages(sha, engine, b, stages, faults)
            case Done(last) => InLine(sha, done + stages, last)
            case Failed(cache, _) => StoreDescends(sha, cache)
    decreases |stages|
  {
    hide InLine, StoreDescends, BuildStage;
    if stages == [] {
      assert done + stages == done;
    } else {
      StageInLine(sha, engine, done, b, stages[0], faults[0]);
      var step := BuildStage(sha, engine, b, stages[0], faults[0]);
      assert done + stages == done + [stages[0]] + stages[1..];
      if step.Done? {
        StagesInLine(sha, engine, done + [stages[0]], step.built, stages[1..], faults[1..]);
      }
    }
  }

  lemma {:induction false} BuildInLine(
    sha: string -> string, engine: Engine, cache: Cache, stages: seq<Stage>, faults: seq<Fault>)
    requires StoreDescends(sha, cache) && |faults| == |stages|
    ensures match BuildStages(sha, engine, Built(map[], map[], cache), stages, faults)
            case Done(last) => InLine(sha, stages, last)
            case Failed(after, _) => StoreDescends(sha, after)
  {
    hide StoreDescends, BuildStages;
    assert InLine(sha, [], Built(map[], map[], cache));
    StagesInLine(sha, engine, [], Built(map[], map[], cache), stages, faults);
    assert [] + stages == stages;
  }

  /** Without collisions, the parent hash is that of the chain the input hash stands for. */
  lemma {:induction false} ParentIsDetermined(sha: string -> string, meta: LayerMetadata, c: Chain)
    requires Ideal(sha) && Descends(sha, meta) && meta.inputHash == KeyOf(sha, c)
    ensures meta.parentInputHash == ParentKeyOf(sha, c)
  {
    hide Ideal, KeyOf, Lines;
    var d: Chain :| KeyOf(sha, d) == meta.inputHash && ParentKeyOf(sha, d) == meta.parentInputHash;
    KeyInjective(sha, c, d);
    if c.parent.Some? {
      SameNormalFormSameKey(sha, c.parent.value, d.parent.value);
    }
  }

  // --- What is published stays ---

  lemma {:induction false} StageKeepsOutputs(
    engine: Engine, p: Progress, own: string, stage: Stage, fault: Fault, key: string)
    requires OutputIn(p.log, key).Some?
    ensures OutputIn(LoggedStage(engine, p, own, stage, fault).log, key) == OutputIn(p.log, key)
  {
    hide OutputIn;
    var after := LoggedStage(engine, p, own, stage, fault);
    if after.log != p.log {
      Extended(p.log, after.log[|after.log| - 1]);
    }
  }

  /** A log only grows: a key published by the time of stage `j` keeps its output. */
  lemma {:induction false} OutputStays(
    sha: string -> string, engine: Engine, log: Log, stages: seq<Stage>, faults: seq<Fault>, j: nat, key: string)
    requires |faults| == |stages| && j <= |stages|
    requires OutputIn(Logged(sha, engine, log, stages[..j], faults[..j]).log, key).Some?
    ensures OutputIn(Logged(sha, engine, log, stages, faults).log, key)
         == OutputIn(Logged(sha, engine, log, stages[..j], faults[..j]).log, key)
    decreases |stages|
  {
    hide OutputIn, KeyAt, LoggedStage;
    if j == |stages| {
      assert stages[..j] == stages && faults[..j] == faults;
    } else {
      var n := |stages| - 1;
      assert stages[..n][..j] == stages[..j] && faults[..n][..j] == faults[..j];
      OutputStays(sha, engine, log, stages[..n], faults[..n], j, key);
      var before := Logged(sha, engine, log, stages[..n], faults[..n]);
      StageKeepsOutputs(engine, before, KeyAt(sha, stages, n), stages[n], faults[n], key);
    }
  }

  // --- Whole runs ---

  /** One call of `build`: the stages of its Dockerfile, and what goes wrong. */
  datatype Job = Job(stages: seq<Stage>, faults: seq<Fault>)

  ghost predicate AreJobs(jobs: seq<Job>) {
    forall k :: 0 <= k < |jobs| ==> |jobs[k].faults| == |jobs[k].stages|
  }

  function CacheOf(step: BuildOrchestrator.Step): Cache {
    match step
    case Done(b) => b.cache
    case Failed(cache, e) => cache
  }

  /** The store after a sequence of builds. */
  ghost function StoreAfter(sha: string -> string, engine: Engine, jobs: seq<Job>): Cache
    requires AreJobs(jobs)
    decreases |jobs|
  {
    if jobs == [] then EMPTY_CACHE
    else
      var n := |jobs| - 1;
      var start := Built(map[], map[], StoreAfter(sha, engine, jobs[..n]));
      CacheOf(BuildStages(sha, engine, start, jobs[n].stages, jobs[n].faults))
  }

  /** Everything a sequence of builds published, in order. */
  ghost function LogAfter(sha: string -> string, engine: Engine, jobs: seq<Job>): Log
    requires AreJobs(jobs)
    decreases |jobs|
  {
    if jobs == [] then []
    else
      var n := |jobs| - 1;
      Logged(sha, engine, LogAfter(sha, engine, jobs[..n]), jobs[n].stages, jobs[n].faults).log
  }

  /**
   * After any builds, each stopping anywhere: the metadata under an output names the input
   * hash that published it last, and that input hash still resolves to the output.
   */
  lemma {:induction false} EveryStoreIsExplained(sha: string -> string, engine: Engine, jobs: seq<Job>)
    requires AreJobs(jobs)
    ensures var cache, log := StoreAfter(sha, engine, jobs), LogAfter(sha, engine, jobs);
            && Explained(cache, log)
            && forall o :: o in cache.layers ==>
                 && LastPublisher(log, o) == Some(cache.layers[o].inputHash)
                 && cache.layers[o].inputHash in cache.index && cache.index[cache.layers[o].inputHash] == o
    decreases |jobs|
  {
    hide BuildStages, Logged, OutputIn, LastPublisher;
    var cache, log := StoreAfter(sha, engine, jobs), LogAfter(sha, engine, jobs);
    if jobs == [] {
      NothingPublished();
    } else {
      var n := |jobs| - 1;
      EveryStoreIsExplained(sha, engine, jobs[..n]);
      BuildIsTracked(sha, engine, LogAfter(sha, engine, jobs[..n]), StoreAfter(sha, engine, jobs[..n]),
                     jobs[n].stages, jobs[n].faults);
    }
    ReportedKeyResolves(cache, log);
  }

  /**
   * After any builds, each stopping anywhere: wherever the metadata in the store has the
   * input hash of a chain, it has the input hash of that chain's parent as its parent's, and
   * none for a root.
   */
  lemma {:induction false} EveryStoreDescends(sha: string -> string, engine: Engine, jobs: seq<Job>)
    requires AreJobs(jobs)
    ensures var cache := StoreAfter(sha, engine, jobs);
            && StoreDescends(sha, cache)
            && (Ideal(sha) ==>
                  forall o, c: Chain :: o in cache.layers && cache.layers[o].inputHash == KeyOf(sha, c) ==>
                    cache.layers[o].parentInputHash == ParentKeyOf(sha, c))
    decreases |jobs|
  {
    hide BuildStages, KeyOf, Ideal, ParentKeyOf, Descends;
    var cache := StoreAfter(sha, engine, jobs);
    if jobs == [] {
    } else {
      var n := |jobs| - 1;
      EveryStoreDescends(sha, engine, jobs[..n]);
      BuildInLine(sha, engine, StoreAfter(sha, engine, jobs[..n]), jobs[n].stages, jobs[n].faults);
    }
    if Ideal(sha) {
      forall o, c: Chain | o in cache.layers && cache.layers[o].inputHash == KeyOf(sha, c)
        ensures cache.layers[o].parentInputHash == ParentKeyOf(sha, c)
      {
        ParentIsDetermined(sha, cache.layers[o], c);
      }
    }
  }

  ghost predicate IsKey(sha: string -> string, key: string) {
    exists c: Chain :: KeyOf(sha, c) == key
  }

  /** The same of every entry a build releases after any builds. */
  method BuildAfterBuilds(
    sha: string -> string, engine: Engine, graph: Graph, cache: Cache, faults: seq<Fault>, ghost jobs: seq<Job>)
    returns (r: Outcome)
    requires |faults| == |graph.stages| && AreJobs(jobs) && cache == StoreAfter(sha, engine, jobs) && Ideal(sha)
    ensures r.Released? ==> forall k, c: Chain :: 0 <= k < |r.layers| && r.layers[k].inputHash == KeyOf(sha, c) ==>
              r.layers[k].parentInputHash == ParentKeyOf(sha, c)
    ensures r.Released? ==> forall k :: 0 <= k < |r.layers| ==>
              IsKey(sha, r.layers[k].inputHash)
  {
    hide BuildStages, KeyOf, Ideal, ParentKeyOf, StoreAfter;
    r := Build(sha, engine, graph, cache, faults);
    EveryStoreDescends(sha, engine, jobs);
    BuildInLine(sha, engine, cache, graph.stages, faults);
    if r.Released? {
      ghost var b := BuildStages(sha, engine, Built(map[], map[], cache), graph.stages, faults).built;
      forall k, c: Chain | 0 <= k < |r.layers| && r.layers[k].inputHash == KeyOf(sha, c)
        ensures r.layers[k].parentInputHash == ParentKeyOf(sha, c)
      {
        ParentIsDetermined(sha, b.metas[graph.release.layerOrder[k]], c);
      }
      forall k | 0 <= k < |r.layers|
        ensures IsKey(sha, r.layers[k].inputHash)
      {
        var meta := b.metas[graph.release.layerOrder[k]];
        assert Descends(sha, meta);
        var c: Chain :| KeyOf(sha, c) == meta.inputHash && ParentKeyOf(sha, c) == meta.parentInputHash;
        assert r.layers[k].inputHash == KeyOf(sha, c);
      }
    }
  }

  lemma {:induction false} NothingPublished()
    ensures Explained(EMPTY_CACHE, [])
  {
  }
}

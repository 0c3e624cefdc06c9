/**
 * What the parser makes of a file (build-system/src/parser.rs:9-121), told from the lines of
 * the file and not from the parsing loop.
 */
module DockerfileParserLaws {
  import opened Basics
  import opened InputHasher
  import opened DockerfileParser
  import ParserTextLaws

  // --- The lines that count ---

  /** A line counts, trimmed, unless it is blank or starts with '#'. */
  function Counted(raw: string): (r: seq<string>)
    ensures |r| <= 1
  {
    var line := Trim(raw);
    if line == "" || line[0] == '#' then [] else [line]
  }

  function Significant(lines: seq<string>): seq<string> {
    if lines == [] then []
    else
      var n := |lines| - 1;
      Significant(lines[..n]) + Counted(lines[n])
  }

  predicate IsFrom(line: string) {
    StartsWithUpper(line, "FROM")
  }

  predicate IsLabel(line: string) {
    StartsWithUpper(line, "LABEL")
  }

  /** The lines from the first FROM line on. */
  function FromFirst(lines: seq<string>): seq<string> {
    if lines == [] then [] else if IsFrom(lines[0]) then lines else FromFirst(lines[1..])
  }

  /** The instructions of all stages, one after the other. */
  function Flat(stages: seq<Stage>): seq<string> {
    if stages == [] then []
    else
      var n := |stages| - 1;
      Flat(stages[..n]) + stages[n].instructions
  }

  /** The value of the label `key` on this line. */
  function LabelHere(line: string, key: string): Option<string> {
    if !IsLabel(line) then None
    else
      match ParseLabel(line)
      case None => None
      case Some((k, v)) => if k == key then Some(v) else None
  }

  /** The value of the last label `key`. */
  function LastLabel(lines: seq<string>, key: string): Option<string> {
    if lines == [] then None
    else
      var n := |lines| - 1;
      var here := LabelHere(lines[n], key);
      if here.Some? then here else LastLabel(lines[..n], key)
  }

  const META := "steel.meta."

  /** The value this line gives to the workload entry `name`. */
  function MetaHere(line: string, name: string): Option<string> {
    if !IsLabel(line) then None
    else
      match ParseLabel(line)
      case None => None
      case Some((k, v)) => if META <= k && TrimStartMatches(k, META) == name then Some(v) else None
  }

  function LastMeta(lines: seq<string>, name: string): Option<string> {
    if lines == [] then None
    else
      var n := |lines| - 1;
      var here := MetaHere(lines[n], name);
      if here.Some? then here else LastMeta(lines[..n], name)
  }

  predicate IsReleaseLabel(line: string) {
    && IsLabel(line)
    && match ParseLabel(line)
       case None => false
       case Some((k, _)) => "steel.release" <= k || "steel.meta" <= k
  }

  // --- What a file means ---

  /** One FROM line, then no other. */
  ghost predicate IsStageText(text: seq<string>) {
    text != [] && IsFrom(text[0]) && forall i :: 0 < i < |text| ==> !IsFrom(text[i])
  }

  /** The name after AS, or the stage's number. */
  function NameFor(from: string, k: nat): string {
    var words := Words(from);
    if |words| >= 4 && MatchesUpper(words[2], "AS") then words[3] else "stage_" + Decimal(k)
  }

  /** The parent is the image of the FROM line, if that is an earlier stage and not "scratch". */
  ghost predicate ParentIs(from: string, earlier: seq<Stage>, parent: Option<string>) {
    if earlier == [] then parent == None
    else
      && |Words(from)| >= 2
      && var image := Words(from)[1];
         forall p :: parent == Some(p) <==> p == image && !MatchesLower(image, "scratch") && HasName(earlier, p)
  }

  ghost predicate LabelsAre(text: seq<string>, layerName: string, order: nat) {
    && (match LastLabel(text, "steel.layer") case None => layerName == "" case Some(v) => layerName == v)
    && (match LastLabel(text, "steel.layer.order") case None => order == 0 case Some(v) => ParseU32(v) == Some(order))
  }

  ghost predicate StageIs(stages: seq<Stage>, k: nat)
    requires k < |stages|
  {
    var s := stages[k];
    && IsStageText(s.instructions)
    && s.name == NameFor(s.instructions[0], k)
    && ParentIs(s.instructions[0], stages[..k], s.parentName)
    && LabelsAre(s.instructions, s.layerName, s.order)
  }

  /** The released layers are the comma-separated parts of the last such label, trimmed. */
  ghost predicate LayersAre(listed: Option<string>, layerOrder: seq<string>) {
    match listed
    case None => layerOrder == []
    case Some(v) =>
      var parts := SplitAt(v, ',', "");
      |layerOrder| == |parts| && forall k :: 0 <= k < |parts| ==> layerOrder[k] == Trim(parts[k])
  }

  function Entry(workload: map<string, string>, name: string): Option<string> {
    if name in workload then Some(workload[name]) else None
  }

  ghost predicate ReleaseIs(lines: seq<string>, release: Option<Release>) {
    && (release.Some? <==> exists k :: 0 <= k < |lines| && IsReleaseLabel(lines[k]))
    && (release.Some? ==>
          && LayersAre(LastLabel(lines, "steel.release.layers"), release.value.layerOrder)
          && forall name :: LastMeta(lines, name) == Entry(release.value.workload, name))
  }

  /** The stages partition the lines from the first FROM on, and every field follows from its lines. */
  ghost predicate Means(lines: seq<string>, stages: seq<Stage>, release: Option<Release>) {
    && Flat(stages) == FromFirst(lines)
    && (forall k :: 0 <= k < |stages| ==> StageIs(stages, k))
    && ReleaseIs(lines, release)
  }

  /** A FROM line without operand after the first stage panics; an order that is no number is an error. */
  function BadLine(before: seq<string>, line: string): Option<Error> {
    if FromFirst(before) == [] then None
    else if IsFrom(line) then (if |Words(line)| < 2 then Some(Panic) else None)
    else
      var order := LabelHere(line, "steel.layer.order");
      if order.Some? && ParseU32(order.value).None? then Some(InvalidOrder) else None
  }

  /** The first line that fails. */
  function FirstBad(lines: seq<string>): Option<Error> {
    if lines == [] then None
    else
      var n := |lines| - 1;
      var earlier := FirstBad(lines[..n]);
      if earlier.Some? then earlier else BadLine(lines[..n], lines[n])
  }

  // --- Snoc steps of the reference functions ---

  lemma FromFirstSnoc(lines: seq<string>, line: string)
    ensures FromFirst(lines + [line])
         == if FromFirst(lines) != [] || IsFrom(line) then FromFirst(lines) + [line] else []
  {
    hide IsFrom;
    if lines == [] {
      assert ([] + [line])[1..] == [];
    } else {
      assert (lines + [line])[1..] == lines[1..] + [line];
    }
  }

  lemma LastSnoc(lines: seq<string>, line: string)
    ensures forall key :: LastLabel(lines + [line], key)
                       == if LabelHere(line, key).Some? then LabelHere(line, key) else LastLabel(lines, key)
    ensures forall name :: LastMeta(lines + [line], name)
                        == if MetaHere(line, name).Some? then MetaHere(line, name) else LastMeta(lines, name)
  {
    hide LabelHere, MetaHere;
    assert (lines + [line])[..|lines|] == lines;
  }

  lemma FlatSnoc(stages: seq<Stage>, stage: Stage)
    ensures Flat(stages + [stage]) == Flat(stages) + stage.instructions
  {
    assert (stages + [stage])[..|stages|] == stages;
  }

  lemma NoLabelOnFrom(line: string)
    requires IsFrom(line)
    ensures !IsLabel(line)
  {
    assert UpperChar(line[..4][0]) == 'F' && line[..4][0] == line[0];
    assert |line| >= 5 ==> line[..5][0] == line[0];
  }

  /** A line that is no label sets nothing. */
  lemma NoLabels(line: string)
    requires !IsLabel(line)
    ensures (forall key :: LabelHere(line, key).None?) && (forall name :: MetaHere(line, name).None?)
    ensures !IsReleaseLabel(line) && forall key :: LastLabel([line], key).None?
  {
    hide IsLabel, ParseLabel;
    assert [line][..0] == [];
  }

  // --- The parsing loop keeps the meaning ---

  ghost predicate Reads(st: ParseState, lines: seq<string>) {
    && Means(lines, Closed(st), st.release)
    && (st.current.None? ==> st.stages == [])
  }

  lemma {:induction false} StagesKept(before: seq<Stage>, after: seq<Stage>, k: nat)
    requires k < |before| && k < |after| && after[..k + 1] == before[..k + 1] && StageIs(before, k)
    ensures StageIs(after, k)
  {
    hide IsStageText, NameFor, ParentIs, LabelsAre;
    assert after[k] == after[..k + 1][k] == before[..k + 1][k] == before[k];
    assert after[..k] == after[..k + 1][..k] == before[..k + 1][..k] == before[..k];
  }

  lemma {:induction false} PlainLineReleases(lines: seq<string>, line: string, release: Option<Release>)
    requires ReleaseIs(lines, release) && !IsLabel(line)
    ensures ReleaseIs(lines + [line], release)
  {
    hide IsLabel, LabelHere, MetaHere, LastLabel, LastMeta, LayersAre, IsReleaseLabel;
    NoLabels(line);
    LastSnoc(lines, line);
    ReleaseLabelSnoc(lines, line);
  }

  lemma ReleaseLabelSnoc(lines: seq<string>, line: string)
    ensures (exists k :: 0 <= k < |lines + [line]| && IsReleaseLabel((lines + [line])[k]))
       <==> (exists k :: 0 <= k < |lines| && IsReleaseLabel(lines[k])) || IsReleaseLabel(line)
  {
    hide IsReleaseLabel;
    var all := lines + [line];
    if k :| 0 <= k < |lines| && IsReleaseLabel(lines[k]) {
      assert IsReleaseLabel(all[k]);
    }
    if IsReleaseLabel(line) {
      assert IsReleaseLabel(all[|lines|]);
    }
  }

  lemma {:induction false} LabelReleases(lines: seq<string>, line: string, release: Option<Release>)
    requires ReleaseIs(lines, release) && IsLabel(line)
    ensures ReleaseIs(lines + [line], LabelOnRelease(release, line))
  {
    hide IsLabel, ParseLabel, LastLabel, LastMeta, SplitAt, TrimStartMatches, Trim;
    LastSnoc(lines, line);
    ReleaseLabelSnoc(lines, line);
    var release' := LabelOnRelease(release, line);
    var all := lines + [line];
    if !IsReleaseLabel(line) {
      NotOnRelease(line);
    } else {
      var key := ParseLabel(line).value.0;
      ReleaseKeys(key);
      if release.None? {
        NothingReleased(lines);
      }
    }
  }

  lemma {:induction false} NotOnRelease(line: string)
    requires IsLabel(line) && !IsReleaseLabel(line)
    ensures LabelHere(line, "steel.release.layers").None? && forall name :: MetaHere(line, name).None?
    ensures forall release :: LabelOnRelease(release, line) == release
  {
    hide IsLabel, ParseLabel, TrimStartMatches;
    if ParseLabel(line).Some? {
      ReleaseKeys(ParseLabel(line).value.0);
    }
  }

  lemma ReleaseKeys(key: string)
    ensures META <= key ==> "steel.meta" <= key && key != "steel.release.layers"
    ensures key == "steel.release.layers" ==> "steel.release" <= key
  {
    if META <= key {
      assert key[6] == META[6] == 'm';
      assert key[..|META|] == META && key[..10] == META[..10] == "steel.meta";
    }
  }

  lemma {:induction false} NothingReleased(lines: seq<string>)
    requires forall k :: 0 <= k < |lines| ==> !IsReleaseLabel(lines[k])
    ensures LastLabel(lines, "steel.release.layers").None? && forall name :: LastMeta(lines, name).None?
    decreases |lines|
  {
    hide IsLabel, ParseLabel, TrimStartMatches;
    if lines == [] {
    } else {
      var n := |lines| - 1;
      NothingReleased(lines[..n]);
      assert !IsReleaseLabel(lines[n]);
      if IsLabel(lines[n]) {
        NotOnRelease(lines[n]);
      } else {
        NoLabels(lines[n]);
      }
    }
  }

  /** The stage a FROM line opens is the one it describes. */
  lemma {:induction false} OpenedStageIs(st: ParseState, line: string)
    requires IsFrom(line) && FromLine(st, line).Ok?
    ensures var st', before := FromLine(st, line).value, Closed(st);
            && st'.stages == before && st'.current.Some? && st'.release == st.release
            && st'.current.value.instructions == [line]
            && StageIs(before + [st'.current.value], |before|)
  {
    hide IsFrom, IsLabel, Words, MatchesUpper, MatchesLower, Decimal, ParseLabel, ParseU32, LastLabel, HasName;
    var before, stage := Closed(st), FromLine(st, line).value.current.value;
    var after := before + [stage];
    assert after[|before|] == stage && after[..|before|] == before;
    NoLabelOnFrom(line);
    NoLabels(line);
  }

  lemma {:induction false} StagesGrow(before: seq<Stage>, stage: Stage)
    requires (forall k :: 0 <= k < |before| ==> StageIs(before, k)) && StageIs(before + [stage], |before|)
    ensures forall k :: 0 <= k < |before| + 1 ==> StageIs(before + [stage], k)
  {
    hide StageIs;
    var after := before + [stage];
    forall k | 0 <= k < |before|
      ensures StageIs(after, k)
    {
      assert after[..k + 1] == before[..k + 1];
      StagesKept(before, after, k);
    }
  }

  /** A FROM line that does not fail opens the stage it describes. */
  lemma {:induction false} FromReads(st: ParseState, lines: seq<string>, line: string)
    requires Reads(st, lines) && IsFrom(line) && FromLine(st, line).Ok?
    ensures Reads(FromLine(st, line).value, lines + [line])
  {
    hide IsFrom, IsLabel, FromLine, StageIs, ReleaseIs;
    var st' := FromLine(st, line).value;
    OpenedStageIs(st, line);
    var before, stage, after := Closed(st), st'.current.value, Closed(st');
    assert after == before + [stage];
    FromFirstSnoc(lines, line);
    FlatSnoc(before, stage);
    StagesGrow(before, stage);
    NoLabelOnFrom(line);
    PlainLineReleases(lines, line, st.release);
  }

  /** A line added to the open stage. */
  lemma {:induction false} InnerReads(
    st: ParseState, lines: seq<string>, line: string, stage: Stage, release: Option<Release>)
    requires Reads(st, lines) && st.current.Some? && !IsFrom(line)
    requires var s := st.current.value;
             stage == s.(instructions := s.instructions + [line], layerName := stage.layerName, order := stage.order)
    requires LabelsAre(stage.instructions, stage.layerName, stage.order) && ReleaseIs(lines + [line], release)
    ensures Reads(st.(current := Some(stage), release := release), lines + [line])
  {
    hide IsFrom, Words, MatchesUpper, MatchesLower, Decimal, LastLabel, ReleaseIs, LabelsAre, NameFor, ParentIs;
    var before, after := Closed(st), st.stages + [stage];
    var n := |st.stages|;
    assert StageIs(before, n) && before[..n] == st.stages;
    FromFirstSnoc(lines, line);
    FlatSnoc(st.stages, st.current.value);
    FlatSnoc(st.stages, stage);
    assert Flat(after) == Flat(before) + [line];
    assert FromFirst(lines) != [];
    forall k | 0 <= k < |after|
      ensures StageIs(after, k)
    {
      if k < n {
        assert StageIs(before, k);
        assert after[..k + 1] == before[..k + 1];
        StagesKept(before, after, k);
      } else {
        assert after[..k] == before[..k];
        assert stage.instructions[0] == before[n].instructions[0];
      }
    }
  }

  lemma {:induction false} LabelsGrow(stage: Stage, line: string)
    requires LabelsAre(stage.instructions, stage.layerName, stage.order)
    ensures !IsLabel(line) ==> LabelsAre(stage.instructions + [line], stage.layerName, stage.order)
    ensures IsLabel(line) && LabelOnStage(stage, line).Ok? ==>
              var s := LabelOnStage(stage, line).value;
              && s == stage.(instructions := stage.instructions + [line], layerName := s.layerName, order := s.order)
              && LabelsAre(s.instructions, s.layerName, s.order)
    ensures IsLabel(line) ==>
              var order := LabelHere(line, "steel.layer.order");
              && (LabelOnStage(stage, line) == Err(InvalidOrder) <==> order.Some? && ParseU32(order.value).None?)
              && (LabelOnStage(stage, line).Err? ==> LabelOnStage(stage, line).error == InvalidOrder)
  {
    hide IsLabel, ParseLabel, ParseU32, LastLabel;
    LastSnoc(stage.instructions, line);
    NoLabelsIf(line);
    assert |"steel.layer"| != |"steel.layer.order"|;
  }

  lemma NoLabelsIf(line: string)
    ensures !IsLabel(line) ==> forall key :: LabelHere(line, key).None?
  {
  }

  /** One line: it fails exactly when it is bad where it stands, and otherwise extends the meaning. */
  lemma {:induction false} LineReads(st: ParseState, lines: seq<string>, raw: string)
    requires Reads(st, lines)
    ensures match ParseLine(st, raw)
            case Ok(next) => Reads(next, lines + Counted(raw))
            case Err(e) => Counted(raw) != [] && BadLine(lines, Counted(raw)[0]) == Some(e)
    ensures ParseLine(st, raw).Ok? && Counted(raw) != [] ==> BadLine(lines, Counted(raw)[0]).None?
  {
    hide Means, Trim, FromLine, LabelOnStage, LabelOnRelease, ReleaseIs, LabelHere, ParseU32, Words, FromFirst;
    var line := Trim(raw);
    OpenExactlyWhen(st, lines);
    if Counted(raw) == [] {
      assert lines + [] == lines;
    } else if IsFrom(line) {
      FromFails(st, line);
      if FromLine(st, line).Ok? {
        FromReads(st, lines, line);
      }
    } else {
      OtherReads(st, lines, raw);
    }
  }

  lemma {:induction false} OpenExactlyWhen(st: ParseState, lines: seq<string>)
    requires Reads(st, lines)
    ensures FromFirst(lines) == [] <==> Closed(st) == []
    ensures Closed(st) == [] <==> st.current.None?
  {
    hide IsFrom, ReleaseIs, NameFor, ParentIs, LabelsAre;
    var stages := Closed(st);
    if stages != [] {
      assert StageIs(stages, |stages| - 1);
    }
  }

  lemma FromFails(st: ParseState, line: string)
    ensures FromLine(st, line) == Err(Panic) <==> Closed(st) != [] && |Words(line)| < 2
    ensures FromLine(st, line).Err? ==> FromLine(st, line).error == Panic
  {
    hide Words, Decimal, MatchesUpper, MatchesLower, HasName;
  }

  /** A line before the first stage can only speak of the release. */
  lemma {:induction false} OuterReads(st: ParseState, lines: seq<string>, line: string, release: Option<Release>)
    requires Reads(st, lines) && st.current.None? && !IsFrom(line) && ReleaseIs(lines + [line], release)
    ensures Reads(st.(release := release), lines + [line])
  {
    hide IsFrom, ReleaseIs;
    FromFirstSnoc(lines, line);
  }

  lemma {:induction false} OpenStageLabels(st: ParseState, lines: seq<string>)
    requires Reads(st, lines) && st.current.Some?
    ensures var s := st.current.value; LabelsAre(s.instructions, s.layerName, s.order)
  {
    hide IsStageText, NameFor, ParentIs, LabelsAre, ReleaseIs;
    assert StageIs(Closed(st), |st.stages|);
  }

  lemma {:induction false} OtherReads(st: ParseState, lines: seq<string>, raw: string)
    requires Reads(st, lines) && Counted(raw) != [] && !IsFrom(Trim(raw))
    ensures var line := Trim(raw);
            match ParseLine(st, raw)
            case Ok(next) => Reads(next, lines + [line]) && BadLine(lines, line).None?
            case Err(e) => BadLine(lines, line) == Some(e)
  {
    hide Reads, Trim, FromLine, LabelOnStage, LabelOnRelease, ReleaseIs, LabelHere, ParseU32, FromFirst, LabelsAre;
    hide StartsWithUpper;
    var line := Trim(raw);
    OpenExactlyWhen(st, lines);
    ReleaseOf(st, lines);
    if IsLabel(line) {
      LabelReleases(lines, line, st.release);
    } else {
      PlainLineReleases(lines, line, st.release);
      NoLabels(line);
    }
    var release := if IsLabel(line) then LabelOnRelease(st.release, line) else st.release;
    if st.current.None? {
      OuterReads(st, lines, line, release);
      assert st.(release := st.release) == st;
    } else {
      var stage := st.current.value;
      OpenStageLabels(st, lines);
      LabelsGrow(stage, line);
      if !IsLabel(line) {
        InnerReads(st, lines, line, stage.(instructions := stage.instructions + [line]), release);
      } else if LabelOnStage(stage, line).Ok? {
        InnerReads(st, lines, line, LabelOnStage(stage, line).value, release);
      }
    }
  }

  lemma ReleaseOf(st: ParseState, lines: seq<string>)
    requires Reads(st, lines)
    ensures ReleaseIs(lines, st.release)
  {
    hide ReleaseIs, StageIs;
  }

  // --- Whole files ---

  lemma {:induction false} LinesRead(st: ParseState, done: seq<string>, lines: seq<string>)
    requires Reads(st, Significant(done)) && FirstBad(Significant(done)).None?
    ensures match ParseLines(st, lines)
            case Ok(last) => Reads(last, Significant(done + lines)) && FirstBad(Significant(done + lines)).None?
            case Err(e) => FirstBad(Significant(done + lines)) == Some(e)
    decreases |lines|
  {
    hide Reads, ParseLine, Counted, BadLine, FirstBad;
    if lines == [] {
      assert done + lines == done;
    } else {
      var raw, sig := lines[0], Significant(done);
      LineReads(st, sig, raw);
      SignificantSnoc(done, raw);
      FirstBadStep(sig, Counted(raw));
      assert done + lines == done + [raw] + lines[1..];
      var next := ParseLine(st, raw);
      if next.Ok? {
        LinesRead(next.value, done + [raw], lines[1..]);
      } else {
        BadStaysBad(done + [raw], lines[1..]);
      }
    }
  }

  lemma SignificantSnoc(done: seq<string>, raw: string)
    ensures Significant(done + [raw]) == Significant(done) + Counted(raw)
  {
    hide Counted;
    assert (done + [raw])[..|done|] == done;
  }

  lemma {:induction false} FirstBadStep(sig: seq<string>, more: seq<string>)
    requires FirstBad(sig).None? && |more| <= 1
    ensures FirstBad(sig + more) == if more == [] then None else BadLine(sig, more[0])
  {
    hide BadLine;
    if more == [] {
      assert sig + more == sig;
    } else {
      assert (sig + more)[..|sig|] == sig;
    }
  }

  lemma {:induction false} BadStep(sig: seq<string>, more: seq<string>)
    requires FirstBad(sig).Some? && |more| <= 1
    ensures FirstBad(sig + more) == FirstBad(sig)
  {
    hide BadLine;
    if more == [] {
      assert sig + more == sig;
    } else {
      assert (sig + more)[..|sig|] == sig;
    }
  }

  /** Later lines do not repair an earlier one. */
  lemma {:induction false} BadStaysBad(done: seq<string>, lines: seq<string>)
    requires FirstBad(Significant(done)).Some?
    ensures FirstBad(Significant(done + lines)) == FirstBad(Significant(done))
    decreases |lines|
  {
    hide BadLine, Counted, Significant, FirstBad;
    if lines == [] {
      assert done + lines == done;
    } else {
      var n := |lines| - 1;
      BadStaysBad(done, lines[..n]);
      var sig, more := Significant(done + lines[..n]), Counted(lines[n]);
      SignificantSnoc(done + lines[..n], lines[n]);
      assert done + lines == done + lines[..n] + [lines[n]];
      BadStep(sig, more);
    }
  }

  lemma NothingRead()
    ensures Reads(START, Significant([])) && FirstBad(Significant([])).None?
  {
  }

  /**
   * What an accepted file means, for all contents and graphs: the stages partition the
   * counted lines from the first FROM line on, one FROM line each; names, parents, layer
   * names and orders follow from the stage's own lines, released layers and workload
   * entries from all lines.
   */
  lemma {:induction false} ParsedMeans(content: string, g: Graph)
    requires ParsesTo(content, g)
    ensures Means(Significant(SplitAt(content, '\n', "")), g.stages, Some(g.release))
  {
    hide Means, ParseLines, SplitAt, Significant, FirstBad, LayerStages, OrdersAreBijective;
    var lines := SplitAt(content, '\n', "");
    NothingRead();
    LinesRead(START, [], lines);
    assert [] + lines == lines;
  }

  /** Reading fails exactly at the first bad line, with that line's error. */
  lemma {:induction false} FailsExactlyWhen(lines: seq<string>)
    ensures match FirstBad(Significant(lines))
            case None => ParseLines(START, lines).Ok?
            case Some(e) => ParseLines(START, lines) == Err(e)
  {
    hide Reads, ParseLines, Significant, FirstBad;
    NothingRead();
    LinesRead(START, [], lines);
    assert [] + lines == lines;
  }

  // --- Layers ---

  /** A layer name stands for the last stage that carries it. */
  lemma {:induction false} LayerStageAt(stages: seq<Stage>, j: nat)
    requires IsLast(stages, j) && stages[j].layerName != ""
    ensures stages[j].layerName in LayerStages(stages) && LayerStages(stages)[stages[j].layerName] == stages[j]
    decreases |stages|
  {
    var n := |stages| - 1;
    if j == n {
    } else {
      assert stages[n].layerName != stages[j].layerName;
      assert forall i :: j < i < n ==> stages[..n][i] == stages[i];
      LayerStageAt(stages[..n], j);
    }
  }

  // --- Consequences ---

  /** The parent of each later stage, and what decides it. */
  lemma {:induction false} ParentExactlyWhen(content: string, g: Graph, k: nat, p: string)
    requires ParsesTo(content, g) && 0 < k < |g.stages|
    ensures var from := g.stages[k].instructions;
            && from != [] && IsFrom(from[0]) && |Words(from[0])| >= 2
            && (g.stages[k].parentName == Some(p) <==>
                  p == Words(from[0])[1] && !MatchesLower(p, "scratch") && HasName(g.stages[..k], p))
  {
    hide ParsesTo, Significant, SplitAt, IsFrom, Words, MatchesLower, MatchesUpper, Decimal, LabelsAre, ReleaseIs;
    ParsedMeans(content, g);
    assert StageIs(g.stages, k);
  }

  /**
   * The keyword of a label line counts in any case, but its key is found only behind an
   * upper-case LABEL: any other spelling sets no layer, order, release or workload entry.
   */
  lemma {:induction false} OtherCaseLabelIsLost(line: string)
    requires IsLabel(line) && !IsSpace(line[|line| - 1]) && !("LABEL" <= line)
    ensures forall key :: "steel." <= key ==> LabelHere(line, key).None?
    ensures !IsReleaseLabel(line) && forall name :: MetaHere(line, name).None?
  {
    hide Find, TrimQuotes, TrimStartMatches;
    assert UpperChar(line[0]) == UpperChar(line[..5][0]) == 'L';
    assert !IsSpace(line[0]);
    assert TrimStartMatches(line, "LABEL") == line by {
      var n := ParserTextLaws.TrimStartMatchesIs(line, "LABEL");
      NoPrefixNoTrim(line);
    }
    assert Trim(line) == line by {
      assert "" + line + "" == line;
      ParserTextLaws.TrimFinds("", line, "");
    }
    if ParseLabel(line).Some? {
      var at := Find(line, '=').value;
      KeyStarts(line, at);
      var key := ParseLabel(line).value.0;
      assert "steel."[0] == 's' && "steel.release"[0] == 's' && "steel.meta"[0] == 's' && META[0] == 's';
    }
  }

  lemma NoPrefixNoTrim(line: string)
    requires !("LABEL" <= line)
    ensures TrimStartMatches(line, "LABEL") == line
  {
  }

  lemma {:induction false} KeyStarts(line: string, at: nat)
    requires at < |line| && line[at] == '=' && line != "" && !IsSpace(line[0]) && line[0] != 's'
    ensures Trim(line[..at]) == "" || Trim(line[..at])[0] != 's'
  {
    hide IsSpace, Trim;
    if at > 0 {
      var before, after := ParserTextLaws.TrimIs(line[..at]);
      if before != "" {
        assert line[..at][0] == before[0];
      }
    } else {
      assert line[..at] == "";
      var before, after := ParserTextLaws.TrimIs("");
    }
  }
}

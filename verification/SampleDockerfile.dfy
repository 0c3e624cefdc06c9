/** Two sample Dockerfiles, one of them around any command, and what the parser makes of them. */
module SampleDockerfile {
  import opened Basics
  import opened InputHasher
  import opened DockerfileParser
  import opened ParserTextLaws

  const FROM_LINE := "FROM" + " " + ("debian" + " " + ("AS" + " " + "base"))
  const LAYER_LINE := LabelLine("steel.layer", "l")
  const RELEASE_LINE := LabelLine("steel.release.layers", "l")

  function LabelLine(key: string, value: string): string {
    "LABEL " + key + "=" + value
  }

  function Dockerfile(command: string): string {
    FROM_LINE + "\n" + (LAYER_LINE + "\n" + (RELEASE_LINE + "\n" + command))
  }

  function SampleStage(command: string): Stage {
    Stage("base", None, "l", 0, [FROM_LINE, LAYER_LINE, RELEASE_LINE, command])
  }

  function SampleGraph(command: string): Graph {
    Graph([SampleStage(command)], Release(["l"], map[]))
  }

  /** One line, trimmed, that is an instruction other than FROM and LABEL. */
  predicate IsCommand(s: string) {
    && IsTrimmed(s) && '\n' !in s && s[0] != '#'
    && !StartsWithUpper(s, "FROM") && !StartsWithUpper(s, "LABEL")
  }

  // --- Lines ---

  lemma {:induction false} SplitFirstLine(line: string, rest: string, part: string)
    requires '\n' !in line
    ensures SplitAt(line + "\n" + rest, '\n', part) == [part + line] + SplitAt(rest, '\n', "")
    decreases |line|
  {
    var s := line + "\n" + rest;
    if line == "" {
      assert s[0] == '\n' && s[1..] == rest && part + line == part;
    } else {
      assert s[0] == line[0] && s[1..] == line[1..] + "\n" + rest;
      SplitFirstLine(line[1..], rest, part + [line[0]]);
      assert part + [line[0]] + line[1..] == part + line;
    }
  }

  lemma {:induction false} SplitLastLine(line: string, sep: char, part: string)
    requires sep !in line
    ensures SplitAt(line, sep, part) == [part + line]
    decreases |line|
  {
    if line == "" {
      assert part + line == part;
    } else {
      SplitLastLine(line[1..], sep, part + [line[0]]);
      assert part + [line[0]] + line[1..] == part + line;
    }
  }

  lemma {:induction false} SampleLines(command: string)
    requires IsCommand(command)
    ensures SplitAt(Dockerfile(command), '\n', "") == [FROM_LINE, LAYER_LINE, RELEASE_LINE, command]
  {
    hide SplitAt, IsSpace, StartsWithUpper;
    SplitFirstLine(FROM_LINE, LAYER_LINE + "\n" + (RELEASE_LINE + "\n" + command), "");
    SplitFirstLine(LAYER_LINE, RELEASE_LINE + "\n" + command, "");
    SplitFirstLine(RELEASE_LINE, command, "");
    SplitLastLine(command, '\n', "");
    assert "" + FROM_LINE == FROM_LINE && "" + LAYER_LINE == LAYER_LINE && "" + RELEASE_LINE == RELEASE_LINE;
    assert "" + command == command;
  }

  lemma NothingToTrim(s: string)
    requires IsTrimmed(s)
    ensures Trim(s) == s
  {
  }

  // --- Line by line ---

  const AFTER_FROM := ParseState([], Some(Stage("base", None, "", 0, [FROM_LINE])), None)
  const AFTER_LAYER := ParseState([], Some(Stage("base", None, "l", 0, [FROM_LINE, LAYER_LINE])), None)
  const AFTER_RELEASE := ParseState(
    [], Some(Stage("base", None, "l", 0, [FROM_LINE, LAYER_LINE, RELEASE_LINE])), Some(Release(["l"], map[])))

  lemma {:induction false} FromLineWords()
    ensures Words(FROM_LINE) == ["FROM", "debian", "AS", "base"]
  {
    hide Split;
    var words := ["FROM", "debian", "AS", "base"];
    assert words[1..] == ["debian", "AS", "base"] && words[1..][1..] == ["AS", "base"];
    assert ["AS", "base"][1..] == ["base"];
    assert Join(["AS", "base"]) == "AS" + " " + "base";
    assert Join(["debian", "AS", "base"]) == "debian" + " " + ("AS" + " " + "base");
    assert Join(words) == FROM_LINE;
    WordsOfJoin(words);
  }

  lemma {:induction false} ParseFrom()
    ensures ParseLine(START, FROM_LINE) == Ok(AFTER_FROM)
  {
    hide Words;
    NothingToTrim(FROM_LINE);
    FromLineWords();
  }

  lemma {:induction false} LabelLineShape(key: string, value: string)
    requires IsTrimmed(key) && IsTrimmed(value)
    ensures var line := LabelLine(key, value);
            && Trim(line) == line && line != "" && line[0] != '#'
            && !StartsWithUpper(line, "FROM") && StartsWithUpper(line, "LABEL")
  {
    var line := LabelLine(key, value);
    assert line[|line| - 1] == value[|value| - 1];
    NothingToTrim(line);
    assert line[..5] == "LABEL";
    assert UpperChar(line[..4][0]) == 'L' != "FROM"[0];
  }

  /** How a label line reads. */
  lemma {:induction false} ParseLabelLine(key: string, value: string)
    requires IsTrimmed(key) && '=' !in key && IsTrimmed(value) && value[0] != '"' && value[|value| - 1] != '"'
    ensures ParseLabel(LabelLine(key, value)) == Some((key, value))
  {
    hide ParseLabel;
    var body := key + "" + "=" + "" + ("" + value + "");
    assert "" + value + "" == value;
    assert body == key + "=" + value && body[|body| - 1] == value[|value| - 1];
    LabelIsFound(" ", key, "", "", "", value, "");
    assert LabelLine(key, value) == "LABEL" + " " + body;
  }

  lemma {:induction false} ParseLayer()
    ensures ParseLine(AFTER_FROM, LAYER_LINE) == Ok(AFTER_LAYER)
  {
    hide ParseLabel, Trim, StartsWithUpper, LabelLine;
    var key := "steel.layer";
    LabelLineShape(key, "l");
    ParseLabelLine(key, "l");
    assert !("steel.release" <= key) && !("steel.meta" <= key) by {
      assert key[6] == 'l' && "steel.release"[6] == 'r' && "steel.meta"[6] == 'm';
    }
    assert [FROM_LINE] + [LAYER_LINE] == [FROM_LINE, LAYER_LINE];
  }

  lemma {:induction false} ParseRelease()
    ensures ParseLine(AFTER_LAYER, RELEASE_LINE) == Ok(AFTER_RELEASE)
  {
    hide ParseLabel, Trim, StartsWithUpper, LabelLine, SplitAt, TrimAll;
    var key := "steel.release.layers";
    LabelLineShape(key, "l");
    ParseLabelLine(key, "l");
    assert "steel.release" <= key;
    assert |key| != |"steel.layer"| && |key| != |"steel.layer.order"|;
    OneReleasedLayer();
    assert [FROM_LINE, LAYER_LINE] + [RELEASE_LINE] == [FROM_LINE, LAYER_LINE, RELEASE_LINE];
  }

  lemma {:induction false} OneReleasedLayer()
    ensures TrimAll(SplitAt("l", ',', "")) == ["l"]
  {
    hide SplitAt;
    SplitLastLine("l", ',', "");
    assert "" + "l" == "l";
    NothingToTrim("l");
  }

  lemma {:induction false} ParseCommand(command: string)
    requires IsCommand(command)
    ensures ParseLine(AFTER_RELEASE, command)
         == Ok(ParseState([], Some(SampleStage(command)), Some(Release(["l"], map[]))))
  {
    hide StartsWithUpper, IsSpace, FromLine, LabelOnRelease, LabelOnStage, Trim;
    NothingToTrim(command);
    assert [FROM_LINE, LAYER_LINE, RELEASE_LINE] + [command] == [FROM_LINE, LAYER_LINE, RELEASE_LINE, command];
  }

  /** The parser accepts the file, as one stage that is released. */
  lemma {:induction false} SampleParses(command: string)
    requires IsCommand(command)
    ensures ParsesTo(Dockerfile(command), SampleGraph(command))
  {
    hide ParseLine, SplitAt, Dockerfile, SampleStage, IsCommand, LayerStages, OrdersAreBijective;
    var lines := [FROM_LINE, LAYER_LINE, RELEASE_LINE, command];
    SampleLines(command);
    ParseFrom();
    ParseLayer();
    ParseRelease();
    ParseCommand(command);
    assert lines[1..] == [LAYER_LINE, RELEASE_LINE, command];
    assert lines[1..][1..] == [RELEASE_LINE, command];
    assert lines[1..][1..][1..] == [command];
    assert [command][1..] == [];
    var st := ParseState([], Some(SampleStage(command)), Some(Release(["l"], map[])));
    assert ParseLines(AFTER_RELEASE, [command]) == Ok(st);
    assert ParseLines(AFTER_LAYER, [RELEASE_LINE, command]) == Ok(st);
    assert ParseLines(AFTER_FROM, [LAYER_LINE, RELEASE_LINE, command]) == Ok(st);
    assert ParseLines(START, lines) == Ok(st);
    assert Closed(st) == [SampleStage(command)];
    SampleIsValid(command);
  }

  lemma {:induction false} SampleIsValid(command: string)
    ensures LayerStages([SampleStage(command)]) == map["l" := SampleStage(command)]
    ensures OrdersAreBijective(LayerStages([SampleStage(command)]))
  {
    OneStageIsValid(SampleStage(command));
  }

  lemma {:induction false} OneStageIsValid(stage: Stage)
    requires stage.layerName != "" && stage.order == 0
    ensures LayerStages([stage]) == map[stage.layerName := stage] && OrdersAreBijective(LayerStages([stage]))
  {
    var stages := [stage];
    assert stages[..|stages| - 1] == [];
    assert LayerStages([]) == map[];
    var layers := LayerStages(stages);
    assert layers == map[stage.layerName := stage];
    assert stage.layerName in layers && layers[stage.layerName].order == 0;
    assert HasOrder(layers, 0);
  }

  // --- Two stages, mixed case, an order and quotes ---

  const CHILD_LINE := "from" + " " + ("base" + " " + ("as" + " " + "app"))
  const CHILD_LAYER := LabelLine("steel.layer", "m")
  const CHILD_ORDER := QuotedLabel("steel.layer.order", "1")
  const BOTH_LINE := QuotedLabel("steel.release.layers", "l, m")

  function QuotedLabel(key: string, value: string): string {
    "LABEL" + " " + (key + "" + "=" + "" + ("\"" + value + "\""))
  }

  const TWO_STAGES := FROM_LINE + "\n" + (LAYER_LINE + "\n" + (CHILD_LINE + "\n"
    + (CHILD_LAYER + "\n" + (CHILD_ORDER + "\n" + BOTH_LINE))))

  const BASE_STAGE := Stage("base", None, "l", 0, [FROM_LINE, LAYER_LINE])
  const APP_STAGE := Stage("app", Some("base"), "m", 1, [CHILD_LINE, CHILD_LAYER, CHILD_ORDER, BOTH_LINE])
  const AFTER_CHILD := ParseState(
    [BASE_STAGE], Some(Stage("app", Some("base"), "", 0, [CHILD_LINE])), None)
  const AFTER_CHILD_LAYER := ParseState(
    [BASE_STAGE], Some(Stage("app", Some("base"), "m", 0, [CHILD_LINE, CHILD_LAYER])), None)
  const AFTER_CHILD_ORDER := ParseState(
    [BASE_STAGE], Some(Stage("app", Some("base"), "m", 1, [CHILD_LINE, CHILD_LAYER, CHILD_ORDER])), None)
  const TWO_STAGE_GRAPH := Graph([BASE_STAGE, APP_STAGE], Release(["l", "m"], map[]))

  lemma {:induction false} ChildLineWords()
    ensures Words(CHILD_LINE) == ["from", "base", "as", "app"]
  {
    hide Split;
    var words := ["from", "base", "as", "app"];
    assert words[1..] == ["base", "as", "app"] && words[1..][1..] == ["as", "app"];
    assert ["as", "app"][1..] == ["app"];
    assert Join(["as", "app"]) == "as" + " " + "app";
    assert Join(["base", "as", "app"]) == "base" + " " + ("as" + " " + "app");
    assert Join(words) == CHILD_LINE;
    WordsOfJoin(words);
  }

  lemma {:induction false} ParseChild()
    ensures ParseLine(AFTER_LAYER, CHILD_LINE) == Ok(AFTER_CHILD)
  {
    hide Words;
    NothingToTrim(CHILD_LINE);
    ChildLineWords();
    var earlier := Closed(AFTER_LAYER);
    assert earlier == [BASE_STAGE] && earlier[0].name == "base";
    assert HasName(earlier, "base");
    assert |"base"| != |"scratch"|;
  }

  lemma {:induction false} QuotedLabelShape(key: string, value: string)
    requires IsTrimmed(key)
    ensures var line := QuotedLabel(key, value);
            && Trim(line) == line && line != "" && line[0] != '#'
            && !StartsWithUpper(line, "FROM") && StartsWithUpper(line, "LABEL")
  {
    var line := QuotedLabel(key, value);
    assert line[|line| - 1] == '"';
    NothingToTrim(line);
    assert line[..5] == "LABEL";
    assert UpperChar(line[..4][0]) == 'L' != "FROM"[0];
  }

  lemma {:induction false} ParseQuotedLabel(key: string, value: string)
    requires IsTrimmed(key) && '=' !in key && value != "" && value[0] != '"' && value[|value| - 1] != '"'
    ensures ParseLabel(QuotedLabel(key, value)) == Some((key, value))
  {
    hide ParseLabel;
    var quoted := "\"" + value + "\"";
    assert quoted[|quoted| - 1] == '"';
    var body := key + "" + "=" + "" + quoted;
    assert body[0] == key[0] && body[|body| - 1] == '"';
    LabelIsFound(" ", key, "", "", "\"", value, "\"");
  }

  lemma {:induction false} ParseChildLayer()
    ensures ParseLine(AFTER_CHILD, CHILD_LAYER) == Ok(AFTER_CHILD_LAYER)
  {
    hide ParseLabel, Trim, StartsWithUpper, LabelLine;
    var key := "steel.layer";
    LabelLineShape(key, "m");
    ParseLabelLine(key, "m");
    assert !("steel.release" <= key) && !("steel.meta" <= key) by {
      assert key[6] == 'l' && "steel.release"[6] == 'r' && "steel.meta"[6] == 'm';
    }
    assert [CHILD_LINE] + [CHILD_LAYER] == [CHILD_LINE, CHILD_LAYER];
  }

  lemma {:induction false} ParseChildOrder()
    ensures ParseLine(AFTER_CHILD_LAYER, CHILD_ORDER) == Ok(AFTER_CHILD_ORDER)
  {
    hide ParseLabel, Trim, StartsWithUpper, QuotedLabel, ParseU32;
    var key := "steel.layer.order";
    QuotedLabelShape(key, "1");
    ParseQuotedLabel(key, "1");
    OneIsOne();
    assert [CHILD_LINE, CHILD_LAYER] + [CHILD_ORDER] == [CHILD_LINE, CHILD_LAYER, CHILD_ORDER];
    assert |key| != |"steel.layer"|;
    assert !("steel.release" <= key) && !("steel.meta" <= key) by {
      assert key[6] == 'l' && "steel.release"[6] == 'r' && "steel.meta"[6] == 'm';
    }
  }

  lemma {:induction false} OneIsOne()
    ensures ParseU32("1") == Some(1)
  {
    assert DigitsValue("", 1) == Some(1);
    assert "1"[1..] == "";
  }

  lemma {:induction false} ParseBoth()
    ensures ParseLine(AFTER_CHILD_ORDER, BOTH_LINE)
         == Ok(ParseState([BASE_STAGE], Some(APP_STAGE), Some(TWO_STAGE_GRAPH.release)))
  {
    hide ParseLabel, Trim, StartsWithUpper, QuotedLabel, SplitAt, TrimAll;
    var key := "steel.release.layers";
    QuotedLabelShape(key, "l, m");
    ParseQuotedLabel(key, "l, m");
    assert "steel.release" <= key;
    assert |key| != |"steel.layer"| && |key| != |"steel.layer.order"|;
    TwoReleasedLayers();
    assert [CHILD_LINE, CHILD_LAYER, CHILD_ORDER] + [BOTH_LINE] == APP_STAGE.instructions;
  }

  lemma {:induction false} TwoReleasedLayers()
    ensures TrimAll(SplitAt("l, m", ',', "")) == ["l", "m"]
  {
    SplitIs("l, m", ',', "");
    assert "l, m"[1..] == ", m" && ", m"[1..] == " m";
    assert SplitAt(", m", ',', "l") == ["l"] + SplitAt(" m", ',', "");
    SplitLastLine(" m", ',', "");
    assert "" + " m" == " m";
    NothingToTrim("l");
    TrimFinds(" ", "m", "");
    assert " " + "m" + "" == " m";
    assert "" + ['l'] == "l";
  }

  lemma {:induction false} TwoStageLines()
    ensures SplitAt(TWO_STAGES, '\n', "") == [FROM_LINE, LAYER_LINE, CHILD_LINE, CHILD_LAYER, CHILD_ORDER, BOTH_LINE]
  {
    hide SplitAt;
    var r5 := BOTH_LINE;
    var r4 := CHILD_ORDER + "\n" + r5;
    var r3 := CHILD_LAYER + "\n" + r4;
    var r2 := CHILD_LINE + "\n" + r3;
    var r1 := LAYER_LINE + "\n" + r2;
    SplitFirstLine(FROM_LINE, r1, "");
    SplitFirstLine(LAYER_LINE, r2, "");
    SplitFirstLine(CHILD_LINE, r3, "");
    SplitFirstLine(CHILD_LAYER, r4, "");
    SplitFirstLine(CHILD_ORDER, r5, "");
    SplitLastLine(BOTH_LINE, '\n', "");
    NoEmptyPart(FROM_LINE);
    NoEmptyPart(LAYER_LINE);
    NoEmptyPart(CHILD_LINE);
    NoEmptyPart(CHILD_LAYER);
    NoEmptyPart(CHILD_ORDER);
    NoEmptyPart(BOTH_LINE);
  }

  lemma NoEmptyPart(s: string)
    ensures "" + s == s
  {
  }

  lemma {:induction false} TwoStagesAreRead()
    ensures ParseLines(START, [FROM_LINE, LAYER_LINE, CHILD_LINE, CHILD_LAYER, CHILD_ORDER, BOTH_LINE])
         == Ok(ParseState([BASE_STAGE], Some(APP_STAGE), Some(TWO_STAGE_GRAPH.release)))
  {
    hide ParseLine, FROM_LINE, LAYER_LINE, CHILD_LINE, CHILD_LAYER, CHILD_ORDER, BOTH_LINE;
    ParseFrom();
    ParseLayer();
    ParseChild();
    ParseChildLayer();
    ParseChildOrder();
    ParseBoth();
    var st := ParseState([BASE_STAGE], Some(APP_STAGE), Some(TWO_STAGE_GRAPH.release));
    ReadOneMore(AFTER_CHILD_ORDER, BOTH_LINE, [], st, st);
    ReadOneMore(AFTER_CHILD_LAYER, CHILD_ORDER, [BOTH_LINE], AFTER_CHILD_ORDER, st);
    ReadOneMore(AFTER_CHILD, CHILD_LAYER, [CHILD_ORDER, BOTH_LINE], AFTER_CHILD_LAYER, st);
    ReadOneMore(AFTER_LAYER, CHILD_LINE, [CHILD_LAYER, CHILD_ORDER, BOTH_LINE], AFTER_CHILD, st);
    ReadOneMore(AFTER_FROM, LAYER_LINE, [CHILD_LINE, CHILD_LAYER, CHILD_ORDER, BOTH_LINE], AFTER_LAYER, st);
    ReadOneMore(START, FROM_LINE, [LAYER_LINE, CHILD_LINE, CHILD_LAYER, CHILD_ORDER, BOTH_LINE], AFTER_FROM, st);
  }

  lemma ReadOneMore(st: ParseState, line: string, rest: seq<string>, next: ParseState, last: ParseState)
    requires ParseLine(st, line) == Ok(next)
    requires if rest == [] then next == last else ParseLines(next, rest) == Ok(last)
    ensures ParseLines(st, [line] + rest) == Ok(last)
  {
    hide ParseLine;
    assert ([line] + rest)[1..] == rest;
  }

  /** A file with a child stage in lower case, an order label and a quoted list is accepted, parent and all. */
  lemma {:induction false} TwoStagesParse()
    ensures ParsesTo(TWO_STAGES, TWO_STAGE_GRAPH)
  {
    hide ParseLines, SplitAt, LayerStages, OrdersAreBijective, TWO_STAGES;
    TwoStageLines();
    TwoStagesAreRead();
    TwoStagesAreValid();
  }

  lemma {:induction false} TwoStagesAreValid()
    ensures var layers := LayerStages([BASE_STAGE, APP_STAGE]);
            "l" in layers && "m" in layers && OrdersAreBijective(layers)
  {
    TwoLayersAreValid(BASE_STAGE, APP_STAGE);
  }

  lemma {:induction false} TwoLayersAreValid(a: Stage, b: Stage)
    requires a.layerName != "" && b.layerName != "" && a.layerName != b.layerName && a.order == 0 && b.order == 1
    ensures var layers := LayerStages([a, b]);
            layers == map[a.layerName := a, b.layerName := b] && OrdersAreBijective(layers)
  {
    OneStageIsValid(a);
    assert [a, b][..1] == [a];
    var layers := LayerStages([a, b]);
    assert layers == map[a.layerName := a, b.layerName := b];
    assert layers.Keys == {a.layerName, b.layerName};
    assert |layers| == |layers.Keys| == 2;
    assert a.layerName in layers && layers[a.layerName].order == 0 && HasOrder(layers, 0);
    assert b.layerName in layers && layers[b.layerName].order == 1 && HasOrder(layers, 1);
  }
}

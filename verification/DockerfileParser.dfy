/**
 * The Dockerfile parser and its graph validation (build-system/src/parser.rs). Keyword
 * comparison follows Unicode case mapping as far as it can reach the ASCII keywords.
 */
module DockerfileParser {
  import opened Basics
  import opened InputHasher

  datatype Stage = Stage(
    name: string, parentName: Option<string>, layerName: string, order: nat, instructions: seq<string>)

  datatype Release = Release(layerOrder: seq<string>, workload: map<string, string>)

  datatype Graph = Graph(stages: seq<Stage>, release: Release)

  /** `Panic` is the out-of-range access on a FROM line without operand. */
  datatype Error = InvalidOrder | MissingRelease | UndefinedLayer(name: string) | OrderGap | Panic

  datatype Result<T> = Ok(value: T) | Err(error: Error)

  // --- Text ---

  function UpperChar(c: char): char {
    if 'a' <= c <= 'z' then c - 'a' + 'A'
    else if c == '\U{17F}' then 'S'
    else if c == '\U{131}' then 'I'
    else c
  }

  predicate MatchesUpper(s: string, keyword: string) {
    |s| == |keyword| && forall i :: 0 <= i < |s| ==> UpperChar(s[i]) == keyword[i]
  }

  predicate StartsWithUpper(s: string, keyword: string) {
    |s| >= |keyword| && MatchesUpper(s[..|keyword|], keyword)
  }

  function LowerChar(c: char): char {
    if 'A' <= c <= 'Z' then c - 'A' + 'a' else c
  }

  predicate MatchesLower(s: string, keyword: string) {
    |s| == |keyword| && forall i :: 0 <= i < |s| ==> LowerChar(s[i]) == keyword[i]
  }

  function TrimStart(s: string): string {
    if s != "" && IsSpace(s[0]) then TrimStart(s[1..]) else s
  }

  function TrimEnd(s: string): string {
    if s != "" && IsSpace(s[|s| - 1]) then TrimEnd(s[..|s| - 1]) else s
  }

  function Trim(s: string): string {
    TrimEnd(TrimStart(s))
  }

  function TrimStartMatches(s: string, prefix: string): string
    requires prefix != ""
    decreases |s|
  {
    if prefix <= s then TrimStartMatches(s[|prefix|..], prefix) else s
  }

  function TrimQuotes(s: string): string {
    if s != "" && s[0] == '"' then TrimQuotes(s[1..])
    else if s != "" && s[|s| - 1] == '"' then TrimQuotes(s[..|s| - 1])
    else s
  }

  /** `split(sep)`; `part` is the part read so far. */
  function SplitAt(s: string, sep: char, part: string): seq<string> {
    if s == "" then [part]
    else if s[0] == sep then [part] + SplitAt(s[1..], sep, "")
    else SplitAt(s[1..], sep, part + [s[0]])
  }

  function Find(s: string, c: char): (r: Option<nat>)
    ensures r.Some? ==> r.value < |s| && s[r.value] == c
  {
    if s == "" then None
    else if s[0] == c then Some(0)
    else
      var r := Find(s[1..], c);
      if r.Some? then Some(r.value + 1) else None
  }

  function TrimAll(parts: seq<string>): seq<string> {
    seq(|parts|, i requires 0 <= i < |parts| => Trim(parts[i]))
  }

  function DigitsValue(s: string, acc: nat): Option<nat> {
    if s == "" then Some(acc)
    else if '0' <= s[0] <= '9' then DigitsValue(s[1..], 10 * acc + (s[0] - '0') as nat)
    else None
  }

  /** `str::parse::<u32>`. */
  function ParseU32(s: string): Option<nat> {
    var digits := if s != "" && s[0] == '+' then s[1..] else s;
    if digits == "" then None
    else
      var v := DigitsValue(digits, 0);
      if v.Some? && v.value <= 0xFFFF_FFFF then v else None
  }

  function Decimal(n: nat): string {
    (if n < 10 then "" else Decimal(n / 10)) + [('0' as int + n % 10) as char]
  }

  // --- Lines ---

  datatype ParseState = ParseState(stages: seq<Stage>, current: Option<Stage>, release: Option<Release>)

  const START := ParseState([], None, None)

  function Closed(st: ParseState): seq<Stage> {
    if st.current.Some? then st.stages + [st.current.value] else st.stages
  }

  predicate HasName(stages: seq<Stage>, name: string) {
    exists k :: 0 <= k < |stages| && stages[k].name == name
  }

  function ParseLabel(line: string): Option<(string, string)> {
    var body := Trim(TrimStartMatches(line, "LABEL"));
    match Find(body, '=')
    case None => None
    case Some(at) => Some((Trim(body[..at]), TrimQuotes(Trim(body[at + 1..]))))
  }

  function FromLine(st: ParseState, line: string): Result<ParseState> {
    var stages, parts := Closed(st), Words(line);
    var name := if |parts| >= 4 && MatchesUpper(parts[2], "AS") then parts[3] else "stage_" + Decimal(|stages|);
    if stages == [] then Ok(ParseState(stages, Some(Stage(name, None, "", 0, [line])), st.release))
    else if |parts| < 2 then Err(Panic)
    else
      var parent := if !MatchesLower(parts[1], "scratch") && HasName(stages, parts[1]) then Some(parts[1]) else None;
      Ok(ParseState(stages, Some(Stage(name, parent, "", 0, [line])), st.release))
  }

  function LabelOnStage(stage: Stage, line: string): Result<Stage> {
    var noted := stage.(instructions := stage.instructions + [line]);
    match ParseLabel(line)
    case None => Ok(noted)
    case Some((key, value)) =>
      if key == "steel.layer" then Ok(noted.(layerName := value))
      else if key == "steel.layer.order" then
        var order := ParseU32(value);
        if order.Some? then Ok(noted.(order := order.value)) else Err(InvalidOrder)
      else Ok(noted)
  }

  function LabelOnRelease(release: Option<Release>, line: string): Option<Release> {
    match ParseLabel(line)
    case None => release
    case Some((key, value)) =>
      if "steel.release" <= key || "steel.meta" <= key then
        var r := if release.Some? then release.value else Release([], map[]);
        if key == "steel.release.layers" then Some(r.(layerOrder := TrimAll(SplitAt(value, ',', ""))))
        else if "steel.meta." <= key then
          Some(r.(workload := r.workload[TrimStartMatches(key, "steel.meta.") := value]))
        else Some(r)
      else release
  }

  function ParseLine(st: ParseState, raw: string): Result<ParseState> {
    var line := Trim(raw);
    if line == "" || line[0] == '#' then Ok(st)
    else if StartsWithUpper(line, "FROM") then FromLine(st, line)
    else if StartsWithUpper(line, "LABEL") then
      var release := LabelOnRelease(st.release, line);
      if st.current.None? then Ok(st.(release := release))
      else
        match LabelOnStage(st.current.value, line)
        case Ok(stage) => Ok(st.(current := Some(stage), release := release))
        case Err(e) => Err(e)
    else if st.current.Some? then
      Ok(st.(current := Some(st.current.value.(instructions := st.current.value.instructions + [line]))))
    else Ok(st)
  }

  function ParseLines(st: ParseState, lines: seq<string>): Result<ParseState>
    decreases |lines|
  {
    if lines == [] then Ok(st)
    else
      match ParseLine(st, lines[0])
      case Ok(next) => ParseLines(next, lines[1..])
      case Err(e) => Err(e)
  }

  // --- Validation ---

  /** For every layer name, the last stage that carries it. */
  function LayerStages(stages: seq<Stage>): map<string, Stage> {
    if stages == [] then map[]
    else
      var rest, last := LayerStages(stages[..|stages| - 1]), stages[|stages| - 1];
      if last.layerName == "" then rest else rest[last.layerName := last]
  }

  /** No later stage has the layer name of stage `j`. */
  ghost predicate IsLast(stages: seq<Stage>, j: nat) {
    j < |stages| && forall i :: j < i < |stages| ==> stages[i].layerName != stages[j].layerName
  }

  /** Only non-empty names of stages are layer names. */
  lemma {:induction false} LayerHasStage(stages: seq<Stage>, layer: string)
    requires layer in LayerStages(stages)
    ensures layer != "" && exists j :: 0 <= j < |stages| && stages[j].layerName == layer
    decreases |stages|
  {
    var n := |stages| - 1;
    if stages[n].layerName == layer {
      if layer == "" {
        LayerHasStage(stages[..n], layer);
      }
    } else {
      LayerHasStage(stages[..n], layer);
      var j :| 0 <= j < n && stages[..n][j].layerName == layer;
      assert stages[j].layerName == layer;
    }
  }

  function Insert(x: nat, s: seq<nat>): seq<nat> {
    if s == [] || x <= s[0] then [x] + s else [s[0]] + Insert(x, s[1..])
  }

  function Sort(s: seq<nat>): seq<nat> {
    if s == [] then [] else Insert(s[0], Sort(s[1..]))
  }

  predicate CountsUp(s: seq<nat>) {
    forall i :: 0 <= i < |s| ==> s[i] == i
  }

  /** `names` enumerates the layer names, in the order a hash map happens to give. */
  ghost predicate Enumerates(names: seq<string>, layers: map<string, Stage>) {
    && (forall k :: 0 <= k < |names| ==> names[k] in layers)
    && (forall j, k :: 0 <= j < k < |names| ==> names[j] != names[k])
    && (forall name :: name in layers ==> name in names)
  }

  function OrdersOf(names: seq<string>, layers: map<string, Stage>): seq<nat>
    requires forall k :: 0 <= k < |names| ==> names[k] in layers
  {
    seq(|names|, k requires 0 <= k < |names| => layers[names[k]].order)
  }

  /** Layer names and the orders 0..n-1 correspond one to one. */
  ghost predicate OrdersAreBijective(layers: map<string, Stage>) {
    && (forall a, b :: a in layers && b in layers && layers[a].order == layers[b].order ==> a == b)
    && (forall a :: a in layers ==> layers[a].order < |layers|)
    && (forall n: nat :: n < |layers| ==> HasOrder(layers, n))
  }

  ghost predicate HasOrder(layers: map<string, Stage>, n: nat) {
    exists a :: a in layers && layers[a].order == n
  }

  // --- Parents come first ---

  /** Each parent is the name of an earlier stage. */
  ghost predicate ParentsAreEarlier(stages: seq<Stage>) {
    forall k :: 0 <= k < |stages| && stages[k].parentName.Some? ==> HasName(stages[..k], stages[k].parentName.value)
  }

  lemma {:induction false} LineKeepsParents(st: ParseState, raw: string)
    requires ParentsAreEarlier(Closed(st)) && ParseLine(st, raw).Ok?
    ensures ParentsAreEarlier(Closed(ParseLine(st, raw).value))
  {
    hide Words, MatchesUpper, MatchesLower, Trim, StartsWithUpper, ParseLabel, LabelOnRelease, Decimal;
    var st' := ParseLine(st, raw).value;
    var before, after := Closed(st), Closed(st');
    forall k | 0 <= k < |after| && after[k].parentName.Some?
      ensures HasName(after[..k], after[k].parentName.value)
    {
      if k < |before| {
        assert after[k].parentName == before[k].parentName && after[..k] == before[..k];
      } else {
        assert after[..k] == before;
      }
    }
  }

  lemma {:induction false} LinesKeepParents(st: ParseState, lines: seq<string>)
    requires ParentsAreEarlier(Closed(st)) && ParseLines(st, lines).Ok?
    ensures ParentsAreEarlier(Closed(ParseLines(st, lines).value))
    decreases |lines|
  {
    hide ParseLine, ParentsAreEarlier;
    if lines == [] {
    } else {
      LineKeepsParents(st, lines[0]);
      LinesKeepParents(ParseLine(st, lines[0]).value, lines[1..]);
    }
  }

  // --- Sorting and counting ---

  ghost predicate Increasing(s: seq<nat>) {
    forall i, j :: 0 <= i < j < |s| ==> s[i] <= s[j]
  }

  lemma {:induction false} InsertSorts(x: nat, s: seq<nat>)
    requires Increasing(s)
    ensures Increasing(Insert(x, s))
    decreases |s|
  {
    if s != [] && x > s[0] {
      InsertSorts(x, s[1..]);
      PrependIncreasing(s[0], Insert(x, s[1..]));
    } else {
      PrependIncreasing(x, s);
    }
  }

  lemma {:induction false} PrependIncreasing(x: nat, s: seq<nat>)
    requires Increasing(s) && (s == [] || x <= s[0])
    ensures Increasing([x] + s)
  {
  }

  lemma {:induction false} InsertKeepsAll(x: nat, s: seq<nat>)
    ensures multiset(Insert(x, s)) == multiset{x} + multiset(s) && |Insert(x, s)| == |s| + 1
    decreases |s|
  {
    if s != [] && x > s[0] {
      InsertKeepsAll(x, s[1..]);
      assert s == [s[0]] + s[1..];
    }
  }

  lemma {:induction false} SortSorts(s: seq<nat>)
    ensures Increasing(Sort(s)) && multiset(Sort(s)) == multiset(s) && |Sort(s)| == |s|
    decreases |s|
  {
    if s == [] {
    } else {
      SortSorts(s[1..]);
      InsertSorts(s[0], Sort(s[1..]));
      InsertKeepsAll(s[0], Sort(s[1..]));
      assert s == [s[0]] + s[1..];
    }
  }

  ghost predicate Distinct(s: seq<nat>) {
    forall i, j :: 0 <= i < j < |s| ==> s[i] != s[j]
  }

  lemma {:induction false} DistinctTail(x: nat, t: seq<nat>)
    ensures Distinct([x] + t) <==> Distinct(t) && x !in t
  {
    var s := [x] + t;
    assert forall j :: 0 <= j < |t| ==> s[j + 1] == t[j];
    if Distinct(s) {
      forall i, j | 0 <= i < j < |t|
        ensures t[i] != t[j]
      {
        assert s[i + 1] != s[j + 1];
      }
      forall j | 0 <= j < |t|
        ensures t[j] != x
      {
        assert s[0] != s[j + 1];
      }
    }
    if Distinct(t) && x !in t {
      forall i, j | 0 <= i < j < |s|
        ensures s[i] != s[j]
      {
        assert s[j] == t[j - 1] && (i > 0 ==> s[i] == t[i - 1]);
      }
    }
  }

  lemma {:induction false} DistinctByCount(s: seq<nat>)
    ensures Distinct(s) <==> forall v :: multiset(s)[v] <= 1
    decreases |s|
  {
    if s == [] {
    } else {
      hide Distinct;
      var x, t := s[0], s[1..];
      assert s == [x] + t;
      DistinctTail(x, t);
      DistinctByCount(t);
      assert multiset(s) == multiset{x} + multiset(t);
      assert multiset(s)[x] == 1 + multiset(t)[x];
      if forall v :: multiset(s)[v] <= 1 {
        forall v
          ensures multiset(t)[v] <= 1
        {
          assert multiset(s)[v] <= 1;
        }
        assert x !in multiset(t);
      }
    }
  }

  /** Distinct numbers below their count, sorted, count up from zero; and only those do. */
  lemma {:induction false} CountsUpExactlyWhen(s: seq<nat>)
    ensures CountsUp(Sort(s)) <==> Distinct(s) && forall i :: 0 <= i < |s| ==> s[i] < |s|
  {
    SortSorts(s);
    var t := Sort(s);
    DistinctByCount(s);
    DistinctByCount(t);
    if CountsUp(t) {
      assert Distinct(t);
      forall i | 0 <= i < |s|
        ensures s[i] < |s|
      {
        assert s[i] in multiset(t);
        assert s[i] in t;
      }
    }
    if Distinct(s) && forall i :: 0 <= i < |s| ==> s[i] < |s| {
      forall i | 0 <= i < |t|
        ensures t[i] < |t|
      {
        assert t[i] in multiset(s);
        assert t[i] in s;
      }
      assert Distinct(t);
      forall i | 0 <= i < |t|
        ensures t[i] == i
      {
        ClimbsFrom(t, i);
        FallsTo(t, i);
      }
    }
  }

  lemma {:induction false} ClimbsFrom(t: seq<nat>, i: nat)
    requires Increasing(t) && Distinct(t) && i < |t|
    ensures t[i] >= i
    decreases i
  {
    if i == 0 {
    } else {
      ClimbsFrom(t, i - 1);
      assert t[i - 1] <= t[i] && t[i - 1] != t[i];
    }
  }

  lemma {:induction false} FallsTo(t: seq<nat>, i: nat)
    requires Increasing(t) && Distinct(t) && i < |t| && forall k :: 0 <= k < |t| ==> t[k] < |t|
    ensures t[i] <= i
    decreases |t| - i
  {
    if i < |t| - 1 {
      FallsTo(t, i + 1);
      assert t[i] <= t[i + 1] && t[i] != t[i + 1];
    }
  }

  lemma {:induction false} EnumerationSize(names: seq<string>, layers: map<string, Stage>)
    requires Enumerates(names, layers)
    ensures |names| == |layers|
  {
    var seen := set name | name in names;
    assert seen == layers.Keys;
    DistinctNamesCount(names);
  }

  lemma {:induction false} DistinctNamesCount(names: seq<string>)
    requires forall j, k :: 0 <= j < k < |names| ==> names[j] != names[k]
    ensures |set name | name in names| == |names|
    decreases |names|
  {
    if names == [] {
    } else {
      var n := |names| - 1;
      var rest := names[..n];
      DistinctNamesCount(rest);
      assert (set name | name in names) == (set name | name in rest) + {names[n]};
    }
  }

  /** If the sorted orders count up, every number below their count is some layer's. */
  lemma {:induction false} CountedIsTaken(names: seq<string>, layers: map<string, Stage>, n: nat)
    requires Enumerates(names, layers) && n < |names| && CountsUp(Sort(OrdersOf(names, layers)))
    ensures HasOrder(layers, n)
  {
    hide Sort;
    var orders := OrdersOf(names, layers);
    SortSorts(orders);
    var t := Sort(orders);
    assert t[n] == n && t[n] in multiset(orders);
    assert n in orders;
    var j :| 0 <= j < |orders| && orders[j] == n;
    assert names[j] in layers && layers[names[j]].order == n;
  }

  /** Whatever order the layer names come in, the check accepts exactly the one-to-one numberings 0..n-1. */
  lemma {:induction false} OrderCheckExactlyWhen(names: seq<string>, layers: map<string, Stage>)
    requires Enumerates(names, layers)
    ensures CountsUp(Sort(OrdersOf(names, layers))) <==> OrdersAreBijective(layers)
  {
    hide Sort;
    var orders := OrdersOf(names, layers);
    EnumerationSize(names, layers);
    CountsUpExactlyWhen(orders);
    if CountsUp(Sort(orders)) {
      forall a, b | a in layers && b in layers && layers[a].order == layers[b].order
        ensures a == b
      {
        var j :| 0 <= j < |names| && names[j] == a;
        var k :| 0 <= k < |names| && names[k] == b;
        assert orders[j] == orders[k];
      }
      forall a | a in layers
        ensures layers[a].order < |layers|
      {
        var j :| 0 <= j < |names| && names[j] == a;
        assert orders[j] < |orders|;
      }
      forall n: nat | n < |layers|
        ensures HasOrder(layers, n)
      {
        CountedIsTaken(names, layers, n);
      }
    }
    if OrdersAreBijective(layers) {
      assert forall i, j :: 0 <= i < j < |orders| ==> names[i] != names[j];
      assert Distinct(orders);
    }
  }

  /** `validate_graph`. */
  method Validate(stages: seq<Stage>, release: Release) returns (r: Result<()>)
    ensures r.Ok? <==>
              && (forall k :: 0 <= k < |release.layerOrder| ==> release.layerOrder[k] in LayerStages(stages))
              && OrdersAreBijective(LayerStages(stages))
    ensures r.Err? ==>
              match r.error
              case UndefinedLayer(name) =>
                exists k :: 0 <= k < |release.layerOrder| && release.layerOrder[k] == name
                  && name !in LayerStages(stages)
                  && forall j :: 0 <= j < k ==> release.layerOrder[j] in LayerStages(stages)
              case e =>
                && e == OrderGap
                && forall k :: 0 <= k < |release.layerOrder| ==> release.layerOrder[k] in LayerStages(stages)
  {
    hide LayerStages, OrdersAreBijective, Sort;
    var layers := LayerStages(stages);
    for k := 0 to |release.layerOrder|
      invariant forall j :: 0 <= j < k ==> release.layerOrder[j] in layers
    {
      if release.layerOrder[k] !in layers {
        return Err(UndefinedLayer(release.layerOrder[k]));
      }
    }
    var names, todo := [], layers.Keys;
    while todo != {}
      invariant todo <= layers.Keys
      invariant forall k :: 0 <= k < |names| ==> names[k] in layers && names[k] !in todo
      invariant forall j, k :: 0 <= j < k < |names| ==> names[j] != names[k]
      invariant forall name :: name in layers && name !in todo ==> name in names
      decreases todo
    {
      var name :| name in todo;
      names, todo := names + [name], todo - {name};
    }
    OrderCheckExactlyWhen(names, layers);
    var orders := Sort(OrdersOf(names, layers));
    for i := 0 to |orders|
      invariant forall j :: 0 <= j < i ==> orders[j] == j
    {
      if orders[i] != i {
        return Err(OrderGap);
      }
    }
    return Ok(());
  }

  /** The text is accepted, as this graph. */
  ghost predicate ParsesTo(content: string, g: Graph) {
    var st := ParseLines(START, SplitAt(content, '\n', ""));
    && st.Ok? && st.value.release.Some? && g == Graph(Closed(st.value), st.value.release.value)
    && (forall k :: 0 <= k < |g.release.layerOrder| ==> g.release.layerOrder[k] in LayerStages(g.stages))
    && OrdersAreBijective(LayerStages(g.stages))
  }

  /** Some Dockerfile is accepted as this graph. */
  ghost predicate Accepted(g: Graph) {
    exists content :: ParsesTo(content, g)
  }

  lemma {:induction false} AcceptedIsSound(g: Graph)
    requires Accepted(g)
    ensures GraphIsSound(g)
  {
    hide ParseLines, SplitAt, LayerStages, OrdersAreBijective, ParentsAreEarlier;
    var content :| ParsesTo(content, g);
    NothingIsEarlier();
    LinesKeepParents(START, SplitAt(content, '\n', ""));
  }

  lemma NothingIsEarlier()
    ensures ParentsAreEarlier(Closed(START))
  {
  }

  /** `parse` on the text of a Dockerfile. */
  method Parse(content: string) returns (r: Result<Graph>)
    ensures r.Ok? ==> ParsesTo(content, r.value) && GraphIsSound(r.value)
    ensures r.Err? ==> forall g :: !ParsesTo(content, g)
    ensures r.Err? ==>
              var st := ParseLines(START, SplitAt(content, '\n', ""));
              && (st.Err? ==> r.error == st.error)
              && (st.Ok? ==>
                    && (r.error == MissingRelease <==> st.value.release.None?)
                    && !r.error.Panic? && !r.error.InvalidOrder?)
  {
    hide ParseLine, LayerStages, OrdersAreBijective, SplitAt;
    var lines := SplitAt(content, '\n', "");
    var st := START;
    for k := 0 to |lines|
      invariant ParseLines(st, lines[k..]) == ParseLines(START, lines)
    {
      assert lines[k..][0] == lines[k] && lines[k..][1..] == lines[k + 1..];
      var next := ParseLine(st, lines[k]);
      if next.Err? {
        return Err(next.error);
      }
      st := next.value;
    }
    LinesKeepParents(START, lines);
    if st.release.None? {
      return Err(MissingRelease);
    }
    var ok := Validate(Closed(st), st.release.value);
    if ok.Err? {
      return Err(ok.error);
    }
    return Ok(Graph(Closed(st), st.release.value));
  }

  /** What acceptance by the parser guarantees. */
  ghost predicate GraphIsSound(g: Graph) {
    && ParentsAreEarlier(g.stages)
    && (forall k :: 0 <= k < |g.release.layerOrder| ==> g.release.layerOrder[k] in LayerStages(g.stages))
    && OrdersAreBijective(LayerStages(g.stages))
  }
}

/**
 * Cache keys of build stages (build-system/src/hasher.rs): instruction normalization and
 * the hashed pre-image. Text is a sequence of characters; its UTF-8 bytes are an injective
 * image of it.
 */
module InputHasher {
  import opened Basics

  /** `char::is_whitespace`: the Unicode White_Space characters. */
  predicate IsSpace(c: char) {
    || '\t' <= c <= '\r' || c == ' ' || c == '\U{85}' || c == '\U{A0}' || c == '\U{1680}'
    || '\U{2000}' <= c <= '\U{200A}' || c == '\U{2028}' || c == '\U{2029}' || c == '\U{202F}'
    || c == '\U{205F}' || c == '\U{3000}'
  }

  ghost predicate AllSpace(s: string) {
    forall i :: 0 <= i < |s| ==> IsSpace(s[i])
  }

  /** A word: non-empty, without white space. */
  ghost predicate IsWord(w: string) {
    w != "" && forall i :: 0 <= i < |w| ==> !IsSpace(w[i])
  }

  /** The text before the first '#'. */
  function StripComment(s: string): string {
    if s == "" || s[0] == '#' then "" else [s[0]] + StripComment(s[1..])
  }

  /** `split_whitespace`; `word` is the word read so far. */
  function Split(s: string, word: string): seq<string> {
    if s == "" then (if word == "" then [] else [word])
    else if IsSpace(s[0]) then (if word == "" then [] else [word]) + Split(s[1..], "")
    else Split(s[1..], word + [s[0]])
  }

  function Words(s: string): seq<string> {
    Split(s, "")
  }

  /** `join(" ")`. */
  function Join(words: seq<string>): string {
    if words == [] then "" else if |words| == 1 then words[0] else words[0] + " " + Join(words[1..])
  }

  function Normalize(instr: string): string {
    Join(Words(StripComment(instr)))
  }

  // --- Words ---

  lemma {:induction false} SplitGivesWords(s: string, word: string)
    requires word == "" || IsWord(word)
    ensures forall k :: 0 <= k < |Split(s, word)| ==> IsWord(Split(s, word)[k])
    decreases |s|
  {
    if s == "" {
    } else {
      if IsSpace(s[0]) {
        SplitGivesWords(s[1..], "");
      } else {
        SplitGivesWords(s[1..], word + [s[0]]);
      }
    }
  }

  /** Reading a word extends the pending one. */
  lemma {:induction false} SplitWord(w: string, rest: string, word: string)
    requires forall i :: 0 <= i < |w| ==> !IsSpace(w[i])
    ensures Split(w + rest, word) == Split(rest, word + w)
    decreases |w|
  {
    if w == "" {
      assert w + rest == rest && word + w == word;
    } else {
      assert (w + rest)[1..] == w[1..] + rest;
      SplitWord(w[1..], rest, word + [w[0]]);
      assert word + [w[0]] + w[1..] == word + w;
    }
  }

  /** Leading white space is skipped. */
  lemma {:induction false} SplitSkipsSpace(ws: string, rest: string)
    requires AllSpace(ws)
    ensures Split(ws + rest, "") == Split(rest, "")
    decreases |ws|
  {
    if ws == "" {
      assert ws + rest == rest;
    } else {
      assert (ws + rest)[1..] == ws[1..] + rest;
      SplitSkipsSpace(ws[1..], rest);
    }
  }

  /** A non-empty run of white space ends the pending word, whatever the run. */
  lemma {:induction false} SplitAtSpace(a: string, ws: string, b: string, word: string)
    requires AllSpace(ws) && ws != ""
    ensures Split(a + ws + b, word) == Split(a, word) + Split(b, "")
    decreases |a|
  {
    if a == "" {
      assert a + ws + b == [ws[0]] + (ws[1..] + b);
      SplitSkipsSpace(ws[1..], b);
    } else {
      assert (a + ws + b)[0] == a[0] && (a + ws + b)[1..] == a[1..] + ws + b;
      if IsSpace(a[0]) {
        SplitAtSpace(a[1..], ws, b, "");
      } else {
        SplitAtSpace(a[1..], ws, b, word + [a[0]]);
      }
    }
  }

  /** Splitting undoes joining. */
  lemma {:induction false} WordsOfJoin(words: seq<string>)
    requires forall k :: 0 <= k < |words| ==> IsWord(words[k])
    ensures Words(Join(words)) == words
    decreases |words|
  {
    if |words| == 1 {
      SplitOneWord(words[0]);
    } else if |words| > 1 {
      SplitAtSpace(words[0], " ", Join(words[1..]), "");
      SplitOneWord(words[0]);
      WordsOfJoin(words[1..]);
      assert words == [words[0]] + words[1..];
    }
  }

  lemma {:induction false} SplitOneWord(w: string)
    requires IsWord(w)
    ensures Split(w, "") == [w]
  {
    SplitWord(w, "", "");
    assert w + "" == w && "" + w == w;
  }

  lemma {:induction false} StripCommentFree(s: string)
    ensures '#' !in StripComment(s)
    ensures '#' !in s ==> StripComment(s) == s
    decreases |s|
  {
    if s != "" && s[0] != '#' {
      StripCommentFree(s[1..]);
    }
  }

  lemma {:induction false} StripCommentTail(s: string, tail: string)
    ensures StripComment(s + "#" + tail) == StripComment(s)
    decreases |s|
  {
    if s == "" {
      assert s + "#" + tail == "#" + tail;
    } else {
      assert (s + "#" + tail)[1..] == s[1..] + "#" + tail;
      StripCommentTail(s[1..], tail);
    }
  }

  /** Every character of a word list comes from the text it was split from. */
  lemma {:induction false} SplitAddsNothing(s: string, word: string, c: char)
    requires c !in s && c !in word
    ensures forall k :: 0 <= k < |Split(s, word)| ==> c !in Split(s, word)[k]
    decreases |s|
  {
    if s == "" {
    } else {
      SplitAddsNothing(s[1..], if IsSpace(s[0]) then "" else word + [s[0]], c);
    }
  }

  lemma {:induction false} JoinAddsOnlySpaces(words: seq<string>, c: char)
    requires c != ' ' && forall k :: 0 <= k < |words| ==> c !in words[k]
    ensures c !in Join(words)
    decreases |words|
  {
    if |words| <= 1 {
    } else {
      JoinAddsOnlySpaces(words[1..], c);
    }
  }

  // --- Normalization ---

  /** A normalized instruction has no comment sign and no line break, so it is one line. */
  lemma {:induction false} NormalizedIsOneLine(instr: string)
    ensures '#' !in Normalize(instr) && '\n' !in Normalize(instr)
  {
    var text := StripComment(instr);
    StripCommentFree(instr);
    SplitAddsNothing(text, "", '#');
    SplitGivesWords(text, "");
    JoinAddsOnlySpaces(Words(text), '#');
    JoinAddsOnlySpaces(Words(text), '\n');
  }

  lemma {:induction false} NormalizeIdempotent(instr: string)
    ensures Normalize(Normalize(instr)) == Normalize(instr)
  {
    NormalizedIsOneLine(instr);
    StripCommentFree(Normalize(instr));
    SplitGivesWords(StripComment(instr), "");
    WordsOfJoin(Words(StripComment(instr)));
  }

  /** White space before a comment sign stays, and nothing after one does. */
  lemma {:induction false} StripCommentRun(a: string, ws: string, b: string)
    requires AllSpace(ws)
    ensures StripComment(a + ws + b) == if '#' in a then StripComment(a) else a + ws + StripComment(b)
    decreases |a|
  {
    if a != "" {
      var t := a + ws + b;
      assert t[0] == a[0] && t[1..] == a[1..] + ws + b;
      StripCommentRun(a[1..], ws, b);
      if a[0] != '#' {
        assert [a[0]] + (a[1..] + ws + StripComment(b)) == a + ws + StripComment(b);
        assert '#' in a <==> '#' in a[1..];
      }
    } else {
      StripCommentKeepsSpace(ws, b);
      assert a + ws + b == ws + b && a + ws + StripComment(b) == ws + StripComment(b);
    }
  }

  lemma {:induction false} StripCommentKeepsSpace(ws: string, b: string)
    requires AllSpace(ws)
    ensures StripComment(ws + b) == ws + StripComment(b)
    decreases |ws|
  {
    if ws == "" {
      assert ws + b == b && ws + StripComment(b) == StripComment(b);
    } else {
      assert (ws + b)[0] == ws[0] && (ws + b)[1..] == ws[1..] + b;
      StripCommentKeepsSpace(ws[1..], b);
      assert [ws[0]] + (ws[1..] + StripComment(b)) == ws + StripComment(b);
    }
  }

  /** Which white space separates two parts, and how much of it, does not matter. */
  lemma {:induction false} NormalizeIgnoresRuns(a: string, ws1: string, ws2: string, b: string)
    requires AllSpace(ws1) && ws1 != "" && AllSpace(ws2) && ws2 != ""
    ensures Normalize(a + ws1 + b) == Normalize(a + ws2 + b)
  {
    hide IsSpace, StripComment, Join, Split;
    StripCommentRun(a, ws1, b);
    StripCommentRun(a, ws2, b);
    SplitAtSpace(a, ws1, StripComment(b), "");
    SplitAtSpace(a, ws2, StripComment(b), "");
  }

  lemma {:induction false} NormalizeIgnoresEdges(a: string, ws: string)
    requires AllSpace(ws) && ws != ""
    ensures Normalize(ws + a) == Normalize(a) == Normalize(a + ws)
  {
    hide IsSpace, Join;
    StripCommentKeepsSpace(ws, a);
    SplitSkipsSpace(ws, StripComment(a));
    StripCommentRun(a, ws, "");
    assert a + ws + "" == a + ws;
    StripCommentFree(a);
    if '#' !in a {
      SplitAtSpace(a, ws, "", "");
      assert a + ws + StripComment("") == a + ws + "";
      assert Split(a, "") + Split("", "") == Split(a, "");
    }
  }

  /** A comment changes nothing; an instruction that is only a comment is empty. */
  lemma {:induction false} NormalizeIgnoresComments(a: string, ws: string, comment: string)
    requires AllSpace(ws)
    ensures Normalize(a + "#" + comment) == Normalize(a)
    ensures Normalize(ws + "#" + comment) == ""
  {
    hide IsSpace;
    StripCommentTail(a, comment);
    StripCommentTail(ws, comment);
    StripCommentKeepsSpace(ws, "");
    assert ws + "" == ws;
    SplitSkipsSpace(ws, "");
  }

  // --- The pre-image ---

  /** The normalized, non-empty instructions of a stage. */
  function Lines(instructions: seq<string>): seq<string> {
    if instructions == [] then []
    else
      var line := Normalize(instructions[0]);
      (if line == "" then [] else [line]) + Lines(instructions[1..])
  }

  /** Each line is terminated by a line break. */
  function Terminated(lines: seq<string>): string {
    if lines == [] then "" else lines[0] + "\n" + Terminated(lines[1..])
  }

  /** Everything the hasher absorbs, in order. */
  function PreImage(parent: Option<string>, lines: seq<string>): string {
    (if parent.Some? then parent.value else "") + "\0" + Terminated(lines)
  }

  /** `compute_input_hash`'s loop, absorbing into the hasher step by step. */
  method AbsorbStage(instructions: seq<string>, parent: Option<string>) returns (absorbed: string)
    ensures absorbed == PreImage(parent, Lines(instructions))
  {
    hide Normalize, Lines, Terminated;
    absorbed := if parent.Some? then parent.value else "";
    absorbed := absorbed + "\0";
    ghost var head := absorbed;
    for k := 0 to |instructions|
      invariant absorbed + Terminated(Lines(instructions[k..])) == head + Terminated(Lines(instructions))
    {
      ghost var before, rest := absorbed, Terminated(Lines(instructions[k + 1..]));
      TerminatedStep(instructions[k..]);
      assert instructions[k..][1..] == instructions[k + 1..];
      var normalized := Normalize(instructions[k]);
      if normalized != "" {
        absorbed := absorbed + normalized;
        absorbed := absorbed + "\n";
        assert before + (normalized + "\n" + rest) == absorbed + rest;
      }
    }
    NothingTerminated(instructions[|instructions|..]);
    assert absorbed + "" == absorbed;
  }

  lemma {:induction false} TerminatedStep(instructions: seq<string>)
    requires instructions != []
    ensures var line, rest := Normalize(instructions[0]), Terminated(Lines(instructions[1..]));
            Terminated(Lines(instructions)) == if line == "" then rest else line + "\n" + rest
  {
    hide Normalize;
    var line, rest := Normalize(instructions[0]), Lines(instructions[1..]);
    assert line != "" ==> ([line] + rest)[1..] == rest;
    assert [] + rest == rest;
  }

  lemma NothingTerminated(none: seq<string>)
    requires none == []
    ensures Terminated(Lines(none)) == ""
  {
  }

  /** Instructions that normalize to nothing never reach the hasher. */
  lemma {:induction false} BlankLinesAreInvisible(before: seq<string>, blank: string, after: seq<string>)
    requires Normalize(blank) == ""
    ensures Lines(before + [blank] + after) == Lines(before + after)
    decreases |before|
  {
    hide Normalize;
    if before == [] {
      assert before + [blank] + after == [blank] + after && before + after == after;
    } else {
      assert (before + [blank] + after)[1..] == before[1..] + [blank] + after;
      assert (before + after)[1..] == before[1..] + after;
      BlankLinesAreInvisible(before[1..], blank, after);
    }
  }

  // --- Unique decoding ---

  ghost predicate AreLines(lines: seq<string>) {
    forall k :: 0 <= k < |lines| ==> '\n' !in lines[k]
  }

  lemma {:induction false} LinesAreLines(instructions: seq<string>)
    ensures AreLines(Lines(instructions))
    decreases |instructions|
  {
    hide Normalize;
    if instructions == [] {
    } else {
      NormalizedIsOneLine(instructions[0]);
      LinesAreLines(instructions[1..]);
    }
  }

  /** Where a separator first occurs is determined by the whole text. */
  lemma {:induction false} FirstSeparator(a: string, b: string, sep: char, x: string, y: string)
    requires sep !in a && sep !in b && a + [sep] + x == b + [sep] + y
    ensures a == b && x == y
    decreases |a|
  {
    var s, t := a + [sep] + x, b + [sep] + y;
    assert s[0] == (if a == "" then sep else a[0]) && t[0] == (if b == "" then sep else b[0]);
    if a == "" && b == "" {
      assert x == s[1..] && y == t[1..];
    } else if a != "" && b != "" {
      assert s[1..] == a[1..] + [sep] + x && t[1..] == b[1..] + [sep] + y;
      FirstSeparator(a[1..], b[1..], sep, x, y);
      assert a == [a[0]] + a[1..] && b == [b[0]] + b[1..];
    }
  }

  lemma {:induction false} TerminatedInjective(a: seq<string>, b: seq<string>)
    requires AreLines(a) && AreLines(b) && Terminated(a) == Terminated(b)
    ensures a == b
    decreases |a|
  {
    assert a != [] ==> |Terminated(a)| > 0;
    assert b != [] ==> |Terminated(b)| > 0;
    if a != [] && b != [] {
      FirstSeparator(a[0], b[0], '\n', Terminated(a[1..]), Terminated(b[1..]));
      TerminatedInjective(a[1..], b[1..]);
      assert a == [a[0]] + a[1..] && b == [b[0]] + b[1..];
    }
  }

  /** Parent hashes are non-empty text without NUL. */
  ghost predicate IsHashText(h: string) {
    h != "" && '\0' !in h
  }

  /** The pre-image determines the parent hash, its absence, and every normalized line. */
  lemma {:induction false} PreImageInjective(p: Option<string>, a: seq<string>, q: Option<string>, b: seq<string>)
    requires AreLines(a) && AreLines(b)
    requires (p.Some? ==> IsHashText(p.value)) && (q.Some? ==> IsHashText(q.value))
    requires PreImage(p, a) == PreImage(q, b)
    ensures p == q && a == b
  {
    var ph, qh := if p.Some? then p.value else "", if q.Some? then q.value else "";
    FirstSeparator(ph, qh, '\0', Terminated(a), Terminated(b));
    TerminatedInjective(a, b);
  }

  // --- Ancestor chains ---

  /** A stage's instruction text and that of its ancestors, back to the root. */
  datatype Chain = Chain(text: seq<string>, parent: Option<Chain>)

  /** What is left of a chain after normalization, level by level. */
  function Normalized(chain: Chain): Chain {
    Chain(Lines(chain.text), if chain.parent.Some? then Some(Normalized(chain.parent.value)) else None)
  }

  /** The input hash of a chain, for a hash function `sha`. */
  function KeyOf(sha: string -> string, chain: Chain): string {
    sha(PreImage(if chain.parent.Some? then Some(KeyOf(sha, chain.parent.value)) else None, Lines(chain.text)))
  }

  /** Collision-free, with hash-like results. */
  ghost predicate Ideal(sha: string -> string) {
    (forall x, y :: sha(x) == sha(y) ==> x == y) && forall x :: IsHashText(sha(x))
  }

  /** Whatever the hash function, the key depends on the normal form alone. */
  lemma {:induction false} SameNormalFormSameKey(sha: string -> string, a: Chain, b: Chain)
    requires Normalized(a) == Normalized(b)
    ensures KeyOf(sha, a) == KeyOf(sha, b)
    decreases a
  {
    hide PreImage, Lines;
    if a.parent.None? {
    } else {
      SameNormalFormSameKey(sha, a.parent.value, b.parent.value);
    }
  }

  /** Input hashes are equal exactly when normalization leaves the same at every level of the ancestry. */
  lemma {:induction false} KeyInjective(sha: string -> string, a: Chain, b: Chain)
    requires Ideal(sha)
    ensures KeyOf(sha, a) == KeyOf(sha, b) <==> Normalized(a) == Normalized(b)
    decreases a
  {
    hide PreImage, IsHashText, Lines;
    var p := if a.parent.Some? then Some(KeyOf(sha, a.parent.value)) else None;
    var q := if b.parent.Some? then Some(KeyOf(sha, b.parent.value)) else None;
    if a.parent.Some? && b.parent.Some? {
      KeyInjective(sha, a.parent.value, b.parent.value);
    }
    if KeyOf(sha, a) == KeyOf(sha, b) {
      LinesAreLines(a.text);
      LinesAreLines(b.text);
      PreImageInjective(p, Lines(a.text), q, Lines(b.text));
    }
  }

  // --- Such a hash function exists ---

  /** A text without NUL that stands for `s`: 'e' marks an escape. */
  function Escape(s: string): string {
    if s == "" then ""
    else (if s[0] == '\0' then "e0" else if s[0] == 'e' then "ee" else [s[0]]) + Escape(s[1..])
  }

  lemma {:induction false} EscapeInjective(x: string, y: string)
    requires Escape(x) == Escape(y)
    ensures x == y
    decreases |x|
  {
    if x != "" && y != "" {
      var s := Escape(x);
      var n := if s[0] == 'e' then 2 else 1;
      assert Escape(x[1..]) == s[n..] && Escape(y[1..]) == s[n..];
      EscapeInjective(x[1..], y[1..]);
      assert x == [x[0]] + x[1..] && y == [y[0]] + y[1..];
    }
  }

  lemma {:induction false} EscapeHasNoNul(s: string)
    ensures '\0' !in Escape(s)
    decreases |s|
  {
    if s == "" {
    } else {
      EscapeHasNoNul(s[1..]);
    }
  }

  lemma {:induction false} IdealExists()
    ensures Ideal(s => "h" + Escape(s))
  {
    var sha := (s: string) => "h" + Escape(s);
    forall x, y | sha(x) == sha(y)
      ensures x == y
    {
      assert sha(x)[1..] == Escape(x) && sha(y)[1..] == Escape(y);
      EscapeInjective(x, y);
    }
    forall x
      ensures IsHashText(sha(x))
    {
      EscapeHasNoNul(x);
    }
  }
}

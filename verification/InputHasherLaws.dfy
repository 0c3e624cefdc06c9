/**
 * What the input hash keeps (build-system/src/hasher.rs): an instruction counts through the
 * list of its words before the first '#', and nothing of that list is lost on the way into
 * the hasher.
 */
module InputHasherLaws {
  import opened Basics
  import opened InputHasher

  // --- White space ---

  /** The code points of the Unicode property White_Space. */
  const SPACES: set<int> := {
    0x09, 0x0A, 0x0B, 0x0C, 0x0D, 0x20, 0x85, 0xA0, 0x1680, 0x2000, 0x2001, 0x2002, 0x2003, 0x2004, 0x2005,
    0x2006, 0x2007, 0x2008, 0x2009, 0x200A, 0x2028, 0x2029, 0x202F, 0x205F, 0x3000}

  lemma SpacesAre(c: char)
    ensures IsSpace(c) <==> c as int in SPACES
  {
  }

  // --- Comments ---

  /** The comment starts at the first '#'. */
  lemma {:induction false} StripCommentIs(s: string)
    ensures var kept := StripComment(s);
            kept <= s && '#' !in kept && (kept == s || s[|kept|] == '#')
    decreases |s|
  {
    if s == "" || s[0] == '#' {
    } else {
      StripCommentIs(s[1..]);
    }
  }

  // --- Words ---

  /** Words laid out with a gap before, between and after them. */
  function Spaced(gaps: seq<string>, words: seq<string>): string
    requires |gaps| == |words| + 1
  {
    if words == [] then gaps[0] else gaps[0] + words[0] + Spaced(gaps[1..], words[1..])
  }

  /** White space everywhere, and some between any two words. */
  ghost predicate AreGaps(gaps: seq<string>) {
    && (forall k :: 0 <= k < |gaps| ==> AllSpace(gaps[k]))
    && (forall k :: 0 < k < |gaps| - 1 ==> gaps[k] != "")
  }

  ghost predicate AreWords(words: seq<string>) {
    forall k :: 0 <= k < |words| ==> IsWord(words[k])
  }

  /** However the words are laid out, they are the words of the text. */
  lemma {:induction false} WordsOfSpaced(gaps: seq<string>, words: seq<string>)
    requires |gaps| == |words| + 1 && AreGaps(gaps) && AreWords(words)
    ensures Words(Spaced(gaps, words)) == words
    decreases |words|
  {
    hide IsSpace;
    if words == [] {
      SplitSkipsSpace(gaps[0], "");
      assert gaps[0] + "" == gaps[0];
    } else {
      var w, rest := words[0], Spaced(gaps[1..], words[1..]);
      assert AllSpace(gaps[0]);
      assert gaps[0] + w + rest == gaps[0] + (w + rest);
      SplitSkipsSpace(gaps[0], w + rest);
      if words[1..] == [] {
        assert rest == gaps[1] && AllSpace(gaps[1]);
        LastWord(w, rest);
      } else {
        assert gaps[1] != "" && AllSpace(gaps[1]);
        var tail := words[1] + Spaced(gaps[2..], words[2..]);
        assert gaps[1..][1..] == gaps[2..] && words[1..][1..] == words[2..];
        assert rest == gaps[1] + tail;
        assert w + rest == w + gaps[1] + tail;
        SplitAtSpace(w, gaps[1], tail, "");
        SplitOneWord(w);
        SplitSkipsSpace(gaps[1], tail);
        assert AreGaps(gaps[1..]);
        WordsOfSpaced(gaps[1..], words[1..]);
      }
      assert words == [w] + words[1..];
    }
  }

  lemma {:induction false} LastWord(w: string, gap: string)
    requires IsWord(w) && AllSpace(gap)
    ensures Words(w + gap) == [w]
  {
    hide IsSpace;
    SplitOneWord(w);
    if gap == "" {
      assert w + gap == w;
    } else {
      SplitAtSpace(w, gap, "", "");
      assert w + gap + "" == w + gap;
    }
  }

  /** Every text is its words, laid out. */
  lemma {:induction false} EveryTextIsSpaced(s: string) returns (gaps: seq<string>)
    ensures |gaps| == |Words(s)| + 1 && AreGaps(gaps) && AreWords(Words(s)) && s == Spaced(gaps, Words(s))
    decreases |s|
  {
    hide IsSpace;
    SplitGivesWords(s, "");
    var gap, rest := LeadingSpace(s);
    if rest == "" {
      SplitSkipsSpace(gap, "");
      assert gap + "" == gap == s;
      gaps := [gap];
    } else {
      var w, tail := LeadingWord(rest);
      SplitSkipsSpace(gap, rest);
      var more := EveryTextIsSpaced(tail);
      WordThenRest(w, tail);
      assert Words(s) == [w] + Words(tail);
      gaps := [gap] + more;
      assert gaps[1..] == more && Words(s)[1..] == Words(tail);
      assert s == gap + w + tail;
    }
  }

  lemma {:induction false} LeadingSpace(s: string) returns (gap: string, rest: string)
    ensures s == gap + rest && AllSpace(gap) && (rest == "" || !IsSpace(rest[0]))
    decreases |s|
  {
    hide IsSpace;
    if s == "" || !IsSpace(s[0]) {
      gap, rest := "", s;
    } else {
      gap, rest := LeadingSpace(s[1..]);
      gap := [s[0]] + gap;
    }
  }

  lemma {:induction false} LeadingWord(s: string) returns (w: string, rest: string)
    requires s != "" && !IsSpace(s[0])
    ensures s == w + rest && IsWord(w) && (rest == "" || IsSpace(rest[0]))
    decreases |s|
  {
    hide IsSpace;
    if |s| == 1 || IsSpace(s[1]) {
      w, rest := s[..1], s[1..];
    } else {
      w, rest := LeadingWord(s[1..]);
      w := [s[0]] + w;
    }
  }

  lemma {:induction false} WordThenRest(w: string, rest: string)
    requires IsWord(w) && (rest == "" || IsSpace(rest[0]))
    ensures Words(w + rest) == [w] + Words(rest)
  {
    hide IsSpace;
    SplitOneWord(w);
    if rest == "" {
      assert w + rest == w;
    } else {
      var gap, tail := rest[..1], rest[1..];
      assert w + rest == w + gap + tail && rest == gap + tail;
      SplitAtSpace(w, gap, tail, "");
      SplitSkipsSpace(gap, tail);
    }
  }

  // --- Joining ---

  /** Joined parts are separated by exactly one space. */
  lemma {:induction false} JoinAppend(a: seq<string>, b: seq<string>)
    requires a != [] && b != []
    ensures Join(a + b) == Join(a) + " " + Join(b)
    decreases |a|
  {
    assert a + b == [a[0]] + (a[1..] + b);
    if |a| == 1 {
      assert (a + b)[1..] == b;
    } else {
      assert (a + b)[1..] == a[1..] + b;
      JoinAppend(a[1..], b);
    }
  }

  lemma JoinOne(w: string)
    ensures Join([]) == "" && Join([w]) == w
  {
  }

  // --- What counts of an instruction ---

  /** The words before the first '#'. */
  function Tokens(instr: string): seq<string> {
    Words(StripComment(instr))
  }

  /** A normal form is the words, joined by single spaces; and every such text is one. */
  lemma {:induction false} NormalFormIs(words: seq<string>)
    requires AreWords(words) && forall k :: 0 <= k < |words| ==> '#' !in words[k]
    ensures Normalize(Join(words)) == Join(words) && Tokens(Join(words)) == words
  {
    hide IsSpace;
    JoinAddsOnlySpaces(words, '#');
    StripCommentFree(Join(words));
    WordsOfJoin(words);
  }

  /** Normalization forgets the gaps and the comment, and nothing else. */
  lemma {:induction false} NormalizeExactly(a: string, b: string)
    ensures Normalize(a) == Normalize(b) <==> Tokens(a) == Tokens(b)
    ensures Normalize(a) == "" <==> Tokens(a) == []
    ensures Tokens(Normalize(a)) == Tokens(a)
  {
    hide IsSpace, Split, StripComment;
    TokensOfNormal(a);
    TokensOfNormal(b);
  }

  lemma {:induction false} TokensOfNormal(a: string)
    ensures Tokens(Normalize(a)) == Tokens(a) && Words(Normalize(a)) == Tokens(a)
    ensures Normalize(a) == "" <==> Tokens(a) == []
  {
    SplitGivesWords(StripComment(a), "");
    WordsOfJoin(Tokens(a));
    NormalizedIsOneLine(a);
    StripCommentFree(Normalize(a));
    assert Words("") == [];
  }

  // --- What counts of a stage ---

  /** The token lists of the instructions that have any. */
  function TokenLines(instructions: seq<string>): seq<seq<string>> {
    if instructions == [] then []
    else
      var n := |instructions| - 1;
      TokenLines(instructions[..n]) + if Tokens(instructions[n]) == [] then [] else [Tokens(instructions[n])]
  }

  function JoinAll(lists: seq<seq<string>>): seq<string> {
    seq(|lists|, k requires 0 <= k < |lists| => Join(lists[k]))
  }

  lemma {:induction false} LinesAppend(a: seq<string>, b: seq<string>)
    ensures Lines(a + b) == Lines(a) + Lines(b)
    decreases |a|
  {
    hide Normalize;
    if a == [] {
      assert a + b == b;
    } else {
      assert (a + b)[1..] == a[1..] + b;
      LinesAppend(a[1..], b);
    }
  }

  lemma LinesOne(instr: string)
    ensures Lines([instr]) == if Normalize(instr) == "" then [] else [Normalize(instr)]
  {
    hide Normalize;
    assert [instr][1..] == [];
  }

  /** The hashed lines are the token lists, joined, in order. */
  lemma {:induction false} LinesAreTokens(instructions: seq<string>)
    ensures Lines(instructions) == JoinAll(TokenLines(instructions))
    decreases |instructions|
  {
    hide Words, StripComment, Join;
    if instructions == [] {
    } else {
      var n := |instructions| - 1;
      var before, last := instructions[..n], instructions[n];
      assert instructions == before + [last];
      LinesAreTokens(before);
      LinesAppend(before, [last]);
      LinesOne(last);
      NormalizeExactly(last, last);
    }
  }

  lemma {:induction false} TokenLinesAreWords(instructions: seq<string>)
    ensures forall k :: 0 <= k < |TokenLines(instructions)| ==> AreWords(TokenLines(instructions)[k])
    decreases |instructions|
  {
    if instructions == [] {
    } else {
      var n := |instructions| - 1;
      TokenLinesAreWords(instructions[..n]);
      SplitGivesWords(StripComment(instructions[n]), "");
    }
  }

  /** Two stages hash the same lines exactly when they have the same token lists. */
  lemma {:induction false} LinesExactly(a: seq<string>, b: seq<string>)
    ensures Lines(a) == Lines(b) <==> TokenLines(a) == TokenLines(b)
  {
    hide TokenLines, Lines, Join, Words, IsWord;
    LinesAreTokens(a);
    LinesAreTokens(b);
    if Lines(a) == Lines(b) {
      var x, y := TokenLines(a), TokenLines(b);
      TokenLinesAreWords(a);
      TokenLinesAreWords(b);
      assert |x| == |JoinAll(x)| == |y|;
      forall k | 0 <= k < |x|
        ensures x[k] == y[k]
      {
        assert JoinAll(x)[k] == JoinAll(y)[k];
        WordsOfJoin(x[k]);
        WordsOfJoin(y[k]);
      }
    }
  }

  // --- What counts of an ancestry ---

  /** The token lists of a stage and of its ancestors. */
  datatype TokenChain = TokenChain(lines: seq<seq<string>>, parent: Option<TokenChain>)

  function TokensOf(chain: Chain): TokenChain {
    TokenChain(TokenLines(chain.text), if chain.parent.Some? then Some(TokensOf(chain.parent.value)) else None)
  }

  lemma {:induction false} NormalizedExactly(a: Chain, b: Chain)
    ensures Normalized(a) == Normalized(b) <==> TokensOf(a) == TokensOf(b)
    decreases a
  {
    hide Lines, TokenLines;
    LinesExactly(a.text, b.text);
    if a.parent.None? || b.parent.None? {
    } else {
      NormalizedExactly(a.parent.value, b.parent.value);
    }
  }

  /**
   * Two stages get the same input hash exactly when, at every level of the ancestry, they
   * have the same lists of words before comments, blank instructions aside.
   */
  lemma {:induction false} KeyExactly(sha: string -> string, a: Chain, b: Chain)
    requires Ideal(sha)
    ensures KeyOf(sha, a) == KeyOf(sha, b) <==> TokensOf(a) == TokensOf(b)
  {
    hide Ideal, KeyOf, Normalized, TokensOf;
    KeyInjective(sha, a, b);
    NormalizedExactly(a, b);
  }

  /** One changed word in one instruction changes the input hash. */
  lemma {:induction false} WordChangesKey(sha: string -> string, v: string, w: string, w': string)
    requires Ideal(sha) && w != w'
    requires IsWord(v) && IsWord(w) && IsWord(w') && '#' !in v && '#' !in w && '#' !in w'
    ensures KeyOf(sha, Chain([v + " " + w], None)) != KeyOf(sha, Chain([v + " " + w'], None))
  {
    hide Ideal, KeyOf, Tokens, IsWord;
    var a, b := Chain([v + " " + w], None), Chain([v + " " + w'], None);
    TwoWords(v, w);
    TwoWords(v, w');
    assert a.text[..0] == [] && b.text[..0] == [];
    assert TokenLines(a.text) == [[v, w]] && TokenLines(b.text) == [[v, w']];
    KeyExactly(sha, a, b);
  }

  /** The sensitivity the tests ask for. */
  lemma {:induction false} ImageChangesKey(sha: string -> string)
    requires Ideal(sha)
    ensures KeyOf(sha, Chain(["FROM" + " " + "debian"], None)) != KeyOf(sha, Chain(["FROM" + " " + "alpine"], None))
  {
    hide Ideal, KeyOf;
    assert "debian"[0] != "alpine"[0];
    WordChangesKey(sha, "FROM", "debian", "alpine");
  }

  lemma {:induction false} TwoWords(v: string, w: string)
    requires IsWord(v) && IsWord(w) && '#' !in v && '#' !in w
    ensures Tokens(v + " " + w) == [v, w]
  {
    hide IsSpace, Split;
    var words := [v, w];
    assert words[1..] == [w];
    assert Join(words) == v + " " + w;
    NormalFormIs(words);
  }

  // --- The hashed text can be read back ---

  function BeforeNul(s: string): string {
    if s == "" || s[0] == '\0' then "" else [s[0]] + BeforeNul(s[1..])
  }

  /** The lines of a text in which every line is ended by a line break; `line` is the one being read. */
  function ReadLines(s: string, line: string): seq<string> {
    if s == "" then []
    else if s[0] == '\n' then [line] + ReadLines(s[1..], "")
    else ReadLines(s[1..], line + [s[0]])
  }

  lemma {:induction false} BeforeNulIs(head: string, tail: string)
    requires '\0' !in head
    ensures BeforeNul(head + "\0" + tail) == head
    decreases |head|
  {
    var s := head + "\0" + tail;
    if head == "" {
      assert s[0] == '\0';
    } else {
      assert s[0] == head[0] && s[1..] == head[1..] + "\0" + tail;
      BeforeNulIs(head[1..], tail);
    }
  }

  lemma {:induction false} ReadOneLine(l: string, rest: string, line: string)
    requires '\n' !in l
    ensures ReadLines(l + "\n" + rest, line) == [line + l] + ReadLines(rest, "")
    decreases |l|
  {
    var s := l + "\n" + rest;
    if l == "" {
      assert s[0] == '\n' && s[1..] == rest && line + l == line;
    } else {
      assert s[0] == l[0] && s[1..] == l[1..] + "\n" + rest;
      ReadOneLine(l[1..], rest, line + [l[0]]);
      assert line + [l[0]] + l[1..] == line + l;
    }
  }

  lemma {:induction false} ReadTerminated(lines: seq<string>)
    requires AreLines(lines)
    ensures ReadLines(Terminated(lines), "") == lines
    decreases |lines|
  {
    if lines == [] {
    } else {
      ReadOneLine(lines[0], Terminated(lines[1..]), "");
      assert "" + lines[0] == lines[0];
      ReadTerminated(lines[1..]);
      assert lines == [lines[0]] + lines[1..];
    }
  }

  /** The hasher absorbs the parent hash, a NUL, and the normal forms one per line: all of it reads back. */
  lemma {:induction false} PreImageReadsBack(parent: Option<string>, instructions: seq<string>)
    requires parent.Some? ==> IsHashText(parent.value)
    ensures var s := PreImage(parent, Lines(instructions));
            var head := BeforeNul(s);
            && (if parent.Some? then head == parent.value else head == "")
            && |head| < |s| && s[|head|] == '\0'
            && ReadLines(s[|head| + 1..], "") == Lines(instructions)
  {
    hide Lines, Terminated, BeforeNul, ReadLines;
    var head, tail := if parent.Some? then parent.value else "", Terminated(Lines(instructions));
    BeforeNulIs(head, tail);
    assert (head + "\0" + tail)[|head| + 1..] == tail;
    LinesAreLines(instructions);
    ReadTerminated(Lines(instructions));
  }
}

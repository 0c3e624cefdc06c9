/** What the text functions of the parser compute, each told without its loop. */
module ParserTextLaws {
  import opened Basics
  import opened InputHasher
  import opened DockerfileParser

  // --- Trimming ---

  /** Neither end is white space. */
  predicate IsTrimmed(s: string) {
    s != "" && !IsSpace(s[0]) && !IsSpace(s[|s| - 1])
  }

  lemma {:induction false} TrimStartIs(s: string) returns (gap: string)
    ensures s == gap + TrimStart(s) && AllSpace(gap) && (TrimStart(s) != "" ==> !IsSpace(TrimStart(s)[0]))
    decreases |s|
  {
    hide IsSpace;
    if s == "" || !IsSpace(s[0]) {
      gap := "";
    } else {
      gap := TrimStartIs(s[1..]);
      gap := [s[0]] + gap;
    }
  }

  lemma {:induction false} TrimEndIs(s: string) returns (gap: string)
    ensures s == TrimEnd(s) + gap && AllSpace(gap) && (TrimEnd(s) != "" ==> !IsSpace(TrimEnd(s)[|TrimEnd(s)| - 1]))
    decreases |s|
  {
    hide IsSpace;
    if s == "" || !IsSpace(s[|s| - 1]) {
      gap := "";
    } else {
      var n := |s| - 1;
      gap := TrimEndIs(s[..n]);
      gap := gap + [s[n]];
      assert s == s[..n] + [s[n]];
    }
  }

  /** Trimming takes white space off both ends, and all of it. */
  lemma {:induction false} TrimIs(s: string) returns (before: string, after: string)
    ensures AllSpace(before) && AllSpace(after) && s == before + Trim(s) + after
    ensures Trim(s) == "" || IsTrimmed(Trim(s))
  {
    hide IsSpace, TrimStart, TrimEnd;
    before := TrimStartIs(s);
    after := TrimEndIs(TrimStart(s));
    var t := TrimStart(s);
    if Trim(s) != "" {
      assert t[0] == Trim(s)[0];
    }
  }

  lemma {:induction false} SkipStart(gap: string, s: string)
    requires AllSpace(gap)
    ensures TrimStart(gap + s) == TrimStart(s)
    decreases |gap|
  {
    hide IsSpace;
    if gap == "" {
      assert gap + s == s;
    } else {
      assert (gap + s)[1..] == gap[1..] + s;
      SkipStart(gap[1..], s);
    }
  }

  lemma {:induction false} SkipEnd(s: string, gap: string)
    requires AllSpace(gap)
    ensures TrimEnd(s + gap) == TrimEnd(s)
    decreases |gap|
  {
    hide IsSpace;
    if gap == "" {
      assert s + gap == s;
    } else {
      var n := |gap| - 1;
      assert (s + gap)[..|s + gap| - 1] == s + gap[..n];
      SkipEnd(s, gap[..n]);
    }
  }

  /** However much white space surrounds a trimmed text, trimming finds it. */
  lemma {:induction false} TrimFinds(before: string, s: string, after: string)
    requires AllSpace(before) && AllSpace(after) && (s == "" || IsTrimmed(s))
    ensures Trim(before + s + after) == s
  {
    hide IsSpace;
    assert before + s + after == before + (s + after);
    SkipStart(before, s + after);
    if s == "" {
      assert s + after == after + "";
      SkipStart(after, "");
    } else {
      assert (s + after)[0] == s[0];
      SkipEnd(s, after);
    }
  }

  // --- Splitting ---

  function JoinWith(parts: seq<string>, sep: char): string
    requires parts != []
  {
    if |parts| == 1 then parts[0] else parts[0] + [sep] + JoinWith(parts[1..], sep)
  }

  /** The parts have no separator in them, and joined by it they are the text. */
  lemma {:induction false} SplitIs(s: string, sep: char, part: string)
    requires sep !in part
    ensures var parts := SplitAt(s, sep, part);
            parts != [] && (forall k :: 0 <= k < |parts| ==> sep !in parts[k]) && JoinWith(parts, sep) == part + s
    decreases |s|
  {
    if s == "" {
      assert part + s == part;
    } else if s[0] == sep {
      SplitIs(s[1..], sep, "");
      var parts, rest := SplitAt(s, sep, part), SplitAt(s[1..], sep, "");
      assert parts[1..] == rest;
      assert part + s == part + [sep] + ("" + s[1..]);
    } else {
      SplitIs(s[1..], sep, part + [s[0]]);
      assert part + [s[0]] + s[1..] == part + s;
    }
  }

  lemma {:induction false} FindIs(s: string, c: char)
    ensures match Find(s, c)
            case None => c !in s
            case Some(at) => at < |s| && s[at] == c && c !in s[..at]
    decreases |s|
  {
    if s == "" || s[0] == c {
    } else {
      FindIs(s[1..], c);
      if Find(s[1..], c).Some? {
        var at := Find(s[1..], c).value;
        assert s[..at + 1] == [s[0]] + s[1..][..at];
      } else {
        assert s == [s[0]] + s[1..];
      }
    }
  }

  lemma {:induction false} FindFirst(before: string, c: char, after: string)
    requires c !in before
    ensures Find(before + [c] + after, c) == Some(|before|)
    decreases |before|
  {
    var s := before + [c] + after;
    if before == "" {
    } else {
      assert s[1..] == before[1..] + [c] + after;
      FindFirst(before[1..], c, after);
    }
  }

  // --- Prefixes and quotes ---

  function Repeated(prefix: string, n: nat): string {
    if n == 0 then "" else prefix + Repeated(prefix, n - 1)
  }

  lemma TrimOnce(s: string, prefix: string)
    requires prefix != ""
    ensures prefix <= s ==>
              && s == prefix + s[|prefix|..]
              && TrimStartMatches(s, prefix) == TrimStartMatches(s[|prefix|..], prefix)
    ensures !(prefix <= s) ==> TrimStartMatches(s, prefix) == s
  {
  }

  lemma RepeatedOnce(prefix: string, n: nat, tail: string)
    ensures prefix + (Repeated(prefix, n) + tail) == Repeated(prefix, n + 1) + tail
  {
    assert Repeated(prefix, n + 1) == prefix + Repeated(prefix, n);
  }

  /** The prefix is taken off as often as it occurs. */
  lemma {:induction false} TrimStartMatchesIs(s: string, prefix: string) returns (n: nat)
    requires prefix != ""
    ensures s == Repeated(prefix, n) + TrimStartMatches(s, prefix) && !(prefix <= TrimStartMatches(s, prefix))
    ensures prefix <= s ==> n > 0
    decreases |s|
  {
    assert Repeated(prefix, 0) == "" && "" + s == s;
    hide TrimStartMatches, Repeated;
    TrimOnce(s, prefix);
    if !(prefix <= s) {
      n := 0;
    } else {
      var m := TrimStartMatchesIs(s[|prefix|..], prefix);
      n := m + 1;
      RepeatedOnce(prefix, m, TrimStartMatches(s, prefix));
    }
  }

  ghost predicate AllQuotes(s: string) {
    forall k :: 0 <= k < |s| ==> s[k] == '"'
  }

  /** All quotes at both ends go, and nothing else. */
  lemma {:induction false} TrimQuotesFinds(before: string, s: string, after: string)
    requires AllQuotes(before) && AllQuotes(after) && (s != "" ==> s[0] != '"' && s[|s| - 1] != '"')
    ensures TrimQuotes(before + s + after) == s
    decreases |before| + |after|
  {
    var t := before + s + after;
    if before != "" {
      assert t[1..] == before[1..] + s + after;
      TrimQuotesFinds(before[1..], s, after);
    } else if after == "" {
      assert t == s;
    } else if s == "" {
      assert t == after && t[1..] == after[1..] + s + "";
      TrimQuotesFinds(after[1..], s, "");
    } else {
      var n := |after| - 1;
      assert t[0] == s[0] && t[..|t| - 1] == before + s + after[..n];
      TrimQuotesFinds(before, s, after[..n]);
    }
  }

  // --- Labels ---

  /**
   * However a label line is laid out and quoted, its key and value are found: keyword, key
   * without '=', the sign, and a value with any quotes around it.
   */
  lemma {:induction false} LabelIsFound(
    gap: string, key: string, left: string, right: string, open: string, value: string, close: string)
    requires AllSpace(gap) && gap != "" && AllSpace(left) && AllSpace(right) && AllQuotes(open) && AllQuotes(close)
    requires IsTrimmed(key) && '=' !in key
    requires value != "" ==> value[0] != '"' && value[|value| - 1] != '"'
    requires open + value + close == "" || IsTrimmed(open + value + close)
    requires IsTrimmed(key + left + "=" + right + (open + value + close))
    ensures ParseLabel("LABEL" + gap + (key + left + "=" + right + (open + value + close))) == Some((key, value))
  {
    hide IsSpace, Trim, Find, TrimQuotes;
    var quoted := open + value + close;
    var body := key + left + "=" + right + quoted;
    KeywordGoes(gap, body);
    assert gap + body + "" == gap + body;
    TrimFinds(gap, body, "");
    NoSignInGap(left);
    assert body == (key + left) + ['='] + (right + quoted);
    FindFirst(key + left, '=', right + quoted);
    assert body[..|key + left|] == key + left && body[|key + left| + 1..] == right + quoted;
    assert "" + key + left == key + left && right + quoted + "" == right + quoted;
    TrimFinds("", key, left);
    TrimFinds(right, quoted, "");
    TrimQuotesFinds(open, value, close);
  }

  lemma NoSignInGap(gap: string)
    requires AllSpace(gap)
    ensures '=' !in gap
  {
  }

  lemma {:induction false} KeywordGoes(gap: string, body: string)
    requires AllSpace(gap) && gap != ""
    ensures TrimStartMatches("LABEL" + gap + body, "LABEL") == gap + body
  {
    var line := "LABEL" + gap + body;
    assert line[5..] == gap + body && line[..5] == "LABEL";
    assert (gap + body)[0] == gap[0] != 'L';
  }

  /** Without '=' there is no label. */
  lemma {:induction false} NoSignNoLabel(line: string)
    requires '=' !in line
    ensures ParseLabel(line).None?
  {
    hide Trim, Find;
    var n := TrimStartMatchesIs(line, "LABEL");
    var rest := TrimStartMatches(line, "LABEL");
    var a, b := TrimIs(rest);
    FindIs(Trim(rest), '=');
  }

  // --- Numbers ---

  predicate IsDigit(c: char) {
    '0' <= c <= '9'
  }

  function ValueOf(c: char): nat
    requires IsDigit(c)
  {
    (c - '0') as nat
  }

  lemma {:induction false} DigitsSnoc(s: string, c: char, acc: nat)
    ensures DigitsValue(s + [c], acc)
         == if DigitsValue(s, acc).Some? && IsDigit(c) then Some(10 * DigitsValue(s, acc).value + ValueOf(c)) else None
    decreases |s|
  {
    if s == "" {
      assert (s + [c])[1..] == "";
    } else {
      assert (s + [c])[1..] == s[1..] + [c];
      if IsDigit(s[0]) {
        DigitsSnoc(s[1..], c, 10 * acc + ValueOf(s[0]));
      }
    }
  }

  function Zeros(n: nat): string {
    if n == 0 then "" else Zeros(n - 1) + "0"
  }

  lemma {:induction false} ZerosRead(n: nat)
    ensures DigitsValue(Zeros(n), 0) == Some(0)
  {
    if n == 0 {
    } else {
      ZerosRead(n - 1);
      DigitsSnoc(Zeros(n - 1), '0', 0);
      assert "0" == ['0'];
    }
  }

  lemma {:induction false} DecimalReads(zeros: nat, n: nat)
    ensures DigitsValue(Zeros(zeros) + Decimal(n), 0) == Some(n)
    decreases n
  {
    var d := ('0' as int + n % 10) as char;
    ZerosRead(zeros);
    if n < 10 {
      assert Decimal(n) == [d];
      DigitsSnoc(Zeros(zeros), d, 0);
    } else {
      DecimalReads(zeros, n / 10);
      assert Zeros(zeros) + Decimal(n) == (Zeros(zeros) + Decimal(n / 10)) + [d];
      DigitsSnoc(Zeros(zeros) + Decimal(n / 10), d, 0);
    }
  }

  lemma {:induction false} DecimalStep(v: nat, c: char)
    requires IsDigit(c)
    ensures Decimal(10 * v + ValueOf(c)) == if v == 0 then [c] else Decimal(v) + [c]
  {
    var d := ValueOf(c);
    assert d < 10 && ('0' as int + d) as char == c;
    assert (10 * v + d) / 10 == v && (10 * v + d) % 10 == d;
  }

  lemma {:induction false} DigitAppended(zeros: nat, v: nat, c: char) returns (more: nat)
    requires IsDigit(c)
    ensures Zeros(zeros) + Decimal(v) + [c] == Zeros(more) + Decimal(10 * v + ValueOf(c))
  {
    assert Decimal(0) == "0";
    hide Decimal;
    DecimalStep(v, c);
    if v == 0 {
      more := zeros + 1;
      assert Zeros(more) == Zeros(zeros) + "0";
    } else {
      more := zeros;
      assert Zeros(zeros) + Decimal(v) + [c] == Zeros(zeros) + (Decimal(v) + [c]);
    }
  }

  lemma {:induction false} ReadIsDecimal(s: string) returns (zeros: nat)
    requires s != "" && DigitsValue(s, 0).Some?
    ensures s == Zeros(zeros) + Decimal(DigitsValue(s, 0).value)
    decreases |s|
  {
    assert DigitsValue("", 0) == Some(0);
    hide DigitsValue, Decimal, IsDigit, ValueOf;
    var k := |s| - 1;
    var rest, c := s[..k], s[k];
    assert s == rest + [c];
    DigitsSnoc(rest, c, 0);
    if rest == "" {
      zeros := 0;
      DecimalStep(0, c);
      assert Zeros(0) == "";
    } else {
      var before := ReadIsDecimal(rest);
      zeros := DigitAppended(before, DigitsValue(rest, 0).value, c);
    }
  }

  lemma {:induction false} DecimalStarts(n: nat)
    ensures Decimal(n) != "" && IsDigit(Decimal(n)[0])
  {
    if n < 10 {
    } else {
      DecimalStarts(n / 10);
    }
  }

  /** A number reads as v exactly when it is v in decimal, with an optional sign and leading zeros, in range. */
  lemma {:induction false} U32Exactly(s: string, v: nat)
    ensures ParseU32(s) == Some(v) <==>
              && v <= 0xFFFF_FFFF
              && exists zeros :: s == Zeros(zeros) + Decimal(v) || s == "+" + (Zeros(zeros) + Decimal(v))
  {
    hide DigitsValue, Decimal;
    var digits := if s != "" && s[0] == '+' then s[1..] else s;
    if ParseU32(s) == Some(v) {
      var zeros := ReadIsDecimal(digits);
      assert s == digits || s == "+" + digits;
    }
    if v <= 0xFFFF_FFFF {
      forall zeros | s == Zeros(zeros) + Decimal(v) || s == "+" + (Zeros(zeros) + Decimal(v))
        ensures ParseU32(s) == Some(v)
      {
        NumberStarts(zeros, v);
        DecimalReads(zeros, v);
        assert s == "+" + (Zeros(zeros) + Decimal(v)) ==> s[1..] == Zeros(zeros) + Decimal(v);
      }
    }
  }

  lemma {:induction false} NumberStarts(zeros: nat, v: nat)
    ensures Zeros(zeros) + Decimal(v) != "" && IsDigit((Zeros(zeros) + Decimal(v))[0])
  {
    DecimalStarts(v);
    ZerosStart(zeros);
  }

  lemma {:induction false} ZerosStart(n: nat)
    ensures Zeros(n) != "" ==> Zeros(n)[0] == '0'
  {
    if n == 0 {
    } else {
      ZerosStart(n - 1);
    }
  }

  // --- Keywords ---

  /**
   * Keywords are recognized in any mixture of cases, and nothing else is taken for one, but
   * for the two other letters whose upper case is S or I.
   */
  lemma {:induction false} UpperExactly(s: string, keyword: string)
    requires forall k :: 0 <= k < |keyword| ==> 'A' <= keyword[k] <= 'Z'
    ensures MatchesUpper(s, keyword) <==>
              && |s| == |keyword|
              && forall k :: 0 <= k < |s| ==>
                   || s[k] == keyword[k] || s[k] == keyword[k] - 'A' + 'a'
                   || (keyword[k] == 'S' && s[k] == '\U{17F}') || (keyword[k] == 'I' && s[k] == '\U{131}')
  {
  }

  /** The word for no parent is recognized in any mixture of cases. */
  lemma {:induction false} LowerExactly(s: string, keyword: string)
    requires forall k :: 0 <= k < |keyword| ==> 'a' <= keyword[k] <= 'z'
    ensures MatchesLower(s, keyword) <==>
              |s| == |keyword| && forall k :: 0 <= k < |s| ==> s[k] == keyword[k] || s[k] == keyword[k] - 'a' + 'A'
  {
  }

  /** A keyword starts a line whatever follows it. */
  lemma {:induction false} StartsExactly(s: string, keyword: string)
    ensures StartsWithUpper(s, keyword) <==> exists head, rest :: s == head + rest && MatchesUpper(head, keyword)
  {
    hide MatchesUpper;
    if StartsWithUpper(s, keyword) {
      assert s == s[..|keyword|] + s[|keyword|..];
    }
    forall head, rest | s == head + rest && MatchesUpper(head, keyword)
      ensures StartsWithUpper(s, keyword)
    {
      assert |head| == |keyword| by {
        SameLength(head, keyword);
      }
      assert s[..|keyword|] == head;
    }
  }

  lemma SameLength(s: string, keyword: string)
    requires MatchesUpper(s, keyword)
    ensures |s| == |keyword|
  {
  }
}

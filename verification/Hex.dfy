/** Hash values and their text form (fs-storage/src/types.rs:8-101). */
module Hex {
  import opened Basics

  /** A SHA-256 value. */
  type Hash = h: seq<byte> | |h| == 32 witness seq(32, _ => 0)

  const DIGITS: string := "0123456789abcdef"

  function Digit(n: nat): char
    requires n < 16
  {
    DIGITS[n]
  }

  /** Either case is accepted when reading. */
  function DigitValue(c: char): (v: Option<nat>)
    ensures v.Some? ==> v.value < 16
  {
    if '0' <= c <= '9' then Some((c - '0') as nat)
    else if 'a' <= c <= 'f' then Some((c - 'a') as nat + 10)
    else if 'A' <= c <= 'F' then Some((c - 'A') as nat + 10)
    else None
  }

  function Lower(c: char): char {
    if 'A' <= c <= 'F' then c - 'A' + 'a' else c
  }

  function Lowered(s: string): (r: string)
    ensures |r| == |s|
  {
    seq(|s|, i requires 0 <= i < |s| => Lower(s[i]))
  }

  function Encode(bytes: seq<byte>): (s: string)
    ensures |s| == 2 * |bytes|
  {
    if bytes == [] then "" else [Digit(bytes[0] / 16), Digit(bytes[0] % 16)] + Encode(bytes[1..])
  }

  function Decode(s: string): (r: Option<seq<byte>>)
    ensures r.Some? ==> |s| == 2 * |r.value|
  {
    if s == "" then Some([])
    else if |s| == 1 then None
    else
      var hi, lo, rest := DigitValue(s[0]), DigitValue(s[1]), Decode(s[2..]);
      if hi.None? || lo.None? || rest.None? then None
      else Some([16 * hi.value + lo.value] + rest.value)
  }

  lemma DigitRoundTrip(n: nat)
    requires n < 16
    ensures DigitValue(Digit(n)) == Some(n)
  {
    assert Digit(n) == if n < 10 then '0' + n as char else 'a' + (n - 10) as char;
  }

  lemma ValueRoundTrip(c: char)
    requires DigitValue(c).Some?
    ensures Digit(DigitValue(c).value) == Lower(c)
  {
    var v := DigitValue(c).value;
    assert Digit(v) == if v < 10 then '0' + v as char else 'a' + (v - 10) as char;
  }

  /** Text written from bytes reads back as those bytes. */
  lemma {:induction false} DecodeEncode(bytes: seq<byte>)
    ensures Decode(Encode(bytes)) == Some(bytes)
    decreases |bytes|
  {
    hide Digit, DigitValue;
    if bytes == [] {
    } else {
      var hi, lo := bytes[0] / 16, bytes[0] % 16;
      DigitRoundTrip(hi);
      DigitRoundTrip(lo);
      DecodeEncode(bytes[1..]);
      var s := Encode(bytes);
      assert s[0] == Digit(hi) && s[1] == Digit(lo) && s[2..] == Encode(bytes[1..]);
      assert 16 * hi + lo == bytes[0];
      assert Decode(s) == Some([bytes[0]] + bytes[1..]);
      assert [bytes[0]] + bytes[1..] == bytes;
    }
  }

  /** Text that reads at all is written back in lower case. */
  lemma {:induction false} EncodeDecode(s: string)
    requires Decode(s).Some?
    ensures Encode(Decode(s).value) == Lowered(s)
    decreases |s|
  {
    hide Digit, DigitValue, Lower;
    if s == "" {
    } else {
      ValueRoundTrip(s[0]);
      ValueRoundTrip(s[1]);
      EncodeDecode(s[2..]);
      var bytes := Decode(s).value;
      assert bytes[1..] == Decode(s[2..]).value;
      assert bytes[0] / 16 == DigitValue(s[0]).value && bytes[0] % 16 == DigitValue(s[1]).value;
      assert Lowered(s) == [Lower(s[0]), Lower(s[1])] + Lowered(s[2..]);
    }
  }

  ghost predicate AllDigits(s: string) {
    forall k :: 0 <= k < |s| ==> DigitValue(s[k]).Some?
  }

  /** Text reads exactly when it is an even number of hex digits. */
  lemma {:induction false} DecodesExactlyWhen(s: string)
    ensures Decode(s).Some? <==> |s| % 2 == 0 && AllDigits(s)
    decreases |s|
  {
    hide DigitValue;
    if |s| < 2 {
    } else {
      DecodesExactlyWhen(s[2..]);
      assert AllDigits(s[2..]) <==> forall k :: 2 <= k < |s| ==> DigitValue(s[k]).Some? by {
        assert forall k :: 2 <= k < |s| ==> s[k] == s[2..][k - 2];
      }
    }
  }

  function ToText(h: Hash): string {
    Encode(h)
  }

  function FromText(s: string): (r: Option<Hash>) {
    match Decode(s)
    case Some(bytes) => if |bytes| == 32 then Some(bytes) else None
    case None => None
  }

  /** Hashes survive a trip through text; 64 hex digits parse, and survive exactly when in lower case. */
  lemma {:induction false} HashText(h: Hash, s: string)
    ensures FromText(ToText(h)) == Some(h)
    ensures FromText(s).Some? <==> |s| == 64 && forall k :: 0 <= k < |s| ==> DigitValue(s[k]).Some?
    ensures FromText(s).Some? ==> (ToText(FromText(s).value) == s <==> s == Lowered(s))
  {
    DecodeEncode(h);
    DecodesExactlyWhen(s);
    if FromText(s).Some? {
      EncodeDecode(s);
    }
  }

  lemma {:induction false} TextInjective(g: Hash, h: Hash)
    requires ToText(g) == ToText(h)
    ensures g == h
  {
    DecodeEncode(g);
    DecodeEncode(h);
  }

  lemma {:induction false} EncodedDigits(bytes: seq<byte>)
    ensures forall k :: 0 <= k < |Encode(bytes)| ==> Encode(bytes)[k] in DIGITS
    decreases |bytes|
  {
    if bytes == [] {
    } else {
      EncodedDigits(bytes[1..]);
    }
  }
}

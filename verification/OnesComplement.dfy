/**
 * Internet checksum arithmetic: end-around-carry folding and 16-bit word sums
 * (section 2 of RFC 1071), words in network order.
 */
module OnesComplement {
  import opened Basics

  const MAX16: nat := 0xFFFF

  type word = x: int | 0 <= x <= 0xFFFF

  /** End-around-carry reduction of a sum to 16 bits. */
  function Fold(n: nat): (r: word)
    ensures (r - n) % 0xFFFF == 0
    ensures r == 0 <==> n == 0
  {
    if n <= MAX16 then n
    else
      var carried := n / 0x10000 + n % 0x10000;
      FoldStep(n);
      var r := Fold(carried);
      MultipleOfCarry(n, r);
      r
  }

  lemma FoldStep(n: nat)
    ensures n / 0x10000 + n % 0x10000 == n - 0xFFFF * (n / 0x10000)
    ensures n > MAX16 ==> 0 < n / 0x10000 + n % 0x10000 < n
  {
  }

  lemma MultipleOfCarry(n: nat, r: int)
    requires (r - (n / 0x10000 + n % 0x10000)) % 0xFFFF == 0
    ensures (r - n) % 0xFFFF == 0
  {
    FoldStep(n);
    var q := Quotient(r - (n / 0x10000 + n % 0x10000));
    MultipleResidue(r - n, q - n / 0x10000);
  }

  /** Two folded values of the same residue are equal unless exactly one is zero. */
  lemma SameResidue(a: word, b: word)
    requires (a - b) % 0xFFFF == 0
    ensures a == b || (a == 0 && b == MAX16) || (a == MAX16 && b == 0)
  {
    var _ := Quotient(a - b);
  }

  /** Sum of the big-endian 16-bit words of `s`; an odd last byte is padded with zero. */
  function Sum16(s: seq<byte>): nat {
    if |s| == 0 then 0
    else if |s| == 1 then 256 * s[0]
    else 256 * s[0] + s[1] + Sum16(s[2..])
  }

  function WordAt(s: seq<byte>, i: nat): word
    requires i + 2 <= |s|
  {
    var hi: int, lo: int := s[i], s[i + 1];
    256 * hi + lo
  }

  /** `s` with the word at `i` replaced. */
  function Patch(s: seq<byte>, i: nat, w: word): (r: seq<byte>)
    requires i + 2 <= |s|
    ensures |r| == |s| && WordAt(r, i) == w
    ensures forall k :: 0 <= k < |s| && k != i && k != i + 1 ==> r[k] == s[k]
  {
    s[i := w / 256][i + 1 := w % 256]
  }

  lemma {:induction false} Sum16Patch(s: seq<byte>, j: nat, w: word)
    requires 2 * j + 2 <= |s|
    ensures Sum16(Patch(s, 2 * j, w)) == Sum16(s) - WordAt(s, 2 * j) + w
    decreases |s|
  {
    var r := Patch(s, 2 * j, w);
    if j == 0 {
      assert r[2..] == s[2..];
    } else {
      assert r[2..] == Patch(s[2..], 2 * (j - 1), w);
      Sum16Patch(s[2..], j - 1, w);
    }
  }

  /** Patching the `j`-th word of a range moves the range's sum by the difference. */
  lemma {:induction false} PatchInside(s: seq<byte>, lo: nat, hi: nat, j: nat, w: word)
    requires lo + 2 * j + 2 <= hi <= |s|
    ensures Sum16(Patch(s, lo + 2 * j, w)[lo..hi]) == Sum16(s[lo..hi]) - WordAt(s, lo + 2 * j) + w
  {
    assert Patch(s, lo + 2 * j, w)[lo..hi] == Patch(s[lo..hi], 2 * j, w);
    Sum16Patch(s[lo..hi], j, w);
  }

  lemma {:induction false} PatchOutside(s: seq<byte>, lo: nat, hi: nat, i: nat, w: word)
    requires lo <= hi <= |s| && i + 2 <= |s| && (i + 2 <= lo || hi <= i)
    ensures Patch(s, i, w)[lo..hi] == s[lo..hi]
  {
  }

  lemma {:induction false} Sum16Positive(s: seq<byte>, i: nat)
    requires i < |s| && s[i] > 0
    ensures Sum16(s) > 0
    decreases |s|
  {
    if i < 2 {
    } else {
      assert s[2..][i - 2] == s[i];
      Sum16Positive(s[2..], i - 2);
    }
  }

  /** A received checksum verifies: the sum over the covered data is all ones. */
  predicate Verifies(sum: nat) {
    Fold(sum) == MAX16
  }

  // Residues modulo 0xFFFF, through explicit quotients.

  lemma Quotient(x: int) returns (q: int)
    requires x % 0xFFFF == 0
    ensures x == 0xFFFF * q
  {
    q := x / 0xFFFF;
  }

  lemma MultipleResidue(x: int, q: int)
    requires x == 0xFFFF * q
    ensures x % 0xFFFF == 0
  {
    assert x / 0xFFFF == q;
  }

  lemma AddResidues(a: int, b: int)
    requires a % 0xFFFF == 0 && b % 0xFFFF == 0
    ensures (a + b) % 0xFFFF == 0 && (a - b) % 0xFFFF == 0
  {
    var p := Quotient(a);
    var q := Quotient(b);
    MultipleResidue(a + b, p + q);
    MultipleResidue(a - b, p - q);
  }

  lemma OppositeResidues(a: int, b: int)
    requires (a + b) % 0xFFFF == 0
    ensures a % 0xFFFF == 0 <==> b % 0xFFFF == 0
  {
    if a % 0xFFFF == 0 {
      AddResidues(a + b, a);
    }
    if b % 0xFFFF == 0 {
      AddResidues(a + b, b);
    }
  }

  lemma VerifiesByResidue(sum: nat)
    requires sum > 0
    ensures Verifies(sum) <==> sum % 0xFFFF == 0
  {
    hide Fold;
    var f := Fold(sum);
    if sum % 0xFFFF == 0 {
      AddResidues(f - sum, sum);
      SameResidue(f, 0);
    }
    if f == MAX16 {
      AddResidues(f, f - sum);
    }
  }

  /** Verification depends on the sum only modulo 0xFFFF. */
  lemma VerifiesShift(before: nat, after: nat)
    requires before > 0 && after > 0
    ensures (after - before) % 0xFFFF == 0 ==> (Verifies(after) <==> Verifies(before))
    ensures Verifies(before) ==> (Verifies(after) <==> (after - before) % 0xFFFF == 0)
  {
    hide Verifies;
    VerifiesByResidue(before);
    VerifiesByResidue(after);
    if after % 0xFFFF == 0 {
      OppositeResidues(after - before, before);
    }
    if (after - before) % 0xFFFF == 0 && before % 0xFFFF == 0 {
      AddResidues(after - before, before);
    }
  }
}

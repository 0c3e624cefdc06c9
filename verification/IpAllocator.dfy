/**
 * The lock-free address allocator (control-plane/src/vmm/network.rs:38-76): one atomic
 * 64-bit word, claimed by a compare-and-swap retry loop, released by a fetch-and.
 */
module IpAllocator {
  import opened Basics

  /** Index of a bit of the word. */
  type Slot = bv6

  function Mask(i: Slot): bv64 {
    (1 as bv64) << i
  }

  predicate IsSet(w: bv64, i: Slot) {
    w & Mask(i) != 0
  }

  function WithBit(w: bv64, i: Slot): bv64 {
    w | Mask(i)
  }

  function WithoutBit(w: bv64, i: Slot): bv64 {
    w & !Mask(i)
  }

  lemma OtherBitsStay(w: bv64, i: Slot, j: Slot)
    requires i != j
    ensures WithBit(w, i) & Mask(j) == w & Mask(j)
  {
  }

  lemma WithBitSets(w: bv64, i: Slot, j: Slot)
    ensures IsSet(WithBit(w, i), j) <==> j == i || IsSet(w, j)
  {
    if i != j {
      OtherBitsStay(w, i, j);
    }
  }

  lemma RemainingBitsStay(w: bv64, i: Slot, j: Slot)
    requires i != j
    ensures WithoutBit(w, i) & Mask(j) == w & Mask(j)
  {
  }

  lemma ClearedBitIsZero(w: bv64, m: bv64)
    ensures (w & !m) & m == 0
  {
  }

  lemma WithoutBitClears(w: bv64, i: Slot, j: Slot)
    ensures IsSet(WithoutBit(w, i), j) <==> j != i && IsSet(w, j)
  {
    if i != j {
      RemainingBitsStay(w, i, j);
    } else {
      ClearedBitIsZero(w, Mask(i));
    }
  }

  /** `(!w).trailing_zeros()` from bit `i` upward; `None` stands for 64. */
  function LowestClear(w: bv64, i: Slot): (r: Option<Slot>)
    ensures r.Some? ==> i <= r.value && !IsSet(w, r.value) && forall j: Slot :: i <= j < r.value ==> IsSet(w, j)
    ensures r.None? ==> forall j: Slot :: i <= j ==> IsSet(w, j)
    decreases 63 - i
  {
    if !IsSet(w, i) then Some(i) else if i == 63 then None else LowestClear(w, i + 1)
  }

  /** The address handed out for a slot. */
  function Address(base: nat, i: Slot): nat {
    base + (i as nat)
  }

  lemma AddressInjective(base: nat, i: Slot, j: Slot)
    ensures Address(base, i) == Address(base, j) <==> i == j
    ensures base <= Address(base, i) < base + 64
    ensures i < j ==> Address(base, i) < Address(base, j)
  {
    assert (i as nat) as bv6 == i && (j as nat) as bv6 == j;
  }

  lemma SlotRoundTrip(n: nat)
    requires n < 64
    ensures (n as bv6) as nat == n
  {
  }

  function SlotOf(base: nat, ip: nat): (i: Slot)
    requires base <= ip < base + 64
    ensures Address(base, i) == ip
  {
    var n := ip - base;
    SlotRoundTrip(n);
    n as bv6
  }

  /** `release`: an address outside the pool is ignored. */
  function Released(w: bv64, base: nat, ip: nat): bv64 {
    if base <= ip < base + 64 then WithoutBit(w, SlotOf(base, ip)) else w
  }

  /** Releasing an address clears its own bit, if it has one, and no other. */
  lemma {:induction false} ReleasedExactly(w: bv64, base: nat, ip: nat, i: Slot)
    ensures IsSet(Released(w, base, ip), i) <==> IsSet(w, i) && Address(base, i) != ip
  {
    hide IsSet, WithoutBit;
    AddressInjective(base, i, i);
    if base <= ip < base + 64 {
      WithoutBitClears(w, SlotOf(base, ip), i);
      AddressInjective(base, i, SlotOf(base, ip));
    }
  }

  datatype Attempt = Exhausted | Won(slot: Slot) | Lost

  /** One turn of the loop after its load: `current` was loaded, `w` is there at the swap. */
  function TryClaim(w: bv64, current: bv64): Attempt {
    match LowestClear(current, 0)
    case None => Exhausted
    case Some(i) => if w == current then Won(i) else Lost
  }

  /** What other threads leave in the word during a turn: at its swap, and at the load after it. */
  datatype Turn = Turn(atSwap: bv64, atNextLoad: bv64)

  /** The word the `k`-th turn of a retry loop loads. */
  function LoadedAt(initial: bv64, others: seq<Turn>, k: nat): bv64
    requires k <= |others|
  {
    if k == 0 then initial else others[k - 1].atNextLoad
  }

  /** The swap of turn `k` finds another word than the one loaded. */
  predicate LosesTurn(initial: bv64, others: seq<Turn>, k: nat)
    requires k < |others|
  {
    TryClaim(others[k].atSwap, LoadedAt(initial, others, k)) == Lost
  }

  lemma {:induction false} DecideTurn(seen: bv64)
    ensures match LowestClear(seen, 0)
            case None => forall i: Slot :: IsSet(seen, i)
            case Some(i) => IsLowestFree(seen, i)
  {
    hide IsSet;
  }

  ghost predicate IsLowestFree(w: bv64, i: Slot) {
    !IsSet(w, i) && forall j: Slot :: j < i ==> IsSet(w, j)
  }

  // --- The allocator object ---

  class IpAm {
    var bits: bv64
    const baseIp: nat

    constructor (base: nat)
      ensures bits == 0 && baseIp == base
    {
      bits, baseIp := 0, base;
    }

    /**
     * The retry loop. `others[k]` is what other threads leave in the word between the k-th
     * load and its swap, and between a lost swap and the next load; later turns are left
     * alone. The loop is decided in turn `turn`: all earlier swaps were lost; either that turn
     * saw no free slot, or its swap found the word as loaded and claimed the lowest free slot
     * of it.
     */
    method Allocate(others: seq<Turn>) returns (ip: Option<nat>, ghost turn: nat)
      modifies this
      ensures turn <= |others|
      ensures forall k :: 0 <= k < turn ==> LosesTurn(old(bits), others, k)
      ensures var seen := LoadedAt(old(bits), others, turn);
              match ip
              case None => (forall i: Slot :: IsSet(seen, i)) && bits == seen
              case Some(address) =>
                && (turn < |others| ==> others[turn].atSwap == seen)
                && exists i: Slot ::
                     IsLowestFree(seen, i) && address == Address(baseIp, i) && bits == WithBit(seen, i)
    {
      hide IsSet, WithBit, LowestClear, IsLowestFree, Address;
      turn := 0;
      var k := 0;
      while true
        invariant 0 <= k == turn <= |others|
        invariant bits == LoadedAt(old(bits), others, k)
        invariant forall j :: 0 <= j < k ==> LosesTurn(old(bits), others, j)
        decreases |others| - k
      {
        var current := bits;
        var firstFree := LowestClear(current, 0);
        DecideTurn(current);
        if firstFree.None? {
          return None, turn;
        }
        if k < |others| {
          bits := others[k].atSwap;
        }
        if bits == current {
          bits := WithBit(current, firstFree.value);
          return Some(Address(baseIp, firstFree.value)), turn;
        }
        bits := others[k].atNextLoad;
        k, turn := k + 1, turn + 1;
      }
    }

    method Release(ip: nat)
      modifies this
      ensures bits == Released(old(bits), baseIp, ip)
      ensures forall i: Slot :: IsSet(bits, i) <==> IsSet(old(bits), i) && Address(baseIp, i) != ip
    {
      hide IsSet, WithoutBit;
      forall i: Slot
        ensures IsSet(Released(bits, baseIp, ip), i) <==> IsSet(bits, i) && Address(baseIp, i) != ip
      {
        ReleasedExactly(bits, baseIp, ip, i);
      }
      if ip < baseIp {
        return;
      }
      var index := ip - baseIp;
      if index < 64 {
        bits := WithoutBit(bits, index as bv6);
      }
    }
  }

  // --- Any number of threads, interleaved at every load, swap and release ---

  /** Threads are numbered; `loaded` holds the word of a thread inside its loop. */
  datatype State = State(word: bv64, loaded: map<nat, bv64>, held: map<nat, set<nat>>) {
    function Held(t: nat): set<nat> {
      if t in held then held[t] else {}
    }

    ghost predicate Taken(ip: nat) {
      exists t :: ip in Held(t)
    }
  }

  datatype Step = Load(t: nat) | Swap(t: nat) | Release(t: nat, ip: nat)

  predicate Enabled(s: State, step: Step) {
    match step
    case Load(t) => t !in s.loaded
    case Swap(t) => t in s.loaded
    case Release(t, ip) => t !in s.loaded && ip in s.Held(t)
  }

  function Apply(base: nat, s: State, step: Step): State
    requires Enabled(s, step)
  {
    match step
    case Load(t) => s.(loaded := s.loaded[t := s.word])
    case Swap(t) => (
      match TryClaim(s.word, s.loaded[t])
      case Won(i) =>
        State(WithBit(s.word, i), s.loaded - {t}, s.held[t := s.Held(t) + {Address(base, i)}])
      case _ => s.(loaded := s.loaded - {t}))
    case Release(t, ip) =>
      s.(word := Released(s.word, base, ip), held := s.held[t := s.Held(t) - {ip}])
  }

  const INITIAL := State(0, map[], map[])

  predicate Leads(base: nat, s: State, steps: seq<Step>, s': State)
    decreases |steps|
  {
    if steps == [] then s == s'
    else Enabled(s, steps[0]) && Leads(base, Apply(base, s, steps[0]), steps[1..], s')
  }

  /** The set bits are exactly the held addresses, and no address has two owners. */
  ghost predicate Inv(base: nat, s: State) {
    && (forall i: Slot :: IsSet(s.word, i) <==> s.Taken(Address(base, i)))
    && (forall t, u, ip :: ip in s.Held(t) && ip in s.Held(u) ==> t == u)
    && (forall t, ip :: ip in s.Held(t) ==> base <= ip < base + 64)
  }

  lemma ClaimKeepsInv(base: nat, s: State, t: nat, i: Slot)
    requires Inv(base, s) && !IsSet(s.word, i)
    ensures Inv(base, State(WithBit(s.word, i), s.loaded - {t}, s.held[t := s.Held(t) + {Address(base, i)}]))
  {
    hide IsSet, WithBit;
    var s' := State(WithBit(s.word, i), s.loaded - {t}, s.held[t := s.Held(t) + {Address(base, i)}]);
    assert forall u :: s'.Held(u) == if u == t then s.Held(t) + {Address(base, i)} else s.Held(u);
    AddressInjective(base, i, i);
    assert Address(base, i) in s'.Held(t);
    forall j: Slot
      ensures IsSet(s'.word, j) <==> s'.Taken(Address(base, j))
    {
      WithBitSets(s.word, i, j);
      AddressInjective(base, i, j);
      if u :| Address(base, j) in s.Held(u) {
        assert Address(base, j) in s'.Held(u);
      }
    }
  }

  lemma ReleaseKeepsInv(base: nat, s: State, t: nat, ip: nat)
    requires Inv(base, s) && ip in s.Held(t)
    ensures Inv(base, s.(word := Released(s.word, base, ip), held := s.held[t := s.Held(t) - {ip}]))
  {
    hide IsSet, WithoutBit;
    var s' := s.(word := Released(s.word, base, ip), held := s.held[t := s.Held(t) - {ip}]);
    assert forall u :: s'.Held(u) == if u == t then s.Held(t) - {ip} else s.Held(u);
    var i := SlotOf(base, ip);
    forall j: Slot
      ensures IsSet(s'.word, j) <==> s'.Taken(Address(base, j))
    {
      WithoutBitClears(s.word, i, j);
      AddressInjective(base, i, j);
      if j != i && IsSet(s.word, j) {
        var u :| Address(base, j) in s.Held(u);
        assert Address(base, j) in s'.Held(u);
      }
    }
  }

  lemma StepKeepsInv(base: nat, s: State, step: Step)
    requires Inv(base, s) && Enabled(s, step)
    ensures Inv(base, Apply(base, s, step))
  {
    hide IsSet, WithBit, WithoutBit, LowestClear;
    match step
    case Load(t) =>
      assert forall u :: Apply(base, s, step).Held(u) == s.Held(u);
    case Swap(t) =>
      var a := TryClaim(s.word, s.loaded[t]);
      if a.Won? {
        ClaimKeepsInv(base, s, t, a.slot);
      } else {
        assert forall u :: Apply(base, s, step).Held(u) == s.Held(u);
      }
    case Release(t, ip) =>
      ReleaseKeepsInv(base, s, t, ip);
  }

  lemma {:induction false} RunKeepsInv(base: nat, s: State, steps: seq<Step>, s': State)
    requires Inv(base, s) && Leads(base, s, steps, s')
    ensures Inv(base, s')
    decreases |steps|
  {
    if steps == [] {
    } else {
      StepKeepsInv(base, s, steps[0]);
      RunKeepsInv(base, Apply(base, s, steps[0]), steps[1..], s');
    }
  }

  /** In every reachable state no address belongs to two threads, and the word says which are taken. */
  lemma {:induction false} NoAddressHeldTwice(base: nat, steps: seq<Step>, s: State)
    requires Leads(base, INITIAL, steps, s)
    ensures Inv(base, s)
  {
    assert forall i: Slot :: !IsSet(INITIAL.word, i);
    RunKeepsInv(base, INITIAL, steps, s);
  }

  /** A winning swap returns the lowest address nobody holds at that moment. */
  lemma WinnerTakesLowestFree(base: nat, s: State, t: nat)
    requires Inv(base, s) && t in s.loaded && TryClaim(s.word, s.loaded[t]).Won?
    ensures var ip := Address(base, TryClaim(s.word, s.loaded[t]).slot);
            && !s.Taken(ip)
            && (forall lower :: base <= lower < ip ==> s.Taken(lower))
            && Apply(base, s, Swap(t)).Held(t) == s.Held(t) + {ip}
            && base <= ip < base + 64
  {
    hide IsSet, WithBit, LowestClear;
    var i := TryClaim(s.word, s.loaded[t]).slot;
    var ip := Address(base, i);
    AddressInjective(base, i, i);
    assert !IsSet(s.word, i);
    forall lower | base <= lower < ip
      ensures s.Taken(lower)
    {
      var j := SlotOf(base, lower);
      if i <= j {
        AddressInjective(base, i, j);
      }
      assert IsSet(s.word, j);
    }
  }

  /**
   * Between a load and the matching swap no step is the thread's own. So giving up means
   * all 64 addresses were held when the word was loaded, and losing the swap means some
   * other thread's step changed the word meanwhile.
   */
  lemma {:induction false} OutcomeExplained(base: nat, s: State, t: nat, others: seq<Step>, s': State)
    requires Inv(base, s) && t !in s.loaded
    requires Leads(base, Apply(base, s, Load(t)), others, s')
    requires forall k :: 0 <= k < |others| ==> others[k].t != t
    ensures t in s'.loaded && s'.loaded[t] == s.word
    ensures TryClaim(s'.word, s.word) == Exhausted ==> forall ip :: base <= ip < base + 64 ==> s.Taken(ip)
    ensures TryClaim(s'.word, s.word) == Lost ==>
              exists k, before :: 0 <= k < |others| && ChangesWord(base, Apply(base, s, Load(t)), others, k, before)
  {
    hide IsSet, LowestClear;
    LoadedStays(base, Apply(base, s, Load(t)), t, others, s');
    if TryClaim(s'.word, s.word) == Exhausted {
      forall ip | base <= ip < base + 64
        ensures s.Taken(ip)
      {
        assert IsSet(s.word, SlotOf(base, ip));
      }
    }
    if TryClaim(s'.word, s.word) == Lost {
      var k, before := SomeStepChangesWord(base, Apply(base, s, Load(t)), others, s');
    }
  }

  /** Step `k` of the run, taken from `before`, changes the word. */
  ghost predicate ChangesWord(base: nat, s: State, steps: seq<Step>, k: nat, before: State) {
    && k < |steps| && Leads(base, s, steps[..k], before)
    && Enabled(before, steps[k]) && Apply(base, before, steps[k]).word != before.word
  }

  lemma {:induction false} LoadedStays(base: nat, s: State, t: nat, others: seq<Step>, s': State)
    requires t in s.loaded && Leads(base, s, others, s')
    requires forall k :: 0 <= k < |others| ==> others[k].t != t
    ensures t in s'.loaded && s'.loaded[t] == s.loaded[t]
    decreases |others|
  {
    if others == [] {
    } else {
      assert others[0].t != t;
      LoadedStays(base, Apply(base, s, others[0]), t, others[1..], s');
    }
  }

  lemma {:induction false} SomeStepChangesWord(base: nat, s: State, steps: seq<Step>, s': State)
    returns (k: nat, before: State)
    requires Leads(base, s, steps, s') && s'.word != s.word
    ensures ChangesWord(base, s, steps, k, before)
    decreases |steps|
  {
    var next := Apply(base, s, steps[0]);
    if next.word != s.word {
      k, before := 0, s;
      assert steps[..0] == [];
    } else {
      k, before := SomeStepChangesWord(base, next, steps[1..], s');
      k := k + 1;
      assert steps[..k][1..] == steps[1..][..k - 1];
    }
  }
}

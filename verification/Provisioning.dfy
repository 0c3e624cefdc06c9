/**
 * VM provisioning with rollback (control-plane/src/vmm/mod.rs:100-314 and 375-466) under
 * the lifecycle state machine (control-plane/src/vmm/state.rs). Any number of launches
 * interleave, each may fail at any step, and all draw addresses from one allocator word.
 */
module Provisioning {
  import opened Basics
  import opened IpAllocator

  // --- Lifecycle states ---

  datatype VmState =
    | Pending | ProvisioningStorage | ConfiguringNetwork | InitializingCgroup
    | LaunchingVMM | ConfiguringVMM | Running | Terminating | Destroyed

  predicate IsValidTransition(from: VmState, to: VmState) {
    match (from, to)
    case (Pending, ProvisioningStorage) => true
    case (ProvisioningStorage, ConfiguringNetwork) => true
    case (ConfiguringNetwork, InitializingCgroup) => true
    case (InitializingCgroup, LaunchingVMM) => true
    case (LaunchingVMM, ConfiguringVMM) => true
    case (ConfiguringVMM, Running) => true
    case (LaunchingVMM, Running) => true
    case (Running, Terminating) => true
    case (Terminating, Destroyed) => true
    case (ProvisioningStorage, Terminating) => true
    case (ConfiguringNetwork, Terminating) => true
    case (InitializingCgroup, Terminating) => true
    case (LaunchingVMM, Terminating) => true
    case (ConfiguringVMM, Terminating) => true
    case _ => false
  }

  function Rank(s: VmState): nat {
    match s
    case Pending => 8
    case ProvisioningStorage => 7
    case ConfiguringNetwork => 6
    case InitializingCgroup => 5
    case LaunchingVMM => 4
    case ConfiguringVMM => 3
    case Running => 2
    case Terminating => 1
    case Destroyed => 0
  }

  class VmStateMachine {
    var state: VmState

    constructor ()
      ensures state == Pending
    {
      state := Pending;
    }

    method TransitionTo(next: VmState) returns (ok: bool)
      modifies this
      ensures ok == IsValidTransition(old(state), next)
      ensures ok <==>
                || Rank(next) == Rank(old(state)) - 1
                || (old(state) == LaunchingVMM && next == Running)
                || (next == Terminating && old(state) !in {Pending, Terminating, Destroyed})
      ensures state == if ok then next else old(state)
      ensures ok ==> Rank(state) < Rank(old(state))
    {
      ok := IsValidTransition(state, next);
      if ok {
        state := next;
      }
    }
  }

  /** The states in order of their rank. */
  const LIFECYCLE: seq<VmState> := [
    Pending, ProvisioningStorage, ConfiguringNetwork, InitializingCgroup,
    LaunchingVMM, ConfiguringVMM, Running, Terminating, Destroyed]

  lemma RankIsPosition(s: VmState)
    ensures LIFECYCLE[8 - Rank(s)] == s
  {
  }

  /**
   * A transition is accepted exactly when it goes to the next state in order, from launching
   * straight to running, or to termination from any state that holds something.
   */
  lemma {:induction false} TransitionExactly(from: VmState, to: VmState)
    ensures IsValidTransition(from, to) <==>
              || Rank(to) == Rank(from) - 1
              || (from == LaunchingVMM && to == Running)
              || (to == Terminating && from != Pending && from != Terminating && from != Destroyed)
  {
  }

  predicate AcceptedRun(states: seq<VmState>) {
    forall k :: 0 < k < |states| ==> IsValidTransition(states[k - 1], states[k])
  }

  /** A lifecycle never loops: at most eight transitions, and the machine ends in `Destroyed`. */
  lemma {:induction false} LifecycleIsFinite(states: seq<VmState>)
    requires |states| > 0 && AcceptedRun(states)
    ensures |states| - 1 + Rank(states[|states| - 1]) <= Rank(states[0])
    ensures var last := states[|states| - 1]; (forall next :: !IsValidTransition(last, next)) <==> last == Destroyed
  {
    var n := |states|;
    if n == 1 {
    } else {
      LifecycleIsFinite(states[..n - 1]);
    }
    var last := states[n - 1];
    assert last == Pending ==> IsValidTransition(last, ProvisioningStorage);
    assert last != Pending && last != Terminating && last != Destroyed ==> IsValidTransition(last, Terminating);
    assert last == Terminating ==> IsValidTransition(last, Destroyed);
  }

  // --- The provisioning program ---

  datatype Resource = Snapshot | Tap | Ebpf | Cgroup | Jail | Process

  /** `SetupJail` may leave a partial jail behind when it fails; `Check` acquires nothing. */
  datatype Op = Transition(to: VmState) | Acquire(r: Resource) | AllocateIp | NoteJailDir | SetupJail | Check

  /** The fallible operations of `provision_vm` in order. */
  const PROGRAM: seq<Op> := [
    Transition(ProvisioningStorage), Acquire(Snapshot),
    Transition(ConfiguringNetwork), Acquire(Tap), AllocateIp, Acquire(Ebpf),
    Transition(InitializingCgroup), Acquire(Cgroup), Check, Check, Check, Check,
    Transition(LaunchingVMM), NoteJailDir, SetupJail, Acquire(Process),
    Transition(ConfiguringVMM), Check, Check, Check, Check, Check, Check, Check, Check, Check, Check, Check, Check,
    Transition(Running)
  ]

  /** Operations that call out, and may come back with an error. */
  predicate CanFail(pc: nat) {
    pc < |PROGRAM| && (PROGRAM[pc].Acquire? || PROGRAM[pc].SetupJail? || PROGRAM[pc].Check?)
  }

  /** What rollback knows about; presence stands for the recorded identifier. */
  datatype Context = Context(
    snapshotName: bool, snapshotId: bool, hostIp: Option<nat>, cgroup: bool, jailDir: bool, process: bool)

  const EMPTY_CONTEXT := Context(false, false, None, false, false, false)

  datatype Phase = Provisioning | CleaningUp(stage: nat) | Failed | Returned

  /** `guards` are the values whose drop tears them down: the TAP device and the eBPF program. */
  datatype Launch = Launch(
    pc: nat, vmState: VmState, ctx: Context, guards: set<Resource>,
    loaded: Option<bv64>, phase: Phase, vmIp: Option<nat>)

  const NEW_LAUNCH := Launch(0, Pending, EMPTY_CONTEXT, {}, None, Provisioning, None)

  /** The host: which resources exist, and the allocator word. */
  datatype Host = Host(owned: set<(string, Resource)>, word: bv64)

  datatype Pair = Pair(launch: Launch, host: Host)

  function Recorded(ctx: Context, r: Resource): Context {
    match r
    case Snapshot => ctx.(snapshotName := true, snapshotId := true)
    case Cgroup => ctx.(cgroup := true)
    case Process => ctx.(process := true)
    case _ => ctx
  }

  /** The operation at `pc` succeeds (for the allocator: its load or its swap happens). */
  function Succeed(vm: string, base: nat, l: Launch, h: Host): Pair
    requires l.phase.Provisioning? && l.pc < |PROGRAM|
  {
    Perform(vm, base, PROGRAM[l.pc], l, h)
  }

  function Perform(vm: string, base: nat, op: Op, l: Launch, h: Host): Pair {
    var next := l.(pc := l.pc + 1);
    match op
    case Transition(to) =>
      if IsValidTransition(l.vmState, to) then Pair(next.(vmState := to), h) else Fail(vm, l, h, false)
    case Acquire(r) =>
      Pair(next.(ctx := Recorded(l.ctx, r), guards := if r == Tap || r == Ebpf then l.guards + {r} else l.guards),
           h.(owned := h.owned + {(vm, r)}))
    case AllocateIp =>
      if l.loaded.None? then Pair(l.(loaded := Some(h.word)), h)
      else (
        match TryClaim(h.word, l.loaded.value)
        case Won(i) =>
          Pair(next.(ctx := l.ctx.(hostIp := Some(Address(base, i))), loaded := None), h.(word := WithBit(h.word, i)))
        case Lost => Pair(l.(loaded := None), h)
        case Exhausted => Fail(vm, l, h, false))
    case NoteJailDir => Pair(next.(ctx := l.ctx.(jailDir := true)), h)
    case SetupJail => Pair(next, h.(owned := h.owned + {(vm, Jail)}))
    case Check => Pair(next, h)
  }

  /** The operation fails: guards drop on the way out of `provision_vm`, then cleanup starts. */
  function Fail(vm: string, l: Launch, h: Host, partialJail: bool): Pair {
    var owned := (h.owned - (set r | r in l.guards :: (vm, r))) + (if partialJail then {(vm, Jail)} else {});
    Pair(l.(guards := {}, loaded := None, phase := CleaningUp(0)), h.(owned := owned))
  }

  /** `cleanup`, one resource per stage: process, cgroup, address, snapshot, jail. */
  function CleanStep(vm: string, base: nat, l: Launch, h: Host): Pair
    requires l.phase.CleaningUp?
  {
    var ctx, next := l.ctx, l.(phase := if l.phase.stage < 4 then CleaningUp(l.phase.stage + 1) else Failed);
    match l.phase.stage
    case 0 => Pair(next.(ctx := ctx.(process := false)),
                   if ctx.process then h.(owned := h.owned - {(vm, Process)}) else h)
    case 1 => Pair(next.(ctx := ctx.(cgroup := false)),
                   if ctx.cgroup then h.(owned := h.owned - {(vm, Cgroup)}) else h)
    case 2 => Pair(next.(ctx := ctx.(hostIp := None)),
                   if ctx.hostIp.Some? then h.(word := Released(h.word, base, ctx.hostIp.value)) else h)
    case 3 => Pair(next.(ctx := ctx.(snapshotName := false, snapshotId := false)),
                   if ctx.snapshotName && ctx.snapshotId then h.(owned := h.owned - {(vm, Snapshot)}) else h)
    case _ => Pair(next.(ctx := ctx.(jailDir := false)),
                   if ctx.jailDir then h.(owned := h.owned - {(vm, Jail)}) else h)
  }

  /**
   * The VM is handed out, with everything taken for it. Only cgroup and process leave the
   * context; `launch_vm` drops it without a cleanup.
   */
  function Return(l: Launch): Launch
    requires l.phase.Provisioning? && l.pc == |PROGRAM|
  {
    l.(ctx := l.ctx.(cgroup := false, process := false), guards := {}, phase := Returned, vmIp := l.ctx.hostIp)
  }

  // --- What a launch holds ---

  /** The context at each point of the program. */
  function ContextAt(pc: nat, ip: Option<nat>): Context {
    Context(pc > 1, pc > 1, if pc > 4 then ip else None, pc > 7, pc > 13, pc > 15)
  }

  function GuardsAt(pc: nat): set<Resource> {
    (if pc > 3 then {Tap} else {}) + (if pc > 5 then {Ebpf} else {})
  }

  function StateAt(pc: nat): VmState {
    if pc == 0 then Pending else if pc <= 2 then ProvisioningStorage else if pc <= 6 then ConfiguringNetwork
    else if pc <= 12 then InitializingCgroup else if pc <= 16 then LaunchingVMM
    else if pc < |PROGRAM| then ConfiguringVMM else Running
  }

  predicate Holds(l: Launch, r: Resource) {
    match r
    case Snapshot => l.phase.Returned? || (l.ctx.snapshotName && l.ctx.snapshotId)
    case Cgroup => l.phase.Returned? || l.ctx.cgroup
    case Process => l.phase.Returned? || l.ctx.process
    case Jail => l.phase.Returned? || l.ctx.jailDir
    case _ => l.phase.Returned? || r in l.guards
  }

  /** The address a launch accounts for: its live context's, or its returned VM's. */
  function AddressOf(l: Launch): Option<nat> {
    if l.phase.Returned? then l.vmIp else l.ctx.hostIp
  }

  /** Where a launch can be. The context is a function of the program counter. */
  ghost predicate LaunchInv(l: Launch) {
    && l.pc <= |PROGRAM|
    && (l.phase.Provisioning? ==>
          && l.ctx == ContextAt(l.pc, l.ctx.hostIp) && (l.pc > 4 <==> l.ctx.hostIp.Some?)
          && l.guards == GuardsAt(l.pc) && l.vmState == StateAt(l.pc))
    && (!l.phase.Provisioning? ==> l.guards == {})
    && (l.ctx.snapshotName == l.ctx.snapshotId) && Nested(l.ctx)
    && (l.phase.CleaningUp? ==> l.phase.stage <= 4 && CleanedTo(l.ctx, l.phase.stage))
    && (l.phase.Failed? ==> l.ctx == EMPTY_CONTEXT)
    && (l.phase.Returned? ==> l.vmIp.Some?)
  }

  /** What was taken later goes earlier: process, cgroup, address, snapshot; the jail outlasts the process. */
  predicate Nested(ctx: Context) {
    && (ctx.process ==> ctx.cgroup && ctx.jailDir)
    && (ctx.cgroup ==> ctx.hostIp.Some?)
    && (ctx.hostIp.Some? ==> ctx.snapshotName)
  }

  predicate CleanedTo(ctx: Context, stage: nat) {
    && (stage > 0 ==> !ctx.process) && (stage > 1 ==> !ctx.cgroup)
    && (stage > 2 ==> ctx.hostIp.None?) && (stage > 3 ==> !ctx.snapshotName)
  }

  /**
   * One launch's account: what exists for it is what it holds. Only the jail directory may
   * be recorded before it exists.
   */
  ghost predicate Balanced(vm: string, l: Launch, h: Host) {
    && (forall r :: (vm, r) in h.owned ==> Holds(l, r))
    && (forall r :: r != Jail && Holds(l, r) ==> (vm, r) in h.owned)
    && (l.phase.Returned? || (l.phase.Provisioning? && l.pc > 14) ==> (vm, Jail) in h.owned)
  }

  // --- Local effect of each step on its own launch ---

  /** How each operation moves the context, the guards and the state along the program. */
  lemma NextPoint(pc: nat, ip: Option<nat>)
    requires pc < |PROGRAM|
    ensures var ctx, next := ContextAt(pc, ip), ContextAt(pc + 1, ip);
            match PROGRAM[pc]
            case Transition(to) =>
              && IsValidTransition(StateAt(pc), to) && StateAt(pc + 1) == to
              && next == ctx && GuardsAt(pc + 1) == GuardsAt(pc) && !(pc in {4, 14})
            case Acquire(r) =>
              && r != Jail && StateAt(pc + 1) == StateAt(pc) && next == Recorded(ctx, r)
              && GuardsAt(pc + 1) == (if r == Tap || r == Ebpf then GuardsAt(pc) + {r} else GuardsAt(pc))
              && !(pc in {4, 14})
            case AllocateIp =>
              && pc == 4 && StateAt(pc + 1) == StateAt(pc) && GuardsAt(pc + 1) == GuardsAt(pc)
              && next == ctx.(hostIp := ip)
            case NoteJailDir =>
              && StateAt(pc + 1) == StateAt(pc) && GuardsAt(pc + 1) == GuardsAt(pc)
              && next == ctx.(jailDir := true) && !(pc in {4, 14})
            case SetupJail =>
              && pc == 14 && StateAt(pc + 1) == StateAt(pc) && GuardsAt(pc + 1) == GuardsAt(pc)
              && next == ctx && ctx.jailDir
            case Check =>
              && StateAt(pc + 1) == StateAt(pc) && GuardsAt(pc + 1) == GuardsAt(pc)
              && next == ctx && !(pc in {4, 14})
  {
  }

  lemma ContextIsNested(pc: nat, ip: Option<nat>)
    requires pc > 4 <==> ip.Some?
    ensures Nested(ContextAt(pc, ip))
  {
  }

  /** Every `transition_to` of the program is accepted. */
  lemma TransitionsAccepted(l: Launch)
    requires LaunchInv(l) && l.phase.Provisioning? && l.pc < |PROGRAM| && PROGRAM[l.pc].Transition?
    ensures IsValidTransition(l.vmState, PROGRAM[l.pc].to)
  {
    NextPoint(l.pc, l.ctx.hostIp);
  }

  /** The lifecycle state bounds what the context can contain. */
  lemma ContextBoundedByState(l: Launch)
    requires LaunchInv(l) && l.phase.Provisioning?
    ensures l.vmState == Pending ==> l.ctx == EMPTY_CONTEXT
    ensures l.vmState == ProvisioningStorage ==>
              l.ctx.hostIp.None? && !l.ctx.cgroup && !l.ctx.jailDir && !l.ctx.process
    ensures l.vmState == ConfiguringNetwork ==>
              l.ctx.snapshotId && !l.ctx.cgroup && !l.ctx.jailDir && !l.ctx.process
    ensures l.vmState == InitializingCgroup ==>
              l.ctx.snapshotId && l.ctx.hostIp.Some? && !l.ctx.jailDir && !l.ctx.process
    ensures l.vmState == LaunchingVMM ==> l.ctx.snapshotId && l.ctx.hostIp.Some? && l.ctx.cgroup
    ensures l.vmState in {ConfiguringVMM, Running} ==>
              l.ctx.snapshotId && l.ctx.hostIp.Some? && l.ctx.cgroup && l.ctx.jailDir && l.ctx.process
  {
  }

  ghost predicate OthersUntouched(vm: string, h: Host, h': Host) {
    forall u, r :: u != vm ==> ((u, r) in h'.owned <==> (u, r) in h.owned)
  }

  lemma {:induction false} SucceedIsLocal(vm: string, base: nat, l: Launch, h: Host)
    requires LaunchInv(l) && l.phase.Provisioning? && l.pc < |PROGRAM| && Balanced(vm, l, h)
    ensures var n := Succeed(vm, base, l, h);
            LaunchInv(n.launch) && Balanced(vm, n.launch, n.host) && OthersUntouched(vm, h, n.host)
  {
    hide PROGRAM, ContextAt, GuardsAt, StateAt, Balanced, LaunchInv, OthersUntouched, Perform;
    match PROGRAM[l.pc]
    case Acquire(_) => AcquireIsLocal(vm, base, l, h);
    case AllocateIp => AllocateIsLocal(vm, base, l, h);
    case _ => AdvanceIsLocal(vm, base, l, h);
  }

  lemma {:induction false} AcquireIsLocal(vm: string, base: nat, l: Launch, h: Host)
    requires LaunchInv(l) && l.phase.Provisioning? && l.pc < |PROGRAM| && PROGRAM[l.pc].Acquire? && Balanced(vm, l, h)
    ensures var n := Succeed(vm, base, l, h);
            LaunchInv(n.launch) && Balanced(vm, n.launch, n.host) && OthersUntouched(vm, h, n.host)
  {
    hide PROGRAM, ContextAt, GuardsAt, StateAt, Balanced, Holds;
    NextPoint(l.pc, l.ctx.hostIp);
    ContextIsNested(l.pc + 1, l.ctx.hostIp);
    AcquiredIsHeld(vm, base, PROGRAM[l.pc].r, l, h);
  }

  /** Acquiring adds one resource to what exists and to what is held. */
  lemma {:induction false} AcquiredIsHeld(vm: string, base: nat, r: Resource, l: Launch, h: Host)
    requires l.phase.Provisioning? && r != Jail && l.pc != 14 && Balanced(vm, l, h)
    ensures var n := Perform(vm, base, Acquire(r), l, h); Balanced(vm, n.launch, n.host)
  {
    hide PROGRAM;
    var n := Perform(vm, base, Acquire(r), l, h);
    forall q
      ensures Holds(n.launch, q) <==> q == r || Holds(l, q)
    {
    }
  }

  lemma {:induction false} AllocateIsLocal(vm: string, base: nat, l: Launch, h: Host)
    requires LaunchInv(l) && l.phase.Provisioning? && l.pc < |PROGRAM| && PROGRAM[l.pc].AllocateIp?
    requires Balanced(vm, l, h)
    ensures var n := Succeed(vm, base, l, h);
            LaunchInv(n.launch) && Balanced(vm, n.launch, n.host) && OthersUntouched(vm, h, n.host)
  {
    hide PROGRAM, GuardsAt, StateAt, WithBit, TryClaim, Fail;
    FailIsLocal(vm, l, h, false);
    NextPoint(l.pc, l.ctx.hostIp);
    var n := Succeed(vm, base, l, h);
    NextPoint(l.pc, n.launch.ctx.hostIp);
  }

  lemma {:induction false} AdvanceIsLocal(vm: string, base: nat, l: Launch, h: Host)
    requires LaunchInv(l) && l.phase.Provisioning? && l.pc < |PROGRAM| && Balanced(vm, l, h)
    requires !PROGRAM[l.pc].Acquire? && !PROGRAM[l.pc].AllocateIp?
    ensures var n := Succeed(vm, base, l, h);
            LaunchInv(n.launch) && Balanced(vm, n.launch, n.host) && OthersUntouched(vm, h, n.host)
  {
    hide PROGRAM, ContextAt, GuardsAt, StateAt;
    NextPoint(l.pc, l.ctx.hostIp);
  }

  lemma {:induction false} FailIsLocal(vm: string, l: Launch, h: Host, partialJail: bool)
    requires LaunchInv(l) && l.phase.Provisioning? && Balanced(vm, l, h) && (partialJail ==> l.ctx.jailDir)
    ensures var n := Fail(vm, l, h, partialJail);
            && LaunchInv(n.launch) && Balanced(vm, n.launch, n.host) && OthersUntouched(vm, h, n.host)
            && n.host.word == h.word && AddressOf(n.launch) == AddressOf(l)
  {
    hide StateAt;
  }

  lemma {:induction false} CleanIsLocal(vm: string, base: nat, l: Launch, h: Host)
    requires LaunchInv(l) && l.phase.CleaningUp? && Balanced(vm, l, h)
    ensures var n := CleanStep(vm, base, l, h);
            LaunchInv(n.launch) && Balanced(vm, n.launch, n.host) && OthersUntouched(vm, h, n.host)
  {
    hide Released;
  }

  lemma {:induction false} ReturnIsLocal(vm: string, l: Launch, h: Host)
    requires LaunchInv(l) && l.phase.Provisioning? && l.pc == |PROGRAM| && Balanced(vm, l, h)
    ensures LaunchInv(Return(l)) && Balanced(vm, Return(l), h) && AddressOf(Return(l)) == AddressOf(l)
  {
  }

  // --- The whole host ---

  datatype System = System(launches: map<string, Launch>, host: Host)

  const BOOT := System(map[], Host({}, 0))

  /** VM ids are distinct; `CleanAgain` is a second call of `cleanup` on a failed launch. */
  datatype Step = Start(vm: string) | Proceed(vm: string) | Abort(vm: string, partialJail: bool)
    | Clean(vm: string) | CleanAgain(vm: string) | Finish(vm: string)

  predicate Enabled(s: System, step: Step) {
    if step.Start? then step.vm !in s.launches
    else
      && step.vm in s.launches
      && var l := s.launches[step.vm];
      match step
      case Proceed(_) => l.phase.Provisioning? && l.pc < |PROGRAM|
      case Abort(_, partialJail) =>
        && l.phase.Provisioning? && l.pc < |PROGRAM| && (partialJail ==> PROGRAM[l.pc].SetupJail?)
        && CanFail(l.pc)
      case Clean(_) => l.phase.CleaningUp?
      case CleanAgain(_) => l.phase.Failed?
      case _ => l.phase.Provisioning? && l.pc == |PROGRAM|
  }

  function Apply(base: nat, s: System, step: Step): System
    requires Enabled(s, step)
  {
    var vm := step.vm;
    var l := if step.Start? then NEW_LAUNCH else s.launches[vm];
    var n := match step
      case Start(_) => Pair(l, s.host)
      case Proceed(_) => Succeed(vm, base, l, s.host)
      case Abort(_, partialJail) => Fail(vm, l, s.host, partialJail)
      case Clean(_) => CleanStep(vm, base, l, s.host)
      case CleanAgain(_) => Pair(l.(phase := CleaningUp(0)), s.host)
      case Finish(_) => Pair(Return(l), s.host);
    System(s.launches[vm := n.launch], n.host)
  }

  predicate Leads(base: nat, s: System, steps: seq<Step>, s': System)
    decreases |steps|
  {
    if steps == [] then s == s'
    else Enabled(s, steps[0]) && Leads(base, Apply(base, s, steps[0]), steps[1..], s')
  }

  /** Some returned VM or live context accounts for this address. */
  ghost predicate Accounted(launches: map<string, Launch>, ip: nat) {
    exists vm :: vm in launches && AddressOf(launches[vm]) == Some(ip)
  }

  /** The allocator's bits are exactly the accounted addresses, each with one owner. */
  ghost predicate AddressInv(base: nat, launches: map<string, Launch>, word: bv64) {
    && (forall i: Slot :: IsSet(word, i) <==> Accounted(launches, Address(base, i)))
    && (forall vm, u :: vm in launches && u in launches && AddressOf(launches[vm]).Some? ==>
          (AddressOf(launches[vm]) == AddressOf(launches[u]) ==> vm == u))
    && (forall vm :: vm in launches && AddressOf(launches[vm]).Some? ==>
          base <= AddressOf(launches[vm]).value < base + 64)
  }

  ghost predicate SystemInv(base: nat, s: System) {
    && (forall vm :: vm in s.launches ==> LaunchInv(s.launches[vm]) && Balanced(vm, s.launches[vm], s.host))
    && (forall vm, r :: (vm, r) in s.host.owned ==> vm in s.launches)
    && AddressInv(base, s.launches, s.host.word)
  }

  lemma SameAddress(base: nat, launches: map<string, Launch>, word: bv64, vm: string, l: Launch)
    requires AddressInv(base, launches, word)
    requires AddressOf(l) == if vm in launches then AddressOf(launches[vm]) else None
    ensures AddressInv(base, launches[vm := l], word)
  {
    hide IsSet, Address;
    var after := launches[vm := l];
    forall ip: nat
      ensures Accounted(after, ip) <==> Accounted(launches, ip)
    {
      if u :| u in launches && AddressOf(launches[u]) == Some(ip) {
        assert u in after && AddressOf(after[u]) == Some(ip);
      }
      if u :| u in after && AddressOf(after[u]) == Some(ip) {
        assert u in launches && AddressOf(launches[u]) == Some(ip);
      }
    }
  }

  lemma ClaimedAddress(base: nat, launches: map<string, Launch>, word: bv64, vm: string, l: Launch, i: Slot)
    requires AddressInv(base, launches, word) && !IsSet(word, i)
    requires vm in launches && AddressOf(launches[vm]).None? && AddressOf(l) == Some(Address(base, i))
    ensures AddressInv(base, launches[vm := l], WithBit(word, i))
  {
    hide IsSet, WithBit;
    var after := launches[vm := l];
    AddressInjective(base, i, i);
    assert !Accounted(launches, Address(base, i));
    forall j: Slot
      ensures IsSet(WithBit(word, i), j) <==> Accounted(after, Address(base, j))
    {
      WithBitSets(word, i, j);
      AddressInjective(base, i, j);
      if j == i {
        assert vm in after && AddressOf(after[vm]) == Some(Address(base, j));
      } else if IsSet(word, j) {
        var u :| u in launches && AddressOf(launches[u]) == Some(Address(base, j));
        assert u in after && AddressOf(after[u]) == Some(Address(base, j));
      }
    }
  }

  lemma ReleasedAddress(base: nat, launches: map<string, Launch>, word: bv64, vm: string, l: Launch)
    requires AddressInv(base, launches, word)
    requires vm in launches && AddressOf(launches[vm]).Some? && AddressOf(l).None?
    ensures AddressInv(base, launches[vm := l], Released(word, base, AddressOf(launches[vm]).value))
  {
    hide IsSet, WithoutBit;
    var after, ip := launches[vm := l], AddressOf(launches[vm]).value;
    var i := SlotOf(base, ip);
    forall j: Slot
      ensures IsSet(Released(word, base, ip), j) <==> Accounted(after, Address(base, j))
    {
      WithoutBitClears(word, i, j);
      AddressInjective(base, i, j);
      if j != i && IsSet(word, j) {
        var u :| u in launches && AddressOf(launches[u]) == Some(Address(base, j));
        assert u in after && AddressOf(after[u]) == Some(Address(base, j));
      }
    }
  }

  /** This step of the allocator wins its swap. */
  predicate Wins(l: Launch, h: Host)
    requires l.phase.Provisioning? && l.pc < |PROGRAM|
  {
    PROGRAM[l.pc].AllocateIp? && l.loaded.Some? && TryClaim(h.word, l.loaded.value).Won?
  }

  /** Only winning a swap moves an address or the word. */
  lemma {:induction false} AddressMoves(vm: string, base: nat, l: Launch, h: Host)
    requires LaunchInv(l) && l.phase.Provisioning? && l.pc < |PROGRAM|
    ensures var n := Succeed(vm, base, l, h);
            if Wins(l, h) then
              var i := TryClaim(h.word, l.loaded.value).slot;
              && LowestClear(h.word, 0) == Some(i) && n.launch.phase.Provisioning?
              && l.ctx.hostIp.None? && n.launch.ctx.hostIp == Some(Address(base, i))
              && n.host.word == WithBit(h.word, i)
            else
              n.launch.ctx.hostIp == l.ctx.hostIp && n.host.word == h.word
    ensures var n := Succeed(vm, base, l, h).launch;
            && (n.phase.Provisioning? || n.phase == CleaningUp(0))
            && (n.phase.CleaningUp? <==>
                  PROGRAM[l.pc].AllocateIp? && l.loaded.Some? && TryClaim(h.word, l.loaded.value).Exhausted?)
  {
    hide PROGRAM, IsSet, WithBit, LowestClear, GuardsAt, StateAt, IsValidTransition;
    NextPoint(l.pc, l.ctx.hostIp);
  }

  lemma {:induction false} ProceedAddress(base: nat, s: System, vm: string)
    requires SystemInv(base, s) && Enabled(s, Proceed(vm))
    ensures var s' := Apply(base, s, Proceed(vm)); AddressInv(base, s'.launches, s'.host.word)
  {
    hide PROGRAM, AddressInv, IsSet, WithBit, LowestClear, Balanced, LaunchInv, Succeed;
    var l := s.launches[vm];
    var n := Succeed(vm, base, l, s.host);
    AddressMoves(vm, base, l, s.host);
    if Wins(l, s.host) {
      ClaimedAddress(base, s.launches, s.host.word, vm, n.launch, TryClaim(s.host.word, l.loaded.value).slot);
    } else {
      SameAddress(base, s.launches, s.host.word, vm, n.launch);
    }
  }

  lemma {:induction false} CleanAddress(base: nat, s: System, vm: string)
    requires SystemInv(base, s) && Enabled(s, Clean(vm))
    ensures var s' := Apply(base, s, Clean(vm)); AddressInv(base, s'.launches, s'.host.word)
  {
    hide AddressInv, Released;
    var l := s.launches[vm];
    var n := CleanStep(vm, base, l, s.host);
    if l.phase.stage == 2 && l.ctx.hostIp.Some? {
      ReleasedAddress(base, s.launches, s.host.word, vm, n.launch);
    } else {
      SameAddress(base, s.launches, s.host.word, vm, n.launch);
    }
  }

  /** A step that is in order for its own launch keeps every other launch's account. */
  lemma {:induction false} LocalStep(base: nat, s: System, vm: string, n: Pair)
    requires SystemInv(base, s)
    requires LaunchInv(n.launch) && Balanced(vm, n.launch, n.host) && OthersUntouched(vm, s.host, n.host)
    requires AddressInv(base, s.launches[vm := n.launch], n.host.word)
    ensures SystemInv(base, System(s.launches[vm := n.launch], n.host))
  {
    hide AddressInv, LaunchInv, Holds;
  }

  lemma {:induction false} StepKeepsInv(base: nat, s: System, step: Step)
    requires SystemInv(base, s) && Enabled(s, step)
    ensures SystemInv(base, Apply(base, s, step))
  {
    hide AddressInv, Succeed, CleanStep, Fail, Balanced, LaunchInv, Return;
    var vm := step.vm;
    match step
    case Start(_) =>
      StartStep(base, s, vm);
    case Proceed(_) =>
      SucceedIsLocal(vm, base, s.launches[vm], s.host);
      ProceedAddress(base, s, vm);
      LocalStep(base, s, vm, Succeed(vm, base, s.launches[vm], s.host));
    case Abort(_, partialJail) =>
      AbortStep(base, s, vm, partialJail);
    case Clean(_) =>
      CleanIsLocal(vm, base, s.launches[vm], s.host);
      CleanAddress(base, s, vm);
      LocalStep(base, s, vm, CleanStep(vm, base, s.launches[vm], s.host));
    case CleanAgain(_) =>
      CleanAgainStep(base, s, vm);
    case Finish(_) =>
      ReturnIsLocal(vm, s.launches[vm], s.host);
      SameAddress(base, s.launches, s.host.word, vm, Return(s.launches[vm]));
      LocalStep(base, s, vm, Pair(Return(s.launches[vm]), s.host));
  }

  lemma {:induction false} StartStep(base: nat, s: System, vm: string)
    requires SystemInv(base, s) && Enabled(s, Start(vm))
    ensures SystemInv(base, Apply(base, s, Start(vm)))
  {
    hide AddressInv;
    SameAddress(base, s.launches, s.host.word, vm, NEW_LAUNCH);
    LocalStep(base, s, vm, Pair(NEW_LAUNCH, s.host));
  }

  lemma {:induction false} AbortStep(base: nat, s: System, vm: string, partialJail: bool)
    requires SystemInv(base, s) && Enabled(s, Abort(vm, partialJail))
    ensures SystemInv(base, Apply(base, s, Abort(vm, partialJail)))
  {
    hide AddressInv;
    var n := Fail(vm, s.launches[vm], s.host, partialJail);
    FailIsLocal(vm, s.launches[vm], s.host, partialJail);
    SameAddress(base, s.launches, s.host.word, vm, n.launch);
    LocalStep(base, s, vm, n);
  }

  lemma {:induction false} CleanAgainStep(base: nat, s: System, vm: string)
    requires SystemInv(base, s) && Enabled(s, CleanAgain(vm))
    ensures SystemInv(base, Apply(base, s, CleanAgain(vm)))
  {
    hide AddressInv;
    var n := Pair(s.launches[vm].(phase := CleaningUp(0)), s.host);
    SameAddress(base, s.launches, s.host.word, vm, n.launch);
    LocalStep(base, s, vm, n);
  }

  lemma {:induction false} RunKeepsInv(base: nat, s: System, steps: seq<Step>, s': System)
    requires SystemInv(base, s) && Leads(base, s, steps, s')
    ensures SystemInv(base, s')
    decreases |steps|
  {
    hide SystemInv, Enabled, Apply;
    if steps == [] {
    } else {
      StepKeepsInv(base, s, steps[0]);
      RunKeepsInv(base, Apply(base, s, steps[0]), steps[1..], s');
    }
  }

  // --- Main results ---

  /**
   * In every state reached by any interleaving of launches, failures and (repeated)
   * cleanups: bits and addresses balance, each account balances, and a failed launch
   * owns nothing.
   */
  lemma {:induction false} LedgerBalances(base: nat, steps: seq<Step>, s: System)
    requires Leads(base, BOOT, steps, s)
    ensures SystemInv(base, s)
    ensures forall vm :: vm in s.launches && s.launches[vm].phase.Failed? ==>
              AddressOf(s.launches[vm]).None? && forall r :: (vm, r) !in s.host.owned
    ensures forall vm :: vm in s.launches && s.launches[vm].phase.Returned? ==>
              AddressOf(s.launches[vm]).Some? && forall r :: (vm, r) in s.host.owned
  {
    assert forall i: Slot :: !IsSet(0, i);
    assert SystemInv(base, BOOT);
    RunKeepsInv(base, BOOT, steps, s);
  }

  /**
   * In every reachable state, rollback included: no process without its cgroup and its jail
   * directory on record, no cgroup of a launch without its address, no address of one without
   * its snapshot.
   */
  lemma {:induction false} RollbackIsReverse(base: nat, steps: seq<Step>, s: System, vm: string)
    requires Leads(base, BOOT, steps, s) && vm in s.launches && !s.launches[vm].phase.Returned?
    ensures var l := s.launches[vm];
            && ((vm, Process) in s.host.owned ==> (vm, Cgroup) in s.host.owned && l.ctx.jailDir)
            && ((vm, Cgroup) in s.host.owned ==> AddressOf(l).Some?)
            && (AddressOf(l).Some? ==> (vm, Snapshot) in s.host.owned)
  {
    hide Leads, AddressInv, IsSet, ContextAt, GuardsAt, StateAt, PROGRAM;
    LedgerBalances(base, steps, s);
    var l := s.launches[vm];
    assert LaunchInv(l) && Balanced(vm, l, s.host);
    assert Holds(l, Process) <==> l.ctx.process;
    assert Holds(l, Cgroup) <==> l.ctx.cgroup;
    assert Holds(l, Snapshot) <==> l.ctx.snapshotName;
  }

  // --- Returned VMs keep their addresses ---

  /** The VMs handed out so far. */
  function ReturnedVms(s: System): set<string> {
    set vm | vm in s.launches && s.launches[vm].phase.Returned?
  }

  lemma {:induction false} StepKeepsReturned(base: nat, s: System, vm: string, step: Step)
    requires Enabled(s, step) && vm in ReturnedVms(s)
    ensures vm in ReturnedVms(Apply(base, s, step)) && Apply(base, s, step).launches[vm] == s.launches[vm]
  {
    hide PROGRAM, Succeed, Fail, CleanStep, Return;
    assert step.vm != vm;
  }

  /**
   * Nothing gives a returned VM's address back: from then on, whatever happens, the launch
   * stays as it is and its bit stays set.
   */
  lemma {:induction false} ReturnedForGood(base: nat, s: System, vm: string, steps: seq<Step>, s': System)
    requires SystemInv(base, s) && vm in ReturnedVms(s) && Leads(base, s, steps, s')
    ensures vm in ReturnedVms(s') && s'.launches[vm] == s.launches[vm]
    ensures exists i: Slot :: s.launches[vm].vmIp == Some(Address(base, i)) && IsSet(s'.host.word, i)
    decreases |steps|
  {
    hide SystemInv, Enabled, Apply, IsSet;
    if steps == [] {
      ReturnedHasBit(base, s, vm);
    } else {
      StepKeepsReturned(base, s, vm, steps[0]);
      StepKeepsInv(base, s, steps[0]);
      ReturnedForGood(base, Apply(base, s, steps[0]), vm, steps[1..], s');
    }
  }

  lemma {:induction false} ReturnedHasBit(base: nat, s: System, vm: string)
    requires SystemInv(base, s) && vm in ReturnedVms(s)
    ensures exists i: Slot :: s.launches[vm].vmIp == Some(Address(base, i)) && IsSet(s.host.word, i)
  {
    hide IsSet, Balanced;
    var ip := s.launches[vm].vmIp.value;
    assert AddressOf(s.launches[vm]) == Some(ip);
    var i := SlotOf(base, ip);
    assert Accounted(s.launches, Address(base, i));
  }

  /** Distinct numbers below a bound are at most as many. */
  lemma {:induction false} BoundedCount(xs: set<nat>, lo: nat, n: nat)
    requires forall x :: x in xs ==> lo <= x < lo + n
    ensures |xs| <= n
    decreases n
  {
    if n == 0 {
      assert xs == {};
    } else {
      BoundedCount(xs - {lo + n - 1}, lo, n - 1);
      assert xs <= xs - {lo + n - 1} + {lo + n - 1};
    }
  }

  /** VMs with addresses of their own are as many as the addresses. */
  lemma {:induction false} AddressPerVm(launches: map<string, Launch>, vms: set<string>)
    requires forall vm :: vm in vms ==> vm in launches && AddressOf(launches[vm]).Some?
    requires forall vm, u :: vm in vms && u in vms && AddressOf(launches[vm]) == AddressOf(launches[u]) ==> vm == u
    ensures |set vm | vm in vms :: AddressOf(launches[vm]).value| == |vms|
    decreases |vms|
  {
    hide AddressOf;
    if vms == {} {
      assert (set vm | vm in vms :: AddressOf(launches[vm]).value) == {};
    } else {
      var one :| one in vms;
      var rest := vms - {one};
      AddressPerVm(launches, rest);
      var ips := set vm | vm in rest :: AddressOf(launches[vm]).value;
      var ip := AddressOf(launches[one]).value;
      assert ip !in ips;
      assert (set vm | vm in vms :: AddressOf(launches[vm]).value) == ips + {ip};
    }
  }

  /** At most 64 launches ever return, and after that many none does. */
  lemma {:induction false} AtMost64Return(base: nat, s: System, steps: seq<Step>, s': System)
    requires SystemInv(base, s) && Leads(base, s, steps, s')
    ensures ReturnedVms(s) <= ReturnedVms(s') && |ReturnedVms(s')| <= 64
    ensures |ReturnedVms(s)| == 64 ==> ReturnedVms(s') == ReturnedVms(s)
  {
    hide Enabled, Apply, IsSet, Leads, Balanced;
    RunKeepsInv(base, s, steps, s');
    forall vm | vm in ReturnedVms(s)
      ensures vm in ReturnedVms(s')
    {
      ReturnedForGood(base, s, vm, steps, s');
    }
    var vms := ReturnedVms(s');
    AddressPerVm(s'.launches, vms);
    BoundedCount(set vm | vm in vms :: AddressOf(s'.launches[vm]).value, base, 64);
    if |ReturnedVms(s)| == 64 {
      SameSize(ReturnedVms(s), vms);
    }
  }

  lemma {:induction false} SameSize(a: set<string>, b: set<string>)
    requires a <= b && |b| <= |a|
    ensures a == b
  {
    assert b == a + (b - a);
    assert |b| == |a| + |b - a|;
  }

  // --- Repeated cleanups ---

  /** A launch that has been rolled back, whether or not it is being cleaned up again. */
  predicate Spent(l: Launch) {
    (l.phase.Failed? || l.phase.CleaningUp?) && l.ctx == EMPTY_CONTEXT
  }

  /** No step of a spent launch touches the host, and it stays spent. */
  lemma {:induction false} SpentStep(base: nat, s: System, vm: string, step: Step)
    requires Enabled(s, step) && vm in s.launches && Spent(s.launches[vm])
    ensures var s' := Apply(base, s, step);
            vm in s'.launches && Spent(s'.launches[vm]) && (step.vm == vm ==> s'.host == s.host)
  {
    hide PROGRAM, Perform, Fail, Released;
  }

  /**
   * From the moment a launch has failed, whatever interleaves and however often it is
   * cleaned up again: none of its steps changes the host, not even when its old address,
   * or anything else, belongs to another VM by then.
   */
  lemma {:induction false} CleanupIsIdempotent(
    base: nat, s: System, vm: string, steps: seq<Step>, s': System, step: Step)
    requires vm in s.launches && LaunchInv(s.launches[vm]) && s.launches[vm].phase.Failed?
    requires Leads(base, s, steps, s') && Enabled(s', step) && step.vm == vm
    ensures Apply(base, s', step).host == s'.host
  {
    hide PROGRAM, Apply, Enabled, Leads;
    SpentForGood(base, s, vm, steps, s');
    SpentStep(base, s', vm, step);
  }

  lemma {:induction false} SpentForGood(base: nat, s: System, vm: string, steps: seq<Step>, s': System)
    requires vm in s.launches && Spent(s.launches[vm]) && Leads(base, s, steps, s')
    ensures vm in s'.launches && Spent(s'.launches[vm])
    decreases |steps|
  {
    hide Apply, Enabled, Spent;
    if steps == [] {
    } else {
      SpentStep(base, s, vm, steps[0]);
      SpentForGood(base, Apply(base, s, steps[0]), vm, steps[1..], s');
    }
  }

  /**
   * A returned launch's context still names the address, the snapshot and the jail. Cleaning
   * it up, which `launch_vm` never does, would take these from the running VM.
   */
  lemma {:induction false} ReturnedContextStillNames(vm: string, base: nat, l: Launch, h: Host)
    requires LaunchInv(l) && l.phase.Provisioning? && l.pc == |PROGRAM| && Balanced(vm, l, h)
    ensures var ctx := Return(l).ctx;
            && AddressOf(Return(l)) == ctx.hostIp && ctx.hostIp.Some?
            && Unrecorded(vm, base, ctx, h)
            == Host(h.owned - {(vm, Snapshot), (vm, Jail)}, Released(h.word, base, ctx.hostIp.value))
            && {(vm, Snapshot), (vm, Jail)} <= h.owned
  {
    hide Released;
    assert Holds(l, Snapshot);
  }

  // --- The same operations as objects updated in place ---

  /** The machine a launch works on. */
  class Machine {
    var owned: set<(string, Resource)>
    var word: bv64
    const baseIp: nat

    ghost function State(): Host
      reads this
    {
      Host(owned, word)
    }
  }

  /** A whole call of `cleanup`: its five stages. */
  function CleanAll(vm: string, base: nat, l: Launch, h: Host): Pair
    requires l.phase == CleaningUp(0)
  {
    var n1 := CleanStep(vm, base, l, h);
    var n2 := CleanStep(vm, base, n1.launch, n1.host);
    var n3 := CleanStep(vm, base, n2.launch, n2.host);
    var n4 := CleanStep(vm, base, n3.launch, n3.host);
    CleanStep(vm, base, n4.launch, n4.host)
  }

  /** The host without anything `ctx` records. */
  function Unrecorded(vm: string, base: nat, ctx: Context, h: Host): Host {
    var taken := (if ctx.process then {(vm, Process)} else {}) + (if ctx.cgroup then {(vm, Cgroup)} else {})
               + (if ctx.snapshotName && ctx.snapshotId then {(vm, Snapshot)} else {})
               + (if ctx.jailDir then {(vm, Jail)} else {});
    Host(h.owned - taken, if ctx.hostIp.Some? then Released(h.word, base, ctx.hostIp.value) else h.word)
  }

  /** What is left of `owned` when the recorded resources go one by one. */
  function Stripped(vm: string, ctx: Context, owned: set<(string, Resource)>): set<(string, Resource)> {
    var s1 := if ctx.process then owned - {(vm, Process)} else owned;
    var s2 := if ctx.cgroup then s1 - {(vm, Cgroup)} else s1;
    var s3 := if ctx.snapshotName && ctx.snapshotId then s2 - {(vm, Snapshot)} else s2;
    if ctx.jailDir then s3 - {(vm, Jail)} else s3
  }

  lemma {:induction false} UnrecordedInStages(vm: string, base: nat, ctx: Context, h: Host)
    ensures Unrecorded(vm, base, ctx, h).owned == Stripped(vm, ctx, h.owned)
  {
  }

  /** The stages of the protocol add up to the method below. */
  lemma {:induction false} CleanAllUnrecords(vm: string, base: nat, l: Launch, h: Host)
    requires l.phase == CleaningUp(0)
    ensures CleanAll(vm, base, l, h).host == Unrecorded(vm, base, l.ctx, h)
    ensures CleanAll(vm, base, l, h).launch == l.(ctx := EMPTY_CONTEXT, phase := Failed)
  {
    hide Released;
    UnrecordedInStages(vm, base, l.ctx, h);
  }

  class ProvisioningContext {
    const vmId: string
    var snapshotName: Option<string>
    var snapshotInternalId: Option<nat>
    var hostIp: Option<nat>
    var cgroup: Option<string>
    var jailDir: Option<string>
    var process: Option<nat>

    constructor (vm: string)
      ensures vmId == vm && View() == EMPTY_CONTEXT
    {
      vmId := vm;
      snapshotName, snapshotInternalId, hostIp, cgroup, jailDir, process := None, None, None, None, None, None;
    }

    ghost function View(): Context
      reads this
    {
      Context(snapshotName.Some?, snapshotInternalId.Some?, hostIp, cgroup.Some?, jailDir.Some?, process.Some?)
    }

    /** Takes every recorded resource exactly once, in reverse order of allocation. */
    method Cleanup(m: Machine)
      modifies this, m
      ensures View() == EMPTY_CONTEXT
      ensures m.State() == Unrecorded(vmId, m.baseIp, old(View()), old(m.State()))
      ensures old(View()) == EMPTY_CONTEXT ==> m.State() == old(m.State())
    {
      hide Released;
      var owned, word := m.owned, m.word;
      owned := if process.Some? then owned - {(vmId, Process)} else owned;
      owned := if cgroup.Some? then owned - {(vmId, Cgroup)} else owned;
      word := if hostIp.Some? then Released(word, m.baseIp, hostIp.value) else word;
      owned := if snapshotName.Some? && snapshotInternalId.Some? then owned - {(vmId, Snapshot)} else owned;
      owned := if jailDir.Some? then owned - {(vmId, Jail)} else owned;
      UnrecordedInStages(vmId, m.baseIp, View(), m.State());
      m.owned, m.word := owned, word;
      process, cgroup, hostIp, snapshotName, snapshotInternalId, jailDir := None, None, None, None, None, None;
    }
  }

  /** A second whole cleanup of a failed launch, at any later time, changes nothing at all. */
  lemma {:induction false} SecondCleanupFreesNothing(base: nat, s: System, vm: string)
    requires SystemInv(base, s) && vm in s.launches && s.launches[vm].phase.Failed?
    ensures CleanAll(vm, base, s.launches[vm].(phase := CleaningUp(0)), s.host) == Pair(s.launches[vm], s.host)
  {
    hide AddressInv, Released;
    CleanAllUnrecords(vm, base, s.launches[vm].(phase := CleaningUp(0)), s.host);
  }

  lemma ClaimUndone(w: bv64, i: Slot)
    requires !IsSet(w, i)
    ensures WithoutBit(WithBit(w, i), i) == w
  {
  }

  /** What a lone launch has changed so far: its own resources, and at most one bit. */
  ghost predicate OnlyOwnChanges(vm: string, base: nat, l: Launch, h0: Host, h: Host) {
    && LaunchInv(l) && Balanced(vm, l, h) && OthersUntouched(vm, h0, h)
    && match l.ctx.hostIp
       case None => h.word == h0.word
       case Some(ip) => exists i: Slot ::
         LowestClear(h0.word, 0) == Some(i) && ip == Address(base, i) && h.word == WithBit(h0.word, i)
  }

  lemma {:induction false} CleanStepAlone(vm: string, base: nat, l: Launch, h0: Host, h: Host)
    requires l.phase.CleaningUp? && OnlyOwnChanges(vm, base, l, h0, h)
    ensures var n := CleanStep(vm, base, l, h); OnlyOwnChanges(vm, base, n.launch, h0, n.host)
  {
    hide IsSet, WithBit, WithoutBit, LowestClear;
    CleanIsLocal(vm, base, l, h);
    if l.phase.stage == 2 && l.ctx.hostIp.Some? {
      var ip := l.ctx.hostIp.value;
      var i: Slot :| LowestClear(h0.word, 0) == Some(i) && ip == Address(base, i) && h.word == WithBit(h0.word, i);
      AddressInjective(base, i, i);
      AddressInjective(base, i, SlotOf(base, ip));
      ClaimUndone(h0.word, i);
    }
  }

  /** Failing anywhere, then cleaning up, gives back exactly what was taken. */
  lemma {:induction false} CleanAllRestores(vm: string, base: nat, l: Launch, h0: Host, h: Host)
    requires l.phase == CleaningUp(0) && OnlyOwnChanges(vm, base, l, h0, h)
    requires forall r :: (vm, r) !in h0.owned
    ensures CleanAll(vm, base, l, h).host == h0
  {
    hide OnlyOwnChanges;
    CleanStepAlone(vm, base, l, h0, h);
    var n1 := CleanStep(vm, base, l, h);
    CleanStepAlone(vm, base, n1.launch, h0, n1.host);
    var n2 := CleanStep(vm, base, n1.launch, n1.host);
    CleanStepAlone(vm, base, n2.launch, h0, n2.host);
    var n3 := CleanStep(vm, base, n2.launch, n2.host);
    CleanStepAlone(vm, base, n3.launch, h0, n3.host);
    var n4 := CleanStep(vm, base, n3.launch, n3.host);
    CleanStepAlone(vm, base, n4.launch, h0, n4.host);
    var n5 := CleanStep(vm, base, n4.launch, n4.host);
    FailedOwnsNothing(vm, base, n5.launch, h0, n5.host);
  }

  lemma {:induction false} FailedOwnsNothing(vm: string, base: nat, l: Launch, h0: Host, h: Host)
    requires l.phase.Failed? && OnlyOwnChanges(vm, base, l, h0, h)
    requires forall r :: (vm, r) !in h0.owned
    ensures h == h0
  {
    forall x
      ensures x in h.owned <==> x in h0.owned
    {
      assert x == (x.0, x.1);
    }
  }

  lemma {:induction false} SucceedAlone(vm: string, base: nat, l: Launch, h0: Host, h: Host)
    requires OnlyOwnChanges(vm, base, l, h0, h) && l.phase.Provisioning? && l.pc < |PROGRAM|
    requires l.loaded.Some? ==> l.loaded.value == h.word
    ensures var n := Succeed(vm, base, l, h);
            && OnlyOwnChanges(vm, base, n.launch, h0, n.host)
            && (n.launch.phase.Provisioning? || n.launch.phase == CleaningUp(0))
            && (n.launch.phase.CleaningUp? ==> LowestClear(h0.word, 0).None?)
            && MovesOn(l, n)
  {
    hide PROGRAM, IsSet, WithBit, LowestClear, LaunchInv, Balanced, Perform, MovesOn;
    AloneMovesOn(vm, base, l, h);
    SucceedIsLocal(vm, base, l, h);
    AddressMoves(vm, base, l, h);
    if PROGRAM[l.pc].AllocateIp? {
      NoAddressBeforeAllocation(l);
    }
  }

  /** A step that succeeds passes its operation, or makes the load of an allocation. */
  predicate MovesOn(l: Launch, n: Pair) {
    && (n.launch.loaded.Some? ==> n.launch.loaded.value == n.host.word)
    && n.launch.pc <= |PROGRAM|
    && (n.launch.phase.Provisioning? ==>
          n.launch.pc == l.pc + 1 || (l.loaded.None? && n.launch.loaded.Some? && n.launch.pc == l.pc))
  }

  /** Alone, the swap finds what the load saw, so two turns pass the allocator. */
  lemma {:induction false} AloneMovesOn(vm: string, base: nat, l: Launch, h: Host)
    requires LaunchInv(l) && l.phase.Provisioning? && l.pc < |PROGRAM|
    requires l.loaded.Some? ==> l.loaded.value == h.word
    ensures MovesOn(l, Succeed(vm, base, l, h))
  {
    hide PROGRAM, IsSet, WithBit, LowestClear, IsValidTransition, GuardsAt, StateAt, ContextAt;
    NextPoint(l.pc, l.ctx.hostIp);
  }

  lemma {:induction false} NothingChangedYet(vm: string, base: nat, h: Host)
    requires forall r :: (vm, r) !in h.owned
    ensures OnlyOwnChanges(vm, base, NEW_LAUNCH, h, h)
  {
  }

  lemma {:induction false} FailAlone(vm: string, base: nat, l: Launch, h0: Host, h: Host, partialJail: bool)
    requires OnlyOwnChanges(vm, base, l, h0, h) && l.phase.Provisioning? && l.pc < |PROGRAM|
    requires partialJail ==> PROGRAM[l.pc].SetupJail?
    ensures var n := Fail(vm, l, h, partialJail);
            && OnlyOwnChanges(vm, base, n.launch, h0, n.host)
            && n.launch.phase == CleaningUp(0) && n.launch.loaded.None? && n.launch.pc == l.pc
  {
    hide IsSet, WithBit, LowestClear, Balanced;
    FailIsLocal(vm, l, h, partialJail);
  }

  lemma {:induction false} ReturnAlone(vm: string, base: nat, l: Launch, h0: Host, h: Host)
    requires OnlyOwnChanges(vm, base, l, h0, h) && l.phase.Provisioning? && l.pc == |PROGRAM|
    ensures l.ctx.hostIp.Some? && (forall r :: (vm, r) in h.owned) && OthersUntouched(vm, h0, h)
    ensures exists i: Slot :: LowestClear(h0.word, 0) == Some(i) && l.ctx.hostIp.value == Address(base, i)
                              && h.word == WithBit(h0.word, i)
  {
    hide IsSet, WithBit, LowestClear;
    ReturnIsLocal(vm, l, h);
  }

  lemma NoAddressBeforeAllocation(l: Launch)
    requires LaunchInv(l) && l.phase.Provisioning? && l.pc < |PROGRAM| && PROGRAM[l.pc].AllocateIp?
    ensures l.ctx.hostIp.None?
  {
  }

  /**
   * One launch without interference, whose operation `failAt` fails if it can. The launch
   * fails exactly when that happens or no address is free, and then leaves the machine as
   * it found it; a successful one owns every resource and the lowest address that was free.
   */
  method LaunchVm(vm: string, m: Machine, failAt: nat, partialJail: bool) returns (vmIp: Option<nat>)
    requires forall r :: (vm, r) !in m.owned
    modifies m
    ensures vmIp.Some? <==> LowestClear(old(m.word), 0).Some? && !CanFail(failAt)
    ensures vmIp.None? ==> m.State() == old(m.State())
    ensures vmIp.Some? ==>
              && (forall r :: (vm, r) in m.owned) && OthersUntouched(vm, old(m.State()), m.State())
              && exists i: Slot :: LowestClear(old(m.word), 0) == Some(i) && vmIp.value == Address(m.baseIp, i)
                                   && m.word == WithBit(old(m.word), i)
  {
    hide PROGRAM, Succeed, Fail, CleanAll, WithBit, IsSet, LowestClear, OnlyOwnChanges;
    var l := NEW_LAUNCH;
    ghost var h0 := m.State();
    NothingChangedYet(vm, m.baseIp, h0);
    while l.phase.Provisioning? && l.pc < |PROGRAM|
      invariant (l.phase.Provisioning? || l.phase == CleaningUp(0)) && l.pc <= |PROGRAM|
      invariant l.loaded.Some? ==> l.loaded.value == m.word
      invariant l.phase.Provisioning? && CanFail(failAt) ==> l.pc <= failAt
      invariant l.phase.CleaningUp? ==> CanFail(failAt) || LowestClear(h0.word, 0).None?
      invariant OnlyOwnChanges(vm, m.baseIp, l, h0, m.State())
      decreases l.phase.Provisioning?, |PROGRAM| - l.pc, l.loaded.None?
    {
      var n: Pair;
      if l.pc == failAt && CanFail(failAt) {
        var leavesJail := partialJail && PROGRAM[l.pc].SetupJail?;
        n := Fail(vm, l, Host(m.owned, m.word), leavesJail);
        FailAlone(vm, m.baseIp, l, h0, m.State(), leavesJail);
      } else {
        n := Succeed(vm, m.baseIp, l, Host(m.owned, m.word));
        SucceedAlone(vm, m.baseIp, l, h0, m.State());
      }
      l, m.owned, m.word := n.launch, n.host.owned, n.host.word;
    }
    if l.phase.Provisioning? {
      ReturnAlone(vm, m.baseIp, l, h0, m.State());
      return l.ctx.hostIp;
    }
    var n := CleanAll(vm, m.baseIp, l, Host(m.owned, m.word));
    CleanAllRestores(vm, m.baseIp, l, h0, m.State());
    m.owned, m.word := n.host.owned, n.host.word;
    return None;
  }
}

/**
 The llama-server lifecycle protocol of src/llama_vulkan.rs as a state machine.

 One step is one access to a shared atomic, to the identity mutex, to a channel or to the child
 process, so a run is any interleaving under sequential consistency.  Every function that starts,
 stops, reuses or commits a server holds the lifecycle mutex for its whole body, hence there is one
 `client` slot: `Idle` means the mutex is free and any thread may acquire it next.  Each start
 attempt leaves a monitor thread behind, which never takes that mutex; the monitors of all attempts
 stay in `mons` and may take a step at any time.
 */
module ServerLifecycle {
  import opened Wrappers

  /** What a server was launched for; `model` is absent when the model lineup was not installed yet. */
  datatype Route = Route(gguf: nat, model: Option<nat>, gpu: nat)

  datatype Identity = Identity(route: Route, gen: nat, pid: nat)

  /** A cached route proof is kept per (model, GPU). */
  datatype Key = Key(model: nat, gpu: nat)

  datatype Op =
    | Start(route: Route, port: nat, device: int)   // try_start_on
    | Reuse(gguf: nat, gpu: nat)                     // reuse_exact_or_stop
    | Stop                                           // stop, and generate giving up on the server
    | Commit(gguf: nat, gpu: nat, model: nat)        // commit_route_success

  /** What follows stop_locked: the start attempt goes on, or the operation returns false. */
  datatype After = Respawn | Finish

  /** available_for, one constructor per access, with the locals still needed. */
  datatype AvailablePc = AvGen | AvUp(g: nat) | AvPid(g: nat) | AvExit(g: nat) | AvGen2 | AvPid2(g: nat) | AvIdentity(g: nat, p: nat)

  /** retire_server_for_replacement_locked and, inside it, current_server_responsive_locked. */
  datatype RetirePc =
    | RePid | ReGen(p: nat) | ReExit(p: nat, g: nat) | ReWait(p: nat)
    | PrGen | PrPid(g: nat) | PrPort(g: nat, p: nat) | PrIdentity(g: nat, p: nat, port: nat)
    | PrUp(g: nat, p: nat, port: nat, id: Identity) | PrExit(g: nat, p: nat, port: nat, id: Identity)
    | PrProbe(port: nat)

  /** stop_locked up to the point where the identity and its proofs are settled. */
  datatype StopPc = StUp | StPort | StDevice | StGen | StTake(g: nat) | StInvalidate(taken: Option<Identity>)

  /** stop_locked: kill the child and wait for its monitor to publish PID zero. */
  datatype KillPc = StPid | StKill(p: nat) | StWait(p: nat)

  /** try_start_on: the spawn handoff, after the generation moved. */
  datatype SpawnPc = SpRecv | SpStorePid(p: nat) | SpAck(p: nat) | SpAckWait(p: nat) | SpClear(p: nat) | SpDrop | SpDropWait

  /** try_start_on: health loop, publication, ownership check, withdrawal. */
  datatype PublishPc =
    | HePoll | HeProbe | PuIdentity | PuDevice | PuUp | PuPort | ChGen | ChPid(g: nat) | ChExit(g: nat, o: nat)
    | WdUp | WdPort | WdDevice | WdTake

  /** commit_route_success. */
  datatype CommitPc =
    | CoGen | CoPid(g: nat) | CoLock(g: nat, p: nat)
    | CoUp(g: nat, p: nat, id: Identity) | CoExit(g: nat, p: nat, id: Identity) | CoRecord(id: Identity)

  /** Where the holder of the lifecycle mutex is. */
  datatype Pc =
    | Checking(av: AvailablePc)
    | Retiring(re: RetirePc)
    | Stopping(inv: bool, after: After, st: StopPc)
    | Killing(after: After, ki: KillPc)
    | Bumping
    | Spawning(sp: SpawnPc)
    | Publishing(p: nat, pu: PublishPc)
    | Committing(co: CommitPc)
    | Return(value: bool)

  datatype Client = Idle | Busy(op: Op, pc: Pc)

  /** A monitor before its child was handed over. */
  datatype HandPc =
    | MSpawning                       // before cmd.spawn reports
    | MSending(pid: nat)              // child spawned, tx.send next
    | MAwaitAck(pid: nat)             // waiting for the starter's acknowledgement
    | MKill(pid: nat) | MReap(pid: nat)   // handoff abandoned: kill, then wait
    | MReaped                         // acknowledgement receiver gone, completion token held
    | MSendErr                        // cmd.spawn failed

  /** A monitor that owns a handed-over child. */
  datatype OwnPc =
    | MWaiting                        // parked in Child::wait
    | MCheckGen | MCheckPid           // still the owner?
    | MMark                           // store the exit mark
    | MDevice | MPort | MSwap
    | MTake(wasUp: bool)
    | MInvalidate(wasUp: bool, taken: Option<Identity>)
    | MRelease                        // publish PID zero

  /** The monitor thread of one start attempt. */
  datatype Mon = Handing(h: HandPc) | Owning(pid: nat, own: OwnPc) | MDone

  datatype Message = Spawned(pid: nat) | SpawnFailed

  /** The spawn-report channel of the newest start attempt; `open` until its receiver is dropped. */
  datatype Inbox = Inbox(open: bool, msg: Option<Message>)

  /** History: how the identity of a generation ended, and with it the proofs it earned. */
  datatype Fate = Invalidated | Preserved | LostRace | Withdrawn

  datatype State = State(
    up: bool,                     // AVAILABLE
    port: nat,                    // PORT
    device: int,                  // SERVER_VK_DEVICE
    pid: nat,                     // SERVER_PID
    gen: nat,                     // SERVER_GENERATION
    exiting: nat,                 // SERVER_EXITING_GENERATION
    identity: Option<Identity>,
    client: Client,
    mons: map<nat, Mon>,
    inbox: Inbox,
    live: set<nat>,               // generations whose child process is running
    proofs: map<Key, nat>,        // cached route proofs, with the generation that earned each
    committed: map<nat, Key>,     // history: what each generation committed last
    answered: set<nat>,           // history: generations that answered a pre-replacement probe
    fate: map<nat, Fate>)

  const INIT := State(false, 0, -1, 0, 0, 0, None, Idle, map[], Inbox(false, None), {}, map[], map[], {}, map[])

  datatype Action =
    | Acquire(op: Op)
    | ClientStep(choice: bool)
    | MonStep(g: nat, choice: bool, newPid: nat)
    | ChildExit(g: nat)

  // ----- the pure decisions of the source -----

  predicate ExactOwner(expectedGen: nat, expectedPid: nat, gen: nat, pid: nat) {
    expectedPid != 0 && expectedGen == gen && expectedPid == pid
  }

  predicate ExactPublishable(expectedGen: nat, expectedPid: nat, gen: nat, pid: nat, exiting: nat) {
    ExactOwner(expectedGen, expectedPid, gen, pid) && exiting != expectedGen
  }

  datatype ReplacementAction = NoAction | WaitForMonitor | StopPlanned

  function Replacement(pid: nat, gen: nat, exiting: nat): ReplacementAction {
    if pid == 0 then NoAction else if exiting == gen then WaitForMonitor else StopPlanned
  }

  function KeyOf(id: Identity): Option<Key> {
    if id.route.model.Some? then Some(Key(id.route.model.value, id.route.gpu)) else None
  }

  /** invalidate_identity_route: one exact route, or every route of the card when the model is unknown. */
  function Invalidate(proofs: map<Key, nat>, id: Identity): map<Key, nat> {
    if KeyOf(id).Some? then proofs - {KeyOf(id).value}
    else map k | k in proofs && k.gpu != id.route.gpu :: proofs[k]
  }

  // ----- helpers on states -----

  function Goto(s: State, pc: Pc): State {
    if s.client.Busy? then s.(client := s.client.(pc := pc)) else s
  }

  function Continue(after: After): Pc {
    if after == Respawn then Bumping else Return(false)
  }

  function WantedGguf(op: Op): nat {
    match op
    case Start(route, _, _) => route.gguf
    case Reuse(gguf, _) => gguf
    case Stop => 0
    case Commit(gguf, _, _) => gguf
  }

  function WantedGpu(op: Op): nat {
    match op
    case Start(route, _, _) => route.gpu
    case Reuse(_, gpu) => gpu
    case Stop => 0
    case Commit(_, gpu, _) => gpu
  }

  /** The monitor of the newest generation. */
  function Cur(mons: map<nat, Mon>, gen: nat): Mon {
    if gen in mons then mons[gen] else MDone
  }

  predicate Matches(op: Op, id: Identity) {
    id.route.gguf == WantedGguf(op) && id.route.gpu == WantedGpu(op)
  }

  predicate IdentityLocked(c: Client) {
    c.Busy? && c.pc.Committing? && (c.pc.co.CoUp? || c.pc.co.CoExit? || c.pc.co.CoRecord?)
  }

  /** The child a monitor waits for, while the process id is still its own. */
  function ChildPid(m: Mon): nat {
    match m
    case Handing(MSending(p)) => p
    case Handing(MAwaitAck(p)) => p
    case Handing(MKill(p)) => p
    case Handing(MReap(p)) => p
    case Owning(p, MWaiting) => p
    case _ => 0
  }

  /** take_identity_for_generation: what is taken, under the identity mutex. */
  function Takes(identity: Option<Identity>, g: nat): Option<Identity> {
    if identity.Some? && identity.value.gen == g then identity else None
  }

  function Remaining(identity: Option<Identity>, g: nat): Option<Identity> {
    if Takes(identity, g).Some? then None else identity
  }

  // ----- the steps of the lifecycle-mutex holder -----

  function FirstPc(op: Op): Pc {
    match op
    case Start(_, _, _) => Checking(AvGen)
    case Reuse(_, _) => Checking(AvGen)
    case Stop => Stopping(true, Finish, StUp)
    case Commit(_, _, _) => Committing(CoGen)
  }

  /** available_for: every access only reads, so the step is the next program point. */
  function AvailableStep(s: State, op: Op, av: AvailablePc, choice: bool): Pc {
    match av
    // A start may refuse up front (engine evicted); otherwise available_for is evaluated.
    case AvGen => if op.Start? && choice then Return(false) else Checking(AvUp(s.gen))
    case AvUp(g) => if s.up then Checking(AvPid(g)) else Retiring(RePid)
    case AvPid(g) => if s.pid != 0 then Checking(AvExit(g)) else Retiring(RePid)
    case AvExit(g) => if s.exiting != g then Checking(AvGen2) else Retiring(RePid)
    case AvGen2 => Checking(AvPid2(s.gen))
    case AvPid2(g) => Checking(AvIdentity(g, s.pid))
    case AvIdentity(g, p) =>
      if s.identity.Some? && ExactOwner(s.identity.value.gen, s.identity.value.pid, g, p) && Matches(op, s.identity.value)
      then Return(true) else Retiring(RePid)
  }

  /** An authenticated answer can only come from the running child of this generation. */
  predicate Answers(s: State, re: RetirePc, choice: bool) {
    re.PrProbe? && choice && re.port != 0 && s.gen in s.live
  }

  function RetireStep(s: State, op: Op, re: RetirePc, choice: bool): Pc {
    var after := if op.Start? then Respawn else Finish;
    match re
    case RePid => Retiring(ReGen(s.pid))
    case ReGen(p) => Retiring(ReExit(p, s.gen))
    case ReExit(p, g) => (
      match Replacement(p, g, s.exiting)
      case NoAction => Continue(after)
      case WaitForMonitor => Retiring(ReWait(p))
      case StopPlanned => Retiring(PrGen))
    case ReWait(p) => if s.pid == p then Retiring(re) else Continue(after)
    case PrGen => Retiring(PrPid(s.gen))
    case PrPid(g) => Retiring(PrPort(g, s.pid))
    case PrPort(g, p) => Retiring(PrIdentity(g, p, s.port))
    case PrIdentity(g, p, port) =>
      if s.identity.Some? then Retiring(PrUp(g, p, port, s.identity.value)) else Stopping(true, after, StUp)
    case PrUp(g, p, port, id) => if s.up then Retiring(PrExit(g, p, port, id)) else Stopping(true, after, StUp)
    case PrExit(g, p, port, id) =>
      if s.exiting != g && ExactOwner(id.gen, id.pid, g, p) then Retiring(PrProbe(port)) else Stopping(true, after, StUp)
    case PrProbe(port) => Stopping(!Answers(s, re, choice), after, StUp)
  }

  function StopStep(s: State, inv: bool, k: After, st: StopPc): State {
    match st
    case StUp => Goto(s.(up := false), Stopping(inv, k, StPort))
    case StPort => Goto(s.(port := 0), Stopping(inv, k, StDevice))
    case StDevice => Goto(s.(device := -1), Stopping(inv, k, StGen))
    case StGen => Goto(s, Stopping(inv, k, StTake(s.gen)))
    case StTake(g) =>
      var taken := Takes(s.identity, g);
      Goto(s.(identity := Remaining(s.identity, g),
              fate := if taken.Some? && !inv then s.fate[g := Preserved] else s.fate),
           Stopping(inv, k, StInvalidate(taken)))
    case StInvalidate(taken) =>
      Goto(if inv && taken.Some?
           then s.(proofs := Invalidate(s.proofs, taken.value), fate := s.fate[taken.value.gen := Invalidated])
           else s, Killing(k, StPid))
  }

  function KillStep(s: State, k: After, ki: KillPc): State {
    match ki
    case StPid => Goto(s, Killing(k, StKill(s.pid)))
    case StKill(p) =>
      Goto(if p != 0 then s.(live := set g | g in s.live && !(g in s.mons && ChildPid(s.mons[g]) == p)) else s,
           Killing(k, StWait(p)))
    case StWait(p) => if p != 0 && s.pid == p then s else Goto(s, Continue(k))
  }

  /** Missing binary, missing model, busy port and refused device all return before the generation moves. */
  function BumpStep(s: State, choice: bool): State {
    if choice then Goto(s, Return(false))
    else Goto(s.(gen := s.gen + 1, mons := s.mons[s.gen + 1 := Handing(MSpawning)], inbox := Inbox(true, None)),
              Spawning(SpRecv))
  }

  /** Only the channel operations of a start can block. */
  predicate SpawnReady(s: State, sp: SpawnPc, choice: bool) {
    var m := Cur(s.mons, s.gen);
    match sp
    case SpRecv => choice || s.inbox.msg.Some?
    case SpAck(_) => if choice then m.Handing? && m.h.MAwaitAck? else m.MDone? || m == Handing(MReaped)
    case SpAckWait(_) => m.MDone?
    case SpDropWait => m.MDone?
    case _ => true
  }

  function SpawnStep(s: State, sp: SpawnPc, choice: bool): State
    requires SpawnReady(s, sp, choice)
  {
    match sp
    case SpRecv =>
      if choice then Goto(s, Spawning(SpDrop))
      else if s.inbox.msg.value.Spawned? then Goto(s, Spawning(SpStorePid(s.inbox.msg.value.pid)))
      else Goto(s, Return(false))
    case SpStorePid(p) => Goto(s.(pid := p), Spawning(SpAck(p)))
    case SpAck(p) =>
      if choice then Goto(s.(mons := s.mons[s.gen := Owning(Cur(s.mons, s.gen).h.pid, MWaiting)]), Publishing(p, HePoll))
      else Goto(s, Spawning(SpAckWait(p)))
    case SpAckWait(p) => Goto(s, Spawning(SpClear(p)))
    case SpClear(p) => Goto(s.(pid := 0), Return(false))
    case SpDrop => Goto(s.(inbox := Inbox(false, None)), Spawning(SpDropWait))
    case SpDropWait => Goto(s, Return(false))
  }

  function PublishStep(s: State, op: Op, p: nat, pu: PublishPc, choice: bool): State
    requires op.Start?
  {
    match pu
    // The deadline may pass before any poll; a dead child ends the attempt; otherwise probe.
    case HePoll =>
      if choice then Goto(s, Stopping(true, Finish, StUp))
      else if s.pid == 0 then Goto(s, Return(false)) else Goto(s, Publishing(p, HeProbe))
    case HeProbe => Goto(s, Publishing(p, if choice && s.gen in s.live then PuIdentity else HePoll))
    case PuIdentity => Goto(s.(identity := Some(Identity(op.route, s.gen, p))), Publishing(p, PuDevice))
    case PuDevice => Goto(s.(device := op.device), Publishing(p, PuUp))
    case PuUp => Goto(s.(up := true), Publishing(p, PuPort))
    case PuPort => Goto(s.(port := op.port), Publishing(p, ChGen))
    case ChGen => Goto(s, Publishing(p, ChPid(s.gen)))
    case ChPid(g) => Goto(s, Publishing(p, ChExit(g, s.pid)))
    case ChExit(g, o) =>
      Goto(s, if ExactPublishable(s.gen, p, g, o, s.exiting) then Return(true) else Publishing(p, WdUp))
    case WdUp => Goto(s.(up := false), Publishing(p, WdPort))
    case WdPort => Goto(s.(port := 0), Publishing(p, WdDevice))
    case WdDevice => Goto(s.(device := -1), Publishing(p, WdTake))
    case WdTake =>
      Goto(s.(identity := Remaining(s.identity, s.gen),
              fate := if Takes(s.identity, s.gen).Some? then s.fate[s.gen := Withdrawn] else s.fate),
           Return(false))
  }

  function CommitStep(s: State, op: Op, co: CommitPc): State
    requires op.Commit?
  {
    match co
    case CoGen => Goto(s, Committing(CoPid(s.gen)))
    case CoPid(g) => Goto(s, Committing(CoLock(g, s.pid)))
    case CoLock(g, p) => Goto(s, if s.identity.Some? then Committing(CoUp(g, p, s.identity.value)) else Return(false))
    case CoUp(g, p, id) => Goto(s, if s.up then Committing(CoExit(g, p, id)) else Return(false))
    case CoExit(g, p, id) =>
      Goto(s, if s.exiting != g && ExactOwner(id.gen, id.pid, g, p) && Matches(op, id) && id.route.model == Some(op.model)
              then Committing(CoRecord(id)) else Return(false))
    case CoRecord(id) =>
      Goto(s.(proofs := s.proofs[Key(op.model, op.gpu) := id.gen],
              committed := s.committed[id.gen := Key(op.model, op.gpu)]), Return(true))
  }

  predicate ClientReady(s: State, choice: bool) {
    s.client.Busy? &&
    match s.client.pc
    case Spawning(sp) => SpawnReady(s, sp, choice)
    case Publishing(_, _) => s.client.op.Start?
    case Committing(_) => s.client.op.Commit?
    case _ => true
  }

  function ClientNext(s: State, choice: bool): State
    requires ClientReady(s, choice)
  {
    var op := s.client.op;
    match s.client.pc
    case Checking(av) => Goto(s, AvailableStep(s, op, av, choice))
    case Retiring(re) =>
      Goto(if Answers(s, re, choice) then s.(answered := s.answered + {s.gen}) else s, RetireStep(s, op, re, choice))
    case Stopping(inv, k, st) => StopStep(s, inv, k, st)
    case Killing(k, ki) => KillStep(s, k, ki)
    case Bumping => BumpStep(s, choice)
    case Spawning(sp) => SpawnStep(s, sp, choice)
    case Publishing(p, pu) => PublishStep(s, op, p, pu, choice)
    case Committing(co) => CommitStep(s, op, co)
    case Return(_) => s.(client := Idle)
  }

  // ----- the steps of a monitor thread -----

  predicate MonReady(s: State, g: nat, newPid: nat) {
    g in s.mons &&
    match s.mons[g]
    case Handing(h) => (h.MSpawning? ==> newPid != 0) && (h.MReap? ==> g !in s.live)
    case Owning(_, own) => (own.MWaiting? ==> g !in s.live) && (own.MTake? ==> !IdentityLocked(s.client))
    case MDone => false
  }

  function SetMon(s: State, g: nat, m: Mon): State {
    s.(mons := s.mons[g := m])
  }

  function HandStep(s: State, g: nat, h: HandPc, choice: bool, newPid: nat): State {
    var mine := g == s.gen && s.inbox.open;
    match h
    case MSpawning =>
      if choice then SetMon(s, g, Handing(MSending(newPid))).(live := s.live + {g}) else SetMon(s, g, Handing(MSendErr))
    case MSending(p) =>
      if mine then SetMon(s, g, Handing(MAwaitAck(p))).(inbox := Inbox(true, Some(Spawned(p))))
      else SetMon(s, g, Handing(MKill(p)))
    // Only the starter's acknowledgement ends this wait well; a timeout or a dropped sender abandons it.
    case MAwaitAck(p) => SetMon(s, g, Handing(MKill(p)))
    case MKill(p) => SetMon(s, g, Handing(MReap(p))).(live := s.live - {g})
    case MReap(p) => SetMon(s, g, Handing(MReaped))
    case MReaped => SetMon(s, g, MDone)
    case MSendErr => SetMon(s, g, MDone).(inbox := if mine then Inbox(true, Some(SpawnFailed)) else s.inbox)
  }

  function OwnStep(s: State, g: nat, p: nat, own: OwnPc): State {
    match own
    case MWaiting => SetMon(s, g, Owning(p, MCheckGen))
    case MCheckGen => SetMon(s, g, if s.gen == g then Owning(p, MCheckPid) else MDone)
    case MCheckPid => SetMon(s, g, if s.pid == p then Owning(p, MMark) else MDone)
    case MMark => SetMon(s, g, Owning(p, MDevice)).(exiting := g)
    case MDevice => SetMon(s, g, Owning(p, MPort)).(device := -1)
    case MPort => SetMon(s, g, Owning(p, MSwap)).(port := 0)
    case MSwap => SetMon(s, g, Owning(p, MTake(s.up))).(up := false)
    case MTake(wasUp) =>
      var taken := Takes(s.identity, g);
      SetMon(s, g, Owning(p, MInvalidate(wasUp, taken)))
      .(identity := Remaining(s.identity, g), fate := if taken.Some? && !wasUp then s.fate[g := LostRace] else s.fate)
    case MInvalidate(wasUp, taken) =>
      var t := SetMon(s, g, Owning(p, MRelease));
      if wasUp && taken.Some?
      then t.(proofs := Invalidate(t.proofs, taken.value), fate := t.fate[taken.value.gen := Invalidated])
      else t
    case MRelease => SetMon(s, g, MDone).(pid := if s.pid == p then 0 else s.pid)
  }

  function MonNext(s: State, g: nat, choice: bool, newPid: nat): State
    requires MonReady(s, g, newPid)
  {
    match s.mons[g]
    case Handing(h) => HandStep(s, g, h, choice, newPid)
    case Owning(p, own) => OwnStep(s, g, p, own)
    case MDone => s
  }

  // ----- runs -----

  predicate Enabled(s: State, a: Action) {
    match a
    case Acquire(_) => s.client.Idle?
    case ClientStep(choice) => ClientReady(s, choice)
    case MonStep(g, choice, newPid) => MonReady(s, g, newPid)
    case ChildExit(g) => g in s.live
  }

  function Apply(s: State, a: Action): State
    requires Enabled(s, a)
  {
    match a
    case Acquire(op) => s.(client := Busy(op, FirstPc(op)))
    case ClientStep(choice) => ClientNext(s, choice)
    case MonStep(g, choice, newPid) => MonNext(s, g, choice, newPid)
    case ChildExit(g) => s.(live := s.live - {g})
  }

  predicate IsRun(s: State, run: seq<Action>)
    decreases run
  {
    run == [] || (Enabled(s, run[0]) && IsRun(Apply(s, run[0]), run[1..]))
  }

  /** The state a run ends in. */
  function EndOf(s: State, run: seq<Action>): State
    requires IsRun(s, run)
    decreases run
  {
    if run == [] then s else EndOf(Apply(s, run[0]), run[1..])
  }
}

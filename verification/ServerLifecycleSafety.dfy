/**
 Safety of the llama-server lifecycle protocol over every run: one inductive invariant, kept by each
 step of the lifecycle-mutex holder, of every monitor and of the child processes.
 */
module ServerLifecycleSafety {
  import opened Wrappers
  import opened ServerLifecycle

  // ----- how far a cleanup and a publication have come -----

  /** 0 before the exit mark, then one more for each finished cleanup step; 7 without an owned child. */
  function CleanRank(m: Mon): nat {
    if !m.Owning? then 7
    else match m.own
      case MDevice => 1
      case MPort => 2
      case MSwap => 3
      case MTake(_) => 4
      case MInvalidate(_, _) => 5
      case MRelease => 6
      case _ => 0
  }

  /** 1 to 4 as identity, device, AVAILABLE and port are written; 5 to 8 while they are withdrawn again. */
  function PubRank(c: Client): nat {
    if c.Idle? || !c.pc.Publishing? then 0
    else match c.pc.pu
      case PuDevice => 1
      case PuUp => 2
      case PuPort => 3
      case ChGen => 4
      case ChPid(_) => 4
      case ChExit(_, _) => 4
      case WdUp => 5
      case WdPort => 6
      case WdDevice => 7
      case WdTake => 8
      case _ => 0
  }

  /** stop_locked has lowered AVAILABLE and not taken the identity yet. */
  predicate StopWindow(c: Client) {
    c.Busy? && c.pc.Stopping? && (c.pc.st.StPort? || c.pc.st.StDevice? || c.pc.st.StGen? || c.pc.st.StTake?)
  }

  predicate InHandoff(c: Client) { c.Busy? && c.pc.Spawning? }

  /** A start attempt that has not published anything yet. */
  predicate Unpublished(c: Client) { InHandoff(c) || (c.Busy? && c.pc.Publishing? && PubRank(c) == 0) }

  // ----- the invariant -----

  predicate MayLive(m: Mon) {
    match m
    case Handing(h) => h.MSending? || h.MAwaitAck? || h.MKill? || h.MReap?
    case Owning(_, own) => own.MWaiting?
    case MDone => false
  }

  /** Monitors of earlier generations are finished, and only the newest child can be running. */
  predicate Gens(gen: nat, exiting: nat, mons: map<nat, Mon>, live: set<nat>) {
    && exiting <= gen
    && (forall g :: g in mons ==> g <= gen)
    && (forall g :: g in mons && g < gen ==> mons[g] == MDone)
    && (forall g :: g in live ==> g == gen && MayLive(Cur(mons, gen)))
  }

  /** The handoff of a spawned child was given up; the child is on its way to being reaped. */
  predicate Abandoning(m: Mon) { m.MDone? || (m.Handing? && (m.h.MKill? || m.h.MReap? || m.h.MReaped?)) }

  predicate InboxOk(m: Mon, msg: Option<Message>) {
    match msg
    case None => m.Handing? && (m.h.MSpawning? || m.h.MSendErr? || (m.h.MSending? && m.h.pid != 0))
    case Some(Spawned(p)) => p != 0 && (m == Handing(MAwaitAck(p)) || Abandoning(m))
    case Some(SpawnFailed) => m.MDone?
  }

  predicate HandoffOk(sp: SpawnPc, m: Mon, pid: nat, inbox: Inbox) {
    !m.Owning? &&
    match sp
    case SpRecv => pid == 0 && inbox.open && InboxOk(m, inbox.msg)
    case SpStorePid(p) => p != 0 && pid == 0 && (m == Handing(MAwaitAck(p)) || Abandoning(m))
    case SpAck(p) => p != 0 && pid == p && (m == Handing(MAwaitAck(p)) || Abandoning(m))
    case SpAckWait(p) => pid == p && (m == Handing(MReaped) || m.MDone?)
    case SpClear(p) => pid == p && m.MDone?
    case SpDrop => pid == 0
    case SpDropWait => pid == 0 && !inbox.open
  }

  /** Outside a handoff SERVER_PID is the pid of the owned child until its cleanup ends, then zero. */
  predicate Settled(m: Mon, pid: nat, marked: bool) {
    if m.Owning? then pid == m.pid && pid != 0 && (CleanRank(m) > 0 <==> marked) else m.MDone? && pid == 0
  }

  predicate Pids(c: Client, known: bool, m: Mon, pid: nat, marked: bool, inbox: Inbox) {
    if InHandoff(c) then known && !marked && HandoffOk(c.pc.sp, m, pid, inbox) else Settled(m, pid, marked)
  }

  /** What can still be published, given how far cleanup and publication have come. */
  predicate Published(clean: nat, pub: nat, device: int, port: nat, up: bool) {
    && (device != -1 ==> clean < 2 || 2 <= pub <= 7)
    && (port != 0 ==> clean < 3 || 4 <= pub <= 6)
    && (up ==> clean < 4 || 3 <= pub <= 5)
    && (3 <= pub <= 5 && clean < 4 ==> up)
  }

  predicate IdentityOk(identity: Option<Identity>, gen: nat, m: Mon, pub: nat) {
    identity.Some? ==>
      && identity.value.gen == gen
      && (CleanRank(m) < 5 || 1 <= pub)
      && (m.Owning? ==> identity.value.pid == m.pid)
  }

  /** The publication and withdrawal steps of a start attempt. */
  predicate StartOk(s: State, m: Mon, clean: nat, pub: nat) {
    s.client.Busy? && s.client.pc.Publishing? && s.client.op.Start? ==>
      var op, p, pu := s.client.op, s.client.pc.p, s.client.pc.pu;
      && (if m.Owning? then m.pid == p else s.exiting == s.gen)
      && (1 <= pub && clean < 5 ==> s.identity == Some(Identity(op.route, s.gen, p)))
      && (2 <= pub <= 6 && clean < 2 ==> s.device == op.device)
      && (pub == 4 && clean < 3 ==> s.port == op.port)
      && (pub == 1 || pub == 2 || pub >= 6 ==> !s.up)
      && (pub >= 7 ==> s.port == 0)
      && (pub == 8 ==> s.device == -1)
      && (pub >= 5 ==> clean > 0)
      && (pub >= 1 ==> s.gen !in s.committed)
      && (pu.ChPid? ==> pu.g == s.gen)
      && (pu.ChExit? ==> pu.g == s.gen && (clean == 0 ==> pu.o == p))
  }

  predicate UnpublishedOk(s: State) {
    Unpublished(s.client) ==>
      s.device == -1 && s.port == 0 && !s.up && s.identity.None? && s.gen !in s.committed && s.gen !in s.fate
      && PendingMonitor(Cur(s.mons, s.gen)).None?
  }

  /** The monitor either has not swapped AVAILABLE yet and will find it up, or has found it up. */
  predicate Serving(m: Mon, up: bool) {
    (CleanRank(m) < 4 && up) || (m.Owning? && m.own == MTake(true))
  }

  /** The values the holder has read so far. */
  predicate LocalsOk(c: Client, m: Mon, pid: nat, gen: nat, up: bool, identity: Option<Identity>) {
    c.Busy? ==>
      match c.pc
      case Retiring(re) => (
        match re
        case ReGen(p) => pid == 0 || pid == p
        case ReExit(p, _) => pid == 0 || pid == p
        case ReWait(p) => p != 0 && (pid == 0 || pid == p)
        case _ => true)
      case Stopping(_, _, st) => (st.StTake? ==> st.g == gen) && (st.StInvalidate? ==> identity.None?)
      case Killing(_, ki) => (ki.StPid? || pid == 0 || pid == ki.p) && identity.None?
      case Bumping => pid == 0
      case Committing(co) => (
        match co
        case CoPid(g) => g == gen
        case CoLock(g, _) => g == gen
        case CoUp(g, _, id) => g == gen && identity == Some(id)
        case CoExit(g, _, id) => g == gen && identity == Some(id) && Serving(m, up)
        case CoRecord(id) =>
          identity == Some(id) && Serving(m, up) && c.op.Commit? && Matches(c.op, id) && id.route.model == Some(c.op.model)
        case _ => true)
      case Return(value) => (c.op.Reuse? || c.op.Stop?) && !value ==> pid == 0
      case _ => true
  }

  /** Only a start goes through the handoff and publication, only a commit through its own steps. */
  predicate OpOk(c: Client) {
    c.Busy? ==>
      match c.pc
      case Stopping(_, after, _) => after.Respawn? ==> c.op.Start?
      case Killing(after, _) => after.Respawn? ==> c.op.Start?
      case Bumping => c.op.Start?
      case Spawning(_) => c.op.Start?
      case Publishing(_, _) => c.op.Start?
      case Committing(_) => c.op.Commit?
      case _ => true
  }

  /** A published identity that nobody is publishing, withdrawing or stopping is being served. */
  predicate ServedOk(c: Client, m: Mon, up: bool, identity: Option<Identity>) {
    identity.Some? && PubRank(c) == 0 && !StopWindow(c) ==> Serving(m, up)
  }

  predicate Survives(f: Fate) { f == Preserved || f == LostRace }

  /** An invalidation that has taken the identity and not written yet. */
  function PendingMonitor(m: Mon): Option<Identity> {
    if m.Owning? && m.own.MInvalidate? && m.own.wasUp then m.own.taken else None
  }

  function PendingStop(c: Client): Option<Identity> {
    if c.Busy? && c.pc.Stopping? && c.pc.st.StInvalidate? && c.pc.inv then c.pc.st.taken else None
  }

  predicate HasProof(proofs: map<Key, nat>, committed: map<nat, Key>, g: nat) {
    g in committed && committed[g] in proofs && proofs[committed[g]] == g
  }

  predicate KeyMatches(id: Option<Identity>, gen: nat, committed: map<nat, Key>, fate: map<nat, Fate>) {
    id.Some? ==> id.value.gen == gen && gen !in fate && (gen in committed ==> KeyOf(id.value) == Some(committed[gen]))
  }

  /** Where the proofs of each generation stand. */
  predicate ProofsOk(gen: nat, proofs: map<Key, nat>, committed: map<nat, Key>, fate: map<nat, Fate>) {
    && (forall g :: g in committed ==> g <= gen)
    && (forall g :: g in fate ==> g <= gen)
    && (forall k :: k in proofs ==> proofs[k] in committed && committed[proofs[k]] == k)
    && (forall k :: k in proofs && proofs[k] < gen ==> proofs[k] in fate && Survives(fate[proofs[k]]))
    && (gen in committed ==> (HasProof(proofs, committed, gen) <==> gen !in fate || Survives(fate[gen])))
  }

  /** At most one party holds the identity of the newest generation, and it decides the fate of its proofs. */
  predicate TakerOk(gen: nat, committed: map<nat, Key>, fate: map<nat, Fate>,
                    identity: Option<Identity>, byMonitor: Option<Identity>, byStop: Option<Identity>) {
    && KeyMatches(identity, gen, committed, fate)
    && KeyMatches(byMonitor, gen, committed, fate)
    && KeyMatches(byStop, gen, committed, fate)
    && (identity.None? || byMonitor.None?)
    && (identity.None? || byStop.None?)
    && (byMonitor.None? || byStop.None?)
    && (gen in committed && gen !in fate ==> identity.Some? || byMonitor.Some? || byStop.Some?)
  }

  /** A stop that preserves proofs has seen the child answer. */
  predicate AnsweredOk(c: Client, gen: nat, fate: map<nat, Fate>, answered: set<nat>) {
    && (c.Busy? && c.pc.Stopping? && !c.pc.inv ==> gen in answered)
    && (forall g :: g in fate && fate[g] == Preserved ==> g in answered)
  }

  predicate Inv(s: State) {
    var m := Cur(s.mons, s.gen);
    && Gens(s.gen, s.exiting, s.mons, s.live)
    && Pids(s.client, s.gen in s.mons, m, s.pid, s.exiting == s.gen, s.inbox)
    && Published(CleanRank(m), PubRank(s.client), s.device, s.port, s.up)
    && IdentityOk(s.identity, s.gen, m, PubRank(s.client))
    && StartOk(s, m, CleanRank(m), PubRank(s.client))
    && UnpublishedOk(s)
    && LocalsOk(s.client, m, s.pid, s.gen, s.up, s.identity)
    && OpOk(s.client)
    && ServedOk(s.client, m, s.up, s.identity)
    && ProofsOk(s.gen, s.proofs, s.committed, s.fate)
    && TakerOk(s.gen, s.committed, s.fate, s.identity, PendingMonitor(m), PendingStop(s.client))
    && AnsweredOk(s.client, s.gen, s.fate, s.answered)
  }

  // ----- every step keeps it -----

  lemma InitInv()
    ensures Inv(INIT)
  {}

  lemma FewerLiveKeeps(s: State, live: set<nat>)
    requires Inv(s) && live <= s.live
    ensures Inv(s.(live := live))
  {}

  lemma ChildExitKeeps(s: State, g: nat)
    requires Inv(s) && Enabled(s, ChildExit(g))
    ensures Inv(Apply(s, ChildExit(g)))
  {
    FewerLiveKeeps(s, s.live - {g});
  }

  lemma AcquireKeeps(s: State, op: Op)
    requires Inv(s) && Enabled(s, Acquire(op))
    ensures Inv(Apply(s, Acquire(op)))
  {}

  lemma AvailableKeeps(s: State, choice: bool)
    requires Inv(s) && ClientReady(s, choice) && s.client.pc.Checking?
    ensures Inv(ClientNext(s, choice))
  {}

  /** Program points between which the holder only moves: nothing is published, handed over or pending. */
  predicate Plain(pc: Pc) {
    pc.Checking? || pc.Retiring? || pc.Killing? || pc.Bumping? || pc.Committing? || pc.Return?
    || (pc.Stopping? && pc.st.StUp?)
  }

  lemma MoveKeeps(s: State, pc: Pc)
    requires Inv(s) && s.client.Busy? && Plain(s.client.pc) && Plain(pc)
    requires LocalsOk(Busy(s.client.op, pc), Cur(s.mons, s.gen), s.pid, s.gen, s.up, s.identity)
    requires OpOk(Busy(s.client.op, pc))
    requires pc.Stopping? && !pc.inv ==> s.gen in s.answered
    ensures Inv(Goto(s, pc))
  {}

  lemma RetireKeeps(s: State, choice: bool)
    requires Inv(s) && ClientReady(s, choice) && s.client.pc.Retiring?
    ensures Inv(ClientNext(s, choice))
  {
    var re := s.client.pc.re;
    var t := if Answers(s, re, choice) then s.(answered := s.answered + {s.gen}) else s;
    assert Inv(t);
    MoveKeeps(t, RetireStep(s, s.client.op, re, choice));
  }

  lemma StopUpKeeps(s: State, choice: bool)
    requires Inv(s) && ClientReady(s, choice) && s.client.pc.Stopping? && s.client.pc.st == StUp
    ensures Inv(ClientNext(s, choice))
  {}

  lemma StopPortKeeps(s: State, choice: bool)
    requires Inv(s) && ClientReady(s, choice) && s.client.pc.Stopping? && s.client.pc.st == StPort
    ensures Inv(ClientNext(s, choice))
  {}

  lemma StopDeviceKeeps(s: State, choice: bool)
    requires Inv(s) && ClientReady(s, choice) && s.client.pc.Stopping? && s.client.pc.st == StDevice
    ensures Inv(ClientNext(s, choice))
  {}

  lemma StopGenKeeps(s: State, choice: bool)
    requires Inv(s) && ClientReady(s, choice) && s.client.pc.Stopping? && s.client.pc.st == StGen
    ensures Inv(ClientNext(s, choice))
  {}

  lemma StopTakeKeeps(s: State, choice: bool)
    requires Inv(s) && ClientReady(s, choice) && s.client.pc.Stopping? && s.client.pc.st.StTake?
    ensures Inv(ClientNext(s, choice))
  {}

  lemma InvalidateKeepsProofs(gen: nat, proofs: map<Key, nat>, committed: map<nat, Key>, fate: map<nat, Fate>, id: Identity)
    requires ProofsOk(gen, proofs, committed, fate) && KeyMatches(Some(id), gen, committed, fate)
    ensures ProofsOk(gen, Invalidate(proofs, id), committed, fate[gen := Invalidated])
  {}

  lemma StopInvalidateKeeps(s: State, choice: bool)
    requires Inv(s) && ClientReady(s, choice) && s.client.pc.Stopping? && s.client.pc.st.StInvalidate?
    ensures Inv(ClientNext(s, choice))
  {
    var id := PendingStop(s.client);
    if id.Some? {
      InvalidateKeepsProofs(s.gen, s.proofs, s.committed, s.fate, id.value);
    }
  }

  lemma KillKeeps(s: State, choice: bool)
    requires Inv(s) && ClientReady(s, choice) && s.client.pc.Killing? && !s.client.pc.ki.StKill?
    ensures Inv(ClientNext(s, choice))
  {
    var ki, k := s.client.pc.ki, s.client.pc.after;
    match ki
    case StPid => MoveKeeps(s, Killing(k, StKill(s.pid)));
    case StWait(p) => if p == 0 || s.pid != p { MoveKeeps(s, Continue(k)); }
  }

  lemma SignalKeeps(s: State, choice: bool)
    requires Inv(s) && ClientReady(s, choice) && s.client.pc.Killing? && s.client.pc.ki.StKill?
    ensures Inv(ClientNext(s, choice))
  {
    var p := s.client.pc.ki.p;
    var live := if p == 0 then s.live else set g | g in s.live && !(g in s.mons && ChildPid(s.mons[g]) == p);
    FewerLiveKeeps(s, live);
    MoveKeeps(s.(live := live), Killing(s.client.pc.after, StWait(p)));
  }

  lemma BumpKeeps(s: State, choice: bool)
    requires Inv(s) && ClientReady(s, choice) && s.client.pc.Bumping?
    ensures Inv(ClientNext(s, choice))
  {}

  lemma RecvKeeps(s: State, choice: bool)
    requires Inv(s) && ClientReady(s, choice) && s.client.pc == Spawning(SpRecv)
    ensures Inv(ClientNext(s, choice))
  {}

  lemma StorePidKeeps(s: State, choice: bool)
    requires Inv(s) && ClientReady(s, choice) && s.client.pc.Spawning? && s.client.pc.sp.SpStorePid?
    ensures Inv(ClientNext(s, choice))
  {}

  lemma AckFailedKeeps(s: State, choice: bool)
    requires Inv(s) && ClientReady(s, choice) && s.client.pc.Spawning? && (s.client.pc.sp.SpAckWait? || s.client.pc.sp.SpClear?)
    ensures Inv(ClientNext(s, choice))
  {}

  lemma DropKeeps(s: State, choice: bool)
    requires Inv(s) && ClientReady(s, choice) && s.client.pc.Spawning? && (s.client.pc.sp.SpDrop? || s.client.pc.sp.SpDropWait?)
    ensures Inv(ClientNext(s, choice))
  {}

  lemma AckKeeps(s: State, choice: bool)
    requires Inv(s) && ClientReady(s, choice) && s.client.pc.Spawning? && s.client.pc.sp.SpAck?
    ensures Inv(ClientNext(s, choice))
  {}

  lemma HealthKeeps(s: State, choice: bool)
    requires Inv(s) && ClientReady(s, choice) && s.client.pc.Publishing?
    requires s.client.pc.pu.HePoll? || s.client.pc.pu.HeProbe? || s.client.pc.pu.PuIdentity?
    ensures Inv(ClientNext(s, choice))
  {}

  lemma PublishDeviceKeeps(s: State, choice: bool)
    requires Inv(s) && ClientReady(s, choice) && s.client.pc.Publishing? && s.client.pc.pu == PuDevice
    ensures Inv(ClientNext(s, choice))
  {}

  lemma PublishUpKeeps(s: State, choice: bool)
    requires Inv(s) && ClientReady(s, choice) && s.client.pc.Publishing? && s.client.pc.pu == PuUp
    ensures Inv(ClientNext(s, choice))
  {}

  lemma PublishPortKeeps(s: State, choice: bool)
    requires Inv(s) && ClientReady(s, choice) && s.client.pc.Publishing? && s.client.pc.pu == PuPort
    ensures Inv(ClientNext(s, choice))
  {}

  lemma CheckReadKeeps(s: State, choice: bool)
    requires Inv(s) && ClientReady(s, choice) && s.client.pc.Publishing? && (s.client.pc.pu.ChGen? || s.client.pc.pu.ChPid?)
    ensures Inv(ClientNext(s, choice))
  {}

  lemma CheckOwnerKeeps(s: State, choice: bool)
    requires Inv(s) && ClientReady(s, choice) && s.client.pc.Publishing? && s.client.pc.pu.ChExit?
    ensures Inv(ClientNext(s, choice))
  {}

  lemma WithdrawUpKeeps(s: State, choice: bool)
    requires Inv(s) && ClientReady(s, choice) && s.client.pc.Publishing? && s.client.pc.pu == WdUp
    ensures Inv(ClientNext(s, choice))
  {}

  lemma WithdrawPortKeeps(s: State, choice: bool)
    requires Inv(s) && ClientReady(s, choice) && s.client.pc.Publishing? && s.client.pc.pu == WdPort
    ensures Inv(ClientNext(s, choice))
  {}

  lemma WithdrawDeviceKeeps(s: State, choice: bool)
    requires Inv(s) && ClientReady(s, choice) && s.client.pc.Publishing? && s.client.pc.pu == WdDevice
    ensures Inv(ClientNext(s, choice))
  {}

  lemma WithdrawTakeKeeps(s: State, choice: bool)
    requires Inv(s) && ClientReady(s, choice) && s.client.pc.Publishing? && s.client.pc.pu == WdTake
    ensures Inv(ClientNext(s, choice))
  {}

  lemma CommitReadKeeps(s: State, choice: bool)
    requires Inv(s) && ClientReady(s, choice) && s.client.pc.Committing? && !s.client.pc.co.CoRecord?
    ensures Inv(ClientNext(s, choice))
  {
    var op := s.client.op;
    match s.client.pc.co
    case CoGen => MoveKeeps(s, Committing(CoPid(s.gen)));
    case CoPid(g) => MoveKeeps(s, Committing(CoLock(g, s.pid)));
    case CoLock(g, p) =>
      MoveKeeps(s, if s.identity.Some? then Committing(CoUp(g, p, s.identity.value)) else Return(false));
    case CoUp(g, p, id) => MoveKeeps(s, if s.up then Committing(CoExit(g, p, id)) else Return(false));
    case CoExit(g, p, id) =>
      MoveKeeps(s, if s.exiting != g && ExactOwner(id.gen, id.pid, g, p) && Matches(op, id)
                      && id.route.model == Some(op.model)
                   then Committing(CoRecord(id)) else Return(false));
  }

  lemma CommitRecordKeeps(s: State, choice: bool)
    requires Inv(s) && ClientReady(s, choice) && s.client.pc.Committing? && s.client.pc.co.CoRecord?
    ensures Inv(ClientNext(s, choice))
  {
    RecordKeeps(s, s.client.pc.co.id);
    MoveKeeps(ClientNext(s, choice).(client := s.client), Return(true));
  }

  lemma RecordKeeps(s: State, id: Identity)
    requires Inv(s) && s.client.Busy? && s.client.op.Commit? && s.client.pc == Committing(CoRecord(id))
    ensures Inv(s.(proofs := s.proofs[Key(s.client.op.model, s.client.op.gpu) := id.gen],
                   committed := s.committed[id.gen := Key(s.client.op.model, s.client.op.gpu)]))
  {}

  lemma ReturnKeeps(s: State, choice: bool)
    requires Inv(s) && ClientReady(s, choice) && s.client.pc.Return?
    ensures Inv(ClientNext(s, choice))
  {}

  /** Only the monitor of the newest generation has a step left. */
  lemma OnlyNewest(s: State, g: nat, newPid: nat)
    requires Inv(s) && MonReady(s, g, newPid)
    ensures g == s.gen && Cur(s.mons, s.gen) == s.mons[g]
  {}

  lemma HandSpawningKeeps(s: State, g: nat, choice: bool, newPid: nat)
    requires Inv(s) && MonReady(s, g, newPid) && s.mons[g].Handing? && s.mons[g].h.MSpawning?
    ensures Inv(MonNext(s, g, choice, newPid))
  {
    OnlyNewest(s, g, newPid);
  }

  lemma HandSendingKeeps(s: State, g: nat, choice: bool, newPid: nat)
    requires Inv(s) && MonReady(s, g, newPid) && s.mons[g].Handing? && s.mons[g].h.MSending?
    ensures Inv(MonNext(s, g, choice, newPid))
  {
    OnlyNewest(s, g, newPid);
  }

  lemma HandAwaitAckKeeps(s: State, g: nat, choice: bool, newPid: nat)
    requires Inv(s) && MonReady(s, g, newPid) && s.mons[g].Handing? && s.mons[g].h.MAwaitAck?
    ensures Inv(MonNext(s, g, choice, newPid))
  {
    OnlyNewest(s, g, newPid);
  }

  lemma HandKillKeeps(s: State, g: nat, choice: bool, newPid: nat)
    requires Inv(s) && MonReady(s, g, newPid) && s.mons[g].Handing? && s.mons[g].h.MKill?
    ensures Inv(MonNext(s, g, choice, newPid))
  {
    OnlyNewest(s, g, newPid);
  }

  lemma HandReapKeeps(s: State, g: nat, choice: bool, newPid: nat)
    requires Inv(s) && MonReady(s, g, newPid) && s.mons[g].Handing? && s.mons[g].h.MReap?
    ensures Inv(MonNext(s, g, choice, newPid))
  {
    OnlyNewest(s, g, newPid);
  }

  lemma HandReapedKeeps(s: State, g: nat, choice: bool, newPid: nat)
    requires Inv(s) && MonReady(s, g, newPid) && s.mons[g].Handing? && s.mons[g].h.MReaped?
    ensures Inv(MonNext(s, g, choice, newPid))
  {
    OnlyNewest(s, g, newPid);
  }

  lemma HandSendErrKeeps(s: State, g: nat, choice: bool, newPid: nat)
    requires Inv(s) && MonReady(s, g, newPid) && s.mons[g].Handing? && s.mons[g].h.MSendErr?
    ensures Inv(MonNext(s, g, choice, newPid))
  {
    OnlyNewest(s, g, newPid);
  }

  lemma OwnWaitingKeeps(s: State, g: nat, choice: bool, newPid: nat)
    requires Inv(s) && MonReady(s, g, newPid) && s.mons[g].Owning? && s.mons[g].own == MWaiting
    ensures Inv(MonNext(s, g, choice, newPid))
  {
    OnlyNewest(s, g, newPid);
  }

  lemma OwnCheckGenKeeps(s: State, g: nat, choice: bool, newPid: nat)
    requires Inv(s) && MonReady(s, g, newPid) && s.mons[g].Owning? && s.mons[g].own == MCheckGen
    ensures Inv(MonNext(s, g, choice, newPid))
  {
    OnlyNewest(s, g, newPid);
  }

  lemma OwnCheckPidKeeps(s: State, g: nat, choice: bool, newPid: nat)
    requires Inv(s) && MonReady(s, g, newPid) && s.mons[g].Owning? && s.mons[g].own == MCheckPid
    ensures Inv(MonNext(s, g, choice, newPid))
  {
    OnlyNewest(s, g, newPid);
  }

  lemma OwnMarkKeeps(s: State, g: nat, choice: bool, newPid: nat)
    requires Inv(s) && MonReady(s, g, newPid) && s.mons[g].Owning? && s.mons[g].own == MMark
    ensures Inv(MonNext(s, g, choice, newPid))
  {
    OnlyNewest(s, g, newPid);
  }

  lemma OwnDeviceKeeps(s: State, g: nat, choice: bool, newPid: nat)
    requires Inv(s) && MonReady(s, g, newPid) && s.mons[g].Owning? && s.mons[g].own == MDevice
    ensures Inv(MonNext(s, g, choice, newPid))
  {
    OnlyNewest(s, g, newPid);
  }

  lemma OwnPortKeeps(s: State, g: nat, choice: bool, newPid: nat)
    requires Inv(s) && MonReady(s, g, newPid) && s.mons[g].Owning? && s.mons[g].own == MPort
    ensures Inv(MonNext(s, g, choice, newPid))
  {
    OnlyNewest(s, g, newPid);
  }

  lemma OwnSwapKeeps(s: State, g: nat, choice: bool, newPid: nat)
    requires Inv(s) && MonReady(s, g, newPid) && s.mons[g].Owning? && s.mons[g].own == MSwap
    ensures Inv(MonNext(s, g, choice, newPid))
  {
    OnlyNewest(s, g, newPid);
  }

  lemma OwnTakeKeeps(s: State, g: nat, choice: bool, newPid: nat)
    requires Inv(s) && MonReady(s, g, newPid) && s.mons[g].Owning? && s.mons[g].own.MTake?
    ensures Inv(MonNext(s, g, choice, newPid))
  {
    OnlyNewest(s, g, newPid);
    if s.identity.None? { TakeNothingKeeps(s, g); } else { TakeIdentityKeeps(s, g); }
  }

  lemma TakeNothingKeeps(s: State, g: nat)
    requires Inv(s) && g == s.gen && g in s.mons && s.mons[g].Owning? && s.mons[g].own.MTake? && s.identity.None?
    ensures Inv(OwnStep(s, g, s.mons[g].pid, s.mons[g].own))
  {}

  lemma TakeIdentityKeeps(s: State, g: nat)
    requires Inv(s) && g == s.gen && g in s.mons && s.mons[g].Owning? && s.mons[g].own.MTake? && s.identity.Some?
    requires !IdentityLocked(s.client)
    ensures Inv(OwnStep(s, g, s.mons[g].pid, s.mons[g].own))
  {}

  lemma OwnInvalidateKeeps(s: State, g: nat, choice: bool, newPid: nat)
    requires Inv(s) && MonReady(s, g, newPid) && s.mons[g].Owning? && s.mons[g].own.MInvalidate?
    ensures Inv(MonNext(s, g, choice, newPid))
  {
    OnlyNewest(s, g, newPid);
    if PendingMonitor(s.mons[g]).Some? { InvalidatePendingKeeps(s, g); } else { InvalidateNothingKeeps(s, g); }
  }

  lemma InvalidatePendingKeeps(s: State, g: nat)
    requires Inv(s) && g == s.gen && g in s.mons && PendingMonitor(s.mons[g]).Some?
    ensures Inv(OwnStep(s, g, s.mons[g].pid, s.mons[g].own))
  {
    InvalidateKeepsProofs(s.gen, s.proofs, s.committed, s.fate, PendingMonitor(s.mons[g]).value);
  }

  lemma InvalidateNothingKeeps(s: State, g: nat)
    requires Inv(s) && g == s.gen && g in s.mons && s.mons[g].Owning? && s.mons[g].own.MInvalidate?
    requires PendingMonitor(s.mons[g]).None?
    ensures Inv(OwnStep(s, g, s.mons[g].pid, s.mons[g].own))
  {}

  lemma OwnReleaseKeeps(s: State, g: nat, choice: bool, newPid: nat)
    requires Inv(s) && MonReady(s, g, newPid) && s.mons[g].Owning? && s.mons[g].own.MRelease?
    ensures Inv(MonNext(s, g, choice, newPid))
  {
    OnlyNewest(s, g, newPid);
  }

  lemma StopKeeps(s: State, choice: bool)
    requires Inv(s) && ClientReady(s, choice) && s.client.pc.Stopping?
    ensures Inv(ClientNext(s, choice))
  {
    match s.client.pc.st
    case StUp => StopUpKeeps(s, choice);
    case StPort => StopPortKeeps(s, choice);
    case StDevice => StopDeviceKeeps(s, choice);
    case StGen => StopGenKeeps(s, choice);
    case StTake(_) => StopTakeKeeps(s, choice);
    case StInvalidate(_) => StopInvalidateKeeps(s, choice);
  }

  lemma SpawnKeeps(s: State, choice: bool)
    requires Inv(s) && ClientReady(s, choice) && s.client.pc.Spawning?
    ensures Inv(ClientNext(s, choice))
  {
    match s.client.pc.sp
    case SpRecv => RecvKeeps(s, choice);
    case SpStorePid(_) => StorePidKeeps(s, choice);
    case SpAck(_) => AckKeeps(s, choice);
    case SpAckWait(_) => AckFailedKeeps(s, choice);
    case SpClear(_) => AckFailedKeeps(s, choice);
    case SpDrop => DropKeeps(s, choice);
    case SpDropWait => DropKeeps(s, choice);
  }

  lemma PublishKeeps(s: State, choice: bool)
    requires Inv(s) && ClientReady(s, choice) && s.client.pc.Publishing?
    ensures Inv(ClientNext(s, choice))
  {
    match s.client.pc.pu
    case PuDevice => PublishDeviceKeeps(s, choice);
    case PuUp => PublishUpKeeps(s, choice);
    case PuPort => PublishPortKeeps(s, choice);
    case ChGen => CheckReadKeeps(s, choice);
    case ChPid(_) => CheckReadKeeps(s, choice);
    case ChExit(_, _) => CheckOwnerKeeps(s, choice);
    case WdUp => WithdrawUpKeeps(s, choice);
    case WdPort => WithdrawPortKeeps(s, choice);
    case WdDevice => WithdrawDeviceKeeps(s, choice);
    case WdTake => WithdrawTakeKeeps(s, choice);
    case _ => HealthKeeps(s, choice);
  }

  lemma ClientKeeps(s: State, choice: bool)
    requires Inv(s) && ClientReady(s, choice)
    ensures Inv(ClientNext(s, choice))
  {
    match s.client.pc
    case Checking(_) => AvailableKeeps(s, choice);
    case Retiring(_) => RetireKeeps(s, choice);
    case Stopping(_, _, _) => StopKeeps(s, choice);
    case Killing(_, ki) => if ki.StKill? { SignalKeeps(s, choice); } else { KillKeeps(s, choice); }
    case Bumping => BumpKeeps(s, choice);
    case Spawning(_) => SpawnKeeps(s, choice);
    case Publishing(_, _) => PublishKeeps(s, choice);
    case Committing(co) => if co.CoRecord? { CommitRecordKeeps(s, choice); } else { CommitReadKeeps(s, choice); }
    case Return(_) => ReturnKeeps(s, choice);
  }

  lemma MonitorKeeps(s: State, g: nat, choice: bool, newPid: nat)
    requires Inv(s) && MonReady(s, g, newPid)
    ensures Inv(MonNext(s, g, choice, newPid))
  {
    match s.mons[g]
    case Handing(h) => {
      match h
      case MSpawning => HandSpawningKeeps(s, g, choice, newPid);
      case MSending(_) => HandSendingKeeps(s, g, choice, newPid);
      case MAwaitAck(_) => HandAwaitAckKeeps(s, g, choice, newPid);
      case MKill(_) => HandKillKeeps(s, g, choice, newPid);
      case MReap(_) => HandReapKeeps(s, g, choice, newPid);
      case MReaped => HandReapedKeeps(s, g, choice, newPid);
      case MSendErr => HandSendErrKeeps(s, g, choice, newPid);
    }
    case Owning(_, own) => {
      match own
      case MWaiting => OwnWaitingKeeps(s, g, choice, newPid);
      case MCheckGen => OwnCheckGenKeeps(s, g, choice, newPid);
      case MCheckPid => OwnCheckPidKeeps(s, g, choice, newPid);
      case MMark => OwnMarkKeeps(s, g, choice, newPid);
      case MDevice => OwnDeviceKeeps(s, g, choice, newPid);
      case MPort => OwnPortKeeps(s, g, choice, newPid);
      case MSwap => OwnSwapKeeps(s, g, choice, newPid);
      case MTake(_) => OwnTakeKeeps(s, g, choice, newPid);
      case MInvalidate(_, _) => OwnInvalidateKeeps(s, g, choice, newPid);
      case MRelease => OwnReleaseKeeps(s, g, choice, newPid);
    }
  }

  lemma StepKeeps(s: State, a: Action)
    requires Inv(s) && Enabled(s, a)
    ensures Inv(Apply(s, a))
  {
    match a
    case Acquire(op) => AcquireKeeps(s, op);
    case ClientStep(choice) => ClientKeeps(s, choice);
    case MonStep(g, choice, newPid) => MonitorKeeps(s, g, choice, newPid);
    case ChildExit(g) => ChildExitKeeps(s, g);
  }

  lemma {:induction false} RunKeeps(s: State, run: seq<Action>)
    requires Inv(s) && IsRun(s, run)
    ensures Inv(EndOf(s, run))
    decreases run
  {
    if run != [] {
      StepKeeps(s, run[0]);
      RunKeeps(Apply(s, run[0]), run[1..]);
    }
  }
}

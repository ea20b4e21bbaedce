/** What the lifecycle protocol guarantees in every reachable state, and one run where it falls short. */
module ServerLifecycleTheorems {
  import opened Wrappers
  import opened ServerLifecycle
  import opened ServerLifecycleSafety

  ghost predicate Reachable(s: State) {
    exists run :: IsRun(INIT, run) && EndOf(INIT, run) == s
  }

  lemma ReachableInv(s: State)
    requires Reachable(s)
    ensures Inv(s)
  {
    var run :| IsRun(INIT, run) && EndOf(INIT, run) == s;
    InitInv();
    RunKeeps(INIT, run);
  }

  /** In every interleaving at most one llama-server child is alive, and it is the newest one. */
  lemma AtMostOneChild(s: State, g: nat, h: nat)
    requires Reachable(s) && g in s.live && h in s.live
    ensures g == h == s.gen
  {
    ReachableInv(s);
  }

  /**
   While the lifecycle mutex is free, SERVER_PID zero means that no child runs, that every monitor
   ever started is finished, and that nothing is advertised.
   */
  lemma PidZeroMeansUnowned(s: State)
    requires Reachable(s) && s.client.Idle? && s.pid == 0
    ensures s.live == {}
    ensures forall g :: g in s.mons ==> s.mons[g] == MDone
    ensures !s.up && s.port == 0 && s.device == -1 && s.identity.None?
  {
    ReachableInv(s);
    forall g | g in s.mons
      ensures s.mons[g] == MDone
    {
      assert g == s.gen ==> Cur(s.mons, s.gen) == s.mons[g];
    }
  }

  /** A `false` from reuse_exact_or_stop, and any return from stop, happens with the GPU unowned. */
  lemma ReuseFalseMeansUnowned(s: State)
    requires Reachable(s) && s.client.Busy? && s.client.pc == Return(false)
    requires s.client.op.Reuse? || s.client.op.Stop?
    ensures s.pid == 0 && s.live == {} && !s.up && s.identity.None?
    ensures forall g :: g in s.mons ==> s.mons[g] == MDone
  {
    ReachableInv(s);
    forall g | g in s.mons
      ensures s.mons[g] == MDone
    {
      assert g == s.gen ==> Cur(s.mons, s.gen) == s.mons[g];
    }
  }

  /** The identity on record is a server for exactly this model file on this card, owned by child `p` of generation `g`. */
  predicate ServesFor(identity: Option<Identity>, gguf: nat, gpu: nat, g: nat, p: nat) {
    && identity.Some? && identity.value.route.gguf == gguf && identity.value.route.gpu == gpu
    && identity.value.gen == g && identity.value.pid == p && p != 0
  }

  /**
   The last read of available_for answers true exactly when the published server was launched for this model file on
   this card by the generation and child just read; that is then the newest generation, and anything else is retired.
   */
  lemma AvailableIff(s: State, choice: bool)
    requires Reachable(s) && s.client.Busy? && s.client.pc.Checking? && s.client.pc.av.AvIdentity?
    requires s.client.op.Reuse? || s.client.op.Start?
    ensures var next, av, op := ClientNext(s, choice).client.pc, s.client.pc.av, s.client.op;
            && (op.Reuse? ==> (next == Return(true) <==> ServesFor(s.identity, op.gguf, op.gpu, av.g, av.p)))
            && (op.Start? ==> (next == Return(true) <==> ServesFor(s.identity, op.route.gguf, op.route.gpu, av.g, av.p)))
            && (next == Return(true) ==> av.g == s.gen)
            && (next != Return(true) ==> next == Retiring(RePid))
  {
    ReachableInv(s);
  }

  /** Where the reads of available_for lead when nobody else moves. */
  function Decides(s: State, op: Op, pc: Pc, left: nat): Pc
    decreases left
  {
    if left == 0 || !pc.Checking? then pc else Decides(s, op, AvailableStep(s, op, pc.av, false), left - 1)
  }

  /** Undisturbed, the seven reads are one test of the shared state. */
  lemma AvailableAlone(s: State, op: Op)
    requires op.Reuse? || op.Start?
    ensures var gguf, gpu := if op.Reuse? then op.gguf else op.route.gguf, if op.Reuse? then op.gpu else op.route.gpu;
            Decides(s, op, FirstPc(op), 7)
            == if s.up && s.exiting != s.gen && ServesFor(s.identity, gguf, gpu, s.gen, s.pid) then Return(true) else Retiring(RePid)
  {
    var g := s.gen;
    hide Decides;
    Read(s, op, AvGen, 6);
    Read(s, op, AvUp(g), 5);
    if s.up {
      Read(s, op, AvPid(g), 4);
      if s.pid != 0 {
        Read(s, op, AvExit(g), 3);
        Read(s, op, AvGen2, 2);
        Read(s, op, AvPid2(g), 1);
        Read(s, op, AvIdentity(g, s.pid), 0);
      }
    }
  }

  lemma Read(s: State, op: Op, av: AvailablePc, left: nat)
    ensures var next := AvailableStep(s, op, av, false);
            && Decides(s, op, Checking(av), left + 1) == Decides(s, op, next, left)
            && (!next.Checking? || left == 0 ==> Decides(s, op, next, left) == next)
  {
    hide AvailableStep;
  }

  /**
   A success is committed exactly for the very route the server was launched for, and only while the child that was
   read still owns it and has not been marked as exiting.
   */
  lemma CommitIff(s: State, choice: bool)
    requires Reachable(s) && s.client.Busy? && s.client.op.Commit? && s.client.pc.Committing? && s.client.pc.co.CoExit?
    ensures var next, co, op := ClientNext(s, choice).client.pc, s.client.pc.co, s.client.op;
            && s.identity == Some(co.id)
            && (next == Committing(CoRecord(co.id)) <==>
                  && ServesFor(s.identity, op.gguf, op.gpu, co.g, co.p) && co.id.route.model == Some(op.model)
                  && s.exiting != s.gen)
            && (next != Committing(CoRecord(co.id)) ==> next == Return(false))
  {
    ReachableInv(s);
  }

  /** The proof is recorded under the model and card of the server that earned it, as that generation's. */
  lemma CommitRecords(s: State, choice: bool)
    requires Reachable(s) && s.client.Busy? && s.client.op.Commit? && s.client.pc.Committing? && s.client.pc.co.CoRecord?
    ensures s.identity.Some? && s.identity.value.gen == s.gen
    ensures KeyOf(s.identity.value) == Some(Key(s.client.op.model, s.client.op.gpu))
    ensures var t := ClientNext(s, choice);
            t.client.pc == Return(true) && t.proofs == s.proofs[Key(s.client.op.model, s.client.op.gpu) := s.gen]
  {
    ReachableInv(s);
  }

  /** A planned replacement goes on to a stop that keeps the server's proofs exactly when the server answers its probe. */
  lemma AnsweredIsPreserved(s: State, choice: bool)
    requires s.client.Busy? && s.client.pc.Retiring? && s.client.pc.re.PrProbe?
    ensures var next := ClientNext(s, choice).client.pc;
            && next.Stopping? && next.st == StUp
            && (!next.inv <==> choice && s.client.pc.re.port != 0 && s.gen in s.live)
  {
    hide ClientNext;
    Retires(s, choice);
  }

  lemma Retires(s: State, choice: bool)
    requires s.client.Busy? && s.client.pc.Retiring?
    ensures ClientNext(s, choice).client == s.client.(pc := RetireStep(s, s.client.op, s.client.pc.re, choice))
  {
    hide RetireStep, Answers, StopStep, KillStep, BumpStep, SpawnStep, PublishStep, CommitStep, AvailableStep, SpawnReady;
  }

  /** Where the reads before a replacement lead when nobody else moves. */
  function Replaces(s: State, op: Op, pc: Pc, left: nat): Pc
    decreases left
  {
    if left == 0 || !pc.Retiring? then pc else Replaces(s, op, RetireStep(s, op, pc.re, false), left - 1)
  }

  lemma ReplaceRead(s: State, op: Op, re: RetirePc, left: nat)
    ensures var next := RetireStep(s, op, re, false);
            && Replaces(s, op, Retiring(re), left + 1) == Replaces(s, op, next, left)
            && (!next.Retiring? || left == 0 ==> Replaces(s, op, next, left) == next)
  {
    hide RetireStep;
  }

  /**
   Undisturbed, a replacement finds nothing to do without a child, waits for the monitor of a child that is marked as
   exiting, probes the child that owns the advertised server, and stops any other child without regard for its proofs.
   */
  lemma ReplaceAlone(s: State, op: Op)
    ensures s.pid == 0 ==> Replaces(s, op, Retiring(RePid), 3) == (if op.Start? then Bumping else Return(false))
    ensures s.pid != 0 && s.exiting == s.gen ==> Replaces(s, op, Retiring(RePid), 3) == Retiring(ReWait(s.pid))
    ensures s.pid != 0 && s.exiting != s.gen ==>
              var decision := Replaces(s, op, Retiring(RePid), 9);
              if s.up && s.identity.Some? && s.identity.value.gen == s.gen && s.identity.value.pid == s.pid
              then decision == Retiring(PrProbe(s.port))
              else decision == Stopping(true, if op.Start? then Respawn else Finish, StUp)
  {
    hide Replaces;
    var p, g := s.pid, s.gen;
    ReplaceRead(s, op, RePid, 2);
    ReplaceRead(s, op, ReGen(p), 1);
    ReplaceRead(s, op, ReExit(p, g), 0);
    ReplaceRead(s, op, RePid, 8);
    ReplaceRead(s, op, ReGen(p), 7);
    ReplaceRead(s, op, ReExit(p, g), 6);
    ReplaceRead(s, op, PrGen, 5);
    ReplaceRead(s, op, PrPid(g), 4);
    ReplaceRead(s, op, PrPort(g, p), 3);
    ReplaceRead(s, op, PrIdentity(g, p, s.port), 2);
    if s.identity.Some? {
      ReplaceRead(s, op, PrUp(g, p, s.port, s.identity.value), 1);
      ReplaceRead(s, op, PrExit(g, p, s.port, s.identity.value), 0);
    }
  }

  /** Where the reads of a commit lead when nobody else moves. */
  function Commits(s: State, op: Op, pc: Pc, left: nat): Pc
    requires op.Commit? && s.client.Busy?
    decreases left
  {
    if left == 0 || !pc.Committing? || pc.co.CoRecord? then pc
    else if CommitStep(s, op, pc.co).client.Busy? then Commits(s, op, CommitStep(s, op, pc.co).client.pc, left - 1) else pc
  }

  lemma CommitRead(s: State, op: Op, co: CommitPc, left: nat)
    requires op.Commit? && s.client.Busy? && !co.CoRecord?
    ensures var t := CommitStep(s, op, co);
            && t.client.Busy? && Commits(s, op, Committing(co), left + 1) == Commits(s, op, t.client.pc, left)
            && (!t.client.pc.Committing? || left == 0 ==> Commits(s, op, t.client.pc, left) == t.client.pc)
  {}

  /** Undisturbed, the reads of a commit are one test: the advertised, unmarked server is this very route's. */
  lemma CommitAlone(s: State, op: Op)
    requires op.Commit? && s.client.Busy?
    ensures var decision := Commits(s, op, Committing(CoGen), 5);
            if s.up && s.exiting != s.gen && ServesFor(s.identity, op.gguf, op.gpu, s.gen, s.pid)
               && s.identity.value.route.model == Some(op.model)
            then decision == Committing(CoRecord(s.identity.value)) else decision == Return(false)
  {
    hide Commits;
    var g, p := s.gen, s.pid;
    CommitRead(s, op, CoGen, 4);
    CommitRead(s, op, CoPid(g), 3);
    CommitRead(s, op, CoLock(g, p), 2);
    if s.identity.Some? {
      CommitRead(s, op, CoUp(g, p, s.identity.value), 1);
      CommitRead(s, op, CoExit(g, p, s.identity.value), 0);
    }
  }

  /**
   True is answered only by the last read of available_for, by the ownership check of a start, and by a recorded commit;
   every other end of an operation answers false.
   */
  lemma TrueOnly(s: State, choice: bool)
    requires ClientReady(s, choice) && !s.client.pc.Return?
    ensures ClientNext(s, choice).client.Busy?
    ensures ClientNext(s, choice).client.pc == Return(true) ==>
              || (s.client.pc.Checking? && s.client.pc.av.AvIdentity?)
              || (s.client.pc.Publishing? && s.client.pc.pu.ChExit?)
              || (s.client.pc.Committing? && s.client.pc.co.CoRecord?)
  {
    hide AvailableStep, RetireStep, StopStep, KillStep, BumpStep, SpawnStep, PublishStep, CommitStep, SpawnReady, Answers;
    var op := s.client.op;
    match s.client.pc
    case Checking(av) => CheckAnswers(s, op, av, choice);
    case Retiring(re) => RetireAnswers(s, op, re, choice);
    case Stopping(inv, k, st) => StopAnswers(s, inv, k, st);
    case Killing(k, ki) => KillAnswers(s, k, ki);
    case Bumping => BumpAnswers(s, choice);
    case Spawning(sp) => SpawnAnswers(s, sp, choice);
    case Publishing(p, pu) => PublishAnswers(s, op, p, pu, choice);
    case Committing(co) => CommitAnswers(s, op, co);
  }

  ghost predicate NotTrue(s: State) { s.client.Busy? && s.client.pc != Return(true) }

  lemma CheckAnswers(s: State, op: Op, av: AvailablePc, choice: bool)
    ensures AvailableStep(s, op, av, choice) == Return(true) ==> av.AvIdentity?
  {}

  lemma RetireAnswers(s: State, op: Op, re: RetirePc, choice: bool)
    ensures RetireStep(s, op, re, choice) != Return(true)
  {}

  lemma StopAnswers(s: State, inv: bool, k: After, st: StopPc)
    requires s.client.Busy?
    ensures NotTrue(StopStep(s, inv, k, st))
  {}

  lemma KillAnswers(s: State, k: After, ki: KillPc)
    requires s.client.Busy? && s.client.pc != Return(true)
    ensures NotTrue(KillStep(s, k, ki))
  {}

  lemma BumpAnswers(s: State, choice: bool)
    requires s.client.Busy?
    ensures NotTrue(BumpStep(s, choice))
  {}

  lemma SpawnAnswers(s: State, sp: SpawnPc, choice: bool)
    requires s.client.Busy? && SpawnReady(s, sp, choice)
    ensures NotTrue(SpawnStep(s, sp, choice))
  {}

  lemma PublishAnswers(s: State, op: Op, p: nat, pu: PublishPc, choice: bool)
    requires s.client.Busy? && op.Start?
    ensures PublishStep(s, op, p, pu, choice).client.Busy? && (pu.ChExit? || NotTrue(PublishStep(s, op, p, pu, choice)))
  {}

  lemma CommitAnswers(s: State, op: Op, co: CommitPc)
    requires s.client.Busy? && op.Commit?
    ensures CommitStep(s, op, co).client.Busy? && (co.CoRecord? || NotTrue(CommitStep(s, op, co)))
  {}

  /** A start gives up on a child that died before it was healthy. */
  lemma DeadStartFails(s: State, choice: bool)
    requires s.client.Busy? && s.client.op.Start? && s.client.pc.Publishing? && s.client.pc.pu.HePoll? && s.pid == 0
    ensures var next := ClientNext(s, choice).client.pc; next == Return(false) || next == Stopping(true, Finish, StUp)
  {
    hide StopStep, KillStep, RetireStep, BumpStep, SpawnStep, CommitStep, AvailableStep, SpawnReady;
  }

  /** A stop withdraws the advertisement, the port and the device, one after the other, before it looks for the identity. */
  lemma StopWithdraws(s: State, choice: bool)
    requires s.client.Busy? && s.client.pc.Stopping?
    ensures var t, st := ClientNext(s, choice), s.client.pc.st;
            && (st.StUp? ==> t.up == false && t.client.pc == s.client.pc.(st := StPort))
            && (st.StPort? ==> t.port == 0 && t.client.pc == s.client.pc.(st := StDevice))
            && (st.StDevice? ==> t.device == -1 && t.client.pc == s.client.pc.(st := StGen))
            && (st.StGen? ==> t.client.pc == s.client.pc.(st := StTake(s.gen)))
  {
    hide KillStep, RetireStep, BumpStep, SpawnStep, PublishStep, CommitStep, AvailableStep, SpawnReady;
  }

  /** A monitor that still owns the newest generation finds its child's process id published. */
  lemma OwnerIsPublished(s: State)
    requires Reachable(s) && s.gen in s.mons && s.mons[s.gen].Owning? && s.mons[s.gen].own.MCheckPid?
    ensures s.pid == s.mons[s.gen].pid
  {
    ReachableInv(s);
  }

  /** A stop ends the child whose process id it read, */
  lemma StopKills(s: State, choice: bool)
    requires s.client.Busy? && s.client.pc.Killing? && s.client.pc.ki.StKill? && s.client.pc.ki.p != 0
    ensures forall g :: g in s.live && g in s.mons && ChildPid(s.mons[g]) == s.client.pc.ki.p ==> g !in ClientNext(s, choice).live
    ensures forall g :: g in s.live && !(g in s.mons && ChildPid(s.mons[g]) == s.client.pc.ki.p) ==> g in ClientNext(s, choice).live
  {
    hide StopStep, RetireStep, BumpStep, SpawnStep, PublishStep, CommitStep, AvailableStep, SpawnReady;
  }

  /** and a monitor whose handoff was abandoned ends its own. */
  lemma AbandonedIsKilled(s: State, g: nat, choice: bool, newPid: nat)
    requires g in s.mons && s.mons[g].Handing? && s.mons[g].h.MKill?
    ensures MonReady(s, g, newPid) && MonNext(s, g, choice, newPid).live == s.live - {g}
  {}

  /** What a stop that took an identity does to the cache: nothing, or the one route, or the whole card. */
  lemma InvalidationScope(s: State, choice: bool, k: Key)
    requires s.client.Busy? && s.client.pc.Stopping? && s.client.pc.st.StInvalidate? && s.client.pc.st.taken.Some?
    ensures var id, t := s.client.pc.st.taken.value, ClientNext(s, choice);
            && (k in t.proofs <==> k in s.proofs && (s.client.pc.inv ==>
                  if id.route.model.Some? then k != Key(id.route.model.value, id.route.gpu) else k.gpu != id.route.gpu))
            && (k in t.proofs ==> t.proofs[k] == s.proofs[k])
  {
    hide KillStep, BumpStep, SpawnStep, PublishStep, CommitStep, AvailableStep, RetireStep;
  }

  /** A monitor of an older generation has no step left, so it cannot touch a newer server's state. */
  lemma LateMonitorIsSilent(s: State, g: nat, choice: bool, newPid: nat)
    requires Reachable(s) && g < s.gen
    ensures !Enabled(s, MonStep(g, choice, newPid))
  {
    ReachableInv(s);
  }

  /** Once the exited child is cleaned up and no publication is under way, nothing stays advertised. */
  lemma CleanupWins(s: State)
    requires Reachable(s) && Cur(s.mons, s.gen).MDone? && PubRank(s.client) == 0
    ensures !s.up && s.port == 0 && s.device == -1 && s.identity.None?
  {
    ReachableInv(s);
  }

  /**
   The ownership check of a start succeeds exactly when the monitor has not stored the exit mark;
   everything is then published for this very child, and the whole cleanup is still to come.
   */
  lemma PublishedIffBeforeMark(s: State, choice: bool)
    requires Reachable(s) && s.client.Busy? && s.client.op.Start? && s.client.pc.Publishing? && s.client.pc.pu.ChExit?
    ensures var next := ClientNext(s, choice).client.pc;
            var m := Cur(s.mons, s.gen);
            && (next == Return(true) <==> m.Owning? && CleanRank(m) == 0)
            && (next == Return(true) <==> s.exiting != s.gen)
            && (next == Return(true) ==>
                  && s.up && s.port == s.client.op.port && s.device == s.client.op.device
                  && s.identity == Some(Identity(s.client.op.route, s.gen, m.pid)) && s.pid == m.pid)
  {
    ReachableInv(s);
  }

  /**
   After the cleanup of the newest child, a proof it earned is still cached exactly when it committed
   one and its identity was taken either by a planned replacement or by a monitor that found
   AVAILABLE already lowered.
   */
  lemma ProofSurvivesIff(s: State)
    requires Reachable(s) && Cur(s.mons, s.gen).MDone? && PendingStop(s.client).None? && PubRank(s.client) == 0
    ensures HasProof(s.proofs, s.committed, s.gen)
            <==> s.gen in s.committed && s.gen in s.fate && (s.fate[s.gen] == Preserved || s.fate[s.gen] == LostRace)
  {
    ReachableInv(s);
  }

  /** A proof of an older generation is only ever left by one of those two outcomes. */
  lemma OldProofsWereLeft(s: State, k: Key)
    requires Reachable(s) && k in s.proofs && s.proofs[k] < s.gen
    ensures s.proofs[k] in s.fate && (s.fate[s.proofs[k]] == Preserved || s.fate[s.proofs[k]] == LostRace)
  {
    ReachableInv(s);
  }

  /** A planned replacement preserves proofs only of a child that answered its authenticated probe. */
  lemma PreservedOnlyIfAnswered(s: State, g: nat)
    requires Reachable(s) && g in s.fate && s.fate[g] == Preserved
    ensures g in s.answered
  {
    ReachableInv(s);
  }

  /**
   Where the promise breaks: a monitor that takes the identity of a child with a cached proof leaves
   the proof behind exactly when it found AVAILABLE lowered, and that takes a stop which has lowered
   AVAILABLE and not taken the identity yet.
   */
  lemma LostRaceIff(s: State, choice: bool, newPid: nat)
    requires Reachable(s) && MonReady(s, s.gen, newPid)
    requires s.mons[s.gen].Owning? && s.mons[s.gen].own.MTake? && s.identity.Some?
    requires HasProof(s.proofs, s.committed, s.gen)
    ensures var t := MonNext(s, s.gen, choice, newPid);
            && (s.gen in t.fate && t.fate[s.gen] == LostRace <==> !s.mons[s.gen].own.wasUp)
            && (PendingMonitor(t.mons[s.gen]).Some? <==> s.mons[s.gen].own.wasUp)
    ensures !s.mons[s.gen].own.wasUp ==> StopWindow(s.client)
  {
    ReachableInv(s);
  }

  // ----- a run that loses the race -----

  lemma Extend(s: State, a: Action) returns (t: State)
    requires Reachable(s) && Enabled(s, a)
    ensures t == Apply(s, a) && Reachable(t)
  {
    t := Apply(s, a);
    var run :| IsRun(INIT, run) && EndOf(INIT, run) == s;
    Append(INIT, run, a);
    assert IsRun(INIT, run + [a]) && EndOf(INIT, run + [a]) == t;
  }

  lemma {:induction false} Append(s: State, run: seq<Action>, a: Action)
    requires IsRun(s, run) && Enabled(EndOf(s, run), a)
    ensures IsRun(s, run + [a]) && EndOf(s, run + [a]) == Apply(EndOf(s, run), a)
    decreases run
  {
    if run == [] {
      assert [] + [a] == [a];
      assert [a][1..] == [];
    } else {
      Append(Apply(s, run[0]), run[1..], a);
      assert (run + [a])[1..] == run[1..] + [a];
    }
  }

  const ROUTE := Route(0, Some(7), 1)
  const SERVER := Identity(ROUTE, 1, 42)
  const UP := State(true, 80, 0, 42, 1, 0, Some(SERVER), Idle, map[1 := Owning(42, MWaiting)],
                    Inbox(true, Some(Spawned(42))), {1}, map[], map[], {}, map[])

  /** One uninterrupted start reaches the published server. */
  lemma ServerUp()
    ensures Reachable(UP)
  {
    var op := Start(ROUTE, 80, 0);
    assert IsRun(INIT, []) && EndOf(INIT, []) == INIT;
    var s := Extend(INIT, Acquire(op));
    s := Extend(s, ClientStep(false));
    s := Extend(s, ClientStep(false));
    assert s == INIT.(client := Busy(op, Retiring(RePid)));
    s := Extend(s, ClientStep(false));
    s := Extend(s, ClientStep(false));
    s := Extend(s, ClientStep(false));
    assert s == INIT.(client := Busy(op, Bumping));
    ServerHandedOver(s);
  }

  lemma ServerHandedOver(s0: State)
    requires Reachable(s0) && s0 == INIT.(client := Busy(Start(ROUTE, 80, 0), Bumping))
    ensures Reachable(UP)
  {
    var s := Extend(s0, ClientStep(false));
    s := Extend(s, MonStep(1, true, 42));
    s := Extend(s, MonStep(1, true, 42));
    assert s.mons == map[1 := Handing(MAwaitAck(42))];
    s := Extend(s, ClientStep(false));
    s := Extend(s, ClientStep(false));
    s := Extend(s, ClientStep(true));
    assert s.mons == map[1 := Owning(42, MWaiting)];
    ServerPublished(s);
  }

  const PUBLISHING := Start(ROUTE, 80, 0)

  lemma ServerPublished(s0: State)
    requires Reachable(s0)
    requires s0 == UP.(up := false, port := 0, device := -1, identity := None, client := Busy(PUBLISHING, Publishing(42, HePoll)))
    ensures Reachable(UP)
  {
    var s := Extend(s0, ClientStep(false));
    s := Extend(s, ClientStep(true));
    assert s == s0.(client := Busy(PUBLISHING, Publishing(42, PuIdentity)));
    s := Extend(s, ClientStep(true));
    s := Extend(s, ClientStep(true));
    assert s == UP.(up := false, port := 0, client := Busy(PUBLISHING, Publishing(42, PuUp)));
    ServerChecked(s);
  }

  lemma ServerChecked(s0: State)
    requires Reachable(s0)
    requires s0 == UP.(up := false, port := 0, client := Busy(PUBLISHING, Publishing(42, PuUp)))
    ensures Reachable(UP)
  {
    var s := Extend(s0, ClientStep(true));
    s := Extend(s, ClientStep(true));
    assert s == UP.(client := Busy(PUBLISHING, Publishing(42, ChGen)));
    ServerReturned(s);
  }

  lemma ServerReturned(s0: State)
    requires Reachable(s0) && s0 == UP.(client := Busy(PUBLISHING, Publishing(42, ChGen)))
    ensures Reachable(UP)
  {
    var s := Extend(s0, ClientStep(true));
    s := Extend(s, ClientStep(true));
    assert s == UP.(client := Busy(PUBLISHING, Publishing(42, ChExit(1, 42))));
    s := Extend(s, ClientStep(true));
    s := Extend(s, ClientStep(true));
  }

  const PROVED := UP.(proofs := map[Key(7, 1) := 1], committed := map[1 := Key(7, 1)])

  lemma ProofCommitted()
    ensures Reachable(PROVED)
  {
    ServerUp();
    var op := Commit(0, 1, 7);
    var s := Extend(UP, Acquire(op));
    s := Extend(s, ClientStep(true));
    s := Extend(s, ClientStep(true));
    assert s == UP.(client := Busy(op, Committing(CoLock(1, 42))));
    s := Extend(s, ClientStep(true));
    s := Extend(s, ClientStep(true));
    assert s == UP.(client := Busy(op, Committing(CoExit(1, 42, SERVER))));
    ProofRecorded(s);
  }

  lemma ProofRecorded(s0: State)
    requires Reachable(s0) && s0 == UP.(client := Busy(Commit(0, 1, 7), Committing(CoExit(1, 42, SERVER))))
    ensures Reachable(PROVED)
  {
    var s := Extend(s0, ClientStep(true));
    s := Extend(s, ClientStep(true));
    s := Extend(s, ClientStep(true));
    assert s == PROVED;
  }

  const LOST := State(false, 0, -1, 0, 1, 1, None, Idle, map[1 := MDone], Inbox(true, Some(Spawned(42))), {},
                      map[Key(7, 1) := 1], map[1 := Key(7, 1)], {}, map[1 := LostRace])
  const STOPPING := Busy(Stop, Stopping(true, Finish, StPort))

  /**
   stop() is told to invalidate the route, the child exits in the middle, and the proof it earned
   outlives both the stop and the finished cleanup.
   */
  lemma ProofCanOutliveStop()
    ensures Reachable(LOST)
    ensures LOST.client.Idle? && LOST.pid == 0 && LOST.live == {} && HasProof(LOST.proofs, LOST.committed, 1)
  {
    ProofCommitted();
    var s := Extend(PROVED, ChildExit(1));
    s := Extend(s, Acquire(Stop));
    s := Extend(s, ClientStep(true));
    assert s == PROVED.(up := false, live := {}, client := STOPPING);
    s := Extend(s, MonStep(1, true, 0));
    s := Extend(s, MonStep(1, true, 0));
    s := Extend(s, MonStep(1, true, 0));
    assert s.mons == map[1 := Owning(42, MMark)];
    MonitorClears(s);
  }

  lemma MonitorClears(s0: State)
    requires Reachable(s0)
    requires s0 == PROVED.(up := false, live := {}, mons := map[1 := Owning(42, MMark)], client := STOPPING)
    ensures Reachable(LOST)
  {
    var s := Extend(s0, MonStep(1, true, 0));
    s := Extend(s, MonStep(1, true, 0));
    assert s.mons == map[1 := Owning(42, MPort)];
    MonitorSwaps(s);
  }

  lemma MonitorSwaps(s0: State)
    requires Reachable(s0)
    requires s0 == PROVED.(up := false, device := -1, exiting := 1, live := {},
                           mons := map[1 := Owning(42, MPort)], client := STOPPING)
    ensures Reachable(LOST)
  {
    var s := Extend(s0, MonStep(1, true, 0));
    s := Extend(s, MonStep(1, true, 0));
    assert s.mons == map[1 := Owning(42, MTake(false))];
    MonitorTakesFirst(s);
  }

  lemma MonitorTakesFirst(s0: State)
    requires Reachable(s0)
    requires s0 == PROVED.(up := false, port := 0, device := -1, exiting := 1, live := {},
                           mons := map[1 := Owning(42, MTake(false))], client := STOPPING)
    ensures Reachable(LOST)
  {
    var s := Extend(s0, MonStep(1, true, 0));
    assert s.mons == map[1 := Owning(42, MInvalidate(false, Some(SERVER)))];
    MonitorFinishes(s);
  }

  lemma MonitorFinishes(s0: State)
    requires Reachable(s0)
    requires s0 == LOST.(pid := 42, mons := map[1 := Owning(42, MInvalidate(false, Some(SERVER)))], client := STOPPING)
    ensures Reachable(LOST)
  {
    var s := Extend(s0, MonStep(1, true, 0));
    s := Extend(s, MonStep(1, true, 0));
    assert s.mons == map[1 := MDone];
    assert s == LOST.(client := STOPPING);
    StopFindsNothing(s);
  }

  lemma StopFindsNothing(s0: State)
    requires Reachable(s0) && s0 == LOST.(client := STOPPING)
    ensures Reachable(LOST)
  {
    var s := Extend(s0, ClientStep(true));
    s := Extend(s, ClientStep(true));
    s := Extend(s, ClientStep(true));
    assert s == LOST.(client := Busy(Stop, Stopping(true, Finish, StTake(1))));
    s := Extend(s, ClientStep(true));
    s := Extend(s, ClientStep(true));
    assert s == LOST.(client := Busy(Stop, Killing(Finish, StPid)));
    StopReturns(s);
  }

  lemma StopReturns(s0: State)
    requires Reachable(s0) && s0 == LOST.(client := Busy(Stop, Killing(Finish, StPid)))
    ensures Reachable(LOST)
  {
    var s := Extend(s0, ClientStep(true));
    s := Extend(s, ClientStep(true));
    assert s == LOST.(client := Busy(Stop, Killing(Finish, StWait(0))));
    s := Extend(s, ClientStep(true));
    s := Extend(s, ClientStep(true));
  }
}

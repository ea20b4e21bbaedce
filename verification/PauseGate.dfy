/** The inference pause gate of src/miner.rs: nested guards, manager replacement and the replayed pool job. */
module PauseGate {
  import opened Wrappers

  /** What workers see on their channel. */
  datatype Command = Idle | Job(job: nat) | Close

  /** A pool (Stratum) job or a solo template. */
  datatype Block = Partial(job: nat) | Full(job: nat)

  /**
   `open`: some worker still listens. `suspending`: process_block(None) has released the gate's mutex but
   not sent yet. `dropped`: the manager is being torn down.
   */
  datatype Manager = Manager(
    channel: Command, open: bool, flag: bool, retained: Option<nat>, synced: bool, suspending: bool, dropped: bool)

  /**
   `newest` and `withheld` are history: the last block or suspension each manager was given, and whether that
   block came during a pause, or was taken back by one that began while the manager was current, and has not been
   replayed since.
   */
  datatype Gate = Gate(
    inflight: nat, current: Option<nat>, managers: map<nat, Manager>, newest: map<nat, Option<Block>>, withheld: map<nat, bool>)

  datatype Action =
    | Register(m: nat)
    | Begin
    | End
    | Submit(m: nat, block: Block)
    | Suspend(m: nat)
    | SuspendSend(m: nat)
    | Unregister(m: nat)
    | SendClose(m: nat)
    | WorkersExit(m: nat)

  const START := Gate(0, None, map[], map[], map[])

  // ----- steps -----

  /** A send without listeners fails and changes nothing. */
  function Send(mgr: Manager, c: Command): Manager { if mgr.open then mgr.(channel := c) else mgr }

  function Fresh(inflight: nat): Manager { Manager(Idle, true, inflight != 0, None, true, false, false) }

  function Paused(mgr: Manager): Manager { Send(mgr.(flag := true), Idle) }

  function Resumed(mgr: Manager): Manager {
    var cleared := mgr.(flag := false);
    match cleared.retained
    case None => cleared
    case Some(j) => Send(cleared, Job(j))
  }

  function Submitted(mgr: Manager, block: Block, inflight: nat): Manager {
    var kept := mgr.(retained := if block.Partial? then Some(block.job) else None);
    if inflight != 0 then Send(kept.(flag := true, synced := block.Partial?), Idle)
    else Send(kept.(synced := true), Job(block.job))
  }

  function SuspendLocked(mgr: Manager): Manager {
    var forgot := mgr.(retained := None);
    if !forgot.synced then forgot else forgot.(synced := false, suspending := true)
  }

  predicate Enabled(g: Gate, a: Action) {
    match a
    case Register(m) => m !in g.managers
    case Begin => true
    case End => g.inflight > 0
    case Submit(m, _) => m in g.managers && !g.managers[m].suspending && !g.managers[m].dropped
    case Suspend(m) => m in g.managers && !g.managers[m].suspending && !g.managers[m].dropped
    case SuspendSend(m) => m in g.managers && g.managers[m].suspending
    case Unregister(m) => m in g.managers && !g.managers[m].suspending && !g.managers[m].dropped
    case SendClose(m) => m in g.managers && g.managers[m].dropped
    case WorkersExit(m) => m in g.managers
  }

  function Put(g: Gate, m: nat, mgr: Manager): Gate { g.(managers := g.managers[m := mgr]) }

  /** The weak reference to the current manager still leads somewhere. */
  predicate Live(g: Gate) { g.current.Some? && g.current.value in g.managers }

  function Step(g: Gate, a: Action): Gate
    requires Enabled(g, a)
  {
    match a
    case Register(m) =>
      Put(g, m, Fresh(g.inflight)).(current := Some(m), newest := g.newest[m := None], withheld := g.withheld[m := false])
    case Begin =>
      var begun := g.(inflight := g.inflight + 1);
      if !Live(g) then begun
      else Put(begun, g.current.value, Paused(g.managers[g.current.value])).(withheld := g.withheld[g.current.value := true])
    case End =>
      var ended := g.(inflight := g.inflight - 1);
      if ended.inflight != 0 || !Live(g) then ended
      else
        var m := g.current.value;
        Put(ended, m, Resumed(g.managers[m])).(withheld := if g.managers[m].retained.Some? then g.withheld[m := false] else g.withheld)
    case Submit(m, block) =>
      Put(g, m, Submitted(g.managers[m], block, g.inflight))
      .(newest := g.newest[m := Some(block)], withheld := g.withheld[m := g.inflight != 0])
    case Suspend(m) => Put(g, m, SuspendLocked(g.managers[m])).(newest := g.newest[m := None])
    case SuspendSend(m) => Put(g, m, Send(g.managers[m], Idle).(suspending := false))
    case Unregister(m) =>
      Put(g, m, g.managers[m].(dropped := true)).(current := if g.current == Some(m) then None else g.current)
    case SendClose(m) => Put(g, m, Send(g.managers[m], Close))
    case WorkersExit(m) => Put(g, m, g.managers[m].(open := false))
  }

  // ----- invariant -----

  function RetainedFrom(newest: Option<Block>): Option<nat> {
    if newest.Some? && newest.value.Partial? then Some(newest.value.job) else None
  }

  /** The newest block, unless a pause keeps it from the workers. */
  function Shown(newest: Option<Block>, withheld: bool): Command {
    if newest.Some? && !withheld then Job(newest.value.job) else Idle
  }

  /** What a manager that still takes blocks guarantees. */
  predicate ManagerOk(mgr: Manager, newest: Option<Block>, withheld: bool) {
    && mgr.retained == RetainedFrom(newest)
    && (!mgr.synced ==> mgr.retained == None)
    && (mgr.suspending ==> !mgr.synced && newest == None)
    && mgr.channel != Close
    && (mgr.open && !mgr.suspending ==> mgr.channel == Shown(newest, withheld))
    && (mgr.open && !mgr.suspending && !mgr.synced ==> mgr.channel == Idle)
  }

  /** What the gate guarantees of the current manager. */
  predicate CurrentOk(mgr: Manager, inflight: nat) {
    && !mgr.dropped
    && mgr.flag == (inflight != 0)
    && (inflight != 0 && mgr.open ==> mgr.channel == Idle)
    && (inflight == 0 && mgr.open && mgr.retained.Some? ==> mgr.channel == Job(mgr.retained.value))
  }

  ghost predicate Inv(g: Gate) {
    && g.newest.Keys == g.managers.Keys && g.withheld.Keys == g.managers.Keys
    && (forall m :: m in g.managers && !g.managers[m].dropped ==> ManagerOk(g.managers[m], g.newest[m], g.withheld[m]))
    && (g.current.Some? ==> g.current.value in g.managers && CurrentOk(g.managers[g.current.value], g.inflight))
  }

  lemma StepKeepsInv(g: Gate, a: Action)
    requires Inv(g) && Enabled(g, a)
    ensures Inv(Step(g, a))
  {
    match a
    case Begin => BeginKeeps(g);
    case End => EndKeeps(g);
    case Submit(m, block) => SubmitKeeps(g, m, block);
    case _ => ManagerStepKeeps(g, a);
  }

  lemma BeginKeeps(g: Gate)
    requires Inv(g)
    ensures Inv(Step(g, Begin))
  {}

  lemma EndKeeps(g: Gate)
    requires Inv(g) && g.inflight > 0
    ensures Inv(Step(g, End))
  {}

  /** A step that touches one manager, and perhaps who is current, need only be checked there. */
  lemma OneManager(g: Gate, after: Gate, m: nat)
    requires Inv(g) && after.inflight == g.inflight && m in after.managers && m in after.newest && m in after.withheld
    requires after.managers == g.managers[m := after.managers[m]]
    requires after.newest == g.newest[m := after.newest[m]] && after.withheld == g.withheld[m := after.withheld[m]]
    requires !after.managers[m].dropped ==> ManagerOk(after.managers[m], after.newest[m], after.withheld[m])
    requires after.current.Some? ==>
               if after.current.value == m then CurrentOk(after.managers[m], g.inflight) else after.current == g.current
    ensures Inv(after)
  {
    hide ManagerOk, CurrentOk;
  }

  lemma ManagerStepKeeps(g: Gate, a: Action)
    requires Inv(g) && Enabled(g, a) && !a.Begin? && !a.End? && !a.Submit?
    ensures Inv(Step(g, a))
  {
    OneManager(g, Step(g, a), a.m);
    hide Inv;
  }

  lemma SubmitKeeps(g: Gate, m: nat, block: Block)
    requires Inv(g) && Enabled(g, Submit(m, block))
    ensures Inv(Step(g, Submit(m, block)))
  {
    var mgr := Submitted(g.managers[m], block, g.inflight);
    assert ManagerOk(mgr, Some(block), g.inflight != 0);
    assert g.current == Some(m) ==> CurrentOk(mgr, g.inflight);
  }

  // ----- runs -----

  ghost predicate Takes(before: Gate, a: Action, after: Gate) { Enabled(before, a) && after == Step(before, a) }

  ghost predicate IsRun(run: seq<Action>, g: Gate)
    decreases |run|
  {
    if run == [] then g == START
    else
      var front, last := run[..|run| - 1], run[|run| - 1];
      exists before :: IsRun(front, before) && Takes(before, last, g)
  }

  ghost predicate Reachable(g: Gate) { exists run :: IsRun(run, g) }

  lemma {:induction false} RunKeepsInv(run: seq<Action>, g: Gate)
    requires IsRun(run, g)
    ensures Inv(g)
  {
    if run != [] {
      var before :| IsRun(run[..|run| - 1], before) && Takes(before, run[|run| - 1], g);
      RunKeepsInv(run[..|run| - 1], before);
      StepKeepsInv(before, run[|run| - 1]);
    }
  }

  lemma ReachableInv(g: Gate)
    requires Reachable(g)
    ensures Inv(g)
  {
    var run :| IsRun(run, g);
    RunKeepsInv(run, g);
  }

  lemma Extend(g: Gate, a: Action)
    requires Reachable(g) && Enabled(g, a)
    ensures Reachable(Step(g, a))
  {
    var run :| IsRun(run, g);
    assert (run + [a])[..|run|] == run && Takes(g, a, Step(g, a));
    assert IsRun(run + [a], Step(g, a));
  }

  // ----- what the gate promises -----

  /** While a guard lives, no worker of the current manager is shown a job, and its flag is up. */
  lemma PausedShowsNoJob(g: Gate)
    requires Reachable(g) && g.inflight > 0 && g.current.Some?
    ensures g.current.value in g.managers
    ensures var mgr := g.managers[g.current.value]; mgr.flag && (mgr.open ==> mgr.channel == Idle)
  {
    ReachableInv(g);
  }

  /** The last guard shows the current manager's own newest pool job, or leaves its workers idle. */
  lemma LastGuardReplays(g: Gate)
    requires Reachable(g) && g.inflight == 1 && g.current.Some?
    ensures g.current.value in g.managers && g.current.value in g.newest
    ensures var m := g.current.value;
            var after := Step(g, End).managers[m];
            && !after.flag
            && (after.open ==> after.channel == if g.newest[m].Some? && g.newest[m].value.Partial?
                                                then Job(g.newest[m].value.job) else Idle)
  {
    ReachableInv(g);
  }

  /** A job on an open channel is the newest block that very manager was given, unless a suspension is on its way. */
  lemma NoStaleJob(g: Gate, m: nat)
    requires Reachable(g) && m in g.managers && !g.managers[m].dropped && !g.managers[m].suspending
    requires g.managers[m].open && g.managers[m].channel.Job?
    ensures m in g.newest && g.newest[m].Some? && g.newest[m].value.job == g.managers[m].channel.job
  {
    ReachableInv(g);
  }

  /** process_block(None) may return early: an unsynced manager's workers are idle and it has nothing to replay. */
  lemma EarlyReturnIsSound(g: Gate, m: nat)
    requires Reachable(g) && Enabled(g, Suspend(m)) && !g.managers[m].synced
    ensures g.managers[m].retained == None && (g.managers[m].open ==> g.managers[m].channel == Idle)
    ensures Step(g, Suspend(m)).managers == g.managers
  {
    ReachableInv(g);
  }

  /**
   A suspension right after a block sends to the workers, unless that block was a solo template that came during a pause:
   then they are idle already, and a later template is asked for anyway.
   */
  lemma SuspensionSendsIff(g: Gate, m: nat, block: Block)
    requires Enabled(g, Submit(m, block))
    ensures var after := Step(g, Submit(m, block));
            Enabled(after, Suspend(m)) && (Step(after, Suspend(m)).managers[m].suspending <==> g.inflight == 0 || block.Partial?)
  {}

  /** A new manager takes over the gate, idle, and paused if a pause is up; the others stay as they are. */
  lemma RegisterTakesOver(g: Gate, m: nat)
    requires Enabled(g, Register(m))
    ensures var after := Step(g, Register(m));
            && after.current == Some(m) && after.inflight == g.inflight && after.managers.Keys == g.managers.Keys + {m}
            && after.managers[m].channel == Idle && (after.managers[m].flag <==> g.inflight > 0)
            && forall n :: n in g.managers ==> after.managers[n] == g.managers[n]
  {}

  /** A block given to any manager during a pause raises that manager's flag and leaves its workers idle. */
  lemma PausedSubmit(g: Gate, m: nat, block: Block)
    requires Enabled(g, Submit(m, block)) && g.inflight > 0
    ensures var after := Step(g, Submit(m, block)).managers[m]; after.flag && (after.open ==> after.channel == Idle)
  {}

  /** Dropping a manager that was replaced leaves the gate to its successor. */
  lemma DropLeavesSuccessor(g: Gate, m: nat)
    requires Enabled(g, Unregister(m))
    ensures Step(g, Unregister(m)).current == if g.current == Some(m) then None else g.current
    ensures forall n :: n in g.managers && n != m ==> Step(g, Unregister(m)).managers[n] == g.managers[n]
  {}

  /** A suspension that does not return early ends with the workers idle, whatever came between its two halves. */
  lemma SuspensionIdles(g: Gate, m: nat)
    requires Reachable(g) && Enabled(g, SuspendSend(m)) && !g.managers[m].dropped
    ensures var after := Step(g, SuspendSend(m)).managers[m];
            after.retained == None && !after.synced && (after.open ==> after.channel == Idle)
  {
    ReachableInv(g);
  }

  /**
   Workers that still listen are shown their manager's newest block exactly when it is not withheld: so a manager that
   was replaced shows a job during a pause exactly when that job came outside every pause and none began while the
   manager was current since.
   */
  lemma ShownExactly(g: Gate, m: nat)
    requires Reachable(g) && m in g.managers && !g.managers[m].dropped && !g.managers[m].suspending && g.managers[m].open
    ensures m in g.newest && m in g.withheld && g.managers[m].channel == Shown(g.newest[m], g.withheld[m])
    ensures g.inflight > 0 && g.current == Some(m) ==> g.newest[m].None? || g.withheld[m]
  {
    ReachableInv(g);
  }

  /** A job shown during a pause was shown before the pause: no step under a live guard puts one on any channel. */
  lemma NoJobStartsInAPause(g: Gate, a: Action, m: nat)
    requires Reachable(g) && Enabled(g, a) && g.inflight > 0 && Step(g, a).inflight > 0
    requires m in Step(g, a).managers && Step(g, a).managers[m].channel.Job?
    ensures m in g.managers && g.managers[m].channel == Step(g, a).managers[m].channel
    ensures g.current == Some(m) ==> !g.managers[m].open
  {
    ReachableInv(g);
  }

  /** Only the current manager is gated: one already replaced can go on showing its job during a pause. */
  lemma ReplacedManagerKeepsItsJob() returns (g: Gate)
    ensures Reachable(g) && g.inflight > 0 && 0 in g.managers && g.current != Some(0)
    ensures g.managers[0].open && g.managers[0].channel == Job(7)
  {
    assert IsRun([], START);
    Extend(START, Register(0));
    var a := Step(START, Register(0));
    Extend(a, Submit(0, Partial(7)));
    var b := Step(a, Submit(0, Partial(7)));
    Extend(b, Register(1));
    var c := Step(b, Register(1));
    Extend(c, Begin);
    g := Step(c, Begin);
  }

  // ----- the gate as the program keeps it -----

  class GateState {
    var inflight: nat
    var current: Option<nat>
    var managers: map<nat, Manager>
    ghost var newest: map<nat, Option<Block>>
    ghost var withheld: map<nat, bool>

    ghost function Value(): Gate
      reads this
    {
      Gate(inflight, current, managers, newest, withheld)
    }

    constructor ()
      ensures Value() == START && Inv(Value())
    {
      inflight, current, managers, newest, withheld := 0, None, map[], map[], map[];
    }

    method SendTo(m: nat, c: Command) returns (sent: bool)
      requires m in managers
      modifies this`managers
      ensures sent == old(managers)[m].open && managers == old(managers)[m := Send(old(managers)[m], c)]
    {
      sent := managers[m].open;
      if sent { managers := managers[m := managers[m].(channel := c)]; }
    }

    method RegisterManager(m: nat)
      requires Inv(Value()) && Enabled(Value(), Register(m))
      modifies this
      ensures Inv(Value()) && Value() == Step(old(Value()), Register(m))
    {
      hide Inv;
      StepKeepsInv(Value(), Register(m));
      var flag := false;
      if inflight != 0 { flag := true; }
      managers := managers[m := Manager(Idle, true, flag, None, true, false, false)];
      current := Some(m);
      newest, withheld := newest[m := None], withheld[m := false];
    }

    method BeginPause()
      requires Inv(Value())
      modifies this
      ensures Inv(Value()) && Value() == Step(old(Value()), Begin)
    {
      hide Inv;
      StepKeepsInv(Value(), Begin);
      inflight := inflight + 1;
      if current.Some? && current.value in managers {
        var m := current.value;
        managers := managers[m := managers[m].(flag := true)];
        withheld := withheld[m := true];
        var _ := SendTo(m, Idle);
      }
      assert managers == Step(old(Value()), Begin).managers;
    }

    method DropGuard()
      requires Inv(Value()) && inflight > 0
      modifies this
      ensures Inv(Value()) && Value() == Step(old(Value()), End)
    {
      hide Inv;
      StepKeepsInv(Value(), End);
      inflight := inflight - 1;
      if inflight == 0 && current.Some? && current.value in managers {
        var m := current.value;
        managers := managers[m := managers[m].(flag := false)];
        if managers[m].retained.Some? {
          withheld := withheld[m := false];
          var _ := SendTo(m, Job(managers[m].retained.value));
        }
      }
      assert managers == Step(old(Value()), End).managers;
    }

    /** process_block(Some(..)); `ok` is false when the template makes no mining state or no worker listens any more. */
    method ProcessBlock(m: nat, block: Block, minable: bool) returns (ok: bool)
      requires Inv(Value()) && Enabled(Value(), Submit(m, block))
      modifies this
      ensures Inv(Value()) && m in old(managers) && ok == (minable && old(managers)[m].open)
      ensures Value() == if minable then Step(old(Value()), Submit(m, block)) else old(Value())
    {
      hide Inv, Step;
      if !minable { return false; }
      ok := Publish(m, block);
    }

    /** The part of process_block(Some(..)) under the mutex. */
    method Publish(m: nat, block: Block) returns (ok: bool)
      requires Inv(Value()) && Enabled(Value(), Submit(m, block))
      modifies this
      ensures Inv(Value()) && ok == old(managers)[m].open && Value() == Step(old(Value()), Submit(m, block))
    {
      hide Inv;
      StepKeepsInv(Value(), Submit(m, block));
      newest, withheld := newest[m := Some(block)], withheld[m := inflight != 0];
      var kept := managers[m].(retained := if block.Partial? then Some(block.job) else None);
      if inflight != 0 {
        managers := managers[m := kept.(flag := true, synced := block.Partial?)];
        ok := SendTo(m, Idle);
      } else {
        managers := managers[m := kept.(synced := true)];
        ok := SendTo(m, Job(block.job));
      }
      assert managers == Step(old(Value()), Submit(m, block)).managers;
    }

    /** The part of process_block(None) under the mutex; `pending` says that the send is still to come. */
    method ProcessNone(m: nat) returns (pending: bool)
      requires Inv(Value()) && Enabled(Value(), Suspend(m))
      modifies this
      ensures Inv(Value()) && Value() == Step(old(Value()), Suspend(m)) && pending == old(managers)[m].synced
    {
      hide Inv;
      StepKeepsInv(Value(), Suspend(m));
      newest := newest[m := None];
      managers := managers[m := managers[m].(retained := None)];
      pending := managers[m].synced;
      if pending { managers := managers[m := managers[m].(synced := false, suspending := true)]; }
      assert managers == Step(old(Value()), Suspend(m)).managers;
    }

    method FinishNone(m: nat) returns (ok: bool)
      requires Inv(Value()) && Enabled(Value(), SuspendSend(m))
      modifies this
      ensures Inv(Value()) && Value() == Step(old(Value()), SuspendSend(m)) && ok == old(managers)[m].open
    {
      hide Inv;
      StepKeepsInv(Value(), SuspendSend(m));
      ok := SendTo(m, Idle);
      managers := managers[m := managers[m].(suspending := false)];
      assert managers == Step(old(Value()), SuspendSend(m)).managers;
    }

    method DropManager(m: nat)
      requires Inv(Value()) && Enabled(Value(), Unregister(m))
      modifies this
      ensures Inv(Value()) && Value() == Step(old(Value()), Unregister(m))
    {
      hide Inv;
      StepKeepsInv(Value(), Unregister(m));
      managers := managers[m := managers[m].(dropped := true)];
      if current == Some(m) { current := None; }
    }
  }
}

/** The bounded pool of detached proof builders: a compare-exchange loop on one counter. */
module ProofPermits {
  datatype Builder = Outside | Trying(seen: nat) | Holding

  datatype Pool = Pool(counter: nat, builders: map<nat, Builder>)

  function Holders(p: Pool): set<nat> { set t | t in p.builders && p.builders[t] == Holding }

  ghost predicate Next(p: Pool, q: Pool, limit: nat) { exists t :: StepOf(p, q, t, limit) }

  /** One atomic access of builder `t`: load, compare-exchange (which may fail for no reason), give up, or release. */
  ghost predicate StepOf(p: Pool, q: Pool, t: nat, limit: nat) {
    && t in p.builders && q.builders.Keys == p.builders.Keys
    && (forall u :: u in p.builders && u != t ==> q.builders[u] == p.builders[u])
    && match p.builders[t] {
         case Outside => q.builders[t] == Trying(p.counter) && q.counter == p.counter
         case Trying(seen) =>
           if seen >= limit then q.builders[t] == Outside && q.counter == p.counter
           else || (seen == p.counter && q.builders[t] == Holding && q.counter == p.counter + 1)
                || (q.builders[t] == Trying(p.counter) && q.counter == p.counter)
         case Holding => p.counter > 0 && q.builders[t] == Outside && q.counter == p.counter - 1
       }
  }

  ghost predicate PoolInv(p: Pool, limit: nat) { p.counter == |Holders(p)| && p.counter <= limit }

  /** The counter is the number of live permits and never exceeds the limit, however the builders interleave. */
  lemma StepKeepsPool(p: Pool, q: Pool, limit: nat)
    requires PoolInv(p, limit) && Next(p, q, limit)
    ensures PoolInv(q, limit)
  {
    var t :| StepOf(p, q, t, limit);
    HoldersMove(p, q, t);
    hide Holders;
  }

  lemma HoldersMove(p: Pool, q: Pool, t: nat)
    requires t in p.builders && q.builders.Keys == p.builders.Keys
    requires forall u :: u in p.builders && u != t ==> q.builders[u] == p.builders[u]
    ensures |Holders(q)| == |Holders(p)| - (if p.builders[t] == Holding then 1 else 0) + if q.builders[t] == Holding then 1 else 0
  {
    assert t in Holders(p) <==> p.builders[t] == Holding;
    if q.builders[t] == Holding {
      assert Holders(q) == Holders(p) + {t};
    } else {
      assert Holders(q) == Holders(p) - {t};
    }
  }

  lemma {:induction false} RunKeepsPool(run: seq<Pool>, limit: nat)
    requires run != [] && run[0].counter == 0 && Holders(run[0]) == {}
    requires forall i :: 0 <= i < |run| - 1 ==> Next(run[i], run[i + 1], limit)
    ensures PoolInv(run[|run| - 1], limit)
  {
    if |run| > 1 {
      var front := run[..|run| - 1];
      RunKeepsPool(front, limit);
      assert Next(run[|run| - 2], run[|run| - 1], limit);
      StepKeepsPool(run[|run| - 2], run[|run| - 1], limit);
    }
  }
}

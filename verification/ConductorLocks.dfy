// The two locks of the conductor, its one background operation, and the operation's own lock and notification
// (conductor.cc). Threads are client calls and operation threads, in any number and interleaving.
module ConductorLocks {
  import opened Results

  type ThreadId = nat
  type OpId = nat

  /**
   * Where a thread is. "Want" waits for a lock, "In" holds it. E is ec_op_mu_, M is mu_, O is the mutex of an operation.
   * The comment of each says what the thread holds.
   */
  datatype Pc =
    // PrepareProcessStart
    | PrepareWantE                          // nothing
    | PrepareCheck                          // E: is there an unfinished operation?
    | PrepareWantM                          // E
    | PrepareInM                            // E, M: PrepareProcessStartImpl, external calls
    | PrepareMade(made: OpId)               // E: the new operation runs, ec_op_ is still the old one
    | PrepareJoin(made: OpId, prior: OpId)    // E: destroying the old operation joins its thread
    | PrepareWantO(op: OpId)                // E: ec_op_->Proto()
    | PrepareInO(op: OpId)                  // E, O
    // CancelExecutionContextOperation(wait) of StopSolution and NotifyAllProcessesStopped, then their section under mu_
    | CancelWantE                           // nothing
    | CancelCheck                           // E
    | CancelWantO(op: OpId)                 // E: ec_op_->Name() for the log
    | CancelInO(op: OpId)                   // E, O
    | CancelWait(op: OpId)                  // E: waits for the done notification
    | CancelWantM                           // nothing
    | CancelInM                             // M: external calls
    // GetOperation and CancelOperation: Name(), then Proto() or a stop request
    | LookupWantE(stop: bool)               // nothing
    | LookupCheck(stop: bool)               // E
    | LookupWantO(op: OpId, again: bool, stop: bool) // E
    | LookupInO(op: OpId, again: bool, stop: bool)   // E, O
    // The calls that take mu_ only
    | PlainWantM                            // nothing
    | PlainInM                              // M: external calls
    // The thread of an operation
    | OpBegin(op: OpId)                     // nothing: looks at the stop token
    | OpWantM(op: OpId)                     // nothing
    | OpInM(op: OpId)                       // M: external calls
    | OpWantO(op: OpId)                     // nothing: to store the result
    | OpInO(op: OpId)                       // O: about to notify
    | OpNotified(op: OpId)                  // O: done is notified, about to unlock
    | Ended                                 // nothing

  datatype Op = Op(thread: ThreadId, done: bool, stop: bool, holder: Option<ThreadId>)

  datatype Sys = Sys(
    threads: map<ThreadId, Pc>,
    e: Option<ThreadId>,            // holder of ec_op_mu_
    m: Option<ThreadId>,            // holder of mu_
    ecOp: Option<OpId>,             // ec_op_
    ops: map<OpId, Op>)             // every operation ever made

  ghost const INIT: Sys := Sys(map[], None, None, None, map[])

  predicate ClientStart(pc: Pc) {
    pc.PrepareWantE? || pc.CancelWantE? || pc.LookupWantE? || pc.PlainWantM?
  }

  // ---------- What a thread holds and waits for ----------

  predicate HoldsE(pc: Pc) {
    || pc.PrepareCheck? || pc.PrepareWantM? || pc.PrepareInM? || pc.PrepareMade? || pc.PrepareJoin?
    || pc.PrepareWantO? || pc.PrepareInO?
    || pc.CancelCheck? || pc.CancelWantO? || pc.CancelInO? || pc.CancelWait?
    || pc.LookupCheck? || pc.LookupWantO? || pc.LookupInO?
  }

  predicate HoldsM(pc: Pc) {
    pc.PrepareInM? || pc.CancelInM? || pc.PlainInM? || pc.OpInM?
  }

  /** The operation whose mutex the thread holds. */
  function HoldsO(pc: Pc): Option<OpId> {
    match pc
    case PrepareInO(o) => Some(o)
    case CancelInO(o) => Some(o)
    case LookupInO(o, _, _) => Some(o)
    case OpInO(o) => Some(o)
    case OpNotified(o) => Some(o)
    case _ => None
  }

  predicate WantsE(pc: Pc) { pc.PrepareWantE? || pc.CancelWantE? || pc.LookupWantE? }

  predicate WantsM(pc: Pc) { pc.PrepareWantM? || pc.CancelWantM? || pc.PlainWantM? || pc.OpWantM? }

  function WantsO(pc: Pc): Option<OpId> {
    match pc
    case PrepareWantO(o) => Some(o)
    case CancelWantO(o) => Some(o)
    case LookupWantO(o, _, _) => Some(o)
    case OpWantO(o) => Some(o)
    case _ => None
  }

  /** The operations a position mentions. */
  predicate Mentions(pc: Pc, o: OpId) {
    match pc
    case PrepareMade(made) => o == made
    case PrepareJoin(made, prior) => o == made || o == prior
    case PrepareWantO(op) => o == op
    case PrepareInO(op) => o == op
    case CancelWantO(op) => o == op
    case CancelInO(op) => o == op
    case CancelWait(op) => o == op
    case LookupWantO(op, _, _) => o == op
    case LookupInO(op, _, _) => o == op
    case OpBegin(op) => o == op
    case OpWantM(op) => o == op
    case OpInM(op) => o == op
    case OpWantO(op) => o == op
    case OpInO(op) => o == op
    case OpNotified(op) => o == op
    case _ => false
  }

  predicate Done(s: Sys, o: OpId) { o in s.ops && s.ops[o].done }

  /** The thread can take its next step now. External calls made under mu_ are assumed to return. */
  predicate CanStep(s: Sys, t: ThreadId) {
    && t in s.threads
    && var pc := s.threads[t];
       && !pc.Ended?
       && (WantsE(pc) ==> s.e.None?)
       && (WantsM(pc) ==> s.m.None?)
       && (WantsO(pc).Some? ==> WantsO(pc).value in s.ops && s.ops[WantsO(pc).value].holder.None?)
       && (pc.CancelWait? ==> Done(s, pc.op))
       && (pc.PrepareJoin? ==> pc.prior in s.ops && s.ops[pc.prior].thread in s.threads && s.threads[s.ops[pc.prior].thread].Ended?)
  }

  // ---------- Steps ----------

  /** What the environment decides at a step. */
  datatype Choice =
    | Go
    | Fail                                           // an external call fails, or the caller's name does not match
    | Make(op: OpId, thread: ThreadId)               // the new operation and its thread

  predicate Allowed(s: Sys, t: ThreadId, c: Choice) {
    && CanStep(s, t)
    && (c.Make? <==> s.threads[t].PrepareInM? && c.Make?)
    && (s.threads[t].PrepareInM? ==> c.Fail? || c.Make?)
    && (c.Make? ==> c.op !in s.ops && c.thread !in s.threads)
  }

  /** No operation, or a finished one. */
  predicate NoUnfinished(s: Sys) {
    s.ecOp.None? || Done(s, s.ecOp.value)
  }

  /** Where a thread goes from a position. */
  function NextPc(s: Sys, pc: Pc, c: Choice): Pc {
    match pc
    case PrepareWantE => PrepareCheck
    case PrepareCheck => if NoUnfinished(s) then PrepareWantM else Ended
    case PrepareWantM => PrepareInM
    case PrepareInM => if c.Make? then PrepareMade(c.op) else Ended
    case PrepareMade(made) => if s.ecOp.Some? then PrepareJoin(made, s.ecOp.value) else PrepareWantO(made)
    case PrepareJoin(made, _) => PrepareWantO(made)
    case PrepareWantO(op) => PrepareInO(op)
    case PrepareInO(_) => Ended
    case CancelWantE => CancelCheck
    case CancelCheck => if NoUnfinished(s) then CancelWantM else CancelWantO(s.ecOp.value)
    case CancelWantO(op) => CancelInO(op)
    case CancelInO(op) => CancelWait(op)
    case CancelWait(_) => CancelWantM
    case CancelWantM => CancelInM
    case CancelInM => Ended
    case LookupWantE(stop) => LookupCheck(stop)
    case LookupCheck(stop) => if s.ecOp.None? then Ended else LookupWantO(s.ecOp.value, false, stop)
    case LookupWantO(op, again, stop) => LookupInO(op, again, stop)
    case LookupInO(op, again, stop) => if c.Fail? || again || stop then Ended else LookupWantO(op, true, stop)
    case PlainWantM => PlainInM
    case PlainInM => Ended
    case OpBegin(op) => if op in s.ops && s.ops[op].stop then OpWantO(op) else OpWantM(op)
    case OpWantM(op) => OpInM(op)
    case OpInM(op) => OpWantO(op)
    case OpWantO(op) => OpInO(op)
    case OpInO(op) => OpNotified(op)
    case OpNotified(_) => Ended
    case Ended => Ended
  }

  /** A lock after thread t goes from a position that had it or not to one that has it or not. */
  function NewHolder(holder: Option<ThreadId>, t: ThreadId, had: bool, has: bool): Option<ThreadId> {
    if has == had then holder else if has then Some(t) else None
  }

  /** Stop requests: by CancelExecutionContextOperation, CancelOperation, and the destruction of an operation. */
  predicate RequestsStop(pc: Pc, c: Choice, pc': Pc, o: OpId) {
    || (pc.CancelInO? && pc.op == o)
    || (pc.LookupInO? && pc.op == o && pc.stop && !c.Fail?)
    || (pc'.PrepareJoin? && pc'.prior == o)
  }

  /** An operation after thread t goes from pc to pc'. */
  function OpAfter(op: Op, o: OpId, t: ThreadId, pc: Pc, c: Choice, pc': Pc): Op {
    Op(op.thread,
       op.done || pc == OpInO(o),
       op.stop || RequestsStop(pc, c, pc', o),
       NewHolder(op.holder, t, HoldsO(pc) == Some(o), HoldsO(pc') == Some(o)))
  }

  /** ec_op_ is assigned once the new operation is made and the old one destroyed. */
  function EcOpAfter(s: Sys, pc: Pc): Option<OpId> {
    if pc.PrepareJoin? || (pc.PrepareMade? && s.ecOp.None?) then Some(pc.made) else s.ecOp
  }

  /** Thread t goes to pc', taking and releasing the locks that tell the two positions apart. */
  function MoveTo(s: Sys, t: ThreadId, c: Choice, pc': Pc): Sys
    requires t in s.threads
  {
    var pc := s.threads[t];
    Sys(s.threads[t := pc'],
        NewHolder(s.e, t, HoldsE(pc), HoldsE(pc')),
        NewHolder(s.m, t, HoldsM(pc), HoldsM(pc')),
        EcOpAfter(s, pc),
        map o | o in s.ops :: OpAfter(s.ops[o], o, t, pc, c, pc'))
  }

  function StepOf(s: Sys, t: ThreadId, c: Choice): Sys
    requires Allowed(s, t, c)
  {
    var s' := MoveTo(s, t, c, NextPc(s, s.threads[t], c));
    if c.Make? then
      s'.(threads := s'.threads[c.thread := OpBegin(c.op)], ops := s'.ops[c.op := Op(c.thread, false, false, None)])
    else
      s'
  }

  datatype Label =
    | Call(t: ThreadId, pc: Pc)              // a client call arrives
    | Step(t: ThreadId, choice: Choice)
    | GiveUp(t: ThreadId)                    // a waiting caller's context is cancelled

  predicate Enabled(s: Sys, l: Label) {
    match l
    case Call(t, pc) => t !in s.threads && ClientStart(pc)
    case Step(t, c) => Allowed(s, t, c)
    case GiveUp(t) => t in s.threads && s.threads[t].CancelWait?
  }

  function Apply(s: Sys, l: Label): Sys
    requires Enabled(s, l)
  {
    match l
    case Call(t, pc) => s.(threads := s.threads[t := pc])
    case Step(t, c) => StepOf(s, t, c)
    case GiveUp(t) => MoveTo(s, t, Go, Ended)
  }

  ghost predicate ValidRun(s: Sys, run: seq<Label>)
    decreases |run|
  {
    run == [] || (Enabled(s, run[0]) && ValidRun(Apply(s, run[0]), run[1..]))
  }

  ghost function After(s: Sys, run: seq<Label>): Sys
    requires ValidRun(s, run)
    decreases |run|
  {
    if run == [] then s else After(Apply(s, run[0]), run[1..])
  }

  ghost predicate Reachable(s: Sys) {
    exists run :: ValidRun(INIT, run) && After(INIT, run) == s
  }

  // ---------- The invariant ----------

  /** The lock fields say who holds the locks. */
  ghost predicate LocksHeld(s: Sys) {
    && (forall t :: t in s.threads && HoldsE(s.threads[t]) <==> s.e == Some(t))
    && (forall t :: t in s.threads && HoldsM(s.threads[t]) <==> s.m == Some(t))
    && (forall o, t :: o in s.ops ==>
          (t in s.threads && HoldsO(s.threads[t]) == Some(o) <==> s.ops[o].holder == Some(t)))
  }

  predicate OpThread(pc: Pc) {
    pc.OpBegin? || pc.OpWantM? || pc.OpInM? || pc.OpWantO? || pc.OpInO? || pc.OpNotified?
  }

  /** Operations exist where they are mentioned. */
  ghost predicate OpsExist(s: Sys) {
    && (forall t, o :: t in s.threads && Mentions(s.threads[t], o) ==> o in s.ops)
    && (s.ecOp.Some? ==> s.ecOp.value in s.ops)
  }

  /** The thread of an operation runs it, and has finished it once it notified. */
  predicate RunsOp(pc: Pc, o: OpId, op: Op) {
    && ((OpThread(pc) && pc.op == o) || pc.Ended?)
    && (op.done <==> pc.Ended? || pc.OpNotified?)
  }

  /** Each operation has its own thread, which runs until it is done. */
  ghost predicate OpsRun(s: Sys) {
    && (forall o :: o in s.ops ==> s.ops[o].thread in s.threads && RunsOp(s.threads[s.ops[o].thread], o, s.ops[o]))
    && (forall t :: t in s.threads && OpThread(s.threads[t]) ==>
          s.threads[t].op in s.ops && s.ops[s.threads[t].op].thread == t)
  }

  ghost predicate OpsFit(s: Sys) {
    OpsExist(s) && OpsRun(s)
  }

  /** The thread is about to install this new operation. */
  predicate Installing(pc: Pc, o: OpId) {
    (pc.PrepareMade? && pc.made == o) || (pc.PrepareJoin? && pc.made == o)
  }

  /** PrepareProcessStart has seen that no operation is unfinished, and not yet replaced ec_op_. */
  predicate Checked(pc: Pc) {
    pc.PrepareWantM? || pc.PrepareInM? || pc.PrepareMade? || pc.PrepareJoin?
  }

  /** An unfinished operation is the current one, or the one being installed over a finished one. */
  ghost predicate OneUnfinished(s: Sys) {
    && (forall o :: o in s.ops && !s.ops[o].done ==>
          s.ecOp == Some(o) || exists t :: t in s.threads && Installing(s.threads[t], o))
    && (forall t :: t in s.threads && Checked(s.threads[t]) ==> NoUnfinished(s))
    && (forall t :: t in s.threads && s.threads[t].PrepareJoin? ==> Done(s, s.threads[t].prior))
  }

  ghost predicate Inv(s: Sys) {
    LocksHeld(s) && OpsFit(s) && OneUnfinished(s)
  }
}

/** What every interleaving of the worker pool keeps, and what callers get. */
module WorkerPoolProofs {
  import opened WorkerPool

  // ----- the invariant -----

  /** Inside the mutex. */
  ghost predicate Holds(pc: CallPc) {
    pc.Scan? || pc.NoneFree? || pc.Mark? || pc.Leave? || pc.ClearBusy? || pc.Relinquish?
  }

  /** The worker a caller has claimed. */
  ghost function Owned(pc: CallPc): Option<nat> {
    match pc
    case Leave(i) => Some(i)
    case PutType(i) => Some(i)
    case PutArgs(i) => Some(i)
    case SignalWork(i) => Some(i)
    case WaitDone(i) => Some(i)
    case ReadRet(i) => Some(i)
    case AwaitRelock(i, _) => Some(i)
    case ClearBusy(i, _) => Some(i)
    case _ => None
  }

  ghost function Entries(log: seq<Execution>, k: nat): seq<Execution> {
    if log == [] then []
    else Entries(log[..|log| - 1], k) + (if log[|log| - 1].call == k then [log[|log| - 1]] else [])
  }

  ghost function WordsOf(c: Call): seq<int> {
    if Arity(c.kind) <= |c.args| then c.args[..Arity(c.kind)] else c.args
  }

  /** The job of call k was executed exactly once, with its own type and words, giving ret. */
  ghost predicate Executed(s: Pool, k: nat, ret: int)
    requires k < |s.calls|
  {
    Entries(s.log, k) == [Execution(k, s.calls[k].kind, WordsOf(s.calls[k]), ret)]
  }

  ghost predicate NotExecuted(s: Pool, k: nat) {
    Entries(s.log, k) == []
  }

  ghost predicate Quiet(w: Worker) {
    w.workSema == 0 && w.doneSema == 0 && w.pc == WaitingWork
  }

  ghost predicate Loaded(w: Worker, c: Call) {
    w.kind == c.kind && c.args <= w.args
  }

  /** The worker while its caller waits: job posted, taken, running, finished, or signalled. */
  ghost predicate Serving(s: Pool, w: Worker, k: nat)
    requires k < |s.calls|
  {
    var c := s.calls[k];
    match w.pc
    case WaitingWork =>
      || (w.workSema == 1 && w.doneSema == 0 && Loaded(w, c) && NotExecuted(s, k))
      || (w.workSema == 0 && w.doneSema == 1 && Executed(s, k, w.ret))
    case Woken => w.workSema == 0 && w.doneSema == 0 && Loaded(w, c) && NotExecuted(s, k)
    case Running(kind, words) =>
      w.workSema == 0 && w.doneSema == 0 && kind == c.kind && words == WordsOf(c) && NotExecuted(s, k)
    case Finished => w.workSema == 0 && w.doneSema == 0 && Executed(s, k, w.ret)
  }

  /** A worker as its owner has to find it. */
  ghost predicate OwnerView(s: Pool, w: Worker, k: nat)
    requires k < |s.calls|
  {
    var c := s.calls[k];
    match c.pc
    case PutArgs(_) => Quiet(w) && w.kind == c.kind
    case SignalWork(_) => Quiet(w) && Loaded(w, c)
    case WaitDone(_) => Serving(s, w, k)
    case ReadRet(_) => Quiet(w) && Executed(s, k, w.ret)
    case _ => Quiet(w)
  }

  ghost predicate CallOk(s: Pool, k: nat)
    requires k < |s.calls|
  {
    var c := s.calls[k];
    && Arity(c.kind) <= |c.args| <= MAX_ARGS
    && (Holds(c.pc) <==> s.holder == Some(k))
    && (Owned(c.pc).Some? ==> Owned(c.pc).value < |s.workers| && s.workers[Owned(c.pc).value].owner == Some(k))
    && (match c.pc
        case Mark(i) => i < |s.workers| && s.workers[i].owner == None && NotExecuted(s, k)
        case AwaitRelock(_, ret) => Executed(s, k, ret)
        case ClearBusy(_, ret) => Executed(s, k, ret)
        case Relinquish(ret) => Executed(s, k, ret)
        case Done(ret) => Executed(s, k, ret)
        case WaitDone(_) => true
        case ReadRet(_) => true
        case _ => NotExecuted(s, k))
  }

  ghost predicate WorkerOk(s: Pool, i: nat)
    requires i < |s.workers|
  {
    var w := s.workers[i];
    && |w.args| == MAX_ARGS
    && (w.busy <==> w.owner.Some?)
    && (w.owner == None ==> Quiet(w))
    && (w.owner.Some? ==> w.owner.value < |s.calls|)
    && (w.owner.Some? ==> Owned(s.calls[w.owner.value].pc) == Some(i))
    && (w.owner.Some? ==> OwnerView(s, w, w.owner.value))
  }

  ghost predicate Inv(s: Pool) {
    && s.mutex == (if s.holder == None then 1 else 0)
    && (s.holder.Some? ==> s.holder.value < |s.calls|)
    && (forall e :: e in s.log ==> e.call < |s.calls|)
    && (forall k :: 0 <= k < |s.calls| ==> CallOk(s, k))
    && (forall i :: 0 <= i < |s.workers| ==> WorkerOk(s, i))
  }

  // ----- every step keeps it -----

  lemma {:induction false} NoEntries(log: seq<Execution>, k: nat)
    requires forall e :: e in log ==> e.call < k
    ensures Entries(log, k) == []
  {
    if log != [] {
      assert log[|log| - 1] in log;
      NoEntries(log[..|log| - 1], k);
    }
  }

  lemma EntriesGrow(log: seq<Execution>, e: Execution)
    ensures forall k: nat :: Entries(log + [e], k) == Entries(log, k) + (if e.call == k then [e] else [])
  {
    assert (log + [e])[..|log|] == log;
  }

  /** Calls and workers that a step does not touch stay fine as long as the log and the holder
      of the mutex do not change for them. */
  lemma CallUntouched(s: Pool, s': Pool, k: nat)
    requires k < |s.calls| <= |s'.calls| && s'.calls[k] == s.calls[k] && CallOk(s, k)
    requires s.holder == Some(k) <==> s'.holder == Some(k)
    requires Entries(s'.log, k) == Entries(s.log, k)
    requires |s'.workers| == |s.workers|
    requires Owned(s.calls[k].pc).Some? ==> s'.workers[Owned(s.calls[k].pc).value].owner == Some(k)
    requires s.calls[k].pc.Mark? ==> s'.workers[s.calls[k].pc.i].owner == None
    ensures CallOk(s', k)
  {
  }

  lemma WorkerUntouched(s: Pool, s': Pool, i: nat)
    requires i < |s.workers| == |s'.workers| && s'.workers[i] == s.workers[i] && WorkerOk(s, i)
    requires |s.calls| <= |s'.calls|
    requires s.workers[i].owner.Some? ==>
      && s'.calls[s.workers[i].owner.value] == s.calls[s.workers[i].owner.value]
      && Entries(s'.log, s.workers[i].owner.value) == Entries(s.log, s.workers[i].owner.value)
    ensures WorkerOk(s', i)
  {
  }

  lemma NewCallKeeps(s: Pool, kind: WorkType, args: seq<int>)
    requires Inv(s)
    ensures Inv(Next(s, NewCall(kind, args)))
  {
    if Arity(kind) <= |args| <= MAX_ARGS {
      var s' := Next(s, NewCall(kind, args));
      forall k | 0 <= k < |s'.calls| ensures CallOk(s', k) {
        if k < |s.calls| {
          assert CallOk(s, k);
          CallUntouched(s, s', k);
        } else {
          NoEntries(s.log, k);
        }
      }
      forall i | 0 <= i < |s'.workers| ensures WorkerOk(s', i) {
        assert WorkerOk(s, i);
        WorkerUntouched(s, s', i);
      }
    }
  }

  /** A step of caller k that touches at most its own call, worker i and the mutex. */
  lemma CallerFrame(s: Pool, s': Pool, k: nat, i: nat)
    requires Inv(s) && k < |s.calls| == |s'.calls| && |s'.workers| == |s.workers| && s'.log == s.log
    requires forall l :: 0 <= l < |s.calls| && l != k ==> s'.calls[l] == s.calls[l]
    requires forall j :: 0 <= j < |s.workers| && j != i ==> s'.workers[j] == s.workers[j]
    requires i < |s.workers| ==> s.workers[i].owner in {None, Some(k)} && s'.workers[i].owner in {None, Some(k)}
    requires s.holder in {None, Some(k)} || s'.holder == s.holder
    requires s'.holder in {None, Some(k)} || s'.holder == s.holder
    requires i < |s.workers| && s'.workers[i].owner != s.workers[i].owner ==> s.holder == Some(k)
    ensures forall l :: 0 <= l < |s.calls| && l != k ==> CallOk(s', l)
    ensures forall j :: 0 <= j < |s.workers| && j != i && s.workers[j].owner != Some(k) ==> WorkerOk(s', j)
  {
    forall l | 0 <= l < |s.calls| && l != k ensures CallOk(s', l) {
      assert CallOk(s, l);
      CallUntouched(s, s', l);
    }
    forall j | 0 <= j < |s.workers| && j != i && s.workers[j].owner != Some(k) ensures WorkerOk(s', j) {
      assert WorkerOk(s, j);
      WorkerUntouched(s, s', j);
    }
  }

  /** The worker a step of caller k can touch. */
  ghost function Touched(s: Pool, pc: CallPc): nat {
    match pc
    case Mark(i) => i
    case _ => if Owned(pc).Some? then Owned(pc).value else |s.workers|
  }

  ghost predicate Collects(pc: CallPc) {
    pc.WaitDone? || pc.ReadRet? || pc.AwaitRelock? || pc.ClearBusy? || pc.Relinquish? || pc.Done?
  }

  /** The caller after a step towards posting its job. */
  lemma CallerPosts(s: Pool, k: nat)
    requires Inv(s) && CallerEnabled(s, k) && !Collects(s.calls[k].pc)
    ensures CallOk(CallerNext(s, k), k)
  {
    assert CallOk(s, k);
    var i := Touched(s, s.calls[k].pc);
    assert i < |s.workers| ==> WorkerOk(s, i);
    if s.calls[k].pc.Scan? && s.calls[k].pc.i < |s.workers| {
      assert WorkerOk(s, s.calls[k].pc.i);
    }
  }

  /** The caller after a step towards collecting its result. */
  lemma CallerCollects(s: Pool, k: nat)
    requires Inv(s) && CallerEnabled(s, k) && Collects(s.calls[k].pc)
    ensures CallOk(CallerNext(s, k), k)
  {
    assert CallOk(s, k);
    var i := Touched(s, s.calls[k].pc);
    assert i < |s.workers| ==> WorkerOk(s, i);
  }

  /** The worker a caller step touches, while the job is being posted. */
  lemma CallerOwnWorker(s: Pool, k: nat)
    requires Inv(s) && CallerEnabled(s, k) && Touched(s, s.calls[k].pc) < |s.workers|
    ensures WorkerOk(CallerNext(s, k), Touched(s, s.calls[k].pc))
  {
    assert CallOk(s, k);
    assert WorkerOk(s, Touched(s, s.calls[k].pc));
  }

  lemma CallerKeeps(s: Pool, k: nat)
    requires Inv(s) && CallerEnabled(s, k)
    ensures Inv(CallerNext(s, k))
  {
    var s', i := CallerNext(s, k), Touched(s, s.calls[k].pc);
    if Collects(s.calls[k].pc) { CallerCollects(s, k); } else { CallerPosts(s, k); }
    CallerMutex(s, k);
    if i < |s.workers| { CallerOwnWorker(s, k); }
    OwnerIsOnly(s, k, i);
    CallerFrameHolds(s, k);
    CallerFrame(s, s', k, i);
  }

  lemma CallerMutex(s: Pool, k: nat)
    requires Inv(s) && CallerEnabled(s, k)
    ensures var s' := CallerNext(s, k);
      && s'.mutex == (if s'.holder == None then 1 else 0)
      && (s'.holder.Some? ==> s'.holder.value < |s'.calls|)
  {
    assert CallOk(s, k);
  }

  lemma CallerFrameHolds(s: Pool, k: nat)
    requires Inv(s) && CallerEnabled(s, k)
    ensures var s', i := CallerNext(s, k), Touched(s, s.calls[k].pc);
      && |s'.calls| == |s.calls| && |s'.workers| == |s.workers| && s'.log == s.log
      && (forall l :: 0 <= l < |s.calls| && l != k ==> s'.calls[l] == s.calls[l])
      && (forall j :: 0 <= j < |s.workers| && j != i ==> s'.workers[j] == s.workers[j])
      && (i < |s.workers| ==> s.workers[i].owner in {None, Some(k)} && s'.workers[i].owner in {None, Some(k)})
      && (s.holder in {None, Some(k)} || s'.holder == s.holder)
      && (s'.holder in {None, Some(k)} || s'.holder == s.holder)
      && (i < |s.workers| && s'.workers[i].owner != s.workers[i].owner ==> s.holder == Some(k))
  {
    assert CallOk(s, k);
  }

  /** Only the touched worker can belong to caller k. */
  lemma OwnerIsOnly(s: Pool, k: nat, i: nat)
    requires Inv(s) && k < |s.calls| && i == Touched(s, s.calls[k].pc)
    ensures forall j :: 0 <= j < |s.workers| && j != i ==> s.workers[j].owner != Some(k)
  {
    forall j | 0 <= j < |s.workers| && j != i ensures s.workers[j].owner != Some(k) {
      assert WorkerOk(s, j);
    }
  }

  lemma WorkerKeeps(s: Pool, i: nat, outcome: int)
    requires Inv(s) && WorkerEnabled(s, i)
    ensures Inv(WorkerNext(s, i, outcome))
  {
    WorkerOwn(s, i, outcome);
    var s', k := WorkerNext(s, i, outcome), s.workers[i].owner.value;
    WorkerStaysLocal(s, i, outcome);
    forall l | 0 <= l < |s.calls| && l != k ensures CallOk(s', l) {
      assert CallOk(s, l);
      CallUntouched(s, s', l);
    }
    forall j | 0 <= j < |s.workers| && j != i ensures WorkerOk(s', j) {
      OtherWorker(s, s', i, j);
    }
  }

  /** Nothing changes but one worker and what is logged for its owner. */
  ghost predicate Local(s: Pool, s': Pool, i: nat) {
    && i < |s.workers| == |s'.workers| && s'.calls == s.calls && s'.holder == s.holder && s'.mutex == s.mutex
    && (forall j :: 0 <= j < |s.workers| && j != i ==> s'.workers[j] == s.workers[j])
    && s'.workers[i].owner == s.workers[i].owner
    && (forall l: nat :: s.workers[i].owner != Some(l) ==> Entries(s'.log, l) == Entries(s.log, l))
  }

  lemma WorkerStaysLocal(s: Pool, i: nat, outcome: int)
    requires WorkerEnabled(s, i) && s.workers[i].owner.Some?
    ensures Local(s, WorkerNext(s, i, outcome), i)
  {
    var w := s.workers[i];
    if w.pc.Running? {
      EntriesGrow(s.log, Execution(w.owner.value, w.pc.kind, w.pc.words, outcome));
    }
  }

  lemma OtherWorker(s: Pool, s': Pool, i: nat, j: nat)
    requires Inv(s) && Local(s, s', i) && s.workers[i].owner.Some? && j < |s.workers| && j != i
    ensures WorkerOk(s', j)
  {
    assert WorkerOk(s, i) && WorkerOk(s, j);
    WorkerUntouched(s, s', j);
  }

  lemma WorkerOwn(s: Pool, i: nat, outcome: int)
    requires Inv(s) && WorkerEnabled(s, i)
    ensures WorkerOk(WorkerNext(s, i, outcome), i)
    ensures s.workers[i].owner.Some? && s.workers[i].owner.value < |s.calls|
    ensures CallOk(WorkerNext(s, i, outcome), s.workers[i].owner.value)
  {
    var w := s.workers[i];
    assert WorkerOk(s, i);
    assert CallOk(s, w.owner.value);
    if w.pc.Running? {
      EntriesGrow(s.log, Execution(w.owner.value, w.pc.kind, w.pc.words, outcome));
    }
  }

  lemma {:induction false} RunInv(n: nat, steps: seq<Step>)
    ensures Inv(Run(n, steps))
  {
    if steps != [] {
      var s := Run(n, steps[..|steps| - 1]);
      RunInv(n, steps[..|steps| - 1]);
      match steps[|steps| - 1] {
        case NewCall(kind, args) => NewCallKeeps(s, kind, args);
        case CallerStep(k) => if CallerEnabled(s, k) { CallerKeeps(s, k); }
        case WorkerStep(i, outcome) => if WorkerEnabled(s, i) { WorkerKeeps(s, i, outcome); }
      }
    }
  }

  // ----- main results -----

  /** A call that returned got the result of the one execution of its own type and words. */
  lemma CallsGetTheirOwnResult(n: nat, steps: seq<Step>, k: nat, ret: int)
    requires k < |Run(n, steps).calls| && Run(n, steps).calls[k].pc == Done(ret)
    ensures var s, c := Run(n, steps), Run(n, steps).calls[k];
      && Arity(c.kind) <= |c.args|
      && Entries(s.log, k) == [Execution(k, c.kind, c.args[..Arity(c.kind)], ret)]
  {
    RunInv(n, steps);
    assert CallOk(Run(n, steps), k);
  }

  /** No worker serves two callers at once. */
  lemma OneCallerPerWorker(n: nat, steps: seq<Step>, k: nat, l: nat)
    requires k < |Run(n, steps).calls| && l < |Run(n, steps).calls|
    requires Owned(Run(n, steps).calls[k].pc).Some?
    requires Owned(Run(n, steps).calls[k].pc) == Owned(Run(n, steps).calls[l].pc)
    ensures k == l
  {
    RunInv(n, steps);
    assert CallOk(Run(n, steps), k) && CallOk(Run(n, steps), l);
  }

  /** Neither semaphore of a worker, nor the mutex, is ever signalled above its maximum of 1. */
  lemma SemaphoresAreBinary(n: nat, steps: seq<Step>, i: nat)
    requires i < |Run(n, steps).workers|
    ensures var s := Run(n, steps);
      s.workers[i].workSema <= 1 && s.workers[i].doneSema <= 1 && s.mutex <= 1
  {
    RunInv(n, steps);
    var s := Run(n, steps);
    assert WorkerOk(s, i);
    if s.workers[i].owner.Some? {
      assert CallOk(s, s.workers[i].owner.value);
    }
  }

  /** A step that is not a new call and can be taken. */
  ghost predicate CanStep(s: Pool) {
    (exists k :: CallerEnabled(s, k)) || (exists i :: WorkerEnabled(s, i))
  }

  /** As long as a call has not returned, some caller or worker can go on. */
  lemma NoDeadlock(n: nat, steps: seq<Step>, k: nat)
    requires k < |Run(n, steps).calls| && !Run(n, steps).calls[k].pc.Done?
    ensures CanStep(Run(n, steps))
  {
    RunInv(n, steps);
    var s := Run(n, steps);
    assert CallOk(s, k);
    var pc := s.calls[k].pc;
    if CallerEnabled(s, k) {
    } else if pc.WaitDone? {
      assert WorkerOk(s, pc.i);
      assert WorkerEnabled(s, pc.i);
    } else {
      assert CallOk(s, s.holder.value);
      assert CallerEnabled(s, s.holder.value);
    }
  }
}

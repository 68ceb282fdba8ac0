/** Whatever happened before, every call of the worker pool can still return. */
module WorkerPoolProgress {
  import opened Sequences
  import opened WorkerPool
  import opened WorkerPoolProofs

  function Go(s: Pool, steps: seq<Step>): Pool
    decreases |steps|
  {
    if steps == [] then s else Go(Next(s, steps[0]), steps[1..])
  }

  lemma {:induction false} RunOn(n: nat, steps: seq<Step>, more: seq<Step>)
    ensures Run(n, steps + more) == Go(Run(n, steps), more)
    decreases |more|
  {
    if more == [] {
      assert steps + [] == steps;
    } else {
      var step, rest := more[0], more[1..];
      RunNext(n, steps, step);
      RunOn(n, steps + [step], rest);
      Regroup(steps, [step], rest);
      FirstAndRest(more);
    }
  }

  lemma RunNext(n: nat, steps: seq<Step>, step: Step)
    ensures Run(n, steps + [step]) == Next(Run(n, steps), step)
  {
    assert (steps + [step])[..|steps|] == steps;
  }

  lemma FirstAndRest<T>(s: seq<T>)
    requires s != []
    ensures [s[0]] + s[1..] == s
  {
  }

  lemma {:induction false} GoConcat(s: Pool, a: seq<Step>, b: seq<Step>)
    ensures Go(s, a + b) == Go(Go(s, a), b)
    decreases |a|
  {
    if a == [] {
      assert a + b == b;
    } else {
      GoConcat(Next(s, a[0]), a[1..], b);
      assert (a + b)[1..] == a[1..] + b;
    }
  }

  lemma OneStep(s: Pool, step: Step, more: seq<Step>)
    ensures Go(s, [step] + more) == Go(Next(s, step), more)
  {
    assert ([step] + more)[1..] == more;
  }

  lemma NextKeeps(s: Pool, step: Step)
    requires Inv(s) && !step.NewCall?
    ensures Inv(Next(s, step))
  {
    match step
    case CallerStep(k) => if CallerEnabled(s, k) { CallerKeeps(s, k); }
    case WorkerStep(i, outcome) => if WorkerEnabled(s, i) { WorkerKeeps(s, i, outcome); }
  }

  /** Only call j has moved. */
  ghost predicate OnlyCall(s: Pool, s': Pool, j: nat) {
    && |s'.calls| == |s.calls| && |s'.workers| == |s.workers|
    && forall l :: 0 <= l < |s.calls| && l != j ==> s'.calls[l] == s.calls[l]
  }

  // --- The mutex is released ---

  /** How far the call in the mutex is from leaving it. */
  ghost function InsideRank(s: Pool, pc: CallPc): nat {
    match pc
    case Scan(i) => if i <= |s.workers| then |s.workers| - i + 3 else 3
    case Mark(_) => 2
    case ClearBusy(_, _) => 2
    case _ => 1
  }

  lemma {:induction false} Release(s: Pool) returns (more: seq<Step>)
    requires Inv(s)
    ensures var s' := Go(s, more);
      && Inv(s') && s'.holder == None && |s'.calls| == |s.calls| && |s'.workers| == |s.workers|
      && forall l :: 0 <= l < |s.calls| && s.calls[l].pc.Done? ==> s'.calls[l] == s.calls[l]
    decreases if s.holder == None then 0 else InsideRank(s, s.calls[s.holder.value].pc)
  {
    if s.holder == None {
      more := [];
    } else {
      var h := s.holder.value;
      assert CallOk(s, h);
      var step := CallerStep(h);
      var s' := Next(s, step);
      NextKeeps(s, step);
      CallerFrameHolds(s, h);
      var rest := Release(s');
      more := [step] + rest;
      OneStep(s, step, rest);
    }
  }

  // --- A call with a worker finishes ---

  /** How far a call that has a worker is from its return. */
  ghost function OwnerRank(s: Pool, pc: CallPc): nat {
    match pc
    case Leave(_) => 13
    case PutType(_) => 12
    case PutArgs(_) => 11
    case SignalWork(_) => 10
    case WaitDone(i) =>
      if i < |s.workers| then
        (match s.workers[i].pc
         case WaitingWork => if s.workers[i].workSema > 0 then 9 else 5
         case Woken => 8
         case Running(_, _) => 7
         case Finished => 6)
      else 5
    case ReadRet(_) => 4
    case AwaitRelock(_, _) => 3
    case ClearBusy(_, _) => 2
    case Relinquish(_) => 1
    case _ => 0
  }

  /** Call j has a worker or is just giving it back, and nobody else is in the mutex. */
  ghost predicate OnItsWay(s: Pool, j: nat) {
    && j < |s.calls| && (Owned(s.calls[j].pc).Some? || s.calls[j].pc.Relinquish?)
    && (s.holder == None || s.holder == Some(j))
  }

  /** The step that brings call j on: its own, or its worker's. */
  lemma Advance(s: Pool, j: nat) returns (step: Step)
    requires Inv(s) && OnItsWay(s, j)
    ensures !step.NewCall?
    ensures var s' := Next(s, step);
      && Inv(s') && OnlyCall(s, s', j)
      && (if s'.calls[j].pc.Done? then s'.holder == None
          else OnItsWay(s', j) && OwnerRank(s', s'.calls[j].pc) < OwnerRank(s, s.calls[j].pc))
  {
    assert CallOk(s, j);
    var pc := s.calls[j].pc;
    if pc.WaitDone? && s.workers[pc.i].doneSema == 0 {
      assert WorkerOk(s, pc.i);
      step := WorkerStep(pc.i, 0);
    } else {
      step := CallerStep(j);
      CallerFrameHolds(s, j);
    }
    NextKeeps(s, step);
    assert CallOk(Next(s, step), j);
  }

  lemma {:induction false} Finish(s: Pool, j: nat) returns (more: seq<Step>)
    requires Inv(s) && OnItsWay(s, j)
    ensures var s' := Go(s, more);
      Inv(s') && OnlyCall(s, s', j) && s'.calls[j].pc.Done? && s'.holder == None
    decreases OwnerRank(s, s.calls[j].pc)
  {
    var step := Advance(s, j);
    var s' := Next(s, step);
    if s'.calls[j].pc.Done? {
      more := [step];
      assert Go(s', []) == s';
      OneStep(s, step, []);
    } else {
      var rest := Finish(s', j);
      more := [step] + rest;
      OneStep(s, step, rest);
    }
  }

  // --- All of them do ---

  ghost function Unfinished(calls: seq<Call>): nat {
    if calls == [] then 0 else (if calls[0].pc.Done? then 0 else 1) + Unfinished(calls[1..])
  }

  lemma {:induction false} OneLess(calls: seq<Call>, calls': seq<Call>, j: nat)
    requires |calls| == |calls'| && j < |calls| && !calls[j].pc.Done? && calls'[j].pc.Done?
    requires forall l :: 0 <= l < |calls| && l != j ==> calls'[l] == calls[l]
    ensures Unfinished(calls') < Unfinished(calls)
  {
    if j == 0 {
      assert calls[1..] == calls'[1..];
    } else {
      OneLess(calls[1..], calls'[1..], j - 1);
    }
  }

  lemma {:induction false} FinishAll(s: Pool) returns (more: seq<Step>)
    requires Inv(s) && s.holder == None
    ensures var s' := Go(s, more);
      && Inv(s') && s'.holder == None && |s'.calls| == |s.calls| && |s'.workers| == |s.workers|
      && (forall l :: 0 <= l < |s.calls| && s.calls[l].pc.Done? ==> s'.calls[l] == s.calls[l])
      && (forall l :: 0 <= l < |s.calls| ==> Owned(s'.calls[l].pc) == None)
    decreases Unfinished(s.calls)
  {
    if j :| 0 <= j < |s.calls| && Owned(s.calls[j].pc).Some? {
      var first := Finish(s, j);
      var s' := Go(s, first);
      OneLess(s.calls, s'.calls, j);
      var rest := FinishAll(s');
      more := first + rest;
      GoConcat(s, first, rest);
    } else {
      more := [];
    }
  }

  // --- A call that waits finds a worker ---

  /** With no worker taken, the first one is free. */
  lemma AllFree(s: Pool)
    requires Inv(s) && forall l :: 0 <= l < |s.calls| ==> Owned(s.calls[l].pc) == None
    ensures forall i :: 0 <= i < |s.workers| ==> !s.workers[i].busy
  {
    forall i | 0 <= i < |s.workers| ensures !s.workers[i].busy {
      assert WorkerOk(s, i);
    }
  }

  lemma Claim(s: Pool, k: nat) returns (more: seq<Step>)
    requires Inv(s) && s.holder == None && |s.workers| > 0 && k < |s.calls| && s.calls[k].pc.AwaitMutex?
    requires forall l :: 0 <= l < |s.calls| ==> Owned(s.calls[l].pc) == None
    ensures var s' := Go(s, more); Inv(s') && OnItsWay(s', k) && |s'.calls| == |s.calls|
  {
    AllFree(s);
    var step := CallerStep(k);
    var s1 := Next(s, step);
    NextKeeps(s, step);
    assert s1.calls[k].pc == Scan(0);
    var s2 := Next(s1, step);
    NextKeeps(s1, step);
    assert s2.calls[k].pc == Mark(0);
    var s3 := Next(s2, step);
    NextKeeps(s2, step);
    more := [step] + ([step] + ([step] + []));
    OneStep(s, step, [step] + ([step] + []));
    OneStep(s1, step, [step] + []);
    OneStep(s2, step, []);
    assert Go(s3, []) == s3;
  }

  /** Every interleaving with at least one worker can be continued, without new calls having to be
      made, so that a given call returns. */
  lemma EveryCallCanReturn(n: nat, steps: seq<Step>, k: nat)
    requires n > 0 && k < |Run(n, steps).calls|
    ensures exists more: seq<Step> :: k < |Run(n, steps + more).calls| && Run(n, steps + more).calls[k].pc.Done?
  {
    var s := Run(n, steps);
    RunInv(n, steps);
    WorkersStay(n, steps);
    var a := Release(s);
    var s1 := Go(s, a);
    var b := FinishAll(s1);
    var s2 := Go(s1, b);
    assert CallOk(s2, k);
    var c := [];
    if !s2.calls[k].pc.Done? {
      c := ReturnNow(s2, k);
    } else {
      assert Go(s2, c) == s2;
    }
    GoConcat(s, a, b);
    GoConcat(s, a + b, c);
    RunOn(n, steps, a + b + c);
  }

  lemma ReturnNow(s: Pool, k: nat) returns (more: seq<Step>)
    requires Inv(s) && s.holder == None && |s.workers| > 0 && k < |s.calls| && s.calls[k].pc.AwaitMutex?
    requires forall l :: 0 <= l < |s.calls| ==> Owned(s.calls[l].pc) == None
    ensures var s' := Go(s, more); k < |s'.calls| && s'.calls[k].pc.Done?
  {
    var a := Claim(s, k);
    var b := Finish(Go(s, a), k);
    more := a + b;
    GoConcat(s, a, b);
  }

  lemma {:induction false} WorkersStay(n: nat, steps: seq<Step>)
    ensures |Run(n, steps).workers| == n
  {
    if steps != [] {
      WorkersStay(n, steps[..|steps| - 1]);
      NextWorkers(Run(n, steps[..|steps| - 1]), steps[|steps| - 1]);
    }
  }

  lemma NextWorkers(s: Pool, step: Step)
    ensures |Next(s, step).workers| == |s.workers|
  {
  }
}

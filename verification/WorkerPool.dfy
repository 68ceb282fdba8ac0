/** The worker pool of workers.c as an interleaving of atomic steps: any number of callers of
    `work_using_worker` and any number of worker threads, sharing the worker records, a
    semaphore pair per worker and one mutex. */
module WorkerPool {

  datatype Option<+T> = None | Some(value: T)

  datatype WorkType =
    | INIT | TERM | PDP_CREATE | PDP_DELETE | PDP_GETSTAT | PDP_RECV | PDP_SEND
    | PTP_ACCEPT | PTP_CLOSE | PTP_CONNECT | PTP_FLUSH | PTP_GETSTAT | PTP_LISTEN | PTP_OPEN
    | PTP_RECV | PTP_SEND | POLL | SET_SOCKET_ALERT | GET_SOCKET_ALERT
    | GAMEMODE_CREATE_MASTER | GAMEMODE_CREATE_REPLICA | GAMEMODE_DELETE_MASTER
    | GAMEMODE_DELETE_REPLICA | GAMEMODE_UPDATE_MASTER | GAMEMODE_UPDATE_REPLICA

  const MAX_ARGS: nat := 14

  /** How many argument words the worker reads for a type. */
  function Arity(t: WorkType): (n: nat)
    ensures n <= MAX_ARGS
  {
    match t
    case INIT => 0
    case TERM => 0
    case PDP_CREATE => 4
    case PDP_DELETE => 2
    case PDP_GETSTAT => 2
    case PDP_RECV => 7
    case PDP_SEND => 7
    case PTP_ACCEPT => 5
    case PTP_CLOSE => 2
    case PTP_CONNECT => 3
    case PTP_FLUSH => 3
    case PTP_GETSTAT => 2
    case PTP_LISTEN => 7
    case PTP_OPEN => 8
    case PTP_RECV => 5
    case PTP_SEND => 5
    case POLL => 4
    case SET_SOCKET_ALERT => 2
    case GET_SOCKET_ALERT => 2
    case GAMEMODE_CREATE_MASTER => 2
    case GAMEMODE_CREATE_REPLICA => 3
    case GAMEMODE_DELETE_MASTER => 0
    case GAMEMODE_DELETE_REPLICA => 1
    case GAMEMODE_UPDATE_MASTER => 0
    case GAMEMODE_UPDATE_REPLICA => 2
  }

  /** Where a worker thread is. */
  datatype WorkerPc = WaitingWork | Woken | Running(kind: WorkType, words: seq<int>) | Finished

  /** A worker record. `owner` is a history variable: the call that claimed the worker. */
  datatype Worker = Worker(
    busy: bool, kind: WorkType, args: seq<int>, ret: int,
    workSema: nat, doneSema: nat, pc: WorkerPc, owner: Option<nat>)

  /** Where a caller is; i is the worker, ret its copy of the result. */
  datatype CallPc =
    | AwaitMutex | Scan(i: nat) | NoneFree | Mark(i: nat) | Leave(i: nat)
    | PutType(i: nat) | PutArgs(i: nat) | SignalWork(i: nat) | WaitDone(i: nat) | ReadRet(i: nat)
    | AwaitRelock(i: nat, ret: int) | ClearBusy(i: nat, ret: int) | Relinquish(ret: int) | Done(ret: int)

  datatype Call = Call(kind: WorkType, args: seq<int>, pc: CallPc)

  /** One execution of the requested function, and the call whose job it was. */
  datatype Execution = Execution(call: nat, kind: WorkType, words: seq<int>, ret: int)

  /** `holder` is a history variable: the call inside the mutex. */
  datatype Pool = Pool(workers: seq<Worker>, calls: seq<Call>, mutex: nat, holder: Option<nat>, log: seq<Execution>)

  function IdleWorker(args: seq<int>): Worker {
    Worker(false, INIT, args, 0, 0, 0, WaitingWork, None)
  }

  /** `init_workers` created n workers. */
  function Start(n: nat): Pool {
    Pool(seq(n, i => IdleWorker(seq(MAX_ARGS, j => 0))), [], 1, None, [])
  }

  datatype Step =
    | NewCall(kind: WorkType, args: seq<int>)
    | CallerStep(k: nat)
    | WorkerStep(i: nat, outcome: int)

  function AtCall(s: Pool, k: nat, pc: CallPc): Pool
    requires k < |s.calls|
  {
    s.(calls := s.calls[k := s.calls[k].(pc := pc)])
  }

  function AtWorker(s: Pool, i: nat, w: Worker): Pool
    requires i < |s.workers|
  {
    s.(workers := s.workers[i := w])
  }

  /** Can the caller take its next step now? The waits are for a semaphore. */
  predicate CallerEnabled(s: Pool, k: nat) {
    k < |s.calls| && match s.calls[k].pc
      case AwaitMutex => s.mutex > 0
      case AwaitRelock(_, _) => s.mutex > 0
      case WaitDone(i) => i < |s.workers| && s.workers[i].doneSema > 0
      case Done(_) => false
      case _ => true
  }

  /** `memcpy(w->args, args, ...)` */
  function CopyArgs(old': seq<int>, args: seq<int>): seq<int> {
    args + if |args| <= |old'| then old'[|args|..] else []
  }

  /** One step of `work_using_worker`. */
  function CallerNext(s: Pool, k: nat): Pool
    requires CallerEnabled(s, k)
  {
    var c := s.calls[k];
    match c.pc
    case AwaitMutex => AtCall(s, k, Scan(0)).(mutex := s.mutex - 1, holder := Some(k))
    case Scan(i) =>
      if i >= |s.workers| then AtCall(s, k, NoneFree)
      else if !s.workers[i].busy then AtCall(s, k, Mark(i))
      else AtCall(s, k, Scan(i + 1))
    case NoneFree => AtCall(s, k, AwaitMutex).(mutex := s.mutex + 1, holder := None)
    case Mark(i) =>
      if i < |s.workers| then
        AtCall(AtWorker(s, i, s.workers[i].(busy := true, owner := Some(k))), k, Leave(i)) else s
    case Leave(i) => AtCall(s, k, PutType(i)).(mutex := s.mutex + 1, holder := None)
    case PutType(i) =>
      if i < |s.workers| then AtCall(AtWorker(s, i, s.workers[i].(kind := c.kind)), k, PutArgs(i)) else s
    case PutArgs(i) =>
      if i < |s.workers| then
        AtCall(AtWorker(s, i, s.workers[i].(args := CopyArgs(s.workers[i].args, c.args))), k, SignalWork(i)) else s
    case SignalWork(i) =>
      if i < |s.workers| then
        AtCall(AtWorker(s, i, s.workers[i].(workSema := s.workers[i].workSema + 1)), k, WaitDone(i)) else s
    case WaitDone(i) =>
      AtCall(AtWorker(s, i, s.workers[i].(doneSema := s.workers[i].doneSema - 1)), k, ReadRet(i))
    case ReadRet(i) => if i < |s.workers| then AtCall(s, k, AwaitRelock(i, s.workers[i].ret)) else s
    case AwaitRelock(i, ret) => AtCall(s, k, ClearBusy(i, ret)).(mutex := s.mutex - 1, holder := Some(k))
    case ClearBusy(i, ret) =>
      if i < |s.workers| then
        AtCall(AtWorker(s, i, s.workers[i].(busy := false, owner := None)), k, Relinquish(ret)) else s
    case Relinquish(ret) => AtCall(s, k, Done(ret)).(mutex := s.mutex + 1, holder := None)
    case Done(_) => s
  }

  predicate WorkerEnabled(s: Pool, i: nat) {
    i < |s.workers| && (s.workers[i].pc == WaitingWork ==> s.workers[i].workSema > 0)
  }

  /** One step of `worker_thread_func`; the outcome is what the called function returns. */
  function WorkerNext(s: Pool, i: nat, outcome: int): Pool
    requires WorkerEnabled(s, i)
  {
    var w := s.workers[i];
    match w.pc
    case WaitingWork => AtWorker(s, i, w.(workSema := w.workSema - 1, pc := Woken))
    case Woken =>
      var words := if Arity(w.kind) <= |w.args| then w.args[..Arity(w.kind)] else w.args;
      AtWorker(s, i, w.(pc := Running(w.kind, words)))
    case Running(kind, words) =>
      var call := if w.owner.Some? then w.owner.value else |s.calls|;
      AtWorker(s, i, w.(ret := outcome, pc := Finished)).(log := s.log + [Execution(call, kind, words, outcome)])
    case Finished => AtWorker(s, i, w.(doneSema := w.doneSema + 1, pc := WaitingWork))
  }

  /** A step that cannot be taken leaves the pool as it is. Callers pass the words their type
      needs and no more than a worker record holds. */
  function Next(s: Pool, step: Step): Pool {
    match step
    case NewCall(kind, args) =>
      if Arity(kind) <= |args| <= MAX_ARGS then s.(calls := s.calls + [Call(kind, args, AwaitMutex)]) else s
    case CallerStep(k) => if CallerEnabled(s, k) then CallerNext(s, k) else s
    case WorkerStep(i, outcome) => if WorkerEnabled(s, i) then WorkerNext(s, i, outcome) else s
  }

  function Run(n: nat, steps: seq<Step>): Pool {
    if steps == [] then Start(n) else Next(Run(n, steps[..|steps| - 1]), steps[|steps| - 1])
  }
}

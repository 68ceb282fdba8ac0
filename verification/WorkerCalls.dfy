/** The parameters of the networking calls on their way through the words of a worker record: how
    main.c stores them and how the worker of workers.c takes them out. */
module WorkerCalls {
  import opened WorkerPool
  import opened WorkerPoolProofs

  /** An address or unsigned number, a signed number, a port. */
  datatype Kind = Word | Signed | Port

  const WORD: nat := 0x1_0000_0000

  predicate InRange(kind: Kind, v: int) {
    match kind
    case Word => 0 <= v < WORD
    case Signed => -0x8000_0000 <= v < 0x8000_0000
    case Port => 0 <= v < 0x1_0000
  }

  /** What is stored: a cast, or the bits of a signed number read as unsigned. */
  function ToWord(kind: Kind, v: int): int {
    if kind == Signed && v < 0 then v + WORD else v
  }

  /** What is taken out again, cut to the width of a port. */
  function FromWord(kind: Kind, w: int): int {
    match kind
    case Word => w
    case Signed => if w < 0x8000_0000 then w else w - WORD
    case Port => w % 0x1_0000
  }

  /** The parameters as main.c puts them into the words. */
  function Passed(t: WorkType): seq<Kind> {
    match t
    case INIT => []
    case TERM => []
    case PDP_CREATE => [Word, Port, Signed, Signed]
    case PDP_DELETE => [Signed, Signed]
    case PDP_GETSTAT => [Word, Word]
    case PDP_RECV => [Signed, Word, Word, Word, Word, Word, Signed]
    case PDP_SEND => [Signed, Word, Port, Word, Signed, Word, Signed]
    case PTP_ACCEPT => [Signed, Word, Word, Word, Signed]
    case PTP_CLOSE => [Signed, Signed]
    case PTP_CONNECT => [Signed, Word, Signed]
    case PTP_FLUSH => [Signed, Word, Signed]
    case PTP_GETSTAT => [Word, Word]
    case PTP_LISTEN => [Word, Port, Word, Word, Signed, Signed, Signed]
    case PTP_OPEN => [Word, Port, Word, Port, Word, Word, Signed, Signed]
    case PTP_RECV => [Signed, Word, Word, Word, Signed]
    case PTP_SEND => [Signed, Word, Word, Word, Signed]
    case POLL => [Word, Signed, Word, Signed]
    case SET_SOCKET_ALERT => [Signed, Signed]
    case GET_SOCKET_ALERT => [Signed, Word]
    case GAMEMODE_CREATE_MASTER => [Word, Word]
    case GAMEMODE_CREATE_REPLICA => [Word, Word, Word]
    case GAMEMODE_DELETE_MASTER => []
    case GAMEMODE_DELETE_REPLICA => [Signed]
    case GAMEMODE_UPDATE_MASTER => []
    case GAMEMODE_UPDATE_REPLICA => [Signed, Word]
  }

  /** How the worker reads word i of a job. */
  function TakenAs(t: WorkType, i: nat): Kind {
    match t
    case PDP_CREATE => if i == 1 then Port else if i >= 2 then Signed else Word
    case PDP_RECV => if i == 0 || i == 6 then Signed else Word
    case PDP_SEND => if i == 2 then Port else if i == 0 || i == 4 || i == 6 then Signed else Word
    case PTP_ACCEPT => if i == 0 || i == 4 then Signed else Word
    case PTP_CONNECT => if i == 1 then Word else Signed
    case PTP_FLUSH => if i == 1 then Word else Signed
    case PTP_LISTEN => if i == 1 then Port else if i >= 4 then Signed else Word
    case PTP_OPEN => if i == 1 || i == 3 then Port else if i >= 6 then Signed else Word
    case PTP_RECV => if i == 0 || i == 4 then Signed else Word
    case PTP_SEND => if i == 0 || i == 4 then Signed else Word
    case POLL => if i == 1 || i == 3 then Signed else Word
    case GET_SOCKET_ALERT => if i == 0 then Signed else Word
    case GAMEMODE_UPDATE_REPLICA => if i == 0 then Signed else Word
    case PDP_DELETE => Signed
    case PTP_CLOSE => Signed
    case SET_SOCKET_ALERT => Signed
    case GAMEMODE_DELETE_REPLICA => Signed
    case _ => Word
  }

  ghost predicate Parameters(t: WorkType, params: seq<int>) {
    |params| == |Passed(t)| && forall i :: 0 <= i < |params| ==> InRange(Passed(t)[i], params[i])
  }

  function Stored(t: WorkType, params: seq<int>): (words: seq<int>)
    requires |params| == |Passed(t)|
    ensures |words| == |params|
    ensures forall i :: 0 <= i < |words| ==> words[i] == ToWord(Passed(t)[i], params[i])
  {
    seq(|params|, i requires 0 <= i < |params| => ToWord(Passed(t)[i], params[i]))
  }

  lemma ReadBack(kind: Kind, v: int)
    requires InRange(kind, v)
    ensures FromWord(kind, ToWord(kind, v)) == v && 0 <= ToWord(kind, v) < WORD
  {
  }

  /** The worker reads as many words as were stored, and each as what it was stored as. */
  lemma SidesAgree(t: WorkType, i: nat)
    ensures Arity(t) == |Passed(t)| && (i < |Passed(t)| ==> TakenAs(t, i) == Passed(t)[i])
  {
  }

  /** A call that returned was carried out once, with exactly the parameters it was made with, and
      got the result of that. */
  lemma CallsGetTheirOwnParameters(n: nat, steps: seq<Step>, k: nat, params: seq<int>, ret: int)
    requires k < |Run(n, steps).calls| && Run(n, steps).calls[k].pc == Done(ret)
    requires var c := Run(n, steps).calls[k]; Parameters(c.kind, params) && c.args == Stored(c.kind, params)
    ensures var s, c := Run(n, steps), Run(n, steps).calls[k];
      && |Entries(s.log, k)| == 1
      && var e := Entries(s.log, k)[0];
         && e.kind == c.kind && e.ret == ret && |e.words| == |params|
         && forall i :: 0 <= i < |params| ==> FromWord(TakenAs(e.kind, i), e.words[i]) == params[i]
  {
    CallsGetTheirOwnResult(n, steps, k, ret);
    var c := Run(n, steps).calls[k];
    SidesAgree(c.kind, 0);
    assert c.args[..Arity(c.kind)] == c.args;
    forall i | 0 <= i < |params| ensures FromWord(TakenAs(c.kind, i), c.args[i]) == params[i] {
      SidesAgree(c.kind, i);
      ReadBack(Passed(c.kind)[i], params[i]);
    }
  }
}

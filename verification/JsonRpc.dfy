/** The JSON-RPC 2.0 conversation between GoBackendClient and the Go backend over the backend's stdin
    and stdout. The client is a class whose methods are proved against functions on its state; those
    functions, the server loop and the two pipes make up a step system, and the theorems at the end
    speak about every run of it. */
module JsonRpc {
  import opened Text

  // ---------------------------------------------------------------- wire format

  /** The value of an `id` member: a number, or any other JSON value as raw text. */
  datatype Id = Number(n: int) | Raw(text: string)

  /** `name` is the request's `method` member. */
  datatype Request = Request(id: Option<Id>, name: string, params: string)

  /** `result` is absent when the handler returned nil (the field is `omitempty`). */
  datatype Reply = Result(value: Option<string>) | Error(code: int, message: string)

  /** A line on the server's stdin. `TooLong` exceeds the scanner's one megabyte buffer. */
  datatype InLine = Blank | Garbled | TooLong | Call(request: Request)

  /** A line on the server's stdout: text that is not JSON, or a message with an optional id. */
  datatype OutLine = Noise | Message(id: Option<Id>, reply: Reply)

  // ---------------------------------------------------------------- server

  const PARSE_ERROR := Message(None, Error(-32700, "Parse error"))
  const NO_RUNTIME := Error(-32000, "neither podman nor docker found in PATH")

  /** What the handler returns for a request, and whether it can be marshalled. */
  datatype Handled = Handled(id: Option<Id>, reply: Reply, marshals: bool)

  /** Handlers build their responses with successResponse and errorResponse, which copy the request's
      id; only the two sidecar handlers can return a response that carries none. */
  predicate Echoes(req: Request, h: Handled) {
    || h.id == req.id
    || (req.name in {"sidecar.start", "sidecar.stop"} && h.id == None && h.reply == NO_RUNTIME)
  }

  /** processRequest followed by writeResponseTo: the line written for one input line, if any. */
  function Answer(line: InLine, h: Handled): Option<OutLine> {
    match line
    case Blank | TooLong => None
    case Garbled => Some(PARSE_ERROR)
    case Call(_) => if h.marshals then Some(Message(h.id, h.reply)) else None
  }

  /** The handler as the loop sees it. The position stands for whatever state the handler keeps. */
  type Handler = (nat, Request) -> Handled

  /** How many lines the scanner yields before it gives up on an over-long one. */
  function Scanned(lines: seq<InLine>): (n: nat)
    ensures n <= |lines|
    ensures forall k :: 0 <= k < n ==> !lines[k].TooLong?
    ensures n < |lines| ==> lines[n].TooLong?
  {
    if lines == [] || lines[0].TooLong? then 0 else 1 + Scanned(lines[1..])
  }

  /** `line` is the answer to input line `k`: the handler's, if it can be marshalled, or the parse error. */
  predicate IsAnswerTo(lines: seq<InLine>, k: nat, handler: Handler, line: OutLine)
    requires k < |lines|
  {
    match lines[k]
    case Call(req) =>
      var h := handler(k, req);
      h.marshals && line == Message(h.id, h.reply)
    case Garbled => line == Message(None, Error(-32700, "Parse error"))
    case Blank | TooLong => false
  }

  /** `source` lists, for every output line, the input line that it answers: in input order, each input
      line at most once, and leaving out no line that has an answer. */
  ghost predicate AnswersInOrder(lines: seq<InLine>, n: nat, handler: Handler, out: seq<OutLine>, source: seq<nat>)
    requires n <= |lines|
  {
    && |source| == |out|
    && (forall i, j :: 0 <= i < j < |source| ==> source[i] < source[j])
    && (forall j :: 0 <= j < |source| ==> source[j] < n && IsAnswerTo(lines, source[j], handler, out[j]))
    && (forall k, line :: 0 <= k < n && IsAnswerTo(lines, k, handler, line) ==> k in source)
  }

  function HandledAt(lines: seq<InLine>, k: nat, handler: Handler): Handled
    requires k < |lines|
  {
    if lines[k].Call? then handler(k, lines[k].request) else Handled(None, Result(None), true)
  }

  /** handleStream: one pass over the input, at most one response per line, in order. */
  method HandleStream(lines: seq<InLine>, handler: Handler) returns (out: seq<OutLine>, failed: bool)
    ensures exists source :: AnswersInOrder(lines, Scanned(lines), handler, out, source)
    ensures failed <==> Scanned(lines) < |lines|
  {
    out, failed := [], false;
    ghost var source: seq<nat> := [];
    for k := 0 to |lines|
      invariant !failed && k <= Scanned(lines)
      invariant AnswersInOrder(lines, k, handler, out, source)
    {
      if lines[k].TooLong? {
        failed := true;
        assert k == Scanned(lines);
        return;
      }
      if !lines[k].Blank? {
        var answer := Answer(lines[k], HandledAt(lines, k, handler));
        if answer.Some? {
          out, source := out + [answer.value], source + [k];
          assert source[|source| - 1] == k;
        }
      }
    }
  }

  // ---------------------------------------------------------------- client

  datatype Reason =
    | RpcError(code: int, message: string)
    | TimedOut | WriteFailed | Exited | StdoutClosed | SpawnFailed | NotRunning

  /** How the promise returned by `call` ended. */
  datatype Outcome = Resolved(value: Option<string>) | Rejected(reason: Reason)

  datatype Readiness = Waiting | Fulfilled | Failed

  /** The bookkeeping of `call`: `timers` are the armed timeouts, `outcomes` the settled promises. */
  datatype Calls = Calls(nextId: int, pending: set<Id>, timers: set<Id>, outcomes: map<Id, Outcome>)

  /** The life of the client and its process. `spawns` counts the processes ever started, `closing` the
      `shutdown` calls that wait for their RPC, and `crashes` those that called `kill` on null. */
  datatype Life = Life(
    ready: bool, readiness: Readiness, startPromise: bool, resumed: bool, started: bool,
    process: bool, spawns: nat, closing: nat, crashes: nat)

  datatype Client = Client(calls: Calls, life: Life)

  const NO_CALLS := Calls(1, {}, {}, map[])
  const NOT_STARTED := Life(false, Waiting, false, false, false, false, 0, 0, 0)

  /** A promise keeps its first settlement: later resolve and reject calls do nothing. */
  function Settle(c: Calls, id: Id, o: Outcome): Calls {
    if id in c.outcomes then c else c.(outcomes := c.outcomes[id := o])
  }

  /** Drops the pending entry and its timer, then settles the promise. */
  function Conclude(c: Calls, id: Id, o: Outcome): Calls {
    Settle(c.(pending := c.pending - {id}, timers := c.timers - {id}), id, o)
  }

  /** `call` once waitForReady has let it through: allocates an id and registers the pending call. */
  function BeginCall(c: Calls, process: bool): Calls {
    var id := Number(c.nextId);
    if process then
      c.(nextId := c.nextId + 1, pending := c.pending + {id}, timers := c.timers + {id})
    else
      Settle(c.(nextId := c.nextId + 1), id, Rejected(NotRunning))
  }

  /** The outcomes once the promises of `ids` have been rejected; those already settled stay as they are. */
  function Rejecting(ids: set<Id>, outcomes: map<Id, Outcome>, reason: Reason): map<Id, Outcome> {
    (map id | id in ids :: Rejected(reason)) + outcomes
  }

  lemma RejectOneMore(ids: set<Id>, id: Id, outcomes: map<Id, Outcome>, reason: Reason)
    ensures Rejecting({}, outcomes, reason) == outcomes
    ensures var m := Rejecting(ids, outcomes, reason);
            Rejecting(ids + {id}, outcomes, reason) == if id in m then m else m[id := Rejected(reason)]
  {
  }

  function RejectAll(c: Calls, reason: Reason): Calls {
    c.(pending := {}, timers := c.timers - c.pending, outcomes := Rejecting(c.pending, c.outcomes, reason))
  }

  function OutcomeOf(reply: Reply): Outcome {
    match reply
    case Result(v) => Resolved(v)
    case Error(code, message) => Rejected(RpcError(code, message))
  }

  /** handleLine after the readiness part: only a line with the id of a pending call does anything. */
  function Route(c: Calls, line: OutLine): Calls {
    if line.Message? && line.id.Some? && line.id.value in c.pending
    then Conclude(c, line.id.value, OutcomeOf(line.reply))
    else c
  }

  function BeginStart(l: Life): Life {
    if l.started || l.startPromise then l
    else l.(startPromise := true, process := true, spawns := l.spawns + 1)
  }

  /** The promise that `start` returns: a fulfilled one, or the shared one of the first `start`, which
      follows the ready promise. */
  function StartResult(l: Life): Readiness {
    if l.started || l.resumed then Fulfilled else if l.readiness.Failed? then Failed else Waiting
  }

  /** The rest of `start`, after the ready promise is fulfilled. */
  function Resume(l: Life): Life {
    l.(resumed := true, started := true)
  }

  function FailSpawn(l: Life): Life {
    if l.readiness.Waiting? then l.(readiness := Failed) else l
  }

  function MarkReady(l: Life): Life {
    if l.ready then l
    else l.(ready := true, readiness := if l.readiness.Waiting? then Fulfilled else l.readiness)
  }

  function EndShutdown(l: Life): Life
    requires l.closing > 0
  {
    if l.process then l.(process := false, started := false, closing := l.closing - 1)
    else l.(crashes := l.crashes + 1, closing := l.closing - 1)
  }

  class GoBackendClient {
    var nextId: int
    var pending: set<Id>
    var timers: set<Id>
    var outcomes: map<Id, Outcome>
    var ready: bool
    var readiness: Readiness
    var startPromise: bool
    var resumed: bool
    var started: bool
    var process: bool
    var spawns: nat
    var closing: nat
    var crashes: nat

    ghost function CallState(): Calls
      reads this
    {
      Calls(nextId, pending, timers, outcomes)
    }

    ghost function LifeState(): Life
      reads this
    {
      Life(ready, readiness, startPromise, resumed, started, process, spawns, closing, crashes)
    }

    constructor (lazy: bool)
      ensures CallState() == NO_CALLS
      ensures LifeState() == if lazy then NOT_STARTED else BeginStart(NOT_STARTED)
    {
      nextId, pending, timers, outcomes := 1, {}, {}, map[];
      ready, readiness, startPromise, resumed, started := false, Waiting, false, false, false;
      process, spawns, closing, crashes := false, 0, 0, 0;
      new;
      if !lazy {
        var _ := Start();
      }
    }

    /** `promise` is the state of the promise that is returned, at the time of the call. */
    method Start() returns (promise: Readiness)
      modifies this`startPromise, this`process, this`spawns
      ensures LifeState() == BeginStart(old(LifeState()))
      ensures promise == StartResult(LifeState())
    {
      if started {
        return Fulfilled;
      }
      if !startPromise {
        startPromise := true;
        process, spawns := true, spawns + 1;
      }
      return if resumed then Fulfilled else if readiness.Failed? then Failed else Waiting;
    }

    method SettlePromise(id: Id, o: Outcome)
      modifies this`outcomes
      ensures outcomes == if id in old(outcomes) then old(outcomes) else old(outcomes)[id := o]
    {
      if id !in outcomes {
        outcomes := outcomes[id := o];
      }
    }

    /** Returns the id of the new request, and whether its line is handed to the pipe. */
    method Call() returns (id: Id, written: bool)
      modifies this`nextId, this`pending, this`timers, this`outcomes
      ensures CallState() == BeginCall(old(CallState()), process)
      ensures id == Number(old(nextId)) && written == process
    {
      id := Number(nextId);
      nextId := nextId + 1;
      written := process;
      if !process {
        SettlePromise(id, Rejected(NotRunning));
      } else {
        timers := timers + {id};
        pending := pending + {id};
      }
    }

    method OnTimeout(id: Id)
      requires id in timers
      modifies this`pending, this`timers, this`outcomes
      ensures CallState() == Conclude(old(CallState()), id, Rejected(TimedOut))
    {
      timers := timers - {id};
      pending := pending - {id};
      SettlePromise(id, Rejected(TimedOut));
    }

    method OnWriteError(id: Id)
      modifies this`pending, this`timers, this`outcomes
      ensures CallState() == Conclude(old(CallState()), id, Rejected(WriteFailed))
    {
      timers := timers - {id};
      pending := pending - {id};
      SettlePromise(id, Rejected(WriteFailed));
    }

    method OnLine(line: OutLine)
      modifies this`ready, this`readiness, this`pending, this`timers, this`outcomes
      ensures CallState() == Route(old(CallState()), line)
      ensures LifeState() == MarkReady(old(LifeState()))
    {
      if !ready {
        ready := true;
        if readiness.Waiting? {
          readiness := Fulfilled;
        }
      }
      if line.Noise? || line.id.None? {
        return;
      }
      var id := line.id.value;
      if id !in pending {
        return;
      }
      pending := pending - {id};
      timers := timers - {id};
      SettlePromise(id, OutcomeOf(line.reply));
    }

    /** Rejects every pending call, whatever order the entries come in. */
    method RejectAllPending(reason: Reason)
      modifies this`pending, this`timers, this`outcomes
      ensures CallState() == RejectAll(old(CallState()), reason)
    {
      ghost var pending0, timers0, outcomes0 := pending, timers, outcomes;
      var entries := pending;
      RejectOneMore({}, Number(0), outcomes, reason);
      while entries != {}
        invariant entries == pending <= pending0
        invariant timers == timers0 - (pending0 - entries)
        invariant outcomes == Rejecting(pending0 - entries, outcomes0, reason)
        decreases entries
      {
        var id :| id in entries;
        RejectOneMore(pending0 - entries, id, outcomes0, reason);
        assert pending0 - (entries - {id}) == pending0 - entries + {id};
        timers := timers - {id};
        SettlePromise(id, Rejected(reason));
        pending := pending - {id};
        entries := entries - {id};
      }
      assert pending0 - entries == pending0;
    }

    /** The process fails to start: the ready promise and every pending call are rejected. */
    method OnSpawnError()
      modifies this`readiness, this`pending, this`timers, this`outcomes
      ensures CallState() == RejectAll(old(CallState()), SpawnFailed)
      ensures LifeState() == FailSpawn(old(LifeState()))
    {
      if readiness.Waiting? {
        readiness := Failed;
      }
      RejectAllPending(SpawnFailed);
    }

    /** The part of `shutdown` after its RPC has ended, one way or the other. */
    method FinishShutdown()
      requires closing > 0
      modifies this`closing, this`process, this`started, this`crashes
      ensures LifeState() == EndShutdown(old(LifeState()))
    {
      closing := closing - 1;
      if process {
        process := false;
        started := false;
      } else {
        crashes := crashes + 1;
      }
    }
  }
}

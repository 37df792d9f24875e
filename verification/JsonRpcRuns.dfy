/** Client, pipes and server as one step system, and what holds in every run of it. Both pipes are kept
    as the full history of lines with a cursor, so that a line never loses its place in the order. */
module JsonRpcRuns {
  import opened Text
  import opened JsonRpc

  /** A line the server wrote, and the position of the input line it answers, if it answers one. */
  datatype Emission = Emission(line: OutLine, source: Option<nat>)

  /** `issued` records the request behind every id; `answers` the handler's response to every input line
      read so far, `delivered` how many output lines the client has seen. */
  datatype World = World(
    client: Client, issued: map<Id, Request>,
    sent: seq<InLine>, answers: seq<Handled>,
    emitted: seq<Emission>, delivered: nat, serverUp: bool)

  const INITIAL := World(Client(NO_CALLS, NOT_STARTED), map[], [], [], [], 0, false)

  /** `Invoke` is a `call` past waitForReady; `written` is the line that reaches the server's stdin: the
      request itself, a torn, blank or over-long line, or nothing. `Chatter` is any other output. */
  datatype Step =
    | Launch | Relaunch
    | Invoke(name: string, params: string, written: Option<InLine>)
    | Serve(h: Handled) | Chatter(line: OutLine) | Deliver
    | TimeOut(id: Id) | WriteError(id: Id)
    | Exit | CloseStdout | SpawnError
    | BeginShutdown | FinishShutdown

  predicate IsIssued(c: Calls, id: Id) {
    id.Number? && 1 <= id.n < c.nextId
  }

  function NextRequest(c: Calls, name: string, params: string): Request {
    Request(Some(Number(c.nextId)), name, params)
  }

  predicate Enabled(w: World, step: Step) {
    var calls, life := w.client.calls, w.client.life;
    match step
    case Launch => true
    case Relaunch => life.startPromise && life.readiness.Fulfilled? && !life.resumed
    case Invoke(name, params, written) =>
      && life.ready
      && (written.Some? && written.value.Call? ==> written.value.request == NextRequest(calls, name, params))
      && (!life.process ==> written.None?)
    case Serve(h) =>
      && w.serverUp && |w.answers| < |w.sent|
      && (w.sent[|w.answers|].Call? ==> Echoes(w.sent[|w.answers|].request, h))
    case Chatter(line) => w.serverUp && (line.Message? ==> line.id.None?)
    case Deliver => w.delivered < |w.emitted|
    case TimeOut(id) => id in calls.timers
    case WriteError(id) => IsIssued(calls, id)
    case Exit | CloseStdout | SpawnError => life.startPromise
    case BeginShutdown => life.process
    case FinishShutdown => life.closing > 0
  }

  function ApplyCalls(w: World, step: Step): Calls
    requires Enabled(w, step)
  {
    var calls := w.client.calls;
    match step
    case Invoke(_, _, _) => BeginCall(calls, w.client.life.process)
    case Deliver => Route(calls, w.emitted[w.delivered].line)
    case TimeOut(id) => Conclude(calls, id, Rejected(TimedOut))
    case WriteError(id) => Conclude(calls, id, Rejected(WriteFailed))
    case Exit => RejectAll(calls, Exited)
    case CloseStdout => RejectAll(calls, StdoutClosed)
    case SpawnError => RejectAll(calls, SpawnFailed)
    case Launch | Relaunch | Serve(_) | Chatter(_) | BeginShutdown | FinishShutdown => calls
  }

  function ApplyLife(life: Life, step: Step): Life
    requires step.FinishShutdown? ==> life.closing > 0
  {
    match step
    case Launch => BeginStart(life)
    case Relaunch => Resume(life)
    case Deliver => MarkReady(life)
    case SpawnError => FailSpawn(life)
    case BeginShutdown => life.(closing := life.closing + 1)
    case FinishShutdown => EndShutdown(life)
    case _ => life
  }

  function ServeLine(w: World, h: Handled): World
    requires |w.answers| < |w.sent|
  {
    var k := |w.answers|;
    var answer := Answer(w.sent[k], h);
    w.(answers := w.answers + [h],
       emitted := if answer.Some? then w.emitted + [Emission(answer.value, Some(k))] else w.emitted,
       serverUp := !w.sent[k].TooLong?)
  }

  /** What a step does to the pipes and to the server. */
  function ApplyPipes(w: World, step: Step): World
    requires Enabled(w, step)
  {
    match step
    case Launch => w.(serverUp := w.serverUp || !w.client.life.startPromise)
    case Invoke(name, params, written) =>
      w.(issued := w.issued[Number(w.client.calls.nextId) := NextRequest(w.client.calls, name, params)],
         sent := if written.Some? then w.sent + [written.value] else w.sent)
    case Serve(h) => ServeLine(w, h)
    case Chatter(line) => w.(emitted := w.emitted + [Emission(line, None)])
    case Deliver => w.(delivered := w.delivered + 1)
    case Exit | SpawnError => w.(serverUp := false)
    case _ => w
  }

  function Apply(w: World, step: Step): World
    requires Enabled(w, step)
  {
    ApplyPipes(w, step).(client := Client(ApplyCalls(w, step), ApplyLife(w.client.life, step)))
  }

  predicate Legal(w: World, run: seq<Step>)
    decreases |run|
  {
    run == [] || (Enabled(w, run[0]) && Legal(Apply(w, run[0]), run[1..]))
  }

  function After(w: World, run: seq<Step>): World
    requires Legal(w, run)
    decreases |run|
  {
    if run == [] then w else After(Apply(w, run[0]), run[1..])
  }

  /** What a step does to the pipes: calls write to the server's stdin, the server reads it line by line and
      writes, and the client reads that line by line; nothing is lost or reordered. */
  lemma PipesStepByStep(w: World, step: Step)
    requires Enabled(w, step)
    ensures var after, id := Apply(w, step), Number(w.client.calls.nextId);
            && after.sent == w.sent + (if step.Invoke? && step.written.Some? then [step.written.value] else [])
            && after.issued ==
               (if step.Invoke? then w.issued[id := Request(Some(id), step.name, step.params)] else w.issued)
            && after.answers == w.answers + (if step.Serve? then [step.h] else [])
            && w.emitted <= after.emitted && |after.emitted| <= |w.emitted| + 1
            && (|after.emitted| > |w.emitted| ==> step.Serve? || step.Chatter?)
            && (step.Chatter? ==> after.emitted == w.emitted + [Emission(step.line, None)])
            && after.delivered == w.delivered + (if step.Deliver? then 1 else 0)
            && (after.serverUp <==>
                  || (step.Launch? && !w.client.life.startPromise)
                  || (w.serverUp && !step.Exit? && !step.SpawnError?
                      && !(step.Serve? && w.sent[|w.answers|] == TooLong)))
  {
  }

  // ---------------------------------------------------------------- invariant

  /** Every id handed out is pending with its timer armed, or settled; never both; and no other id is. */
  ghost predicate Bookkeeping(c: Calls) {
    && c.nextId >= 1
    && c.timers == c.pending
    && c.pending !! c.outcomes.Keys
    && (forall id :: id in c.pending || id in c.outcomes <==> IsIssued(c, id))
  }

  ghost predicate Lifecycle(l: Life) {
    && l.spawns == (if l.startPromise then 1 else 0)
    && (l.process || l.started || l.resumed || l.closing > 0 || l.crashes > 0 ==> l.startPromise)
    && (l.readiness.Fulfilled? ==> l.ready) && (l.ready ==> !l.readiness.Waiting?)
    && (l.started ==> l.resumed)
  }

  predicate IsRequestOf(w: World, line: InLine) {
    line.Call? ==> line.request.id.Some? && IsIssued(w.client.calls, line.request.id.value)
                   && line.request.id.value in w.issued && w.issued[line.request.id.value] == line.request
  }

  function IdOf(line: InLine): int {
    if line.Call? && line.request.id.Some? && line.request.id.value.Number? then line.request.id.value.n else 0
  }

  /** The requests on the server's stdin are the issued ones, in the order in which they were issued. */
  ghost predicate Requests(w: World) {
    && (forall id :: id in w.issued <==> IsIssued(w.client.calls, id))
    && (forall k :: 0 <= k < |w.sent| ==> IsRequestOf(w, w.sent[k]))
    && (forall k, l ::
          0 <= k < l < |w.sent| && w.sent[k].Call? && w.sent[l].Call? ==> IdOf(w.sent[k]) < IdOf(w.sent[l]))
  }

  ghost predicate IsAnswer(sent: seq<InLine>, answers: seq<Handled>, e: Emission) {
    match e.source
    case None => e.line.Message? ==> e.line.id.None?
    case Some(k) => k < |answers| && k < |sent| && Answer(sent[k], answers[k]) == Some(e.line)
  }

  ghost predicate Responses(w: World) {
    && |w.answers| <= |w.sent| && w.delivered <= |w.emitted|
    && (forall k :: 0 <= k < |w.answers| && w.sent[k].Call? ==> Echoes(w.sent[k].request, w.answers[k]))
    && (forall j :: 0 <= j < |w.emitted| ==> IsAnswer(w.sent, w.answers, w.emitted[j]))
    && (forall i, j :: 0 <= i < j < |w.emitted| && w.emitted[i].source.Some? && w.emitted[j].source.Some? ==>
          w.emitted[i].source.value < w.emitted[j].source.value)
  }

  /** `o` is a result with the value of this reply, or a JSON-RPC error with its code and message. */
  predicate IsReply(o: Outcome, reply: Reply) {
    match o
    case Resolved(v) => reply == Result(v)
    case Rejected(RpcError(code, message)) => reply == Error(code, message)
    case Rejected(_) => false
  }

  /** Input line `k` is the request issued under `id`, and `o` is what the handler answered to it. */
  ghost predicate Answered(w: World, id: Id, o: Outcome, k: nat) {
    && k < |w.answers| && k < |w.sent|
    && id in w.issued && w.sent[k] == Call(w.issued[id])
    && w.answers[k].id == Some(id) && IsReply(o, w.answers[k].reply)
  }

  predicate FromServer(o: Outcome) {
    o.Resolved? || o.reason.RpcError?
  }

  ghost predicate Correlated(w: World) {
    forall id :: id in w.client.calls.outcomes && FromServer(w.client.calls.outcomes[id]) ==>
      exists k: nat :: Answered(w, id, w.client.calls.outcomes[id], k)
  }

  ghost predicate Inv(w: World) {
    Bookkeeping(w.client.calls) && Lifecycle(w.client.life) && Requests(w) && Responses(w) && Correlated(w)
  }

  lemma BookkeepingKept(w: World, step: Step)
    requires Bookkeeping(w.client.calls) && Enabled(w, step)
    ensures Bookkeeping(Apply(w, step).client.calls)
  {
  }

  lemma LifecycleKept(w: World, step: Step)
    requires Lifecycle(w.client.life) && Enabled(w, step)
    ensures Lifecycle(Apply(w, step).client.life)
  {
  }

  lemma RequestsKept(w: World, step: Step)
    requires Requests(w) && w.client.calls.nextId >= 1 && Enabled(w, step)
    ensures Requests(Apply(w, step))
  {
    if step.Invoke? {
      RequestsKeptByCall(w, step);
    } else {
      SameRequests(w, Apply(w, step));
    }
  }

  lemma RequestsKeptByCall(w: World, step: Step)
    requires Requests(w) && w.client.calls.nextId >= 1 && step.Invoke? && Enabled(w, step)
    ensures Requests(Apply(w, step))
  {
    assert forall k :: 0 <= k < |w.sent| ==> IsRequestOf(w, w.sent[k]);
  }

  lemma SameRequests(w: World, w': World)
    requires Requests(w)
    requires w'.sent == w.sent && w'.issued == w.issued && w'.client.calls.nextId == w.client.calls.nextId
    ensures Requests(w')
  {
    assert forall k :: 0 <= k < |w.sent| ==> IsRequestOf(w, w.sent[k]);
  }

  lemma ResponsesKept(w: World, step: Step)
    requires Responses(w) && Enabled(w, step)
    ensures Responses(Apply(w, step))
  {
  }

  lemma AnsweredKept(w: World, step: Step, id: Id, o: Outcome, k: nat)
    requires Answered(w, id, o, k) && Requests(w) && w.client.calls.nextId >= 1 && Enabled(w, step)
    ensures Answered(Apply(w, step), id, o, k)
  {
  }

  lemma CorrelatedKept(w: World, step: Step)
    requires Inv(w) && Enabled(w, step)
    ensures Correlated(Apply(w, step))
  {
    var w' := Apply(w, step);
    forall id | id in w'.client.calls.outcomes && FromServer(w'.client.calls.outcomes[id])
      ensures exists k: nat :: Answered(w', id, w'.client.calls.outcomes[id], k)
    {
      var o := w'.client.calls.outcomes[id];
      if id in w.client.calls.outcomes {
        assert w.client.calls.outcomes[id] == o;
        var k: nat :| Answered(w, id, o, k);
        AnsweredKept(w, step, id, o, k);
      } else {
        DeliveredAnswer(w, id);
        var k := w.emitted[w.delivered].source.value;
        assert Answered(w', id, o, k);
      }
    }
  }

  /** A line that carries the id of a pending call is the handler's answer to the request of that call. */
  lemma DeliveredAnswer(w: World, id: Id)
    requires Inv(w) && Enabled(w, Deliver) && id in w.client.calls.pending
    requires var line := w.emitted[w.delivered].line; line.Message? && line.id == Some(id)
    ensures w.emitted[w.delivered].source.Some?
    ensures Answered(w, id, OutcomeOf(w.emitted[w.delivered].line.reply), w.emitted[w.delivered].source.value)
  {
    var e := w.emitted[w.delivered];
    assert IsAnswer(w.sent, w.answers, e);
    var k := e.source.value;
    assert IsRequestOf(w, w.sent[k]);
  }

  lemma InvKept(w: World, step: Step)
    requires Inv(w) && Enabled(w, step)
    ensures Inv(Apply(w, step))
  {
    BookkeepingKept(w, step);
    LifecycleKept(w, step);
    RequestsKept(w, step);
    ResponsesKept(w, step);
    CorrelatedKept(w, step);
  }

  lemma {:induction false} InvAlongRun(w: World, run: seq<Step>)
    requires Inv(w) && Legal(w, run)
    ensures Inv(After(w, run))
    decreases |run|
  {
    if run != [] {
      InvKept(w, run[0]);
      InvAlongRun(Apply(w, run[0]), run[1..]);
    }
  }

  // ---------------------------------------------------------------- theorems

  /** Exactly once: after any run, each id handed out is either pending, with its timeout armed, or
      settled, and not both; nothing else is pending, armed or settled. */
  lemma EachIdIsPendingOrSettled(run: seq<Step>)
    requires Legal(INITIAL, run)
    ensures var c := After(INITIAL, run).client.calls;
            && (forall n :: 1 <= n < c.nextId ==> (Number(n) in c.pending <==> Number(n) !in c.outcomes))
            && (forall id :: id in c.pending || id in c.outcomes || id in c.timers ==> IsIssued(c, id))
            && c.timers == c.pending
  {
    InvAlongRun(INITIAL, run);
    var c := After(INITIAL, run).client.calls;
    forall n | 1 <= n < c.nextId
      ensures Number(n) in c.pending <==> Number(n) !in c.outcomes
    {
      assert IsIssued(c, Number(n));
    }
  }

  /** A settlement is final: no later step of any kind changes it. */
  lemma {:induction false} SettlementIsFinal(w: World, run: seq<Step>, id: Id)
    requires Legal(w, run) && id in w.client.calls.outcomes
    ensures id in After(w, run).client.calls.outcomes
    ensures After(w, run).client.calls.outcomes[id] == w.client.calls.outcomes[id]
    decreases |run|
  {
    if run != [] {
      SettlementIsFinal(Apply(w, run[0]), run[1..], id);
    }
  }

  /** Correlation: what a call resolves to is what the handler answered to that call's own request, and
      the server read that request only once. The same holds for JSON-RPC errors. */
  lemma SettledWithOwnAnswer(run: seq<Step>, id: Id)
    requires Legal(INITIAL, run)
    requires id in After(INITIAL, run).client.calls.outcomes
    requires var o := After(INITIAL, run).client.calls.outcomes[id]; o.Resolved? || o.reason.RpcError?
    ensures var w := After(INITIAL, run);
            exists k: nat :: Answered(w, id, w.client.calls.outcomes[id], k)
                        && forall l ::
                             0 <= l < |w.sent| && w.sent[l].Call? && w.sent[l].request.id == Some(id) ==> l == k
  {
    InvAlongRun(INITIAL, run);
    var w := After(INITIAL, run);
    var k: nat :| Answered(w, id, w.client.calls.outcomes[id], k);
    assert IsRequestOf(w, w.sent[k]);
    forall l | 0 <= l < |w.sent| && w.sent[l].Call? && w.sent[l].request.id == Some(id)
      ensures l == k
    {
      assert IsRequestOf(w, w.sent[l]);
      assert IdOf(w.sent[l]) == IdOf(w.sent[k]);
    }
  }

  /** What settles a call that is not settled yet, and how: the answer to it, its own timeout, its own failed
      write, the end of the process, or that there was no process; and nothing else. */
  lemma OnlyTheseSettle(run: seq<Step>, step: Step, id: Id)
    requires Legal(INITIAL, run) && Enabled(After(INITIAL, run), step)
    requires id !in After(INITIAL, run).client.calls.outcomes
    ensures var w := After(INITIAL, run);
            var c, after := w.client.calls, Apply(w, step).client.calls.outcomes;
            match step
            case Deliver =>
              var line := w.emitted[w.delivered].line;
              && (id in after <==> IsIssued(c, id) && line.Message? && line.id == Some(id))
              && (id in after ==> IsReply(after[id], line.reply))
            case Invoke(_, _, _) =>
              (id in after <==> id == Number(c.nextId) && !w.client.life.process)
              && (id in after ==> after[id] == Rejected(NotRunning))
            case TimeOut(other) =>
              (id in after <==> id == other) && (id in after ==> after[id] == Rejected(TimedOut))
            case WriteError(other) =>
              (id in after <==> id == other) && (id in after ==> after[id] == Rejected(WriteFailed))
            case Exit =>
              (id in after <==> IsIssued(c, id)) && (id in after ==> after[id] == Rejected(Exited))
            case CloseStdout =>
              (id in after <==> IsIssued(c, id)) && (id in after ==> after[id] == Rejected(StdoutClosed))
            case SpawnError =>
              (id in after <==> IsIssued(c, id)) && (id in after ==> after[id] == Rejected(SpawnFailed))
            case _ => id !in after
  {
    InvAlongRun(INITIAL, run);
  }

  /** Late answers, answers to unknown ids and lines without an id leave the calls alone. */
  lemma StrayLinesAreDropped(run: seq<Step>)
    requires Legal(INITIAL, run) && Enabled(After(INITIAL, run), Deliver)
    ensures var w := After(INITIAL, run);
            var line := w.emitted[w.delivered].line;
            (Apply(w, Deliver).client.calls == w.client.calls
             <==> !(line.Message? && line.id.Some? && IsIssued(w.client.calls, line.id.value)
                    && line.id.value !in w.client.calls.outcomes))
  {
    InvAlongRun(INITIAL, run);
  }

  /** Once the process has exited or closed its stdout, every id handed out so far is settled. */
  lemma NothingPendingAfterExit(run: seq<Step>, last: Step)
    requires Legal(INITIAL, run) && Enabled(After(INITIAL, run), last)
    requires last.Exit? || last.CloseStdout? || last.SpawnError?
    ensures var c := Apply(After(INITIAL, run), last).client.calls;
            c.pending == {} && c.timers == {} && forall n :: 1 <= n < c.nextId ==> Number(n) in c.outcomes
  {
    InvAlongRun(INITIAL, run);
    var c := After(INITIAL, run).client.calls;
    assert forall n :: 1 <= n < c.nextId ==> IsIssued(c, Number(n));
  }

  /** A response without its request's id answers a line that did not parse, or is a sidecar handler's. */
  predicate ResponseFits(line: InLine, response: OutLine) {
    match line
    case Call(req) =>
      || (response.Message? && response.id == req.id)
      || (response == Message(None, NO_RUNTIME) && req.name in {"sidecar.start", "sidecar.stop"})
    case Garbled => response == PARSE_ERROR
    case Blank | TooLong => false
  }

  /** The server's responses follow the order of the requests, at most one for each line, and
      what it writes of its own accord carries no id. */
  lemma ServerAnswersInOrder(run: seq<Step>, i: nat, j: nat)
    requires Legal(INITIAL, run) && i < j < |After(INITIAL, run).emitted|
    ensures var w := After(INITIAL, run);
            var e, f := w.emitted[i], w.emitted[j];
            && (e.source.Some? && f.source.Some? ==> e.source.value < f.source.value < |w.answers|)
            && (e.source.Some? ==> e.source.value < |w.sent| && ResponseFits(w.sent[e.source.value], e.line))
            && (e.source.None? && e.line.Message? ==> e.line.id.None?)
  {
    InvAlongRun(INITIAL, run);
    var w := After(INITIAL, run);
    assert IsAnswer(w.sent, w.answers, w.emitted[i]) && IsAnswer(w.sent, w.answers, w.emitted[j]);
  }

  predicate IsEmitted(w: World, line: OutLine, k: nat) {
    exists j :: 0 <= j < |w.emitted| && w.emitted[j] == Emission(line, Some(k))
  }

  predicate IsUnanswered(w: World, k: nat) {
    forall j :: 0 <= j < |w.emitted| ==> w.emitted[j].source != Some(k)
  }

  /** What the server has written for input line `k`, which it has read. */
  predicate IsServed(w: World, k: nat) {
    && k < |w.answers| <= |w.sent|
    && match w.sent[k]
       case Blank | TooLong => IsUnanswered(w, k)
       case Garbled => IsEmitted(w, Message(None, Error(-32700, "Parse error")), k)
       case Call(_) =>
         if w.answers[k].marshals then IsEmitted(w, Message(w.answers[k].id, w.answers[k].reply), k)
         else IsUnanswered(w, k)
  }

  ghost predicate AllServed(w: World) {
    forall k :: 0 <= k < |w.answers| ==> IsServed(w, k)
  }

  lemma ServedKept(w: World, step: Step)
    requires Responses(w) && AllServed(w) && Enabled(w, step)
    ensures AllServed(Apply(w, step))
  {
    var w' := Apply(w, step);
    forall k | 0 <= k < |w'.answers|
      ensures IsServed(w', k)
    {
      if k < |w.answers| {
        assert IsServed(w, k);
        assert forall j :: 0 <= j < |w.emitted| ==> w'.emitted[j] == w.emitted[j];
      } else if Answer(w.sent[k], w'.answers[k]).Some? {
        assert w'.emitted[|w.emitted|].source == Some(k);
      }
    }
  }

  /** Every response delivered so far has settled its call, if nothing had before. */
  ghost predicate AllTaken(w: World) {
    forall j :: 0 <= j < |w.emitted| && j < w.delivered && w.emitted[j].line.Message? && w.emitted[j].line.id.Some? ==>
      w.emitted[j].line.id.value in w.client.calls.outcomes
  }

  lemma TakenKept(w: World, step: Step)
    requires Inv(w) && AllTaken(w) && Enabled(w, step)
    ensures AllTaken(Apply(w, step))
  {
    if step.Deliver? {
      var e := w.emitted[w.delivered];
      assert IsAnswer(w.sent, w.answers, e);
      if e.source.Some? {
        assert IsRequestOf(w, w.sent[e.source.value]);
      }
    }
  }

  lemma {:induction false} ServedAndTakenAlongRun(w: World, run: seq<Step>)
    requires Inv(w) && AllServed(w) && AllTaken(w) && Legal(w, run)
    ensures AllServed(After(w, run)) && AllTaken(After(w, run))
    decreases |run|
  {
    if run != [] {
      InvKept(w, run[0]);
      ServedKept(w, run[0]);
      TakenKept(w, run[0]);
      ServedAndTakenAlongRun(Apply(w, run[0]), run[1..]);
    }
  }

  /** Every request that the server reads is answered with the handler's own reply, unless that cannot be
      marshalled; a line that does not parse is answered by the parse error, and no other line at all. */
  lemma RequestsAreAnswered(run: seq<Step>, k: nat)
    requires Legal(INITIAL, run) && k < |After(INITIAL, run).answers|
    ensures IsServed(After(INITIAL, run), k)
  {
    ServedAndTakenAlongRun(INITIAL, run);
  }

  /** A call whose answer has been delivered is settled. */
  lemma DeliveredAnswersSettle(run: seq<Step>, j: nat)
    requires Legal(INITIAL, run) && j < After(INITIAL, run).delivered
    ensures var w := After(INITIAL, run);
            && j < |w.emitted|
            && (w.emitted[j].line.Message? && w.emitted[j].line.id.Some? ==>
                  w.emitted[j].line.id.value in w.client.calls.outcomes)
  {
    InvAlongRun(INITIAL, run);
    ServedAndTakenAlongRun(INITIAL, run);
  }

  /** What a step does to the life of the client. */
  predicate IsLifeAfter(before: Life, step: Step, after: Life) {
    && (after.readiness ==
        if before.readiness == Waiting && step.Deliver? then Fulfilled
        else if before.readiness == Waiting && step.SpawnError? then Failed
        else before.readiness)
    && (after.process <==> (before.process && !step.FinishShutdown?) || (step.Launch? && !before.startPromise))
    && after.spawns == before.spawns + (if step.Launch? && !before.startPromise then 1 else 0)
    && (after.started <==> step.Relaunch? || (before.started && !(step.FinishShutdown? && before.process)))
    && after.closing == before.closing + (if step.BeginShutdown? then 1 else if step.FinishShutdown? then -1 else 0)
    && after.crashes == before.crashes + (if step.FinishShutdown? && !before.process then 1 else 0)
  }

  lemma LifeOfStep(before: Life, step: Step)
    requires Lifecycle(before) && (step.FinishShutdown? ==> before.closing > 0)
    ensures IsLifeAfter(before, step, ApplyLife(before, step))
  {
  }

  /** In every run the steps do just that. */
  lemma LifeStepByStep(run: seq<Step>, step: Step)
    requires Legal(INITIAL, run) && Enabled(After(INITIAL, run), step)
    ensures var w := After(INITIAL, run); IsLifeAfter(w.client.life, step, Apply(w, step).client.life)
  {
    InvAlongRun(INITIAL, run);
    LifeOfStep(After(INITIAL, run).client.life, step);
  }

  lemma {:induction false} FlagsFollowRun(w: World, run: seq<Step>)
    requires Lifecycle(w.client.life) && Legal(w, run)
    ensures var before, after := w.client.life, After(w, run).client.life;
            && (after.ready <==> before.ready || exists k :: 0 <= k < |run| && run[k].Deliver?)
            && (after.resumed <==> before.resumed || exists k :: 0 <= k < |run| && run[k].Relaunch?)
            && (after.startPromise <==> before.startPromise || exists k :: 0 <= k < |run| && run[k].Launch?)
    decreases |run|
  {
    if run != [] {
      LifecycleKept(w, run[0]);
      FlagsFollowRun(Apply(w, run[0]), run[1..]);
      FlagsShift(run);
    }
  }

  lemma FlagsShift(run: seq<Step>)
    requires run != []
    ensures (exists k :: 0 <= k < |run| && run[k].Deliver?) <==>
            run[0].Deliver? || exists k :: 0 <= k < |run[1..]| && run[1..][k].Deliver?
    ensures (exists k :: 0 <= k < |run| && run[k].Relaunch?) <==>
            run[0].Relaunch? || exists k :: 0 <= k < |run[1..]| && run[1..][k].Relaunch?
    ensures (exists k :: 0 <= k < |run| && run[k].Launch?) <==>
            run[0].Launch? || exists k :: 0 <= k < |run[1..]| && run[1..][k].Launch?
  {
    forall k | 1 <= k < |run|
      ensures run[k] == run[1..][k - 1]
    {
    }
    forall k | 0 <= k < |run[1..]|
      ensures run[1..][k] == run[k + 1]
    {
    }
  }

  /** After every run: the client is ready once a line has been delivered; and `start` returns a fulfilled promise
      once the first `start` was resumed, a failed one if the process failed to start before any line came, and one
      that waits otherwise. */
  lemma StartFollowsRun(run: seq<Step>)
    requires Legal(INITIAL, run)
    ensures var l := After(INITIAL, run).client.life;
            && (l.ready <==> exists k :: 0 <= k < |run| && run[k].Deliver?)
            && (l.startPromise <==> exists k :: 0 <= k < |run| && run[k].Launch?)
            && StartResult(l) == if exists k :: 0 <= k < |run| && run[k].Relaunch? then Fulfilled
                                 else if l.readiness == Failed then Failed
                                 else Waiting
  {
    InvAlongRun(INITIAL, run);
    FlagsFollowRun(INITIAL, run);
  }

  lemma RunStep(w: World, step: Step, rest: seq<Step>)
    requires Enabled(w, step) && Legal(Apply(w, step), rest)
    ensures Legal(w, [step] + rest) && After(w, [step] + rest) == After(Apply(w, step), rest)
  {
    assert ([step] + rest)[1..] == rest;
  }

  /** The process has started and logged a line, which the client has seen. */
  const READY := World(Client(NO_CALLS, Life(true, Fulfilled, true, false, false, true, 1, 0, 0)), map[],
                       [], [], [Emission(Noise, None)], 1, true)

  lemma BecomesReady(rest: seq<Step>)
    requires Legal(READY, rest)
    ensures Legal(INITIAL, [Launch] + ([Chatter(Noise)] + ([Deliver] + rest)))
    ensures After(INITIAL, [Launch] + ([Chatter(Noise)] + ([Deliver] + rest))) == After(READY, rest)
  {
    var w1 := Apply(INITIAL, Launch);
    var w2 := Apply(w1, Chatter(Noise));
    assert Apply(w2, Deliver) == READY;
    RunStep(w2, Deliver, rest);
    RunStep(w1, Chatter(Noise), [Deliver] + rest);
    RunStep(INITIAL, Launch, [Chatter(Noise)] + ([Deliver] + rest));
  }

  lemma CallIsAnswered(request: Request, result: Option<string>) returns (rest: seq<Step>)
    requires request.id == Some(Number(1))
    ensures Legal(READY, rest)
    ensures After(READY, rest).client.calls.outcomes == map[Number(1) := Resolved(result)]
    ensures After(READY, rest).issued == map[Number(1) := request]
  {
    var call := Invoke(request.name, request.params, Some(Call(request)));
    var answer := Serve(Handled(Some(Number(1)), Result(result), true));
    var w1 := Apply(READY, call);
    var w2 := Apply(w1, answer);
    RunStep(w2, Deliver, []);
    RunStep(w1, answer, [Deliver] + []);
    rest := [call] + ([answer] + ([Deliver] + []));
    RunStep(READY, call, [answer] + ([Deliver] + []));
  }

  /** The simplest conversation: a call is answered and resolves with the result, whatever that is. */
  lemma OneCallResolves(name: string, params: string, result: Option<string>) returns (run: seq<Step>)
    ensures Legal(INITIAL, run)
    ensures After(INITIAL, run).client.calls.outcomes == map[Number(1) := Resolved(result)]
    ensures After(INITIAL, run).issued == map[Number(1) := Request(Some(Number(1)), name, params)]
  {
    var rest := CallIsAnswered(Request(Some(Number(1)), name, params), result);
    BecomesReady(rest);
    run := [Launch] + ([Chatter(Noise)] + ([Deliver] + rest));
  }

  /** However often and in whatever order `start`, `call` and `shutdown` run, at most one process is
      ever spawned; and once `shutdown` has dropped it, it never comes back and later calls all fail. */
  lemma {:induction false} NeverRestarts(w: World, run: seq<Step>)
    requires Bookkeeping(w.client.calls) && Lifecycle(w.client.life) && Legal(w, run)
    requires w.client.life.startPromise && !w.client.life.process
    ensures var l := After(w, run).client.life; l.spawns == 1 && !l.process
    ensures var c := After(w, run).client.calls;
            forall n :: w.client.calls.nextId <= n < c.nextId ==>
              Number(n) in c.outcomes && c.outcomes[Number(n)] == Rejected(NotRunning)
    decreases |run|
  {
    if run != [] {
      var w1 := Apply(w, run[0]);
      BookkeepingKept(w, run[0]);
      LifecycleKept(w, run[0]);
      NeverRestarts(w1, run[1..]);
      if run[0].Invoke? {
        SettlementIsFinal(w1, run[1..], Number(w.client.calls.nextId));
      }
    }
  }

  /** Once the first `start` has been fulfilled, every later one is, also after `shutdown`: it returns the
      old promise, and does not bring the process back. */
  lemma {:induction false} LaterStartsAreFulfilled(w: World, run: seq<Step>)
    requires Legal(w, run) && w.client.life.resumed
    ensures var l := After(w, run).client.life; StartResult(l) == StartResult(BeginStart(l)) == Fulfilled
    decreases |run|
  {
    if run != [] {
      LaterStartsAreFulfilled(Apply(w, run[0]), run[1..]);
    }
  }

  lemma SpawnedAtMostOnce(run: seq<Step>)
    requires Legal(INITIAL, run)
    ensures After(INITIAL, run).client.life.spawns <= 1
  {
    InvAlongRun(INITIAL, run);
  }

  /** No `shutdown` begins while another one is still waiting for its RPC. */
  predicate Sequential(w: World, run: seq<Step>)
    requires Legal(w, run)
    decreases |run|
  {
    run == [] || ((run[0].BeginShutdown? ==> w.client.life.closing == 0) && Sequential(Apply(w, run[0]), run[1..]))
  }

  /** Number of `shutdown` calls that are bound to find no process any more. */
  function Doomed(l: Life): int {
    l.crashes + l.closing - (if l.process then 1 else 0)
  }

  lemma {:induction false} DoomedNeverFalls(w: World, run: seq<Step>)
    requires Lifecycle(w.client.life) && w.client.life.startPromise && Legal(w, run)
    ensures Doomed(After(w, run).client.life) >= Doomed(w.client.life)
    decreases |run|
  {
    if run != [] {
      LifecycleKept(w, run[0]);
      DoomedNeverFalls(Apply(w, run[0]), run[1..]);
    }
  }

  lemma {:induction false} CrashesMeanOverlap(w: World, run: seq<Step>)
    requires Lifecycle(w.client.life) && Legal(w, run)
    requires var l := w.client.life; l.crashes == 0 && l.closing <= 1 && (l.closing == 1 ==> l.process)
    requires After(w, run).client.life.closing == 0
    ensures After(w, run).client.life.crashes > 0 <==> !Sequential(w, run)
    decreases |run|
  {
    if run != [] {
      LifecycleKept(w, run[0]);
      var w1 := Apply(w, run[0]);
      if run[0].BeginShutdown? && w.client.life.closing == 1 {
        DoomedNeverFalls(w1, run[1..]);
      } else {
        CrashesMeanOverlap(w1, run[1..]);
      }
    }
  }

  /** `shutdown` is safe to call again only when the earlier call has returned: in a run whose shutdowns
      have all returned, one of them called `kill` on null exactly when two of them overlapped. */
  lemma ShutdownCrashesExactlyOnOverlap(run: seq<Step>)
    requires Legal(INITIAL, run) && After(INITIAL, run).client.life.closing == 0
    ensures After(INITIAL, run).client.life.crashes > 0 <==> !Sequential(INITIAL, run)
  {
    CrashesMeanOverlap(INITIAL, run);
  }

  const OVERLAPPING_SHUTDOWNS := [Launch, BeginShutdown, BeginShutdown, FinishShutdown, FinishShutdown]

  lemma OverlappingShutdownsCrash()
    ensures Legal(INITIAL, OVERLAPPING_SHUTDOWNS)
    ensures After(INITIAL, OVERLAPPING_SHUTDOWNS).client.life.crashes == 1
  {
    var w1 := Apply(INITIAL, Launch);
    var w2 := Apply(w1, BeginShutdown);
    var w3 := Apply(w2, BeginShutdown);
    var w4 := Apply(w3, FinishShutdown);
    var run := OVERLAPPING_SHUTDOWNS;
    assert run[4..] == [FinishShutdown] && Legal(w4, run[4..]);
    assert Legal(w3, run[3..]) by { assert run[3..][1..] == run[4..]; }
    assert Legal(w2, run[2..]) by { assert run[2..][1..] == run[3..]; }
    assert Legal(w1, run[1..]) by { assert run[1..][1..] == run[2..]; }
  }
}

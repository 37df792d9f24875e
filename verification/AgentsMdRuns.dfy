/** Every run of concurrent `loadAgentsMd` calls and file changes: what a call returns was on disk while it
    ran, exactly under the condition that mtimes vouch for the contents between them. */
module AgentsMdRuns {
  import opened Text
  import opened AgentsMdCache

  // ---------------------------------------------------------------- putting runs together

  lemma Prepend(w: World, step: Step, rest: seq<Step>)
    requires Enabled(w, step) && Legal(Apply(w, step), rest)
    ensures Legal(w, [step] + rest) && After(w, [step] + rest) == After(Apply(w, step), rest)
  {
    assert ([step] + rest)[1..] == rest;
  }

  lemma {:induction false} Chain(w: World, first: seq<Step>, second: seq<Step>)
    requires Legal(w, first) && Legal(After(w, first), second)
    ensures Legal(w, first + second) && After(w, first + second) == After(After(w, first), second)
    decreases |first|
  {
    if first == [] {
      assert first + second == second;
    } else {
      Chain(Apply(w, first[0]), first[1..], second);
      Prepend(w, first[0], first[1..] + second);
      assert [first[0]] + (first[1..] + second) == first + second;
    }
  }

  lemma {:induction false} DoneIsFinal(w: World, run: seq<Step>, i: nat)
    requires Legal(w, run) && i < |w.calls| && w.calls[i].phase.Done?
    ensures i < |After(w, run).calls| && After(w, run).calls[i] == w.calls[i]
    decreases |run|
  {
    if run != [] {
      DoneIsFinal(Apply(w, run[0]), run[1..], i);
    }
  }

  /** The steps up to the one with which call `i` returned. */
  lemma {:induction false} ReturnPoint(w: World, run: seq<Step>, i: nat) returns (n: nat)
    requires Legal(w, run) && i < |After(w, run).calls| && After(w, run).calls[i].phase.Done?
    requires i < |w.calls| ==> !w.calls[i].phase.Done?
    ensures n <= |run| && Legal(w, run[..n]) && i < |After(w, run[..n]).calls|
    ensures After(w, run[..n]).calls[i] == After(w, run).calls[i]
    ensures |After(w, run[..n]).history| == After(w, run).calls[i].phase.end + 1
    ensures After(w, run[..n]).history <= After(w, run).history
    decreases |run|
  {
    n := 0;
    if run != [] {
      var next, rest := Apply(w, run[0]), run[1..];
      if i < |next.calls| && next.calls[i].phase.Done? {
        n := 1;
        DoneIsFinal(next, rest, i);
        HistoryGrows(next, rest);
        Prepend(w, run[0], []);
        assert run[..1] == [run[0]] + [];
      } else {
        var m := ReturnPoint(next, rest, i);
        n := m + 1;
        Prepend(w, run[0], rest[..m]);
        assert run[..n] == [run[0]] + rest[..m];
      }
    }
  }

  // ---------------------------------------------------------------- what is returned

  predicate Returned(disk: Disk, run: seq<Step>, i: nat) {
    Legal(Initial(disk), run) && i < |After(Initial(disk), run).calls| && After(Initial(disk), run).calls[i].phase.Done?
  }

  ghost predicate UnreadableDuring(history: seq<Disk>, path: string, begin: nat, end: nat) {
    exists t: nat :: begin <= t <= end && WasUnreadable(history, path, t)
  }

  ghost predicate OnDiskDuring(history: seq<Disk>, path: string, content: string, begin: nat, end: nat) {
    exists t: nat :: begin <= t <= end && HadContent(history, path, t, content)
  }

  /** A returned content was that of a candidate at some instant of the call, and every candidate before it
      (all of them, if the call returned null) was unreadable at some instant of it. */
  ghost predicate IsHonest(history: seq<Disk>, c: CallState)
    requires c.phase.Done?
  {
    match c.phase.result
    case Some(content) =>
      exists k: nat :: k < |c.candidates| && OnDiskDuring(history, c.candidates[k], content, c.begin, c.phase.end)
                       && forall j :: 0 <= j < k ==> UnreadableDuring(history, c.candidates[j], c.begin, c.phase.end)
    case None =>
      forall j :: 0 <= j < |c.candidates| ==> UnreadableDuring(history, c.candidates[j], c.begin, c.phase.end)
  }

  lemma TruthfulIsHonest(seen: seq<Disk>, c: CallState)
    requires Truthful(seen, c) && c.phase.Done? && |seen| == c.phase.end + 1
    ensures IsHonest(seen, c)
  {
    assert SeenBy(seen, c) == seen;
    forall j | 0 <= j < c.next
      ensures UnreadableDuring(seen, c.candidates[j], c.begin, c.phase.end)
    {
      var t: nat :| c.begin <= t && WasUnreadable(seen, c.candidates[j], t);
    }
    if c.phase.result.Some? {
      var t: nat :| c.begin <= t && HadContent(seen, c.candidates[c.next], t, c.phase.result.value);
      assert OnDiskDuring(seen, c.candidates[c.next], c.phase.result.value, c.begin, c.phase.end);
    }
  }

  lemma UnreadableLater(early: seq<Disk>, late: seq<Disk>, path: string, begin: nat, end: nat)
    requires early <= late && UnreadableDuring(early, path, begin, end)
    ensures UnreadableDuring(late, path, begin, end)
  {
    var t: nat :| begin <= t <= end && WasUnreadable(early, path, t);
    assert WasUnreadable(late, path, t);
  }

  lemma OnDiskLater(early: seq<Disk>, late: seq<Disk>, path: string, content: string, begin: nat, end: nat)
    requires early <= late && OnDiskDuring(early, path, content, begin, end)
    ensures OnDiskDuring(late, path, content, begin, end)
  {
    var t: nat :| begin <= t <= end && HadContent(early, path, t, content);
    assert HadContent(late, path, t, content);
  }

  lemma HonestLater(early: seq<Disk>, late: seq<Disk>, c: CallState)
    requires early <= late && c.phase.Done? && IsHonest(early, c)
    ensures IsHonest(late, c)
  {
    forall j | 0 <= j < |c.candidates| && UnreadableDuring(early, c.candidates[j], c.begin, c.phase.end)
      ensures UnreadableDuring(late, c.candidates[j], c.begin, c.phase.end)
    {
      UnreadableLater(early, late, c.candidates[j], c.begin, c.phase.end);
    }
    if c.phase.result.Some? {
      var content := c.phase.result.value;
      var k: nat :| k < |c.candidates| && OnDiskDuring(early, c.candidates[k], content, c.begin, c.phase.end)
                    && forall j :: 0 <= j < k ==> UnreadableDuring(early, c.candidates[j], c.begin, c.phase.end);
      OnDiskLater(early, late, c.candidates[k], content, c.begin, c.phase.end);
    }
  }

  /** Any number of concurrent calls and changes: if mtimes vouch for contents up to the return of a call,
      whatever happens to the files later, that call is honest. */
  lemma ReturnedContentWasOnDisk(disk: Disk, run: seq<Step>, i: nat)
    requires Returned(disk, run, i)
    requires var w := After(Initial(disk), run); MtimesVouch(SeenBy(w.history, w.calls[i]))
    ensures var w := After(Initial(disk), run);
            w.calls[i].begin <= w.calls[i].phase.end < |w.history| && IsHonest(w.history, w.calls[i])
  {
    var w := After(Initial(disk), run);
    var n := ReturnPoint(Initial(disk), run, i);
    var past := After(Initial(disk), run[..n]);
    assert past.history == SeenBy(w.history, w.calls[i]);
    InvAlongRun(Initial(disk), run[..n]);
    assert Truthful(past.history, past.calls[i]);
    TruthfulIsHonest(past.history, w.calls[i]);
    HonestLater(past.history, w.history, w.calls[i]);
  }

  lemma {:induction false} FirstReadableAt(disk: Disk, candidates: seq<string>, k: nat)
    requires k <= |candidates| && forall j :: 0 <= j < k ==> !IsReadable(disk, candidates[j])
    ensures FirstReadable(disk, candidates)
         == if k == |candidates| then None else FirstReadable(disk, candidates[k..])
  {
    if k > 0 {
      FirstReadableAt(disk, candidates[1..], k - 1);
      assert candidates[1..][k - 1..] == candidates[k..];
    }
  }

  /** When no file changes while a call runs, whatever the other calls do meanwhile, the call returns what
      reading the candidates without a cache would have returned. */
  lemma QuietCallReadsThrough(disk: Disk, run: seq<Step>, i: nat)
    requires Returned(disk, run, i)
    requires var w := After(Initial(disk), run);
             w.calls[i].begin == w.calls[i].phase.end && MtimesVouch(SeenBy(w.history, w.calls[i]))
    ensures var w := After(Initial(disk), run);
            var c := w.calls[i];
            c.begin < |w.history| && c.phase.result == FirstReadable(w.history[c.begin], c.candidates)
  {
    ReturnedContentWasOnDisk(disk, run, i);
    var w := After(Initial(disk), run);
    HonestAtOnce(w.history, w.calls[i]);
  }

  lemma HonestAtOnce(history: seq<Disk>, c: CallState)
    requires c.phase.Done? && c.begin == c.phase.end < |history| && IsHonest(history, c)
    ensures c.phase.result == FirstReadable(history[c.begin], c.candidates)
  {
    var disk := history[c.begin];
    if c.phase.result.Some? {
      var content := c.phase.result.value;
      var k: nat :| k < |c.candidates| && OnDiskDuring(history, c.candidates[k], content, c.begin, c.phase.end)
                    && forall j :: 0 <= j < k ==> UnreadableDuring(history, c.candidates[j], c.begin, c.phase.end);
      FirstReadableAt(disk, c.candidates, k);
    } else {
      FirstReadableAt(disk, c.candidates, |c.candidates|);
    }
  }

  // ---------------------------------------------------------------- why mtimes must vouch

  /** The run leads from one world to the other. */
  predicate Leads(from: World, run: seq<Step>, to: World) {
    Legal(from, run) && After(from, run) == to
  }

  lemma LeadsOn(from: World, run: seq<Step>, middle: World, more: seq<Step>, to: World)
    requires Leads(from, run, middle) && Leads(middle, more, to)
    ensures Leads(from, run + more, to)
  {
    Chain(from, run, more);
  }

  /** The changes that lead from instant `a` of a history to instant `b`. */
  function Changes(history: seq<Disk>, a: nat, b: nat): seq<Step>
    requires b < |history|
    decreases b - a
  {
    if a >= b then [] else [Change(history[a + 1])] + Changes(history, a + 1, b)
  }

  lemma {:induction false} ChangesLead(w: World, history: seq<Disk>, a: nat, b: nat)
    requires a <= b < |history| && w.history == history[..a + 1]
    ensures Leads(w, Changes(history, a, b), w.(history := history[..b + 1]))
    decreases b - a
  {
    if a < b {
      var next := Apply(w, Change(history[a + 1]));
      assert next.history == history[..a + 2];
      ChangesLead(next, history, a + 1, b);
      Prepend(w, Change(history[a + 1]), Changes(history, a + 1, b));
    }
  }

  /** Three steps and two steps, as runs. */
  function Start(path: string, i: nat): seq<Step> {
    [Begin([path])] + ([Advance(i)] + ([Advance(i)] + []))
  }

  function Finish(i: nat): seq<Step> {
    [Advance(i)] + ([Advance(i)] + [])
  }

  /** A first call looks at the mtime and does not find it in the empty cache. */
  lemma LookMiss(w: World, path: string, mtime: int)
    requires w.history != [] && w.cache == map[] && w.calls == []
    requires HadMtime(w.history, path, |w.history| - 1, mtime)
    ensures Leads(w, Start(path, 0), w.(calls := [CallState([path], 0, Read(mtime), |w.history| - 1)]))
  {
    var w1 := Apply(w, Begin([path]));
    var w2 := Apply(w1, Advance(0));
    Prepend(w2, Advance(0), []);
    Prepend(w1, Advance(0), [Advance(0)] + []);
    Prepend(w, Begin([path]), [Advance(0)] + ([Advance(0)] + []));
  }

  /** Later it reads and stores what is there by then. */
  lemma ReadAndStore(w: World, path: string, mtime: int, content: string, begin: nat)
    requires w.history != [] && w.cache == map[] && w.calls == [CallState([path], 0, Read(mtime), begin)]
    requires HadContent(w.history, path, |w.history| - 1, content)
    ensures Leads(w, Finish(0), World(w.history, map[path := Entry(content, mtime)],
                                      [CallState([path], 0, Done(Some(content), |w.history| - 1), begin)]))
  {
    var w1 := Apply(w, Advance(0));
    Prepend(w1, Advance(0), []);
    Prepend(w, Advance(0), [Advance(0)] + []);
  }

  /** A second call finds the mtime in the cache. */
  lemma LaterCallHits(w: World, path: string, mtime: int)
    requires path in w.cache && w.cache[path].mtime == mtime && |w.calls| == 1
    requires w.history != [] && HadMtime(w.history, path, |w.history| - 1, mtime)
    ensures var now := |w.history| - 1;
            Leads(w, Start(path, 1),
                  w.(calls := w.calls + [CallState([path], 0, Done(Some(w.cache[path].content), now), now)]))
  {
    var w1 := Apply(w, Begin([path]));
    var w2 := Apply(w1, Advance(1));
    Prepend(w2, Advance(1), []);
    Prepend(w1, Advance(1), [Advance(1)] + []);
    Prepend(w, Begin([path]), [Advance(1)] + ([Advance(1)] + []));
  }

  /** The first call: `stat` at j, read at t and store. */
  lemma FirstCallStores(history: seq<Disk>, path: string, j: nat, t: nat, mtime: int, content: string)
    returns (run: seq<Step>)
    requires j <= t < |history| && HadMtime(history, path, j, mtime) && HadContent(history, path, t, content)
    ensures Leads(Initial(history[0]), run, World(history[..t + 1], map[path := Entry(content, mtime)],
                                                  [CallState([path], 0, Done(Some(content), t), j)]))
  {
    var w0 := Initial(history[0]);
    assert w0.history == history[..1];
    var w1 := w0.(history := history[..j + 1]);
    ChangesLead(w0, history, 0, j);
    var w2 := w1.(calls := [CallState([path], 0, Read(mtime), j)]);
    LookMiss(w1, path, mtime);
    LeadsOn(w0, Changes(history, 0, j), w1, Start(path, 0), w2);
    var w3 := w2.(history := history[..t + 1]);
    ChangesLead(w2, history, j, t);
    LeadsOn(w0, Changes(history, 0, j) + Start(path, 0), w2, Changes(history, j, t), w3);
    ReadAndStore(w3, path, mtime, content, j);
    run := Changes(history, 0, j) + Start(path, 0) + Changes(history, j, t) + Finish(0);
    LeadsOn(w0, Changes(history, 0, j) + Start(path, 0) + Changes(history, j, t), w3, Finish(0),
            World(history[..t + 1], map[path := Entry(content, mtime)],
                  [CallState([path], 0, Done(Some(content), t), j)]));
  }

  /** For any history, a second call at k, where the mtime is that of j again, returns the content of t. */
  lemma SecondCallReturns(history: seq<Disk>, path: string, j: nat, t: nat, k: nat, mtime: int, content: string)
      returns (run: seq<Step>, last: World)
    requires j <= t <= k < |history|
    requires HadMtime(history, path, j, mtime) && HadContent(history, path, t, content)
             && HadMtime(history, path, k, mtime)
    ensures Leads(Initial(history[0]), run, last) && last.history == history
    ensures |last.calls| == 2 && last.calls[1] == CallState([path], 0, Done(Some(content), k), k)
  {
    var w0 := Initial(history[0]);
    var first := FirstCallStores(history, path, j, t, mtime, content);
    var w4 := World(history[..t + 1], map[path := Entry(content, mtime)],
                    [CallState([path], 0, Done(Some(content), t), j)]);
    var w5 := w4.(history := history[..k + 1]);
    ChangesLead(w4, history, t, k);
    LeadsOn(w0, first, w4, Changes(history, t, k), w5);
    var w6 := w5.(calls := w5.calls + [CallState([path], 0, Done(Some(content), k), k)]);
    LaterCallHits(w5, path, mtime);
    LeadsOn(w0, first + Changes(history, t, k), w5, Start(path, 1), w6);
    var n := |history| - 1;
    last := w6.(history := history[..n + 1]);
    ChangesLead(w6, history, k, n);
    LeadsOn(w0, first + Changes(history, t, k) + Start(path, 1), w6, Changes(history, k, n), last);
    run := first + Changes(history, t, k) + Start(path, 1) + Changes(history, k, n);
  }

  /** Every call of every run with this history is honest. */
  ghost predicate AllCallsHonest(history: seq<Disk>)
    requires history != []
  {
    forall run, i: nat :: Returned(history[0], run, i) && After(Initial(history[0]), run).history == history ==>
      IsHonest(history, After(Initial(history[0]), run).calls[i])
  }

  lemma StaleIsNotHonest(history: seq<Disk>, path: string, content: string, k: nat)
    requires !HadContent(history, path, k, content)
    ensures !IsHonest(history, CallState([path], 0, Done(Some(content), k), k))
  {
    assert !OnDiskDuring(history, path, content, k, k);
  }

  /** For every history of the files: all calls of all runs with it are honest if and only if, in it, mtimes
      vouch for contents. */
  lemma HonestExactlyWhenMtimesVouch(history: seq<Disk>)
    requires history != []
    ensures AllCallsHonest(history) <==> MtimesVouch(history)
  {
    if MtimesVouch(history) {
      forall run, i: nat | Returned(history[0], run, i) && After(Initial(history[0]), run).history == history
        ensures IsHonest(history, After(Initial(history[0]), run).calls[i])
      {
        var c := After(Initial(history[0]), run).calls[i];
        VouchedBefore(SeenBy(history, c), history);
        ReturnedContentWasOnDisk(history[0], run, i);
      }
    } else {
      var path, j: nat, t: nat, k: nat, mtime, content :|
        && j <= t <= k && HadMtime(history, path, j, mtime) && HadMtime(history, path, k, mtime)
        && HadContent(history, path, t, content)
        && !HadContent(history, path, k, content);
      var run, last := SecondCallReturns(history, path, j, t, k, mtime, content);
      StaleIsNotHonest(history, path, content, k);
      assert Returned(history[0], run, 1);
    }
  }
}

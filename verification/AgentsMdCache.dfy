/** The mtime-validated cache behind `loadAgentsMd`: the function on its own, and any number of calls whose
    file accesses interleave with each other and with changes to the files. */
module AgentsMdCache {
  import opened Text

  /** A path that `stat` finds. `content` is absent when reading it fails, as for a directory. */
  datatype File = File(content: Option<string>, mtime: int)

  type Disk = map<string, File>

  datatype Entry = Entry(content: string, mtime: int)

  type Cache = map<string, Entry>

  predicate IsReadable(disk: Disk, path: string) {
    path in disk && disk[path].content.Some?
  }

  /** The uncached answer: the content of the first candidate that can be read. */
  function FirstReadable(disk: Disk, candidates: seq<string>): Option<string> {
    if candidates == [] then None
    else if IsReadable(disk, candidates[0]) then disk[candidates[0]].content
    else FirstReadable(disk, candidates[1..])
  }

  // ---------------------------------------------------------------- one call on its own

  /** Whether the cache holds this path with this mtime. */
  predicate IsHit(cache: Cache, path: string, mtime: int) {
    path in cache && cache[path].mtime == mtime
  }

  /** What a call returns, and what it leaves in the cache, while nobody else touches files or cache. */
  function CachedRead(cache: Cache, disk: Disk, candidates: seq<string>): (Option<string>, Cache) {
    if candidates == [] then (None, cache)
    else
      var path := candidates[0];
      if path in disk && IsHit(cache, path, disk[path].mtime) then (Some(cache[path].content), cache)
      else if IsReadable(disk, path) then
        (disk[path].content, cache[path := Entry(disk[path].content.value, disk[path].mtime)])
      else CachedRead(cache, disk, candidates[1..])
  }

  /** No entry contradicts a file with the entry's mtime. */
  predicate Coherent(cache: Cache, disk: Disk) {
    forall path :: path in cache && path in disk && cache[path].mtime == disk[path].mtime ==>
      disk[path].content == Some(cache[path].content)
  }

  /** With such a cache the call reads through it, and leaves such a cache behind. */
  lemma {:induction false} CoherentReadsThrough(cache: Cache, disk: Disk, candidates: seq<string>)
    requires Coherent(cache, disk)
    ensures CachedRead(cache, disk, candidates).0 == FirstReadable(disk, candidates)
    ensures Coherent(CachedRead(cache, disk, candidates).1, disk)
  {
    if candidates != [] {
      CoherentReadsThrough(cache, disk, candidates[1..]);
    }
  }

  class AgentsMdLoader {
    var cache: Cache

    constructor ()
      ensures cache == map[]
    {
      cache := map[];
    }

    /** `loadAgentsMd`, its steps not interleaved with anything. */
    method LoadAgentsMd(disk: Disk, candidates: seq<string>) returns (content: Option<string>)
      modifies this
      ensures (content, cache) == CachedRead(old(cache), disk, candidates)
    {
      for i := 0 to |candidates|
        invariant cache == old(cache)
        invariant CachedRead(cache, disk, candidates) == CachedRead(cache, disk, candidates[i..])
      {
        var path := candidates[i];
        if path in disk {
          var mtime := disk[path].mtime;
          if IsHit(cache, path, mtime) {
            return Some(cache[path].content);
          }
          if disk[path].content.Some? {
            cache := cache[path := Entry(disk[path].content.value, mtime)];
            return disk[path].content;
          }
        }
      }
      return None;
    }
  }

  // ---------------------------------------------------------------- interleaved calls

  /** Where a call stands. Every phase ends with one access to the files or to the cache; `end` is the
      instant at which the call returned. */
  datatype Phase =
    | Stat
    | Lookup(mtime: int)
    | Read(mtime: int)
    | Store(mtime: int, content: string)
    | Done(result: Option<string>, end: nat)

  datatype CallState = CallState(candidates: seq<string>, next: nat, phase: Phase, begin: nat)

  /** `history` lists what was on disk at every instant so far; the last one is now. */
  datatype World = World(history: seq<Disk>, cache: Cache, calls: seq<CallState>)

  datatype Step = Change(disk: Disk) | Begin(candidates: seq<string>) | Advance(call: nat)

  predicate Enabled(w: World, step: Step) {
    w.history != [] && (step.Advance? ==> step.call < |w.calls| && !w.calls[step.call].phase.Done?)
  }

  function AdvanceCall(c: CallState, disk: Disk, cache: Cache, now: nat): CallState {
    if c.next >= |c.candidates| then c.(phase := Done(None, now))
    else
      var path := c.candidates[c.next];
      match c.phase
      case Stat => if path in disk then c.(phase := Lookup(disk[path].mtime)) else c.(next := c.next + 1)
      case Lookup(mtime) =>
        if IsHit(cache, path, mtime) then c.(phase := Done(Some(cache[path].content), now))
        else c.(phase := Read(mtime))
      case Read(mtime) =>
        if IsReadable(disk, path) then c.(phase := Store(mtime, disk[path].content.value))
        else c.(phase := Stat, next := c.next + 1)
      case Store(_, content) => c.(phase := Done(Some(content), now))
      case Done(_, _) => c
  }

  function AdvanceCache(c: CallState, cache: Cache): Cache {
    if c.next < |c.candidates| && c.phase.Store? then
      cache[c.candidates[c.next] := Entry(c.phase.content, c.phase.mtime)]
    else cache
  }

  function Rank(phase: Phase): nat {
    match phase
    case Stat => 4
    case Lookup(_) => 3
    case Read(_) => 2
    case Store(_, _) => 1
    case Done(_, _) => 0
  }

  /** All the remaining steps of a call, one after the other. */
  function RunAlone(c: CallState, cache: Cache, disk: Disk, now: nat): (CallState, Cache)
    decreases
      if c.phase.Done? then 0 else 1,
      if c.next < |c.candidates| then |c.candidates| - c.next else 0,
      Rank(c.phase)
  {
    if c.phase.Done? then (c, cache)
    else RunAlone(AdvanceCall(c, disk, cache, now), AdvanceCache(c, cache), disk, now)
  }

  /** A call whose steps are not interleaved with anything does what the method does. */
  lemma {:induction false} AloneIsCachedRead(c: CallState, cache: Cache, disk: Disk, now: nat)
    requires c.phase.Stat? && c.next <= |c.candidates|
    ensures var (done, after) := RunAlone(c, cache, disk, now);
            var (content, left) := CachedRead(cache, disk, c.candidates[c.next..]);
            done.phase == Done(content, now) && after == left
    decreases |c.candidates| - c.next
  {
    if c.next < |c.candidates| {
      var path := c.candidates[c.next];
      assert c.candidates[c.next..][0] == path && c.candidates[c.next..][1..] == c.candidates[c.next + 1..];
      if path !in disk {
        AloneIsCachedRead(c.(next := c.next + 1), cache, disk, now);
      } else {
        var mtime := disk[path].mtime;
        OneStep(c, c.(phase := Lookup(mtime)), cache, cache, disk, now);
        if IsHit(cache, path, mtime) {
          OneStep(c.(phase := Lookup(mtime)), c.(phase := Done(Some(cache[path].content), now)), cache, cache, disk,
                  now);
        } else {
          OneStep(c.(phase := Lookup(mtime)), c.(phase := Read(mtime)), cache, cache, disk, now);
          if IsReadable(disk, path) {
            var content := disk[path].content.value;
            var filled := cache[path := Entry(content, mtime)];
            OneStep(c.(phase := Read(mtime)), c.(phase := Store(mtime, content)), cache, cache, disk, now);
            OneStep(c.(phase := Store(mtime, content)), c.(phase := Done(Some(content), now)), cache, filled, disk,
                    now);
          } else {
            OneStep(c.(phase := Read(mtime)), c.(next := c.next + 1), cache, cache, disk, now);
            AloneIsCachedRead(c.(next := c.next + 1), cache, disk, now);
          }
        }
      }
    }
  }

  lemma OneStep(c: CallState, next: CallState, cache: Cache, left: Cache, disk: Disk, now: nat)
    requires !c.phase.Done? && next == AdvanceCall(c, disk, cache, now) && left == AdvanceCache(c, cache)
    ensures RunAlone(c, cache, disk, now) == RunAlone(next, left, disk, now)
  {
  }

  function Apply(w: World, step: Step): World
    requires Enabled(w, step)
  {
    match step
    case Change(disk) => w.(history := w.history + [disk])
    case Begin(candidates) => w.(calls := w.calls + [CallState(candidates, 0, Stat, |w.history| - 1)])
    case Advance(i) =>
      var c := w.calls[i];
      w.(cache := AdvanceCache(c, w.cache),
         calls := w.calls[i := AdvanceCall(c, w.history[|w.history| - 1], w.cache, |w.history| - 1)])
  }

  predicate Legal(w: World, run: seq<Step>)
    decreases |run|
  {
    run == [] || (Enabled(w, run[0]) && Legal(Apply(w, run[0]), run[1..]))
  }

  function After(w: World, run: seq<Step>): World
    requires Legal(w, run)
    decreases |run|
  {
    if run == [] then w else After(Apply(w, run[0]), run[1..])
  }

  function Initial(disk: Disk): World {
    World([disk], map[], [])
  }

  // ---------------------------------------------------------------- what the files were, and when

  function At(history: seq<Disk>, path: string, t: nat): Option<File> {
    if t < |history| && path in history[t] then Some(history[t][path]) else None
  }

  predicate HadContent(history: seq<Disk>, path: string, t: nat, content: string) {
    At(history, path, t).Some? && At(history, path, t).value.content == Some(content)
  }

  predicate HadMtime(history: seq<Disk>, path: string, t: nat, mtime: int) {
    At(history, path, t).Some? && At(history, path, t).value.mtime == mtime
  }

  predicate WasUnreadable(history: seq<Disk>, path: string, t: nat) {
    t < |history| && (At(history, path, t).None? || At(history, path, t).value.content.None?)
  }

  /** No mtime is ever reused for a path: whenever a file exists between two instants at which it has the
      same mtime, it is the same file. */
  ghost predicate NoReuse(history: seq<Disk>) {
    forall path, j: nat, t: nat, k: nat, mtime ::
      && j <= t <= k && HadMtime(history, path, j, mtime) && HadMtime(history, path, k, mtime)
      && At(history, path, t).Some? ==>
        At(history, path, t) == At(history, path, j)
  }

  /** Seeing the same mtime twice vouches for every content that was there in between: it is there at the
      end. This is all that the cache needs of mtimes, and less than their never being reused. */
  ghost predicate MtimesVouch(history: seq<Disk>) {
    forall path, j: nat, t: nat, k: nat, mtime, content ::
      && j <= t <= k && HadMtime(history, path, j, mtime) && HadMtime(history, path, k, mtime)
      && HadContent(history, path, t, content) ==>
        HadContent(history, path, k, content)
  }

  lemma NoReuseVouches(history: seq<Disk>)
    requires NoReuse(history)
    ensures MtimesVouch(history)
  {
    forall path, j: nat, t: nat, k: nat, mtime, content |
      && j <= t <= k && HadMtime(history, path, j, mtime) && HadMtime(history, path, k, mtime)
      && HadContent(history, path, t, content)
      ensures HadContent(history, path, k, content)
    {
      assert At(history, path, t) == At(history, path, j);
      assert At(history, path, k) == At(history, path, j);
    }
  }

  /** An mtime may come back with the content that it came with. */
  lemma VouchingAllowsReuse(path: string, content: string, m: int, n: int)
    requires m != n
    ensures var a: Disk := map[path := File(Some(content), m)];
            var b: Disk := map[path := File(Some(content), n)];
            MtimesVouch([a, b, a]) && !NoReuse([a, b, a])
  {
    var a: Disk, b: Disk := map[path := File(Some(content), m)], map[path := File(Some(content), n)];
    var history := [a, b, a];
    assert HadMtime(history, path, 0, m) && HadMtime(history, path, 2, m);
    assert At(history, path, 1) != At(history, path, 0);
  }

  ghost predicate SeenUnreadable(history: seq<Disk>, path: string, begin: nat) {
    exists t: nat :: begin <= t && WasUnreadable(history, path, t)
  }

  ghost predicate SeenMtime(history: seq<Disk>, path: string, begin: nat, mtime: int) {
    exists s: nat :: begin <= s && HadMtime(history, path, s, mtime)
  }

  ghost predicate SeenContent(history: seq<Disk>, path: string, begin: nat, content: string) {
    exists t: nat :: begin <= t && HadContent(history, path, t, content)
  }

  /** The content was on disk no earlier than some instant with the mtime, both since `begin`. */
  ghost predicate SeenBoth(history: seq<Disk>, path: string, begin: nat, mtime: int, content: string) {
    exists s: nat, t: nat ::
      begin <= s <= t && HadMtime(history, path, s, mtime) && HadContent(history, path, t, content)
  }

  ghost predicate GenuineCache(history: seq<Disk>, cache: Cache) {
    forall path :: path in cache ==> SeenBoth(history, path, 0, cache[path].mtime, cache[path].content)
  }

  /** Every candidate the call has passed over was unreadable at some instant since it began. */
  ghost predicate PassedOver(history: seq<Disk>, c: CallState) {
    c.next <= |c.candidates| && forall i :: 0 <= i < c.next ==> SeenUnreadable(history, c.candidates[i], c.begin)
  }

  /** What the call has learnt about its current candidate was true at some instant since it began. */
  ghost predicate Learnt(history: seq<Disk>, c: CallState, path: string) {
    match c.phase
    case Stat => true
    case Lookup(mtime) => SeenMtime(history, path, c.begin, mtime)
    case Read(mtime) => SeenMtime(history, path, c.begin, mtime)
    case Store(mtime, content) => SeenBoth(history, path, c.begin, mtime, content)
    case Done(result, _) => result.Some? && SeenContent(history, path, c.begin, result.value)
  }

  /** The history as the call saw it: all of it, or up to the instant at which the call returned. */
  function SeenBy(history: seq<Disk>, c: CallState): seq<Disk> {
    if c.phase.Done? && c.phase.end < |history| then history[..c.phase.end + 1] else history
  }

  ghost predicate Truthful(history: seq<Disk>, c: CallState) {
    && c.begin < |history|
    && (c.phase.Done? ==> c.begin <= c.phase.end < |history|)
    && PassedOver(SeenBy(history, c), c)
    && if c.next < |c.candidates| then Learnt(SeenBy(history, c), c, c.candidates[c.next])
       else c.phase.Stat? || (c.phase.Done? && c.phase.result == None)
  }

  ghost predicate Inv(w: World) {
    && w.history != []
    && GenuineCache(w.history, w.cache)
    && forall i :: 0 <= i < |w.calls| ==> Truthful(w.history, w.calls[i])
  }

  // ---------------------------------------------------------------- later instants change nothing that was seen

  lemma AtGrows(history: seq<Disk>, disk: Disk, path: string, t: nat)
    requires t < |history|
    ensures At(history + [disk], path, t) == At(history, path, t)
  {
  }

  lemma UnreadableGrows(history: seq<Disk>, disk: Disk, path: string, begin: nat)
    requires SeenUnreadable(history, path, begin)
    ensures SeenUnreadable(history + [disk], path, begin)
  {
    var t: nat :| begin <= t && WasUnreadable(history, path, t);
    AtGrows(history, disk, path, t);
    assert WasUnreadable(history + [disk], path, t);
  }

  lemma MtimeGrows(history: seq<Disk>, disk: Disk, path: string, begin: nat, mtime: int)
    requires SeenMtime(history, path, begin, mtime)
    ensures SeenMtime(history + [disk], path, begin, mtime)
  {
    var s: nat :| begin <= s && HadMtime(history, path, s, mtime);
    AtGrows(history, disk, path, s);
    assert HadMtime(history + [disk], path, s, mtime);
  }

  lemma BothGrows(history: seq<Disk>, disk: Disk, path: string, begin: nat, mtime: int, content: string)
    requires SeenBoth(history, path, begin, mtime, content)
    ensures SeenBoth(history + [disk], path, begin, mtime, content)
  {
    var s: nat, t: nat :| begin <= s <= t && HadMtime(history, path, s, mtime) && HadContent(history, path, t, content);
    AtGrows(history, disk, path, s);
    AtGrows(history, disk, path, t);
    assert HadMtime(history + [disk], path, s, mtime) && HadContent(history + [disk], path, t, content);
  }

  lemma TruthfulGrows(history: seq<Disk>, disk: Disk, c: CallState)
    requires Truthful(history, c)
    ensures Truthful(history + [disk], c)
  {
    if c.phase.Done? {
      assert (history + [disk])[..c.phase.end + 1] == history[..c.phase.end + 1];
    } else {
      forall i | 0 <= i < c.next
        ensures SeenUnreadable(history + [disk], c.candidates[i], c.begin)
      {
        UnreadableGrows(history, disk, c.candidates[i], c.begin);
      }
      if c.next < |c.candidates| {
        LearntGrows(history, disk, c, c.candidates[c.next]);
      }
    }
  }

  lemma LearntGrows(history: seq<Disk>, disk: Disk, c: CallState, path: string)
    requires !c.phase.Done? && Learnt(history, c, path)
    ensures Learnt(history + [disk], c, path)
  {
    match c.phase
    case Stat =>
    case Lookup(mtime) => MtimeGrows(history, disk, path, c.begin, mtime);
    case Read(mtime) => MtimeGrows(history, disk, path, c.begin, mtime);
    case Store(mtime, content) => BothGrows(history, disk, path, c.begin, mtime, content);
  }

  // ---------------------------------------------------------------- one step of one call

  /** Why a hit is right: the entry's content was on disk during the call, or else it was on disk before
      the call and, as its mtime is still there during the call, so is the content. */
  lemma HitIsGenuine(history: seq<Disk>, path: string, begin: nat, mtime: int, content: string)
    requires MtimesVouch(history)
    requires SeenBoth(history, path, 0, mtime, content)
    requires SeenMtime(history, path, begin, mtime)
    ensures SeenContent(history, path, begin, content)
  {
    var s0: nat, t0: nat :| s0 <= t0 && HadMtime(history, path, s0, mtime) && HadContent(history, path, t0, content);
    var s1: nat :| begin <= s1 && HadMtime(history, path, s1, mtime);
    if t0 < begin {
      assert HadContent(history, path, s1, content);
    }
  }

  lemma ReadAfterStat(history: seq<Disk>, path: string, begin: nat, mtime: int)
    requires history != [] && begin < |history|
    requires SeenMtime(history, path, begin, mtime)
    requires IsReadable(history[|history| - 1], path)
    ensures SeenBoth(history, path, begin, mtime, history[|history| - 1][path].content.value)
  {
    var s: nat :| begin <= s && HadMtime(history, path, s, mtime);
    assert HadContent(history, path, |history| - 1, history[|history| - 1][path].content.value);
  }

  lemma StoredWasSeen(history: seq<Disk>, path: string, begin: nat, mtime: int, content: string)
    requires SeenBoth(history, path, begin, mtime, content)
    ensures SeenBoth(history, path, 0, mtime, content) && SeenContent(history, path, begin, content)
  {
    var s: nat, t: nat :| begin <= s <= t && HadMtime(history, path, s, mtime) && HadContent(history, path, t, content);
  }

  lemma StepOver(history: seq<Disk>, c: CallState)
    requires c.begin < |history| && PassedOver(history, c)
    requires c.next < |c.candidates| && !IsReadable(history[|history| - 1], c.candidates[c.next])
    ensures PassedOver(history, c.(next := c.next + 1, phase := Stat))
  {
    assert WasUnreadable(history, c.candidates[c.next], |history| - 1);
  }

  lemma CallStaysTruthful(history: seq<Disk>, c: CallState, cache: Cache)
    requires MtimesVouch(history) && GenuineCache(history, cache)
    requires Truthful(history, c) && !c.phase.Done?
    ensures Truthful(history, AdvanceCall(c, history[|history| - 1], cache, |history| - 1))
  {
    var disk := history[|history| - 1];
    assert history[..|history|] == history;
    if c.next < |c.candidates| {
      var path := c.candidates[c.next];
      match c.phase
      case Stat =>
        if path in disk {
          assert HadMtime(history, path, |history| - 1, disk[path].mtime);
        } else {
          StepOver(history, c);
        }
      case Lookup(mtime) =>
        if IsHit(cache, path, mtime) {
          HitIsGenuine(history, path, c.begin, mtime, cache[path].content);
        }
      case Read(mtime) =>
        if IsReadable(disk, path) {
          ReadAfterStat(history, path, c.begin, mtime);
        } else {
          StepOver(history, c);
        }
      case Store(mtime, content) =>
        StoredWasSeen(history, path, c.begin, mtime, content);
    }
  }

  lemma CacheStaysGenuine(history: seq<Disk>, c: CallState, cache: Cache)
    requires GenuineCache(history, cache) && Truthful(history, c)
    ensures GenuineCache(history, AdvanceCache(c, cache))
  {
    if c.next < |c.candidates| && c.phase.Store? {
      StoredWasSeen(history, c.candidates[c.next], c.begin, c.phase.mtime, c.phase.content);
    }
  }

  // ---------------------------------------------------------------- every run

  lemma InvAfterStep(w: World, step: Step)
    requires Inv(w) && MtimesVouch(w.history) && Enabled(w, step)
    ensures Inv(Apply(w, step))
  {
    match step
    case Change(disk) =>
      forall path | path in w.cache
        ensures SeenBoth(w.history + [disk], path, 0, w.cache[path].mtime, w.cache[path].content)
      {
        BothGrows(w.history, disk, path, 0, w.cache[path].mtime, w.cache[path].content);
      }
      forall i | 0 <= i < |w.calls|
        ensures Truthful(w.history + [disk], w.calls[i])
      {
        TruthfulGrows(w.history, disk, w.calls[i]);
      }
    case Begin(candidates) =>
    case Advance(i) =>
      CallStaysTruthful(w.history, w.calls[i], w.cache);
      CacheStaysGenuine(w.history, w.calls[i], w.cache);
  }

  lemma {:induction false} HistoryGrows(w: World, run: seq<Step>)
    requires Legal(w, run)
    ensures w.history <= After(w, run).history
    decreases |run|
  {
    if run != [] {
      HistoryGrows(Apply(w, run[0]), run[1..]);
    }
  }

  lemma VouchedBefore(early: seq<Disk>, late: seq<Disk>)
    requires early <= late && MtimesVouch(late)
    ensures MtimesVouch(early)
  {
    forall path, j: nat, t: nat, k: nat, mtime, content |
      && j <= t <= k && HadMtime(early, path, j, mtime) && HadMtime(early, path, k, mtime)
      && HadContent(early, path, t, content)
      ensures HadContent(early, path, k, content)
    {
      assert HadMtime(late, path, j, mtime) && HadMtime(late, path, k, mtime) && HadContent(late, path, t, content);
      assert HadContent(late, path, k, content);
    }
  }

  lemma {:induction false} InvAlongRun(w: World, run: seq<Step>)
    requires Inv(w) && Legal(w, run) && MtimesVouch(After(w, run).history)
    ensures Inv(After(w, run))
    decreases |run|
  {
    if run != [] {
      HistoryGrows(w, run);
      VouchedBefore(w.history, After(w, run).history);
      InvAfterStep(w, run[0]);
      InvAlongRun(Apply(w, run[0]), run[1..]);
    }
  }
}

/** Any number of processes sharing one cache file, under every interleaving of their
    operations. The clock never gives the same reading to two steps, and all processes use the
    same entry lifetime. Explicit deletion, clearing and saving without loading are not among the
    operations; an update from another cache that does not insist on newer entries is, where it
    overwrites nothing of the file with an entry that expires earlier. */
module FileCacheRuns {
  import opened Options
  import opened FileCache

  datatype System<K, V> = System(file: Option<Pickle<K, V>>, procs: seq<Memory<K, V>>, clock: int)

  datatype Op<K, V> =
    | Start
    | Get(p: nat, k: K)
    | Set(p: nat, k: K, v: V, saves: bool, locked: bool)
    | UpdateItems(p: nat, items: map<K, V>)
    | UpdateNewer(p: nat, other: map<K, Entry<V>>)
    | UpdateAll(p: nat, other: map<K, Entry<V>>)
    | ClearExpired(p: nat)
    | Load(p: nat)
    | Save(p: nat, locked: bool)

  datatype Step<K, V> = Step(now: int, op: Op<K, V>)

  /** No entry expires later than one lifetime from `now`. */
  ghost predicate Bounded<K, V>(cache: map<K, Entry<V>>, limit: int) {
    forall k :: k in cache ==> cache[k].expiry <= limit
  }

  /** Whatever unexpired entry of the file (as of `later`) the other cache's unexpired entries
      (as of `now`) would overwrite is the same or expires earlier. */
  ghost predicate Keeps<K, V>(other: map<K, Entry<V>>, now: int, file: map<K, Entry<V>>, later: int) {
    forall k :: k in Live(other, now) && k in Live(file, later) ==>
      other[k] == file[k] || other[k].expiry > file[k].expiry
  }

  /** What an operation asks of its arguments. An unconditional update is admitted if the process
      will load a newer file before it saves, or if the update keeps the file's entries. */
  ghost predicate Admitted<K, V>(lifetime: int, m: Memory<K, V>, file: Option<Pickle<K, V>>, now: int, op: Op<K, V>) {
    && (op.UpdateNewer? ==> Bounded(op.other, now + lifetime))
    && (op.UpdateAll? ==> Bounded(op.other, now + lifetime) &&
                          (ShouldLoad(m, file) || Keeps(op.other, now, Contents(file), now)))
  }

  ghost predicate Enabled<K, V>(lifetime: int, s: System<K, V>, step: Step<K, V>) {
    && step.now > s.clock
    && (step.op.Start? ||
        (step.op.p < |s.procs| && Admitted(lifetime, s.procs[step.op.p], s.file, step.now, step.op)))
  }

  /** The process and the file after an operation on process memory `m`. */
  ghost function Effect<K, V>(lifetime: int, m: Memory<K, V>, file: Option<Pickle<K, V>>, now: int, op: Op<K, V>)
    : (Memory<K, V>, Option<Pickle<K, V>>)
  {
    match op
    case Start => (LoadedIfShould(Memory(map[], 0, false, None), file, now).(modified := false), file)
    case Get(_, k) => (Fetched(m, file, k, now), file)
    case Set(_, k, v, saves, locked) =>
      var written := Written(m, k, v, now, lifetime);
      if saves && locked then Saved(written, file, now, true, false)
      else if saves then (Cleared(written, now), file)
      else (written, file)
    case UpdateItems(_, items) =>
      (Updated(m, map k | k in items :: Entry(now + lifetime, items[k]), now), file)
    case UpdateNewer(_, other) =>
      (Updated(m, News(Live(m.cache, now), Live(other, now)), now), file)
    case UpdateAll(_, other) => (Updated(m, Live(other, now), now), file)
    case ClearExpired(_) => (Cleared(m, now), file)
    case Load(_) => (if file.Some? then Loaded(m, file.value, now) else m, file)
    case Save(_, locked) => if locked then Saved(m, file, now, true, false) else (Cleared(m, now), file)
  }

  ghost function Apply<K, V>(lifetime: int, s: System<K, V>, step: Step<K, V>): System<K, V>
    requires Enabled(lifetime, s, step)
  {
    if step.op.Start? then
      var effect := Effect(lifetime, Memory(map[], 0, false, None), s.file, step.now, step.op);
      System(effect.1, s.procs + [effect.0], step.now)
    else
      var effect := Effect(lifetime, s.procs[step.op.p], s.file, step.now, step.op);
      System(effect.1, s.procs[step.op.p := effect.0], step.now)
  }

  /** Every unexpired entry of `older` is in `newer`, or one with a later expiry is. */
  ghost predicate Covers<K, V>(newer: map<K, Entry<V>>, older: map<K, Entry<V>>, now: int) {
    forall k :: k in older && !Expired(older[k].expiry, now) ==>
      k in newer && (newer[k] == older[k] || newer[k].expiry > older[k].expiry)
  }

  ghost function Contents<K, V>(file: Option<Pickle<K, V>>): map<K, Entry<V>> {
    if file.Some? then file.value.cache else map[]
  }

  // ---------------------------------------------------------------------------
  // The invariant

  ghost predicate FileOk<K, V>(lifetime: int, file: Option<Pickle<K, V>>, now: int) {
    Bounded(Contents(file), now + lifetime) && FileSizeOk(file) && (file.Some? ==> file.value.mtime <= now)
  }

  /** A process that would not load holds everything the file does; one that is not dirty has
      nothing the file does not hold. */
  ghost predicate ProcOk<K, V>(lifetime: int, m: Memory<K, V>, file: Option<Pickle<K, V>>, now: int) {
    && Bounded(m.cache, now + lifetime) && SizeOk(m)
    && (m.lastLoaded.Some? ==> m.lastLoaded.value <= now)
    && (!ShouldLoad(m, file) ==> Covers(m.cache, Contents(file), now))
    && (!m.modified ==> Covers(Contents(file), m.cache, now))
  }

  ghost predicate Inv<K, V>(lifetime: int, s: System<K, V>) {
    && FileOk(lifetime, s.file, s.clock)
    && forall p :: 0 <= p < |s.procs| ==> ProcOk(lifetime, s.procs[p], s.file, s.clock)
  }

  lemma LoadedCovers<K, V>(m: Memory<K, V>, file: Pickle<K, V>, now: int)
    ensures Covers(Loaded(m, file, now).cache, file.cache, now)
  {
  }

  lemma LoadedBounded<K, V>(m: Memory<K, V>, file: Pickle<K, V>, now: int, limit: int)
    requires Bounded(m.cache, limit) && Bounded(file.cache, limit)
    ensures Bounded(Loaded(m, file, now).cache, limit)
  {
  }

  lemma LoadedClean<K, V>(m: Memory<K, V>, file: Pickle<K, V>, now: int)
    ensures !Loaded(m, file, now).modified ==> Loaded(m, file, now).cache == Live(file.cache, now)
  {
    var mine, theirs := Live(m.cache, now), Live(file.cache, now);
    if !Loaded(m, file, now).modified {
      assert News(theirs, mine) == map[];
    }
  }

  lemma LoadedOk<K, V>(lifetime: int, m: Memory<K, V>, file: Pickle<K, V>, now: int)
    requires Bounded(m.cache, now + lifetime) && FileOk(lifetime, Some(file), now)
    ensures ProcOk(lifetime, Loaded(m, file, now), Some(file), now)
    ensures Covers(Loaded(m, file, now).cache, file.cache, now)
  {
    LoadedCovers(m, file, now);
    LoadedBounded(m, file, now, now + lifetime);
    LoadedClean(m, file, now);
  }

  lemma ClearedOk<K, V>(lifetime: int, m: Memory<K, V>, file: Option<Pickle<K, V>>, since: int, now: int)
    requires ProcOk(lifetime, m, file, since) && since <= now
    ensures ProcOk(lifetime, Cleared(m, now), file, now)
  {
  }

  lemma UpdatedOk<K, V>(lifetime: int, m: Memory<K, V>, file: Option<Pickle<K, V>>, since: int, now: int,
                        news: map<K, Entry<V>>)
    requires ProcOk(lifetime, m, file, since) && since < now && Bounded(news, now + lifetime)
    requires ShouldLoad(m, file) ||
             forall k :: k in news && k in Contents(file) && !Expired(Contents(file)[k].expiry, now) ==>
               news[k] == Contents(file)[k] || news[k].expiry > Contents(file)[k].expiry
    ensures ProcOk(lifetime, Updated(m, news, now), file, now)
  {
    ClearedOk(lifetime, m, file, since, now);
  }

  /** A write expires later than anything written before it. */
  lemma WrittenOk<K, V>(lifetime: int, m: Memory<K, V>, file: Option<Pickle<K, V>>, since: int, now: int, k: K, v: V)
    requires ProcOk(lifetime, m, file, since) && FileOk(lifetime, file, since) && since < now
    ensures ProcOk(lifetime, Written(m, k, v, now, lifetime), file, now)
  {
  }

  lemma FetchedOk<K, V>(lifetime: int, m: Memory<K, V>, file: Option<Pickle<K, V>>, since: int, now: int, k: K)
    requires ProcOk(lifetime, m, file, since) && FileOk(lifetime, file, since) && since < now
    ensures ProcOk(lifetime, Fetched(m, file, k, now), file, now)
  {
    if !(k in m.cache && !Expired(m.cache[k].expiry, now)) && ShouldLoad(m, file) {
      LoadedOk(lifetime, m, file.value, now);
    }
  }

  /** A save leaves a file that covers the one before it, and a process in step with it. */
  lemma SavedOk<K, V>(lifetime: int, m: Memory<K, V>, file: Option<Pickle<K, V>>, since: int, now: int)
    requires ProcOk(lifetime, m, file, since) && FileOk(lifetime, file, since) && since <= now
    ensures var saved := Saved(m, file, now, true, false);
            && ProcOk(lifetime, saved.0, saved.1, now) && FileOk(lifetime, saved.1, now)
            && Covers(Contents(saved.1), Contents(file), now)
            && (saved.1 == file || (saved.1.Some? && saved.1.value.mtime == now))
  {
    var cleared := Cleared(m, now);
    ClearedOk(lifetime, m, file, since, now);
    if cleared.modified && ShouldLoad(cleared, file) {
      LoadedOk(lifetime, cleared, file.value, now);
    }
  }

  /** A process is not disturbed by another one's save: it will load before it saves. */
  lemma OthersOk<K, V>(lifetime: int, m: Memory<K, V>, file: Option<Pickle<K, V>>, file': Option<Pickle<K, V>>,
                       since: int, now: int)
    requires ProcOk(lifetime, m, file, since) && since < now
    requires Covers(Contents(file'), Contents(file), now)
    requires file' == file || (file'.Some? && file'.value.mtime == now)
    ensures ProcOk(lifetime, m, file', now)
  {
  }

  /** What every operation achieves: the process stays in order, and the file is covered. */
  ghost predicate Achieves<K, V>(lifetime: int, m': Memory<K, V>, file': Option<Pickle<K, V>>,
                                 file: Option<Pickle<K, V>>, now: int)
  {
    && ProcOk(lifetime, m', file', now) && FileOk(lifetime, file', now)
    && Covers(Contents(file'), Contents(file), now)
    && (file' == file || (file'.Some? && file'.value.mtime == now))
  }

  lemma Unwritten<K, V>(lifetime: int, m': Memory<K, V>, file: Option<Pickle<K, V>>, since: int, now: int)
    requires ProcOk(lifetime, m', file, now) && FileOk(lifetime, file, since) && since <= now
    ensures Achieves(lifetime, m', file, file, now)
  {
  }

  lemma StartOk<K, V>(lifetime: int, file: Option<Pickle<K, V>>, now: int)
    requires FileOk(lifetime, file, now)
    ensures ProcOk(lifetime, LoadedIfShould(Memory(map[], 0, false, None), file, now).(modified := false), file, now)
  {
    var empty: Memory<K, V> := Memory(map[], 0, false, None);
    if file.Some? {
      LoadedOk(lifetime, empty, file.value, now);
      assert News(Live(file.value.cache, now), Live(empty.cache, now)) == map[];
    }
  }

  lemma SetOk<K, V>(lifetime: int, m: Memory<K, V>, file: Option<Pickle<K, V>>, since: int, now: int,
                    op: Op<K, V>)
    requires ProcOk(lifetime, m, file, since) && FileOk(lifetime, file, since) && since < now && op.Set?
    ensures var effect := Effect(lifetime, m, file, now, op); Achieves(lifetime, effect.0, effect.1, file, now)
  {
    var written := Written(m, op.k, op.v, now, lifetime);
    WrittenOk(lifetime, m, file, since, now, op.k, op.v);
    Unwritten(lifetime, written, file, since, now);
    if op.saves && op.locked {
      SavedOk(lifetime, written, file, now, now);
    } else if op.saves {
      ClearedOk(lifetime, written, file, now, now);
      Unwritten(lifetime, Cleared(written, now), file, since, now);
    }
  }

  /** The operations that leave the file alone. */
  lemma MemoryOpOk<K, V>(lifetime: int, m: Memory<K, V>, file: Option<Pickle<K, V>>, since: int, now: int, op: Op<K, V>)
    requires ProcOk(lifetime, m, file, since) && FileOk(lifetime, file, since) && since < now
    requires Admitted(lifetime, m, file, now, op)
    requires op.Get? || op.UpdateItems? || op.UpdateNewer? || op.UpdateAll? || op.ClearExpired? || op.Load?
    ensures ProcOk(lifetime, Effect(lifetime, m, file, now, op).0, file, now)
  {
    match op
    case Get(_, k) => FetchedOk(lifetime, m, file, since, now, k);
    case UpdateItems(_, items) => UpdateItemsOk(lifetime, m, file, since, now, items);
    case UpdateNewer(_, other) => UpdateNewerOk(lifetime, m, file, since, now, other);
    case UpdateAll(_, other) => UpdateAllOk(lifetime, m, file, since, now, other);
    case ClearExpired(_) => ClearedOk(lifetime, m, file, since, now);
    case Load(_) =>
      if file.Some? {
        LoadedOk(lifetime, m, file.value, now);
      }
  }

  lemma UpdateItemsOk<K, V>(lifetime: int, m: Memory<K, V>, file: Option<Pickle<K, V>>, since: int, now: int,
                            items: map<K, V>)
    requires ProcOk(lifetime, m, file, since) && FileOk(lifetime, file, since) && since < now
    ensures var news := map k | k in items :: Entry(now + lifetime, items[k]);
            ProcOk(lifetime, Updated(m, news, now), file, now)
  {
    UpdatedOk(lifetime, m, file, since, now, map k | k in items :: Entry(now + lifetime, items[k]));
  }

  lemma UpdateAllOk<K, V>(lifetime: int, m: Memory<K, V>, file: Option<Pickle<K, V>>, since: int, now: int,
                          other: map<K, Entry<V>>)
    requires ProcOk(lifetime, m, file, since) && since < now && Bounded(other, now + lifetime)
    requires ShouldLoad(m, file) || Keeps(other, now, Contents(file), now)
    ensures ProcOk(lifetime, Updated(m, Live(other, now), now), file, now)
  {
    var news, old_ := Live(other, now), Contents(file);
    forall k | k in news && k in old_ && !Expired(old_[k].expiry, now)
      ensures ShouldLoad(m, file) || news[k] == old_[k] || news[k].expiry > old_[k].expiry
    {
      assert k in Live(old_, now);
    }
    UpdatedOk(lifetime, m, file, since, now, news);
  }

  lemma UpdateNewerOk<K, V>(lifetime: int, m: Memory<K, V>, file: Option<Pickle<K, V>>, since: int, now: int,
                            other: map<K, Entry<V>>)
    requires ProcOk(lifetime, m, file, since) && since < now && Bounded(other, now + lifetime)
    ensures ProcOk(lifetime, Updated(m, News(Live(m.cache, now), Live(other, now)), now), file, now)
  {
    UpdatedOk(lifetime, m, file, since, now, News(Live(m.cache, now), Live(other, now)));
  }

  /** One operation of one process. */
  lemma EffectOk<K, V>(lifetime: int, m: Memory<K, V>, file: Option<Pickle<K, V>>, since: int, now: int, op: Op<K, V>)
    requires ProcOk(lifetime, m, file, since) && FileOk(lifetime, file, since) && since < now
    requires Admitted(lifetime, m, file, now, op)
    ensures var effect := Effect(lifetime, m, file, now, op); Achieves(lifetime, effect.0, effect.1, file, now)
  {
    var m' := Effect(lifetime, m, file, now, op).0;
    if op.Set? {
      SetOk(lifetime, m, file, since, now, op);
    } else if op.Save? && op.locked {
      SavedOk(lifetime, m, file, since, now);
    } else {
      if op.Save? {
        ClearedOk(lifetime, m, file, since, now);
      } else if op.Start? {
        StartOk(lifetime, file, now);
      } else {
        MemoryOpOk(lifetime, m, file, since, now, op);
      }
      Unwritten(lifetime, m', file, since, now);
    }
  }

  lemma AllOthersOk<K, V>(lifetime: int, s: System<K, V>, file': Option<Pickle<K, V>>, now: int)
    requires Inv(lifetime, s) && s.clock < now
    requires Covers(Contents(file'), Contents(s.file), now)
    requires file' == s.file || (file'.Some? && file'.value.mtime == now)
    ensures forall q :: 0 <= q < |s.procs| ==> ProcOk(lifetime, s.procs[q], file', now)
  {
    forall q | 0 <= q < |s.procs| ensures ProcOk(lifetime, s.procs[q], file', now) {
      OthersOk(lifetime, s.procs[q], s.file, file', s.clock, now);
    }
  }

  lemma StepOk<K, V>(lifetime: int, s: System<K, V>, step: Step<K, V>)
    requires Inv(lifetime, s) && Enabled(lifetime, s, step)
    ensures Inv(lifetime, Apply(lifetime, s, step))
    ensures Covers(Contents(Apply(lifetime, s, step).file), Contents(s.file), step.now)
  {
    var m := if step.op.Start? then Memory(map[], 0, false, None) else s.procs[step.op.p];
    EffectOk(lifetime, m, s.file, s.clock, step.now, step.op);
    AllOthersOk(lifetime, s, Effect(lifetime, m, s.file, step.now, step.op).1, step.now);
  }

  // ---------------------------------------------------------------------------
  // Runs

  ghost predicate IsRun<K, V>(lifetime: int, s: System<K, V>, run: seq<Step<K, V>>)
    decreases |run|, 0
  {
    run == [] ||
    (IsRun(lifetime, s, run[..|run| - 1]) &&
     Enabled(lifetime, After(lifetime, s, run[..|run| - 1]), run[|run| - 1]))
  }

  ghost function After<K, V>(lifetime: int, s: System<K, V>, run: seq<Step<K, V>>): System<K, V>
    requires IsRun(lifetime, s, run)
    decreases |run|, 1
  {
    if run == [] then s
    else Apply(lifetime, After(lifetime, s, run[..|run| - 1]), run[|run| - 1])
  }

  lemma CoversTransitive<K, V>(a: map<K, Entry<V>>, b: map<K, Entry<V>>, c: map<K, Entry<V>>, now: int, later: int)
    requires Covers(b, a, now) && Covers(c, b, later) && now <= later
    ensures Covers(c, a, later)
  {
  }

  /** What a later state keeps of an earlier one. */
  ghost predicate KeepsAll<K, V>(later: System<K, V>, earlier: System<K, V>) {
    earlier.clock <= later.clock && Covers(Contents(later.file), Contents(earlier.file), later.clock)
  }

  lemma StepKeepsAll<K, V>(lifetime: int, e: System<K, V>, s: System<K, V>, step: Step<K, V>)
    requires Inv(lifetime, s) && Enabled(lifetime, s, step) && KeepsAll(s, e)
    ensures Inv(lifetime, Apply(lifetime, s, step)) && KeepsAll(Apply(lifetime, s, step), e)
  {
    StepOk(lifetime, s, step);
    var t := Apply(lifetime, s, step);
    assert t.clock == step.now;
    CoversTransitive(Contents(e.file), Contents(s.file), Contents(t.file), s.clock, t.clock);
  }

  /** No lost update: whatever the processes do, an entry the file holds at some moment and that has
      not expired later is still there then, or has been replaced by one that expires later. */
  lemma {:induction false} NoLostUpdate<K, V>(lifetime: int, s: System<K, V>, run: seq<Step<K, V>>, n: nat)
    requires Inv(lifetime, s) && IsRun(lifetime, s, run) && n <= |run|
    ensures IsRun(lifetime, s, run[..n])
    ensures Inv(lifetime, After(lifetime, s, run))
    ensures KeepsAll(After(lifetime, s, run), After(lifetime, s, run[..n]))
    decreases |run|
  {
    if run == [] {
      assert run[..n] == run;
    } else {
      var before, step := run[..|run| - 1], run[|run| - 1];
      var m := if n < |run| then n else n - 1;
      NoLostUpdate(lifetime, s, before, m);
      StepKeepsAll(lifetime, After(lifetime, s, before[..m]), After(lifetime, s, before), step);
      assert if n < |run| then run[..n] == before[..n] else run[..n] == run;
    }
  }

  /** From no file and no process on: any two moments of any run. */
  lemma FileEntriesSurvive<K, V>(lifetime: int, s: System<K, V>, run: seq<Step<K, V>>, n: nat)
    requires s.file.None? && s.procs == [] && IsRun(lifetime, s, run) && n <= |run|
    ensures IsRun(lifetime, s, run[..n])
    ensures var earlier, later := After(lifetime, s, run[..n]), After(lifetime, s, run);
            && KeepsAll(later, earlier) && FileSizeOk(later.file)
            && forall p :: 0 <= p < |later.procs| ==>
                 && SizeOk(later.procs[p])
                 && (!later.procs[p].modified ==> Covers(Contents(later.file), later.procs[p].cache, later.clock))
  {
    NoLostUpdate(lifetime, s, run, n);
  }

  // ---------------------------------------------------------------------------
  // Unconditional updates

  /** `ready` is `mine` overwritten by `news`, without what has expired by `later`. */
  ghost predicate Overlaid<K, V>(ready: map<K, Entry<V>>, mine: map<K, Entry<V>>, news: map<K, Entry<V>>, later: int) {
    && (forall k :: k in ready ==>
          if k in news then ready[k] == news[k] else k in mine && ready[k] == mine[k])
    && (forall k :: k in news ==> (k in ready <==> !Expired(news[k].expiry, later)))
    && (forall k :: k in mine && k !in news && !Expired(mine[k].expiry, later) ==> k in ready)
  }

  /** What the memory holds when it comes to save after an unconditional update. */
  lemma UpdatedCache<K, V>(m: Memory<K, V>, news: map<K, Entry<V>>, now: int, later: int)
    requires now <= later
    ensures var ready := Cleared(Updated(m, news, now), later);
            && ready.lastLoaded == m.lastLoaded
            && (!ready.modified ==> news == map[])
            && Overlaid(ready.cache, m.cache, news, later)
  {
  }

  lemma KeepsThenCovers<K, V>(ready: map<K, Entry<V>>, mine: map<K, Entry<V>>, other: map<K, Entry<V>>, now: int,
                              file: map<K, Entry<V>>, later: int)
    requires Overlaid(ready, mine, Live(other, now), later) && Covers(mine, file, later)
    requires Keeps(other, now, file, later)
    ensures Covers(ready, file, later)
  {
    forall k | k in file && !Expired(file[k].expiry, later)
      ensures k in ready && (ready[k] == file[k] || ready[k].expiry > file[k].expiry)
    {
      assert k in Live(file, later) && k in mine;
      if k in Live(other, now) {
        assert other[k] == file[k] || other[k].expiry > file[k].expiry;
      }
    }
  }

  lemma CoversThenKeeps<K, V>(ready: map<K, Entry<V>>, mine: map<K, Entry<V>>, other: map<K, Entry<V>>, now: int,
                              file: map<K, Entry<V>>, later: int)
    requires Overlaid(ready, mine, Live(other, now), later) && Covers(ready, file, later)
    ensures Keeps(other, now, file, later)
  {
    forall k | k in Live(other, now) && k in Live(file, later)
      ensures other[k] == file[k] || other[k].expiry > file[k].expiry
    {
      assert k in ready && ready[k] == other[k];
    }
  }

  lemma NotLoadedCovers<K, V>(ready: map<K, Entry<V>>, mine: map<K, Entry<V>>, other: map<K, Entry<V>>, now: int,
                              file: map<K, Entry<V>>, later: int)
    requires Overlaid(ready, mine, Live(other, now), later) && Covers(mine, file, later)
    ensures Covers(ready, file, later) <==> Keeps(other, now, file, later)
  {
    if Keeps(other, now, file, later) {
      KeepsThenCovers(ready, mine, other, now, file, later);
    } else if Covers(ready, file, later) {
      CoversThenKeeps(ready, mine, other, now, file, later);
    }
  }

  /** Any process in order updates unconditionally from another cache and saves: the file's entries
      are kept if and only if a newer file is loaded first or the update overwrites nothing of the
      file with an entry that expires earlier. */
  lemma UnconditionalUpdateCovers<K, V>(lifetime: int, m: Memory<K, V>, file: Option<Pickle<K, V>>, since: int,
                                        now: int, later: int, other: map<K, Entry<V>>)
    requires ProcOk(lifetime, m, file, since) && since < now <= later
    ensures var saved := Saved(Updated(m, Live(other, now), now), file, later, true, false);
            Covers(Contents(saved.1), Contents(file), later)
            <==> ShouldLoad(m, file) || Keeps(other, now, Contents(file), later)
  {
    UpdatedCache(m, Live(other, now), now, later);
    var ready := Cleared(Updated(m, Live(other, now), now), later);
    if ready.modified {
      if ShouldLoad(m, file) {
        LoadedCovers(ready, file.value, later);
      } else {
        NotLoadedCovers(ready.cache, m.cache, other, now, Contents(file), later);
      }
    }
  }

  /** A process that holds what the file holds, and an unconditional update that loses it. */
  lemma UnconditionalUpdateLoses()
    ensures var file := Some(Pickle(map[1 := Entry(10, 'a')], 1, 0));
            var m := Memory(map[1 := Entry(10, 'a')], 1, false, Some(0));
            var other := map[1 := Entry(5, 'b')];
            && ProcOk(10, m, file, 0) && FileOk(10, file, 0) && Bounded(other, 1 + 10)
            && !Covers(Contents(Saved(Updated(m, Live(other, 1), 1), file, 1, true, false).1), Contents(file), 1)
  {
    var file := Some(Pickle(map[1 := Entry(10, 'a')], 1, 0));
    var m := Memory(map[1 := Entry(10, 'a')], 1, false, Some(0));
    var other := map[1 := Entry(5, 'b')];
    assert 1 in Live(other, 1) && 1 in Live(Contents(file), 1);
    UnconditionalUpdateCovers(10, m, file, 0, 1, 1, other);
  }
}

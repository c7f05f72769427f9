/** `SFDictCache` and `SFDictFileCache`: a cache of expiring entries that processes share
    through a file. Clock readings, the random decision to save and the outcome of the file
    lock are parameters; a load or a save is one step. */
module FileCache {
  import opened Options

  datatype Entry<V> = Entry(expiry: int, value: V)

  /** The contents of the cache file: what was pickled, and when. */
  datatype Pickle<K, V> = Pickle(cache: map<K, Entry<V>>, size: nat, mtime: int)

  /** What one process holds. */
  datatype Memory<K, V> = Memory(cache: map<K, Entry<V>>, size: nat, modified: bool, lastLoaded: Option<int>)

  // ---------------------------------------------------------------------------
  // What the operations compute

  predicate Expired(expiry: int, now: int) { now >= expiry }

  ghost function Live<K, V>(cache: map<K, Entry<V>>, now: int): map<K, Entry<V>> {
    map k | k in cache && !Expired(cache[k].expiry, now) :: cache[k]
  }

  /** The entries of `from` that `cache` lacks or holds with an earlier expiry. */
  ghost function News<K, V>(cache: map<K, Entry<V>>, from: map<K, Entry<V>>): map<K, Entry<V>> {
    map k | k in from && (k !in cache || cache[k].expiry < from[k].expiry) :: from[k]
  }

  /** The file's unexpired entries, taught what the memory's unexpired ones know better. */
  ghost function Merged<K, V>(memory: map<K, Entry<V>>, file: map<K, Entry<V>>, now: int): map<K, Entry<V>> {
    Live(file, now) + News(Live(file, now), Live(memory, now))
  }

  ghost function Cleared<K, V>(m: Memory<K, V>, now: int): Memory<K, V> {
    var live := Live(m.cache, now);
    Memory(live, |live|, m.modified || live != m.cache, m.lastLoaded)
  }

  predicate ShouldLoad<K, V>(m: Memory<K, V>, file: Option<Pickle<K, V>>) {
    file.Some? && (m.lastLoaded.None? || file.value.mtime > m.lastLoaded.value)
  }

  ghost function Loaded<K, V>(m: Memory<K, V>, file: Pickle<K, V>, now: int): Memory<K, V> {
    var merged := Merged(m.cache, file.cache, now);
    Memory(merged, |merged|, News(Live(file.cache, now), Live(m.cache, now)) != map[], Some(now))
  }

  ghost function LoadedIfShould<K, V>(m: Memory<K, V>, file: Option<Pickle<K, V>>, now: int): Memory<K, V> {
    if ShouldLoad(m, file) then Loaded(m, file.value, now) else m
  }

  ghost function Written<K, V>(m: Memory<K, V>, k: K, v: V, now: int, lifetime: int): Memory<K, V> {
    var cache := m.cache[k := Entry(now + lifetime, v)];
    Memory(cache, |cache|, true, m.lastLoaded)
  }

  ghost function Updated<K, V>(m: Memory<K, V>, news: map<K, Entry<V>>, now: int): Memory<K, V> {
    var cleared := Cleared(m, now);
    if news == map[] then cleared
    else
      var cache := cleared.cache + news;
      Memory(cache, |cache|, true, m.lastLoaded)
  }

  ghost function Fetched<K, V>(m: Memory<K, V>, file: Option<Pickle<K, V>>, k: K, now: int): Memory<K, V> {
    if k in m.cache && !Expired(m.cache[k].expiry, now) then m
    else if ShouldLoad(m, file) then Loaded(m, file.value, now)
    else if k in m.cache then
      var cache := m.cache - {k};
      Memory(cache, |cache|, true, m.lastLoaded)
    else m
  }

  /** Memory and file after a save that gets the file lock: nothing is written without a reason. */
  ghost function Saved<K, V>(m: Memory<K, V>, file: Option<Pickle<K, V>>, now: int, loadFirst: bool, force: bool)
    : (Memory<K, V>, Option<Pickle<K, V>>)
  {
    var cleared := Cleared(m, now);
    if !cleared.modified && !force then (cleared, file)
    else
      var ready := if loadFirst then LoadedIfShould(cleared, file, now) else cleared;
      (ready.(modified := false, lastLoaded := Some(now)), Some(Pickle(ready.cache, ready.size, now)))
  }

  predicate SizeOk<K, V>(m: Memory<K, V>) { m.size == |m.cache| }

  predicate FileSizeOk<K, V>(file: Option<Pickle<K, V>>) { file.Some? ==> file.value.size == |file.value.cache| }

  // ---------------------------------------------------------------------------
  // The classes

  /** `k` is held and has not expired. */
  predicate Holds<K, V>(cache: map<K, Entry<V>>, k: K, now: int) { k in cache && now < cache[k].expiry }

  /** The file was written after what was last loaded. */
  predicate Fresher<K, V>(file: Option<Pickle<K, V>>, lastLoaded: Option<int>) {
    file.Some? && (lastLoaded.None? || lastLoaded.value < file.value.mtime)
  }

  /** `live` is what `cache` holds that has not expired. */
  ghost predicate Unexpired<K, V>(live: map<K, Entry<V>>, cache: map<K, Entry<V>>, now: int) {
    && (forall k :: k in live ==> Holds(cache, k, now) && live[k] == cache[k])
    && (forall k :: k in cache && Holds(cache, k, now) ==> k in live)
  }

  /** What has not expired on either side: `mine`, overwritten by `theirs`, or with `newerOnly` only by
      what expires later. */
  ghost predicate Learnt<K, V>(result: map<K, Entry<V>>, mine: map<K, Entry<V>>, theirs: map<K, Entry<V>>,
                               newerOnly: bool, now: int)
  {
    && (forall k :: k in mine && Holds(mine, k, now) ==> k in result)
    && (forall k :: k in theirs && Holds(theirs, k, now) ==> k in result)
    && (forall k :: k in result ==>
          && (Holds(mine, k, now) || Holds(theirs, k, now))
          && result[k] == if Holds(theirs, k, now) &&
                             !(newerOnly && Holds(mine, k, now) && theirs[k].expiry <= mine[k].expiry)
                          then theirs[k] else mine[k])
  }

  lemma Selected<K, V>(cache: map<K, Entry<V>>, other: map<K, Entry<V>>, newerOnly: bool)
    ensures (map k | k in other && (k !in cache || !newerOnly || cache[k].expiry < other[k].expiry) :: other[k])
            == if newerOnly then News(cache, other) else other
  {
  }

  lemma UpdatedIsMerged<K, V>(cache: map<K, Entry<V>>, file: Pickle<K, V>, now: int)
    ensures var news := News(Live(file.cache, now), Live(cache, now));
            var updated := Updated(Memory(file.cache, file.size, false, None), news, now);
            updated.cache == Merged(cache, file.cache, now) && updated.size == |Merged(cache, file.cache, now)|
  {
    NothingNew(Live(file.cache, now), News(Live(file.cache, now), Live(cache, now)));
  }

  lemma NothingNew<K, V>(live: map<K, Entry<V>>, news: map<K, Entry<V>>)
    ensures news == map[] ==> live + news == live
  {
  }

  /** Where one side holds nothing, the other decides. */
  lemma LearntAt<K, V>(result: map<K, Entry<V>>, mine: map<K, Entry<V>>, theirs: map<K, Entry<V>>, k: K, now: int)
    requires Learnt(result, mine, theirs, true, now) && !Holds(theirs, k, now)
    ensures k in result <==> Holds(mine, k, now)
    ensures k in result ==> result[k] == mine[k] && now < result[k].expiry
  {
  }

  lemma UpdateLearns<K, V>(mine: map<K, Entry<V>>, theirs: map<K, Entry<V>>, newerOnly: bool, now: int)
    ensures var live, other := Live(mine, now), Live(theirs, now);
            Learnt(live + if newerOnly then News(live, other) else other, mine, theirs, newerOnly, now)
  {
  }

  class CacheFile<K(==), V(==)> {
    var content: Option<Pickle<K, V>>

    constructor ()
      ensures content == None
    {
      content := None;
    }
  }

  class DictFileCache<K(==), V(==)> {
    const lifetime: int
    const file: CacheFile<K, V>
    var cache: map<K, Entry<V>>
    var size: nat
    var modified: bool
    var lastLoaded: Option<int>

    ghost function State(): Memory<K, V>
      reads this
    {
      Memory(cache, size, modified, lastLoaded)
    }

    /** `telemetry["size"]` is the number of cached entries, here and in the file. */
    ghost predicate Valid()
      reads this, file
    {
      SizeOk(State()) && FileSizeOk(file.content)
    }

    /** A new process loads the file if it is there. */
    constructor (lifetime: int, file: CacheFile<K, V>, now: int)
      requires FileSizeOk(file.content)
      ensures this.lifetime == lifetime && this.file == file && Valid()
      ensures State() == LoadedIfShould(Memory(map[], 0, false, None), file.content, now).(modified := false)
      ensures !modified && Unexpired(cache, if file.content.Some? then file.content.value.cache else map[], now)
    {
      this.lifetime, this.file, this.cache, this.size := lifetime, file, map[], 0;
      this.modified, this.lastLoaded := false, None;
      new;
      if file.content.Some? {
        var _ := Load(now);
      }
      modified := false;
    }

    constructor Unpickle(lifetime: int, file: CacheFile<K, V>, pickle: Pickle<K, V>)
      ensures this.lifetime == lifetime && this.file == file
      ensures State() == Memory(pickle.cache, pickle.size, false, None)
    {
      this.lifetime, this.file, this.cache, this.size := lifetime, file, pickle.cache, pickle.size;
      this.modified, this.lastLoaded := false, None;
    }

    method AddOrRemove()
      modifies this`size, this`modified
      ensures size == |cache| && modified
    {
      size, modified := |cache|, true;
    }

    method ClearExpired(now: int)
      requires SizeOk(State())
      modifies this
      ensures State() == Cleared(old(State()), now)
      ensures Unexpired(cache, old(cache), now)
      ensures modified <==> old(modified) || exists k :: k in old(cache) && old(cache)[k].expiry <= now
    {
      var left := cache.Keys;
      while left != {}
        invariant left <= cache.Keys
        invariant SizeOk(State()) && lastLoaded == old(lastLoaded)
        invariant forall k :: k in cache ==> k in old(cache) && cache[k] == old(cache)[k]
        invariant forall k :: k in old(cache) && k !in cache ==> Expired(old(cache)[k].expiry, now)
        invariant forall k :: k in cache && k !in left ==> !Expired(cache[k].expiry, now)
        invariant modified <==> old(modified) || cache != old(cache)
        decreases left
      {
        var k :| k in left;
        left := left - {k};
        if Expired(cache[k].expiry, now) {
          assert k in old(cache);
          cache := cache - {k};
          AddOrRemove();
        }
      }
      assert cache == Live(old(cache), now);
    }

    /** `_update` from another cache. Both caches drop their expired entries first. */
    method UpdateFrom(other: DictFileCache<K, V>, newerOnly: bool, now: int) returns (learnt: bool)
      requires other != this && SizeOk(State()) && SizeOk(other.State())
      modifies this, other
      ensures other.State() == Cleared(old(other.State()), now)
      ensures var news := if newerOnly then News(Live(old(cache), now), other.cache) else other.cache;
              State() == Updated(old(State()), news, now) && learnt == (news != map[])
      ensures Learnt(cache, old(cache), old(other.cache), newerOnly, now)
    {
      ClearExpired(now);
      other.ClearExpired(now);
      var news := map k | k in other.cache
                    && (k !in cache || !newerOnly || cache[k].expiry < other.cache[k].expiry) :: other.cache[k];
      Selected(cache, other.cache, newerOnly);
      UpdateLearns(old(cache), old(other.cache), newerOnly, now);
      learnt := Insert(news, old(State()), now);
    }

    /** `_update` from plain items: they all expire one lifetime from now. */
    method UpdateItems(items: map<K, V>, now: int) returns (learnt: bool)
      requires SizeOk(State())
      modifies this
      ensures var news := map k | k in items :: Entry(now + lifetime, items[k]);
              State() == Updated(old(State()), news, now) && learnt == (items != map[])
      ensures forall k :: k in cache <==> k in items || Holds(old(cache), k, now)
      ensures forall k :: k in cache ==>
                cache[k] == if k in items then Entry(now + lifetime, items[k]) else old(cache)[k]
    {
      ClearExpired(now);
      var news := map k | k in items :: Entry(now + lifetime, items[k]);
      assert news.Keys == items.Keys;
      learnt := Insert(news, old(State()), now);
    }

    /** The common end of `_update`. */
    method Insert(news: map<K, Entry<V>>, ghost before: Memory<K, V>, now: int) returns (learnt: bool)
      requires State() == Cleared(before, now)
      modifies this
      ensures State() == Updated(before, news, now) && learnt == (news != map[])
      ensures cache == old(cache) + news
    {
      if news != map[] {
        cache := cache + news;
        AddOrRemove();
      }
      learnt := news != map[];
    }

    /** The file's cache learns from this one and takes its place. */
    method Load(now: int) returns (ok: bool)
      requires Valid()
      modifies this
      ensures Valid() && ok == file.content.Some?
      ensures State() == if ok then Loaded(old(State()), file.content.value, now) else old(State())
      ensures ok ==> Learnt(cache, file.content.value.cache, old(cache), true, now) && lastLoaded == Some(now)
    {
      if file.content.None? {
        return false;
      }
      var other := new DictFileCache.Unpickle(lifetime, file, file.content.value);
      var fileLearnt := other.UpdateFrom(this, true, now);
      UpdatedIsMerged(old(cache), file.content.value, now);
      cache, other.cache := other.cache, cache;
      size := other.size;
      modified := fileLearnt;
      lastLoaded := Some(now);
      return true;
    }

    method LoadIfShould(now: int) returns (loaded: bool)
      requires Valid()
      modifies this
      ensures Valid() && loaded == ShouldLoad(old(State()), file.content)
      ensures State() == LoadedIfShould(old(State()), file.content, now)
      ensures loaded <==> Fresher(file.content, old(lastLoaded))
      ensures loaded ==> Learnt(cache, file.content.value.cache, old(cache), true, now)
      ensures !loaded ==> cache == old(cache)
    {
      if file.content.Some? && (lastLoaded.None? || file.content.value.mtime > lastLoaded.value) {
        loaded := Load(now);
      } else {
        loaded := false;
      }
    }

    /** The found value is the unexpired one of memory, or else of the file if it is newer than the last load. */
    method GetItem(k: K, now: int) returns (r: Option<V>)
      requires Valid()
      modifies this
      ensures Valid() && State() == Fetched(old(State()), file.content, k, now)
      ensures r == if Holds(old(cache), k, now) then Some(old(cache)[k].value)
                   else if Fresher(file.content, old(lastLoaded)) && Holds(file.content.value.cache, k, now)
                   then Some(file.content.value.cache[k].value)
                   else None
      ensures if r.Some? then Holds(cache, k, now) && cache[k].value == r.value else k !in cache
    {
      if k !in cache {
        var loaded := LoadIfShould(now);
        if loaded {
          LearntAt(cache, file.content.value.cache, old(cache), k, now);
        }
        if !loaded || k !in cache {
          return None;
        }
      }
      var e := cache[k];
      if Expired(e.expiry, now) {
        var loaded := LoadIfShould(now);
        var expire := true;
        if loaded {
          LearntAt(cache, file.content.value.cache, old(cache), k, now);
          if k !in cache {
            return None;
          }
          e := cache[k];
          expire := Expired(e.expiry, now);
        }
        if expire {
          cache := cache - {k};
          AddOrRemove();
          return None;
        }
      }
      return Some(e.value);
    }

    /** `saves` is the random decision to save, `locked` whether the file lock was had in time. The
        value is there afterwards, in memory and in a file that was written, unless the file already
        held one that expires no earlier. */
    method SetItem(k: K, v: V, now: int, saves: bool, locked: bool)
      requires Valid()
      modifies this, file
      ensures Valid()
      ensures var written := Written(old(State()), k, v, now, lifetime);
              if saves && locked then (State(), file.content) == Saved(written, old(file.content), now, true, false)
              else if saves then State() == Cleared(written, now) && file.content == old(file.content)
              else State() == written && file.content == old(file.content)
      ensures !saves ==> cache == old(cache)[k := Entry(now + lifetime, v)]
      ensures lifetime > 0 && !Outlasted(old(file.content), k, now + lifetime) ==>
                && k in cache && cache[k] == Entry(now + lifetime, v)
                && (saves && locked ==> file.content.Some? && k in file.content.value.cache
                                        && file.content.value.cache[k] == Entry(now + lifetime, v))
      ensures saves && locked ==>
                file.content.Some? && file.content.value.cache == cache && file.content.value.mtime == now
      ensures !(saves && locked) ==> file.content == old(file.content)
      ensures lastLoaded == if saves && locked then Some(now) else old(lastLoaded)
    {
      cache := cache[k := Entry(now + lifetime, v)];
      AddOrRemove();
      ghost var written := cache;
      assert lifetime > 0 ==> Holds(written, k, now);
      if saves {
        var _ := Save(now, true, false, locked);
      }
    }

    method Save(now: int, loadFirst: bool, force: bool, locked: bool) returns (saved: bool)
      requires Valid()
      modifies this, file
      ensures Valid()
      ensures if locked then (State(), file.content) == Saved(old(State()), old(file.content), now, loadFirst, force)
              else State() == Cleared(old(State()), now) && file.content == old(file.content)
      ensures saved <==> locked && (force || old(modified) || exists k :: k in old(cache) && old(cache)[k].expiry <= now)
      ensures saved ==> file.content == Some(Pickle(cache, |cache|, now)) && lastLoaded == Some(now) && !modified
      ensures !saved ==> file.content == old(file.content) && lastLoaded == old(lastLoaded)
      ensures saved && loadFirst && Fresher(old(file.content), old(lastLoaded)) ==>
                Learnt(cache, old(file.content).value.cache, old(cache), true, now)
      ensures !(saved && loadFirst && Fresher(old(file.content), old(lastLoaded))) ==>
                Unexpired(cache, old(cache), now)
    {
      ClearExpired(now);
      if !modified && !force {
        return false;
      }
      if !locked {
        return false;
      }
      ghost var cleared := cache;
      if loadFirst {
        var loaded := LoadIfShould(now);
        if loaded {
          LearntFromLive(cache, file.content.value.cache, old(cache), cleared, now);
        }
      }
      file.content := Some(Pickle(cache, size, now));
      lastLoaded := Some(now);
      modified := false;
      return true;
    }
  }

  /** The file holds an entry for `k` that expires no earlier than `limit`. */
  predicate Outlasted<K, V>(file: Option<Pickle<K, V>>, k: K, limit: int) {
    file.Some? && k in file.value.cache && file.value.cache[k].expiry >= limit
  }

  /** Dropping expired entries first makes no difference. */
  lemma LearntFromLive<K, V>(result: map<K, Entry<V>>, mine: map<K, Entry<V>>, theirs: map<K, Entry<V>>,
                             live: map<K, Entry<V>>, now: int)
    requires Learnt(result, mine, live, true, now) && Unexpired(live, theirs, now)
    ensures Learnt(result, mine, theirs, true, now)
  {
  }

  /** What was set is got back until it expires. */
  method SetThenGet<K(==), V(==)>(d: DictFileCache<K, V>, k: K, v: V, now: int, saves: bool, locked: bool, later: int)
    returns (r: Option<V>)
    requires d.Valid() && later < now + d.lifetime && d.lifetime > 0
    modifies d, d.file
    ensures !Outlasted(old(d.file.content), k, now + d.lifetime) ==> r == Some(v)
  {
    d.SetItem(k, v, now, saves, locked);
    r := d.GetItem(k, later);
  }

  /** Another process gets what one has set and saved, unless it holds an unexpired entry itself or
      has loaded the file since. */
  method SetThenGetElsewhere<K(==), V(==)>(d: DictFileCache<K, V>, e: DictFileCache<K, V>, k: K, v: V, now: int, later: int)
    returns (r: Option<V>)
    requires d != e && d.file == e.file && d.Valid() && e.Valid() && later < now + d.lifetime && d.lifetime > 0
    modifies d, e, d.file
    ensures !Outlasted(old(d.file.content), k, now + d.lifetime) &&
            (old(e.lastLoaded).None? || old(e.lastLoaded).value < now) ==>
              r == if Holds(old(e.cache), k, later) then Some(old(e.cache)[k].value) else Some(v)
  {
    d.SetItem(k, v, now, true, true);
    r := e.GetItem(k, later);
  }

  // ---------------------------------------------------------------------------
  // What a load means

  /** Loading gives the pointwise latest-expiry union of the unexpired entries of both sides. */
  lemma LoadIsLatestUnion<K, V>(m: Memory<K, V>, file: Pickle<K, V>, now: int)
    ensures var merged, mine, theirs := Loaded(m, file, now).cache, Live(m.cache, now), Live(file.cache, now);
            && merged.Keys == mine.Keys + theirs.Keys
            && forall k :: k in merged ==>
                 && ((k in mine && merged[k] == mine[k]) || (k in theirs && merged[k] == theirs[k]))
                 && (k in mine ==> mine[k].expiry <= merged[k].expiry)
                 && (k in theirs ==> merged[k] == theirs[k] || theirs[k].expiry < merged[k].expiry)
  {
  }

  /** The dirty flag after a load says exactly whether the file lacked something the memory knew. */
  lemma DirtyIffFileLacks<K, V>(m: Memory<K, V>, file: Pickle<K, V>, now: int)
    ensures Loaded(m, file, now).modified
            <==> exists k :: k in m.cache && !Expired(m.cache[k].expiry, now)
                             && (k !in file.cache || Expired(file.cache[k].expiry, now)
                                 || file.cache[k].expiry < m.cache[k].expiry)
  {
    var news := News(Live(file.cache, now), Live(m.cache, now));
    if news != map[] {
      var k :| k in news;
      assert k in m.cache;
    }
    if k :| k in m.cache && !Expired(m.cache[k].expiry, now)
            && (k !in file.cache || Expired(file.cache[k].expiry, now) || file.cache[k].expiry < m.cache[k].expiry) {
      assert k in news;
    }
  }
}

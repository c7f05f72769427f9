/** The two-layer CRL cache (`CRLCacheManager` over a memory and a file cache) and the
    freshness rule of `_check_certificate_against_crl_url` that fills it. */
module CrlCache {
  import opened Options

  datatype Crl = Crl(number: nat, lastUpdate: Option<int>, nextUpdate: Option<int>)

  datatype Entry = Entry(crl: Crl, downloadTime: int) {
    predicate ExpiredBy(now: int) { crl.nextUpdate.Some? && crl.nextUpdate.value < now }
    predicate EvictedBy(now: int, validity: int) { downloadTime + validity < now }
  }

  /** Either layer may be the no-operation cache. */
  datatype Settings = Settings(memoryOn: bool, fileOn: bool, validity: int, removalDelay: int)

  datatype Layers = Layers(memory: map<string, Entry>, file: map<string, Entry>)

  // ---------------------------------------------------------------------------
  // The operations on the pair of layers

  /** What a lookup finds: memory first, then file. */
  function Visible(s: Layers, url: string): Option<Entry> {
    if url in s.memory then Some(s.memory[url])
    else if url in s.file then Some(s.file[url])
    else None
  }

  function Promoted(g: Settings, s: Layers, url: string): Layers {
    if url !in s.memory && url in s.file && g.memoryOn then s.(memory := s.memory[url := s.file[url]]) else s
  }

  function Stored(g: Settings, s: Layers, url: string, e: Entry): Layers {
    Layers(if g.memoryOn then s.memory[url := e] else s.memory, if g.fileOn then s.file[url := e] else s.file)
  }

  function MemoryCleaned(g: Settings, s: Layers, now: int): Layers {
    s.(memory := map u | u in s.memory && !s.memory[u].ExpiredBy(now) && !s.memory[u].EvictedBy(now, g.validity)
                 :: s.memory[u])
  }

  function FileCleaned(g: Settings, s: Layers, now: int): Layers {
    s.(file := map u | u in s.file && !(now > s.file[u].downloadTime + g.removalDelay) :: s.file[u])
  }

  /** A CRL without a next update, or past it, is not taken. */
  function Accepted(response: Option<Crl>, now: int): Option<Crl> {
    if response.Some? && response.value.nextUpdate.Some? && now <= response.value.nextUpdate.value
    then response else None
  }

  predicate MoreRecent(latest: Crl, cached: Crl) {
    latest.lastUpdate.Some? &&
    (cached.lastUpdate.None? || latest.lastUpdate.value > cached.lastUpdate.value)
  }

  /** The layers after a check of `url` at `now` whose download, if needed, answered `response` at `ts`. */
  function Checked(g: Settings, s: Layers, url: string, now: int, response: Option<Crl>, ts: int): Layers {
    var cached, t := Visible(s, url), Promoted(g, s, url);
    if cached.Some? && !cached.value.ExpiredBy(now) && !cached.value.EvictedBy(now, g.validity) then t
    else
      var latest := Accepted(response, ts);
      if latest.Some? && (cached.None? || MoreRecent(latest.value, cached.value.crl))
      then Stored(g, t, url, Entry(latest.value, ts))
      else t
  }

  // ---------------------------------------------------------------------------
  // When an entry and a download are good, in terms of times alone

  /** Past its next update, or cached for longer than the validity time. */
  predicate Overdue(e: Entry, now: int, validity: int) {
    || (e.crl.nextUpdate.Some? && e.crl.nextUpdate.value < now)
    || e.downloadTime < now - validity
  }

  predicate Due(seen: Option<Entry>, now: int, validity: int) {
    seen.None? || Overdue(seen.value, now, validity)
  }

  /** Its next update is known and not over. */
  predicate Usable(response: Option<Crl>, ts: int) {
    response.Some? && response.value.nextUpdate.Some? && response.value.nextUpdate.value >= ts
  }

  /** Nothing is in sight, or its update time is unknown or earlier. */
  predicate Newer(latest: Crl, seen: Option<Entry>) {
    seen.None? ||
    (latest.lastUpdate.Some? &&
     (seen.value.crl.lastUpdate.None? || seen.value.crl.lastUpdate.value < latest.lastUpdate.value))
  }

  class CacheManager {
    const settings: Settings
    var memory: map<string, Entry>
    var file: map<string, Entry>

    /** A new process: empty memory over whatever an earlier one left on disk. */
    constructor (settings: Settings, file: map<string, Entry>)
      requires !settings.fileOn ==> file == map[]
      ensures this.settings == settings && this.file == file && memory == map[] && Valid()
    {
      this.settings, this.memory, this.file := settings, map[], file;
    }

    ghost function State(): Layers
      reads this
    {
      Layers(memory, file)
    }

    ghost predicate Valid()
      reads this
    {
      Good(settings, State())
    }

    /** What the cache has to offer for a URL. */
    ghost function InSight(url: string): Option<Entry>
      reads this
    {
      if url in memory then Some(memory[url]) else if url in file then Some(file[url]) else None
    }

    method Get(url: string) returns (entry: Option<Entry>)
      requires Valid()
      modifies this
      ensures Valid()
      ensures State() == Promoted(settings, old(State()), url)
      ensures entry == (if url in old(memory) then Some(old(memory)[url])
                        else if url in old(file) then Some(old(file)[url]) else None)
      ensures file == old(file) && (settings.memoryOn && entry.Some? ==> memory == old(memory)[url := entry.value])
      ensures !settings.memoryOn || entry.None? ==> memory == old(memory)
    {
      if url in memory {
        return Some(memory[url]);
      }
      if url in file {
        if settings.memoryOn {
          memory := memory[url := file[url]];
        }
        return Some(file[url]);
      }
      return None;
    }

    method Put(url: string, crl: Crl, downloadTime: int)
      requires Valid()
      modifies this
      ensures Valid()
      ensures State() == Stored(settings, old(State()), url, Entry(crl, downloadTime))
      ensures settings.memoryOn ==> memory == old(memory)[url := Entry(crl, downloadTime)]
      ensures settings.fileOn ==> file == old(file)[url := Entry(crl, downloadTime)]
    {
      var entry := Entry(crl, downloadTime);
      if settings.memoryOn {
        memory := memory[url := entry];
      }
      if settings.fileOn {
        file := file[url := entry];
      }
    }

    method CleanMemory(now: int)
      requires Valid()
      modifies this
      ensures Valid()
      ensures State() == MemoryCleaned(settings, old(State()), now)
      ensures file == old(file)
      ensures forall u :: u in memory <==> u in old(memory) && !Overdue(old(memory)[u], now, settings.validity)
      ensures forall u :: u in memory ==> memory[u] == old(memory)[u]
    {
      var doomed: set<string> := {};
      var left := memory.Keys;
      while left != {}
        invariant left <= memory.Keys && doomed <= memory.Keys && memory == old(memory) && file == old(file)
        invariant forall u :: u in memory && u !in left ==>
                    (u in doomed <==> memory[u].ExpiredBy(now) || memory[u].EvictedBy(now, settings.validity))
        invariant doomed !! left
        decreases left
      {
        var u :| u in left;
        left := left - {u};
        if memory[u].ExpiredBy(now) || memory[u].EvictedBy(now, settings.validity) {
          doomed := doomed + {u};
        }
      }
      memory := memory - doomed;
    }

    method CleanFile(now: int)
      requires Valid()
      modifies this
      ensures Valid()
      ensures State() == FileCleaned(settings, old(State()), now)
      ensures memory == old(memory)
      ensures forall u :: u in file <==> u in old(file) && now <= old(file)[u].downloadTime + settings.removalDelay
      ensures forall u :: u in file ==> file[u] == old(file)[u]
    {
      var left := file.Keys;
      while left != {}
        invariant left <= file.Keys && memory == old(memory)
        invariant forall u :: u in left ==> u in old(file) && file[u] == old(file)[u]
        invariant forall u :: u !in left ==>
                    (u in file <==> u in old(file) && !(now > old(file)[u].downloadTime + settings.removalDelay))
        invariant forall u :: u in file ==> u in old(file) && file[u] == old(file)[u]
        decreases left
      {
        var u :| u in left;
        left := left - {u};
        if now > file[u].downloadTime + settings.removalDelay {
          file := file - {u};
        }
      }
      assert file == FileCleaned(settings, old(State()), now).file;
    }

    /** The caching half of the check; the result is the CRL to consult, if there is one. Nothing is
        downloaded while the entry in sight is good. Otherwise a download that is good itself is taken
        if and only if it is newer than what is in sight. */
    method Check(url: string, now: int, response: Option<Crl>, ts: int) returns (crl: Option<Crl>)
      requires Valid()
      modifies this
      ensures Valid()
      ensures State() == Checked(settings, old(State()), url, now, response, ts)
      ensures var seen := old(InSight(url));
              && (seen.Some? && !Overdue(seen.value, now, settings.validity) ==> crl == Some(seen.value.crl))
              && (Due(seen, now, settings.validity) && !Usable(response, ts) ==> crl == None)
              && (Due(seen, now, settings.validity) && Usable(response, ts) && Newer(response.value, seen) ==>
                    crl == response)
              && (Due(seen, now, settings.validity) && Usable(response, ts) && !Newer(response.value, seen) ==>
                    crl == Some(seen.value.crl))
      ensures var seen := old(InSight(url));
              if Due(seen, now, settings.validity) && Usable(response, ts) && Newer(response.value, seen)
              then memory == (if settings.memoryOn then old(memory)[url := Entry(response.value, ts)] else old(memory))
                   && file == (if settings.fileOn then old(file)[url := Entry(response.value, ts)] else old(file))
              else memory == (if settings.memoryOn && seen.Some? then old(memory)[url := seen.value] else old(memory))
                   && file == old(file)
      ensures crl.Some? && (settings.memoryOn || settings.fileOn) ==>
                InSight(url).Some? && InSight(url).value.crl == crl.value
      ensures crl.Some? && old(InSight(url)).Some? ==> NoOlder(old(InSight(url)).value.crl, crl.value)
      ensures crl.Some? && Due(old(InSight(url)), now, settings.validity) ==> NoOlder(response.value, crl.value)
    {
      var cached := Get(url);
      if cached.None? || cached.value.ExpiredBy(now) || cached.value.EvictedBy(now, settings.validity) {
        crl := Accepted(response, ts);
        if crl.Some? {
          if cached.None? || MoreRecent(crl.value, cached.value.crl) {
            Put(url, crl.value, ts);
          } else {
            crl := Some(cached.value.crl);
          }
        }
      } else {
        crl := Some(cached.value.crl);
      }
    }
  }

  // ---------------------------------------------------------------------------
  // Runs of one process

  datatype Op =
    | DoCheck(url: string, now: int, response: Option<Crl>, ts: int)
    | DoGet(url: string)
    | DoCleanMemory(now: int)
    | DoCleanFile(now: int)

  function Apply(g: Settings, s: Layers, op: Op): Layers {
    match op
    case DoCheck(url, now, response, ts) => Checked(g, s, url, now, response, ts)
    case DoGet(url) => Promoted(g, s, url)
    case DoCleanMemory(now) => MemoryCleaned(g, s, now)
    case DoCleanFile(now) => FileCleaned(g, s, now)
  }

  function Run(g: Settings, s: Layers, ops: seq<Op>): Layers
    decreases |ops|
  {
    if ops == [] then s else Run(g, Apply(g, s, ops[0]), ops[1..])
  }

  /** Memory and file hold the same entry wherever both hold one, and a no-operation layer holds none. */
  predicate Good(g: Settings, s: Layers) {
    && (forall u :: u in s.memory && u in s.file ==> s.memory[u] == s.file[u])
    && (g.memoryOn || s.memory == map[])
    && (g.fileOn || s.file == map[])
  }

  /** No update time counts as older than any. */
  predicate NoOlder(a: Crl, b: Crl) {
    a.lastUpdate.None? || (b.lastUpdate.Some? && a.lastUpdate.value <= b.lastUpdate.value)
  }

  lemma StepAgrees(g: Settings, s: Layers, op: Op)
    requires Good(g, s)
    ensures Good(g, Apply(g, s, op))
  {
  }

  /** One operation does not make what is in sight older, unless it takes it out of sight. */
  lemma StepNoOlder(g: Settings, s: Layers, op: Op, url: string)
    requires Good(g, s)
    requires Visible(s, url).Some? && Visible(Apply(g, s, op), url).Some?
    ensures NoOlder(Visible(s, url).value.crl, Visible(Apply(g, s, op), url).value.crl)
  {
  }

  /** Any run: the layers agree throughout, and while a URL stays in at least one of them its
      visible CRL's last update never goes back. */
  lemma {:induction false} RunsNeverGoBack(g: Settings, s: Layers, ops: seq<Op>, url: string)
    requires Good(g, s)
    ensures Good(g, Run(g, s, ops))
    ensures (forall k :: 0 <= k <= |ops| ==> Visible(Run(g, s, ops[..k]), url).Some?) ==>
              && Visible(s, url).Some? && Visible(Run(g, s, ops), url).Some?
              && NoOlder(Visible(s, url).value.crl, Visible(Run(g, s, ops), url).value.crl)
    decreases |ops|
  {
    if ops != [] {
      var t := Apply(g, s, ops[0]);
      StepAgrees(g, s, ops[0]);
      RunsNeverGoBack(g, t, ops[1..], url);
      if forall k :: 0 <= k <= |ops| ==> Visible(Run(g, s, ops[..k]), url).Some? {
        forall k | 0 <= k <= |ops[1..]| ensures Visible(Run(g, t, ops[1..][..k]), url).Some? {
          assert ops[..k + 1][1..] == ops[1..][..k];
          assert Visible(Run(g, s, ops[..k + 1]), url).Some?;
        }
        assert ops[..0] == [];
        assert ops[1..][..0] == [];
        assert Visible(Run(g, s, ops[..0]), url).Some? && Visible(Run(g, t, ops[1..][..0]), url).Some?;
        StepNoOlder(g, s, ops[0], url);
      }
    } else {
      assert ops[..0] == [];
      assert (forall k :: 0 <= k <= |ops| ==> Visible(Run(g, s, ops[..k]), url).Some?) ==>
          Visible(Run(g, s, ops[..0]), url).Some?;
    }
  }
}

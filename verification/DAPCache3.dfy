/** The bookkeeping of DAPCache3: the recorded size, the purge loop, and the operations that
    one process carries out while it has the info file locked. */
module DAPCache3 {
  import opened Wrappers
  import opened Text
  import opened CacheFiles

  const BYTES_PER_MEG: nat := 1048576
  const MAX_CACHE_SIZE_IN_MEGABYTES: nat := 0x1000_0000_0000

  /** The configured size in bytes, as 64-bit arithmetic gives it. */
  function MaxSize(megs: nat): nat {
    (if megs < MAX_CACHE_SIZE_IN_MEGABYTES then megs else MAX_CACHE_SIZE_IN_MEGABYTES) * BYTES_PER_MEG % TWO_TO_64
  }

  /** Eighty per cent, truncated. */
  function TargetSize(maxSize: nat): nat { maxSize * 4 / 5 }

  /** The largest whole number that is at most four fifths of the maximum. */
  predicate FourFifths(target: nat, maxSize: nat) { 5 * target <= 4 * maxSize < 5 * (target + 1) }

  lemma TargetIsFourFifths(maxSize: nat)
    ensures FourFifths(TargetSize(maxSize), maxSize)
  {
  }

  /** The clamp to the documented maximum of 2^44 megabytes overflows to zero, so that size
      and every larger one is rejected as if it had not been given; any other size is kept. */
  lemma SizeAccepted(megs: nat)
    ensures MaxSize(megs) > 0 <==> 0 < megs < MAX_CACHE_SIZE_IN_MEGABYTES
    ensures MaxSize(megs) > 0 ==> MaxSize(megs) == megs * BYTES_PER_MEG && TargetSize(MaxSize(megs)) < MaxSize(megs)
  {
  }

  /** The directory that the processes share, and the number in the info file once it exists. */
  class Disk {
    var made: bool
    var entries: seq<Entry>
    var recorded: Option<nat>

    constructor ()
      ensures !made && entries == [] && recorded == None
    {
      made, entries, recorded := false, [], None;
    }
  }

  class Cache {
    const disk: Disk
    /** The cache directory and d_prefix: the start of the path of every cached file. */
    const prefix: string
    const maxSize: nat
    const targetSize: nat

    constructor (disk: Disk, prefix: string, megs: nat)
      ensures this.disk == disk && this.prefix == prefix
      ensures maxSize == MaxSize(megs) && FourFifths(targetSize, maxSize)
    {
      TargetIsFourFifths(MaxSize(megs));
      this.disk, this.prefix := disk, prefix;
      maxSize, targetSize := MaxSize(megs), TargetSize(MaxSize(megs));
    }

    ghost predicate Valid()
      reads this, disk
    {
      Distinct(disk.entries) && disk.recorded.Some? && FourFifths(targetSize, maxSize)
    }

    /** The cached files, in the order readdir() lists them. */
    function Files(): seq<Entry>
      reads this, disk
    {
      Cached(disk.entries, prefix)
    }

    /** The recorded size is the size of the cached files. */
    ghost predicate Accurate()
      reads this, disk
    {
      disk.recorded == Some(Word(Sum(Files())))
    }

    /** m_initialize_cache_info and m_check_ctor_params; None stands for the exception, and
        `allowed` says whether mkdir() would succeed.  The directory is made before the prefix
        and the size are looked at. */
    static method Open(disk: Disk, dir: string, prefix: string, megs: nat, allowed: bool) returns (cache: Option<Cache>)
      modifies disk
      ensures cache.Some? <==>
        dir != "" && (old(disk.made) || allowed) && prefix != "" && 0 < megs < MAX_CACHE_SIZE_IN_MEGABYTES
      ensures cache.Some? ==> fresh(cache.value) && cache.value.disk == disk && cache.value.prefix == prefix
      ensures cache.Some? ==> cache.value.maxSize == megs * BYTES_PER_MEG
      ensures cache.Some? ==> 5 * cache.value.targetSize <= 4 * cache.value.maxSize < 5 * (cache.value.targetSize + 1)
      ensures cache.Some? && Distinct(disk.entries) ==> cache.value.Valid()
      ensures disk.made <==> old(disk.made) || (dir != "" && allowed)
      ensures disk.entries == old(disk.entries)
      ensures disk.recorded == if cache.Some? && old(disk.recorded).None? then Some(0) else old(disk.recorded)
    {
      SizeAccepted(megs);
      if dir == "" { return None; }
      if !disk.made {
        if !allowed { return None; }
        disk.made := true;
      }
      if prefix == "" || MaxSize(megs) == 0 { return None; }
      var c := new Cache(disk, prefix, megs);
      if disk.recorded.None? { disk.recorded := Some(0); }
      return Some(c);
    }

    /** m_collect_cache_dir_info: two passes over the directory and a sort. */
    method CollectDirInfo() returns (total: nat, contents: seq<Entry>)
      ensures total == Word(Sum(Files()))
      ensures contents == Sorted(Files())
    {
      var names, i := [], 0;
      var es := disk.entries;
      assert Cached(es[..0], prefix) == [] && Sum(names[..0]) == 0;
      hide Cached, Sum, Sorted, Word, Plus;
      while i < |es|
        invariant 0 <= i <= |es| && names == Cached(es[..i], prefix)
      {
        CachedNext(es, i, prefix);
        if prefix <= es[i].name { names := names + [es[i]]; }
        i := i + 1;
      }
      assert es[..i] == es;
      total, contents := 0, [];
      var j := 0;
      while j < |names|
        invariant 0 <= j <= |names| && contents == names[..j] && total == Word(Sum(names[..j]))
      {
        SumNext(names, j);
        total := Plus(total, names[j].size);
        contents := contents + [names[j]];
        j := j + 1;
      }
      assert names[..j] == names;
      contents := Sorted(contents);
    }

    method CacheTooBig(size: nat) returns (r: bool)
      ensures r == (size > maxSize)
    {
      r := size > maxSize;
    }

    /** update_and_purge; `busy` holds the files that other processes have locked when the
        loop comes to them. */
    method UpdateAndPurge(newFile: string, busy: set<string>)
      requires Valid()
      modifies disk
      ensures Valid() && Accurate()
      ensures disk.entries == Without(old(disk.entries), Purged(old(Files()), newFile, busy, maxSize, targetSize))
      ensures old(Sum(Files())) < TWO_TO_64 ==>
        exists k: nat :: Frees(old(Files()), newFile, busy, maxSize, k)
          && disk.entries == Without(old(disk.entries), Oldest(old(Files()), newFile, busy, k))
    {
      if Sum(Files()) < TWO_TO_64 {
        ghost var k := PurgeFrees(Files(), newFile, busy, maxSize, targetSize);
        assert Frees(Files(), newFile, busy, maxSize, k);
      }
      hide Sorted, Cached, Sum, Word, Purged, PurgeState, Without, Distinct;
      var computed: nat, contents: seq<Entry> := CollectDirInfo();
      ghost var before: seq<Entry>, total: nat := disk.entries, computed;
      ghost var done: seq<Entry> := [];
      PurgeStarts(before, prefix, newFile, busy, targetSize);
      assert computed == Word(Sum(Files()));
      hide *;
      if computed > maxSize {
        var i := 0;
        while i < |contents| && computed > targetSize
          invariant 0 <= i <= |contents| && disk.recorded == old(disk.recorded)
          invariant PurgeState(before, prefix, contents, newFile, busy, total, targetSize, i, done,
                               disk.entries, computed)
        {
          var e := contents[i];
          PurgeStep(before, prefix, contents, newFile, busy, total, targetSize, i, done, disk.entries, computed);
          if e.name != newFile && e.name !in busy {
            disk.entries := Without(disk.entries, {e.name});
            computed := Minus(computed, e.size);
            done := done + [e];
          }
          i := i + 1;
        }
        PurgeEnds(before, prefix, contents, newFile, busy, total, maxSize, targetSize, i, done, disk.entries, computed);
      } else {
        PurgedNothing(before, prefix, newFile, busy, maxSize, targetSize);
      }
      disk.recorded := Some(computed);
    }

    /** update_cache_info; None when the file is not there. */
    method UpdateCacheInfo(target: string) returns (size: Option<nat>)
      requires Valid()
      modifies disk
      ensures Valid() && disk.entries == old(disk.entries)
      ensures var e := Lookup(disk.entries, target);
        if e.None? then size == None && disk.recorded == old(disk.recorded)
        else size == Some(Plus(old(disk.recorded).value, e.value.size)) && disk.recorded == size
    {
      var e := Lookup(disk.entries, target);
      if e.None? { return None; }
      size := Some(Plus(disk.recorded.value, e.value.size));
      disk.recorded := size;
    }

    /** create_and_lock: fails when the file exists. */
    method CreateAndLock(target: string) returns (ok: bool)
      requires Valid()
      modifies disk
      ensures Valid() && disk.recorded == old(disk.recorded)
      ensures ok <==> Lookup(old(disk.entries), target).None?
      ensures disk.entries == if ok then old(disk.entries) + [Entry(target, 0, 0)] else old(disk.entries)
    {
      ok := Lookup(disk.entries, target).None?;
      if ok { disk.entries := disk.entries + [Entry(target, 0, 0)]; }
    }

    /** purge_file when nobody else uses the cache. */
    method PurgeFile(file: string)
      requires Valid()
      modifies disk
      ensures Valid() && disk.entries == Without(old(disk.entries), {file})
      ensures var e := Lookup(old(disk.entries), file);
        disk.recorded == if e.None? then old(disk.recorded)
                         else Some(Minus(old(disk.recorded).value, e.value.size))
    {
      var e := Lookup(disk.entries, file);
      if e.None? {
        WithoutAbsent(disk.entries, file);
        return;
      }
      WithoutMembers(disk.entries, {file});
      disk.entries := Without(disk.entries, {file});
      disk.recorded := Some(Minus(disk.recorded.value, e.value.size));
    }

    /** A whole insertion: create the file, write it, account for it, and purge when the cache
        has become too big. */
    method Insertion(target: string, size: nat, time: int, busy: set<string>) returns (ok: bool)
      requires Valid() && Accurate() && prefix <= target
      modifies disk
      ensures Valid() && Accurate()
      ensures ok <==> Lookup(old(disk.entries), target).None?
      ensures !ok ==> disk.entries == old(disk.entries)
      ensures ok ==> exists gone: set<string> ::
        && target !in gone && gone !! busy
        && disk.entries == Without(old(disk.entries) + [Entry(target, size, time)], gone)
      ensures ok && old(Sum(Files())) + size < TWO_TO_64 ==>
        var es := old(disk.entries) + [Entry(target, size, time)]; var files := Cached(es, prefix);
        exists k: nat :: Frees(files, target, busy, maxSize, k)
          && disk.entries == Without(es, Oldest(files, target, busy, k))
      ensures Sum(Files()) <= old(Sum(Files())) + if ok then size else 0
    {
      hide Cached, Sum, Sorted, Evictable, Purged, Without, Cut, Frees, Oldest, FourFifths, Word;
      ghost var before := disk.entries;
      ok := CreateAndLock(target);
      if !ok { return; }
      var e := Entry(target, size, time);
      disk.entries := disk.entries[|disk.entries| - 1 := e];
      assert disk.entries == before + [e];
      LookupLast(before, e);
      CachedSnoc(before, e, prefix);
      PlusMod(Sum(Cached(before, prefix)), size);
      var now := UpdateCacheInfo(target);
      var tooBig := CacheTooBig(now.value);
      ghost var es, files := disk.entries, Files();
      assert es == before + [e];
      if Sum(files) < TWO_TO_64 { WordSmall(Sum(files)); }
      if tooBig {
        ghost var gone := Purged(Files(), target, busy, maxSize, targetSize);
        PurgedSpares(Files(), target, busy, maxSize, targetSize);
        UpdateAndPurge(target, busy);
        WithoutShrinks(before + [e], gone, prefix);
        assert target !in gone && gone !! busy;
      } else {
        WithoutNone(disk.entries);
        if Sum(files) < TWO_TO_64 { NothingToFree(files, target, busy, maxSize); }
        assert target !in {} && {} !! busy;
      }
    }

    /** Removing a cached file by name when nobody else uses the cache.  While the sizes fit a
        64-bit word nothing is subtracted that is not in the recorded size. */
    method Removal(file: string)
      requires Valid() && Accurate() && prefix <= file
      modifies disk
      ensures Valid() && Accurate() && disk.entries == Without(old(disk.entries), {file})
      ensures Sum(Files()) <= old(Sum(Files()))
      ensures var e := Lookup(old(disk.entries), file); old(Sum(Files())) < TWO_TO_64 ==>
        && (e.Some? ==> e.value.size <= old(disk.recorded).value)
        && disk.recorded == Some(old(disk.recorded).value - if e.Some? then e.value.size else 0)
    {
      hide Cached, Sum, Without, Distinct;
      var e := Lookup(disk.entries, file);
      if e.Some? {
        RemoveOne(disk.entries, prefix, e.value);
        MinusMod(Sum(Files()), e.value.size);
      } else {
        WithoutAbsent(disk.entries, file);
      }
      PurgeFile(file);
    }

    /** Any serial sequence of insertions and removals keeps the recorded size exact.  When the
        files that are there and those that are added fit a 64-bit word together, no addition
        wraps round and no subtraction underflows: the recorded size is the true one. */
    method Serial(ops: seq<SerialOp>)
      requires Valid() && Accurate() && forall op :: op in ops ==> prefix <= op.target
      modifies disk
      ensures Valid() && Accurate()
      ensures Sum(Files()) <= old(Sum(Files())) + Added(ops)
      ensures old(Sum(Files())) + Added(ops) < TWO_TO_64 ==> disk.recorded == Some(Sum(Files()))
    {
      hide Cached, Sum, Distinct;
      var i := 0;
      while i < |ops|
        invariant 0 <= i <= |ops| && Valid() && Accurate()
        invariant Sum(Files()) + Added(ops[i..]) <= old(Sum(Files())) + Added(ops)
      {
        assert ops[i..][1..] == ops[i + 1..];
        match ops[i] {
          case Add(target, size, time, busy) => var _ := Insertion(target, size, time, busy);
          case Remove(target) => Removal(target);
        }
        i := i + 1;
      }
    }
  }

  datatype SerialOp =
    | Add(target: string, size: nat, time: int, busy: set<string>)
    | Remove(target: string)

  /** The bytes that a sequence of operations may add. */
  function Added(ops: seq<SerialOp>): nat {
    if ops == [] then 0 else (if ops[0].Add? then ops[0].size else 0) + Added(ops[1..])
  }

  /** The files that a purge of this directory content removes. */
  function Purged(files: seq<Entry>, newFile: string, busy: set<string>, maxSize: nat, targetSize: nat): set<string> {
    var total := Word(Sum(files));
    var v := Evictable(Sorted(files), newFile, busy);
    if total > maxSize then Names(v[..Cut(v, total, targetSize)]) else {}
  }

  lemma PurgedIs(files: seq<Entry>, newFile: string, busy: set<string>, maxSize: nat, targetSize: nat, k: nat)
    requires var total := Word(Sum(files)); var v := Evictable(Sorted(files), newFile, busy);
      k == if total > maxSize then Cut(v, total, targetSize) else 0
    ensures var v := Evictable(Sorted(files), newFile, busy);
      k <= |v| && Purged(files, newFile, busy, maxSize, targetSize) == Names(v[..k])
  {
    hide Word, Sum, Sorted, Evictable;
  }

  lemma PurgedSpares(files: seq<Entry>, newFile: string, busy: set<string>, maxSize: nat, targetSize: nat)
    ensures var gone := Purged(files, newFile, busy, maxSize, targetSize); newFile !in gone && gone !! busy
  {
    EvictableMembers(Sorted(files), newFile, busy);
  }

  /** What a purge comes to when the sizes of the cached files fit a 64-bit word.  Nothing goes
      while the total is within the maximum.  Otherwise the shortest prefix of the oldest-first
      evictable files goes that brings the total down to the target, or all of them when none
      does; the new file and the files others have locked always stay. */
  lemma PurgeIsMinimal(files: seq<Entry>, newFile: string, busy: set<string>, maxSize: nat, targetSize: nat)
    returns (k: nat)
    requires Sum(files) < TWO_TO_64
    ensures var v := Evictable(Sorted(files), newFile, busy); var total := Sum(files);
      var gone := Purged(files, newFile, busy, maxSize, targetSize);
      && k <= |v| && gone == Names(v[..k]) && newFile !in gone && gone !! busy
      && Sum(v[..k]) <= total
      && (total <= maxSize ==> gone == {})
      && (total > maxSize ==> k == |v| || total - Sum(v[..k]) <= targetSize)
      && (forall j :: 0 <= j < k ==> total - Sum(v[..j]) > targetSize)
  {
    var v := Evictable(Sorted(files), newFile, busy);
    EvictableMembers(Sorted(files), newFile, busy);
    SortedKeeps(files, 0);
    assert Sum(v[..0]) == 0 && Names(v[..0]) == {};
    WordSmall(Sum(files));
    hide Cut, Sorted, Evictable, Sum, Names, Word, Purged;
    PurgedSpares(files, newFile, busy, maxSize, targetSize);
    k := if Sum(files) > maxSize then Cut(v, Sum(files), targetSize) else 0;
    PurgedIs(files, newFile, busy, maxSize, targetSize, k);
    CutIsShortest(v, Sum(files), targetSize);
  }

  /** The names of the first k evictable files, oldest first. */
  function Oldest(files: seq<Entry>, newFile: string, busy: set<string>, k: nat): set<string> {
    var v := Evictable(Sorted(files), newFile, busy);
    if k <= |v| then Names(v[..k]) else Names(v)
  }

  /** Removing the k oldest evictable files is what the size of the cache asks for: none within
      the maximum, and otherwise as many as it takes, and no more, to come down to four fifths
      of the maximum, or all of them. */
  ghost predicate Frees(files: seq<Entry>, newFile: string, busy: set<string>, maxSize: nat, k: nat) {
    var v := Evictable(Sorted(files), newFile, busy);
    && k <= |v|
    && (Sum(files) <= maxSize ==> k == 0)
    && (Sum(files) > maxSize ==> k == |v| || 5 * (Sum(files) - Sum(v[..k])) <= 4 * maxSize)
    && (forall j :: 0 <= j < k ==> 5 * (Sum(files) - Sum(v[..j])) > 4 * maxSize)
  }

  /** A purge to four fifths of the maximum, in terms of the maximum alone. */
  lemma PurgeFrees(files: seq<Entry>, newFile: string, busy: set<string>, maxSize: nat, targetSize: nat)
    returns (k: nat)
    requires Sum(files) < TWO_TO_64 && FourFifths(targetSize, maxSize)
    ensures Frees(files, newFile, busy, maxSize, k)
    ensures Purged(files, newFile, busy, maxSize, targetSize) == Oldest(files, newFile, busy, k)
  {
    hide Sorted, Evictable, Sum, Names, Purged;
    k := PurgeIsMinimal(files, newFile, busy, maxSize, targetSize);
    if Sum(files) <= maxSize {
      k := 0;
      NothingToFree(files, newFile, busy, maxSize);
    }
  }

  lemma NothingToFree(files: seq<Entry>, newFile: string, busy: set<string>, maxSize: nat)
    requires Sum(files) <= maxSize
    ensures Frees(files, newFile, busy, maxSize, 0) && Oldest(files, newFile, busy, 0) == {}
  {
  }

  lemma SumNext(es: seq<Entry>, j: nat)
    requires j < |es|
    ensures es[..j + 1] == es[..j] + [es[j]]
    ensures Word(Sum(es[..j + 1])) == Plus(Word(Sum(es[..j])), es[j].size)
  {
    hide Word, Plus;
    assert es[..j + 1] == es[..j] + [es[j]];
    SumConcat(es[..j], [es[j]]);
    PlusMod(Sum(es[..j]), es[j].size);
  }

  lemma CachedNext(es: seq<Entry>, i: nat, prefix: string)
    requires i < |es|
    ensures Cached(es[..i + 1], prefix) == Cached(es[..i], prefix) + if prefix <= es[i].name then [es[i]] else []
  {
    hide Cached;
    assert es[..i + 1] == es[..i] + [es[i]];
    CachedAppends(es[..i], es[i], prefix);
  }

  lemma CachedAppends(es: seq<Entry>, e: Entry, prefix: string)
    ensures Cached(es + [e], prefix) == Cached(es, prefix) + (if prefix <= e.name then [e] else [])
    decreases |es|
  {
    if es == [] {
      assert [] + [e] == [e] + [];
      CachedCons(e, [], prefix);
    } else {
      assert es + [e] == [es[0]] + (es[1..] + [e]) && es == [es[0]] + es[1..];
      CachedAppends(es[1..], e, prefix);
      CachedCons(es[0], es[1..] + [e], prefix);
    }
  }

  /** The next entry of the scan has not been removed yet. */
  lemma StillThere(before: seq<Entry>, contents: seq<Entry>, i: nat, done: seq<Entry>)
    requires Distinct(contents) && i < |contents| && contents[i] in before
    requires forall e :: e in done ==> e in contents[..i]
    ensures contents[i] in Without(before, Names(done)) && contents[i].name !in Names(done)
  {
    WithoutMembers(before, Names(done));
    forall e | e in done ensures e.name != contents[i].name {
      var j :| 0 <= j < i && contents[..i][j] == e;
    }
  }

  lemma ScanFacts(before: seq<Entry>, prefix: string)
    requires Distinct(before)
    ensures var contents := Sorted(Cached(before, prefix));
      && Distinct(contents) && Without(before, {}) == before
      && forall e :: e in contents <==> e in before && prefix <= e.name
  {
    var files := Cached(before, prefix);
    CachedMembers(before, prefix);
    SortedKeeps(files, 0);
    DistinctByCount(files, Sorted(files));
    WithoutNone(before);
  }

  /** The purge loop before entry i: the evictable ones among the earlier entries are gone,
      the computed size is that of the files that are left, and as many remain to be cut as
      the cut of the whole list has over what is done. */
  ghost predicate PurgeState(before: seq<Entry>, prefix: string, contents: seq<Entry>, newFile: string,
                             busy: set<string>, total: nat, target: nat, i: nat, done: seq<Entry>,
                             now: seq<Entry>, computed: nat) {
    && i <= |contents| && Distinct(before) && Distinct(now) && contents == Sorted(Cached(before, prefix))
    && now == Without(before, Names(done))
    && (forall e :: e in done ==> e in contents[..i])
    && computed == Word(Sum(Cached(now, prefix)))
    && var v := Evictable(contents, newFile, busy); var rest := Evictable(contents[i..], newFile, busy);
       v == done + rest && Cut(v, total, target) == |done| + Cut(rest, computed, target)
  }

  lemma PurgeStarts(before: seq<Entry>, prefix: string, newFile: string, busy: set<string>, target: nat)
    requires Distinct(before)
    ensures var total := Word(Sum(Cached(before, prefix)));
      PurgeState(before, prefix, Sorted(Cached(before, prefix)), newFile, busy, total, target, 0, [], before, total)
  {
    var contents := Sorted(Cached(before, prefix));
    ScanFacts(before, prefix);
    assert Names([]) == {} && contents[0..] == contents;
  }

  lemma PurgeStep(before: seq<Entry>, prefix: string, contents: seq<Entry>, newFile: string,
                  busy: set<string>, total: nat, target: nat, i: nat, done: seq<Entry>,
                  now: seq<Entry>, computed: nat)
    requires PurgeState(before, prefix, contents, newFile, busy, total, target, i, done, now, computed)
    requires i < |contents| && computed > target
    ensures var e := contents[i];
      if e.name != newFile && e.name !in busy
      then PurgeState(before, prefix, contents, newFile, busy, total, target, i + 1, done + [e],
                      Without(now, {e.name}), Minus(computed, e.size))
      else PurgeState(before, prefix, contents, newFile, busy, total, target, i + 1, done, now, computed)
  {
    hide Without, Names, Sum, Cached, Word, Minus, Sorted, Evictable, Cut;
    var e := contents[i];
    ScanFacts(before, prefix);
    SplitNext(contents, i, newFile, busy, computed, target);
    assert contents[..i + 1] == contents[..i] + [e];
    assert e in contents;
    RemoveNext(before, prefix, contents, i, done);
    var rest := Evictable(contents[i + 1..], newFile, busy);
    assert done + ([e] + rest) == (done + [e]) + rest;
  }

  lemma PurgeEnds(before: seq<Entry>, prefix: string, contents: seq<Entry>, newFile: string,
                  busy: set<string>, total: nat, maxSize: nat, target: nat, i: nat, done: seq<Entry>,
                  now: seq<Entry>, computed: nat)
    requires PurgeState(before, prefix, contents, newFile, busy, total, target, i, done, now, computed)
    requires i == |contents| || computed <= target
    requires total == Word(Sum(Cached(before, prefix))) && total > maxSize
    ensures Distinct(now) && computed == Word(Sum(Cached(now, prefix)))
    ensures now == Without(before, Purged(Cached(before, prefix), newFile, busy, maxSize, target))
  {
    hide Without, Names, Sum, Cached, Word, Sorted, Evictable, Cut, Purged;
    AllLookedAt(contents, i, newFile, busy, computed, target);
    var v := Evictable(contents, newFile, busy);
    assert v[..|done|] == done;
    PurgedIs(Cached(before, prefix), newFile, busy, maxSize, target, |done|);
  }

  lemma PurgedNothing(before: seq<Entry>, prefix: string, newFile: string, busy: set<string>, maxSize: nat, target: nat)
    requires Word(Sum(Cached(before, prefix))) <= maxSize
    ensures Without(before, Purged(Cached(before, prefix), newFile, busy, maxSize, target)) == before
  {
    WithoutNone(before);
  }

  /** What the next entry means for the list of evictable entries and for the cut. */
  lemma SplitNext(contents: seq<Entry>, i: nat, newFile: string, busy: set<string>, computed: nat, target: nat)
    requires i < |contents| && computed > target
    ensures var e := contents[i]; var rest := Evictable(contents[i + 1..], newFile, busy);
      var v := Evictable(contents[i..], newFile, busy);
      if e.name != newFile && e.name !in busy
      then v == [e] + rest && Cut(v, computed, target) == 1 + Cut(rest, Minus(computed, e.size), target)
      else v == rest
  {
    assert contents[i..][1..] == contents[i + 1..];
    var rest := Evictable(contents[i + 1..], newFile, busy);
    assert ([contents[i]] + rest)[1..] == rest && [] + rest == rest;
  }

  lemma AllLookedAt(contents: seq<Entry>, i: nat, newFile: string, busy: set<string>, computed: nat, target: nat)
    requires i <= |contents| && (i == |contents| || computed <= target)
    ensures Cut(Evictable(contents[i..], newFile, busy), computed, target) == 0
  {
    if i == |contents| { assert contents[i..] == []; }
  }

  /** Removing the next entry. */
  lemma RemoveNext(before: seq<Entry>, prefix: string, contents: seq<Entry>, i: nat, done: seq<Entry>)
    requires Distinct(before) && Distinct(contents) && i < |contents|
    requires contents[i] in before && prefix <= contents[i].name
    requires forall e :: e in done ==> e in contents[..i]
    ensures var now := Without(before, Names(done)); var e := contents[i];
      && Without(now, {e.name}) == Without(before, Names(done + [e])) && Distinct(Without(now, {e.name}))
      && Minus(Word(Sum(Cached(now, prefix))), e.size) == Word(Sum(Cached(Without(now, {e.name}), prefix)))
  {
    hide Without, Cached, Names, Sum, Word, Minus;
    var now := Without(before, Names(done));
    var e := contents[i];
    StillThere(before, contents, i, done);
    WithoutMembers(before, Names(done));
    WithoutMembers(now, {e.name});
    RemoveOne(now, prefix, e);
    MinusMod(Sum(Cached(now, prefix)), e.size);
    NamesSnoc(done, e);
    WithoutTwice(before, Names(done), {e.name});
  }

  lemma NamesSnoc(es: seq<Entry>, e: Entry)
    ensures Names(es + [e]) == Names(es) + {e.name}
  {
  }

  lemma LookupLast(es: seq<Entry>, e: Entry)
    requires forall x :: x in es ==> x.name != e.name
    ensures Lookup(es + [e], e.name) == Some(e)
    decreases |es|
  {
    if es != [] {
      assert (es + [e])[0] == es[0] && (es + [e])[1..] == es[1..] + [e];
      LookupLast(es[1..], e);
    }
  }
}

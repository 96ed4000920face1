/** File names of the runtime cache. */
module ArchiveNames {

  type Hash = h: string | |h| == 16 && forall i :: 0 <= i < |h| ==> HexDigit(h[i]) witness "0000000000000000"

  /** A process id as the decimal text it has in a file name. */
  type Pid = p: string | |p| > 0 && forall i :: 0 <= i < |p| ==> '0' <= p[i] <= '9' witness "0"

  predicate HexDigit(c: char) { '0' <= c <= '9' || 'a' <= c <= 'f' }

  function Prefix(windows: bool): string { if windows then "ryo_runtime-" else "libryo_runtime-" }

  function Suffix(windows: bool): string { if windows then ".lib" else ".a" }

  function ExtractedName(windows: bool, hash: Hash): string { Prefix(windows) + hash + Suffix(windows) }

  function TempName(windows: bool, hash: Hash, pid: Pid): string { ExtractedName(windows, hash) + ".tmp." + pid }

  predicate EndsWith(s: string, t: string) { |t| <= |s| && s[|s|-|t|..] == t }

  predicate At(s: string, i: nat, t: string) { i + |t| <= |s| && s[i..i+|t|] == t }

  predicate Contains(s: string, t: string) { exists i :: 0 <= i <= |s| && At(s, i, t) }

  /** A final archive name: prefix, something, suffix. */
  predicate IsCachedArchive(windows: bool, name: string) {
    && Prefix(windows) <= name
    && var rest := name[|Prefix(windows)|..]; EndsWith(rest, Suffix(windows)) && |rest| > |Suffix(windows)|
  }

  predicate IsRuntimeTempFile(windows: bool, name: string) { Prefix(windows) <= name && Contains(name, ".tmp.") }

  ghost predicate Framed(name: string, before: string, middle: string, after: string) {
    name == before + middle + after
  }

  /** The name tests, spelled out for both kinds of platform. */
  lemma NamesRead(name: string)
    ensures IsCachedArchive(false, name) <==> exists hash :: hash != "" && Framed(name, "libryo_runtime-", hash, ".a")
    ensures IsCachedArchive(true, name) <==> exists hash :: hash != "" && Framed(name, "ryo_runtime-", hash, ".lib")
    ensures IsRuntimeTempFile(false, name) <==>
            exists final, pid :: Framed(name, "libryo_runtime-" + final, ".tmp.", pid)
    ensures IsRuntimeTempFile(true, name) <==> exists final, pid :: Framed(name, "ryo_runtime-" + final, ".tmp.", pid)
  {
    ArchiveRead(false, name);
    ArchiveRead(true, name);
    TempRead(false, name);
    TempRead(true, name);
  }

  lemma ArchiveRead(windows: bool, name: string)
    ensures var before, after := Prefix(windows), Suffix(windows);
      IsCachedArchive(windows, name) <==> exists hash :: hash != "" && Framed(name, before, hash, after)
  {
    var before, after := Prefix(windows), Suffix(windows);
    if IsCachedArchive(windows, name) {
      var hash := name[|before|..|name|-|after|];
      assert hash != "" && Framed(name, before, hash, after);
    }
    if hash :| hash != "" && Framed(name, before, hash, after) {
      assert name[..|before|] == before && name[|before|..] == hash + after;
    }
  }

  lemma TempRead(windows: bool, name: string)
    ensures IsRuntimeTempFile(windows, name) <==>
            exists final, pid :: Framed(name, Prefix(windows) + final, ".tmp.", pid)
  {
    hide Contains, Framed;
    var before := Prefix(windows);
    if IsRuntimeTempFile(windows, name) { var final, pid := TempParts(before, name); }
    if final, pid :| Framed(name, before + final, ".tmp.", pid) { TempJoins(before, final, pid, name); }
  }

  lemma TempParts(before: string, name: string) returns (final: string, pid: string)
    requires before <= name && '.' !in before && Contains(name, ".tmp.")
    ensures Framed(name, before + final, ".tmp.", pid)
  {
    var i :| 0 <= i <= |name| && At(name, i, ".tmp.");
    assert name[i] == name[i..i+5][0] == '.';
    assert forall k :: 0 <= k < |before| ==> name[k] == before[k] && name[k] != '.';
    final, pid := name[|before|..i], name[i+5..];
    assert name[..i] == before + final;
    assert name == name[..i] + name[i..i+5] + pid;
  }

  lemma TempJoins(before: string, final: string, pid: string, name: string)
    requires Framed(name, before + final, ".tmp.", pid)
    ensures before <= name && Contains(name, ".tmp.")
  {
    var i := |before + final|;
    assert name[..i] == before + final && name[..|before|] == before;
    assert name[i..i+5] == ".tmp.";
    assert At(name, i, ".tmp.");
  }

  lemma HashDigits(c: char)
    ensures HexDigit(c) <==> c in "0123456789abcdef"
  {
    assert "0123456789abcdef" == ['0', '1', '2', '3', '4', '5', '6', '7', '8', '9', 'a', 'b', 'c', 'd', 'e', 'f'];
  }

  /** A final name is an archive's and never a temporary's, and determines the hash. */
  lemma FinalNames(windows: bool, hash: Hash)
    ensures IsCachedArchive(windows, ExtractedName(windows, hash))
    ensures !IsRuntimeTempFile(windows, ExtractedName(windows, hash))
    ensures forall other: Hash :: ExtractedName(windows, other) == ExtractedName(windows, hash) ==> other == hash
  {
    var name, p := ExtractedName(windows, hash), |Prefix(windows)|;
    assert name[..p] == Prefix(windows) && name[p..p+16] == hash && name[p+16..] == Suffix(windows);
    assert name[p..] == hash + Suffix(windows);
    forall i | 0 <= i <= |name| ensures !At(name, i, ".tmp.") {
      NoDotBefore(windows, hash, i);
      if i + 5 <= |name| { assert name[i..i+5][0] == name[i]; }
    }
    forall other: Hash | ExtractedName(windows, other) == name ensures other == hash {
      assert other == ExtractedName(windows, other)[p..p+16];
    }
  }

  /** Only the first character of the suffix is a dot, and it is too near the end for `.tmp.`. */
  lemma NoDotBefore(windows: bool, hash: Hash, i: nat)
    ensures i + 5 <= |ExtractedName(windows, hash)| ==> ExtractedName(windows, hash)[i] != '.'
  {
    var name, p := ExtractedName(windows, hash), |Prefix(windows)|;
    if i < p {
      assert name[i] == Prefix(windows)[i];
    } else if i < p + 16 {
      assert name[i] == hash[i-p];
    }
  }

  lemma LastLetter(windows: bool, name: string)
    ensures IsCachedArchive(windows, name) ==> name != [] && (name[|name|-1] == 'a' || name[|name|-1] == 'b')
  {
    if IsCachedArchive(windows, name) {
      var rest, suffix := name[|Prefix(windows)|..], Suffix(windows);
      assert rest[|rest|-|suffix|..][|suffix|-1] == name[|name|-1];
    }
  }

  /** A temporary name is never an archive's, and determines the process. */
  lemma TempNames(windows: bool, hash: Hash, pid: Pid)
    ensures IsRuntimeTempFile(windows, TempName(windows, hash, pid))
    ensures !IsCachedArchive(windows, TempName(windows, hash, pid))
    ensures forall other: Pid, h: Hash :: TempName(windows, h, other) == TempName(windows, hash, pid) ==>
        h == hash && other == pid
  {
    var name, final := TempName(windows, hash, pid), ExtractedName(windows, hash);
    assert At(name, |final|, ".tmp.");
    assert name[|name|-1] == pid[|pid|-1];
    LastLetter(windows, name);
    forall other: Pid, h: Hash | TempName(windows, h, other) == name ensures h == hash && other == pid {
      assert name[..|final|] == final && name[|final|+5..] == pid;
      assert name[..|final|] == ExtractedName(windows, h) && name[|final|+5..] == other;
      FinalNames(windows, hash);
    }
  }

  // ---------- Name order ----------

  predicate Less(a: string, b: string) {
    if b == [] then false else if a == [] then true else a[0] < b[0] || (a[0] == b[0] && Less(a[1..], b[1..]))
  }

  lemma {:induction false} LessTransitive(a: string, b: string, c: string)
    requires Less(a, b) && Less(b, c)
    ensures Less(a, c)
  {
    if a != [] && a[0] == b[0] == c[0] { LessTransitive(a[1..], b[1..], c[1..]); }
  }

  lemma {:induction false} LessTotal(a: string, b: string)
    ensures Less(a, b) || Less(b, a) || a == b
    ensures !Less(a, a)
  {
    if a != [] && b != [] { LessTotal(a[1..], b[1..]); }
    if a != [] { LessTotal(a[1..], a[1..]); }
  }
}

/** The cache directory: what sweeping and eviction remove. */
module CacheDir {
  import opened Common
  import opened ArchiveNames

  const MAX_CACHED_ARCHIVES: nat := 4

  /** A place in the cache directory, or anywhere else. */
  datatype Place = Here(name: string) | There(path: string)

  /** A symbolic link names the place it leads to. */
  datatype Entry = File(content: Bytes, mtime: nat) | Link(target: Place) | Directory

  type Dir = map<string, Entry>

  /** The cache directory, and the rest of the file system, where its links may lead. */
  datatype Disk = Disk(dir: Dir, rest: map<string, Entry>)

  function Archives(w: bool, dir: Dir): set<string> {
    set n | n in dir && dir[n].File? && IsCachedArchive(w, n)
  }

  function TempFiles(w: bool, dir: Dir): set<string> {
    set n | n in dir && dir[n].File? && IsRuntimeTempFile(w, n)
  }

  datatype Key = Key(mtime: nat, name: string)

  /** Oldest first; ties in name order. */
  predicate Older(a: Key, b: Key) { a.mtime < b.mtime || (a.mtime == b.mtime && Less(a.name, b.name)) }

  function KeyOf(dir: Dir, name: string): Key
    requires name in dir && dir[name].File?
  {
    Key(dir[name].mtime, name)
  }

  lemma OlderTransitive(a: Key, b: Key, c: Key)
    requires Older(a, b) && Older(b, c)
    ensures Older(a, c)
  {
    if a.mtime == b.mtime == c.mtime { LessTransitive(a.name, b.name, c.name); }
  }

  ghost predicate Sorted(queue: seq<Key>) { forall i, j :: 0 <= i < j < |queue| ==> Older(queue[i], queue[j]) }

  ghost predicate Queued(queue: seq<Key>, name: string) { exists i :: 0 <= i < |queue| && queue[i].name == name }

  /** `queue` lists the archives of `dir`, oldest first. */
  ghost predicate Lists(w: bool, dir: Dir, queue: seq<Key>) {
    && Sorted(queue)
    && (forall n :: n in Archives(w, dir) <==> Queued(queue, n))
    && (forall i :: 0 <= i < |queue| ==>
         queue[i].name in dir && dir[queue[i].name].File? && queue[i] == KeyOf(dir, queue[i].name))
  }

  /** Eviction from `before` has reached `dir`, with `queue` still to look at. */
  ghost predicate Evicting(w: bool, before: Dir, dir: Dir, current: string, queue: seq<Key>, remaining: nat) {
    && (forall n :: n in dir ==> n in before && dir[n] == before[n])
    && (forall n :: n in before && n !in dir ==> n in Archives(w, before) && n != current)
    && (current in Archives(w, before) ==> current in Archives(w, dir))
    && remaining == |Archives(w, dir)| && (remaining == |Archives(w, before)| || remaining >= MAX_CACHED_ARCHIVES)
    && Sorted(queue)
    && (forall i :: 0 <= i < |queue| ==> queue[i].name in Archives(w, dir) && queue[i] == KeyOf(dir, queue[i].name))
    && (forall n :: n in Archives(w, dir) && n != current ==> Queued(queue, n))
    && (forall n, i :: n in Archives(w, before) && n !in dir && 0 <= i < |queue| ==> Older(KeyOf(before, n), queue[i]))
  }

  /** What eviction leaves: the current archive and the newest others, four in all. */
  ghost predicate Evicted(w: bool, before: Dir, dir: Dir, current: string) {
    && (forall n :: n in dir ==> n in before && dir[n] == before[n])
    && (forall n :: n in before && n !in dir ==> n in Archives(w, before) && n != current)
    && |Archives(w, dir)| == Min(|Archives(w, before)|, 4)
    && (forall e, k :: e in Archives(w, before) && e !in dir && k in Archives(w, dir) && k != current ==>
          Older(KeyOf(before, e), KeyOf(before, k)))
  }

  lemma {:induction false} ListCounts(w: bool, dir: Dir, queue: seq<Key>)
    requires Lists(w, dir, queue)
    ensures |queue| == |Archives(w, dir)|
  {
    var names := set i | 0 <= i < |queue| :: queue[i].name;
    assert names == Archives(w, dir);
    forall i, j | 0 <= i < j < |queue| ensures queue[i].name != queue[j].name {
      assert Older(queue[i], queue[j]);
      LessTotal(queue[i].name, queue[i].name);
    }
    NamesCount(queue);
  }

  lemma {:induction false} NamesCount(queue: seq<Key>)
    requires forall i, j :: 0 <= i < j < |queue| ==> queue[i].name != queue[j].name
    ensures |set i | 0 <= i < |queue| :: queue[i].name| == |queue|
  {
    if queue != [] {
      var init, last := queue[..|queue|-1], queue[|queue|-1];
      NamesCount(init);
      assert (set i | 0 <= i < |queue| :: queue[i].name) == (set i | 0 <= i < |init| :: init[i].name) + {last.name};
    }
  }

  lemma EvictionStarts(w: bool, dir: Dir, current: string, queue: seq<Key>)
    requires Lists(w, dir, queue)
    ensures Evicting(w, dir, dir, current, queue, |queue|)
  {
    ListCounts(w, dir, queue);
  }

  lemma OlderStrict(k: Key)
    ensures !Older(k, k)
  {
    LessTotal(k.name, k.name);
  }

  lemma QueueShrinks(queue: seq<Key>)
    requires queue != []
    ensures forall n :: Queued(queue, n) && n != queue[0].name ==> Queued(queue[1..], n)
  {
    forall n | Queued(queue, n) && n != queue[0].name ensures Queued(queue[1..], n) {
      var i :| 0 <= i < |queue| && queue[i].name == n;
      assert queue[1..][i-1].name == n;
    }
  }

  /** The current archive is skipped. */
  lemma SkipKeeps(w: bool, before: Dir, dir: Dir, current: string, queue: seq<Key>, remaining: nat)
    requires Evicting(w, before, dir, current, queue, remaining) && queue != [] && queue[0].name == current
    ensures Evicting(w, before, dir, current, queue[1..], remaining)
  {
    hide IsCachedArchive, Older, Less;
    QueueShrinks(queue);
  }

  /** The queue behind its oldest entry lists other names, all newer. */
  lemma RestNewer(dir: Dir, queue: seq<Key>)
    requires queue != [] && Sorted(queue)
    requires forall i :: 0 <= i < |queue| ==>
        queue[i].name in dir && dir[queue[i].name].File? && queue[i] == KeyOf(dir, queue[i].name)
    ensures forall i :: 0 <= i < |queue| - 1 ==> queue[1..][i].name != queue[0].name && Older(queue[0], queue[1..][i])
  {
    hide Older;
    forall i | 0 <= i < |queue| - 1 ensures queue[1..][i].name != queue[0].name && Older(queue[0], queue[1..][i]) {
      OlderStrict(queue[0]);
      assert Older(queue[0], queue[i+1]);
      assert queue[i+1] == KeyOf(dir, queue[i+1].name);
    }
  }

  lemma RemoveCounts(w: bool, dir: Dir, gone: string)
    requires gone in Archives(w, dir)
    ensures Archives(w, dir - {gone}) == Archives(w, dir) - {gone}
    ensures |Archives(w, dir - {gone})| == |Archives(w, dir)| - 1
  {
    hide IsCachedArchive;
    assert Archives(w, dir - {gone}) == Archives(w, dir) - {gone};
  }

  /** Behind the removed entry the queue still lists the archives that are left. */
  lemma RemoveQueue(w: bool, dir: Dir, current: string, queue: seq<Key>)
    requires queue != [] && Sorted(queue)
    requires forall i :: 0 <= i < |queue| ==> queue[i].name in Archives(w, dir) && queue[i] == KeyOf(dir, queue[i].name)
    requires forall n :: n in Archives(w, dir) && n != current ==> Queued(queue, n)
    ensures var rest, dir' := queue[1..], dir - {queue[0].name};
      && Sorted(rest)
      && (forall i :: 0 <= i < |rest| ==> rest[i].name in Archives(w, dir') && rest[i] == KeyOf(dir', rest[i].name))
      && (forall n :: n in Archives(w, dir') && n != current ==> Queued(rest, n))
  {
    hide IsCachedArchive, Older, Less, Queued;
    RestNewer(dir, queue);
    QueueShrinks(queue);
  }

  /** The oldest other archive is removed. */
  lemma RemoveKeeps(w: bool, before: Dir, dir: Dir, current: string, queue: seq<Key>, remaining: nat)
    requires Evicting(w, before, dir, current, queue, remaining)
    requires queue != [] && queue[0].name != current && remaining > MAX_CACHED_ARCHIVES
    ensures Evicting(w, before, dir - {queue[0].name}, current, queue[1..], remaining - 1)
  {
    hide IsCachedArchive, Older, Less, Queued, Sorted;
    RemoveCounts(w, dir, queue[0].name);
    RestNewer(dir, queue);
    RemoveQueue(w, dir, current, queue);
  }

  lemma EvictionEnds(w: bool, before: Dir, dir: Dir, current: string, queue: seq<Key>, remaining: nat)
    requires Evicting(w, before, dir, current, queue, remaining) && (queue == [] || remaining <= MAX_CACHED_ARCHIVES)
    ensures Evicted(w, before, dir, current)
  {
    hide IsCachedArchive, Older, Less;
    if queue == [] {
      assert Archives(w, dir) <= {current};
      Smaller(Archives(w, dir), {current});
    } else {
      forall e, k | e in Archives(w, before) && e !in dir && k in Archives(w, dir) && k != current
        ensures Older(KeyOf(before, e), KeyOf(before, k))
      {
        assert Queued(queue, k);
      }
    }
    assert forall n :: n in Archives(w, dir) ==> n in Archives(w, before);
    Smaller(Archives(w, dir), Archives(w, before));
  }

  lemma Smaller(a: set<string>, b: set<string>)
    requires a <= b
    ensures |a| <= |b|
  {
    assert b == a + (b - a);
  }

  /** Keys inserted in order: `sort_by` over the listing. */
  method Insert(queue: seq<Key>, key: Key) returns (r: seq<Key>)
    requires Sorted(queue) && forall i :: 0 <= i < |queue| ==> queue[i].name != key.name
    ensures Sorted(r) && |r| == |queue| + 1
    ensures forall k :: k in r <==> k in queue || k == key
  {
    var at := 0;
    while at < |queue| && Older(queue[at], key)
      invariant at <= |queue| && forall i :: 0 <= i < at ==> Older(queue[i], key)
    {
      at := at + 1;
    }
    r := queue[..at] + [key] + queue[at..];
    forall i | at <= i < |queue| ensures Older(key, queue[i]) {
      LessTotal(queue[at].name, key.name);
      if i > at { OlderTransitive(key, queue[at], queue[i]); }
    }
    forall k ensures k in r <==> k in queue || k == key {
      assert queue == queue[..at] + queue[at..];
    }
  }

  /** The archives of a directory, oldest first, in whatever order the directory lists its entries. */
  method ListArchives(w: bool, dir: Dir) returns (queue: seq<Key>)
    ensures Lists(w, dir, queue)
  {
    queue := [];
    var left := dir.Keys;
    while left != {}
      invariant left <= dir.Keys && Sorted(queue)
      invariant forall k :: k in queue ==> k.name in Archives(w, dir) - left && k == KeyOf(dir, k.name)
      invariant forall n :: n in Archives(w, dir) - left ==> KeyOf(dir, n) in queue
      decreases |left|
    {
      var name :| name in left;
      if dir[name].File? && IsCachedArchive(w, name) {
        queue := Insert(queue, KeyOf(dir, name));
      }
      left := left - {name};
    }
    forall n ensures n in Archives(w, dir) <==> Queued(queue, n) {
      if n in Archives(w, dir) { assert KeyOf(dir, n) in queue; }
      if i :| 0 <= i < |queue| && queue[i].name == n { assert queue[i] in queue; }
    }
    forall i | 0 <= i < |queue|
        ensures queue[i].name in dir && dir[queue[i].name].File? && queue[i] == KeyOf(dir, queue[i].name) {
      assert queue[i] in queue;
    }
  }

  // ---------- Writing through links ----------

  function Lookup(disk: Disk, p: Place): Option<Entry> {
    match p
    case Here(n) => if n in disk.dir then Some(disk.dir[n]) else None
    case There(x) => if x in disk.rest then Some(disk.rest[x]) else None
  }

  predicate LinkAt(dir: Dir, name: string) { name in dir && dir[name].Link? }

  /** The place that opening `p` for writing reaches over at most `hops` links: a file or nothing yet.
      There is none when a directory is reached or the links go on. */
  function Opened(disk: Disk, p: Place, hops: nat): (r: Option<Place>)
    ensures r.Some? && Lookup(disk, r.value).Some? ==> Lookup(disk, r.value).value.File?
    ensures !(Lookup(disk, p).Some? && Lookup(disk, p).value.Link?) && r.Some? ==> r.value == p
    decreases hops
  {
    match Lookup(disk, p)
    case Some(Link(target)) => if hops == 0 then None else Opened(disk, target, hops - 1)
    case Some(Directory) => None
    case _ => Some(p)
  }

  function Written(disk: Disk, p: Place, file: Entry): Disk {
    match p
    case Here(n) => disk.(dir := disk.dir[n := file])
    case There(x) => disk.(rest := disk.rest[x := file])
  }

  /** Nothing happened, or some file is at `via` now. */
  ghost predicate PartlyWritten(before: Disk, via: Option<Place>, after: Disk) {
    after == before || (via.Some? && exists file: Entry :: file.File? && after == Written(before, via.value, file))
  }

  /** A rename moves the entry itself, a link included. */
  function Moved(disk: Disk, name: string, path: string): Disk {
    if name in disk.dir then disk.(dir := (disk.dir - {name})[path := disk.dir[name]]) else disk
  }

  /** Links lead to the same place when regular files go away. */
  lemma {:induction false} SweptOpens(disk: Disk, gone: set<string>, p: Place, hops: nat)
    requires forall n :: n in gone && n in disk.dir ==> disk.dir[n].File?
    ensures Opened(disk.(dir := disk.dir - gone), p, hops) == Opened(disk, p, hops)
    decreases hops
  {
    var swept := disk.(dir := disk.dir - gone);
    match Lookup(disk, p)
    case Some(Link(target)) =>
      assert Lookup(swept, p) == Lookup(disk, p);
      if hops > 0 { SweptOpens(disk, gone, target, hops - 1); }
    case _ =>
  }

  /** A file written whole under the name `temp`, wherever that leads, and `temp` renamed to `path`. */
  function Stored(disk: Disk, temp: string, path: string, file: Entry, hops: nat): Disk {
    var via := Opened(disk, Here(temp), hops);
    if via.None? then disk else Moved(Written(disk, via.value, file), temp, path)
  }

  function Swept(w: bool, disk: Disk): Disk { disk.(dir := disk.dir - TempFiles(w, disk.dir)) }

  /** The cache with the archive in place: swept, and a missing archive written. */
  function Filled(w: bool, disk: Disk, temp: string, path: string, file: Entry, hops: nat): Disk {
    if path in disk.dir then Swept(w, disk) else Stored(Swept(w, disk), temp, path, file, hops)
  }

  /** What a missing archive's writing leaves at its path: the new file, or the link that was at the temporary name. */
  lemma StoredEntry(disk: Disk, temp: string, path: string, file: Entry, hops: nat)
    requires temp != path && path !in disk.dir && file.File? && Opened(disk, Here(temp), hops).Some?
    ensures var after := Stored(disk, temp, path, file, hops);
      path in after.dir && after.dir[path] == if LinkAt(disk.dir, temp) then disk.dir[temp] else file
  {
    assert LinkAt(disk.dir, temp) ==> Opened(disk, Here(temp), hops).value != Here(temp);
  }

  /** Where a link at the temporary name takes the new archive, when one has to be written. */
  function Through(disk: Disk, temp: string, path: string, hops: nat): Option<Place> {
    if LinkAt(disk.dir, temp) && path !in disk.dir then Opened(disk, Here(temp), hops) else None
  }

  /** What a call leaves alone, however it ends: everything but archives, temporary files and the place that
      a link leads to; and a regular file at `path` is the one that was there, or a whole new one. */
  ghost predicate Kept(w: bool, before: Disk, after: Disk, path: string, through: Option<Place>, runtime: Bytes) {
    && (forall n :: !IsCachedArchive(w, n) && !IsRuntimeTempFile(w, n) && through != Some(Here(n)) ==>
          Lookup(after, Here(n)) == Lookup(before, Here(n)))
    && (forall x :: through != Some(There(x)) ==> Lookup(after, There(x)) == Lookup(before, There(x)))
    && (path in after.dir && after.dir[path].File? && through != Some(Here(path)) ==>
          if path in before.dir then after.dir[path] == before.dir[path] else after.dir[path].content == runtime)
  }

  lemma SweptKept(w: bool, before: Disk, dir: Dir, path: string, through: Option<Place>, runtime: Bytes)
    requires forall n :: n in dir ==> n in before.dir && dir[n] == before.dir[n]
    requires forall n :: n in before.dir && n !in dir ==> n in TempFiles(w, before.dir)
    ensures Kept(w, before, before.(dir := dir), path, through, runtime)
  {
    hide IsCachedArchive, IsRuntimeTempFile;
  }

  lemma PartKept(w: bool, before: Disk, after: Disk, temp: string, path: string, hops: nat, runtime: Bytes)
    requires temp != path && path !in before.dir && IsRuntimeTempFile(w, temp)
    requires PartlyWritten(Swept(w, before), Opened(before, Here(temp), hops), after)
    ensures Kept(w, before, after, path, Through(before, temp, path, hops), runtime)
  {
    hide IsCachedArchive, IsRuntimeTempFile;
  }

  /** A new archive written under the temporary name itself. */
  lemma StoredPlainly(w: bool, before: Disk, temp: string, path: string, file: Entry, hops: nat)
    requires temp != path && path !in before.dir && IsRuntimeTempFile(w, temp)
    requires file.File? && Opened(before, Here(temp), hops) == Some(Here(temp)) && !LinkAt(before.dir, temp)
    ensures var after := Stored(Swept(w, before), temp, path, file, hops);
      && after.rest == before.rest && path in after.dir && after.dir[path] == file
      && (forall n :: n != path ==> (n in after.dir <==> n in Swept(w, before).dir && n != temp))
      && (forall n :: n != path && n in after.dir ==> after.dir[n] == before.dir[n])
  {
    SweptOpens(before, TempFiles(w, before.dir), Here(temp), hops);
    hide IsCachedArchive, IsRuntimeTempFile, TempFiles, Opened;
  }

  /** A new archive written through the link at the temporary name. */
  lemma StoredThrough(w: bool, before: Disk, temp: string, path: string, file: Entry, hops: nat)
    requires temp != path && path !in before.dir && IsRuntimeTempFile(w, temp)
    requires file.File? && Opened(before, Here(temp), hops).Some? && LinkAt(before.dir, temp)
    ensures var after := Stored(Swept(w, before), temp, path, file, hops);
      var via := Opened(before, Here(temp), hops).value;
      && (forall x :: via != There(x) ==> Lookup(after, There(x)) == Lookup(before, There(x)))
      && path in after.dir && after.dir[path] == before.dir[temp]
      && (forall n :: n != path && via != Here(n) ==> (n in after.dir <==> n in Swept(w, before).dir && n != temp))
      && (forall n :: n != path && via != Here(n) && n in after.dir ==> after.dir[n] == before.dir[n])
  {
    SweptOpens(before, TempFiles(w, before.dir), Here(temp), hops);
    assert Opened(before, Here(temp), hops).value != Here(temp);
    assert temp in Swept(w, before).dir;
    hide IsCachedArchive, IsRuntimeTempFile, TempFiles, Opened;
  }

  lemma StoredKept(w: bool, before: Disk, temp: string, path: string, file: Entry, hops: nat)
    requires temp != path && path !in before.dir && IsRuntimeTempFile(w, temp)
    requires IsCachedArchive(w, path) && !IsRuntimeTempFile(w, path)
    requires file.File? && Opened(before, Here(temp), hops).Some?
    ensures var after := Stored(Swept(w, before), temp, path, file, hops);
      && Kept(w, before, after, path, Through(before, temp, path, hops), file.content)
      && path in after.dir && (after.dir[path].File? <==> !LinkAt(before.dir, temp))
      && (after.dir[path].Link? ==> after.dir[path] == before.dir[temp])
      && (forall n :: n in TempFiles(w, after.dir) ==> Through(before, temp, path, hops) == Some(Here(n)))
  {
    hide IsCachedArchive, IsRuntimeTempFile, Opened, Stored;
    if LinkAt(before.dir, temp) {
      StoredThrough(w, before, temp, path, file, hops);
    } else {
      assert Opened(before, Here(temp), hops) == Some(Here(temp));
      StoredPlainly(w, before, temp, path, file, hops);
    }
  }

  /** Eviction removes other archives only. */
  lemma EvictedKept(w: bool, before: Disk, full: Disk, dir: Dir, path: string, through: Option<Place>, runtime: Bytes)
    requires Kept(w, before, full, path, through, runtime)
    requires forall n :: n in dir ==> n in full.dir && dir[n] == full.dir[n]
    requires forall n :: n in full.dir && n !in dir ==> n in Archives(w, full.dir) && n != path
    ensures Kept(w, before, full.(dir := dir), path, through, runtime)
    ensures path in full.dir ==> path in dir && dir[path] == full.dir[path]
    ensures forall n :: n in TempFiles(w, dir) ==> n in TempFiles(w, full.dir)
  {
    hide IsCachedArchive, IsRuntimeTempFile;
  }

  /** The directory when the sweep has still to look at `left`. */
  function SweptBut(w: bool, dir: Dir, left: set<string>): Dir { dir - (TempFiles(w, dir) - left) }

  lemma SweepFrame(w: bool, dir: Dir, left: set<string>)
    requires left <= dir.Keys
    ensures var now := SweptBut(w, dir, left);
      && (forall n :: n in now ==> n in dir && now[n] == dir[n])
      && (forall n :: n in dir && n !in now ==> n in TempFiles(w, dir))
    ensures SweptBut(w, dir, dir.Keys) == dir && SweptBut(w, dir, {}) == dir - TempFiles(w, dir)
  {
    hide IsRuntimeTempFile;
  }

  /** One turn of the sweep. */
  lemma SweepStep(w: bool, dir: Dir, left: set<string>, name: string)
    requires name in left && left <= dir.Keys
    ensures var now, next := SweptBut(w, dir, left), SweptBut(w, dir, left - {name});
      name in now && next == if now[name].File? && IsRuntimeTempFile(w, name) then now - {name} else now
  {
    hide IsRuntimeTempFile;
  }

  datatype Outcome = Done | IoError

  /** The directory, worked on by the one process that holds the lock. A removal may fail. */
  class Cache {
    const windows: bool
    var entries: Dir
    /** Files elsewhere, which links may lead to. */
    var rest: map<string, Entry>
    /** How many links the system follows. */
    const hops: nat
    /** Whether the `k`-th file operation is going to fail. */
    const fails: nat -> bool
    var calls: nat

    constructor (windows: bool, entries: Dir, rest: map<string, Entry>, hops: nat, fails: nat -> bool)
      ensures this.windows == windows && this.entries == entries && this.rest == rest && this.hops == hops
    {
      this.windows, this.entries, this.rest, this.hops, this.fails, calls := windows, entries, rest, hops, fails, 0;
    }

    ghost function Now(): Disk
      reads this
    {
      Disk(entries, rest)
    }

    ghost predicate Broken(since: nat)
      reads this
    {
      exists k :: since <= k < calls && fails(k)
    }

    /** The outcome of the next file operation. */
    method Attempt() returns (ok: bool)
      modifies `calls
      ensures calls == old(calls) + 1 && ok == !fails(old(calls))
    {
      ok, calls := !fails(calls), calls + 1;
    }

    /** `sweep_stale_temp_files`: removes regular files with a temporary's name and nothing else. */
    method SweepStaleTempFiles() returns (r: Outcome)
      modifies `entries, `calls
      ensures forall n :: n in entries ==> n in old(entries) && entries[n] == old(entries)[n]
      ensures forall n :: n in old(entries) && n !in entries ==> n in TempFiles(windows, old(entries))
      ensures old(calls) <= calls && (r.IoError? ==> Broken(old(calls)))
      ensures r.Done? ==> entries == old(entries) - TempFiles(windows, old(entries))
    {
      hide TempFiles, IsRuntimeTempFile, SweptBut;
      var left := entries.Keys;
      SweepFrame(windows, entries, left);
      while left != {}
        invariant left <= old(entries).Keys && old(calls) <= calls
        invariant entries == SweptBut(windows, old(entries), left)
        decreases |left|
      {
        SweepFrame(windows, old(entries), left);
        var name :| name in left;
        SweepStep(windows, old(entries), left, name);
        if entries[name].File? && IsRuntimeTempFile(windows, name) {
          var ok := Attempt();
          if !ok { return IoError; }
          entries := entries - {name};
        }
        left := left - {name};
      }
      SweepFrame(windows, old(entries), left);
      return Done;
    }

    /** `evict_old_archives`: down to four archives, oldest first, sparing the current one. */
    method EvictOldArchives(current: string) returns (r: Outcome)
      modifies `entries, `calls
      ensures forall n :: n in entries ==> n in old(entries) && entries[n] == old(entries)[n]
      ensures forall n :: n in old(entries) && n !in entries ==> n in Archives(windows, old(entries)) && n != current
      ensures old(calls) <= calls && (r.IoError? ==> Broken(old(calls)))
      ensures r.Done? ==> Evicted(windows, old(entries), entries, current)
    {
      var archives := ListArchives(windows, entries);
      var remaining: nat := |archives|;
      EvictionStarts(windows, entries, current, archives);
      while archives != []
        invariant Evicting(windows, old(entries), entries, current, archives, remaining) && old(calls) <= calls
        decreases |archives|
      {
        if remaining <= MAX_CACHED_ARCHIVES { break; }
        if archives[0].name == current {
          SkipKeeps(windows, old(entries), entries, current, archives, remaining);
        } else {
          var ok := Attempt();
          if !ok { return IoError; }
          RemoveKeeps(windows, old(entries), entries, current, archives, remaining);
          entries := entries - {archives[0].name};
          remaining := remaining - 1;
        }
        archives := archives[1..];
      }
      EvictionEnds(windows, old(entries), entries, current, archives, remaining);
      return Done;
    }

    /** `fs::write`: follows links; a write that fails may leave a part behind. */
    method Write(name: string, content: Bytes) returns (ok: bool)
      modifies `entries, `rest, `calls
      ensures old(calls) <= calls
      ensures var via := Opened(old(Now()), Here(name), hops);
        && (!ok ==> Broken(old(calls)) || via.None?)
        && PartlyWritten(old(Now()), via, Now())
        && (ok ==> via.Some? && exists at: nat :: Now() == Written(old(Now()), via.value, File(content, at)))
    {
      var via := Opened(Disk(entries, rest), Here(name), hops);
      if via.None? { return false; }
      var mtime: nat, written: nat := *, *;
      ok := Attempt();
      var file := File(if ok || written > |content| then content else content[..written], mtime);
      match via.value {
        case Here(n) => entries := entries[n := file];
        case There(x) => rest := rest[x := file];
      }
      assert file.File? && Now() == Written(old(Now()), via.value, file);
    }

    /** Writes under the temporary name, then renames. */
    method WriteArchive(temp: string, path: string, runtime: Bytes) returns (ok: bool)
      requires temp != path
      modifies `entries, `rest, `calls
      ensures old(calls) <= calls
      ensures var via := Opened(old(Now()), Here(temp), hops);
        && (!ok ==> Broken(old(calls)) || via.None?)
        && (!ok ==> PartlyWritten(old(Now()), via, Now()))
        && (ok ==> via.Some? && exists at: nat :: Now() == Stored(old(Now()), temp, path, File(runtime, at), hops))
    {
      ok := Write(temp, runtime);
      if !ok { return; }
      ghost var via := Opened(old(Now()), Here(temp), hops);
      ghost var at: nat :| Now() == Written(old(Now()), via.value, File(runtime, at));
      ok := Attempt();
      if !ok { return; }
      entries := (entries - {temp})[path := entries[temp]];
      assert Now() == Stored(old(Now()), temp, path, File(runtime, at), hops);
    }

    /** `extract_runtime_to_cache_at` after taking the lock: an archive that is there is reused as it
        is, a missing one is written under a temporary name and renamed, anything else is refused.
        What is handed out is a regular file if and only if one was there or no link was at the temporary name. */
    method Extract(hash: Hash, runtime: Bytes, pid: Pid) returns (r: Extraction)
      modifies `entries, `rest, `calls
      ensures var path, temp, before := ExtractedName(windows, hash), TempName(windows, hash, pid), old(Now());
        var linked, through := LinkAt(before.dir, temp), Through(before, temp, path, hops);
        && Kept(windows, before, Now(), path, through, runtime)
        && (r.Refused? ==> path in before.dir && !before.dir[path].File?)
        && (r.Failed? ==> Broken(old(calls)) || (path !in before.dir && Opened(before, Here(temp), hops).None?))
        && (r.Extracted? ==>
              && path in entries && (entries[path].File? <==> path in before.dir || !linked)
              && (entries[path].Link? ==> entries[path] == before.dir[temp])
              && (forall n :: n in TempFiles(windows, entries) ==> through == Some(Here(n)))
              && exists at: nat ::
                   var full := Filled(windows, before, temp, path, File(runtime, at), hops);
                   rest == full.rest && Evicted(windows, full.dir, entries, path))
    {
      var path, temp := ExtractedName(windows, hash), TempName(windows, hash, pid);
      FinalNames(windows, hash);
      TempNames(windows, hash, pid);
      hide IsCachedArchive, IsRuntimeTempFile, Evicted, Less, ExtractedName, TempName, Kept, Stored, Opened;
      hide PartlyWritten, Lookup;
      ghost var before := Now();
      ghost var through := Through(before, temp, path, hops);
      var swept := SweepStaleTempFiles();
      SweptKept(windows, before, entries, path, through, runtime);
      if swept.IoError? { return Failed; }
      assert Now() == Swept(windows, before);
      SweptOpens(before, TempFiles(windows, before.dir), Here(temp), hops);
      if path in entries && !entries[path].File? { return Refused; }
      ghost var at: nat := 0;
      if path !in entries {
        var ok := WriteArchive(temp, path, runtime);
        if !ok {
          PartKept(windows, before, Now(), temp, path, hops, runtime);
          return Failed;
        }
        at :| Now() == Stored(Swept(windows, before), temp, path, File(runtime, at), hops);
        StoredKept(windows, before, temp, path, File(runtime, at), hops);
      }
      ghost var full := Now();
      assert full == Filled(windows, before, temp, path, File(runtime, at), hops);
      var evicted := EvictOldArchives(path);
      EvictedKept(windows, before, full, entries, path, through, runtime);
      if evicted.IoError? { return Failed; }
      return Extracted;
    }
  }

  datatype Extraction = Extracted | Refused | Failed
}

/** Processes that extract into one cache directory, each stopping at any step. */
module CacheProtocol {
  import opened Common
  import opened ArchiveNames
  import opened CacheDir

  /** Where a process is; from `Sweeping` to `Holding` it has the lock, and `start` is the directory as it
      was when the lock was taken. `via` is the place that the temporary name led to when it was opened. */
  datatype Pc =
    | Idle
    | Waiting(hash: Hash)
    | Sweeping(hash: Hash, start: Dir)
    | Looking(hash: Hash, start: Dir)
    | Creating(hash: Hash, start: Dir)
    | Writing(hash: Hash, start: Dir, via: Place, written: nat)
    | Listing(hash: Hash, start: Dir)
    | Removing(hash: Hash, start: Dir, before: Dir, queue: seq<Key>, remaining: nat)
    | Holding(hash: Hash, start: Dir, before: Dir)
    | Turned(hash: Hash)

  /** `spoiled` are the names in the directory whose files were written through a link. */
  datatype State = State(disk: Disk, spoiled: set<string>, lock: Option<Pid>, pcs: map<Pid, Pc>)

  /** `Stop` is a crash or an error return: either way the lock goes and the files stay. */
  datatype Event =
    | Begin(hash: Hash)
    | Acquire
    | SweepOne(name: string)
    | SweepDone
    | Look
    | Create(mtime: nat)
    | Append(upto: nat, at: nat)
    | Rename
    | List(queue: seq<Key>)
    | Remove
    | Release
    | Stop

  /** The platform, how many links it follows, and the archive that each hash stands for. */
  datatype Setup = Setup(w: bool, hops: nat, content: Hash -> Bytes)

  function PcOf(s: State, p: Pid): Pc { if p in s.pcs then s.pcs[p] else Idle }

  predicate Locked(pc: Pc) { !pc.Idle? && !pc.Waiting? && !pc.Turned? }

  function Final(c: Setup, hash: Hash): string { ExtractedName(c.w, hash) }

  function Temp(c: Setup, hash: Hash, p: Pid): string { TempName(c.w, hash, p) }

  function TempOpened(c: Setup, disk: Disk, hash: Hash, p: Pid): Option<Place> {
    Opened(disk, Here(Temp(c, hash, p)), c.hops)
  }

  ghost predicate Enabled(c: Setup, s: State, p: Pid, e: Event) {
    var pc := PcOf(s, p);
    match e
    case Begin(_) => pc.Idle? || pc.Turned?
    case Acquire => pc.Waiting? && s.lock.None?
    case SweepOne(name) => pc.Sweeping? && name in TempFiles(c.w, s.disk.dir)
    case SweepDone => pc.Sweeping? && TempFiles(c.w, s.disk.dir) == {}
    case Look => pc.Looking?
    case Create(_) => pc.Creating? && TempOpened(c, s.disk, pc.hash, p).Some?
    case Append(upto, _) => pc.Writing? && pc.written < upto <= |c.content(pc.hash)|
    case Rename => pc.Writing? && pc.written == |c.content(pc.hash)|
    case List(queue) => pc.Listing? && Lists(c.w, s.disk.dir, queue)
    case Remove => pc.Removing?
    case Release => pc.Holding?
    case Stop => !pc.Idle?
  }

  function Go(s: State, p: Pid, pc: Pc): State { s.(pcs := s.pcs[p := pc]) }

  function Leave(s: State, p: Pid, pc: Pc): State {
    s.(lock := if s.lock == Some(p) then None else s.lock, pcs := s.pcs[p := pc])
  }

  function Remain(s: State, dir: Dir): State { s.(disk := s.disk.(dir := dir)) }

  /** One turn of the eviction loop: stop, skip the current archive, or remove the oldest. */
  function PcAfter(c: Setup, pc: Pc): Pc
    requires pc.Removing?
  {
    if pc.queue == [] || pc.remaining <= MAX_CACHED_ARCHIVES then Holding(pc.hash, pc.start, pc.before)
    else if pc.queue[0].name == Final(c, pc.hash) then pc.(queue := pc.queue[1..])
    else pc.(queue := pc.queue[1..], remaining := pc.remaining - 1)
  }

  function DirAfter(c: Setup, dir: Dir, pc: Pc): Dir
    requires pc.Removing?
  {
    if pc.queue == [] || pc.remaining <= MAX_CACHED_ARCHIVES || pc.queue[0].name == Final(c, pc.hash) then dir
    else dir - {pc.queue[0].name}
  }

  /** The names that count as spoiled after `temp` was opened and led to `via`. */
  function SpoiledBy(spoiled: set<string>, temp: string, via: Place): set<string> {
    if via.Here? && via.name != temp then spoiled + {via.name} else spoiled
  }

  ghost function Apply(c: Setup, s: State, p: Pid, e: Event): State
    requires Enabled(c, s, p, e)
  {
    var pc := PcOf(s, p);
    match e
    case Begin(hash) => Go(s, p, Waiting(hash))
    case Acquire => Go(s.(lock := Some(p)), p, Sweeping(pc.hash, s.disk.dir))
    case SweepOne(name) => Remain(s, s.disk.dir - {name})
    case SweepDone => Go(s, p, Looking(pc.hash, pc.start))
    case Look =>
      if Final(c, pc.hash) !in s.disk.dir then Go(s, p, Creating(pc.hash, pc.start))
      else if s.disk.dir[Final(c, pc.hash)].File? then Go(s, p, Listing(pc.hash, pc.start))
      else Leave(s, p, Turned(pc.hash))
    case Create(mtime) =>
      var via := TempOpened(c, s.disk, pc.hash, p).value;
      var spoiled := SpoiledBy(s.spoiled, Temp(c, pc.hash, p), via);
      Go(s.(disk := Written(s.disk, via, File([], mtime)), spoiled := spoiled), p, Writing(pc.hash, pc.start, via, 0))
    case Append(upto, mtime) =>
      var file := File(c.content(pc.hash)[..upto], mtime);
      var spoiled := SpoiledBy(s.spoiled, Temp(c, pc.hash, p), pc.via);
      Go(s.(disk := Written(s.disk, pc.via, file), spoiled := spoiled), p, pc.(written := upto))
    case Rename =>
      var temp, path := Temp(c, pc.hash, p), Final(c, pc.hash);
      var spoiled := if pc.via == Here(temp) then s.spoiled - {path} else s.spoiled;
      Go(s.(disk := Moved(s.disk, temp, path), spoiled := spoiled), p, Listing(pc.hash, pc.start))
    case List(queue) => Go(s, p, Removing(pc.hash, pc.start, s.disk.dir, queue, |queue|))
    case Remove => Go(Remain(s, DirAfter(c, s.disk.dir, pc)), p, PcAfter(c, pc))
    case Release => Leave(s, p, Idle)
    case Stop => Leave(s, p, Idle)
  }

  // ---------- The invariant ----------

  /** A regular file at a final name holds all the bytes of its archive, unless it was written through a link. */
  ghost predicate Complete(c: Setup, dir: Dir, spoiled: set<string>) {
    forall h: Hash :: Final(c, h) in dir && dir[Final(c, h)].File? && Final(c, h) !in spoiled ==>
      dir[Final(c, h)].content == c.content(h)
  }

  /** The entry at the final name: what was there, or the link from the temporary name, or else a complete file. */
  ghost predicate InPlace(c: Setup, p: Pid, hash: Hash, start: Dir, dir: Dir) {
    var path, temp := Final(c, hash), Temp(c, hash, p);
    && path in dir
    && (if path in start then dir[path] == start[path] && start[path].File?
        else if LinkAt(start, temp) then dir[path] == start[temp]
        else dir[path].File? && dir[path].content == c.content(hash))
  }

  /** Since the lock was taken nothing happened to the final name or to a link at the temporary one. */
  ghost predicate Untouched(c: Setup, p: Pid, hash: Hash, start: Dir, dir: Dir) {
    var path, temp := Final(c, hash), Temp(c, hash, p);
    && (path in dir <==> path in start) && (path in dir ==> dir[path] == start[path])
    && (LinkAt(dir, temp) <==> LinkAt(start, temp)) && (LinkAt(dir, temp) ==> dir[temp] == start[temp])
  }

  ghost predicate PcInv(c: Setup, disk: Disk, p: Pid, pc: Pc) {
    match pc
    case Sweeping(h, start) => Untouched(c, p, h, start, disk.dir)
    case Looking(h, start) => Untouched(c, p, h, start, disk.dir)
    case Creating(h, start) => Untouched(c, p, h, start, disk.dir) && Final(c, h) !in start
    case Writing(h, start, via, n) => WritingInv(c, disk, p, h, start, via, n)
    case Listing(h, start) => InPlace(c, p, h, start, disk.dir)
    case Removing(h, start, before, queue, remaining) =>
      InPlace(c, p, h, start, disk.dir)
      && CacheDir.Evicting(c.w, before, disk.dir, Final(c, h), queue, remaining)
    case Holding(h, start, before) =>
      InPlace(c, p, h, start, disk.dir) && Evicted(c.w, before, disk.dir, Final(c, h))
    case _ => true
  }

  /** While writing: the bytes so far are at `via`, which is the temporary name itself or what the link there leads
      to. */
  ghost predicate WritingInv(c: Setup, disk: Disk, p: Pid, h: Hash, start: Dir, via: Place, n: nat) {
    var path, temp := Final(c, h), Temp(c, h, p);
    && path !in start && (path in disk.dir ==> via == Here(path)) && n <= |c.content(h)|
    && Lookup(disk, via).Some? && Lookup(disk, via).value.File? && Lookup(disk, via).value.content == c.content(h)[..n]
    && (if LinkAt(start, temp) then temp in disk.dir && disk.dir[temp] == start[temp] else via == Here(temp))
  }

  ghost predicate Exclusive(s: State) { forall p: Pid :: Locked(PcOf(s, p)) <==> s.lock == Some(p) }

  ghost predicate Inv(c: Setup, s: State) {
    Exclusive(s) && Complete(c, s.disk.dir, s.spoiled) && forall p: Pid :: PcInv(c, s.disk, p, PcOf(s, p))
  }

  /** A cache that nobody uses, with no torn archive in it. */
  ghost predicate Unused(c: Setup, s: State) {
    s.lock.None? && s.pcs == map[] && s.spoiled == {} && Complete(c, s.disk.dir, {})
  }

  lemma UnlockedPcInv(c: Setup, disk: Disk, p: Pid, pc: Pc)
    requires !Locked(pc)
    ensures PcInv(c, disk, p, pc)
  {
  }

  /** Only the process with the lock changes a file. */
  lemma OnlyHolderWrites(c: Setup, s: State, p: Pid, e: Event)
    requires Exclusive(s) && Enabled(c, s, p, e)
    ensures Apply(c, s, p, e).disk != s.disk ==> s.lock == Some(p)
    ensures Exclusive(Apply(c, s, p, e))
    ensures forall q: Pid :: q != p ==> PcOf(Apply(c, s, p, e), q) == PcOf(s, q)
  {
    var t := Apply(c, s, p, e);
    forall q: Pid ensures q != p ==> PcOf(t, q) == PcOf(s, q) {
    }
    assert Locked(PcOf(s, p)) <==> s.lock == Some(p);
    forall q: Pid ensures Locked(PcOf(t, q)) <==> t.lock == Some(q) {
      assert Locked(PcOf(s, q)) <==> s.lock == Some(q);
    }
  }

  /** Final and temporary names never meet. */
  lemma NamesApart(c: Setup, hash: Hash, p: Pid)
    ensures forall h: Hash :: Final(c, h) != Temp(c, hash, p)
    ensures forall h: Hash :: Final(c, h) == Final(c, hash) ==> h == hash
    ensures forall h: Hash :: !IsRuntimeTempFile(c.w, Final(c, h)) && IsCachedArchive(c.w, Final(c, h))
    ensures IsRuntimeTempFile(c.w, Temp(c, hash, p)) && !IsCachedArchive(c.w, Temp(c, hash, p))
  {
    hide IsCachedArchive, IsRuntimeTempFile, ExtractedName, TempName;
    TempNames(c.w, hash, p);
    FinalNames(c.w, hash);
    forall h: Hash ensures Final(c, h) != Temp(c, hash, p)
                           && !IsRuntimeTempFile(c.w, Final(c, h)) && IsCachedArchive(c.w, Final(c, h))
    {
      FinalNames(c.w, h);
    }
  }

  /** The step's own process keeps its part, and final files stay complete. */
  lemma OwnStepKeeps(c: Setup, s: State, p: Pid, e: Event)
    requires Inv(c, s) && Enabled(c, s, p, e)
    ensures var t := Apply(c, s, p, e); Complete(c, t.disk.dir, t.spoiled) && PcInv(c, t.disk, p, PcOf(t, p))
  {
    hide IsCachedArchive, IsRuntimeTempFile, Opened, Lists, Evicted, CacheDir.Evicting, ExtractedName;
    hide TempName, Final, Temp;
    var pc, t := PcOf(s, p), Apply(c, s, p, e);
    assert PcInv(c, s.disk, p, pc);
    match e
    case SweepOne(name) => NamesApart(c, pc.hash, p);
    case Create(mtime) => CreateKeeps(c, s.disk, s.spoiled, p, pc, mtime);
    case Append(upto, at) => AppendKeeps(c, s.disk, s.spoiled, p, pc, upto, at);
    case Rename => RenameKeeps(c, s.disk, s.spoiled, p, pc);
    case List(queue) => EvictionStarts(c.w, s.disk.dir, Final(c, pc.hash), queue);
    case Remove => RemoveStepKeeps(c, s.disk, s.spoiled, p, pc);
    case _ =>
  }

  /** A regular file appears at `via`, which is spoiled unless it is the temporary name. */
  lemma WrittenComplete(c: Setup, disk: Disk, spoiled: set<string>, p: Pid, hash: Hash, via: Place, file: Entry)
    requires Complete(c, disk.dir, spoiled)
    ensures Complete(c, Written(disk, via, file).dir, SpoiledBy(spoiled, Temp(c, hash, p), via))
  {
    NamesApart(c, hash, p);
    hide IsCachedArchive, IsRuntimeTempFile, ExtractedName, TempName, Final, Temp;
  }

  lemma WrittenThere(disk: Disk, via: Place, file: Entry)
    ensures Lookup(Written(disk, via, file), via) == Some(file)
    ensures forall n :: via != Here(n) ==> (n in Written(disk, via, file).dir <==> n in disk.dir)
    ensures forall n :: via != Here(n) && n in disk.dir ==> Written(disk, via, file).dir[n] == disk.dir[n]
  {
  }

  lemma CreateKeeps(c: Setup, disk: Disk, spoiled: set<string>, p: Pid, pc: Pc, mtime: nat)
    requires Complete(c, disk.dir, spoiled) && pc.Creating? && PcInv(c, disk, p, pc)
    requires TempOpened(c, disk, pc.hash, p).Some?
    ensures var via, temp := TempOpened(c, disk, pc.hash, p).value, Temp(c, pc.hash, p);
      var disk' := Written(disk, via, File([], mtime));
      Complete(c, disk'.dir, SpoiledBy(spoiled, temp, via))
      && WritingInv(c, disk', p, pc.hash, pc.start, via, 0)
  {
    var temp, via := Temp(c, pc.hash, p), TempOpened(c, disk, pc.hash, p).value;
    NamesApart(c, pc.hash, p);
    WrittenComplete(c, disk, spoiled, p, pc.hash, via, File([], mtime));
    WrittenThere(disk, via, File([], mtime));
    assert LinkAt(disk.dir, temp) ==> via != Here(temp);
    assert !LinkAt(disk.dir, temp) ==> via == Here(temp);
    assert c.content(pc.hash)[..0] == [];
    hide IsCachedArchive, IsRuntimeTempFile, ExtractedName, TempName, Final, Temp, Complete, Opened, Written;
    hide TempOpened, Lookup;
  }

  lemma AppendKeeps(c: Setup, disk: Disk, spoiled: set<string>, p: Pid, pc: Pc, upto: nat, mtime: nat)
    requires Complete(c, disk.dir, spoiled) && pc.Writing? && PcInv(c, disk, p, pc)
    requires pc.written < upto <= |c.content(pc.hash)|
    ensures var disk' := Written(disk, pc.via, File(c.content(pc.hash)[..upto], mtime));
      Complete(c, disk'.dir, SpoiledBy(spoiled, Temp(c, pc.hash, p), pc.via))
      && WritingInv(c, disk', p, pc.hash, pc.start, pc.via, upto)
  {
    NamesApart(c, pc.hash, p);
    WrittenComplete(c, disk, spoiled, p, pc.hash, pc.via, File(c.content(pc.hash)[..upto], mtime));
    hide IsCachedArchive, IsRuntimeTempFile, ExtractedName, TempName, Final, Temp, Complete;
  }

  lemma RenameKeeps(c: Setup, disk: Disk, spoiled: set<string>, p: Pid, pc: Pc)
    requires Complete(c, disk.dir, spoiled) && pc.Writing? && PcInv(c, disk, p, pc)
    requires pc.written == |c.content(pc.hash)|
    ensures var temp, path := Temp(c, pc.hash, p), Final(c, pc.hash);
      var disk' := Moved(disk, temp, path);
      Complete(c, disk'.dir, if pc.via == Here(temp) then spoiled - {path} else spoiled)
      && InPlace(c, p, pc.hash, pc.start, disk'.dir)
  {
    NamesApart(c, pc.hash, p);
    assert c.content(pc.hash)[..pc.written] == c.content(pc.hash);
    hide IsCachedArchive, IsRuntimeTempFile, ExtractedName, TempName, Final, Temp;
  }

  lemma RemoveStepKeeps(c: Setup, disk: Disk, spoiled: set<string>, p: Pid, pc: Pc)
    requires pc.Removing? && Complete(c, disk.dir, spoiled) && PcInv(c, disk, p, pc)
    ensures var dir' := DirAfter(c, disk.dir, pc);
      Complete(c, dir', spoiled) && PcInv(c, disk.(dir := dir'), p, PcAfter(c, pc))
  {
    hide CacheDir.Evicting, Evicted, IsCachedArchive, Less, Final, Temp, Archives, Older;
    var current := Final(c, pc.hash);
    if pc.queue == [] || pc.remaining <= MAX_CACHED_ARCHIVES {
      EvictionEnds(c.w, pc.before, disk.dir, current, pc.queue, pc.remaining);
    } else if pc.queue[0].name == current {
      SkipKeeps(c.w, pc.before, disk.dir, current, pc.queue, pc.remaining);
    } else {
      RemoveKeeps(c.w, pc.before, disk.dir, current, pc.queue, pc.remaining);
    }
  }

  /** Every step of every process keeps the invariant, wherever links lead. */
  lemma NextKeeps(c: Setup, s: State, p: Pid, e: Event)
    requires Inv(c, s) && Enabled(c, s, p, e)
    ensures Inv(c, Apply(c, s, p, e))
  {
    hide Enabled, Apply, PcInv, Complete;
    var t := Apply(c, s, p, e);
    OnlyHolderWrites(c, s, p, e);
    OwnStepKeeps(c, s, p, e);
    forall q: Pid ensures PcInv(c, t.disk, q, PcOf(t, q)) {
      if q != p {
        assert PcInv(c, s.disk, q, PcOf(s, q));
        if t.disk != s.disk {
          assert Locked(PcOf(s, q)) <==> s.lock == Some(q);
          UnlockedPcInv(c, t.disk, q, PcOf(s, q));
        }
      }
    }
  }

  // ---------- Whole runs ----------

  datatype Step = Step(pid: Pid, event: Event)

  ghost predicate Follows(c: Setup, s: State, step: Step, t: State) {
    Enabled(c, s, step.pid, step.event) && t == Apply(c, s, step.pid, step.event)
  }

  /** `states` is a run: each state follows from the one before by some process's step. */
  ghost predicate Run(c: Setup, states: seq<State>, steps: seq<Step>) {
    && |states| == |steps| + 1
    && forall i, j :: 0 <= i < |steps| && j == i + 1 ==> Follows(c, states[i], steps[i], states[j])
  }

  lemma {:induction false} RunKeeps(c: Setup, states: seq<State>, steps: seq<Step>, k: nat)
    requires Run(c, states, steps) && Inv(c, states[0]) && k < |states|
    ensures Inv(c, states[k])
    ensures Clean(c, states[0]) ==> Clean(c, states[k])
  {
    hide Inv, Clean;
    if k > 0 {
      RunKeeps(c, states, steps, k - 1);
      var i := k - 1;
      var t := states[k];
      assert t == Apply(c, states[i], steps[i].pid, steps[i].event);
      NextKeeps(c, states[i], steps[i].pid, steps[i].event);
      CleanKeeps(c, states[i], steps[i].pid, steps[i].event);
    }
  }

  /** A process that was handed an archive has the lock. Under the final name is a regular file if and only if
      one was there when the lock was taken or no link was at the temporary name then; otherwise that link is.
      The file is whole if it is new, or if it was never written through a link. At most four regular archives
      are left, and no archive evicted for this one is newer than another one kept. */
  ghost predicate Handed(c: Setup, s: State, p: Pid)
    requires PcOf(s, p).Holding?
  {
    var pc, dir := PcOf(s, p), s.disk.dir;
    var path, temp := Final(c, pc.hash), Temp(c, pc.hash, p);
    && s.lock == Some(p)
    && path in dir && (dir[path].File? <==> path in pc.start || !LinkAt(pc.start, temp))
    && (dir[path].Link? ==> dir[path] == pc.start[temp])
    && (dir[path].File? ==> path in Archives(c.w, dir))
    && (dir[path].File? && (path !in pc.start || path !in s.spoiled) ==> dir[path].content == c.content(pc.hash))
    && |Archives(c.w, dir)| <= 4
    && forall e, kept ::
         e in Archives(c.w, pc.before) && e !in dir && kept in Archives(c.w, dir) && kept != path ==>
           kept in Archives(c.w, pc.before) && !Older(KeyOf(pc.before, kept), KeyOf(pc.before, e))
  }

  /** No link at any process's temporary name. */
  ghost predicate NoTempLinks(c: Setup, dir: Dir) {
    forall h: Hash, p: Pid :: !LinkAt(dir, Temp(c, h, p))
  }

  ghost predicate Clean(c: Setup, s: State) {
    && NoTempLinks(c, s.disk.dir) && s.spoiled == {}
    && forall p: Pid :: Locked(PcOf(s, p)) ==> NoTempLinks(c, PcOf(s, p).start)
  }

  /** A step makes no link: a rename may only carry one from the temporary name to the final one. */
  lemma LinksNeverMade(c: Setup, s: State, p: Pid, e: Event)
    requires Inv(c, s) && Enabled(c, s, p, e)
    ensures forall n :: LinkAt(Apply(c, s, p, e).disk.dir, n) ==>
              LinkAt(s.disk.dir, n) || (e.Rename? && n == Final(c, PcOf(s, p).hash))
  {
    hide IsCachedArchive, IsRuntimeTempFile, Opened, Lists, ExtractedName, TempName, Temp, Exclusive, Complete, PcInv;
  }

  lemma StartsGood(c: Setup, s: State)
    requires Unused(c, s)
    ensures Inv(c, s) && (NoTempLinks(c, s.disk.dir) ==> Clean(c, s))
  {
  }

  lemma CleanKeeps(c: Setup, s: State, p: Pid, e: Event)
    requires Inv(c, s) && Enabled(c, s, p, e)
    ensures Clean(c, s) ==> Clean(c, Apply(c, s, p, e))
  {
    hide IsCachedArchive, IsRuntimeTempFile, Lists, ExtractedName, TempName, Temp, Final, Complete;
    if Clean(c, s) {
      var pc, t := PcOf(s, p), Apply(c, s, p, e);
      LinksNeverMade(c, s, p, e);
      OnlyHolderWrites(c, s, p, e);
      assert PcInv(c, s.disk, p, pc);
      forall h: Hash, q: Pid ensures !LinkAt(t.disk.dir, Temp(c, h, q)) {
        NamesApart(c, h, q);
      }
      forall q: Pid | Locked(PcOf(t, q)) ensures NoTempLinks(c, PcOf(t, q).start) {
        if q == p && !e.Acquire? { assert Locked(pc); }
      }
      assert t.spoiled == {};
    }
  }

  /** From a cache nobody uses and with no torn archive, whatever links are in it: in every state of every run
      the files at final names are whole except those written through a link, and every holder has what it was
      handed. With no link at a temporary name to begin with, all of them are whole regular files. */
  lemma CacheSafety(c: Setup, states: seq<State>, steps: seq<Step>, k: nat)
    requires Run(c, states, steps) && k < |states| && Unused(c, states[0])
    ensures Complete(c, states[k].disk.dir, states[k].spoiled)
    ensures forall p: Pid :: PcOf(states[k], p).Holding? ==> Handed(c, states[k], p)
    ensures NoTempLinks(c, states[0].disk.dir) ==>
              states[k].spoiled == {}
              && forall p: Pid :: PcOf(states[k], p).Holding? ==>
                   var path := Final(c, PcOf(states[k], p).hash);
                   path in states[k].disk.dir && states[k].disk.dir[path].File?
                   && states[k].disk.dir[path].content == c.content(PcOf(states[k], p).hash)
  {
    hide Complete, PcInv, Handed, Run, NoTempLinks;
    StartsGood(c, states[0]);
    RunKeeps(c, states, steps, k);
    forall p: Pid | PcOf(states[k], p).Holding?
      ensures Handed(c, states[k], p)
      ensures Clean(c, states[k]) ==> WholeFile(c, states[k], p)
    {
      HoldingFacts(c, states[k], p);
    }
  }

  ghost predicate WholeFile(c: Setup, s: State, p: Pid)
    requires PcOf(s, p).Holding?
  {
    var path, dir := Final(c, PcOf(s, p).hash), s.disk.dir;
    path in dir && dir[path].File? && dir[path].content == c.content(PcOf(s, p).hash)
  }

  lemma HoldingFacts(c: Setup, s: State, p: Pid)
    requires Inv(c, s) && PcOf(s, p).Holding?
    ensures Handed(c, s, p)
    ensures Clean(c, s) ==> WholeFile(c, s, p)
  {
    hide IsCachedArchive, IsRuntimeTempFile, Less, Older, ExtractedName, TempName;
    var pc, path := PcOf(s, p), Final(c, PcOf(s, p).hash);
    assert Locked(pc) <==> s.lock == Some(p);
    assert PcInv(c, s.disk, p, pc);
    NamesApart(c, pc.hash, p);
    forall e, kept | e in Archives(c.w, pc.before) && e !in s.disk.dir && kept in Archives(c.w, s.disk.dir)
        && kept != path
      ensures kept in Archives(c.w, pc.before) && !Older(KeyOf(pc.before, kept), KeyOf(pc.before, e))
    {
      var a, b := KeyOf(pc.before, e), KeyOf(pc.before, kept);
      if Older(b, a) { OlderTransitive(a, b, a); OlderStrict(a); }
    }
  }

  /** While a process holds its archive no step, its own or another's, changes a file. */
  lemma HolderFreezesDirectory(c: Setup, s: State, p: Pid, e: Event, q: Pid)
    requires Inv(c, s) && Enabled(c, s, p, e) && PcOf(s, q).Holding?
    ensures Apply(c, s, p, e).disk == s.disk
  {
    OnlyHolderWrites(c, s, p, e);
    assert Locked(PcOf(s, q)) <==> s.lock == Some(q);
    assert Locked(PcOf(s, p)) <==> s.lock == Some(p);
  }

  /** The place whose file a step writes. */
  function Target(c: Setup, s: State, p: Pid, e: Event): Option<Place> {
    var pc := PcOf(s, p);
    if e.Create? && pc.Creating? then TempOpened(c, s.disk, pc.hash, p)
    else if e.Append? && pc.Writing? then Some(pc.via)
    else None
  }

  /** Only a link at the process's own temporary name takes a write elsewhere, and but for that place no step
      touches what is neither an archive nor a temporary file. */
  lemma StepFrame(c: Setup, s: State, p: Pid, e: Event)
    requires Inv(c, s) && Enabled(c, s, p, e)
    ensures var disk', target := Apply(c, s, p, e).disk, Target(c, s, p, e);
      && (target.Some? ==>
            var temp := Temp(c, PcOf(s, p).hash, p); target.value == Here(temp) || LinkAt(s.disk.dir, temp))
      && (forall n :: !IsCachedArchive(c.w, n) && !IsRuntimeTempFile(c.w, n) && target != Some(Here(n)) ==>
            Lookup(disk', Here(n)) == Lookup(s.disk, Here(n)))
      && (forall x :: target != Some(There(x)) ==> Lookup(disk', There(x)) == Lookup(s.disk, There(x)))
  {
    hide IsCachedArchive, IsRuntimeTempFile, Less, Older, Exclusive, Complete, ExtractedName, TempName, Temp, Final;
    hide Opened, Lists, Evicted, CacheDir.Evicting, DirAfter;
    var pc := PcOf(s, p);
    assert PcInv(c, s.disk, p, pc);
    if pc.Removing? { RemoveFrame(c, s.disk, p, pc); }
    if !pc.Idle? { NamesApart(c, pc.hash, p); }
  }

  /** Eviction removes archives, and leaves the rest as it is. */
  lemma RemoveFrame(c: Setup, disk: Disk, p: Pid, pc: Pc)
    requires pc.Removing? && PcInv(c, disk, p, pc)
    ensures forall n :: n in disk.dir && !(disk.dir[n].File? && IsCachedArchive(c.w, n)) ==>
        n in DirAfter(c, disk.dir, pc)
    ensures forall n :: n in DirAfter(c, disk.dir, pc) ==> n in disk.dir && DirAfter(c, disk.dir, pc)[n] == disk.dir[n]
  {
    hide IsCachedArchive, Sorted, Queued, Older, InPlace, Final;
  }

  /** No step rewrites a file at a final name, unless a link leads there, or removes anything but a regular file;
      a link goes nowhere but from the temporary name to the final one. */
  lemma EntriesKept(c: Setup, s: State, p: Pid, e: Event)
    requires Inv(c, s) && Enabled(c, s, p, e)
    ensures var dir, dir', pc, target := s.disk.dir, Apply(c, s, p, e).disk.dir, PcOf(s, p), Target(c, s, p, e);
      && (forall h: Hash :: Final(c, h) in dir && Final(c, h) in dir' && target != Some(Here(Final(c, h))) ==>
            dir'[Final(c, h)] == dir[Final(c, h)] || (e.Rename? && pc.via == Here(Final(c, h))))
      && (forall n :: n in dir && dir[n].Directory? ==> n in dir' && dir'[n].Directory?)
      && (forall n :: LinkAt(dir, n) && !(n in dir' && dir'[n] == dir[n]) ==>
            e.Rename? && n == Temp(c, pc.hash, p) && Final(c, pc.hash) in dir' && dir'[Final(c, pc.hash)] == dir[n])
  {
    hide IsCachedArchive, IsRuntimeTempFile, Less, Older, Exclusive, Complete, ExtractedName, TempName, Temp, Final;
    hide Opened, Lists, Evicted, CacheDir.Evicting, DirAfter;
    var pc := PcOf(s, p);
    assert PcInv(c, s.disk, p, pc);
    if pc.Removing? { RemoveFrame(c, s.disk, p, pc); }
    if !pc.Idle? { NamesApart(c, pc.hash, p); }
  }

  // ---------- A link at a temporary name ----------

  /** Some run leads from `s` to `t`. */
  ghost predicate Reaches(c: Setup, s: State, t: State) {
    exists states: seq<State>, steps: seq<Step> ::
      Run(c, states, steps) && states[0] == s && states[|steps|] == t
  }

  lemma ReachesItself(c: Setup, s: State)
    ensures Reaches(c, s, s)
  {
    var steps: seq<Step> := [];
    assert Run(c, [s], steps);
  }

  lemma RunLonger(c: Setup, states: seq<State>, steps: seq<Step>, step: Step, next: State)
    requires Run(c, states, steps) && Follows(c, states[|steps|], step, next)
    ensures Run(c, states + [next], steps + [step])
  {
    hide Follows;
    var states', steps' := states + [next], steps + [step];
    forall i, j | 0 <= i < |steps'| && j == i + 1 ensures Follows(c, states'[i], steps'[i], states'[j]) {
      assert states'[i] == states[i];
      if i < |steps| {
        assert steps'[i] == steps[i] && states'[j] == states[j];
      } else {
        assert steps'[i] == step && states'[j] == next;
      }
    }
  }

  lemma ReachesNext(c: Setup, s: State, t: State, p: Pid, e: Event)
    requires Reaches(c, s, t) && Enabled(c, t, p, e)
    ensures Reaches(c, s, Apply(c, t, p, e))
  {
    var next := Apply(c, t, p, e);
    assert Follows(c, t, Step(p, e), next);
    hide Follows, Enabled, Apply;
    var states: seq<State>, steps: seq<Step> :| Run(c, states, steps) && states[0] == s && states[|steps|] == t;
    RunLonger(c, states, steps, Step(p, e), next);
    var states', steps' := states + [next], steps + [Step(p, e)];
    assert Run(c, states', steps') && states'[0] == s && states'[|steps'|] == next;
  }

  /** A file elsewhere, and a link to it at the temporary name of process `p` for `hash`. */
  function LinkedStart(c: Setup, hash: Hash, p: Pid, x: string, content: Bytes): State {
    State(Disk(map[Temp(c, hash, p) := Link(There(x))], map[x := File(content, 0)]), {}, None, map[])
  }

  /** Up to the rename: the archive's bytes go to the link's target. */
  lemma LinkWrites(c: Setup, hash: Hash, p: Pid, x: string, content: Bytes) returns (t: State)
    requires c.content(hash) != [] && c.hops > 0
    ensures Reaches(c, LinkedStart(c, hash, p, x, content), t)
    ensures t.lock == Some(p) && t.pcs.Keys == {p}
    ensures PcOf(t, p).Writing? && PcOf(t, p).hash == hash && PcOf(t, p).written == |c.content(hash)|
    ensures t.disk == Disk(map[Temp(c, hash, p) := Link(There(x))], map[x := File(c.content(hash), 0)])
  {
    var s := LinkedStart(c, hash, p, x, content);
    ReachesItself(c, s);
    t := s;
    NamesApart(c, hash, p);
    hide Reaches, Temp, Final, IsCachedArchive, IsRuntimeTempFile;
    ReachesNext(c, s, t, p, Begin(hash));
    t := Apply(c, t, p, Begin(hash));
    ReachesNext(c, s, t, p, Acquire);
    t := Apply(c, t, p, Acquire);
    assert TempFiles(c.w, t.disk.dir) == {};
    ReachesNext(c, s, t, p, SweepDone);
    t := Apply(c, t, p, SweepDone);
    ReachesNext(c, s, t, p, Look);
    t := Apply(c, t, p, Look);
    assert Opened(t.disk, There(x), c.hops - 1) == Some(There(x));
    ReachesNext(c, s, t, p, Create(0));
    t := Apply(c, t, p, Create(0));
    ReachesNext(c, s, t, p, Append(|c.content(hash)|, 0));
    t := Apply(c, t, p, Append(|c.content(hash)|, 0));
    assert c.content(hash)[..|c.content(hash)|] == c.content(hash);
  }

  /** From an unused cache with a link at a temporary name, a process is handed the link as its archive, after
      the file that the link leads to was overwritten, and the next request for that archive is refused. */
  lemma LinkWitness(c: Setup, hash: Hash, p: Pid, x: string, content: Bytes) returns (handed: State, later: State)
    requires c.content(hash) != [] && c.hops > 0
    ensures Unused(c, LinkedStart(c, hash, p, x, content))
    ensures Reaches(c, LinkedStart(c, hash, p, x, content), handed) && PcOf(handed, p).Holding?
    ensures handed.disk == Disk(map[Final(c, hash) := Link(There(x))], map[x := File(c.content(hash), 0)])
    ensures Reaches(c, handed, later) && PcOf(later, p) == Turned(hash)
  {
    NamesApart(c, hash, p);
    assert Unused(c, LinkedStart(c, hash, p, x, content));
    var written := LinkWrites(c, hash, p, x, content);
    handed := LinkRenamed(c, LinkedStart(c, hash, p, x, content), written, p, x);
    later := LinkRefused(c, handed, p, hash);
  }

  /** From the rename to the end of the call: the link is all that is at the final name. */
  lemma LinkRenamed(c: Setup, s: State, written: State, p: Pid, x: string) returns (t: State)
    requires Reaches(c, s, written) && written.lock == Some(p) && PcOf(written, p).Writing?
    requires var pc := PcOf(written, p);
      pc.written == |c.content(pc.hash)| && written.disk.dir == map[Temp(c, pc.hash, p) := Link(There(x))]
    ensures Reaches(c, s, t) && t.lock == Some(p) && PcOf(t, p).Holding? && PcOf(t, p).hash == PcOf(written, p).hash
    ensures t.disk == Disk(map[Final(c, PcOf(written, p).hash) := Link(There(x))], written.disk.rest)
  {
    var hash := PcOf(written, p).hash;
    ReachesNext(c, s, written, p, Rename);
    hide Reaches, Temp, Final, IsCachedArchive, IsRuntimeTempFile;
    t := Apply(c, written, p, Rename);
    assert t.disk.dir == map[Final(c, hash) := Link(There(x))];
    t := EmptyListing(c, s, t, p);
  }

  /** With no archive to list, eviction has nothing to do. */
  lemma EmptyListing(c: Setup, s: State, listing: State, p: Pid) returns (t: State)
    requires Reaches(c, s, listing) && listing.lock == Some(p) && PcOf(listing, p).Listing?
    requires Archives(c.w, listing.disk.dir) == {}
    ensures Reaches(c, s, t) && t.lock == Some(p) && PcOf(t, p).Holding? && PcOf(t, p).hash == PcOf(listing, p).hash
    ensures t.disk == listing.disk
  {
    hide Reaches, Temp, Final, Archives;
    assert Lists(c.w, listing.disk.dir, []);
    ReachesNext(c, s, listing, p, List([]));
    t := Apply(c, listing, p, List([]));
    ReachesNext(c, s, t, p, Remove);
    t := Apply(c, t, p, Remove);
  }

  /** What is no regular file at the final name is refused. */
  lemma LinkRefused(c: Setup, s: State, p: Pid, hash: Hash) returns (t: State)
    requires PcOf(s, p).Holding? && s.lock == Some(p) && TempFiles(c.w, s.disk.dir) == {}
    requires Final(c, hash) in s.disk.dir && !s.disk.dir[Final(c, hash)].File?
    ensures Reaches(c, s, t) && PcOf(t, p) == Turned(hash)
  {
    ReachesItself(c, s);
    hide Reaches, Temp, Final, IsCachedArchive, IsRuntimeTempFile;
    t := s;
    ReachesNext(c, s, t, p, Release);
    t := Apply(c, t, p, Release);
    ReachesNext(c, s, t, p, Begin(hash));
    t := Apply(c, t, p, Begin(hash));
    ReachesNext(c, s, t, p, Acquire);
    t := Apply(c, t, p, Acquire);
    ReachesNext(c, s, t, p, SweepDone);
    t := Apply(c, t, p, SweepDone);
    ReachesNext(c, s, t, p, Look);
    t := Apply(c, t, p, Look);
  }
}

/**
 The file system under the cache directory, with what programs see kept apart from what
 the platter is sure to hold.  A directory change is visible at once and may or may not
 survive a crash, name by name; a file's content survives only once it was synced.
 */
module FileSystem {
  import opened Bits
  import opened Wrappers

  type Bytes = seq<Byte>

  /** The cache file's name, and the names `CreateTemp` generates; they never coincide. */
  datatype Name = CachePath | TempFile(id: nat)

  datatype File = File(content: Bytes, mtime: int)

  type Inode = nat

  /** `older` holds the directory bindings a crash may still bring back. */
  datatype Disk = Disk(
    dir: map<Name, Inode>,
    files: map<Inode, File>,
    synced: set<Inode>,
    older: set<(Name, Option<Inode>)>)

  function Binding(d: Disk, n: Name): Option<Inode> {
    if n in d.dir then Some(d.dir[n]) else None
  }

  ghost predicate WellFormed(d: Disk) {
    && (forall n | n in d.dir :: d.dir[n] in d.files)
    && (forall b | b in d.older && b.1.Some? :: b.1.value in d.files)
    && d.synced <= d.files.Keys
  }

  /** What a reader of `n` sees now. */
  function View(d: Disk, n: Name): Option<File>
    requires WellFormed(d)
  {
    if n in d.dir then Some(d.files[d.dir[n]]) else None
  }

  ghost predicate MayBind(d: Disk, n: Name, b: Option<Inode>) {
    b == Binding(d, n) || (n, b) in d.older
  }

  /** What a reader of `n` may see after a crash: any surviving binding, with arbitrary content unless synced. */
  ghost predicate MayShow(d: Disk, n: Name, v: Option<File>)
    requires WellFormed(d)
  {
    exists b :: MayBind(d, n, b) && ShowsAs(d, b, v)
  }

  ghost predicate ShowsAs(d: Disk, b: Option<Inode>, v: Option<File>)
    requires WellFormed(d)
  {
    match b
    case None => v == None
    case Some(i) => v.Some? && (i in d.synced ==> i in d.files && v.value == d.files[i])
  }

  /** A restart after a crash, or after a stop when `d' == d`. */
  ghost predicate Crash(d: Disk, d': Disk) {
    && WellFormed(d) && WellFormed(d')
    && (forall n :: MayBind(d, n, Binding(d', n)))
    && (forall i | i in d.synced :: i in d'.files && d'.files[i] == d.files[i])
    && d'.synced == d'.files.Keys && d'.older == {}
  }

  lemma CrashShows(d: Disk, d': Disk, n: Name)
    requires Crash(d, d')
    ensures MayShow(d, n, View(d', n))
    ensures forall v :: MayShow(d', n, v) ==> v == View(d', n)
  {
    assert MayBind(d, n, Binding(d', n));
    assert ShowsAs(d, Binding(d', n), View(d', n));
  }

  /** Every content that may show is what some crash leaves. */
  lemma SomeCrashShows(d: Disk, n: Name, v: Option<File>) returns (d': Disk)
    requires WellFormed(d) && MayShow(d, n, v)
    ensures Crash(d, d') && View(d', n) == v
  {
    var b :| MayBind(d, n, b) && ShowsAs(d, b, v);
    var dir := if b == None then d.dir - {n} else d.dir[n := b.value];
    var files := if b == None then d.files else d.files[b.value := v.value];
    d' := Disk(dir, files, files.Keys, {});
    forall m ensures MayBind(d, m, Binding(d', m)) {
      if m == n {
        assert Binding(d', m) == b;
      } else {
        assert Binding(d', m) == Binding(d, m);
      }
    }
  }

  lemma ViewMayShow(d: Disk, n: Name)
    requires WellFormed(d)
    ensures MayShow(d, n, View(d, n))
  {
    assert MayBind(d, n, Binding(d, n)) && ShowsAs(d, Binding(d, n), View(d, n));
  }

  /** One call the program makes; `CreateAny` is an attempt to create a temporary file that gave no name. */
  datatype Op =
    | MakeDir
    | Create(id: nat, now: int)
    | CreateAny
    | Write(id: nat, chunk: Bytes, now: int)
    | Flush(id: nat)
    | CloseFile(id: nat)
    | Move(id: nat)
    | Delete(n: Name)

  /** A call with its outcome and the disk after it. */
  datatype Entry = Entry(op: Op, ok: bool, disk: Disk)

  /** What a call with that outcome does to the disk.  Only a failed write can leave a trace. */
  ghost predicate Effect(d: Disk, op: Op, ok: bool, d': Disk) {
    match op
    case MakeDir => d' == d
    case CreateAny => !ok && d' == d
    case Create(id, now) => ok && TempFile(id) !in d.dir && exists i :: i !in d.files && d' == Created(d, id, i, now)
    case Write(id, chunk, now) =>
      && TempFile(id) in d.dir && d.dir[TempFile(id)] in d.files
      && exists k :: 0 <= k <= |chunk| && (ok ==> k == |chunk|) && d' == Appended(d, d.dir[TempFile(id)], chunk[..k], now)
    case Flush(id) =>
      TempFile(id) in d.dir && d' == if ok then d.(synced := d.synced + {d.dir[TempFile(id)]}) else d
    case CloseFile(_) => d' == d
    case Move(id) => TempFile(id) in d.dir && d' == if ok then Renamed(d, id) else d
    case Delete(n) => (ok ==> n in d.dir) && d' == if ok then Removed(d, n) else d
  }

  /** The disk after the first `k` calls. */
  function Upto(d: Disk, es: seq<Entry>, k: nat): Disk
    requires k <= |es|
  {
    if k == 0 then d else es[k - 1].disk
  }

  /** A sequence of calls the file system may have carried out from `d` on. */
  ghost predicate Performed(d: Disk, es: seq<Entry>) {
    forall k {:trigger Upto(d, es, k)} | 0 <= k < |es| :: Effect(Upto(d, es, k), es[k].op, es[k].ok, es[k].disk)
  }

  lemma OneMoreCall(d: Disk, es: seq<Entry>, e: Entry)
    requires Performed(d, es) && Effect(Upto(d, es, |es|), e.op, e.ok, e.disk)
    ensures Performed(d, es + [e]) && Upto(d, es + [e], |es| + 1) == e.disk
  {
    forall k | 0 <= k <= |es| ensures Effect(Upto(d, es + [e], k), (es + [e])[k].op, (es + [e])[k].ok, (es + [e])[k].disk) {
      assert Upto(d, es + [e], k) == Upto(d, es, k);
      if k < |es| {
        assert (es + [e])[k] == es[k];
      }
    }
  }

  class FileSystem {
    var disk: Disk
    /** Every call so far, with the disk it left: the instants at which a crash can strike or a reader look. */
    ghost var history: seq<Entry>
    ghost const start: Disk

    ghost predicate Valid()
      reads this
    {
      WellFormed(disk) && Performed(start, history) && disk == Upto(start, history, |history|)
    }

    constructor (disk: Disk)
      requires WellFormed(disk)
      ensures Valid() && this.disk == disk && history == []
    {
      this.disk := disk;
      history := [];
      start := disk;
    }

    method MkdirAll() returns (ok: bool)
      requires Valid()
      modifies this`history
      ensures Valid()
      ensures history == old(history) + [Entry(MakeDir, ok, disk)]
    {
      ok := *;
      OneMoreCall(start, history, Entry(MakeDir, ok, disk));
      history := history + [Entry(MakeDir, ok, disk)];
    }

    /** A new empty file under an unused temporary name. */
    method CreateTemp(now: int) returns (tmp: Option<nat>)
      requires Valid()
      modifies this
      ensures Valid()
      ensures tmp == None ==> disk == old(disk) && history == old(history) + [Entry(CreateAny, false, disk)]
      ensures tmp.Some? ==>
                && history == old(history) + [Entry(Create(tmp.value, now), true, disk)]
                && Effect(old(disk), Create(tmp.value, now), true, disk)
    {
      var ok: bool := *;
      if !ok {
        OneMoreCall(start, history, Entry(CreateAny, false, disk));
        history := history + [Entry(CreateAny, false, disk)];
        return None;
      }
      var taken := set n | n in disk.dir && n.TempFile? :: n.id;
      assert forall k | TempFile(k) in disk.dir :: k in taken by {
        forall k | TempFile(k) in disk.dir ensures k in taken { assert TempFile(k).id == k; }
      }
      var id := Unused(taken);
      var i := Unused(disk.files.Keys);
      disk := Created(disk, id, i, now);
      OneMoreCall(start, history, Entry(Create(id, now), true, disk));
      history := history + [Entry(Create(id, now), true, disk)];
      return Some(id);
    }

    /** Appends `chunk`, or on failure some first part of it. */
    method Append(id: nat, chunk: Bytes, now: int) returns (ok: bool)
      requires Valid() && TempFile(id) in disk.dir
      modifies this
      ensures Valid() && history == old(history) + [Entry(Write(id, chunk, now), ok, disk)]
      ensures Effect(old(disk), Write(id, chunk, now), ok, disk)
    {
      ok := *;
      var k: int := *;
      if ok || k < 0 || k > |chunk| {
        k := |chunk|;
      }
      disk := Appended(disk, disk.dir[TempFile(id)], chunk[..k], now);
      OneMoreCall(start, history, Entry(Write(id, chunk, now), ok, disk));
      history := history + [Entry(Write(id, chunk, now), ok, disk)];
    }

    method Sync(id: nat) returns (ok: bool)
      requires Valid() && TempFile(id) in disk.dir
      modifies this
      ensures Valid() && history == old(history) + [Entry(Flush(id), ok, disk)]
      ensures Effect(old(disk), Flush(id), ok, disk)
    {
      ok := *;
      if ok {
        disk := disk.(synced := disk.synced + {disk.dir[TempFile(id)]});
      }
      OneMoreCall(start, history, Entry(Flush(id), ok, disk));
      history := history + [Entry(Flush(id), ok, disk)];
    }

    method Close(id: nat) returns (ok: bool)
      requires Valid()
      modifies this`history
      ensures Valid()
      ensures history == old(history) + [Entry(CloseFile(id), ok, disk)]
    {
      ok := *;
      OneMoreCall(start, history, Entry(CloseFile(id), ok, disk));
      history := history + [Entry(CloseFile(id), ok, disk)];
    }

    /** Moves the temporary file over the cache path in one step, or does nothing. */
    method Rename(id: nat) returns (ok: bool)
      requires Valid() && TempFile(id) in disk.dir
      modifies this
      ensures Valid() && history == old(history) + [Entry(Move(id), ok, disk)]
      ensures Effect(old(disk), Move(id), ok, disk)
    {
      ok := *;
      if ok {
        disk := Renamed(disk, id);
      }
      OneMoreCall(start, history, Entry(Move(id), ok, disk));
      history := history + [Entry(Move(id), ok, disk)];
    }

    method Remove(n: Name) returns (ok: bool)
      requires Valid()
      modifies this
      ensures Valid() && history == old(history) + [Entry(Delete(n), ok, disk)]
      ensures Effect(old(disk), Delete(n), ok, disk)
    {
      ok := *;
      if n !in disk.dir {
        ok := false;
      }
      if ok {
        disk := Removed(disk, n);
      }
      OneMoreCall(start, history, Entry(Delete(n), ok, disk));
      history := history + [Entry(Delete(n), ok, disk)];
    }
  }

  function Created(d: Disk, id: nat, i: Inode, now: int): Disk {
    d.(dir := d.dir[TempFile(id) := i],
       files := d.files[i := File([], now)],
       synced := d.synced - {i},
       older := d.older + {(TempFile(id), Binding(d, TempFile(id)))})
  }

  function Appended(d: Disk, i: Inode, chunk: Bytes, now: int): Disk
    requires i in d.files
  {
    d.(files := d.files[i := File(d.files[i].content + chunk, now)], synced := d.synced - {i})
  }

  function Renamed(d: Disk, id: nat): Disk
    requires TempFile(id) in d.dir
  {
    d.(dir := (d.dir - {TempFile(id)})[CachePath := d.dir[TempFile(id)]],
       older := d.older + {(TempFile(id), Binding(d, TempFile(id))), (CachePath, Binding(d, CachePath))})
  }

  function Removed(d: Disk, n: Name): Disk {
    d.(dir := d.dir - {n}, older := d.older + {(n, Binding(d, n))})
  }

  /** A number outside a finite set. */
  method Unused(s: set<nat>) returns (n: nat)
    ensures n !in s
  {
    n := 0;
    var rest := s;
    while rest != {}
      invariant forall x | x in s :: x in rest || x < n
    {
      var x :| x in rest;
      if x >= n {
        n := x + 1;
      }
      rest := rest - {x};
    }
  }
}

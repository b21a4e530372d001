/**
 The disk cache: writing the snapshot by temporary file, sync and rename, and reading it
 back subject to an age bound.
 */
module DiskCache {
  import opened Wrappers
  import opened FileSystem
  import opened Trie
  import opened Canonical
  import opened Netip
  import Loader

  /** The cache path shows the same in both, to readers now and after any crash. */
  ghost predicate SameShown(before: Disk, d: Disk) {
    && WellFormed(before) && WellFormed(d)
    && View(d, CachePath) == View(before, CachePath)
    && forall v :: MayShow(d, CachePath, v) <==> MayShow(before, CachePath, v)
  }

  /** Readers see `file`; a crash may leave it, or bring back exactly what it could have shown before. */
  ghost predicate Replaced(before: Disk, d: Disk, file: File) {
    && WellFormed(before) && WellFormed(d)
    && View(d, CachePath) == Some(file)
    && forall v :: MayShow(d, CachePath, v) <==> MayShow(before, CachePath, v) || v == Some(file)
  }

  /** A state reached while writing `file`: as before, or with the new file in place. */
  ghost predicate Protects(before: Disk, d: Disk, file: File) {
    SameShown(before, d) || Replaced(before, d, file)
  }

  /** Nothing that existed has changed, apart from the temporary file `t` and names not the cache path. */
  ghost predicate CacheUntouched(before: Disk, d: Disk, t: Inode) {
    && WellFormed(before) && WellFormed(d) && t !in before.files
    && (forall b :: MayBind(d, CachePath, b) <==> MayBind(before, CachePath, b))
    && Binding(d, CachePath) == Binding(before, CachePath)
    && (forall i | i in before.files :: i in d.files && d.files[i] == before.files[i] && (i in d.synced <==> i in before.synced))
  }

  lemma UntouchedProtects(before: Disk, d: Disk, t: Inode, file: File)
    requires CacheUntouched(before, d, t)
    ensures Protects(before, d, file) && SameShown(before, d)
  {
    forall v ensures MayShow(d, CachePath, v) <==> MayShow(before, CachePath, v) {
      if MayShow(d, CachePath, v) {
        var b :| MayBind(d, CachePath, b) && ShowsAs(d, b, v);
        assert MayBind(before, CachePath, b) && ShowsAs(before, b, v);
      }
      if MayShow(before, CachePath, v) {
        var b :| MayBind(before, CachePath, b) && ShowsAs(before, b, v);
        assert MayBind(d, CachePath, b) && ShowsAs(d, b, v);
      }
    }
  }

  lemma RenameProtects(before: Disk, d: Disk, id: nat, t: Inode, file: File)
    requires CacheUntouched(before, d, t)
    requires TempFile(id) in d.dir && d.dir[TempFile(id)] == t && t in d.synced && d.files[t] == file
    ensures Replaced(before, Renamed(d, id), file)
  {
    var d' := Renamed(d, id);
    assert MayBind(d', CachePath, Some(t)) && ShowsAs(d', Some(t), Some(file));
    forall v ensures MayShow(d', CachePath, v) <==> MayShow(before, CachePath, v) || v == Some(file) {
      if MayShow(d', CachePath, v) {
        var b :| MayBind(d', CachePath, b) && ShowsAs(d', b, v);
        assert b != Some(t) ==> MayBind(before, CachePath, b) && ShowsAs(before, b, v);
      }
      if MayShow(before, CachePath, v) {
        var b :| MayBind(before, CachePath, b) && ShowsAs(before, b, v);
        assert MayBind(d, CachePath, b) && MayBind(d', CachePath, b) && ShowsAs(d', b, v);
      }
    }
  }

  /** The disk after a write of `f` through the new inode `i` that met no failure. */
  function PutFile(d: Disk, i: Inode, f: File): Disk {
    d.(dir := d.dir[CachePath := i], files := d.files[i := f], synced := d.synced + {i},
       older := d.older + {(CachePath, Binding(d, CachePath))})
  }

  lemma PutReplaces(d: Disk, i: Inode, f: File)
    requires WellFormed(d) && i !in d.files
    ensures Replaced(d, PutFile(d, i, f), f)
  {
    var d' := PutFile(d, i, f);
    assert MayBind(d', CachePath, Some(i)) && ShowsAs(d', Some(i), Some(f));
    forall v ensures MayShow(d', CachePath, v) <==> MayShow(d, CachePath, v) || v == Some(f) {
      if MayShow(d', CachePath, v) {
        var b :| MayBind(d', CachePath, b) && ShowsAs(d', b, v);
        assert b != Some(i) ==> MayBind(d, CachePath, b) && ShowsAs(d, b, v);
      }
      if MayShow(d, CachePath, v) {
        var b :| MayBind(d, CachePath, b) && ShowsAs(d, b, v);
        assert MayBind(d', CachePath, b) && ShowsAs(d', b, v);
      }
    }
  }

  /** After a removal a crash leaves nothing, or exactly what it could have left before. */
  lemma RemovalShows(d: Disk, v: Option<File>)
    requires WellFormed(d)
    ensures WellFormed(Removed(d, CachePath)) && View(Removed(d, CachePath), CachePath) == None
    ensures MayShow(Removed(d, CachePath), CachePath, v) <==> MayShow(d, CachePath, v) || v == None
  {
    var d' := Removed(d, CachePath);
    assert MayBind(d', CachePath, None) && ShowsAs(d', None, None);
    if MayShow(d', CachePath, v) {
      var b :| MayBind(d', CachePath, b) && ShowsAs(d', b, v);
      assert b != None ==> MayBind(d, CachePath, b) && ShowsAs(d, b, v);
    }
    if MayShow(d, CachePath, v) {
      var b :| MayBind(d, CachePath, b) && ShowsAs(d, b, v);
      assert MayBind(d', CachePath, b) && ShowsAs(d', b, v);
    }
  }

  /**
   A crash at such a state, when the path was settled before (as it is after every boot):
   the path then holds exactly what it held or exactly the new file.
   */
  lemma CrashAtAnyPoint(before: Disk, d: Disk, file: File, d': Disk)
    requires Protects(before, d, file) && Crash(d, d')
    requires forall v :: MayShow(before, CachePath, v) ==> v == View(before, CachePath)
    ensures View(d', CachePath) == View(before, CachePath) || View(d', CachePath) == Some(file)
    ensures forall v :: MayShow(d', CachePath, v) ==> v == View(d', CachePath)
  {
    CrashShows(d, d', CachePath);
  }

  /** The directory `before` with one more name, a temporary file left behind. */
  ghost predicate OneTempMore(before: map<Name, Inode>, dir: map<Name, Inode>) {
    exists id :: TempFile(id) !in before && TempFile(id) in dir && dir - {TempFile(id)} == before
  }

  /** The temporary file under construction is the only new name. */
  ghost predicate Working(before: Disk, d: Disk, id: nat, t: Inode) {
    && CacheUntouched(before, d, t)
    && TempFile(id) !in before.dir && d.dir == before.dir[TempFile(id) := t]
    && t in d.files
  }

  /** What an operation did, on the record: `to` continues `from`. */
  ghost predicate Extends(from: seq<Entry>, to: seq<Entry>) {
    |from| <= |to| && to[..|from|] == from
  }

  ghost predicate SomeFailed(from: seq<Entry>, to: seq<Entry>) {
    exists k :: |from| <= k < |to| && !to[k].ok
  }

  ghost predicate RemovalFailed(from: seq<Entry>, to: seq<Entry>) {
    exists k :: |from| <= k < |to| && to[k].op.Delete? && !to[k].ok
  }

  /** No call creates or removes a name. */
  ghost predicate OnlyFills(from: seq<Entry>, to: seq<Entry>) {
    forall k | |from| <= k < |to| :: to[k].op.Write? || to[k].op.Flush? || to[k].op.CloseFile?
  }

  /** If a temporary file was created, the last call tries to remove it. */
  ghost predicate CleansUp(from: seq<Entry>, to: seq<Entry>) {
    forall k | |from| <= k < |to| && to[k].op.Create? :: to[|to| - 1].op == Delete(TempFile(to[k].op.id))
  }

  /** The outcome of a write, read off the calls it made. */
  ghost predicate OnRecord(from: seq<Entry>, to: seq<Entry>, ok: bool, leaked: bool) {
    && Extends(from, to)
    && (ok <==> !SomeFailed(from, to))
    && (leaked <==> RemovalFailed(from, to))
    && (!ok ==> CleansUp(from, to))
  }

  /** Which call may come directly after one that succeeded. */
  predicate Leads(op: Op, next: Op) {
    match op
    case MakeDir => next.Create? || next.CreateAny?
    case Create(id, _) => (next.Write? || next.Flush?) && next.id == id
    case Write(id, _, _) => (next.Write? || next.Flush?) && next.id == id
    case Flush(id) => next == CloseFile(id)
    case CloseFile(id) => next == Move(id)
    case _ => false
  }

  /** The k-th call comes directly after a success that leads to it. */
  predicate Turn(h: seq<Entry>, k: nat)
    requires 0 < k < |h|
  {
    h[k - 1].ok && Leads(h[k - 1].op, h[k].op)
  }

  /** From the lo-th call on, the calls are the steps of one write in their order, all but the last successful. */
  ghost predicate InTurn(lo: nat, h: seq<Entry>, hi: nat)
    requires hi <= |h|
  {
    && lo < hi && h[lo].op == MakeDir
    && forall k | lo < k < hi :: Turn(h, k)
  }

  /** A step on the temporary file `id` after its creation. */
  predicate OfFile(op: Op, id: nat) {
    (op.Write? || op.Flush? || op.CloseFile? || op.Move?) && op.id == id
  }

  /**
   The calls of one write and no others: the steps in order up to the rename, or up to the
   first that failed and then, if there is a temporary file, closing and removing it.
   */
  ghost predicate Scripted(lo: nat, h: seq<Entry>, ok: bool) {
    if ok then InTurn(lo, h, |h|) && h[|h| - 1].ok && h[|h| - 1].op.Move?
    else if |h| > lo + 2 && h[|h| - 1].op.Delete? then
      var hi := |h| - 2;
      && InTurn(lo, h, hi) && !h[hi - 1].ok
      && exists id :: OfFile(h[hi - 1].op, id) && h[hi].op == CloseFile(id) && h[hi + 1].op == Delete(TempFile(id))
    else InTurn(lo, h, |h|) && !h[|h| - 1].ok && (h[|h| - 1].op.MakeDir? || h[|h| - 1].op.CreateAny?)
  }

  lemma OneMoreStep(lo: nat, h: seq<Entry>, e: Entry)
    requires InTurn(lo, h, |h|) && h[|h| - 1].ok && Leads(h[|h| - 1].op, e.op)
    ensures InTurn(lo, h + [e], |h| + 1)
  {
    forall k | lo < k <= |h| ensures Turn(h + [e], k) {
      assert k < |h| ==> Turn(h, k);
    }
  }

  lemma CleanedUpInTurn(lo: nat, mid: seq<Entry>, h: seq<Entry>, id: nat, close: Entry, remove: Entry)
    requires InTurn(lo, mid, |mid|) && !mid[|mid| - 1].ok && OfFile(mid[|mid| - 1].op, id)
    requires close.op == CloseFile(id) && remove.op == Delete(TempFile(id)) && h == mid + [close, remove]
    ensures Scripted(lo, h, false)
  {
    forall k | lo < k < |mid| ensures Turn(h, k) {
      assert Turn(mid, k);
    }
    assert InTurn(lo, h, |mid|);
    assert h[|mid| - 1] == mid[|mid| - 1] && h[|mid|] == close && h[|mid| + 1] == remove;
    assert OfFile(h[|mid| - 1].op, id);
  }

  /** The record ends with a step on file `id`, or its creation, that may be followed by another. */
  ghost predicate AtWork(lo: nat, h: seq<Entry>, id: nat) {
    && |h| > 0 && InTurn(lo, h, |h|) && h[|h| - 1].ok
    && (h[|h| - 1].op.Create? || h[|h| - 1].op.Write?) && h[|h| - 1].op.id == id
  }

  /** The record ends with a step on file `id` that failed. */
  ghost predicate Stuck(lo: nat, h: seq<Entry>, id: nat) {
    |h| > 0 && InTurn(lo, h, |h|) && !h[|h| - 1].ok && OfFile(h[|h| - 1].op, id)
  }

  /**
   The clean-up after a failed step: closes and removes, ignoring both results.  `h0` is the
   record from before the temporary file was filled.
   */
  method Discard(fs: FileSystem, id: nat, ghost before: Disk, ghost t: Inode, ghost h0: seq<Entry>, ghost lo: nat) returns (removed: bool)
    requires fs.Valid() && Working(before, fs.disk, id, t)
    requires Grew(h0, fs.history, before, t) && SomeFailed(h0, fs.history) && Stuck(lo, fs.history, id)
    requires forall k | |h0| <= k < |fs.history| :: !fs.history[k].op.Create? && !fs.history[k].op.Delete?
    modifies fs
    ensures fs.Valid() && SameShown(before, fs.disk) && Grew(h0, fs.history, before, t)
    ensures if removed then fs.disk.dir == before.dir else OneTempMore(before.dir, fs.disk.dir)
    ensures exists closed :: fs.history ==
              old(fs.history) + [Entry(CloseFile(id), closed, old(fs.disk)), Entry(Delete(TempFile(id)), removed, fs.disk)]
    ensures Ended(h0, fs.history, id, removed) && Scripted(lo, fs.history, false)
  {
    ghost var mid, d := fs.history, fs.disk;
    var closed := fs.Close(id);
    removed := fs.Remove(TempFile(id));
    assert before.dir[TempFile(id) := t] - {TempFile(id)} == before.dir;
    assert fs.history == mid + [Entry(CloseFile(id), closed, d), Entry(Delete(TempFile(id)), removed, fs.disk)];
    AfterCleanUp(h0, mid, fs.history, id, removed, Entry(CloseFile(id), closed, d), fs.disk);
    CleanedUpInTurn(lo, mid, fs.history, id, Entry(CloseFile(id), closed, d), Entry(Delete(TempFile(id)), removed, fs.disk));
    UntouchedProtects(before, fs.disk, t, File([], 0));
  }

  /** A failed write on the record, from the filling to the attempt to remove the temporary file. */
  ghost predicate Ended(h0: seq<Entry>, h: seq<Entry>, id: nat, removed: bool) {
    && OnRecord(h0, h, false, !removed)
    && (forall k | |h0| <= k < |h| :: !h[k].op.Create?)
    && |h| > |h0| && h[|h| - 1].op == Delete(TempFile(id))
  }

  /** The states added to the history left the cache path alone. */
  ghost predicate Grew(from: seq<Entry>, to: seq<Entry>, before: Disk, t: Inode) {
    && Extends(from, to)
    && forall k | |from| <= k < |to| :: CacheUntouched(before, to[k].disk, t)
  }

  /** Every state added to the history protects the cache path. */
  ghost predicate AllProtect(from: seq<Entry>, to: seq<Entry>, before: Disk, file: File) {
    && Extends(from, to)
    && forall k | |from| <= k < |to| :: Protects(before, to[k].disk, file)
  }

  /**
   Writes `body` to the cache path.  Whatever step fails and whenever a crash strikes, the
   path holds what it held before or the complete new file.  The write fails exactly when
   one of its calls does; then the path shows what it showed, also after a crash, and a
   temporary file stays exactly when it was created and the call to remove it failed.
   */
  method Write(fs: FileSystem, body: Bytes, now: int) returns (ok: bool, leaked: bool)
    requires fs.Valid()
    modifies fs
    ensures fs.Valid()
    ensures OnRecord(old(fs.history), fs.history, ok, leaked) && Scripted(|old(fs.history)|, fs.history, ok)
    ensures ok ==> Replaced(old(fs.disk), fs.disk, File(body, now)) && !leaked
    ensures ok ==> fs.disk.dir.Keys == old(fs.disk).dir.Keys + {CachePath}
    ensures !ok ==> SameShown(old(fs.disk), fs.disk)
    ensures !ok && !leaked ==> fs.disk.dir == old(fs.disk).dir
    ensures !ok && leaked ==> OneTempMore(old(fs.disk).dir, fs.disk.dir)
    ensures AllProtect(old(fs.history), fs.history, old(fs.disk), File(body, now))
  {
    ghost var before, h0, file := fs.disk, fs.history, File(body, now);
    ok, leaked := false, false;
    var tmp := Begin(fs, now, file);
    if tmp == None {
      return;
    }
    ghost var h1, t := fs.history, fs.disk.dir[TempFile(tmp.value)];
    ok, leaked := FillAndRename(fs, tmp.value, body, now, before, t, |h0|);
    FromTheStart(h0, h1, fs.history, tmp.value, ok, leaked, before, file);
  }

  /** The start of a write: its directory and its temporary file. */
  method Begin(fs: FileSystem, now: int, ghost file: File) returns (tmp: Option<nat>)
    requires fs.Valid()
    modifies fs
    ensures fs.Valid() && AllProtect(old(fs.history), fs.history, old(fs.disk), file)
    ensures tmp == None ==>
              && fs.disk == old(fs.disk) && SameShown(old(fs.disk), fs.disk)
              && OnRecord(old(fs.history), fs.history, false, false) && Scripted(|old(fs.history)|, fs.history, false)
    ensures tmp.Some? ==>
              && Begun(old(fs.history), fs.history, tmp.value)
              && TempFile(tmp.value) in fs.disk.dir && fs.disk.dir[TempFile(tmp.value)] in fs.disk.files
              && var t := fs.disk.dir[TempFile(tmp.value)];
                 Working(old(fs.disk), fs.disk, tmp.value, t) && fs.disk.files[t] == File([], now)
  {
    ghost var before, h0 := fs.disk, fs.history;
    SameIsSame(before);
    var made := fs.MkdirAll();
    if !made {
      FailedEarly(h0, fs.history, before, file);
      return None;
    }
    ghost var h := fs.history;
    tmp := fs.CreateTemp(now);
    OneMoreStep(|h0|, h, fs.history[|h|]);
    if tmp == None {
      FailedEarly(h0, fs.history, before, file);
      return;
    }
    StartsWorking(before, fs.disk, tmp.value, now, file);
  }

  /** Two successful calls on the record, the second the creation of the temporary file `id`. */
  ghost predicate Begun(h0: seq<Entry>, h: seq<Entry>, id: nat) {
    && Extends(h0, h) && !SomeFailed(h0, h) && !RemovalFailed(h0, h) && AtWork(|h0|, h, id)
    && forall k | |h0| <= k < |h| && h[k].op.Create? :: h[k].op.id == id
  }

  /** A write that failed before it created its temporary file. */
  lemma FailedEarly(h0: seq<Entry>, h: seq<Entry>, before: Disk, file: File)
    requires WellFormed(before) && Extends(h0, h) && |h| > |h0| && !h[|h| - 1].ok && InTurn(|h0|, h, |h|)
    requires h[|h| - 1].op.MakeDir? || h[|h| - 1].op.CreateAny?
    requires forall k | |h0| <= k < |h| :: !h[k].op.Create? && !h[k].op.Delete? && h[k].disk == before
    ensures OnRecord(h0, h, false, false) && AllProtect(h0, h, before, file) && Scripted(|h0|, h, false)
  {
    SameIsSame(before);
  }

  lemma StartsWorking(before: Disk, d: Disk, id: nat, now: int, file: File)
    requires WellFormed(before) && WellFormed(d) && Effect(before, Create(id, now), true, d)
    ensures TempFile(id) in d.dir && d.dir[TempFile(id)] in d.files
    ensures var t := d.dir[TempFile(id)];
      Working(before, d, id, t) && d.files[t] == File([], now) && Protects(before, d, file)
  {
    UntouchedProtects(before, d, d.dir[TempFile(id)], file);
  }

  lemma SameIsSame(d: Disk)
    requires WellFormed(d)
    ensures SameShown(d, d)
  {}

  /** The calls of `FillAndRename`, with those that created the temporary file put in front. */
  lemma FromTheStart(h0: seq<Entry>, h1: seq<Entry>, h: seq<Entry>, id: nat, ok: bool, leaked: bool,
                     before: Disk, file: File)
    requires Begun(h0, h1, id) && OnRecord(h1, h, ok, leaked)
    requires AllProtect(h0, h1, before, file) && AllProtect(h1, h, before, file)
    requires forall k | |h1| <= k < |h| :: !h[k].op.Create?
    requires !ok ==> |h| > |h1| && h[|h| - 1].op == Delete(TempFile(id))
    ensures OnRecord(h0, h, ok, leaked) && AllProtect(h0, h, before, file)
  {
    forall k | 0 <= k < |h1| ensures h[k] == h1[k] {
      assert h[..|h1|][k] == h[k];
    }
    forall k | 0 <= k < |h0| ensures h[k] == h0[k] {
      assert h1[..|h0|][k] == h1[k];
    }
  }

  /** From the new temporary file to the renamed cache file, or to the clean-up. */
  method FillAndRename(fs: FileSystem, id: nat, body: Bytes, now: int, ghost before: Disk, ghost t: Inode, ghost lo: nat)
    returns (ok: bool, leaked: bool)
    requires fs.Valid() && Working(before, fs.disk, id, t) && fs.disk.files[t] == File([], now)
    requires AtWork(lo, fs.history, id)
    modifies fs
    ensures fs.Valid()
    ensures OnRecord(old(fs.history), fs.history, ok, leaked) && Scripted(lo, fs.history, ok)
    ensures forall k | |old(fs.history)| <= k < |fs.history| :: !fs.history[k].op.Create?
    ensures !ok ==> |fs.history| > |old(fs.history)| && fs.history[|fs.history| - 1].op == Delete(TempFile(id))
    ensures ok ==> Replaced(before, fs.disk, File(body, now)) && !leaked
    ensures ok ==> fs.disk.dir.Keys == before.dir.Keys + {CachePath}
    ensures !ok ==> SameShown(before, fs.disk)
    ensures !ok ==> if leaked then OneTempMore(before.dir, fs.disk.dir) else fs.disk.dir == before.dir
    ensures AllProtect(old(fs.history), fs.history, before, File(body, now))
  {
    ghost var file, h0 := File(body, now), fs.history;
    var filled := Fill(fs, id, body, now, before, t, lo);
    ghost var mid, d := fs.history, fs.disk;
    UntouchedProtects(before, d, t, file);
    if filled {
      var renamed := fs.Rename(id);
      if renamed {
        RenameProtects(before, d, id, t, file);
        AfterRename(lo, h0, mid, before, t, id, fs.disk, file);
        return true, false;
      }
      OneMoreStep(lo, mid, fs.history[|mid|]);
      mid := fs.history;
      assert !mid[|mid| - 1].ok;
    }
    var removed := Discard(fs, id, before, t, h0, lo);
    GrewProtects(h0, fs.history, before, t, file);
    return false, !removed;
  }

  lemma AfterRename(lo: nat, h0: seq<Entry>, mid: seq<Entry>, before: Disk, t: Inode, id: nat, d: Disk, file: File)
    requires Grew(h0, mid, before, t) && OnlyFills(h0, mid) && !SomeFailed(h0, mid) && Replaced(before, d, file)
    requires InTurn(lo, mid, |mid|) && mid[|mid| - 1].ok && mid[|mid| - 1].op == CloseFile(id)
    ensures var h := mid + [Entry(Move(id), true, d)];
      && OnRecord(h0, h, true, false) && Scripted(lo, h, true) && AllProtect(h0, h, before, file)
      && forall k | |h0| <= k < |h| :: !h[k].op.Create?
  {
    GrewProtects(h0, mid, before, t, file);
    OneMoreStep(lo, mid, Entry(Move(id), true, d));
    assert forall k | 0 <= k < |mid| :: (mid + [Entry(Move(id), true, d)])[k] == mid[k];
  }

  lemma AfterCleanUp(h0: seq<Entry>, mid: seq<Entry>, h: seq<Entry>, id: nat, removed: bool, close: Entry, d: Disk)
    requires Extends(h0, mid) && SomeFailed(h0, mid)
    requires forall k | |h0| <= k < |mid| :: !mid[k].op.Create? && !mid[k].op.Delete?
    requires close.op == CloseFile(id) && h == mid + [close, Entry(Delete(TempFile(id)), removed, d)]
    ensures Ended(h0, h, id, removed)
  {
    assert h[..|h0|] == mid[..|h0|];
    assert forall k | 0 <= k < |mid| :: h[k] == mid[k];
    assert h[|mid| + 1].op.Delete? && h[|mid| + 1].ok == removed;
    var k :| |h0| <= k < |mid| && !mid[k].ok;
    assert !h[k].ok;
  }

  lemma GrewProtects(from: seq<Entry>, to: seq<Entry>, before: Disk, t: Inode, file: File)
    requires Grew(from, to, before, t)
    ensures AllProtect(from, to, before, file)
  {
    forall k | |from| <= k < |to| ensures Protects(before, to[k].disk, file) {
      UntouchedProtects(before, to[k].disk, t, file);
    }
  }

  /** Copies, syncs and closes the temporary file. */
  method Fill(fs: FileSystem, id: nat, body: Bytes, now: int, ghost before: Disk, ghost t: Inode, ghost lo: nat) returns (ok: bool)
    requires fs.Valid() && Working(before, fs.disk, id, t) && fs.disk.files[t] == File([], now)
    requires AtWork(lo, fs.history, id)
    modifies fs
    ensures fs.Valid() && Working(before, fs.disk, id, t)
    ensures ok ==> fs.disk.files[t] == File(body, now) && t in fs.disk.synced
    ensures Grew(old(fs.history), fs.history, before, t) && OnlyFills(old(fs.history), fs.history)
    ensures ok <==> !SomeFailed(old(fs.history), fs.history)
    ensures if ok then InTurn(lo, fs.history, |fs.history|) && fs.history[|fs.history| - 1].ok && fs.history[|fs.history| - 1].op == CloseFile(id)
            else Stuck(lo, fs.history, id)
  {
    ok := Copy(fs, id, body, now, before, t, lo);
    if ok {
      ghost var h := fs.history;
      ok := fs.Sync(id);
      OneMoreStep(lo, h, fs.history[|h|]);
      if ok {
        h := fs.history;
        ok := fs.Close(id);
        OneMoreStep(lo, h, fs.history[|h|]);
      }
    }
  }

  lemma AppendKeepsWorking(before: Disk, d: Disk, d': Disk, id: nat, t: Inode, chunk: Bytes, now: int, ok: bool)
    requires Working(before, d, id, t) && WellFormed(d') && Effect(d, Op.Write(id, chunk, now), ok, d')
    ensures Working(before, d', id, t)
    ensures ok ==> d'.files[t] == File(d.files[t].content + chunk, now)
  {
    assert chunk[..|chunk|] == chunk;
  }

  /** `io.Copy`: appends the body piece by piece. */
  method Copy(fs: FileSystem, id: nat, body: Bytes, now: int, ghost before: Disk, ghost t: Inode, ghost lo: nat) returns (ok: bool)
    requires fs.Valid() && Working(before, fs.disk, id, t) && fs.disk.files[t] == File([], now)
    requires AtWork(lo, fs.history, id)
    modifies fs
    ensures fs.Valid() && Working(before, fs.disk, id, t)
    ensures ok ==> fs.disk.files[t] == File(body, now)
    ensures Grew(old(fs.history), fs.history, before, t) && OnlyFills(old(fs.history), fs.history)
    ensures ok <==> !SomeFailed(old(fs.history), fs.history)
    ensures if ok then AtWork(lo, fs.history, id) else Stuck(lo, fs.history, id)
  {
    var n := 0;
    while n < |body|
      invariant 0 <= n <= |body|
      invariant fs.Valid() && Working(before, fs.disk, id, t)
      invariant fs.disk.files[t] == File(body[..n], now)
      invariant Grew(old(fs.history), fs.history, before, t) && OnlyFills(old(fs.history), fs.history)
      invariant !SomeFailed(old(fs.history), fs.history) && AtWork(lo, fs.history, id)
    {
      var m: int := *;
      if m <= n || m > |body| {
        m := |body|;
      }
      ghost var h, d := fs.history, fs.disk;
      var wrote := fs.Append(id, body[n..m], now);
      AppendKeepsWorking(before, d, fs.disk, id, t, body[n..m], now, wrote);
      OneMoreStep(lo, h, fs.history[|h|]);
      if !wrote {
        assert !fs.history[|fs.history| - 1].ok;
        return false;
      }
      assert body[..n] + body[n..m] == body[..m];
      n := m;
    }
    assert body[..|body|] == body;
    return true;
  }

  /**
   A run that leaves the temporary file: the sync fails and so does the removal.  The calls
   are possible, they are a failed write's by `OnRecord`, and the directory has one name more.
   */
  lemma TempFileStays(now: int) returns (es: seq<Entry>)
    ensures var blank := Disk(map[], map[], {}, {});
      && Performed(blank, es) && OnRecord([], es, false, true) && Scripted(0, es, false)
      && |es| == 5 && OneTempMore(blank.dir, es[4].disk.dir)
      && es[1].op == Create(0, now) && !es[2].ok && es[4].op == Delete(TempFile(0)) && !es[4].ok
  {
    var blank := Disk(map[], map[], {}, {});
    var d := Created(blank, 0, 0, now);
    assert 0 !in blank.files && Effect(blank, Create(0, now), true, d);
    es := [Entry(MakeDir, true, blank), Entry(Create(0, now), true, d), Entry(Flush(0), false, d),
           Entry(CloseFile(0), true, d), Entry(Delete(TempFile(0)), false, d)];
    assert !es[2].ok && es[4].op.Delete? && !es[4].ok;
    assert d.dir - {TempFile(0)} == blank.dir && TempFile(0) in d.dir;
    assert OfFile(es[2].op, 0);
  }
}

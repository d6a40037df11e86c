/** `write_file_atomic` of src/enroll.c over the two-layer disk: temporary file, sync, rename,
    directory sync. */
module AtomicWrite {
  import opened Wrappers
  import opened Paths
  import opened Disk

  const PATH_MAX: nat := 4096

  // ---------- Stages of a write ----------

  /** No other entry can come to denote file `i`. */
  ghost predicate Free(d: Disk, tmp: Place, i: nat) {
    forall q :: q != tmp ==> Some(i) !in Bindings(d, q)
  }

  /** A leftover temporary file is not also known under another name. */
  ghost predicate Private(d: Disk, tmp: Place) {
    tmp in d.names ==> Free(d, tmp, d.names[tmp])
  }

  /** A file bound to `q` was bound there or to `other` before, or is new. */
  ghost predicate NoAlias(d0: Disk, d: Disk, q: Place, other: Place) {
    && d0.next <= d.next
    && forall i :: Some(i) in Bindings(d, q) ==>
         Some(i) in Bindings(d0, q) || Some(i) in Bindings(d0, other) || i >= d0.next
  }

  /** Before the rename: only the temporary file differs from `d0`. */
  ghost predicate Before(d0: Disk, d: Disk, tmp: Place) {
    && WellFormed(d) && d.solid == d0.solid && (forall q :: q != tmp ==> SameEntry(d0, d, q))
    && (forall q :: q != tmp ==> Bindings(d, q) == Bindings(d0, q)) && NoAlias(d0, d, tmp, tmp)
  }

  /** The temporary file is `i`. */
  ghost predicate Holding(d0: Disk, d: Disk, tmp: Place, i: nat) {
    Binding(d, tmp) == Some(i) && Free(d0, tmp, i) && i in d.bytes
  }

  /** From the rename on: the target is `i`, complete and synced, or still what it was. */
  ghost predicate After(d0: Disk, d: Disk, path: Place, tmp: Place, i: nat, data: string) {
    && WellFormed(d) && d.solid == d0.solid && (forall q :: q != tmp && q != path ==> SameEntry(d0, d, q))
    && Binding(d, tmp) == None && Binding(d, path) == Some(i) && Bindings(d, path) <= Bindings(d0, path) + {Some(i)}
    && (forall j :: Some(j) in Bindings(d0, path) ==> SameFile(d0, d, j))
    && i in d.synced && i in d.bytes && d.bytes[i] == data
    && NoAlias(d0, d, path, tmp) && NoAlias(d0, d, tmp, tmp)
  }

  lemma OpenStage(d0: Disk, tmp: Place)
    requires WellFormed(d0) && Private(d0, tmp)
    ensures var d := Opened(d0, tmp); Before(d0, d, tmp) && tmp in d.names && Holding(d0, d, tmp, d.names[tmp])
  {
    var d := Opened(d0, tmp);
    var i := d.names[tmp];
    assert Free(d0, tmp, i) by {
      if tmp !in d0.names {
        forall q | q != tmp ensures Some(i) !in Bindings(d0, q) {
          assert Some(i) in Bindings(d0, q) ==> Known(d0, Some(i));
        }
      }
    }
    forall q | q != tmp ensures SameEntry(d0, d, q) {
      assert Bindings(d, q) == Bindings(d0, q);
    }
    assert Some(i) in Bindings(d0, tmp) ==> Known(d0, Some(i));
    forall q, b | b in Bindings(d, q) ensures Known(d, b) {
      if b in Bindings(d0, q) { assert Known(d0, b); }
    }
  }

  lemma WriteStage(d0: Disk, d: Disk, tmp: Place, i: nat, data: string)
    requires Before(d0, d, tmp) && Holding(d0, d, tmp, i)
    ensures Before(d0, Written(d, i, data), tmp) && Holding(d0, Written(d, i, data), tmp, i)
  {
    var d' := Written(d, i, data);
    assert forall q :: Bindings(d', q) == Bindings(d, q);
    forall q | q != tmp ensures SameEntry(d0, d', q) {
      assert SameEntry(d0, d, q);
    }
    forall q, b | b in Bindings(d', q) ensures Known(d', b) {
      assert b in Bindings(d, q) && Known(d, b);
    }
    assert Some(i) in Bindings(d, tmp) && Known(d, Some(i));
  }

  lemma SyncStage(d0: Disk, d: Disk, tmp: Place, i: nat)
    requires Before(d0, d, tmp) && Holding(d0, d, tmp, i)
    ensures Before(d0, Synced(d, i), tmp) && Holding(d0, Synced(d, i), tmp, i)
  {
    var d' := Synced(d, i);
    assert forall q :: Bindings(d', q) == Bindings(d, q);
    forall q | q != tmp ensures SameEntry(d0, d', q) {
      assert SameEntry(d0, d, q);
    }
    forall q, b | b in Bindings(d', q) ensures Known(d', b) {
      assert b in Bindings(d, q) && Known(d, b);
    }
  }

  lemma RenameStage(d0: Disk, d: Disk, path: Place, tmp: Place, i: nat)
    requires Before(d0, d, tmp) && Holding(d0, d, tmp, i) && path != tmp && i in d.synced
    ensures After(d0, Renamed(d, tmp, path), path, tmp, i, d.bytes[i])
  {
    var d' := Renamed(d, tmp, path);
    forall q | q != tmp && q != path ensures SameEntry(d0, d', q) {
      assert SameEntry(d0, d, q) && Bindings(d', q) == Bindings(d, q);
    }
    assert SameEntry(d0, d, path);
    assert Bindings(d', path) == {Some(i)} + Bindings(d, path);
    forall q, b | b in Bindings(d', q) ensures Known(d', b) {
      if b in Bindings(d, q) {
        assert Known(d, b);
      } else if q == path {
        assert b == Some(i) && Some(i) in Bindings(d, tmp) && Known(d, Some(i));
      }
    }
  }

  lemma DirSyncStage(d0: Disk, d: Disk, path: Place, tmp: Place, i: nat, data: string)
    requires After(d0, d, path, tmp, i, data) && path != []
    ensures var d' := DirSynced(d, Parent(path));
            After(d0, d', path, tmp, i, data) && Bindings(d', path) == {Some(i)}
  {
    var d' := DirSynced(d, Parent(path));
    assert forall q :: Bindings(d', q) <= Bindings(d, q);
    forall q | q != tmp && q != path ensures SameEntry(d0, d', q) {
      assert SameEntry(d0, d, q);
    }
    forall q, b | b in Bindings(d', q) ensures Known(d', b) {
      assert b in Bindings(d, q) && Known(d, b);
    }
  }

  lemma UnlinkStage(d0: Disk, d: Disk, tmp: Place)
    requires Before(d0, d, tmp)
    ensures Before(d0, Unlinked(d, tmp), tmp)
  {
    var d' := Unlinked(d, tmp);
    forall q | q != tmp ensures SameEntry(d0, d', q) {
      assert SameEntry(d0, d, q) && Bindings(d', q) == Bindings(d, q);
    }
    forall q, b | b in Bindings(d', q) ensures Known(d', b) {
      if b in Bindings(d, q) { assert Known(d, b); }
    }
  }

  // ---------- What the stages mean after a crash ----------

  /** At any point of a write, for a running program and after a crash, the target is what it
      was or holds exactly the new bytes, or it went with a directory that was not durable. */
  ghost predicate OldOrNew(d0: Disk, d: Disk, path: Place, data: string) {
    && (Content(d, path) == Content(d0, path) || Content(d, path) == Some(data))
    && forall c :: Survives(d, path, c) ==>
         c == Content(d0, path) || c == Some(data) || (c == None && !Rooted(d0, path))
  }

  /** Only the target and its temporary file may differ. */
  ghost predicate OthersKept(d0: Disk, d: Disk, path: Place, tmp: Place) {
    && WellFormed(d) && d.solid == d0.solid && (forall q :: q != path && q != tmp ==> SameEntry(d0, d, q))
    && NoAlias(d0, d, path, tmp) && NoAlias(d0, d, tmp, tmp)
  }

  ghost predicate Safe(d0: Disk, d: Disk, path: Path, data: string) {
    OldOrNew(d0, d, At(path), data) && OthersKept(d0, d, At(path), At(Tmp(path)))
  }

  /** An entry that is as before is old, for running programs and after a crash. */
  lemma StillOld(d0: Disk, d: Disk, p: Place, data: string)
    requires WellFormed(d0) && SameEntry(d0, d, p) && d.solid == d0.solid && Settled(d0, p)
    ensures OldOrNew(d0, d, p, data)
  {
    hide WellFormed, Survives, Content, Settled, SameEntry;
    SameEntrySurvives(d0, d, p, None);
    forall c | Survives(d, p, c) ensures c == Content(d0, p) || (c == None && !Rooted(d0, p)) {
      SameEntrySurvives(d0, d, p, c);
      if Rooted(d0, p) { SettledSurvives(d0, p, c); } else { SettledOnly(d0, p, c); }
    }
  }

  lemma SettledOnly(d: Disk, p: Place, c: Option<string>)
    requires Settled(d, p) && Survives(d, p, c)
    ensures c == Content(d, p) || c == None
  {
  }

  lemma BeforeMeans(d0: Disk, d: Disk, path: Path, data: string)
    requires WellFormed(d0) && Before(d0, d, At(Tmp(path))) && Settled(d0, At(path))
    ensures Safe(d0, d, path, data)
  {
    hide At, WellFormed, SameEntry, OldOrNew, Settled, Bindings;
    TmpAt(path);
    assert SameEntry(d0, d, At(path)) && Bindings(d, At(path)) == Bindings(d0, At(path));
    StillOld(d0, d, At(path), data);
  }

  lemma AfterMeans(d0: Disk, d: Disk, path: Path, i: nat, data: string)
    requires WellFormed(d0) && After(d0, d, At(path), At(Tmp(path)), i, data) && Settled(d0, At(path))
    ensures Safe(d0, d, path, data) && Content(d, At(path)) == Some(data) && At(Tmp(path)) !in d.names
  {
    hide At;
    var p := At(path);
    forall c | Survives(d, p, c) ensures c == Content(d0, p) || c == Some(data) || (c == None && !Rooted(d0, p)) {
      if exists b :: b in Bindings(d, p) && Leaves(d, b, c) {
        var b :| b in Bindings(d, p) && Leaves(d, b, c);
        if b != Some(i) { assert b == Binding(d0, p); }
      }
    }
  }

  // ---------- The code ----------

  datatype Write = Wrote(n: nat) | Interrupted | Broken

  /** What the system calls of one atomic write answer; writes beyond the list fail. */
  datatype WriteScript = WriteScript(mkdirOk: bool, openOk: bool, writes: seq<Write>, chmodOk: bool, fsyncOk: bool,
                                     closeOk: bool, renameOk: bool, dirOpenOk: bool, dirSyncOk: bool, unlinkOk: bool)

  /** These answers get `left` bytes written. */
  predicate WritesThrough(writes: seq<Write>, left: nat) {
    left == 0 || (writes != [] &&
      match writes[0]
      case Broken => false
      case Interrupted => WritesThrough(writes[1..], left)
      case Wrote(n) => WritesThrough(writes[1..], if n <= left then left - n else 0))
  }

  /** The bytes that the first `k` answers take. */
  function Taken(writes: seq<Write>, k: nat): nat
    requires k <= |writes|
  {
    if k == 0 then 0 else Taken(writes, k - 1) + if writes[k - 1].Wrote? then writes[k - 1].n else 0
  }

  ghost predicate Enough(writes: seq<Write>, left: nat, k: nat) {
    k <= |writes| && (forall i :: 0 <= i < k ==> !writes[i].Broken?) && Taken(writes, k) >= left
  }

  lemma {:induction false} TakenTail(writes: seq<Write>, k: nat)
    requires 0 < k <= |writes|
    ensures Taken(writes, k) == (if writes[0].Wrote? then writes[0].n else 0) + Taken(writes[1..], k - 1)
  {
    if k > 1 { TakenTail(writes, k - 1); }
  }

  /** In other words: before any error, the answers take all the bytes; an interrupted call costs nothing. */
  lemma {:induction false} WritesThroughIff(writes: seq<Write>, left: nat)
    ensures WritesThrough(writes, left) <==> exists k: nat :: Enough(writes, left, k)
    decreases |writes|
  {
    if left == 0 {
      assert Enough(writes, left, 0);
    } else if writes != [] {
      var rest := match writes[0]
                  case Wrote(n) => if n <= left then left - n else 0
                  case _ => left;
      WritesThroughIff(writes[1..], rest);
      if exists k: nat :: Enough(writes, left, k) {
        var k: nat :| Enough(writes, left, k);
        if k > 0 {
          TakenTail(writes, k);
          assert Enough(writes[1..], rest, k - 1);
        }
      }
      if !writes[0].Broken? && exists k: nat :: Enough(writes[1..], rest, k) {
        var k: nat :| Enough(writes[1..], rest, k);
        TakenTail(writes, k + 1);
        assert Enough(writes, left, k + 1);
      }
    }
  }

  /** Every call of an atomic write succeeds. */
  predicate Works(sc: WriteScript, path: Path, data: string) {
    && 0 < |path.text| < PATH_MAX && EndsInName(path) && (Named(path) ==> sc.mkdirOk && sc.dirOpenOk && sc.dirSyncOk)
    && sc.openOk && WritesThrough(sc.writes, |data|) && sc.chmodOk && sc.fsyncOk && sc.closeOk && sc.renameOk
  }

  /** Once the write has returned 0 and changed something, the new bytes are what every crash
      leaves exactly if the path names its directory and that directory is durable. */
  ghost predicate DurableIff(d0: Disk, d: Disk, path: Path, data: string) {
    Content(d0, At(path)) != Some(data) ==>
      ((forall c :: Survives(d, At(path), c) ==> c == Some(data)) <==> Named(path) && Rooted(d0, At(path)))
  }

  /** Without a directory sync the old entry is still among the possible ones. */
  ghost predicate OldEntryLeft(d0: Disk, d: Disk, path: Place) {
    Binding(d0, path) in Bindings(d, path)
  }

  lemma DurableWhenSynced(d0: Disk, d: Disk, path: Path, i: nat, data: string)
    requires WellFormed(d0) && After(d0, d, At(path), At(Tmp(path)), i, data) && Settled(d0, At(path))
    requires if Named(path) then Bindings(d, At(path)) == {Some(i)} else OldEntryLeft(d0, d, At(path))
    ensures DurableIff(d0, d, path, data) && (Named(path) ==> Settled(d, At(path)))
  {
    hide At, Named;
    var p := At(path);
    if !Named(path) {
      var b := Binding(d0, p);
      assert Leaves(d, b, Content(d0, p));
      assert Survives(d, p, Content(d0, p));
    } else if !Rooted(d0, p) {
      assert Survives(d, p, None);
    }
  }

  /** The bytes of the file are on disk, whatever its entry. */
  ghost predicate BytesOnDisk(d: Disk, p: Place) {
    p in d.names && d.names[p] in d.synced && d.names[p] in d.bytes
  }

  lemma AfterOnDisk(d0: Disk, d: Disk, path: Place, tmp: Place, i: nat, data: string)
    requires After(d0, d, path, tmp, i, data)
    ensures BytesOnDisk(d, path)
  {
  }

  lemma HoldingThere(d0: Disk, d: Disk, tmp: Place, i: nat)
    requires Holding(d0, d, tmp, i)
    ensures tmp in d.names
  {
  }

  /** A completed write settles the entries of the directory it syncs, and no others. */
  ghost predicate SettlesDirectory(d0: Disk, d: Disk, path: Path) {
    forall q :: q != At(path) && q != At(Tmp(path)) ==>
      Bindings(d, q) == if Named(path) && q != [] && Parent(q) == Parent(At(path)) then {Binding(d0, q)} else Bindings(d0, q)
  }

  lemma PublishSettles(d0: Disk, d: Disk, path: Path)
    requires Before(d0, d, At(Tmp(path))) && At(Tmp(path)) in d.names && EndsInName(path)
    ensures var r := Renamed(d, At(Tmp(path)), At(path));
            SettlesDirectory(d0, if Named(path) then DirSynced(r, At(DirOf(path))) else r, path)
  {
    hide At, EndsInName, Named, WellFormed, NoAlias;
    var at, tmp := At(path), At(Tmp(path));
    var r := Renamed(d, tmp, at);
    var d' := if Named(path) then DirSynced(r, At(DirOf(path))) else r;
    if Named(path) { DirOfAt(path); }
    forall q | q != at && q != tmp
      ensures Bindings(d', q) == if Named(path) && q != [] && Parent(q) == Parent(at) then {Binding(d0, q)} else Bindings(d0, q)
    {
      assert SameEntry(d0, d, q) && Bindings(r, q) == Bindings(d, q) == Bindings(d0, q);
    }
  }

  /** The machine: its disk now, and every state the disk went through. */
  class Machine {
    var disk: Disk
    ghost var history: seq<Disk>

    constructor (disk: Disk)
      ensures this.disk == disk && history == []
    {
      this.disk, this.history := disk, [];
    }

    method Set(d: Disk)
      modifies this
      ensures disk == d && history == old(history) + [d]
    {
      disk := d;
      history := history + [d];
    }

    /** `write_all`: every pattern of short writes and interrupts ends with all the bytes or an error. */
    method WriteAll(ghost d0: Disk, tmp: Place, i: nat, data: string, writes: seq<Write>) returns (rc: int)
      requires Before(d0, disk, tmp) && Holding(d0, disk, tmp, i) && disk.bytes[i] == ""
      modifies this
      ensures Before(d0, disk, tmp) && Holding(d0, disk, tmp, i)
      ensures |old(history)| <= |history| && history[..|old(history)|] == old(history)
      ensures forall k :: |old(history)| <= k < |history| ==> Before(d0, history[k], tmp)
      ensures rc == 0 ==> disk.bytes[i] == data
      ensures rc == 0 <==> WritesThrough(writes, |data|)
    {
      var offset, k := 0, 0;
      assert writes[0..] == writes;
      while offset < |data|
        invariant 0 <= offset <= |data| && 0 <= k <= |writes|
        invariant Before(d0, disk, tmp) && Holding(d0, disk, tmp, i) && disk.bytes[i] == data[..offset]
        invariant |old(history)| <= |history| && history[..|old(history)|] == old(history)
        invariant forall j :: |old(history)| <= j < |history| ==> Before(d0, history[j], tmp)
        invariant WritesThrough(writes, |data|) == WritesThrough(writes[k..], |data| - offset)
        decreases |writes| - k
      {
        assert k < |writes| ==> writes[k..][0] == writes[k] && writes[k..][1..] == writes[k + 1..];
        if k == |writes| || writes[k].Broken? { return -1; }
        if writes[k].Wrote? {
          var n := if writes[k].n <= |data| - offset then writes[k].n else |data| - offset;
          WriteStage(d0, disk, tmp, i, data[..offset + n]);
          assert data[..offset] + data[offset..offset + n] == data[..offset + n];
          Set(Written(disk, i, disk.bytes[i] + data[offset..offset + n]));
          offset := offset + n;
        }
        k := k + 1;
      }
      return 0;
    }

    /** `fsync_parent_dir`: a path without a directory of its own is not synced at all. */
    method FsyncParentDir(path: Path, sc: WriteScript) returns (rc: int)
      modifies this
      ensures rc == 0 <==> 0 < |path.text| < PATH_MAX && (Named(path) ==> sc.dirOpenOk && sc.dirSyncOk)
      ensures if rc == 0 && Named(path) then disk == DirSynced(old(disk), At(DirOf(path))) && history == old(history) + [disk]
              else disk == old(disk) && history == old(history)
    {
      if |path.text| == 0 || |path.text| >= PATH_MAX { return -1; }
      if !Named(path) { return 0; }
      if !sc.dirOpenOk || !sc.dirSyncOk { return -1; }
      Set(DirSynced(disk, At(DirOf(path))));
      return 0;
    }

    /** The part of `write_file_atomic` before the rename: a complete, synced temporary file. */
    method Prepare(tmp: Place, data: string, sc: WriteScript) returns (ok: bool, i: nat)
      requires WellFormed(disk) && Private(disk, tmp)
      modifies this
      ensures |old(history)| <= |history| && history[..|old(history)|] == old(history)
      ensures forall k :: |old(history)| <= k < |history| ==> Before(old(disk), history[k], tmp)
      ensures Before(old(disk), disk, tmp)
      ensures ok <==> sc.openOk && WritesThrough(sc.writes, |data|) && sc.chmodOk && sc.fsyncOk && sc.closeOk
      ensures ok ==> Holding(old(disk), disk, tmp, i) && i in disk.synced && disk.bytes[i] == data
    {
      hide Before, WritesThrough, Private, WellFormed, Free, Bindings;
      ghost var d0 := disk;
      i := 0;
      NothingYet(d0, tmp);
      if !sc.openOk { return false, i; }
      OpenStage(d0, tmp);
      Set(Opened(disk, tmp));
      i := disk.names[tmp];
      var rc := WriteAll(d0, tmp, i, data, sc.writes);
      if rc != 0 || !sc.chmodOk || !sc.fsyncOk { return false, i; }
      SyncStage(d0, disk, tmp, i);
      Set(Synced(disk, i));
      return sc.closeOk, i;
    }

    /** The part of `write_file_atomic` from the rename on; the temporary file is gone by then. */
    method Publish(ghost d0: Disk, path: Path, data: string, ghost i: nat, sc: WriteScript) returns (rc: int)
      requires WellFormed(d0) && Settled(d0, At(path)) && 0 < |path.text| < PATH_MAX && EndsInName(path)
      requires Before(d0, disk, At(Tmp(path))) && Holding(d0, disk, At(Tmp(path)), i)
      requires i in disk.synced && disk.bytes[i] == data
      modifies this
      ensures |old(history)| <= |history| && history[..|old(history)|] == old(history)
      ensures forall k :: |old(history)| <= k < |history| ==> Safe(d0, history[k], path, data)
      ensures Safe(d0, disk, path, data) && Content(disk, At(path)) == Some(data) && At(Tmp(path)) !in disk.names
      ensures rc == 0 <==> (Named(path) ==> sc.dirOpenOk && sc.dirSyncOk)
      ensures rc == 0 ==> DurableIff(d0, disk, path, data) && (Named(path) ==> Settled(disk, At(path)))
      ensures rc == 0 ==> SettlesDirectory(d0, disk, path) && BytesOnDisk(disk, At(path))
    {
      hide At, EndsInName, Named, Parent, Rooted, Content, Survives, Settled, Safe, Before, After, Holding, Bindings,
           WellFormed, DurableIff, Free, Renamed, DirSynced, OldEntryLeft, SettlesDirectory, BytesOnDisk;
      var at, tmp := At(path), At(Tmp(path));
      TmpAt(path);
      HoldingThere(d0, disk, tmp, i);
      PublishSettles(d0, disk, path);
      RenameStage(d0, disk, at, tmp, i);
      RenamePending(d0, disk, at, tmp, i);
      Set(Renamed(disk, tmp, at));
      AfterMeans(d0, disk, path, i, data);
      if Named(path) {
        DirOfAt(path);
        DirSyncStage(d0, disk, at, tmp, i, data);
      }
      rc := FsyncParentDir(path, sc);
      AfterMeans(d0, disk, path, i, data);
      AfterOnDisk(d0, disk, at, tmp, i, data);
      if rc == 0 { DurableWhenSynced(d0, disk, path, i, data); }
    }

    /** `write_file_atomic`. */
    method WriteFileAtomic(path: Path, data: string, sc: WriteScript) returns (rc: int)
      requires WellFormed(disk) && Settled(disk, At(path)) && Private(disk, At(Tmp(path)))
      modifies this
      ensures |old(history)| <= |history| && history[..|old(history)|] == old(history)
      ensures forall k :: |old(history)| <= k < |history| ==> Safe(old(disk), history[k], path, data)
      ensures Safe(old(disk), disk, path, data)
      ensures rc == 0 <==> Works(sc, path, data)
      ensures rc == 0 <==>
        && 0 < |path.text| < 4096 && EndsInName(path) && (Named(path) ==> sc.mkdirOk && sc.dirOpenOk && sc.dirSyncOk)
        && sc.openOk && sc.chmodOk && sc.fsyncOk && sc.closeOk && sc.renameOk && WritesThrough(sc.writes, |data|)
      ensures rc == 0 ==> Content(disk, At(path)) == Some(data) && DurableIff(old(disk), disk, path, data)
      ensures rc == 0 && Named(path) ==> Settled(disk, At(path))
      ensures rc == 0 ==> SettlesDirectory(old(disk), disk, path) && BytesOnDisk(disk, At(path))
      ensures 0 < |path.text| < PATH_MAX && (Named(path) ==> sc.mkdirOk) && (rc == 0 || sc.unlinkOk) ==>
                At(Tmp(path)) !in disk.names
    {
      hide At, EndsInName, Named, Parent, Rooted, Content, Survives, Settled, Safe, Before, After, Holding, Bindings,
           WellFormed, DurableIff, WritesThrough, Private, Free, SettlesDirectory, BytesOnDisk;
      ghost var d0 := disk;
      var tmp := At(Tmp(path));
      rc := -1;
      NothingYet(d0, tmp);
      BeforeMeans(d0, disk, path, data);
      if |path.text| == 0 || |path.text| >= PATH_MAX || (Named(path) && !sc.mkdirOk) { return; }
      var ok, i := Prepare(tmp, data, sc);
      forall d | Before(d0, d, tmp) ensures Safe(d0, d, path, data) { BeforeMeans(d0, d, path, data); }
      if ok && sc.renameOk && EndsInName(path) {
        rc := Publish(d0, path, data, i, sc);
      } else if sc.unlinkOk {
        UnlinkStage(d0, disk, tmp);
        Set(Unlinked(disk, tmp));
      }
    }
  }

  lemma RenamePending(d0: Disk, d: Disk, path: Place, tmp: Place, i: nat)
    requires Before(d0, d, tmp) && Holding(d0, d, tmp, i) && path != tmp
    ensures OldEntryLeft(d0, Renamed(d, tmp, path), path)
  {
    assert SameEntry(d0, d, path);
  }

  lemma NothingYet(d: Disk, tmp: Place)
    requires WellFormed(d)
    ensures Before(d, d, tmp)
  {
  }
}

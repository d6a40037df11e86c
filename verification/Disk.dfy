/** A file system with a volatile and a durable side.  File contents reach the disk when the file
    is synced, directory entries when their directory is; until then a crash may keep any
    binding an entry has had since the last sync, and any bytes of an unsynced file. */
module Disk {
  import opened Wrappers
  import opened Paths

  /** `names` and `bytes` are what running programs see.  `stale[p]` holds the earlier bindings
      of entry `p` that may still be the durable one, `synced` the files whose bytes are on
      disk, `solid` the directories whose own entry is. */
  datatype Disk = Disk(names: map<Place, nat>, bytes: map<nat, string>, synced: set<nat>,
                       stale: map<Place, set<Option<nat>>>, solid: set<Place>, next: nat)

  function Binding(d: Disk, p: Place): Option<nat> {
    if p in d.names then Some(d.names[p]) else None
  }

  /** Every binding of an entry that a crash may leave. */
  function Bindings(d: Disk, p: Place): set<Option<nat>> {
    {Binding(d, p)} + if p in d.stale then d.stale[p] else {}
  }

  ghost predicate Known(d: Disk, b: Option<nat>) {
    b.Some? ==> b.value in d.bytes && b.value < d.next
  }

  ghost predicate WellFormed(d: Disk) {
    && (forall p, b :: b in Bindings(d, p) ==> Known(d, b))
    && (forall i :: i in d.bytes ==> i < d.next)
  }

  /** What a running program reads. */
  function Content(d: Disk, p: Place): Option<string> {
    if p in d.names && d.names[p] in d.bytes then Some(d.bytes[d.names[p]]) else None
  }

  /** The directory of `p` cannot vanish in a crash. */
  predicate Rooted(d: Disk, p: Place) {
    Parent(p) in d.solid
  }

  // ---------- Crashes ----------

  predicate Leaves(d: Disk, b: Option<nat>, c: Option<string>) {
    match b
    case None => c == None
    case Some(i) => c.Some? && (i in d.synced && i in d.bytes ==> c.value == d.bytes[i])
  }

  /** After a crash now, file `p` may have content `c` (or be missing). */
  ghost predicate Survives(d: Disk, p: Place, c: Option<string>) {
    (c == None && !Rooted(d, p)) || exists b :: b in Bindings(d, p) && Leaves(d, b, c)
  }

  /** The entry is durable as it is, and so are the bytes. */
  ghost predicate Settled(d: Disk, p: Place) {
    Bindings(d, p) == {Binding(d, p)} && (p in d.names ==> d.names[p] in d.synced && d.names[p] in d.bytes)
  }

  // ---------- System calls ----------

  function Staled(d: Disk, p: Place): map<Place, set<Option<nat>>> {
    d.stale[p := Bindings(d, p)]
  }

  /** `open` for writing, created or truncated. */
  function Opened(d: Disk, p: Place): Disk {
    if p in d.names then d.(bytes := d.bytes[d.names[p] := ""], synced := d.synced - {d.names[p]})
    else d.(names := d.names[p := d.next], bytes := d.bytes[d.next := ""], synced := d.synced - {d.next},
            stale := Staled(d, p), next := d.next + 1)
  }

  function Written(d: Disk, i: nat, data: string): Disk {
    d.(bytes := d.bytes[i := data], synced := d.synced - {i})
  }

  function Synced(d: Disk, i: nat): Disk {
    d.(synced := d.synced + {i})
  }

  function Renamed(d: Disk, src: Place, dst: Place): Disk {
    if src !in d.names then d
    else d.(names := (d.names - {src})[dst := d.names[src]],
            stale := d.stale[src := Bindings(d, src)][dst := Bindings(d, dst)])
  }

  function Unlinked(d: Disk, p: Place): Disk {
    if p !in d.names then d else d.(names := d.names - {p}, stale := Staled(d, p))
  }

  /** `fsync` on a directory: its entries are durable as they are. */
  function DirSynced(d: Disk, dir: Place): Disk {
    d.(stale := map p | p in d.stale && !(p != [] && Parent(p) == dir) :: d.stale[p])
  }

  /** `sync`: everything is durable as it is. */
  function AllSynced(d: Disk): Disk {
    d.(synced := d.bytes.Keys, stale := map[], solid := d.solid + set p | p in d.names :: Parent(p))
  }

  // ---------- What may differ ----------

  /** File `i` has the same bytes, as durable as before. */
  ghost predicate SameFile(d: Disk, d': Disk, i: nat) {
    && (i in d.bytes <==> i in d'.bytes) && (i in d.bytes ==> d'.bytes[i] == d.bytes[i])
    && (i in d.synced <==> i in d'.synced)
  }

  /** Entry `p` is as before, except that a sync may have settled it. */
  ghost predicate SameEntry(d: Disk, d': Disk, p: Place) {
    && Binding(d', p) == Binding(d, p) && Bindings(d', p) <= Bindings(d, p)
    && forall i :: Some(i) in Bindings(d, p) ==> SameFile(d, d', i)
  }

  lemma SameEntrySurvives(d: Disk, d': Disk, p: Place, c: Option<string>)
    requires WellFormed(d) && SameEntry(d, d', p) && d.solid == d'.solid
    ensures Survives(d', p, c) ==> Survives(d, p, c)
    ensures Content(d', p) == Content(d, p)
  {
    if exists b :: b in Bindings(d', p) && Leaves(d', b, c) {
      var b :| b in Bindings(d', p) && Leaves(d', b, c);
      assert b in Bindings(d, p) && Leaves(d, b, c);
    }
  }

  /** A settled file in a rooted directory survives exactly as it is. */
  lemma SettledSurvives(d: Disk, p: Place, c: Option<string>)
    requires Settled(d, p) && Rooted(d, p)
    ensures Survives(d, p, c) <==> c == Content(d, p)
  {
    var b := Binding(d, p);
    assert b in Bindings(d, p);
    if c == Content(d, p) { assert Leaves(d, b, c); }
  }
}

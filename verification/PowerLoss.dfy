/** What a power loss leaves of the current manifest.  An update run never syncs what it downloads
    or renames; only `sync` before the reboot of a real install does. */
module PowerLoss {
  import opened Wrappers
  import opened Paths
  import opened Disk
  import opened Manifest
  import opened UpdateTrace
  import Verify
  import Update

  /** The effect of an event on the two-layer disk. */
  function OnDisk(d: Disk, e: Event): Disk {
    match e
    case Put(at, data) => var d' := Opened(d, at); if at in d'.names then Written(d', d'.names[at], data) else d'
    case Remove(at) => Unlinked(d, at)
    case Move(src, dst) => Renamed(d, src, dst)
    case Sync => AllSynced(d)
    case _ => d
  }

  function DiskAfter(d: Disk, trace: seq<Event>, n: nat): Disk
    requires n <= |trace|
  {
    if n == 0 then d else OnDisk(DiskAfter(d, trace, n - 1), trace[n - 1])
  }

  // ---------- The disk shows what the monitor sees ----------

  function Lookup(fs: Files, p: Place): Option<string> {
    if p in fs then Some(fs[p]) else None
  }

  ghost predicate Shows(d: Disk, fs: Files) {
    forall p :: Content(d, p) == Lookup(fs, p)
  }

  /** There are no hard links. */
  ghost predicate Single(d: Disk) {
    forall p, q :: p in d.names && q in d.names && d.names[p] == d.names[q] ==> p == q
  }

  /** No other entry denotes a file that `c` may be bound to. */
  ghost predicate Owned(d: Disk, c: Place) {
    forall q :: q in d.names && q != c ==> Some(d.names[q]) !in Bindings(d, c)
  }

  ghost predicate Faithful(d: Disk, fs: Files, c: Place) {
    WellFormed(d) && Shows(d, fs) && Single(d) && Owned(d, c)
  }

  /** The event neither writes to `c` nor moves it away. */
  predicate Spares(e: Event, c: Place) {
    (e.Put? ==> e.at != c) && (e.Move? ==> e.src != c && e.src != e.dst)
  }

  lemma Bound(d: Disk, p: Place)
    requires WellFormed(d) && p in d.names
    ensures d.names[p] in d.bytes && d.names[p] < d.next && Some(d.names[p]) in Bindings(d, p)
  {
    assert Binding(d, p) in Bindings(d, p) && Known(d, Binding(d, p));
  }

  lemma Unborn(d: Disk, p: Place, i: nat)
    requires WellFormed(d) && i >= d.next
    ensures Some(i) !in Bindings(d, p) && (p in d.names ==> d.names[p] != i) && i !in d.bytes
  {
    assert Some(i) in Bindings(d, p) ==> Known(d, Some(i));
    if p in d.names { Bound(d, p); }
  }

  /** A written file is the old one of that name or a new one; no other entry denotes it. */
  lemma PutApart(d: Disk, fs: Files, at: Place, data: string, c: Place, q: Place)
    requires Faithful(d, fs, c) && at != c && q != at
    ensures var d' := OnDisk(d, Put(at, data));
            && at in d'.names && Bindings(d', q) == Bindings(d, q) && (q in d.names ==> d.names[q] != d'.names[at])
            && Some(d'.names[at]) !in Bindings(d, c)
  {
    var i := OnDisk(d, Put(at, data)).names[at];
    if at !in d.names {
      Unborn(d, q, i);
      Unborn(d, c, i);
    }
  }

  lemma PutWellFormed(d: Disk, at: Place, data: string)
    requires WellFormed(d)
    ensures var d' := OnDisk(d, Put(at, data)); WellFormed(d') && Content(d', at) == Some(data)
  {
    var d' := OnDisk(d, Put(at, data));
    var i := d'.names[at];
    if at in d.names { Bound(d, at); }
    assert forall q :: Bindings(d', q) <= Bindings(d, q) + if q == at then {Some(i)} else {};
    forall q, b | b in Bindings(d', q) ensures Known(d', b) {
      if b in Bindings(d, q) { assert Known(d, b); }
    }
  }

  lemma PutFaithful(d: Disk, fs: Files, at: Place, data: string, c: Place)
    requires Faithful(d, fs, c) && at != c
    ensures Faithful(OnDisk(d, Put(at, data)), fs[at := data], c)
  {
    hide WellFormed, Bindings;
    var d' := OnDisk(d, Put(at, data));
    PutWellFormed(d, at, data);
    PutApart(d, fs, at, data, c, c);
    forall q | q != at ensures Content(d', q) == Content(d, q) && (q in d.names ==> d.names[q] != d'.names[at]) {
      PutApart(d, fs, at, data, c, q);
    }
    forall q ensures Content(d', q) == Lookup(fs[at := data], q) {
      assert Content(d, q) == Lookup(fs, q);
    }
  }

  lemma RemoveFaithful(d: Disk, fs: Files, at: Place, c: Place)
    requires Faithful(d, fs, c)
    ensures Faithful(Unlinked(d, at), fs - {at}, c)
  {
    var d' := Unlinked(d, at);
    assert forall q :: Bindings(d', q) <= Bindings(d, q) + {None};
    forall q, b | b in Bindings(d', q) ensures Known(d', b) {
      if b in Bindings(d, q) { assert Known(d, b); }
    }
    forall q ensures Content(d', q) == Lookup(fs - {at}, q) {
      assert Content(d, q) == Lookup(fs, q);
      if q in d.names { Bound(d, q); }
    }
  }

  lemma MoveWellFormed(d: Disk, src: Place, dst: Place)
    requires WellFormed(d) && src in d.names && src != dst
    ensures WellFormed(Renamed(d, src, dst))
    ensures forall q :: Bindings(Renamed(d, src, dst), q) <=
              Bindings(d, q) + {None} + if q == dst then {Some(d.names[src])} else {}
  {
    var d', i := Renamed(d, src, dst), d.names[src];
    Bound(d, src);
    assert forall q :: Bindings(d', q) <= Bindings(d, q) + {None} + if q == dst then {Some(i)} else {};
    forall q, b | b in Bindings(d', q) ensures Known(d', b) {
      if b in Bindings(d, q) { assert Known(d, b); }
    }
  }

  lemma MoveFaithful(d: Disk, fs: Files, src: Place, dst: Place, c: Place)
    requires Faithful(d, fs, c) && src != c && src != dst
    ensures Faithful(Renamed(d, src, dst), Effect(fs, Move(src, dst)), c)
  {
    hide WellFormed, Bindings;
    var d', fs' := Renamed(d, src, dst), Effect(fs, Move(src, dst));
    assert Content(d, src) == Lookup(fs, src);
    if src in d.names {
      Bound(d, src);
      MoveWellFormed(d, src, dst);
      forall q ensures Content(d', q) == Lookup(fs', q) {
        assert Content(d, q) == Lookup(fs, q);
      }
    }
  }

  lemma SyncFaithful(d: Disk, fs: Files, c: Place)
    requires Faithful(d, fs, c)
    ensures Faithful(AllSynced(d), fs, c)
  {
    var d' := AllSynced(d);
    assert forall q :: Bindings(d', q) == {Binding(d, q)} <= Bindings(d, q);
    forall q, b | b in Bindings(d', q) ensures Known(d', b) {
      assert b in Bindings(d, q) && Known(d, b);
    }
    forall q ensures Content(d', q) == Lookup(fs, q) {
      assert Content(d, q) == Lookup(fs, q);
    }
  }

  lemma FaithfulStep(d: Disk, fs: Files, e: Event, c: Place)
    requires Faithful(d, fs, c) && Spares(e, c)
    ensures Faithful(OnDisk(d, e), Effect(fs, e), c)
  {
    hide Faithful, Opened, Written, Renamed, Unlinked, AllSynced;
    match e
    case Put(at, data) => PutFaithful(d, fs, at, data, c);
    case Remove(at) => RemoveFaithful(d, fs, at, c);
    case Move(src, dst) => MoveFaithful(d, fs, src, dst, c);
    case Sync => SyncFaithful(d, fs, c);
    case _ =>
  }

  // ---------- What the current manifest may be after a crash ----------

  /** The file an event adds to those that `c` may be bound to. */
  function Arriving(d: Disk, e: Event, c: Place): set<Option<nat>> {
    if e.Move? && e.dst == c && e.src in d.names then {Some(d.names[e.src])} else {}
  }

  /** Without a sync the bindings of `c` only grow, and their files stay as they are. */
  lemma BindingsStep(d: Disk, fs: Files, e: Event, c: Place)
    requires Faithful(d, fs, c) && Spares(e, c) && !e.Sync?
    ensures var d' := OnDisk(d, e);
            && Bindings(d, c) + Arriving(d, e, c) <= Bindings(d', c) <= Bindings(d, c) + Arriving(d, e, c) + {None}
            && forall i :: Some(i) in Bindings(d, c) + Arriving(d, e, c) ==> SameFile(d, d', i)
  {
    if e.Put? { PutApart(d, fs, e.at, e.data, c, c); }
  }

  /** All files that `c` may be bound to are on disk. */
  ghost predicate Durable(d: Disk, c: Place) {
    forall i :: Some(i) in Bindings(d, c) ==> i in d.synced
  }

  lemma SyncDurable(d: Disk, fs: Files, c: Place)
    requires Faithful(d, fs, c)
    ensures Durable(AllSynced(d), c) && Bindings(AllSynced(d), c) <= Bindings(d, c) && AllSynced(d).bytes == d.bytes
  {
    if c in d.names { Bound(d, c); }
  }

  /** The file is there but not on disk yet. */
  predicate Unsaved(d: Disk, p: Place) {
    p in d.names && d.names[p] !in d.synced
  }

  /** What the attempt has written, and the manifest it has verified, are not on disk yet. */
  ghost predicate Volatile(env: Env, d: Disk, phase: Phase) {
    && (phase.Idle? ==> forall p :: p in phase.written ==> Unsaved(d, p))
    && (HasManifest(phase) ==> Unsaved(d, env.Inbox()))
    && (phase.Chose? && phase.got.Receiving? ==> Unsaved(d, env.PayloadTmp(phase.file)))
  }

  lemma UnsavedStep(d: Disk, e: Event)
    requires !e.Sync?
    ensures e.Put? ==> Unsaved(OnDisk(d, e), e.at)
    ensures e.Move? && Unsaved(d, e.src) ==> Unsaved(OnDisk(d, e), e.dst)
    ensures forall p :: Unsaved(d, p) && (e.Remove? ==> p != e.at) && (e.Move? ==> p != e.src && p != e.dst) ==>
              Unsaved(OnDisk(d, e), p)
  {
  }

  lemma VolatileStep(env: Env, d: Disk, s: State, e: Event)
    requires Apart(env) && Volatile(env, d, s.phase) && Step(env, s, e).Some?
    ensures Volatile(env, OnDisk(d, e), Step(env, s, e).value.phase)
  {
    hide IsTmp, At, Storable, Picks, HashMatches, Verify.Authentic, Apart, OnDisk, Unsaved, Holds, Effect;
    PathsDiffer(env);
    if HasFile(s.phase) { TmpAt(env.PayloadPath(s.phase.file)); }
    if !e.Sync? { UnsavedStep(d, e); }
  }

  // ---------- Whole runs ----------

  lemma AcceptedSpares(env: Env, s: State, e: Event)
    requires Apart(env) && Step(env, s, e).Some?
    ensures Spares(e, env.Current())
    ensures Harmless(env, s.phase) && e.Move? && e.dst == env.Current() ==> Promotes(env, e)
  {
    hide IsTmp, At, Storable, Picks, HashMatches, Verify.Authentic, Apart;
    PathsDiffer(env);
    if HasFile(s.phase) { TmpAt(env.PayloadPath(s.phase.file)); }
  }

  /** The bytes are those from before the run, or of a manifest that one attempt verified and
      whose file it downloaded, matched and applied. */
  ghost predicate SafeBytes(env: Env, fs: Files, trace: seq<Event>, n: nat, x: string) {
    || Holds(fs, env.Current(), x)
    || exists at: nat, w, file, payload :: at <= n && PromotedAt(env, trace, at, w, x, file, payload)
  }

  ghost predicate AllSafe(env: Env, d: Disk, fs: Files, trace: seq<Event>, n: nat) {
    forall i :: Some(i) in Bindings(d, env.Current()) ==> i in d.bytes && SafeBytes(env, fs, trace, n, d.bytes[i])
  }

  predicate Promotes(env: Env, e: Event) {
    e == Move(env.Inbox(), env.Current())
  }

  /** A promotion that no sync has followed. */
  ghost predicate Pending(env: Env, trace: seq<Event>, n: nat) {
    n <= |trace| && exists k :: 0 <= k < n && Promotes(env, trace[k]) && Unsynced(trace, k, n)
  }

  ghost predicate Unsynced(trace: seq<Event>, k: int, n: nat) {
    n <= |trace| && forall i :: k < i < n ==> 0 <= i && !trace[i].Sync?
  }

  lemma PendingStep(env: Env, trace: seq<Event>, n: nat)
    requires n < |trace|
    ensures Pending(env, trace, n + 1) <==> Promotes(env, trace[n]) || (Pending(env, trace, n) && !trace[n].Sync?)
  {
    hide Promotes;
    if Promotes(env, trace[n]) { assert Unsynced(trace, n, n + 1); }
    if Pending(env, trace, n) && !trace[n].Sync? {
      var k :| 0 <= k < n && Promotes(env, trace[k]) && Unsynced(trace, k, n);
      assert Unsynced(trace, k, n + 1);
    }
    if Pending(env, trace, n + 1) && !Promotes(env, trace[n]) {
      var k :| 0 <= k < n + 1 && Promotes(env, trace[k]) && Unsynced(trace, k, n + 1);
      assert Unsynced(trace, k, n);
    }
  }

  /** What is promoted is safe. */
  lemma PromotedSafe(env: Env, fs: Files, trace: seq<Event>, n: nat)
    requires Apart(env) && n < |trace| && Run(env, fs, trace, n + 1).Some? && Promotes(env, trace[n])
    requires Harmless(env, Run(env, fs, trace, n).value.phase)
    ensures var s := Run(env, fs, trace, n).value;
            s.phase.Applied? && env.Inbox() in s.fs && SafeBytes(env, fs, trace, n + 1, s.fs[env.Inbox()])
  {
    hide IsTmp, At, Storable, Picks, HashMatches, Verify.Authentic, Apart, PromotedAt;
    PathsDiffer(env);
    RunSound(env, fs, trace, n);
    var w := PromotionEvidence(env, fs, trace, n + 1);
  }

  lemma {:induction false} SafeBytesLater(env: Env, fs: Files, trace: seq<Event>, n: nat, x: string)
    requires SafeBytes(env, fs, trace, n, x)
    ensures SafeBytes(env, fs, trace, n + 1, x)
  {
    hide PromotedAt;
  }

  /** The disk after a run: it shows the files of the run, everything it may be left with as the
      current manifest is safe, and it is all on disk exactly if no promotion is pending. */
  ghost predicate Tracks(env: Env, d: Disk, s: State, fs: Files, trace: seq<Event>, n: nat) {
    && Faithful(d, s.fs, env.Current()) && Volatile(env, d, s.phase) && AllSafe(env, d, fs, trace, n)
    && (Durable(d, env.Current()) <==> !Pending(env, trace, n))
  }

  lemma ArrivingSafe(env: Env, d: Disk, fs: Files, trace: seq<Event>, n: nat)
    requires Apart(env) && n < |trace| && Run(env, fs, trace, n + 1).Some? && Promotes(env, trace[n])
    requires var s := Run(env, fs, trace, n).value;
             Harmless(env, s.phase) && Faithful(d, s.fs, env.Current()) && Volatile(env, d, s.phase)
    ensures env.Inbox() in d.names && d.names[env.Inbox()] !in d.synced && d.names[env.Inbox()] in d.bytes
    ensures SafeBytes(env, fs, trace, n + 1, d.bytes[d.names[env.Inbox()]])
  {
    hide Step, At, Apart, SafeBytes, Harmless, WellFormed, Single, Owned;
    PromotedSafe(env, fs, trace, n);
    var s := Run(env, fs, trace, n).value;
    assert Content(d, env.Inbox()) == Lookup(s.fs, env.Inbox());
  }

  lemma BoundStep(env: Env, d: Disk, fs: Files, trace: seq<Event>, n: nat)
    requires Apart(env) && n < |trace| && Run(env, fs, trace, n + 1).Some? && AllSafe(env, d, fs, trace, n)
    requires var s := Run(env, fs, trace, n).value;
             Harmless(env, s.phase) && Faithful(d, s.fs, env.Current()) && Volatile(env, d, s.phase)
    ensures AllSafe(env, OnDisk(d, trace[n]), fs, trace, n + 1)
    ensures Durable(OnDisk(d, trace[n]), env.Current()) <==>
            trace[n].Sync? || (Durable(d, env.Current()) && !Promotes(env, trace[n]))
  {
    hide OnDisk, At, Apart, Faithful, Bindings, SafeBytes, Volatile, Harmless, Effect, Next;
    var s, e, c := Run(env, fs, trace, n).value, trace[n], env.Current();
    var d' := OnDisk(d, e);
    AcceptedSpares(env, s, e);
    forall x | SafeBytes(env, fs, trace, n, x) ensures SafeBytes(env, fs, trace, n + 1, x) {
      SafeBytesLater(env, fs, trace, n, x);
    }
    if e.Sync? {
      SyncDurable(d, s.fs, c);
      SyncIs(d);
    } else {
      BindingsStep(d, s.fs, e, c);
      if Promotes(env, e) {
        ArrivingSafe(env, d, fs, trace, n);
        assert Some(d.names[env.Inbox()]) in Bindings(d', c);
      } else {
        assert Arriving(d, e, c) == {};
      }
    }
  }

  lemma SyncIs(d: Disk)
    ensures OnDisk(d, Sync) == AllSynced(d)
  {
  }

  lemma TracksStep(env: Env, d: Disk, fs: Files, trace: seq<Event>, n: nat)
    requires Apart(env) && n < |trace| && Run(env, fs, trace, n + 1).Some?
    requires var s := Run(env, fs, trace, n).value; Harmless(env, s.phase) && Tracks(env, d, s, fs, trace, n)
    ensures Tracks(env, OnDisk(d, trace[n]), Run(env, fs, trace, n + 1).value, fs, trace, n + 1)
  {
    hide OnDisk, At, Apart, Faithful, AllSafe, Durable, Pending, Volatile, Harmless, Effect, Next;
    var s, e, c := Run(env, fs, trace, n).value, trace[n], env.Current();
    AcceptedSpares(env, s, e);
    FaithfulStep(d, s.fs, e, c);
    VolatileStep(env, d, s, e);
    PendingStep(env, trace, n);
    BoundStep(env, d, fs, trace, n);
  }

  /** A disk that holds these files, with a durable current manifest. */
  ghost predicate Rests(env: Env, d: Disk, fs: Files) {
    Faithful(d, fs, env.Current()) && Settled(d, env.Current())
  }

  lemma {:induction false} RunTracks(env: Env, d: Disk, fs: Files, trace: seq<Event>, n: nat)
    requires Apart(env) && Rests(env, d, fs) && n <= |trace| && Run(env, fs, trace, n).Some? && CleanRun(env, trace, n)
    ensures Tracks(env, DiskAfter(d, trace, n), Run(env, fs, trace, n).value, fs, trace, n)
  {
    hide Step, OnDisk, Tracks, Harmless, CollisionFree, Apart;
    if n == 0 {
      RestTracks(env, d, fs, trace);
    } else {
      RunTracks(env, d, fs, trace, n - 1);
      RunHarmless(env, fs, trace, n - 1);
      TracksStep(env, DiskAfter(d, trace, n - 1), fs, trace, n - 1);
    }
  }

  lemma RestTracks(env: Env, d: Disk, fs: Files, trace: seq<Event>)
    requires Rests(env, d, fs)
    ensures Tracks(env, d, State(fs, Off), fs, trace, 0)
  {
    hide At;
    assert Content(d, env.Current()) == Lookup(fs, env.Current());
  }

  /** Whatever a power loss now leaves as the current manifest is nothing or safe. */
  ghost predicate CrashSafe(env: Env, d: Disk, fs: Files, trace: seq<Event>, n: nat) {
    forall c :: Survives(d, env.Current(), c) ==> c == None || SafeBytes(env, fs, trace, n, c.value)
  }

  function Longest(trace: seq<Event>, n: nat): (k: nat)
    requires n <= |trace|
    ensures forall i :: 0 <= i < n && trace[i].Verified? ==> |trace[i].manifest| <= k
  {
    if n == 0 then 0
    else var k := Longest(trace, n - 1);
         if trace[n - 1].Verified? && |trace[n - 1].manifest| > k then |trace[n - 1].manifest| else k
  }

  /** There are always bytes that are not safe. */
  lemma UnsafeBytes(env: Env, fs: Files, trace: seq<Event>, n: nat) returns (x: string)
    ensures !SafeBytes(env, fs, trace, n, x)
  {
    hide WasPicked, WasMatched, WasApplied, At;
    var c := env.Current();
    var k := Longest(trace, |trace|) + if c in fs then |fs[c]| else 0;
    x := seq(k + 1, _ => 'x');
  }

  /** The exact condition: a power loss after `n` events leaves a safe current manifest, whatever it
      does, if and only if every promotion so far was followed by a sync. */
  lemma PowerLossExactlyIf(env: Env, d: Disk, fs: Files, trace: seq<Event>, n: nat)
    requires Apart(env) && Rests(env, d, fs) && n <= |trace| && Run(env, fs, trace, n).Some? && CleanRun(env, trace, n)
    ensures CrashSafe(env, DiskAfter(d, trace, n), fs, trace, n) <==> !Pending(env, trace, n)
  {
    hide Run, At, SafeBytes, Pending, DiskAfter, Faithful, Volatile, Apart, Rests, CleanRun, Bindings;
    RunTracks(env, d, fs, trace, n);
    var d' := DiskAfter(d, trace, n);
    if Pending(env, trace, n) {
      var i :| Some(i) in Bindings(d', env.Current()) && i !in d'.synced;
      var x := UnsafeBytes(env, fs, trace, n);
      assert Leaves(d', Some(i), Some(x));
    }
  }

  /** Right after `sync` the current manifest is safe from a power loss. */
  lemma SafeOnceSynced(env: Env, d: Disk, fs: Files, trace: seq<Event>, n: nat)
    requires Apart(env) && Rests(env, d, fs) && 0 < n <= |trace| && Run(env, fs, trace, n).Some? && CleanRun(env, trace, n)
    requires trace[n - 1].Sync?
    ensures CrashSafe(env, DiskAfter(d, trace, n), fs, trace, n)
  {
    hide Run, CrashSafe, DiskAfter, Apart, Rests, CleanRun, At;
    PowerLossExactlyIf(env, d, fs, trace, n);
    PendingStep(env, trace, n - 1);
  }

  /** The attempt that promoted a file which only simulates an install never syncs. */
  lemma {:induction false} TestNeverSyncs(env: Env, fs: Files, trace: seq<Event>, k: nat, n: nat)
    requires k < n <= |trace| && Run(env, fs, trace, n).Some? && Promotes(env, trace[k])
    requires Run(env, fs, trace, k + 1).Some? && Run(env, fs, trace, k + 1).value.phase.Promoted?
    requires Run(env, fs, trace, k + 1).value.phase.file.fileType == Some("rauc_bundle_test")
    requires forall i :: k < i < n ==> trace[i] != Begin
    ensures Run(env, fs, trace, n).value.phase == Run(env, fs, trace, k + 1).value.phase && Unsynced(trace, k, n)
  {
    hide IsTmp, At, Picks, HashMatches, Verify.Authentic, Storable, Effect;
    if n > k + 1 { TestNeverSyncs(env, fs, trace, k, n - 1); }
  }

  /** So after such a promotion, until the next attempt, a power loss may leave any bytes at all
      as the current manifest. */
  lemma TestNeverSafe(env: Env, d: Disk, fs: Files, trace: seq<Event>, k: nat, n: nat)
    requires Apart(env) && Rests(env, d, fs) && k < n <= |trace| && Run(env, fs, trace, n).Some? && CleanRun(env, trace, n)
    requires Promotes(env, trace[k]) && Run(env, fs, trace, k + 1).Some? && Run(env, fs, trace, k + 1).value.phase.Promoted?
    requires Run(env, fs, trace, k + 1).value.phase.file.fileType == Some("rauc_bundle_test")
    requires forall i :: k < i < n ==> trace[i] != Begin
    ensures !CrashSafe(env, DiskAfter(d, trace, n), fs, trace, n)
  {
    hide Run, CrashSafe, DiskAfter, Apart, Rests, CleanRun, At;
    TestNeverSyncs(env, fs, trace, k, n);
    PowerLossExactlyIf(env, d, fs, trace, n);
  }

  lemma CleanAttempt(env: Env, seen: seq<Event>, trace: seq<Event>, m: string)
    requires |seen| <= |trace| && trace[..|seen|] == seen && OnlyVerified(trace[|seen|..], m)
    requires CleanRun(env, seen, |seen|) && CollisionFree(env, m)
    ensures CleanRun(env, trace, |trace|)
  {
    hide CollisionFree;
    forall i | 0 <= i < |trace| && trace[i].Verified? ensures CollisionFree(env, trace[i].manifest) {
      if i < |seen| {
        assert trace[i] == trace[..|seen|][i];
      } else {
        assert trace[i] == trace[|seen|..][i - |seen|];
      }
    }
  }

  lemma LastUnsynced(env: Env, trace: seq<Event>)
    requires trace != [] && Promotes(env, trace[|trace| - 1])
    ensures Pending(env, trace, |trace|)
  {
    assert Unsynced(trace, |trace| - 1, |trace|);
  }

  /** The code itself: at the end of a successful attempt, before the reboot, the current manifest is
      safe from a power loss if the release was really installed, and is not if that was simulated. */
  method UpdateAndLosePower(u: Update.Updater, d: Disk, sc: Update.Script) returns (rc: int)
    requires u.Valid() && Update.Assumptions(u.env) && Rests(u.env, d, u.start)
    requires CleanRun(u.env, u.trace, |u.trace|) && CollisionFree(u.env, Update.Body(sc.manifest))
    modifies u
    ensures u.Valid() && |old(u.trace)| <= |u.trace|
    ensures rc == 0 && !Update.Quiet(u.trace[|old(u.trace)|..]) ==>
              exists f :: Picks(u.env, Update.Body(sc.manifest), f) &&
                (CrashSafe(u.env, DiskAfter(d, u.trace, |u.trace|), u.start, u.trace, |u.trace|) <==>
                   f.fileType == Some("rauc_bundle"))
  {
    hide Run, Update.Outcome, Update.CleansUp, Update.PrefixStable, Update.ProperDigest, Apart, Rests, CleanRun, CollisionFree, CrashSafe,
         DiskAfter, Picks, At, Update.Body, Update.Quiet, Pending, OnlyVerified;
    ghost var seen := u.trace;
    rc := u.Attempt(sc);
    Extends(seen, u.trace);
    CleanAttempt(u.env, seen, u.trace, Update.Body(sc.manifest));
    if rc == 0 && !Update.Quiet(u.trace[|seen|..]) {
      ghost var f :| Picks(u.env, Update.Body(sc.manifest), f) && Update.Concludes(u.env, u.trace[|seen|..], f);
      assert u.trace[|u.trace| - 1] == u.trace[|seen|..][|u.trace| - |seen| - 1];
      PowerLossExactlyIf(u.env, d, u.start, u.trace, |u.trace|);
      if f.fileType == Some("rauc_bundle") {
        PendingStep(u.env, u.trace, |u.trace| - 1);
      } else {
        LastUnsynced(u.env, u.trace);
      }
    }
  }

  lemma Extends(seen: seq<Event>, trace: seq<Event>)
    requires Update.OneAttempt(seen, trace)
    ensures |seen| < |trace| && trace[..|seen|] == seen
  {
  }
}

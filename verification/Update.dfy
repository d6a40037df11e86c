/** The update attempt of src/ota_fetch.c, step by step over the file system.  Everything outside
    the program (server replies, I/O failures, exit codes) is a script that a run is given, so
    a statement for all scripts is a statement for all surroundings. */
module Update {
  import opened Wrappers
  import opened Text
  import opened Paths
  import opened Manifest
  import opened UpdateTrace
  import Hash
  import Verify

  // ---------- Scripts ----------

  /** A piece of a response body, and how much of it `fwrite` takes. */
  datatype Chunk = Chunk(data: string, room: nat)

  datatype Transfer = Transfer(dirOk: bool, openOk: bool, initOk: bool, chunks: seq<Chunk>, performed: bool,
                               httpCode: int, flushOk: bool, closeOk: bool, renameOk: bool, unlinkOk: bool)

  function BodyTo(chunks: seq<Chunk>, n: nat): string
    requires n <= |chunks|
  {
    if n == 0 then "" else BodyTo(chunks, n - 1) + chunks[n - 1].data
  }

  function Body(tr: Transfer): string {
    BodyTo(tr.chunks, |tr.chunks|)
  }

  lemma BodyStep(chunks: seq<Chunk>, n: nat)
    requires n < |chunks|
    ensures BodyTo(chunks, 0) == "" && BodyTo(chunks, n + 1) == BodyTo(chunks, n) + chunks[n].data
  {
  }

  lemma NoBody(chunks: seq<Chunk>)
    ensures BodyTo(chunks, 0) == ""
  {
  }

  /** A body is its chunks one after the other. */
  lemma {:induction false} BodyConcat(a: seq<Chunk>, b: seq<Chunk>, n: nat)
    requires n <= |b|
    ensures BodyTo(a + b, |a| + n) == BodyTo(a, |a|) + BodyTo(b, n)
  {
    hide BodyTo;
    var front := BodyTo(a, |a|);
    if n == 0 {
      NoBody(b);
      BodyPrefix(a, b, |a|);
      assert front + "" == front;
    } else {
      BodyConcat(a, b, n - 1);
      BodyStep(a + b, |a| + n - 1);
      BodyStep(b, n - 1);
      Regroup(front, BodyTo(b, n - 1), b[n - 1].data);
    }
  }

  lemma Regroup(x: string, y: string, z: string)
    ensures x + y + z == x + (y + z)
  {
  }

  lemma {:induction false} BodyPrefix(a: seq<Chunk>, b: seq<Chunk>, n: nat)
    requires n <= |a|
    ensures BodyTo(a + b, n) == BodyTo(a, n)
  {
    if n > 0 { BodyPrefix(a, b, n - 1); }
  }

  predicate AllFit(chunks: seq<Chunk>) {
    forall i :: 0 <= i < |chunks| ==> |chunks[i].data| <= chunks[i].room
  }

  predicate Delivered(tr: Transfer) {
    && tr.dirOk && tr.openOk && tr.initOk && AllFit(tr.chunks) && tr.performed
    && 200 <= tr.httpCode < 300 && tr.flushOk && tr.closeOk && tr.renameOk
  }

  datatype Rauc = ForkFailed | WaitFailed | Exited(code: int) | Signaled | Unexpected

  datatype Script = Script(
    initOk: bool, unlinkOk: Place -> bool, listing: seq<string>,
    manifest: Transfer, sig: Transfer, cert: Transfer, verify: Verify.Faults,
    statCurrent: bool, statInbox: bool, hashCurrent: Hash.Reading, hashInbox: Hash.Reading,
    loadOk: bool, loadLen: nat, payload: Transfer, hashPayload: Hash.Reading,
    rauc: Rauc, promoteUnlink: bool, promoteRename: bool)

  // ---------- What is taken for granted ----------

  /** The JSON parser stops at the end of the first value: a shorter read of the same bytes
      yields the same tree or none. */
  ghost predicate PrefixStable(env: Env) {
    forall b: string, n: nat :: n <= |b| && env.parse(b[..n]).Some? ==> env.parse(b) == env.parse(b[..n])
  }

  /** A digest is 32 bytes. */
  ghost predicate ProperDigest(env: Env) {
    forall s :: var d := env.hasher.finish(s); |d| == Hash.DIGEST_LEN && Hash.IsBytes(d)
  }

  ghost predicate Assumptions(env: Env) {
    Apart(env) && PrefixStable(env) && ProperDigest(env)
  }

  // ---------- Contracts of an attempt ----------

  ghost predicate SameDigest(env: Env, a: string, b: string) {
    Hash.Digest(env.hasher, a) == Hash.Digest(env.hasher, b)
  }

  /** Nothing was chosen, so no payload was downloaded and nothing was installed or applied. */
  predicate Quiet(events: seq<Event>) {
    forall i :: 0 <= i < |events| ==> !events[i].Picked? && !events[i].Install? && !events[i].Apply?
  }

  /** The current manifest can be seen, and a manifest that the server delivers has its digest. */
  ghost predicate UpToDate(env: Env, sc: Script, before: Files) {
    && sc.statCurrent && env.Current() in before
    && (Delivered(sc.manifest) ==> SameDigest(env, before[env.Current()], Body(sc.manifest)))
  }

  /** Fetching, verifying and comparing all work. */
  ghost predicate AllReadsSucceed(env: Env, sc: Script) {
    && sc.initOk && Delivered(sc.manifest) && Delivered(sc.sig) && Delivered(sc.cert)
    && Verify.NoFaults(sc.verify) && Verify.Authentic(env.pki, Body(sc.manifest), Body(sc.sig), Body(sc.cert))
    && sc.statCurrent && sc.statInbox && Hash.Clean(sc.hashCurrent) && Hash.Clean(sc.hashInbox)
  }

  /** The manifest is read and offers `f`, whose payload arrives where its name says. */
  ghost predicate Arrives(env: Env, sc: Script, manifest: string, f: File) {
    && sc.loadOk && sc.loadLen >= |manifest| && Picks(env, manifest, f)
    && Storable(env, f) && Delivered(sc.payload)
  }

  /** ... and is intact, and applying it works. */
  ghost predicate Installable(env: Env, sc: Script, manifest: string, f: File) {
    && Arrives(env, sc, manifest, f) && Hash.Clean(sc.hashPayload) && HashMatches(env, Body(sc.payload), f)
    && Applies(sc, f)
  }

  /** ... but is not what the manifest promised, or cannot be hashed. */
  ghost predicate Refused(env: Env, sc: Script, manifest: string, f: File) {
    Arrives(env, sc, manifest, f) && (!sc.hashPayload.initOk || !HashMatches(env, Body(sc.payload), f))
  }

  predicate Applies(sc: Script, f: File) {
    && sc.promoteRename
    && (f.fileType == Some("rauc_bundle_test") || (f.fileType == Some("rauc_bundle") && sc.rauc == Exited(0)))
  }

  /** There is no current manifest, or one with another digest. */
  ghost predicate Changed(env: Env, sc: Script, before: Files) {
    env.Current() in before ==> !SameDigest(env, before[env.Current()], Body(sc.manifest))
  }

  /** What a successful update with file `f` leaves as the current manifest. */
  function Kept(env: Env, sc: Script, f: File): string {
    if OverInbox(env, f) then Body(sc.payload) else Body(sc.manifest)
  }

  /** What one attempt promises about the current manifest; `quiet` if it chose no file. */
  ghost predicate Outcome(env: Env, sc: Script, before: Files, after: Files, quiet: bool, rc: int) {
    var p, m := env.Current(), Body(sc.manifest);
    && (rc == 0 ==> Delivered(sc.manifest))
    && (rc == 0 && quiet ==> p in after && SameDigest(env, after[p], m))
    && (rc == 0 && !quiet ==> Delivered(sc.payload) && exists f :: Picks(env, m, f) && Holds(after, p, Kept(env, sc, f)))
    && (quiet ==> SameAt(before, after, p))
    && (UpToDate(env, sc, before) ==> quiet)
    && (UpToDate(env, sc, before) && AllReadsSucceed(env, sc) ==> rc == 0)
    && (AllReadsSucceed(env, sc) && Changed(env, sc, before) ==> forall f ::
          && (Installable(env, sc, m, f) ==> rc == 0 && !quiet)
          && (Refused(env, sc, m, f) ==> rc != 0 && !quiet)
          && (Refused(env, sc, m, f) && OverCurrent(env, f) ==> Holds(after, p, Body(sc.payload))))
  }

  /** A successful update ends with the promotion, and for a real install with the sync after it. */
  ghost predicate Concludes(env: Env, trace: seq<Event>, f: File) {
    trace != [] && trace[|trace| - 1] == if f.fileType == Some("rauc_bundle") then Sync else Move(env.Inbox(), env.Current())
  }

  /** Everything that the cleanup of the inbox is for, and can remove, was removed. */
  ghost predicate CleansUp(env: Env, sc: Script, before: Files, events: seq<Event>) {
    forall p :: p in before && Leftover(env, sc, p) && sc.unlinkOk(p) ==> Remove(p) in events
  }

  /** What one attempt promises about the current manifest and its events. */
  ghost predicate AttemptSpec(env: Env, sc: Script, before: Files, after: Files, events: seq<Event>, rc: int) {
    && Outcome(env, sc, before, after, Quiet(events), rc) && OnlyVerified(events, Body(sc.manifest))
    && (rc == 0 && !Quiet(events) ==> exists f :: Picks(env, Body(sc.manifest), f) && Concludes(env, events, f))
    && (sc.initOk ==> CleansUp(env, sc, before, events))
  }

  /** `next` continues `trace` with exactly one attempt. */
  ghost predicate OneAttempt(trace: seq<Event>, next: seq<Event>) {
    && |trace| < |next| && trace == next[..|trace|] && next[|trace|] == Begin
    && forall i :: |trace| < i < |next| ==> next[i] != Begin
  }

  /** `next` continues `trace` without a new attempt, and without choosing or installing unless `busy`. */
  ghost predicate Continues(trace: seq<Event>, next: seq<Event>, busy: bool) {
    && |trace| <= |next| && trace == next[..|trace|]
    && forall i :: |trace| <= i < |next| ==>
         next[i] != Begin && (busy || (!next[i].Picked? && !next[i].Install? && !next[i].Apply?))
  }

  lemma ContinuesSame(trace: seq<Event>)
    ensures Continues(trace, trace, false) && Continues(trace, trace, true)
  {
  }

  lemma ContinuesOn(a: seq<Event>, b: seq<Event>, c: seq<Event>, busy: bool)
    requires Continues(a, b, busy) && Continues(b, c, busy)
    ensures Continues(a, c, busy)
  {
    assert c[..|a|] == c[..|b|][..|a|];
    assert forall i :: |a| <= i < |b| ==> c[i] == c[..|b|][i] == b[i];
  }

  lemma ContinuesAt(a: seq<Event>, b: seq<Event>, i: nat, busy: bool)
    requires Continues(a, b, busy) && i < |a|
    ensures i < |b| && b[i] == a[i]
  {
    assert b[i] == b[..|a|][i];
  }

  lemma ContinuesBusy(a: seq<Event>, b: seq<Event>)
    requires Continues(a, b, false)
    ensures Continues(a, b, true)
  {
  }

  /** An attempt that only continues its `Begin` quietly, or goes on to choose a file. */
  lemma AttemptTrace(t: seq<Event>, next: seq<Event>, busy: bool)
    requires Continues(t + [Begin], next, busy)
    ensures OneAttempt(t, next) && (!busy ==> Quiet(next[|t|..]))
  {
    var b := t + [Begin];
    assert next[|t|] == next[..|b|][|t|] == b[|t|];
    assert next[..|t|] == next[..|b|][..|t|] == t;
    assert forall i :: 0 < i < |next[|t|..]| ==> next[|t|..][i] == next[|t| + i];
  }

  lemma NotQuiet(t: seq<Event>, i: nat, next: seq<Event>)
    requires |t| <= i < |next| && next[i].Picked?
    ensures !Quiet(next[|t|..])
  {
    assert next[|t|..][i - |t|] == next[i];
  }

  lemma ConcludesToo(env: Env, trace: seq<Event>, n: nat, f: File)
    requires n < |trace| && Concludes(env, trace, f)
    ensures Concludes(env, trace[n..], f)
  {
    assert trace[n..][|trace| - n - 1] == trace[|trace| - 1];
  }

  /** The manifest that an attempt verifies is the one its phase carries. */
  lemma VerifiedAlone(env: Env, fs: Files, trace: seq<Event>, begin: nat, manifest: string)
    requires begin < |trace| && OneAttempt(trace[..begin], trace) && Accepted(env, fs, trace)
    requires var ph := Run(env, fs, trace, |trace|).value.phase;
             ph.Idle? || ((HasManifest(ph) || ph.Promoted?) && ph.manifest == manifest)
    ensures OnlyVerified(trace[begin..], manifest)
  {
    hide Run;
    AttemptManifest(env, fs, trace, begin, |trace|);
  }

  // ---------- Cleaning the inbox ----------

  ghost function SweptPaths(paths: seq<Place>, unlinkOk: Place -> bool, n: nat): set<Place>
    requires n <= |paths|
  {
    if n == 0 then {} else SweptPaths(paths, unlinkOk, n - 1) + if unlinkOk(paths[n - 1]) then {paths[n - 1]} else {}
  }

  predicate EndsInTmp(name: string) {
    |name| >= 4 && name[|name| - 4..] == ".tmp"
  }

  lemma ListedTmp(env: Env, name: string)
    requires EndsInTmp(name)
    ensures IsTmp(At(Join(env.cwd, env.inboxDir, name)))
  {
    hide At;
    var front := name[..|name| - 4];
    assert front + ".tmp" == name;
    assert env.inboxDir + "/" + name == (env.inboxDir + "/" + front) + ".tmp";
    TmpAt(Join(env.cwd, env.inboxDir, front));
  }

  /** What the cleanup removes after `n` names of the directory listing. */
  ghost function Swept(env: Env, sc: Script, n: nat): set<Place>
    requires n <= |sc.listing|
  {
    if n == 0 then SweptPaths([env.Inbox(), env.InboxSig(), env.InboxCert()], sc.unlinkOk, 3)
    else var at := At(Join(env.cwd, env.inboxDir, sc.listing[n - 1]));
         Swept(env, sc, n - 1) + if EndsInTmp(sc.listing[n - 1]) && sc.unlinkOk(at) then {at} else {}
  }

  /** The three files of an earlier download, and whatever in the inbox ends in ".tmp". */
  ghost predicate Leftover(env: Env, sc: Script, p: Place) {
    p in {env.Inbox(), env.InboxSig(), env.InboxCert()} || ListedBefore(env, sc, |sc.listing|, p)
  }

  ghost predicate ListedBefore(env: Env, sc: Script, n: nat, p: Place) {
    exists i :: 0 <= i < n <= |sc.listing| && EndsInTmp(sc.listing[i]) && At(Join(env.cwd, env.inboxDir, sc.listing[i])) == p
  }

  lemma {:induction false} SweptIs(env: Env, sc: Script, n: nat, p: Place)
    requires n <= |sc.listing|
    ensures p in Swept(env, sc, n) <==>
            sc.unlinkOk(p) && (p in {env.Inbox(), env.InboxSig(), env.InboxCert()} || ListedBefore(env, sc, n, p))
  {
    hide At, EndsInTmp;
    if n == 0 {
      SweptThree([env.Inbox(), env.InboxSig(), env.InboxCert()], sc.unlinkOk, p);
    } else {
      SweptIs(env, sc, n - 1, p);
    }
  }

  lemma SweptThree(paths: seq<Place>, unlinkOk: Place -> bool, p: Place)
    requires |paths| == 3
    ensures p in SweptPaths(paths, unlinkOk, 3) <==> unlinkOk(p) && p in paths
  {
    assert SweptPaths(paths, unlinkOk, 1) == if unlinkOk(paths[0]) then {paths[0]} else {};
    assert SweptPaths(paths, unlinkOk, 2) == SweptPaths(paths, unlinkOk, 1) + if unlinkOk(paths[1]) then {paths[1]} else {};
  }

  /** Whatever is gone was removed by one of the events from `from` on. */
  ghost predicate RemovedSince(trace: seq<Event>, from: nat, was: Files, now: Files) {
    from <= |trace| && forall p :: p in was && p !in now ==> Remove(p) in trace[from..]
  }

  lemma NothingRemoved(trace: seq<Event>, fs: Files)
    ensures RemovedSince(trace, |trace|, fs, fs)
  {
  }

  lemma LeftoverSwept(env: Env, sc: Script, p: Place)
    ensures p in Swept(env, sc, |sc.listing|) <==> Leftover(env, sc, p) && sc.unlinkOk(p)
  {
    hide ListedBefore, Swept;
    SweptIs(env, sc, |sc.listing|, p);
  }

  lemma RemovedMore(trace: seq<Event>, from: nat, was: Files, now: Files, at: Place)
    requires RemovedSince(trace, from, was, now)
    ensures RemovedSince(trace + [Remove(at)], from, was, now - {at})
  {
    assert (trace + [Remove(at)])[from..] == trace[from..] + [Remove(at)];
  }

  /** What a cleanup removed stays in the longer trace of the attempt. */
  lemma CleanedLonger(env: Env, sc: Script, was: Files, now: Files, t0: seq<Event>, t: seq<Event>, later: seq<Event>, n: nat)
    requires RemovedSince(t, |t0|, was, now) && |t| <= |later| && later[..|t|] == t && n <= |t0|
    requires forall p :: p in now ==> !(Leftover(env, sc, p) && sc.unlinkOk(p))
    ensures CleansUp(env, sc, was, later[n..])
  {
    hide Leftover;
    forall p | p in was && Leftover(env, sc, p) && sc.unlinkOk(p) ensures Remove(p) in later[n..] {
      assert Remove(p) in t[|t0|..];
      var i :| |t0| <= i < |t| && t[i] == Remove(p);
      assert later[i] == later[..|t|][i] == later[n..][i - n];
    }
  }

  lemma CleanedAt(env: Env, sc: Script, was: Files, now: Files, t0: seq<Event>, t: seq<Event>, later: seq<Event>)
    requires RemovedSince(t, |t0|, was, now) && Continues(t, later, true)
    requires forall p :: p in now ==> !(Leftover(env, sc, p) && sc.unlinkOk(p))
    ensures forall n: nat :: n <= |t0| ==> CleansUp(env, sc, was, later[n..])
  {
    hide Leftover, CleansUp, RemovedSince;
    RemovedLength(t, |t0|, was, now);
    forall n: nat | n <= |t0| ensures CleansUp(env, sc, was, later[n..]) {
      CleanedLonger(env, sc, was, now, t0, t, later, n);
    }
  }

  lemma RemovedLength(t: seq<Event>, from: nat, was: Files, now: Files)
    requires RemovedSince(t, from, was, now)
    ensures from <= |t|
  {
  }

  lemma {:induction false} SweptAmong(paths: seq<Place>, unlinkOk: Place -> bool, n: nat)
    requires n <= |paths|
    ensures forall p :: p in SweptPaths(paths, unlinkOk, n) ==> p in paths
  {
    if n > 0 { SweptAmong(paths, unlinkOk, n - 1); }
  }

  lemma {:induction false} SweptSpares(env: Env, sc: Script, n: nat)
    requires n <= |sc.listing| && Apart(env)
    ensures env.Current() !in Swept(env, sc, n)
  {
    hide At, IsTmp, Apart;
    PathsDiffer(env);
    SweptAmong([env.Inbox(), env.InboxSig(), env.InboxCert()], sc.unlinkOk, 3);
    if n > 0 {
      SweptSpares(env, sc, n - 1);
      if EndsInTmp(sc.listing[n - 1]) { ListedTmp(env, sc.listing[n - 1]); }
    }
  }

  // ---------- Downloads ----------

  ghost predicate MayFetch(env: Env, phase: Phase, dest: Path) {
    || (phase.Idle? && dest in {env.InboxPath(), env.SigPath(), env.CertPath()})
    || (phase.Chose? && phase.got.Waiting? && dest == env.PayloadPath(phase.file))
  }

  ghost predicate MayWrite(env: Env, phase: Phase, tmp: Place) {
    || (phase.Idle? && IsTmp(tmp))
    || (phase.Chose? && !phase.got.Stored? && tmp == env.PayloadTmp(phase.file))
  }

  ghost predicate MayStore(env: Env, phase: Phase, to: Place, tmp: Place, storable: bool) {
    || (phase.Idle? && to in {env.Inbox(), env.InboxSig(), env.InboxCert()})
    || (&& phase.Chose? && phase.got.Waiting? && to == env.Payload(phase.file) && tmp == env.PayloadTmp(phase.file)
        && storable == Storable(env, phase.file))
  }

  /** The phase after writes to `tmp`, the last one of `data`. */
  ghost predicate Wrote(was: Phase, now: Phase, tmp: Place, data: string) {
    if was.Idle? then now == Idle(was.written + {tmp}) else was.Chose? && now == was.(got := Receiving(data))
  }

  ghost predicate Untouched(fs: Files, fs': Files, dest: Place, tmp: Place) {
    forall p :: p != dest && p != tmp ==> SameAt(fs, fs', p)
  }

  /** The phase a download leaves: the same, but for what it wrote. */
  ghost predicate Fetched(was: Phase, now: Phase, dest: Place, tmp: Place, body: string, ok: bool) {
    if was.Idle? then
      now.Idle? && was.written - {dest, tmp} <= now.written && (ok ==> dest in now.written)
    else
      && was.Chose? && now.Chose? && now == was.(got := now.got)
      && if ok then now.got == Stored(body) else !now.got.Stored?
  }

  /** The events of one download: writes and a removal of the temporary file, and a rename onto
      the destination as the last event exactly if the download succeeded. */
  ghost predicate FetchEvents(trace: seq<Event>, from: nat, dest: Place, tmp: Place, ok: bool) {
    && from <= |trace|
    && (forall i :: from <= i < |trace| ==>
          || (trace[i].Put? && trace[i].at == tmp)
          || trace[i] == Remove(tmp)
          || (ok && i == |trace| - 1 && trace[i] == Move(tmp, dest)))
    && (ok ==> from < |trace| && trace[|trace| - 1] == Move(tmp, dest))
  }

  lemma FetchUnlinked(trace: seq<Event>, from: nat, dest: Place, tmp: Place, fs: Files, fs': Files)
    requires FetchEvents(trace, from, dest, tmp, false) && Untouched(fs, fs', dest, tmp)
    ensures FetchEvents(trace + [Remove(tmp)], from, dest, tmp, false) && Untouched(fs, fs' - {tmp}, dest, tmp)
  {
    forall p | p != dest && p != tmp ensures SameAt(fs, fs' - {tmp}, p) { assert SameAt(fs, fs', p); }
  }

  lemma NotDelivered(fs: Files, trace: seq<Event>, dest: Place, tmp: Place, tr: Transfer)
    ensures Untouched(fs, fs, dest, tmp)
    ensures FetchEvents(trace, |trace|, dest, tmp, false) && (!tr.dirOk ==> !Delivered(tr))
    ensures Delivered(tr) ==> 200 <= tr.httpCode <= 299 && tr.performed && tr.flushOk && tr.closeOk && tr.renameOk
    ensures Delivered(tr) ==> tr.openOk && tr.initOk && forall i :: 0 <= i < |tr.chunks| ==> |tr.chunks[i].data| <= tr.chunks[i].room
    ensures tr.dirOk ==> tr.(dirOk := true) == tr
  {
  }

  lemma FetchContinues(t: seq<Event>, trace: seq<Event>, dest: Place, tmp: Place, ok: bool)
    requires FetchEvents(trace, |t|, dest, tmp, ok) && trace[..|t|] == t
    ensures Continues(t, trace, false)
  {
  }

  /** All or nothing: until the last event of a download its destination is untouched. */
  lemma {:induction false} DestinationUntouched(env: Env, fs: Files, trace: seq<Event>, from: nat, n: nat, dest: Path, ok: bool)
    requires FetchEvents(trace, from, At(dest), At(Tmp(dest)), ok) && from <= n <= |trace| && (ok ==> n < |trace|)
    requires Run(env, fs, trace, |trace|).Some?
    ensures Run(env, fs, trace, from).Some? && Run(env, fs, trace, n).Some?
    ensures SameAt(Run(env, fs, trace, from).value.fs, Run(env, fs, trace, n).value.fs, At(dest))
  {
    hide Next, IsTmp, At;
    RunPrefix(env, fs, trace, |trace|, n);
    RunPrefix(env, fs, trace, |trace|, from);
    if from < n {
      DestinationUntouched(env, fs, trace, from, n - 1, dest, ok);
      TmpAt(dest);
    }
  }

  lemma {:induction false} RunSnoc(env: Env, fs: Files, trace: seq<Event>, e: Event, n: nat)
    requires n <= |trace|
    ensures Run(env, fs, trace + [e], n) == Run(env, fs, trace, n)
  {
    hide Step;
    if n > 0 { RunSnoc(env, fs, trace, e, n - 1); }
  }

  /** A running updater: the file system it works on and the trace of what it did. */
  class Updater {
    const env: Env
    ghost const start: Files
    var fs: Files
    ghost var trace: seq<Event>
    ghost var phase: Phase

    ghost predicate Valid()
      reads this
    {
      Run(env, start, trace, |trace|) == Some(State(fs, phase))
    }

    constructor (env: Env, fs: Files)
      ensures Valid() && this.env == env && this.fs == this.start == fs && trace == []
    {
      this.env, this.start, this.fs, this.trace, this.phase := env, fs, fs, [], Off;
    }

    method Do(e: Event)
      requires Valid() && Next(env, fs, phase, e).Some?
      modifies this
      ensures Valid() && trace == old(trace) + [e] && fs == Effect(old(fs), e)
      ensures Some(phase) == Next(env, old(fs), old(phase), e)
    {
      hide Next, Effect;
      RunSnoc(env, start, trace, e, |trace|);
      ghost var next := Next(env, fs, phase, e);
      fs := Effect(fs, e);
      trace := trace + [e];
      phase := next.value;
    }

    /** The write callback, once per chunk; stops at the first short write. */
    method Receive(tmp: Place, chunks: seq<Chunk>) returns (ok: bool)
      requires Valid() && MayWrite(env, phase, tmp)
      modifies this
      ensures Valid() && tmp in fs && Wrote(old(phase), phase, tmp, fs[tmp])
      ensures |old(trace)| < |trace| && trace[..|old(trace)|] == old(trace)
      ensures forall i :: |old(trace)| <= i < |trace| ==> trace[i].Put? && trace[i].at == tmp
      ensures ok == AllFit(chunks)
      ensures tmp in fs && fs == old(fs)[tmp := fs[tmp]] && (ok ==> fs[tmp] == BodyTo(chunks, |chunks|))
    {
      hide Run, Verify.Authentic, Picks, HashMatches, At, IsTmp, Storable, BodyTo;
      NoBody(chunks);
      Do(Put(tmp, ""));
      var got := "";
      for k := 0 to |chunks|
        invariant Valid() && Wrote(old(phase), phase, tmp, got)
        invariant |old(trace)| < |trace| && trace[..|old(trace)|] == old(trace)
        invariant forall i :: |old(trace)| <= i < |trace| ==> trace[i].Put? && trace[i].at == tmp
        invariant fs == old(fs)[tmp := got] && got == BodyTo(chunks, k)
        invariant forall i :: 0 <= i < k ==> |chunks[i].data| <= chunks[i].room
      {
        BodyStep(chunks, k);
        var n := Min(|chunks[k].data|, chunks[k].room);
        if |chunks[k].data| > 0 {
          got := got + chunks[k].data[..n];
          Do(Put(tmp, got));
        }
        if n < |chunks[k].data| { return false; }
      }
      return true;
    }

    /** Opens the temporary file, receives into it and renames it. */
    method Download(to: Place, tmp: Place, storable: bool, tr: Transfer) returns (ok: bool)
      requires Valid() && MayStore(env, phase, to, tmp, storable) && IsTmp(tmp) && to != tmp
      modifies this
      ensures Valid() && Fetched(old(phase), phase, to, tmp, Body(tr), ok)
      ensures |old(trace)| <= |trace| && trace[..|old(trace)|] == old(trace) && FetchEvents(trace, |old(trace)|, to, tmp, ok)
      ensures ok <==> Delivered(tr.(dirOk := true)) && storable
      ensures if ok then Holds(fs, to, Body(tr)) && tmp !in fs else SameAt(old(fs), fs, to)
      ensures Untouched(old(fs), fs, to, tmp)
    {
      hide Verify.Authentic, Picks, HashMatches, BodyTo, AllFit, Run, IsTmp, At, Storable;
      PathsDiffer(env);
      if !tr.openOk { return false; }
      ok := Receive(tmp, if tr.initOk then tr.chunks else []);
      ok := tr.initOk && ok && tr.performed && 200 <= tr.httpCode < 300 && tr.flushOk && tr.closeOk && tr.renameOk && storable;
      if ok { Do(Move(tmp, to)); }
    }

    /** `fetch_file`; `storable` is whether the kernel lets a file be renamed to `dest`. */
    method FetchFile(dest: Path, storable: bool, tr: Transfer) returns (rc: int)
      requires Valid() && MayFetch(env, phase, dest) && (phase.Chose? ==> storable == Storable(env, phase.file))
      modifies this
      ensures Valid() && Fetched(old(phase), phase, At(dest), At(Tmp(dest)), Body(tr), rc == 0)
      ensures |old(trace)| <= |trace| && trace[..|old(trace)|] == old(trace)
      ensures FetchEvents(trace, |old(trace)|, At(dest), At(Tmp(dest)), rc == 0) && Continues(old(trace), trace, false)
      ensures rc == 0 <==> Delivered(tr) && storable
      ensures rc == 0 ==> 200 <= tr.httpCode <= 299 && tr.performed && tr.flushOk && tr.closeOk && tr.renameOk
      ensures rc == 0 ==> tr.dirOk && tr.openOk && tr.initOk && forall i :: 0 <= i < |tr.chunks| ==> |tr.chunks[i].data| <= tr.chunks[i].room
      ensures if rc == 0 then Holds(fs, At(dest), Body(tr)) else SameAt(old(fs), fs, At(dest))
      ensures Untouched(old(fs), fs, At(dest), At(Tmp(dest)))
      ensures tr.dirOk && (rc == 0 || tr.unlinkOk) ==> At(Tmp(dest)) !in fs
    {
      hide Verify.Authentic, Picks, HashMatches, BodyTo, AllFit, Run, IsTmp, At, Storable, Continues, FetchEvents, Delivered,
           Untouched;
      var to, tmp := At(dest), At(Tmp(dest));
      TmpAt(dest);
      PathsDiffer(env);
      ContinuesSame(trace);
      NotDelivered(fs, trace, to, tmp, tr);
      if !tr.dirOk { return -1; }
      var ok := Download(to, tmp, storable, tr);
      if !ok && tr.unlinkOk && tmp in fs {
        FetchUnlinked(trace, |old(trace)|, to, tmp, old(fs), fs);
        Do(Remove(tmp));
      }
      rc := if ok then 0 else -1;
      FetchContinues(old(trace), trace, to, tmp, rc == 0);
    }

    /** `ota_inbox_cleanup`: the three manifest files, then every name in the inbox that ends in ".tmp". */
    method CleanInbox(sc: Script)
      requires Valid() && phase.Idle? && Apart(env)
      modifies this
      ensures Valid() && phase.Idle? && Continues(old(trace), trace, false)
      ensures forall p :: p in fs <==> p in old(fs) && !(Leftover(env, sc, p) && sc.unlinkOk(p))
      ensures forall p :: p in fs ==> fs[p] == old(fs)[p]
      ensures RemovedSince(trace, |old(trace)|, old(fs), fs) && SameAt(old(fs), fs, env.Current())
    {
      hide Verify.Authentic, Picks, HashMatches, Run, Continues, At, IsTmp, Apart, Storable, RemovedSince, Leftover;
      PathsDiffer(env);
      ContinuesSame(trace);
      NothingRemoved(trace, fs);
      var paths := [env.Inbox(), env.InboxSig(), env.InboxCert()];
      for i := 0 to |paths|
        invariant Valid() && phase.Idle? && Continues(old(trace), trace, false)
        invariant fs == old(fs) - SweptPaths(paths, sc.unlinkOk, i) && RemovedSince(trace, |old(trace)|, old(fs), fs)
      {
        if sc.unlinkOk(paths[i]) && paths[i] in fs {
          RemovedMore(trace, |old(trace)|, old(fs), fs, paths[i]);
          RemoveQuietly(paths[i]);
        }
      }
      CleanTemporaries(sc, old(fs), old(trace));
      SweptSpares(env, sc, |sc.listing|);
      forall p ensures p in Swept(env, sc, |sc.listing|) <==> Leftover(env, sc, p) && sc.unlinkOk(p) {
        LeftoverSwept(env, sc, p);
      }
    }

    method CleanTemporaries(sc: Script, ghost f0: Files, ghost t0: seq<Event>)
      requires Valid() && phase.Idle? && Continues(t0, trace, false) && fs == f0 - Swept(env, sc, 0)
      requires RemovedSince(trace, |t0|, f0, fs)
      modifies this
      ensures Valid() && phase.Idle? && Continues(t0, trace, false) && fs == f0 - Swept(env, sc, |sc.listing|)
      ensures RemovedSince(trace, |t0|, f0, fs)
    {
      hide Verify.Authentic, Picks, HashMatches, Run, Continues, At, IsTmp, Storable, RemovedSince;
      PathsDiffer(env);
      for i := 0 to |sc.listing|
        invariant Valid() && phase.Idle? && Continues(t0, trace, false) && fs == f0 - Swept(env, sc, i)
        invariant RemovedSince(trace, |t0|, f0, fs)
      {
        var name := sc.listing[i];
        if |name| < 4 || name[|name| - 4..] != ".tmp" { continue; }
        var at := At(Join(env.cwd, env.inboxDir, name));
        ListedTmp(env, name);
        if sc.unlinkOk(at) && at in fs {
          RemovedMore(trace, |t0|, f0, fs, at);
          RemoveQuietly(at);
        }
      }
    }

    method RemoveQuietly(at: Place)
      requires Valid() && phase.Idle? && at != env.Current()
      modifies this
      ensures Valid() && phase.Idle? && fs == old(fs) - {at} && trace == old(trace) + [Remove(at)]
      ensures forall t :: Continues(t, old(trace), false) ==> Continues(t, trace, false)
    {
      hide Verify.Authentic, Picks, HashMatches, Run, At, IsTmp, Storable;
      ghost var t0 := trace;
      Do(Remove(at));
      assert Continues(t0, trace, false);
      forall t | Continues(t, t0, false) ensures Continues(t, trace, false) { ContinuesOn(t, t0, trace, false); }
    }

    /** `fetch_new_manifest`: all three downloads are tried, and all must succeed. */
    method FetchNewManifest(sc: Script) returns (rc: int)
      requires Valid() && phase.Idle? && Apart(env)
      modifies this
      ensures Valid() && phase.Idle? && Continues(old(trace), trace, false)
      ensures SameAt(old(fs), fs, env.Current())
      ensures rc == 0 <==> Delivered(sc.manifest) && Delivered(sc.sig) && Delivered(sc.cert)
      ensures rc == 0 ==> && Holds(fs, env.Inbox(), Body(sc.manifest)) && Holds(fs, env.InboxSig(), Body(sc.sig))
                          && Holds(fs, env.InboxCert(), Body(sc.cert)) && env.Inbox() in phase.written
    {
      hide Verify.Authentic, Picks, HashMatches, Run, IsTmp, At, BodyTo, Delivered, Continues, FetchEvents, Apart, Storable;
      PathsDiffer(env);
      TmpAt(env.InboxPath());
      TmpAt(env.SigPath());
      TmpAt(env.CertPath());
      ghost var f0 := fs;
      var rc1 := FetchFile(env.InboxPath(), true, sc.manifest);
      ghost var f1, t1 := fs, trace;
      assert SameAt(f0, f1, env.Current());
      var rc2 := FetchFile(env.SigPath(), true, sc.sig);
      ghost var f2, t2 := fs, trace;
      ContinuesOn(old(trace), t1, t2, false);
      assert SameAt(f1, f2, env.Current()) && SameAt(f1, f2, env.Inbox());
      var rc3 := FetchFile(env.CertPath(), true, sc.cert);
      assert SameAt(f2, fs, env.Current()) && SameAt(f2, fs, env.Inbox()) && SameAt(f2, fs, env.InboxSig());
      ContinuesOn(old(trace), t2, trace, false);
      rc := if rc1 != 0 || rc2 != 0 || rc3 != 0 then 1 else 0;
    }

    function Read(at: Place): Option<string>
      reads this
    {
      if at in fs then Some(fs[at]) else None
    }

    /** `validate_new_manifest`. */
    method ValidateNewManifest(sc: Script) returns (rc: int)
      requires Valid() && phase.Idle? && env.Inbox() in phase.written
      modifies this
      ensures Valid() && Continues(old(trace), trace, false) && fs == old(fs)
      ensures if rc == 0 then env.Inbox() in fs && phase == Trusted(fs[env.Inbox()]) else phase.Idle?
      ensures (&& env.Inbox() in fs && env.InboxSig() in fs && env.InboxCert() in fs && Verify.NoFaults(sc.verify)
               && Verify.Authentic(env.pki, fs[env.Inbox()], fs[env.InboxSig()], fs[env.InboxCert()])) ==> rc == 0
    {
      hide Picks, HashMatches, Run, IsTmp, At, Storable;
      var m, s, c := Read(env.Inbox()), Read(env.InboxSig()), Read(env.InboxCert());
      var r := Verify.VerifySignatureWithCert(env.pki, m, s, c, sc.verify);
      if r != Verify.Ok { return -1; }
      Do(Verified(m.value, s.value, c.value));
      return 0;
    }

    /** `compare_manifests` and `files_equal`: by digest, not by bytes. */
    method CompareManifests(sc: Script) returns (r: Comparison)
      requires ProperDigest(env) && env.Inbox() in fs
      ensures r == Equal ==> && sc.statCurrent && env.Current() in fs
                             && Hash.Digest(env.hasher, fs[env.Current()]) == Hash.Digest(env.hasher, fs[env.Inbox()])
      ensures r == Different && sc.statCurrent && env.Current() in fs ==>
                Hash.Digest(env.hasher, fs[env.Current()]) != Hash.Digest(env.hasher, fs[env.Inbox()])
      ensures !sc.statCurrent || env.Current() !in fs ==> r == Different
      ensures sc.statCurrent && sc.statInbox && Hash.Clean(sc.hashCurrent) && Hash.Clean(sc.hashInbox) ==> r != Failed
    {
      if !(sc.statCurrent && env.Current() in fs) { return Different; }
      if !sc.statInbox { return Failed; }
      var rc1, hash1 := Hash.Sha256SumFile(env.hasher, Read(env.Current()), sc.hashCurrent);
      var rc2, hash2 := Hash.Sha256SumFile(env.hasher, Read(env.Inbox()), sc.hashInbox);
      if rc1 != Hash.Ok || rc2 != Hash.Ok { return Failed; }
      return if hash1 == hash2 then Equal else Different;
    }

    /** `manifest_load`; a short read is parsed as it is. */
    method LoadInbox(sc: Script) returns (m: Option<Manifest>)
      requires env.Inbox() in fs && PrefixStable(env)
      ensures m.Some? ==> env.parse(fs[env.Inbox()]).Some? && m == ManifestOf(env.parse(fs[env.Inbox()]).value)
      ensures forall f :: sc.loadOk && sc.loadLen >= |fs[env.Inbox()]| && Picks(env, fs[env.Inbox()], f) ==> m.Some?
    {
      if !sc.loadOk { return None; }
      var data := fs[env.Inbox()];
      assert data[..|data|] == data;
      var root := env.parse(data[..Min(sc.loadLen, |data|)]);
      if root.None? { return None; }
      m := LoadManifest(root.value);
    }

    /** The first half of `fetch_release`: the release for this device and its first file, if
        every field the runtime needs is there. */
    method ChooseFile(manifest: string, m: Manifest) returns (file: Option<File>)
      requires env.parse(manifest).Some? && ManifestOf(env.parse(manifest).value) == Some(m)
      ensures file.Some? ==> Picks(env, manifest, file.value)
      ensures forall f :: Picks(env, manifest, f) ==> file == Some(f)
    {
      var i := SelectRelease(m, env.device);
      forall f, k: nat | i.Some? && Chosen(m, env.device, k) && IsFirst(m.releases[k], f) ensures k == i.value {
        ChosenUnique(m, env.device, k, i.value);
      }
      if i.None? { return None; }
      var release := m.releases[i.value];
      if release.files == [] { return None; }
      var f := release.files[0];
      if f.filename.None? || f.path.None? || f.sha256.None? || f.fileType.None? { return None; }
      assert Chosen(m, env.device, i.value) && IsFirst(m.releases[i.value], f);
      return Some(f);
    }

    /** The second half of `fetch_release`: downloads the payload. */
    method FetchPayload(sc: Script, file: File) returns (rc: int)
      requires Valid() && phase.Trusted? && Picks(env, phase.manifest, file)
      modifies this
      ensures Valid() && Continues(old(trace), trace, true) && phase.Chose?
      ensures phase.manifest == old(phase).manifest && phase.file == file
      ensures rc == 0 ==> phase.got == Stored(Body(sc.payload))
      ensures !OverInbox(env, file) ==> SameAt(old(fs), fs, env.Inbox())
      ensures env.Inbox() in old(fs) ==> env.Inbox() in fs
      ensures rc == 0 <==> Delivered(sc.payload) && Storable(env, file)
      ensures rc == 0 ==> Holds(fs, env.Payload(file), Body(sc.payload))
      ensures |old(trace)| < |trace| && trace[|old(trace)|].Picked?
    {
      hide Verify.Authentic, HashMatches, Run, IsTmp, At, BodyTo, Delivered, Picks, Storable;
      var dest := env.PayloadPath(file);
      PathsDiffer(env);
      TmpAt(dest);
      Do(Picked(file));
      ghost var f0 := fs;
      rc := FetchFile(dest, Storable(env, file), sc.payload);
      assert At(dest) != env.Inbox() ==> SameAt(f0, fs, env.Inbox());
    }

    /** `validate_release`: the hex digest of the payload must be the manifest's, letter by letter. */
    method ValidateRelease(sc: Script, file: File) returns (rc: int)
      requires Valid() && phase.Chose? && phase.file == file && env.Payload(file) in fs && ProperDigest(env)
      requires phase.got == Stored(fs[env.Payload(file)])
      modifies this
      ensures Valid() && Continues(old(trace), trace, true) && fs == old(fs)
      ensures if rc == 0 then phase == Checked(old(phase).manifest, file, fs[env.Payload(file)]) else phase == old(phase)
      ensures rc == 0 ==> sc.hashPayload.initOk && HashMatches(env, fs[env.Payload(file)], file)
      ensures Hash.Clean(sc.hashPayload) && HashMatches(env, fs[env.Payload(file)], file) ==> rc == 0
    {
      hide Verify.Authentic, Picks, Run, IsTmp, At, Storable;
      if file.sha256.None? { return -1; }
      var r, hash := Hash.Sha256SumFile(env.hasher, Read(env.Payload(file)), sc.hashPayload);
      if r != Hash.Ok { return -1; }
      var hashString := new char[Hash.DIGEST_LEN * 2 + 1];
      var code := Hash.HexEncode(hashString, hash);
      if code != 0 { return -1; }
      if hashString[..Hash.DIGEST_LEN * 2] != file.sha256.value { return -1; }
      Do(Matched(fs[env.Payload(file)]));
      return 0;
    }

    /** `make_new_manifest_current`: unlink, then rename; a crash may come between the two. */
    method MakeNewManifestCurrent(sc: Script) returns (rc: int)
      requires Valid() && phase.Applied? && Apart(env) && env.Inbox() in fs
      modifies this
      ensures Valid() && Continues(old(trace), trace, true)
      ensures rc == 0 <==> sc.promoteRename
      ensures rc == 0 ==> trace != [] && trace[|trace| - 1] == Move(env.Inbox(), env.Current())
      ensures if rc == 0 then && phase == Promoted(old(phase).manifest, old(phase).file, old(phase).payload)
                              && fs == (old(fs) - {env.Inbox()})[env.Current() := old(fs)[env.Inbox()]]
              else phase == old(phase) && fs == if sc.promoteUnlink then old(fs) - {env.Current()} else old(fs)
    {
      hide Verify.Authentic, Picks, HashMatches, Run, IsTmp, At, Storable, Apart;
      PathsDiffer(env);
      if sc.promoteUnlink && env.Current() in fs {
        Do(Remove(env.Current()));
      }
      if !sc.promoteRename { return -1; }
      Do(Move(env.Inbox(), env.Current()));
      return 0;
    }

    /** The branch of `apply_release` that only simulates an install. */
    method Simulate(sc: Script) returns (rc: int)
      requires Valid() && phase.Checked? && phase.file.fileType == Some("rauc_bundle_test") && Apart(env) && env.Inbox() in fs
      modifies this
      ensures Valid() && Continues(old(trace), trace, true)
      ensures if rc == 0 then phase.Promoted? && Holds(fs, env.Current(), old(fs)[env.Inbox()]) else phase.Applied?
      ensures phase.manifest == old(phase).manifest && phase.file == old(phase).file
      ensures rc == if sc.promoteRename then 0 else -1
      ensures rc == 0 ==> Concludes(env, trace, phase.file)
    {
      hide Verify.Authentic, Picks, HashMatches, Run, IsTmp, At, Storable, Apart;
      Do(Apply(None));
      var made := MakeNewManifestCurrent(sc);
      return if made != 0 then -1 else 0;
    }

    /** The branch that hands the payload to RAUC, up to the reboot. */
    method HandToRauc(sc: Script, file: File) returns (rc: int)
      requires Valid() && phase.Checked? && phase.file == file && file.fileType == Some("rauc_bundle") && Apart(env)
      requires env.Inbox() in fs && Holds(fs, env.Payload(file), phase.payload)
      modifies this
      ensures Valid() && Continues(old(trace), trace, true)
      ensures if rc == 0 then phase.Promoted? && Holds(fs, env.Current(), old(fs)[env.Inbox()])
              else phase.Checked? || phase.Installing? || phase.Applied?
      ensures phase.manifest == old(phase).manifest && phase.file == old(phase).file
      ensures rc == if sc.rauc != Exited(0) then -1 else if sc.promoteRename then 0 else 1
      ensures rc == 0 ==> Concludes(env, trace, phase.file)
    {
      hide Verify.Authentic, Picks, HashMatches, Run, IsTmp, At, Storable, Apart;
      if sc.rauc.ForkFailed? { return -1; }
      Do(Install(fs[env.Payload(file)]));
      if sc.rauc.WaitFailed? { return -1; }
      if !(sc.rauc.Exited? && sc.rauc.code == 0) { return -1; }
      Do(Apply(Some(sc.rauc.code)));
      var made := MakeNewManifestCurrent(sc);
      if made != 0 { return 1; }
      Do(Sync);
      return 0;
    }

    /** `apply_release`, up to the reboot. */
    method ApplyRelease(sc: Script, file: File) returns (rc: int)
      requires Valid() && phase.Checked? && phase.file == file && Apart(env)
      requires env.Inbox() in fs && Holds(fs, env.Payload(file), phase.payload)
      modifies this
      ensures Valid() && Continues(old(trace), trace, true)
      ensures (if rc == 0 then phase.Promoted? && Holds(fs, env.Current(), old(fs)[env.Inbox()])
               else phase.Checked? || phase.Installing? || phase.Applied?)
              && phase.manifest == old(phase).manifest && phase.file == file
      ensures rc == 0 <==> Applies(sc, file)
      ensures rc == 0 ==> Concludes(env, trace, file)
      ensures rc != 0 ==> rc == if file.fileType.Some? && (!KnownType(file) || (file.fileType.value == "rauc_bundle" && sc.rauc == Exited(0)))
                                then 1 else -1
    {
      hide Verify.Authentic, Picks, HashMatches, Run, IsTmp, At, Storable, Apart, Concludes, Continues, Next;
      ContinuesSame(trace);
      if file.fileType.None? { return -1; }
      if file.fileType.value == "rauc_bundle_test" {
        rc := Simulate(sc);
      } else if file.fileType.value == "rauc_bundle" {
        rc := HandToRauc(sc, file);
      } else {
        return 1;
      }
    }

    /** Everything from the changed manifest on. */
    method Update(sc: Script) returns (rc: int)
      requires Valid() && phase.Trusted? && Assumptions(env) && Holds(fs, env.Inbox(), phase.manifest)
      modifies this
      ensures Valid() && Continues(old(trace), trace, true)
      ensures if rc == 0 then phase.Promoted? else HasManifest(phase)
      ensures phase.manifest == old(phase).manifest
      ensures rc == 0 ==> && Picks(env, phase.manifest, phase.file) && Delivered(sc.payload) && Concludes(env, trace, phase.file)
                          && Holds(fs, env.Current(), if OverInbox(env, phase.file) then Body(sc.payload) else phase.manifest)
      ensures if phase.Trusted? then Continues(old(trace), trace, false) && fs == old(fs)
              else |old(trace)| < |trace| && trace[|old(trace)|].Picked?
      ensures forall f :: Installable(env, sc, phase.manifest, f) ==> rc == 0
      ensures forall f :: Refused(env, sc, phase.manifest, f) ==> rc != 0 && !phase.Trusted?
      ensures forall f :: Refused(env, sc, phase.manifest, f) && OverCurrent(env, f) ==>
                Holds(fs, env.Current(), Body(sc.payload))
    {
      hide Verify.Authentic, HashMatches, Run, IsTmp, Picks, Next, Continues, At, Storable, BodyTo, Delivered;
      ContinuesSame(trace);
      ghost var t0 := trace;
      var m := LoadInbox(sc);
      if m.None? { return -1; }
      var file := ChooseFile(fs[env.Inbox()], m.value);
      if file.None? { return -1; }
      rc := FetchPayload(sc, file.value);
      if rc != 0 { return; }
      ghost var t1 := trace;
      rc := ValidateRelease(sc, file.value);
      ContinuesOn(t0, t1, trace, true);
      ContinuesAt(t1, trace, |t0|, true);
      if rc != 0 { return; }
      ghost var t2 := trace;
      rc := ApplyRelease(sc, file.value);
      ContinuesOn(t0, t2, trace, true);
      ContinuesAt(t2, trace, |t0|, true);
    }

    /** The steps of an attempt. */
    method Proceed(sc: Script) returns (rc: int, ghost quiet: bool)
      requires Valid() && phase.Idle? && Assumptions(env)
      modifies this
      ensures Valid() && Outcome(env, sc, old(fs), fs, quiet, rc) && Continues(old(trace), trace, true)
      ensures quiet ==> Continues(old(trace), trace, false)
      ensures !quiet ==> exists i :: |old(trace)| <= i < |trace| && trace[i].Picked?
      ensures phase.Idle? || ((HasManifest(phase) || phase.Promoted?) && phase.manifest == Body(sc.manifest))
      ensures rc == 0 && !quiet ==> phase.Promoted? && Picks(env, phase.manifest, phase.file) && Concludes(env, trace, phase.file)
      ensures forall n: nat :: sc.initOk && n <= |old(trace)| ==> CleansUp(env, sc, old(fs), trace[n..])
    {
      hide Verify.Authentic, HashMatches, Run, IsTmp, Picks, Continues, BodyTo, Delivered, PrefixStable,
           ProperDigest, At, Storable, Apart, CleansUp, RemovedSince, Leftover, Concludes;
      ghost var t0, f0, p := trace, fs, env.Current();
      quiet := true;
      ContinuesSame(t0);
      if !sc.initOk { return -1, quiet; }
      CleanInbox(sc);
      ContinuesBusy(t0, trace);
      ghost var t1, f1 := trace, fs;
      ContinuesSame(t1);
      CleanedAt(env, sc, f0, f1, t0, t1, trace);
      rc := FetchNewManifest(sc);
      ContinuesOn(t0, t1, trace, false);
      ContinuesBusy(t0, trace);
      ContinuesBusy(t1, trace);
      CleanedAt(env, sc, f0, f1, t0, t1, trace);
      if rc != 0 { return; }
      ghost var t2 := trace;
      rc := ValidateNewManifest(sc);
      ContinuesOn(t0, t2, trace, false);
      ContinuesBusy(t0, trace);
      ContinuesOn(t1, t2, trace, false);
      ContinuesBusy(t1, trace);
      CleanedAt(env, sc, f0, f1, t0, t1, trace);
      if rc != 0 { return; }
      var cmp := CompareManifests(sc);
      if cmp == Equal { return 0, quiet; }
      if cmp == Failed { return -1, quiet; }
      assert !UpToDate(env, sc, f0);
      ghost var t3 := trace;
      rc := Update(sc);
      quiet := phase.Trusted?;
      ContinuesOn(t0, t3, trace, true);
      ContinuesOn(t1, t3, trace, true);
      CleanedAt(env, sc, f0, f1, t0, t1, trace);
      if quiet { ContinuesOn(t0, t3, trace, false); }
    }

    /** One turn of the loop in `ota_fetch_run` up to `attempt_end`. */
    method Attempt(sc: Script) returns (rc: int)
      requires Valid() && Assumptions(env)
      modifies this
      ensures Valid() && OneAttempt(old(trace), trace)
      ensures AttemptSpec(env, sc, old(fs), fs, trace[|old(trace)|..], rc)
    {
      hide Verify.Authentic, HashMatches, Run, IsTmp, Picks, Continues, OneAttempt, Quiet, Outcome, Assumptions, At, Storable,
           CleansUp, Concludes, OnlyVerified;
      ghost var t0 := trace;
      Do(Begin);
      ghost var quiet;
      rc, quiet := Proceed(sc);
      AttemptTrace(t0, trace, true);
      if quiet {
        AttemptTrace(t0, trace, false);
      } else {
        var i :| |t0| < i < |trace| && trace[i].Picked?;
        NotQuiet(t0, i, trace);
      }
      VerifiedAlone(env, start, trace, |t0|, Body(sc.manifest));
      if rc == 0 && !quiet { ConcludesToo(env, trace, |t0|, phase.file); }
    }

    /** The loop of `ota_fetch_run`.  `turns` holds what each turn meets; a loop still going when
        they run out returns `None`, so every finite part of an endless run is covered. */
    method RunLoop(daemon: bool, retryAttempts: int, turns: seq<Turn>)
      returns (code: Option<int>, rcs: seq<int>, ghost logs: seq<Log>)
      requires Valid() && Assumptions(env)
      modifies this
      ensures |logs| == |rcs| <= |turns| && (code.Some? ==> rcs != []) && (code.None? ==> |rcs| == |turns|)
      ensures Valid() && Accepted(env, start, trace)
      ensures CleanRun(env, trace, |trace|) ==> AlwaysSafe(env, start, trace)
      ensures CleanRun(env, old(trace), |old(trace)|) && AllServedClean(env, turns, |rcs|) ==> CleanRun(env, trace, |trace|)
      ensures daemon ==> code == if rcs != [] && turns[|rcs| - 1].terminated then Some(0) else None
      ensures !daemon && |turns| >= Max(1, retryAttempts) ==>
                && 1 <= |rcs| <= Max(1, retryAttempts) && code.Some?
                && (code == Some(0) <==>
                      rcs[|rcs| - 1] == 0 || (|rcs| < Max(1, retryAttempts) && turns[|rcs| - 1].terminated))
      ensures !daemon && code.Some? && code != Some(0) ==> |rcs| == Max(1, retryAttempts) && code == Some(rcs[|rcs| - 1])
      ensures forall i :: 0 <= i < |rcs| - 1 ==> !turns[i].terminated && (!daemon ==> rcs[i] != 0)
      ensures Chained(env, old(fs), logs) && fs == FilesAfter(old(fs), logs)
      ensures trace == old(trace) + AllEvents(logs)
      ensures forall i :: 0 <= i < |logs| ==> logs[i].script == turns[i].script && logs[i].rc == rcs[i]
    {
      hide Run, AttemptSpec, PrefixStable, ProperDigest, Apart, Chained, AllEvents, FilesAfter, AlwaysSafe, CleanRun, AllServedClean,
           OneAttempt;
      rcs, logs := [], [];
      ChainedNone(env, fs);
      var attempt := 0;
      while |rcs| < |turns|
        invariant Valid() && |logs| == |rcs| <= |turns| && Chained(env, old(fs), logs) && fs == FilesAfter(old(fs), logs)
        invariant trace == old(trace) + AllEvents(logs)
        invariant forall i :: 0 <= i < |logs| ==> logs[i].script == turns[i].script && logs[i].rc == rcs[i]
        invariant forall i :: 0 <= i < |rcs| ==> !turns[i].terminated
        invariant !daemon ==> attempt == |rcs| && (forall i :: 0 <= i < |rcs| ==> rcs[i] != 0)
        invariant !daemon ==> |rcs| == 0 || |rcs| < retryAttempts
        invariant CleanRun(env, old(trace), |old(trace)|) && AllServedClean(env, turns, |rcs|) ==> CleanRun(env, trace, |trace|)
        decreases |turns| - |rcs|
      {
        var turn := turns[|rcs|];
        ghost var before, seen := fs, trace;
        var rc := Attempt(turn.script);
        SplitAttempt(seen, trace);
        ghost var log := Log(turn.script, before, fs, trace[|seen|..], rc);
        ChainedSnoc(env, old(fs), logs, log);
        CleanMore(env, turns, |rcs|, seen, log);
        rcs, logs := rcs + [rc], logs + [log];
        SafePrefixes(env, start, trace);
        if rc == 0 && !daemon { return Some(0), rcs, logs; }
        if !daemon {
          attempt := attempt + 1;
          if attempt >= retryAttempts { return Some(rc), rcs, logs; }
        }
        if turn.terminated { return Some(0), rcs, logs; }
      }
      SafePrefixes(env, start, trace);
      code := None;
    }
  }

  datatype Comparison = Equal | Different | Failed

  // ---------- The loop ----------

  /** One turn of the loop: the attempt's surroundings, and whether the termination flag is seen
      after the sleep that follows it. */
  datatype Turn = Turn(script: Script, terminated: bool)

  function Max(a: int, b: int): int {
    if a >= b then a else b
  }

  lemma SplitAttempt(seen: seq<Event>, trace: seq<Event>)
    requires OneAttempt(seen, trace)
    ensures |seen| < |trace| && trace == seen + trace[|seen|..]
  {
  }

  /** The current manifest is safe after every event. */
  ghost predicate AlwaysSafe(env: Env, fs: Files, trace: seq<Event>) {
    forall n: nat :: n <= |trace| ==> Run(env, fs, trace, n).Some? && SafeAt(env, fs, trace, n)
  }

  /** Whatever happens and wherever it stops, an accepted run never leaves a partial or unverified
      current manifest. */
  lemma SafePrefixes(env: Env, fs: Files, trace: seq<Event>)
    requires Apart(env) && Accepted(env, fs, trace)
    ensures CleanRun(env, trace, |trace|) ==> AlwaysSafe(env, fs, trace)
  {
    hide Run, SafeAt, CollisionFree, Apart;
    if CleanRun(env, trace, |trace|) {
      forall n: nat | n <= |trace| ensures Run(env, fs, trace, n).Some? && SafeAt(env, fs, trace, n) {
        RunPrefix(env, fs, trace, |trace|, n);
        CurrentManifestSafe(env, fs, trace, n);
      }
    }
  }

  /** None of the manifests served in the first `n` turns collides. */
  ghost predicate AllServedClean(env: Env, turns: seq<Turn>, n: nat) {
    n <= |turns| && forall i :: 0 <= i < n ==> CollisionFree(env, Body(turns[i].script.manifest))
  }

  /** A run verifies only what it was served. */
  lemma CleanMore(env: Env, turns: seq<Turn>, n: nat, seen: seq<Event>, log: Log)
    requires n < |turns| && turns[n].script == log.script
    requires AttemptSpec(env, log.script, log.before, log.after, log.events, log.rc)
    ensures AllServedClean(env, turns, n + 1) ==> AllServedClean(env, turns, n)
    ensures AllServedClean(env, turns, n + 1) && CleanRun(env, seen, |seen|) ==>
              CleanRun(env, seen + log.events, |seen + log.events|)
  {
    hide CollisionFree, Outcome, Body;
  }

  /** What one attempt of a run did. */
  datatype Log = Log(script: Script, before: Files, after: Files, events: seq<Event>, rc: int)

  ghost function FilesAfter(fs: Files, logs: seq<Log>): Files {
    if logs == [] then fs else logs[|logs| - 1].after
  }

  ghost function AllEvents(logs: seq<Log>): seq<Event> {
    if logs == [] then [] else AllEvents(logs[..|logs| - 1]) + logs[|logs| - 1].events
  }

  /** Attempt `i` keeps its contract and starts from the files the one before it left. */
  ghost predicate Linked(env: Env, fs: Files, logs: seq<Log>, i: nat)
    requires i < |logs|
  {
    && logs[i].before == (if i == 0 then fs else logs[i - 1].after)
    && AttemptSpec(env, logs[i].script, logs[i].before, logs[i].after, logs[i].events, logs[i].rc)
  }

  ghost predicate Chained(env: Env, fs: Files, logs: seq<Log>) {
    forall i :: 0 <= i < |logs| ==> Linked(env, fs, logs, i)
  }

  lemma ChainedNone(env: Env, fs: Files)
    ensures Chained(env, fs, []) && FilesAfter(fs, []) == fs && AllEvents([]) == []
  {
  }

  lemma ChainedSnoc(env: Env, fs: Files, logs: seq<Log>, log: Log)
    requires Chained(env, fs, logs) && log.before == FilesAfter(fs, logs)
    requires AttemptSpec(env, log.script, log.before, log.after, log.events, log.rc)
    ensures Chained(env, fs, logs + [log]) && FilesAfter(fs, logs + [log]) == log.after
    ensures AllEvents(logs + [log]) == AllEvents(logs) + log.events
  {
    hide AttemptSpec;
    var more := logs + [log];
    assert more[..|logs|] == logs;
    forall i | 0 <= i < |more| ensures Linked(env, fs, more, i) {
      if i < |logs| { assert Linked(env, fs, logs, i); }
    }
  }

  /** The server still serves the manifest of attempt `j`, as far as its digest can tell, and the
      current manifest can be seen. */
  ghost predicate StillServes(env: Env, logs: seq<Log>, j: nat, i: nat)
    requires j < |logs| && i < |logs|
  {
    && logs[i].script.statCurrent
    && (Delivered(logs[i].script.manifest) ==>
          SameDigest(env, Body(logs[i].script.manifest), Body(logs[j].script.manifest)))
  }

  /** The attempt left a current manifest with the digest of the one it was served: it found
      nothing to do, or did not store a payload of another digest over that manifest. */
  ghost predicate Settles(env: Env, log: Log) {
    Quiet(log.events) ||
    forall f :: Picks(env, Body(log.script.manifest), f) ==> SameDigest(env, Kept(env, log.script, f), Body(log.script.manifest))
  }

  /** Convergence: once an attempt has succeeded and settled, every later attempt chooses, downloads
      and installs nothing and leaves the current manifest alone for as long as the server serves
      the same manifest, and succeeds if its reads do. */
  lemma {:induction false} Converges(env: Env, fs: Files, logs: seq<Log>, j: nat, k: nat)
    requires Chained(env, fs, logs) && j < k < |logs| && logs[j].rc == 0 && Settles(env, logs[j])
    requires forall i :: j < i <= k ==> StillServes(env, logs, j, i)
    ensures Quiet(logs[k].events) && SameAt(logs[j].after, logs[k].after, env.Current())
    ensures AllReadsSucceed(env, logs[k].script) ==> logs[k].rc == 0
    decreases k
  {
    hide Delivered, Body, AllReadsSucceed, Quiet, Installable, Refused, Changed, Hash.Digest, At, Picks, Kept, OverCurrent;
    var p := env.Current();
    assert Linked(env, fs, logs, j) && Linked(env, fs, logs, k);
    if k > j + 1 { Converges(env, fs, logs, j, k - 1); }
    assert logs[k].before == logs[k - 1].after;
    assert SameAt(logs[j].after, logs[k].before, p);
    assert StillServes(env, logs, j, k);
    assert UpToDate(env, logs[k].script, logs[k].before);
  }

  /** The condition is exact: after a success that did not settle, an attempt in which everything
      works, with the same manifest, downloads and installs again. */
  lemma ConvergesExactlyIf(env: Env, fs: Files, logs: seq<Log>, j: nat, f: File)
    requires Chained(env, fs, logs) && j + 1 < |logs| && logs[j].rc == 0
    requires var sc := logs[j + 1].script;
             && AllReadsSucceed(env, sc) && Installable(env, sc, Body(sc.manifest), f)
             && SameDigest(env, Body(sc.manifest), Body(logs[j].script.manifest))
    ensures Quiet(logs[j + 1].events) <==> Settles(env, logs[j])
  {
    hide Delivered, Body, Quiet, Installable, Refused, Hash.Digest, At, Picks, Kept, OverCurrent;
    assert Linked(env, fs, logs, j) && Linked(env, fs, logs, j + 1);
    var p, m := env.Current(), Body(logs[j].script.manifest);
    if Settles(env, logs[j]) {
      Converges(env, fs, logs, j, j + 1);
    } else {
      var g :| Picks(env, m, g) && Holds(logs[j].after, p, Kept(env, logs[j].script, g));
      var h :| Picks(env, m, h) && !SameDigest(env, Kept(env, logs[j].script, h), m);
      PicksOne(env, m, g, h);
    }
  }

  // ---------- Runs that break the safety of the current manifest ----------

  function Served(body: string): Transfer {
    Transfer(true, true, true, [Chunk(body, |body|)], true, 200, true, true, true, true)
  }

  lemma ServedBody(body: string)
    ensures Delivered(Served(body)) && Body(Served(body)) == body
  {
    assert BodyTo(Served(body).chunks, 1) == BodyTo(Served(body).chunks, 0) + body == body;
  }

  function SmoothReading(ok: bool): Hash.Reading {
    Hash.Reading(_ => 4096, ok, _ => true, None, true)
  }

  /** Everything works, but for the hash of the payload if not `readable`. */
  function Serving(m: string, sig: string, cert: string, payload: string, readable: bool): Script {
    Script(true, _ => true, [], Served(m), Served(sig), Served(cert),
           Verify.Faults(false, false, false, false, false, false, false, false, false, false, false,
                         Verify.Feed(_ => 4096, _ => true, None)),
           true, true, SmoothReading(true), SmoothReading(true), true, |m|, Served(payload), SmoothReading(readable), Exited(0), true, true)
  }

  lemma ServingReads(env: Env, m: string, sig: string, cert: string, payload: string, readable: bool)
    requires Verify.Authentic(env.pki, m, sig, cert)
    ensures var sc := Serving(m, sig, cert, payload, readable);
            && AllReadsSucceed(env, sc) && Changed(env, sc, map[]) && Body(sc.manifest) == m && Body(sc.payload) == payload
            && (forall f :: Picks(env, m, f) && Storable(env, f) ==> Arrives(env, sc, m, f))
  {
    hide Delivered, BodyTo, Body, Picks, Storable, At;
    ServedBody(m);
    ServedBody(sig);
    ServedBody(cert);
    ServedBody(payload);
  }

  /** A device without a current manifest, or with one of another digest, that is served an authentic
      manifest with a file that is stored apart from it, and the payload it promises, is updated. */
  method PlainUpdate(env: Env, fs: Files, m: string, sig: string, cert: string, f: File, payload: string)
    returns (u: Updater, rc: int)
    requires Assumptions(env) && Verify.Authentic(env.pki, m, sig, cert) && Picks(env, m, f) && Storable(env, f)
    requires !OverInbox(env, f) && KnownType(f) && HashMatches(env, payload, f)
    requires env.Current() in fs ==> Hash.Digest(env.hasher, fs[env.Current()]) != Hash.Digest(env.hasher, m)
    ensures fresh(u) && u.env == env && u.start == fs && u.Valid() && rc == 0 && Holds(u.fs, env.Current(), m)
    ensures Concludes(env, u.trace, f)
  {
    hide Verify.Authentic, Picks, Assumptions, At, Storable, AllReadsSucceed, Run, Body, HashMatches, OneAttempt, CleansUp, Concludes, Hash.Digest;
    u := new Updater(env, fs);
    var sc := Serving(m, sig, cert, payload, true);
    ServingReads(env, m, sig, cert, payload, true);
    rc := u.Attempt(sc);
    assert u.trace[0..] == u.trace;
    assert Installable(env, sc, m, f);
    forall g | Picks(env, m, g) ensures g == f { PicksOne(env, m, f, g); }
  }

  /** A fresh device that is served an authentic manifest whose file is stored over the current
      manifest: one attempt, and bytes that nobody verified are the current manifest. */
  method StoredOverCurrent(env: Env, m: string, sig: string, cert: string, f: File, other: string) returns (u: Updater)
    requires Assumptions(env) && Verify.Authentic(env.pki, m, sig, cert) && Picks(env, m, f) && OverCurrent(env, f) && other != m
    ensures fresh(u) && u.env == env && u.start == map[] && u.Valid() && !SafeAt(env, map[], u.trace, |u.trace|)
  {
    hide Verify.Authentic, Picks, Assumptions, At, Storable, AllReadsSucceed, Changed, Run, SafeAt, Body, OneAttempt;
    u := new Updater(env, map[]);
    var sc := Serving(m, sig, cert, other, false);
    ServingReads(env, m, sig, cert, other, false);
    var rc := u.Attempt(sc);
    assert u.trace[0..] == u.trace;
    assert Refused(env, sc, m, f);
    NeverVerified(env, map[], u.trace, |u.trace|, m);
  }

  /** Likewise if the file is stored over the manifest in the inbox: its payload, other bytes of
      the promised digest, becomes the current manifest. */
  method StoredOverInbox(env: Env, m: string, sig: string, cert: string, f: File, payload: string) returns (u: Updater)
    requires Assumptions(env) && Verify.Authentic(env.pki, m, sig, cert) && Picks(env, m, f) && OverInbox(env, f)
    requires KnownType(f) && HashMatches(env, payload, f) && payload != m
    ensures fresh(u) && u.env == env && u.start == map[] && u.Valid() && !SafeAt(env, map[], u.trace, |u.trace|)
  {
    hide Verify.Authentic, Picks, Assumptions, At, Storable, AllReadsSucceed, Changed, Run, SafeAt, Body, HashMatches, OneAttempt;
    u := new Updater(env, map[]);
    var sc := Serving(m, sig, cert, payload, true);
    ServingReads(env, m, sig, cert, payload, true);
    var rc := u.Attempt(sc);
    assert u.trace[0..] == u.trace;
    assert Installable(env, sc, m, f);
    forall g | Picks(env, m, g) ensures g == f { PicksOne(env, m, f, g); }
    NeverVerified(env, map[], u.trace, |u.trace|, m);
  }
}

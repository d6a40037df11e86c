/** What an update run does to the file system, as a trace of events, and the monitor that says
    which events may follow which.  `Updater` shows that the code of src/ota_fetch.c only
    produces accepted traces; the safety theorems here are about every accepted trace, and so
    about every run stopped after any event. */
module UpdateTrace {
  import opened Wrappers
  import opened Paths
  import opened Manifest
  import Hash
  import Verify

  type Files = map<Place, string>

  /** The fixed surroundings of a run: working directory, configured directories, device, trust
      and digest oracles, JSON parser. */
  datatype Env = Env(cwd: Place, inboxDir: string, currentDir: string, device: Option<string>,
                     pki: Verify.Pki, hasher: Hash.Hasher, parse: string -> Option<Json>)
  {
    function CurrentPath(): Path { Join(cwd, currentDir, "manifest.json") }
    function InboxPath(): Path { Join(cwd, inboxDir, "manifest.json") }
    function SigPath(): Path { Join(cwd, inboxDir, "manifest.json.sig") }
    function CertPath(): Path { Join(cwd, inboxDir, "signer.crt") }
    function PayloadPath(f: File): Path { Join(cwd, inboxDir, FileName(f)) }
    function Current(): Place { At(CurrentPath()) }
    function Inbox(): Place { At(InboxPath()) }
    function InboxSig(): Place { At(SigPath()) }
    function InboxCert(): Place { At(CertPath()) }
    function Payload(f: File): Place { At(PayloadPath(f)) }
    function PayloadTmp(f: File): Place { At(Tmp(PayloadPath(f))) }
  }

  function FileName(f: File): string {
    if f.filename.Some? then f.filename.value else ""
  }

  datatype Event =
    | Begin
    | Put(at: Place, data: string)
    | Remove(at: Place)
    | Move(src: Place, dst: Place)
    | Verified(manifest: string, sig: string, cert: string)
    | Picked(file: File)
    | Matched(payload: string)
    | Install(payload: string)
    | Apply(exit: Option<int>)
    | Sync

  function Effect(fs: Files, e: Event): Files {
    match e
    case Put(at, data) => fs[at := data]
    case Remove(at) => fs - {at}
    case Move(src, dst) => if src in fs then (fs - {src})[dst := fs[src]] else fs
    case _ => fs
  }

  /** How far the download of the payload has come, and with which bytes. */
  datatype Download = Waiting | Receiving(data: string) | Stored(data: string)

  /** How far an attempt has come, and with which manifest, file and payload.  `written` are the
      places that hold a file which this attempt wrote. */
  datatype Phase =
    | Off
    | Idle(written: set<Place>)
    | Trusted(manifest: string)
    | Chose(manifest: string, file: File, got: Download)
    | Checked(manifest: string, file: File, payload: string)
    | Installing(manifest: string, file: File, payload: string)
    | Applied(manifest: string, file: File, payload: string)
    | Promoted(manifest: string, file: File, payload: string)

  /** `f` is the first file of the release that the manifest text holds for this device. */
  ghost predicate FirstFile(env: Env, manifest: string, f: File) {
    env.parse(manifest).Some? && var m := ManifestOf(env.parse(manifest).value);
    m.Some? && exists i: nat :: Chosen(m.value, env.device, i) && IsFirst(m.value.releases[i], f)
  }

  /** All fields that the runtime needs are there. */
  predicate CompleteFile(f: File) {
    f.filename.Some? && f.path.Some? && f.sha256.Some? && f.fileType.Some?
  }

  /** `f` is the file that an attempt with this manifest downloads. */
  ghost predicate Picks(env: Env, manifest: string, f: File) {
    FirstFile(env, manifest, f) && CompleteFile(f)
  }

  /** It is the first file of the chosen release, provided it has all four fields. */
  lemma PicksFirst(env: Env, manifest: string, m: Manifest, i: nat, f: File, rest: seq<File>)
    requires env.parse(manifest).Some? && ManifestOf(env.parse(manifest).value) == Some(m)
    requires Chosen(m, env.device, i) && m.releases[i].files == [f] + rest
    ensures Picks(env, manifest, f) <==> f.fileType.Some? && f.filename.Some? && f.sha256.Some? && f.path.Some?
    ensures forall g :: Picks(env, manifest, g) ==> g == f
  {
    hide ManifestOf;
    assert IsFirst(m.releases[i], f);
    forall g, k: nat | Chosen(m, env.device, k) && IsFirst(m.releases[k], g) ensures g == f {
      ChosenUnique(m, env.device, i, k);
    }
  }

  lemma PicksOne(env: Env, manifest: string, f: File, g: File)
    requires Picks(env, manifest, f) && Picks(env, manifest, g)
    ensures f == g
  {
    var m := ManifestOf(env.parse(manifest).value).value;
    var i: nat :| Chosen(m, env.device, i) && IsFirst(m.releases[i], f);
    var j: nat :| Chosen(m, env.device, j) && IsFirst(m.releases[j], g);
    ChosenUnique(m, env.device, i, j);
  }

  predicate IsFirst(r: Release, f: File) {
    r.files != [] && r.files[0] == f
  }

  predicate HashMatches(env: Env, payload: string, f: File) {
    var digest := Hash.Digest(env.hasher, payload);
    Hash.IsBytes(digest) && f.sha256 == Some(Hash.Hex(digest))
  }

  /** A match means that the text in the manifest decodes to the digest of the payload. */
  lemma MatchMeansDigest(env: Env, payload: string, f: File)
    ensures HashMatches(env, payload, f) <==>
            f.sha256.Some? && Hash.Unhex(f.sha256.value) == Some(Hash.Digest(env.hasher, payload))
  {
    hide Hash.Unhex, Hash.Hex, Hash.Digest;
    var digest := Hash.Digest(env.hasher, payload);
    if HashMatches(env, payload, f) { Hash.HexRoundTrip(digest); }
    if f.sha256.Some? && Hash.Unhex(f.sha256.value).Some? { Hash.UnhexHex(f.sha256.value); }
  }

  predicate Holds(fs: Files, at: Place, data: string) {
    at in fs && fs[at] == data
  }

  // ---------- Where a payload is stored ----------

  /** The walk to the payload of `f` comes through `p` as if it were a directory. */
  predicate LeadsThrough(env: Env, f: File, p: Place) {
    var name := FileName(f);
    exists k :: 0 <= k < |name| && name[k] == '/' && At(Join(env.cwd, env.inboxDir, name[..k])) == p
  }

  /** The kernel lets a file be stored under the name of `f`: it ends in a name and leads neither
      through a file that is there during the download nor through itself. */
  predicate Storable(env: Env, f: File) {
    && EndsInName(env.PayloadPath(f))
    && !LeadsThrough(env, f, env.Inbox()) && !LeadsThrough(env, f, env.InboxSig()) && !LeadsThrough(env, f, env.InboxCert())
    && !LeadsThrough(env, f, env.Payload(f)) && !LeadsThrough(env, f, env.PayloadTmp(f))
  }

  /** The payload of `f` is stored over the current manifest. */
  predicate OverCurrent(env: Env, f: File) {
    Storable(env, f) && env.Payload(f) == env.Current()
  }

  /** The payload of `f` is stored over the manifest in the inbox. */
  predicate OverInbox(env: Env, f: File) {
    Storable(env, f) && env.Payload(f) == env.Inbox()
  }

  // ---------- The monitor ----------

  /** The phase after an event, or `None` if the event may not happen now. */
  ghost function Next(env: Env, fs: Files, phase: Phase, e: Event): Option<Phase> {
    match e
    case Begin => Some(Idle({}))
    case Put(at, data) =>
      if phase.Idle? && IsTmp(at) then Some(Idle(phase.written + {at}))
      else if phase.Chose? && !phase.got.Stored? && at == env.PayloadTmp(phase.file)
      then Some(phase.(got := Receiving(data)))
      else None
    case Remove(at) => NextRemove(env, phase, at)
    case Move(src, dst) => NextMove(env, phase, src, dst)
    case Verified(manifest, sig, cert) =>
      if phase.Idle? && env.Inbox() in phase.written && Holds(fs, env.Inbox(), manifest)
         && Verify.Authentic(env.pki, manifest, sig, cert)
      then Some(Trusted(manifest)) else None
    case Picked(file) =>
      if phase.Trusted? && Picks(env, phase.manifest, file) then Some(Chose(phase.manifest, file, Waiting)) else None
    case Matched(payload) =>
      if phase.Chose? && phase.got == Stored(payload) && Holds(fs, env.Payload(phase.file), payload)
         && HashMatches(env, payload, phase.file)
      then Some(Checked(phase.manifest, phase.file, payload)) else None
    case Install(payload) =>
      if phase.Checked? && phase.file.fileType == Some("rauc_bundle") && payload == phase.payload
         && Holds(fs, env.Payload(phase.file), payload)
      then Some(Installing(phase.manifest, phase.file, payload)) else None
    case Apply(exit) =>
      if (phase.Installing? && exit == Some(0))
         || (phase.Checked? && phase.file.fileType == Some("rauc_bundle_test") && exit == None)
      then Some(Applied(phase.manifest, phase.file, phase.payload)) else None
    case Sync => if phase.Promoted? && phase.file.fileType == Some("rauc_bundle") then Some(phase) else None
  }

  /** Before verification the inbox may be cleaned; later only the temporary file of the payload
      goes, and the current manifest only once the release is applied. */
  ghost function NextRemove(env: Env, phase: Phase, at: Place): Option<Phase> {
    if phase.Idle? then if at != env.Current() then Some(Idle(phase.written - {at})) else None
    else if phase.Chose? then
      if !phase.got.Stored? && at == env.PayloadTmp(phase.file) then Some(phase.(got := Waiting)) else None
    else if phase.Applied? then if at == env.Current() then Some(phase) else None
    else None
  }

  /** Downloads arrive by a rename from a temporary file; the manifest is promoted by a rename. */
  ghost function NextMove(env: Env, phase: Phase, src: Place, dst: Place): Option<Phase> {
    if phase.Idle? then
      if IsTmp(src) && src in phase.written && dst in {env.Inbox(), env.InboxSig(), env.InboxCert()}
      then Some(Idle(phase.written - {src} + {dst})) else None
    else if phase.Chose? then
      if phase.got.Receiving? && Storable(env, phase.file) && src == env.PayloadTmp(phase.file) && dst == env.Payload(phase.file)
      then Some(phase.(got := Stored(phase.got.data))) else None
    else if phase.Applied? && src == env.Inbox() && dst == env.Current() then
      Some(Promoted(phase.manifest, phase.file, phase.payload))
    else None
  }

  datatype State = State(fs: Files, phase: Phase)

  ghost function Step(env: Env, s: State, e: Event): Option<State> {
    match Next(env, s.fs, s.phase, e)
    case None => None
    case Some(phase) => Some(State(Effect(s.fs, e), phase))
  }

  /** The state after the first `n` events of an accepted trace. */
  ghost function Run(env: Env, fs: Files, trace: seq<Event>, n: nat): Option<State>
    requires n <= |trace|
  {
    if n == 0 then Some(State(fs, Off))
    else match Run(env, fs, trace, n - 1)
         case None => None
         case Some(s) => Step(env, s, trace[n - 1])
  }

  ghost predicate Accepted(env: Env, fs: Files, trace: seq<Event>) {
    Run(env, fs, trace, |trace|).Some?
  }

  /** The two configured directories are different ones. */
  predicate Apart(env: Env) {
    Base(env.cwd, env.inboxDir) != Base(env.cwd, env.currentDir)
  }

  // ---------- Places ----------

  lemma PathsDiffer(env: Env)
    ensures !IsTmp(env.Current()) && !IsTmp(env.Inbox()) && !IsTmp(env.InboxSig()) && !IsTmp(env.InboxCert())
    ensures env.InboxSig() != env.Current() && env.InboxCert() != env.Current()
    ensures env.InboxSig() != env.Inbox() && env.InboxCert() != env.Inbox() && env.InboxSig() != env.InboxCert()
    ensures Apart(env) <==> env.Inbox() != env.Current()
  {
    hide Base, At, EndsInName;
    JoinAt(env.cwd, env.currentDir, "manifest.json");
    JoinAt(env.cwd, env.inboxDir, "manifest.json");
    JoinAt(env.cwd, env.inboxDir, "manifest.json.sig");
    JoinAt(env.cwd, env.inboxDir, "signer.crt");
    var i, c := Base(env.cwd, env.inboxDir), Base(env.cwd, env.currentDir);
    assert (i + ["manifest.json"])[..|i|] == i && (c + ["manifest.json"])[..|c|] == c;
  }

  /** A file name without a slash is stored in the inbox directory under that name, so it meets
      a manifest only if it is "manifest.json". */
  lemma PlainName(env: Env, f: File)
    requires Apart(env) && IsPlain(FileName(f))
    ensures Storable(env, f) && !OverCurrent(env, f)
    ensures OverInbox(env, f) <==> FileName(f) == "manifest.json"
  {
    hide Base, At, EndsInName, Tmp;
    JoinAt(env.cwd, env.inboxDir, FileName(f));
    JoinAt(env.cwd, env.inboxDir, "manifest.json");
    JoinAt(env.cwd, env.currentDir, "manifest.json");
    var i, c := Base(env.cwd, env.inboxDir), Base(env.cwd, env.currentDir);
    assert (i + [FileName(f)])[..|i|] == i && (c + ["manifest.json"])[..|c|] == c;
    assert (i + [FileName(f)])[|i|] == FileName(f) && (i + ["manifest.json"])[|i|] == "manifest.json";
  }

  /** A name with a trailing slash, or one that leads through the manifest in the inbox, cannot be stored. */
  lemma NotStorable(env: Env, f: File, name: string, rest: string)
    requires IsPlain(name)
    ensures FileName(f) == name + "/" ==> !Storable(env, f)
    ensures FileName(f) == "manifest.json/" + rest ==> !Storable(env, f)
  {
    hide Base, At;
    if FileName(f) == name + "/" {
      assert name + "/" == name + "/" + "";
      StepsTo(env, name, "");
    }
    if FileName(f) == "manifest.json/" + rest {
      assert FileName(f)[..13] == "manifest.json" && FileName(f)[13] == '/';
      assert LeadsThrough(env, f, env.Inbox());
    }
  }

  /** Other names meet them too: "./manifest.json" the one in the inbox ... */
  lemma DotName(env: Env, f: File)
    requires f.filename == Some("./manifest.json")
    ensures OverInbox(env, f)
  {
    hide Base, At, EndsInName, Storable;
    var name := FileName(f);
    assert name == "." + "/" + "manifest.json" && name[..1] == ".";
    FirstStep(env, ".");
    StepsTo(env, ".", "manifest.json");
    InboxPlaces(env);
    assert forall k :: 0 <= k < |name| && name[k] == '/' ==> name[..k] == ".";
    ShortStops(env, f);
  }

  /** ... and, if the two directories are neighbours, "../" and the other one's name the current one. */
  lemma NeighbourName(env: Env, f: File, up: Place, inbox: string, current: string)
    requires IsName(current) && forall i :: 0 <= i < |current| ==> current[i] != '/'
    requires Base(env.cwd, env.inboxDir) == up + [inbox] && Base(env.cwd, env.currentDir) == up + [current]
    requires f.filename == Some("../" + current + "/manifest.json")
    ensures OverCurrent(env, f)
  {
    hide Base, At, EndsInName, Storable;
    var name, dir := FileName(f), ".." + "/" + current;
    assert name == dir + "/" + "manifest.json" && name[..2] == ".." && name[..3 + |current|] == dir;
    FirstStep(env, "..");
    assert (up + [inbox])[..|up|] == up;
    StepsTo(env, "..", current);
    StepsTo(env, dir, "manifest.json");
    JoinAt(env.cwd, env.currentDir, "manifest.json");
    SlashesOf(name, current);
    ShortStops(env, f);
  }

  lemma SlashesOf(name: string, current: string)
    requires name == "../" + current + "/manifest.json" && forall i :: 0 <= i < |current| ==> current[i] != '/'
    ensures forall k :: 0 <= k < |name| && name[k] == '/' ==> k == 2 || k == 3 + |current|
  {
    assert forall k :: 3 <= k < 3 + |current| ==> name[k] == current[k - 3];
    assert forall k :: 3 + |current| <= k < |name| ==> name[k] == "/manifest.json"[k - 3 - |current|];
  }

  /** A walk that stays above the inbox files and above its end leads through none of them. */
  lemma ShortStops(env: Env, f: File)
    requires EndsInName(env.PayloadPath(f))
    requires forall k :: 0 <= k < |FileName(f)| && FileName(f)[k] == '/' ==>
               var stop := At(Join(env.cwd, env.inboxDir, FileName(f)[..k]));
               |stop| <= |Base(env.cwd, env.inboxDir)| && |stop| < |env.Payload(f)|
    ensures Storable(env, f)
  {
    hide Base, Walked;
    InboxPlaces(env);
    TmpAt(env.PayloadPath(f));
  }

  lemma FirstStep(env: Env, name: string)
    requires forall i :: 0 <= i < |name| ==> name[i] != '/'
    ensures At(Join(env.cwd, env.inboxDir, name)) == Enter(Base(env.cwd, env.inboxDir), name)
  {
    hide Base, Scan;
    JoinWalk(env.cwd, env.inboxDir, name);
    ScanName(Walk(Base(env.cwd, env.inboxDir), ""), name);
    assert "" + name == name;
  }

  lemma StepsTo(env: Env, dir: string, name: string)
    requires forall i :: 0 <= i < |name| ==> name[i] != '/'
    ensures var p := Join(env.cwd, env.inboxDir, dir + "/" + name);
            At(p) == Enter(At(Join(env.cwd, env.inboxDir, dir)), name) && (EndsInName(p) <==> IsName(name))
  {
    hide Scan, Base;
    JoinWalk(env.cwd, env.inboxDir, dir + "/" + name);
    JoinWalk(env.cwd, env.inboxDir, dir);
    ScanStep(Walk(Base(env.cwd, env.inboxDir), ""), dir, name);
  }

  lemma InboxPlaces(env: Env)
    ensures var i := Base(env.cwd, env.inboxDir);
            && env.Inbox() == i + ["manifest.json"] && env.InboxSig() == i + ["manifest.json.sig"]
            && env.InboxCert() == i + ["signer.crt"]
  {
    hide Base, At;
    JoinAt(env.cwd, env.inboxDir, "manifest.json");
    JoinAt(env.cwd, env.inboxDir, "manifest.json.sig");
    JoinAt(env.cwd, env.inboxDir, "signer.crt");
  }

  // ---------- One step ----------

  predicate HasManifest(phase: Phase) {
    phase.Trusted? || phase.Chose? || phase.Checked? || phase.Installing? || phase.Applied?
  }

  predicate HasFile(phase: Phase) {
    phase.Chose? || phase.Checked? || phase.Installing? || phase.Applied? || phase.Promoted?
  }

  /** From verification to promotion the inbox holds the verified bytes, unless the payload was
      stored over them. */
  ghost predicate Sound(env: Env, s: State) {
    HasManifest(s.phase) ==>
      || Holds(s.fs, env.Inbox(), s.phase.manifest)
      || (&& HasFile(s.phase) && OverInbox(env, s.phase.file)
          && (s.phase.Chose? || Holds(s.fs, env.Inbox(), s.phase.payload)))
  }

  lemma SoundStep(env: Env, s: State, e: Event)
    requires Apart(env) && Sound(env, s) && Step(env, s, e).Some?
    ensures Sound(env, Step(env, s, e).value)
  {
    hide IsTmp, Verify.Authentic, FirstFile, HashMatches, At, Storable, Apart;
    PathsDiffer(env);
    if HasFile(s.phase) { TmpAt(env.PayloadPath(s.phase.file)); }
  }

  predicate SameAt(fs: Files, fs': Files, p: Place) {
    if p in fs then Holds(fs', p, fs[p]) else p !in fs'
  }

  /** The payload is stored neither over the current manifest nor, if it gets promoted, as other
      bytes over the one in the inbox. */
  predicate Harmless(env: Env, phase: Phase) {
    && (HasFile(phase) ==> !OverCurrent(env, phase.file))
    && (phase.Applied? && OverInbox(env, phase.file) ==> phase.payload == phase.manifest)
  }

  /** An event leaves the current manifest alone, or removes it, or replaces it by the verified
      bytes of a release that has just been applied. */
  lemma CurrentStep(env: Env, s: State, e: Event)
    requires Apart(env) && Sound(env, s) && Harmless(env, s.phase) && Step(env, s, e).Some?
    ensures var s' := Step(env, s, e).value; var p := env.Current();
            || SameAt(s.fs, s'.fs, p)
            || p !in s'.fs
            || (s.phase.Applied? && s'.phase.Promoted? && Holds(s'.fs, p, s.phase.manifest))
  {
    hide IsTmp, Verify.Authentic, FirstFile, HashMatches, At, Storable, Apart;
    PathsDiffer(env);
    if HasFile(s.phase) { TmpAt(env.PayloadPath(s.phase.file)); }
  }

  // ---------- Whole runs ----------

  lemma {:induction false} RunPrefix(env: Env, fs: Files, trace: seq<Event>, n: nat, k: nat)
    requires k <= n <= |trace| && Run(env, fs, trace, n).Some?
    ensures Run(env, fs, trace, k).Some?
    decreases n
  {
    if k < n { RunPrefix(env, fs, trace, n - 1, k); }
  }

  lemma {:induction false} RunSound(env: Env, fs: Files, trace: seq<Event>, n: nat)
    requires Apart(env) && n <= |trace| && Run(env, fs, trace, n).Some?
    ensures Sound(env, Run(env, fs, trace, n).value)
  {
    hide Step, Sound;
    if n == 0 {
      OffSound(env, fs);
    } else {
      RunSound(env, fs, trace, n - 1);
      SoundStep(env, Run(env, fs, trace, n - 1).value, trace[n - 1]);
    }
  }

  lemma OffSound(env: Env, fs: Files)
    ensures Sound(env, State(fs, Off))
  {
  }

  /** Positions in a trace that show how an attempt got where it is. */
  datatype Evidence = Evidence(begin: nat, arrived: nat, verified: nat, picked: nat, stored: nat, matched: nat,
                               installed: nat, applied: nat)

  ghost predicate SameAttempt(trace: seq<Event>, begin: nat, n: nat) {
    begin < n <= |trace| && trace[begin] == Begin && forall i :: begin < i < n ==> trace[i] != Begin
  }

  ghost predicate NoInstall(trace: seq<Event>, from: nat, till: nat) {
    till <= |trace| && forall i :: from <= i < till ==> !trace[i].Install?
  }

  /** The manifest in the inbox was downloaded at position `a`. */
  ghost predicate HasArrived(env: Env, trace: seq<Event>, a: nat) {
    a < |trace| && trace[a].Move? && IsTmp(trace[a].src) && trace[a].dst == env.Inbox()
  }

  /** A manifest with these bytes passed verification at position `v`. */
  ghost predicate WasVerified(env: Env, trace: seq<Event>, v: nat, manifest: string) {
    && v < |trace| && trace[v].Verified? && trace[v].manifest == manifest
    && Verify.Authentic(env.pki, manifest, trace[v].sig, trace[v].cert)
  }

  ghost predicate WasPicked(env: Env, trace: seq<Event>, p: nat, manifest: string, file: File) {
    p < |trace| && trace[p] == Picked(file) && Picks(env, manifest, file)
  }

  /** The download of the payload was completed with these bytes at position `k`: its last write
      and the rename to its place. */
  ghost predicate WasStored(env: Env, trace: seq<Event>, k: nat, payload: string, file: File) {
    && 0 < k < |trace| && trace[k - 1] == Put(env.PayloadTmp(file), payload)
    && trace[k] == Move(env.PayloadTmp(file), env.Payload(file))
  }

  ghost predicate WasMatched(env: Env, trace: seq<Event>, h: nat, payload: string, file: File) {
    h < |trace| && trace[h] == Matched(payload) && HashMatches(env, payload, file)
  }

  /** The only install of the attempt, on exactly these bytes. */
  ghost predicate InstalledOnce(trace: seq<Event>, w: Evidence, n: nat, payload: string) {
    && w.matched < w.installed < n <= |trace| && trace[w.installed] == Install(payload)
    && NoInstall(trace, w.begin, w.installed) && NoInstall(trace, w.installed + 1, n)
  }

  /** The manifest was downloaded, verified and the file chosen from it, in this order. */
  ghost predicate NewlyPicked(env: Env, trace: seq<Event>, w: Evidence, n: nat, manifest: string, file: File) {
    && w.begin < w.arrived < w.verified < w.picked < n <= |trace|
    && HasArrived(env, trace, w.arrived) && WasVerified(env, trace, w.verified, manifest)
    && WasPicked(env, trace, w.picked, manifest, file)
  }

  /** ... and the payload was downloaded and matched: all in one attempt. */
  ghost predicate Authorised(env: Env, trace: seq<Event>, w: Evidence, n: nat, manifest: string, file: File, payload: string) {
    && SameAttempt(trace, w.begin, n) && NewlyPicked(env, trace, w, n, manifest, file)
    && w.picked < w.stored - 1 && w.stored < w.matched < n
    && WasStored(env, trace, w.stored, payload, file)
    && WasMatched(env, trace, w.matched, payload, file)
  }

  /** The release was applied: RAUC was run on its payload, once, and exited with status 0, or
      the file is of the type that only simulates an install. */
  ghost predicate WasApplied(trace: seq<Event>, w: Evidence, n: nat, file: File, payload: string) {
    && w.matched < w.applied < n <= |trace|
    && ((&& file.fileType == Some("rauc_bundle") && trace[w.applied] == Apply(Some(0))
         && w.installed < w.applied && InstalledOnce(trace, w, n, payload))
        || (&& file.fileType == Some("rauc_bundle_test") && trace[w.applied] == Apply(None)
            && NoInstall(trace, w.begin, n)))
  }

  /** `w` accounts for phase `ph` after `n` events. */
  ghost predicate Supports(env: Env, trace: seq<Event>, n: nat, ph: Phase, w: Evidence) {
    match ph
    case Off => true
    case Idle(written) =>
      && SameAttempt(trace, w.begin, n) && NoInstall(trace, w.begin, n)
      && (env.Inbox() in written ==> w.begin < w.arrived < n && HasArrived(env, trace, w.arrived))
    case Trusted(m) =>
      && SameAttempt(trace, w.begin, n) && NoInstall(trace, w.begin, n)
      && w.begin < w.arrived < w.verified < n
      && HasArrived(env, trace, w.arrived) && WasVerified(env, trace, w.verified, m)
    case Chose(m, f, got) =>
      && SameAttempt(trace, w.begin, n) && NoInstall(trace, w.begin, n) && NewlyPicked(env, trace, w, n, m, f)
      && (got.Receiving? ==> w.picked < n - 1 && trace[n - 1] == Put(env.PayloadTmp(f), got.data))
      && (got.Stored? ==> w.picked < w.stored - 1 && w.stored < n && WasStored(env, trace, w.stored, got.data, f))
    case Checked(m, f, b) => Authorised(env, trace, w, n, m, f, b) && NoInstall(trace, w.begin, n)
    case Installing(m, f, b) =>
      Authorised(env, trace, w, n, m, f, b) && InstalledOnce(trace, w, n, b) && f.fileType == Some("rauc_bundle")
    case Applied(m, f, b) => Authorised(env, trace, w, n, m, f, b) && WasApplied(trace, w, n, f, b)
    case Promoted(m, f, b) => Authorised(env, trace, w, n, m, f, b) && WasApplied(trace, w, n, f, b)
  }

  /** The evidence after one more event. */
  ghost function Noted(env: Env, w: Evidence, ph: Phase, e: Event, n: nat): Evidence {
    match e
    case Begin => w.(begin := n)
    case Move(_, dst) =>
      if ph.Idle? && dst == env.Inbox() then w.(arrived := n) else if ph.Chose? then w.(stored := n) else w
    case Verified(_, _, _) => w.(verified := n)
    case Picked(_) => w.(picked := n)
    case Matched(_) => w.(matched := n)
    case Install(_) => w.(installed := n)
    case Apply(_) => w.(applied := n)
    case _ => w
  }

  ghost predicate Steps(env: Env, trace: seq<Event>, n: nat, s: State, w: Evidence) {
    n < |trace| && Supports(env, trace, n, s.phase, w) && Step(env, s, trace[n]).Some?
  }

  predicate OnFiles(e: Event) {
    e.Put? || e.Remove? || e.Move? || e.Sync?
  }

  lemma SupportsInbox(env: Env, trace: seq<Event>, n: nat, s: State, w: Evidence)
    requires Steps(env, trace, n, s, w) && OnFiles(trace[n]) && s.phase.Idle?
    ensures Supports(env, trace, n + 1, Step(env, s, trace[n]).value.phase, Noted(env, w, s.phase, trace[n], n))
  {
    hide IsTmp, At, Effect;
    PathsDiffer(env);
  }

  lemma SupportsPayload(env: Env, trace: seq<Event>, n: nat, s: State, w: Evidence)
    requires Steps(env, trace, n, s, w) && OnFiles(trace[n]) && s.phase.Chose?
    ensures Supports(env, trace, n + 1, Step(env, s, trace[n]).value.phase, Noted(env, w, s.phase, trace[n], n))
  {
    hide IsTmp, Verify.Authentic, Picks, Storable, At, Effect, HasArrived, WasVerified;
  }

  lemma SupportsPromotion(env: Env, trace: seq<Event>, n: nat, s: State, w: Evidence)
    requires Steps(env, trace, n, s, w) && OnFiles(trace[n]) && !s.phase.Idle? && !s.phase.Chose?
    ensures Supports(env, trace, n + 1, Step(env, s, trace[n]).value.phase, Noted(env, w, s.phase, trace[n], n))
  {
    hide IsTmp, Verify.Authentic, Picks, HashMatches, Storable, At, Effect, HasArrived, WasVerified, WasStored;
  }

  lemma SupportsEarly(env: Env, trace: seq<Event>, n: nat, s: State, w: Evidence)
    requires Steps(env, trace, n, s, w) && (trace[n].Begin? || trace[n].Verified? || trace[n].Picked?)
    ensures Supports(env, trace, n + 1, Step(env, s, trace[n]).value.phase, Noted(env, w, s.phase, trace[n], n))
  {
    hide IsTmp, Verify.Authentic, Picks, HashMatches, Storable, At, Holds, Effect, WasApplied, InstalledOnce, WasMatched;
  }

  lemma SupportsLate(env: Env, trace: seq<Event>, n: nat, s: State, w: Evidence)
    requires Steps(env, trace, n, s, w) && (trace[n].Matched? || trace[n].Install? || trace[n].Apply?)
    ensures Supports(env, trace, n + 1, Step(env, s, trace[n]).value.phase, Noted(env, w, s.phase, trace[n], n))
  {
    hide IsTmp, Verify.Authentic, Picks, HashMatches, Storable, At, Holds, Effect, NextMove, NextRemove;
  }

  lemma SupportsStep(env: Env, trace: seq<Event>, n: nat, s: State, w: Evidence)
    requires Steps(env, trace, n, s, w)
    ensures Supports(env, trace, n + 1, Step(env, s, trace[n]).value.phase, Noted(env, w, s.phase, trace[n], n))
  {
    hide Supports, Step;
    if OnFiles(trace[n]) {
      if s.phase.Idle? {
        SupportsInbox(env, trace, n, s, w);
      } else if s.phase.Chose? {
        SupportsPayload(env, trace, n, s, w);
      } else {
        SupportsPromotion(env, trace, n, s, w);
      }
    } else if trace[n].Matched? || trace[n].Install? || trace[n].Apply? {
      SupportsLate(env, trace, n, s, w);
    } else {
      SupportsEarly(env, trace, n, s, w);
    }
  }

  lemma {:induction false} PhaseEvidence(env: Env, fs: Files, trace: seq<Event>, n: nat) returns (w: Evidence)
    requires n <= |trace| && Run(env, fs, trace, n).Some?
    ensures Supports(env, trace, n, Run(env, fs, trace, n).value.phase, w)
  {
    hide Step, Supports;
    if n == 0 {
      w := Evidence(0, 0, 0, 0, 0, 0, 0, 0);
      OffSupported(env, trace, w);
    } else {
      w := PhaseEvidence(env, fs, trace, n - 1);
      SupportsStep(env, trace, n - 1, Run(env, fs, trace, n - 1).value, w);
      w := Noted(env, w, Run(env, fs, trace, n - 1).value.phase, trace[n - 1], n - 1);
    }
  }

  lemma OffSupported(env: Env, trace: seq<Event>, w: Evidence)
    ensures Supports(env, trace, 0, Off, w)
  {
  }

  /** An attempt verifies at most one manifest, and its phase carries it from then on. */
  lemma {:induction false} AttemptManifest(env: Env, fs: Files, trace: seq<Event>, begin: nat, n: nat)
    requires begin < n <= |trace| && trace[begin] == Begin && Run(env, fs, trace, n).Some?
    requires forall i :: begin < i < n ==> trace[i] != Begin
    ensures var ph := Run(env, fs, trace, n).value.phase;
            && !ph.Off?
            && forall i :: begin <= i < n && trace[i].Verified? ==> !ph.Idle? && ph.manifest == trace[i].manifest
  {
    hide IsTmp, At, Picks, HashMatches, Verify.Authentic, Storable, Holds, Effect;
    if n > begin + 1 { AttemptManifest(env, fs, trace, begin, n - 1); }
  }

  // ---------- Theorems about every accepted trace ----------

  /** The trace up to `at` ends in the promotion of this manifest, and the same attempt downloaded
      and verified it, chose this file from it, downloaded, matched and applied this payload. */
  ghost predicate PromotedAt(env: Env, trace: seq<Event>, at: nat, w: Evidence, manifest: string, file: File, payload: string) {
    && 0 < at <= |trace| && trace[at - 1] == Move(env.Inbox(), env.Current())
    && Authorised(env, trace, w, at, manifest, file, payload) && WasApplied(trace, w, at, file, payload)
  }

  lemma PromotionEvidence(env: Env, fs: Files, trace: seq<Event>, n: nat) returns (w: Evidence)
    requires 0 < n <= |trace| && Run(env, fs, trace, n).Some? && trace[n - 1].Move?
    requires Run(env, fs, trace, n).value.phase.Promoted?
    ensures var ph := Run(env, fs, trace, n).value.phase; PromotedAt(env, trace, n, w, ph.manifest, ph.file, ph.payload)
  {
    hide IsTmp, Storable, At, Authorised, WasApplied, Effect;
    w := PhaseEvidence(env, fs, trace, n);
  }

  /** The current manifest is absent, or as it was before the run, or the exact bytes of a manifest
      that one attempt verified, and whose file it downloaded, matched and applied. */
  ghost predicate SafeAt(env: Env, fs: Files, trace: seq<Event>, n: nat)
    requires n <= |trace| && Run(env, fs, trace, n).Some?
  {
    var now := Run(env, fs, trace, n).value.fs;
    var p := env.Current();
    || p !in now
    || (p in fs && now[p] == fs[p])
    || exists at: nat, w, file, payload :: at <= n && PromotedAt(env, trace, at, w, now[p], file, payload)
  }

  /** An authentic manifest whose payload would be stored over a manifest, to some effect: over
      the current one, or over the one that is about to be promoted and with other bytes. */
  ghost predicate Collides(env: Env, m: string, f: File) {
    && (exists sig, cert :: Verify.Authentic(env.pki, m, sig, cert)) && Picks(env, m, f)
    && (OverCurrent(env, f) || (OverInbox(env, f) && KnownType(f) && exists b :: b != m && HashMatches(env, b, f)))
  }

  predicate KnownType(f: File) {
    f.fileType == Some("rauc_bundle_test") || f.fileType == Some("rauc_bundle")
  }

  /** A manifest that can be published without harm to the manifests of a device. */
  ghost predicate CollisionFree(env: Env, m: string) {
    forall f :: !Collides(env, m, f)
  }

  /** None of the manifests that the first `n` events verified collides. */
  ghost predicate CleanRun(env: Env, trace: seq<Event>, n: nat) {
    n <= |trace| && forall i :: 0 <= i < n && trace[i].Verified? ==> CollisionFree(env, trace[i].manifest)
  }

  /** Safety after every event of every run. */
  lemma {:induction false} CurrentManifestSafe(env: Env, fs: Files, trace: seq<Event>, n: nat)
    requires Apart(env) && n <= |trace| && Run(env, fs, trace, n).Some? && CleanRun(env, trace, n)
    ensures SafeAt(env, fs, trace, n)
  {
    hide Step, PromotedAt, Sound, Harmless, CollisionFree, Apart, At;
    if n > 0 {
      CurrentManifestSafe(env, fs, trace, n - 1);
      var before, after := Run(env, fs, trace, n - 1).value, Run(env, fs, trace, n).value;
      RunSound(env, fs, trace, n - 1);
      RunHarmless(env, fs, trace, n - 1);
      CurrentStep(env, before, trace[n - 1]);
      if !SameAt(before.fs, after.fs, env.Current()) && env.Current() in after.fs {
        PromotingMove(env, before, trace[n - 1]);
        var w := PromotionEvidence(env, fs, trace, n);
        assert PromotedAt(env, trace, n, w, after.fs[env.Current()], after.phase.file, after.phase.payload);
      }
    }
  }

  lemma RunHarmless(env: Env, fs: Files, trace: seq<Event>, n: nat)
    requires n <= |trace| && Run(env, fs, trace, n).Some? && CleanRun(env, trace, n)
    ensures Harmless(env, Run(env, fs, trace, n).value.phase)
  {
    hide Step, Storable, Picks, Verify.Authentic, HashMatches, At, Run, InstalledOnce, NoInstall;
    var w := PhaseEvidence(env, fs, trace, n);
    var ph := Run(env, fs, trace, n).value.phase;
    if HasFile(ph) {
      assert WasVerified(env, trace, w.verified, ph.manifest) && Picks(env, ph.manifest, ph.file);
      assert !Collides(env, ph.manifest, ph.file);
      if ph.Applied? { assert KnownType(ph.file) && HashMatches(env, ph.payload, ph.file); }
    }
  }

  predicate IsPlain(name: string) {
    IsName(name) && forall i :: 0 <= i < |name| ==> name[i] != '/'
  }

  /** A check before publishing that is enough: the file has a name without a slash, and it is not
      "manifest.json". */
  lemma PlainNamesSafe(env: Env, m: string)
    requires Apart(env) && forall f :: Picks(env, m, f) ==> IsPlain(FileName(f)) && FileName(f) != "manifest.json"
    ensures CollisionFree(env, m)
  {
    hide Verify.Authentic, Picks, Apart, OverCurrent, OverInbox, KnownType, HashMatches;
    forall f | Picks(env, m, f) ensures !Collides(env, m, f) {
      PlainName(env, f);
    }
  }

  /** Only these bytes were verified as a manifest. */
  predicate OnlyVerified(events: seq<Event>, manifest: string) {
    forall i :: 0 <= i < |events| && events[i].Verified? ==> events[i].manifest == manifest
  }

  /** Every run that verifies no other manifest than `m` is safe after every event. */
  ghost predicate AlwaysSafeWith(env: Env, m: string) {
    forall fs, trace, n: nat :: n <= |trace| && Run(env, fs, trace, n).Some? && OnlyVerified(trace, m) ==>
      SafeAt(env, fs, trace, n)
  }

  /** The exact condition, manifest by manifest. */
  lemma SafeExactlyIf(env: Env, m: string)
    requires Apart(env)
    ensures AlwaysSafeWith(env, m) <==> CollisionFree(env, m)
  {
    hide Run, SafeAt, Picks, OverCurrent, OverInbox, KnownType, HashMatches, Apart, Verify.Authentic;
    if CollisionFree(env, m) {
      forall fs, trace, n: nat | n <= |trace| && Run(env, fs, trace, n).Some? && OnlyVerified(trace, m)
        ensures SafeAt(env, fs, trace, n)
      {
        CurrentManifestSafe(env, fs, trace, n);
      }
    } else {
      var f :| Collides(env, m, f);
      var sig, cert :| Verify.Authentic(env.pki, m, sig, cert);
      if OverCurrent(env, f) {
        var trace := RunOverCurrent(env, m, sig, cert, f, m + "x");
      } else {
        var b :| b != m && HashMatches(env, b, f);
        var trace := RunOverInbox(env, m, sig, cert, f, b);
      }
    }
  }

  lemma PromotingMove(env: Env, s: State, e: Event)
    requires Step(env, s, e).Some? && s.phase.Applied? && Step(env, s, e).value.phase.Promoted?
    ensures e.Move? && s.phase.manifest == Step(env, s, e).value.phase.manifest
  {
  }

  /** Two paths that end in a name and lead to the same place share their temporary file. */
  lemma SameTmp(p: Path, q: Path)
    requires EndsInName(p) && EndsInName(q) && At(p) == At(q)
    ensures At(Tmp(p)) == At(Tmp(q))
  {
    hide Walked;
    TmpAt(p);
    TmpAt(q);
    var v, w := Walked(p), Walked(q);
    assert v.dir == (v.dir + [v.name])[..|v.dir|] && w.dir == (w.dir + [w.name])[..|w.dir|];
    assert v.name == (v.dir + [v.name])[|v.dir|] && w.name == (w.dir + [w.name])[|w.dir|];
  }

  lemma CollidingTmp(env: Env, f: File)
    ensures OverCurrent(env, f) ==> env.PayloadTmp(f) == At(Tmp(env.CurrentPath()))
    ensures OverInbox(env, f) ==> env.PayloadTmp(f) == At(Tmp(env.InboxPath()))
  {
    hide At, EndsInName;
    JoinAt(env.cwd, env.currentDir, "manifest.json");
    JoinAt(env.cwd, env.inboxDir, "manifest.json");
    if OverCurrent(env, f) { SameTmp(env.PayloadPath(f), env.CurrentPath()); }
    if OverInbox(env, f) { SameTmp(env.PayloadPath(f), env.InboxPath()); }
  }

  /** A run that ends with unverified bytes as the current manifest. */
  lemma RunOverCurrent(env: Env, m: string, sig: string, cert: string, f: File, other: string) returns (trace: seq<Event>)
    requires Apart(env) && Verify.Authentic(env.pki, m, sig, cert) && Picks(env, m, f) && OverCurrent(env, f) && other != m
    ensures Accepted(env, map[], trace) && OnlyVerified(trace, m) && !SafeAt(env, map[], trace, |trace|)
  {
    hide IsTmp, At, Verify.Authentic, Picks, SafeAt, Storable, Apart;
    var i, c := env.Inbox(), env.Current();
    var tmp := At(Tmp(env.CurrentPath()));
    PathsDiffer(env);
    TmpAt(env.CurrentPath());
    CollidingTmp(env, f);
    trace := Arrival(env, m, sig, cert, f) + [Put(tmp, other), Move(tmp, c)];
    ArrivalRuns(env, m, sig, cert, f, [Put(tmp, other), Move(tmp, c)]);
    assert Run(env, map[], trace, 6) == Some(State(map[i := m, tmp := other], Chose(m, f, Receiving(other))));
    assert Effect(map[i := m, tmp := other], trace[6]) == map[i := m, c := other];
    assert Run(env, map[], trace, 7) == Some(State(map[i := m, c := other], Chose(m, f, Stored(other))));
    NeverVerified(env, map[], trace, 7, m);
  }

  /** A run that promotes the payload as if it were the verified manifest. */
  lemma RunOverInbox(env: Env, m: string, sig: string, cert: string, f: File, payload: string) returns (trace: seq<Event>)
    requires Apart(env) && Verify.Authentic(env.pki, m, sig, cert) && Picks(env, m, f) && OverInbox(env, f)
    requires KnownType(f) && HashMatches(env, payload, f) && payload != m
    ensures Accepted(env, map[], trace) && OnlyVerified(trace, m) && !SafeAt(env, map[], trace, |trace|)
  {
    hide IsTmp, At, Verify.Authentic, Picks, HashMatches, Storable, Apart, SafeAt;
    var i, c := env.Inbox(), env.Current();
    PathsDiffer(env);
    var rest := Applying(f, payload) + [Move(i, c)];
    trace := Arrival(env, m, sig, cert, f) + Replacing(env, payload) + rest;
    var n := |trace|;
    ReplacedRuns(env, m, sig, cert, f, payload, rest);
    assert Run(env, map[], trace, n - 1) == Some(State(map[i := payload], Applied(m, f, payload)));
    assert Effect(map[i := payload], trace[n - 1]) == map[c := payload];
    assert Run(env, map[], trace, n) == Some(State(map[c := payload], Promoted(m, f, payload)));
    assert OnlyVerified(trace, m);
    NeverVerified(env, map[], trace, n, m);
  }

  /** Bytes that were neither there before nor verified do not make a safe current manifest. */
  lemma NeverVerified(env: Env, fs: Files, trace: seq<Event>, n: nat, m: string)
    requires n <= |trace| && Run(env, fs, trace, n).Some? && env.Current() !in fs
    requires OnlyVerified(trace, m)
    requires var now := Run(env, fs, trace, n).value.fs; env.Current() in now && now[env.Current()] != m
    ensures !SafeAt(env, fs, trace, n)
  {
    hide Run, At, WasApplied, WasPicked, WasMatched;
  }

  /** The payload is downloaded over the inbox manifest and matched. */
  function Replacing(env: Env, payload: string): seq<Event> {
    var tmp := At(Tmp(env.InboxPath()));
    [Put(tmp, payload), Move(tmp, env.Inbox()), Matched(payload)]
  }

  lemma ReplacedRuns(env: Env, m: string, sig: string, cert: string, f: File, payload: string, rest: seq<Event>)
    requires Verify.Authentic(env.pki, m, sig, cert) && Picks(env, m, f) && OverInbox(env, f) && HashMatches(env, payload, f)
    ensures Run(env, map[], Arrival(env, m, sig, cert, f) + Replacing(env, payload) + rest, 8)
         == Some(State(map[env.Inbox() := payload], Checked(m, f, payload)))
  {
    hide IsTmp, At, Verify.Authentic, Picks, HashMatches, Storable;
    var i, tmp := env.Inbox(), At(Tmp(env.InboxPath()));
    PathsDiffer(env);
    TmpAt(env.InboxPath());
    CollidingTmp(env, f);
    var trace := Arrival(env, m, sig, cert, f) + Replacing(env, payload) + rest;
    ArrivalRuns(env, m, sig, cert, f, Replacing(env, payload) + rest);
    assert trace == Arrival(env, m, sig, cert, f) + (Replacing(env, payload) + rest);
    assert Run(env, map[], trace, 6) == Some(State(map[i := m, tmp := payload], Chose(m, f, Receiving(payload))));
    assert Effect(map[i := m, tmp := payload], trace[6]) == map[i := payload];
    assert Run(env, map[], trace, 7) == Some(State(map[i := payload], Chose(m, f, Stored(payload))));
  }

  function Applying(f: File, payload: string): seq<Event> {
    if f.fileType == Some("rauc_bundle") then [Install(payload), Apply(Some(0))] else [Apply(None)]
  }

  function Arrival(env: Env, m: string, sig: string, cert: string, f: File): seq<Event> {
    var tmp := At(Tmp(env.InboxPath()));
    [Begin, Put(tmp, m), Move(tmp, env.Inbox()), Verified(m, sig, cert), Picked(f)]
  }

  lemma ArrivalRuns(env: Env, m: string, sig: string, cert: string, f: File, rest: seq<Event>)
    requires Verify.Authentic(env.pki, m, sig, cert) && Picks(env, m, f)
    ensures Run(env, map[], Arrival(env, m, sig, cert, f) + rest, 5) == Some(State(map[env.Inbox() := m], Chose(m, f, Waiting)))
  {
    hide IsTmp, At, Verify.Authentic, Picks;
    var trace, i, tmp := Arrival(env, m, sig, cert, f) + rest, env.Inbox(), At(Tmp(env.InboxPath()));
    PathsDiffer(env);
    TmpAt(env.InboxPath());
    assert Run(env, map[], trace, 1) == Some(State(map[], Idle({})));
    assert {} + {tmp} == {tmp} && {tmp} - {tmp} + {i} == {i};
    assert Run(env, map[], trace, 2) == Some(State(map[tmp := m], Idle({tmp})));
    assert Effect(map[tmp := m], trace[2]) == map[i := m];
    assert Run(env, map[], trace, 3) == Some(State(map[i := m], Idle({i})));
    assert Run(env, map[], trace, 4) == Some(State(map[i := m], Trusted(m)));
  }

  /** Every install is justified inside its own attempt: the manifest was verified, then the file
      chosen from it, then the very bytes now installed matched against that file, and nothing
      was installed before in this attempt. */
  lemma InstallJustified(env: Env, fs: Files, trace: seq<Event>, i: nat) returns (w: Evidence, manifest: string, file: File)
    requires i < |trace| && trace[i].Install? && Run(env, fs, trace, i + 1).Some?
    ensures Authorised(env, trace, w, i, manifest, file, trace[i].payload) && NoInstall(trace, w.begin, i)
    ensures file.fileType == Some("rauc_bundle")
    ensures Holds(Run(env, fs, trace, i).value.fs, env.Payload(file), trace[i].payload)
  {
    hide Authorised, NoInstall, Effect;
    w := PhaseEvidence(env, fs, trace, i);
    var ph := Run(env, fs, trace, i).value.phase;
    manifest, file := ph.manifest, ph.file;
  }

  /** At most one install per attempt: between two installs a new attempt begins. */
  lemma OneInstallPerAttempt(env: Env, fs: Files, trace: seq<Event>, i: nat, j: nat) returns (b: nat)
    requires i < j < |trace| && trace[i].Install? && trace[j].Install? && Accepted(env, fs, trace)
    ensures i < b < j && trace[b] == Begin
  {
    RunPrefix(env, fs, trace, |trace|, j + 1);
    var w, _, _ := InstallJustified(env, fs, trace, j);
    b := w.begin;
  }
}

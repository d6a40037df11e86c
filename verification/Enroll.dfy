/** Enrollment: `ota_fetch_enroll` of src/enroll.c.  Key, then certificate, then token removal,
    in an order that neither a stop of the program nor a crash of the machine can upset. */
module Enroll {
  import opened Wrappers
  import opened Text
  import opened Paths
  import opened Disk
  import opened AtomicWrite
  import Token

  /** What the surroundings answer.  `keyPem` is the generated key, `certPem` and `chainPem` the
      members of the server's reply. */
  datatype EnrollScript = EnrollScript(
    statKey: bool, statCert: bool, tokenOk: bool, enrollUrl: Option<string>, serverUrl: Option<string>,
    keyPem: Option<string>, requestOk: bool, posted: bool, certPem: Option<string>, chainPem: Option<string>,
    keyWrite: WriteScript, certWrite: WriteScript, unlinkOk: bool)

  predicate NotEmpty(s: Option<string>) {
    s.Some? && s.value != ""
  }

  /** `parse_enroll_response`: the certificate, and a chain after it on a line of its own. */
  function Combined(cert: string, chain: Option<string>): string {
    if !NotEmpty(chain) then cert
    else if cert != "" && cert[|cert| - 1] != '\n' then cert + "\n" + chain.value
    else cert + chain.value
  }

  function NewKey(sc: EnrollScript): string {
    if sc.keyPem.Some? then sc.keyPem.value else ""
  }

  function NewCert(sc: EnrollScript): string {
    if sc.certPem.Some? then Combined(sc.certPem.value, sc.chainPem) else ""
  }

  /** The certificate file: the certificate, then the chain, if any, on a line of its own, with
      nothing or one newline between them. */
  lemma CombinedIs(cert: string, chain: Option<string>)
    ensures !NotEmpty(chain) ==> Combined(cert, chain) == cert
    ensures NotEmpty(chain) ==>
              || Combined(cert, chain) == cert + "\n" + chain.value
              || (Combined(cert, chain) == cert + chain.value && (cert == "" || cert[|cert| - 1] == '\n'))
    ensures NotEmpty(chain) && cert != "" && cert[|cert| - 1] == '\n' ==> Combined(cert, chain) == cert + chain.value
  {
  }

  // ---------- The order of changes ----------

  datatype Identity = Identity(key: Option<string>, cert: Option<string>, token: Option<string>)

  /** The four situations an enrollment passes through. */
  predicate Ordered(was: Identity, key: string, cert: string, now: Identity) {
    || now == was
    || now == was.(key := Some(key))
    || now == was.(key := Some(key), cert := Some(cert))
    || now == Identity(Some(key), Some(cert), None)
  }

  datatype Targets = Targets(key: Path, cert: Path, token: Path)

  predicate Distinct(at: Targets) {
    var tk, tc := At(Tmp(at.key)), At(Tmp(at.cert));
    && At(at.key) != At(at.cert) && At(at.key) != At(at.token) && At(at.cert) != At(at.token) && tk != tc
    && At(at.key) != tc && At(at.cert) != tk && At(at.token) != tk && At(at.token) != tc
  }

  function Seen(d: Disk, at: Targets): Identity {
    Identity(Content(d, At(at.key)), Content(d, At(at.cert)), Content(d, At(at.token)))
  }

  /** After a crash now, these three contents may be found together. */
  ghost predicate Found(d: Disk, at: Targets, now: Identity) {
    Survives(d, At(at.key), now.key) && Survives(d, At(at.cert), now.cert) && Survives(d, At(at.token), now.token)
  }

  /** Key and certificate live in named, durable directories, and the token's cannot vanish. */
  predicate Anchored(d: Disk, at: Targets) {
    Named(at.key) && Rooted(d, At(at.key)) && Named(at.cert) && Rooted(d, At(at.cert)) && Rooted(d, At(at.token))
  }

  /** State `d` of an enrollment that began in `d0` is in order, for a running program and after a crash. */
  ghost predicate InOrder(d0: Disk, d: Disk, at: Targets, key: string, cert: string) {
    && Ordered(Seen(d0, at), key, cert, Seen(d, at))
    && (Anchored(d0, at) ==> forall now :: Found(d, at, now) ==> Ordered(Seen(d0, at), key, cert, now))
  }

  /** A disk at rest: the three files are durable as they are, and nothing shares a temporary file. */
  ghost predicate AtRest(d: Disk, at: Targets) {
    && WellFormed(d) && Settled(d, At(at.key)) && Settled(d, At(at.cert)) && Settled(d, At(at.token))
    && Private(d, At(Tmp(at.key))) && Private(d, At(Tmp(at.cert))) && Distinct(at)
  }

  // ---------- Stages ----------

  /** An entry that is as before survives only as it was. */
  lemma Unmoved(d0: Disk, d: Disk, p: Place, c: Option<string>)
    requires WellFormed(d0) && SameEntry(d0, d, p) && Settled(d0, p) && d.solid == d0.solid
    ensures Content(d, p) == Content(d0, p)
    ensures Rooted(d0, p) && Survives(d, p, c) ==> c == Content(d0, p)
    ensures Settled(d, p)
  {
    SameEntrySurvives(d0, d, p, c);
    if Rooted(d0, p) { SettledSurvives(d0, p, c); }
    assert Binding(d, p) in Bindings(d, p);
  }

  lemma KeyStage(d0: Disk, d: Disk, at: Targets, key: string, cert: string)
    requires AtRest(d0, at) && Safe(d0, d, at.key, key)
    ensures InOrder(d0, d, at, key, cert)
  {
    hide At, Survives, Content, Settled, Rooted, WellFormed, SameEntry;
    assert SameEntry(d0, d, At(at.cert)) && SameEntry(d0, d, At(at.token));
    Unmoved(d0, d, At(at.cert), None);
    Unmoved(d0, d, At(at.token), None);
    forall now | Anchored(d0, at) && Found(d, at, now) ensures Ordered(Seen(d0, at), key, cert, now) {
      Unmoved(d0, d, At(at.cert), now.cert);
      Unmoved(d0, d, At(at.token), now.token);
    }
  }

  /** The key is written: what holds between the two writes. */
  ghost predicate KeyWritten(d0: Disk, d1: Disk, at: Targets, key: string) {
    && AtRest(d0, at) && Safe(d0, d1, at.key, key)
    && Content(d1, At(at.key)) == Some(key) && (Named(at.key) ==> Settled(d1, At(at.key)))
  }

  /** The second write meets the same conditions as the first. */
  lemma ReadyForCert(d0: Disk, d1: Disk, at: Targets, key: string)
    requires KeyWritten(d0, d1, at, key)
    ensures WellFormed(d1) && Settled(d1, At(at.cert)) && Settled(d1, At(at.token)) && Private(d1, At(Tmp(at.cert)))
  {
    Unmoved(d0, d1, At(at.cert), None);
    Unmoved(d0, d1, At(at.token), None);
    var tmp := At(Tmp(at.cert));
    assert SameEntry(d0, d1, tmp);
    if tmp in d1.names {
      var j := d1.names[tmp];
      assert Some(j) in Bindings(d0, tmp) && Known(d0, Some(j));
      forall q | q != tmp ensures Some(j) !in Bindings(d1, q) {
        assert q != At(at.key) && q != At(Tmp(at.key)) ==> SameEntry(d0, d1, q);
        assert Some(j) !in Bindings(d0, At(at.key)) && Some(j) !in Bindings(d0, At(Tmp(at.key)));
      }
    }
  }

  lemma CertStage(d0: Disk, d1: Disk, d: Disk, at: Targets, key: string, cert: string)
    requires KeyWritten(d0, d1, at, key) && Safe(d1, d, at.cert, cert)
    ensures InOrder(d0, d, at, key, cert)
  {
    hide At, Survives, Settled, WellFormed, SameEntry, Content, Named;
    ReadyForCert(d0, d1, at, key);
    assert SameEntry(d0, d1, At(at.cert)) && SameEntry(d0, d1, At(at.token));
    assert SameEntry(d1, d, At(at.key)) && SameEntry(d1, d, At(at.token));
    Unmoved(d0, d1, At(at.cert), None);
    Unmoved(d0, d1, At(at.token), None);
    Unmoved(d1, d, At(at.token), None);
    SameEntrySurvives(d1, d, At(at.key), None);
    forall now | Anchored(d0, at) && Found(d, at, now) ensures Ordered(Seen(d0, at), key, cert, now) {
      Unmoved(d1, d, At(at.token), now.token);
      Unmoved(d1, d, At(at.key), now.key);
    }
  }

  /** Both are written. */
  ghost predicate CertWritten(d0: Disk, d1: Disk, d2: Disk, at: Targets, key: string, cert: string) {
    && KeyWritten(d0, d1, at, key) && Safe(d1, d2, at.cert, cert)
    && Content(d2, At(at.cert)) == Some(cert) && (Named(at.cert) ==> Settled(d2, At(at.cert)))
  }

  lemma UnlinkKeeps(d: Disk, token: Place, q: Place)
    requires WellFormed(d) && q != token
    ensures SameEntry(d, Unlinked(d, token), q)
  {
    assert Bindings(Unlinked(d, token), q) == Bindings(d, q);
  }

  lemma UnlinkToken(d: Disk, token: Place, c: Option<string>)
    requires WellFormed(d) && Settled(d, token) && Rooted(d, token)
    ensures Survives(Unlinked(d, token), token, c) ==> c == Content(d, token) || c == None
    ensures Content(Unlinked(d, token), token) == None
  {
    var d' := Unlinked(d, token);
    if exists b :: b in Bindings(d', token) && Leaves(d', b, c) {
      var b :| b in Bindings(d', token) && Leaves(d', b, c);
      assert b == None || b in Bindings(d, token);
    }
  }

  lemma TokenStage(d0: Disk, d1: Disk, d2: Disk, at: Targets, key: string, cert: string)
    requires CertWritten(d0, d1, d2, at, key, cert)
    ensures InOrder(d0, Unlinked(d2, At(at.token)), at, key, cert)
  {
    hide At, Survives, Settled, WellFormed, SameEntry, Content, Named, Unlinked;
    var d := Unlinked(d2, At(at.token));
    ReadyForCert(d0, d1, at, key);
    assert SameEntry(d0, d1, At(at.token)) && SameEntry(d1, d2, At(at.token)) && SameEntry(d1, d2, At(at.key));
    Unmoved(d0, d1, At(at.token), None);
    Unmoved(d1, d2, At(at.token), None);
    SameEntrySurvives(d1, d2, At(at.key), None);
    UnlinkSolid(d2, At(at.token));
    UnlinkKeeps(d2, At(at.token), At(at.key));
    UnlinkKeeps(d2, At(at.token), At(at.cert));
    SameEntrySurvives(d2, d, At(at.key), None);
    SameEntrySurvives(d2, d, At(at.cert), None);
    forall now | Anchored(d0, at) && Found(d, at, now) ensures Ordered(Seen(d0, at), key, cert, now) {
      Unmoved(d1, d2, At(at.key), now.key);
      Unmoved(d2, d, At(at.key), now.key);
      Unmoved(d2, d, At(at.cert), now.cert);
      UnlinkToken(d2, At(at.token), now.token);
    }
  }

  lemma UnlinkSolid(d: Disk, token: Place)
    ensures Unlinked(d, token).solid == d.solid && Content(Unlinked(d, token), token) == None
  {
  }

  /** If a crash during or after an enrollment leaves no token where there was one, it leaves the
      key and the certificate of this very enrollment. */
  lemma TokenGoneMeansEnrolled(d0: Disk, d: Disk, at: Targets, key: string, cert: string, now: Identity)
    requires InOrder(d0, d, at, key, cert) && Anchored(d0, at) && Content(d0, At(at.token)).Some?
    requires Found(d, at, now) && now.token == None
    ensures now.key == Some(key) && now.cert == Some(cert)
  {
    assert Ordered(Seen(d0, at), key, cert, now);
  }

  // ---------- When a missing token can be trusted ----------

  /** Every crash leaves exactly these bytes. */
  ghost predicate Only(d: Disk, p: Place, x: string) {
    forall c :: Survives(d, p, c) ==> c == Some(x)
  }

  /** Whenever a crash leaves no token, it leaves the key and the certificate of this enrollment. */
  ghost predicate TokenTells(d: Disk, at: Targets, key: string, cert: string) {
    forall now :: Found(d, at, now) && now.token == None ==> now.key == Some(key) && now.cert == Some(cert)
  }

  /** Both directories are durable, and a write syncs the entry of each file: its own, or for the
      key that of the certificate in the same directory. */
  predicate Assured(d: Disk, at: Targets) {
    && Rooted(d, At(at.key)) && Rooted(d, At(at.cert)) && Named(at.cert)
    && (Named(at.key) || Parent(At(at.key)) == Parent(At(at.cert)))
  }

  /** A completed enrollment, with all that its two writes promise. */
  ghost predicate Completed(d0: Disk, d1: Disk, d2: Disk, at: Targets, key: string, cert: string) {
    && CertWritten(d0, d1, d2, at, key, cert) && EndsInName(at.key)
    && DurableIff(d0, d1, at.key, key) && BytesOnDisk(d1, At(at.key))
    && DurableIff(d1, d2, at.cert, cert) && SettlesDirectory(d1, d2, at.cert)
  }

  lemma SameSurvives(d: Disk, d': Disk, p: Place, c: Option<string>)
    requires WellFormed(d) && SameEntry(d, d', p) && Bindings(d', p) == Bindings(d, p) && d'.solid == d.solid
    ensures Survives(d', p, c) <==> Survives(d, p, c)
  {
    forall b | b in Bindings(d, p) ensures Leaves(d', b, c) <==> Leaves(d, b, c) {
      if b.Some? { assert SameFile(d, d', b.value); }
    }
  }

  lemma OnlyWhenBound(d: Disk, p: Place, x: string)
    requires BytesOnDisk(d, p) && Bindings(d, p) == {Binding(d, p)} && Content(d, p) == Some(x)
    ensures Only(d, p, x) <==> Rooted(d, p)
  {
    if !Rooted(d, p) { assert Survives(d, p, None); }
  }

  /** What running programs see may survive. */
  lemma SeenSurvives(d: Disk, p: Place)
    requires Content(d, p).Some?
    ensures Survives(d, p, Content(d, p))
  {
    assert Binding(d, p) in Bindings(d, p) && Leaves(d, Binding(d, p), Content(d, p));
  }

  lemma NamedPlace(path: Path)
    requires EndsInName(path)
    ensures At(path) != []
  {
  }

  lemma KeyOnly(d0: Disk, d1: Disk, d2: Disk, at: Targets, key: string, cert: string)
    requires Completed(d0, d1, d2, at, key, cert) && Content(d0, At(at.key)) != Some(key)
    ensures Only(d2, At(at.key), key) <==>
            Rooted(d0, At(at.key)) && (Named(at.key) || (Named(at.cert) && Parent(At(at.key)) == Parent(At(at.cert))))
  {
    hide At, EndsInName, Named, Parent, Survives;
    var p := At(at.key);
    ReadyForCert(d0, d1, at, key);
    NamedPlace(at.key);
    assert SameEntry(d1, d2, p) && Binding(d1, p) in Bindings(d1, p) && SameFile(d1, d2, d1.names[p]);
    if Named(at.cert) && Parent(p) == Parent(At(at.cert)) {
      OnlyWhenBound(d2, p, key);
    } else {
      forall c ensures Survives(d2, p, c) <==> Survives(d1, p, c) { SameSurvives(d1, d2, p, c); }
    }
  }

  lemma CertOnly(d0: Disk, d1: Disk, d2: Disk, at: Targets, key: string, cert: string)
    requires Completed(d0, d1, d2, at, key, cert) && Content(d0, At(at.cert)) != Some(cert)
    ensures Only(d2, At(at.cert), cert) <==> Rooted(d0, At(at.cert)) && Named(at.cert)
  {
    hide At, EndsInName, Named, Parent, Survives;
    assert SameEntry(d0, d1, At(at.cert));
    SameEntrySurvives(d0, d1, At(at.cert), None);
  }

  lemma UnlinkSame(d: Disk, token: Place, q: Place)
    requires WellFormed(d) && q != token
    ensures forall c :: Survives(Unlinked(d, token), q, c) <==> Survives(d, q, c)
    ensures Survives(Unlinked(d, token), token, None)
  {
    hide Survives;
    UnlinkKeeps(d, token, q);
    assert Bindings(Unlinked(d, token), q) == Bindings(d, q);
    forall c ensures Survives(Unlinked(d, token), q, c) <==> Survives(d, q, c) {
      SameSurvives(d, Unlinked(d, token), q, c);
    }
    NothingSurvives(Unlinked(d, token), token);
  }

  lemma NothingSurvives(d: Disk, p: Place)
    requires p !in d.names
    ensures Survives(d, p, None)
  {
    assert Binding(d, p) in Bindings(d, p) && Leaves(d, Binding(d, p), None);
  }

  /** The exact condition: after an enrollment that changed both files, a missing token tells that
      they are the new ones, after every crash, if and only if both are assured. */
  lemma TokenTellsExactlyIf(d0: Disk, d1: Disk, d2: Disk, at: Targets, key: string, cert: string)
    requires Completed(d0, d1, d2, at, key, cert)
    requires Content(d0, At(at.key)) != Some(key) && Content(d0, At(at.cert)) != Some(cert)
    ensures TokenTells(Unlinked(d2, At(at.token)), at, key, cert) <==> Assured(d0, at)
  {
    hide At, Survives, Completed, Unlinked, Content, Named, Rooted, Parent, WellFormed;
    var d := Unlinked(d2, At(at.token));
    CompletedShape(d0, d1, d2, at, key, cert);
    KeyOnly(d0, d1, d2, at, key, cert);
    CertOnly(d0, d1, d2, at, key, cert);
    UnlinkSame(d2, At(at.token), At(at.key));
    UnlinkSame(d2, At(at.token), At(at.cert));
    SeenSurvives(d2, At(at.key));
    SeenSurvives(d2, At(at.cert));
    if TokenTells(d, at, key, cert) {
      forall c | Survives(d2, At(at.key), c) ensures c == Some(key) {
        assert Found(d, at, Identity(c, Some(cert), None));
      }
      forall c | Survives(d2, At(at.cert), c) ensures c == Some(cert) {
        assert Found(d, at, Identity(Some(key), c, None));
      }
    }
  }

  lemma CompletedShape(d0: Disk, d1: Disk, d2: Disk, at: Targets, key: string, cert: string)
    requires Completed(d0, d1, d2, at, key, cert)
    ensures WellFormed(d2) && Distinct(at) && d2.solid == d0.solid
    ensures Content(d2, At(at.key)) == Some(key) && Content(d2, At(at.cert)) == Some(cert)
  {
    hide At, EndsInName, Named, Survives;
    assert SameEntry(d1, d2, At(at.key));
    SameEntrySurvives(d1, d2, At(at.key), None);
  }

  /** The crash of a first enrollment into directories that it made itself: nothing is left, not
      even the token. */
  lemma AllLost(d0: Disk, d1: Disk, d2: Disk, at: Targets, key: string, cert: string)
    requires Completed(d0, d1, d2, at, key, cert) && !Rooted(d0, At(at.key)) && !Rooted(d0, At(at.cert))
    ensures Found(Unlinked(d2, At(at.token)), at, Identity(None, None, None))
  {
    hide At, Completed;
    CompletedShape(d0, d1, d2, at, key, cert);
    NothingSurvives(Unlinked(d2, At(at.token)), At(at.token));
  }

  // ---------- The code ----------

  predicate Present(d: Disk, at: Targets, sc: EnrollScript) {
    (sc.statKey && Content(d, At(at.key)).Some?) || (sc.statCert && Content(d, At(at.cert)).Some?)
  }

  /** The server has been asked and has answered with a certificate. */
  predicate Granted(d: Disk, at: Targets, sc: EnrollScript) {
    && sc.tokenOk && Content(d, At(at.token)).Some? && Trim(Content(d, At(at.token)).value) != ""
    && (NotEmpty(sc.enrollUrl) || NotEmpty(sc.serverUrl))
    && sc.keyPem.Some? && sc.requestOk && sc.posted && NotEmpty(sc.certPem)
  }

  /** Key and certificate differ from what was there. */
  predicate Renews(d: Disk, at: Targets, sc: EnrollScript) {
    Content(d, At(at.key)) != Some(NewKey(sc)) && Content(d, At(at.cert)) != Some(NewCert(sc))
  }

  ghost predicate Extends(was: seq<Disk>, now: seq<Disk>) {
    |was| <= |now| && now[..|was|] == was
  }

  /** Everything before the first write. */
  method Request(m: Machine, at: Targets, sc: EnrollScript) returns (ok: bool)
    ensures ok == Granted(m.disk, at, sc)
    ensures ok ==> Content(m.disk, At(at.token)).Some?
  {
    if !sc.tokenOk || Content(m.disk, At(at.token)).None? { return false; }
    var token := Token.ReadToken(Content(m.disk, At(at.token)).value);
    if token.None? { return false; }
    if !NotEmpty(sc.enrollUrl) && !NotEmpty(sc.serverUrl) { return false; }
    if sc.keyPem.None? || !sc.requestOk || !sc.posted || !NotEmpty(sc.certPem) { return false; }
    return true;
  }

  /** `ota_fetch_enroll`. */
  method Enroll(m: Machine, at: Targets, force: bool, sc: EnrollScript) returns (rc: int)
    requires AtRest(m.disk, at)
    modifies m
    ensures Extends(old(m.history), m.history)
    ensures forall k :: |old(m.history)| <= k < |m.history| ==>
              InOrder(old(m.disk), m.history[k], at, NewKey(sc), NewCert(sc))
    ensures InOrder(old(m.disk), m.disk, at, NewKey(sc), NewCert(sc))
    ensures !force && Present(old(m.disk), at, sc) ==> rc == -1 && m.disk == old(m.disk) && m.history == old(m.history)
    ensures rc == 0 <==>
      && (force || !Present(old(m.disk), at, sc)) && Granted(old(m.disk), at, sc)
      && Works(sc.keyWrite, at.key, NewKey(sc)) && Works(sc.certWrite, at.cert, NewCert(sc)) && sc.unlinkOk
    ensures rc == 0 ==> Seen(m.disk, at) == Identity(Some(NewKey(sc)), Some(NewCert(sc)), None)
    ensures rc == 0 ==> sc.keyPem.Some? && Content(m.disk, At(at.key)) == sc.keyPem
    ensures rc == 0 ==> NotEmpty(sc.certPem) && Content(m.disk, At(at.cert)) == Some(Combined(sc.certPem.value, sc.chainPem))
    ensures rc == 0 ==> sc.tokenOk && sc.requestOk && sc.posted && sc.unlinkOk && (NotEmpty(sc.enrollUrl) || NotEmpty(sc.serverUrl))
    ensures rc == 0 ==> Content(old(m.disk), At(at.token)).Some? && Trim(Content(old(m.disk), At(at.token)).value) != ""
    ensures !force && sc.statKey && Content(old(m.disk), At(at.key)).Some? ==> rc == -1 && m.disk == old(m.disk)
    ensures !force && sc.statCert && Content(old(m.disk), At(at.cert)).Some? ==> rc == -1 && m.disk == old(m.disk)
    ensures rc == 0 && Renews(old(m.disk), at, sc) ==>
              (TokenTells(m.disk, at, NewKey(sc), NewCert(sc)) <==> Assured(old(m.disk), at))
    ensures rc == 0 && !Rooted(old(m.disk), At(at.key)) && !Rooted(old(m.disk), At(at.cert)) ==>
              Found(m.disk, at, Identity(None, None, None))
  {
    hide At, InOrder, Safe, Settled, WellFormed, SameEntry, Content, Named, Works, Unlinked, Present, Granted, Private,
         NewKey, NewCert, TokenTells, Assured, Found, DurableIff, SettlesDirectory, BytesOnDisk, Rooted, EndsInName, Combined,
         Trim;
    ghost var d0 := m.disk;
    var key, cert := NewKey(sc), NewCert(sc);
    NoChange(d0, at, key, cert);
    GrantedMeans(d0, at, sc);
    if !force && Present(m.disk, at, sc) { return -1; }
    var ok := Request(m, at, sc);
    if !ok { return -1; }

    rc := m.WriteFileAtomic(at.key, key, sc.keyWrite);
    forall d | Safe(d0, d, at.key, key) ensures InOrder(d0, d, at, key, cert) { KeyStage(d0, d, at, key, cert); }
    if rc != 0 { return; }
    ghost var d1 := m.disk;
    ReadyForCert(d0, d1, at, key);

    rc := m.WriteFileAtomic(at.cert, cert, sc.certWrite);
    forall d | Safe(d1, d, at.cert, cert) ensures InOrder(d0, d, at, key, cert) { CertStage(d0, d1, d, at, key, cert); }
    if rc != 0 { return; }
    ghost var d2 := m.disk;

    TokenThere(d0, d1, d2, at, key, cert);
    TokenStage(d0, d1, d2, at, key, cert);
    AllDone(d0, d1, d2, at, key, cert);
    WorksNamed(sc.keyWrite, at.key, key);
    if Renews(d0, at, sc) { TokenTellsExactlyIf(d0, d1, d2, at, key, cert); }
    if !Rooted(d0, At(at.key)) && !Rooted(d0, At(at.cert)) { AllLost(d0, d1, d2, at, key, cert); }
    if At(at.token) in m.disk.names {
      if !sc.unlinkOk { return -1; }
      m.Set(Unlinked(m.disk, At(at.token)));
    }
    return 0;
  }

  lemma GrantedMeans(d: Disk, at: Targets, sc: EnrollScript)
    ensures Granted(d, at, sc) ==>
              && sc.keyPem == Some(NewKey(sc)) && NotEmpty(sc.certPem) && NewCert(sc) == Combined(sc.certPem.value, sc.chainPem)
              && sc.tokenOk && sc.requestOk && sc.posted && (NotEmpty(sc.enrollUrl) || NotEmpty(sc.serverUrl))
              && Content(d, At(at.token)).Some? && Trim(Content(d, At(at.token)).value) != ""
    ensures (sc.statKey && Content(d, At(at.key)).Some?) || (sc.statCert && Content(d, At(at.cert)).Some?) ==> Present(d, at, sc)
  {
  }

  lemma WorksNamed(sc: WriteScript, path: Path, data: string)
    requires Works(sc, path, data)
    ensures EndsInName(path)
  {
  }

  lemma NoChange(d0: Disk, at: Targets, key: string, cert: string)
    requires AtRest(d0, at)
    ensures InOrder(d0, d0, at, key, cert)
  {
    forall now | Anchored(d0, at) && Found(d0, at, now) ensures now == Seen(d0, at) {
      SettledSurvives(d0, At(at.key), now.key);
      SettledSurvives(d0, At(at.cert), now.cert);
      SettledSurvives(d0, At(at.token), now.token);
    }
  }

  /** The writes leave the token in place. */
  lemma TokenThere(d0: Disk, d1: Disk, d2: Disk, at: Targets, key: string, cert: string)
    requires CertWritten(d0, d1, d2, at, key, cert)
    ensures Content(d0, At(at.token)).Some? ==> At(at.token) in d2.names
  {
    assert SameEntry(d0, d1, At(at.token)) && SameEntry(d1, d2, At(at.token));
  }

  lemma AllDone(d0: Disk, d1: Disk, d2: Disk, at: Targets, key: string, cert: string)
    requires CertWritten(d0, d1, d2, at, key, cert)
    ensures Seen(Unlinked(d2, At(at.token)), at) == Identity(Some(key), Some(cert), None)
  {
    assert SameEntry(d1, d2, At(at.key));
    ReadyForCert(d0, d1, at, key);
    SameEntrySurvives(d1, d2, At(at.key), None);
  }
}

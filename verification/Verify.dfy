/** Manifest signature verification: the ordered gate of src/verify_libcrypto.c over oracles for
    X.509 and signature mathematics, and its bounded error text. */
module Verify {
  import opened Wrappers
  import opened Text
  import opened CString

  const SIG_MAX_LEN: nat := 16 * 1024
  const SIG_ED25519_LEN: nat := 64
  const MANIFEST_MAX_LEN: nat := 1024 * 1024

  datatype Result =
    | Ok | ErrOpenFile | ErrLoadCert | ErrLoadCa | ErrCertVerify | ErrLoadPubkey
    | ErrReadSig | ErrMem | ErrSigVerify | ErrHash | ErrReadData

  datatype KeyKind = Ed25519 | Ec | Rsa | OtherKind

  /** What OpenSSL decides: certificates and keys are handles. */
  datatype Pki = Pki(
    readCert: string -> Option<int>,
    chains: int -> bool,
    publicKey: int -> Option<int>,
    kind: int -> KeyKind,
    signs: (int, string, string) -> bool)

  /** The signature over `data` holds under the certificate, and the certificate is trusted. */
  ghost predicate Authentic(pki: Pki, data: string, sig: string, cert: string) {
    match pki.readCert(cert)
    case None => false
    case Some(c) =>
      pki.chains(c) &&
      match pki.publicKey(c)
      case None => false
      case Some(key) =>
        && 0 < |sig| <= SIG_MAX_LEN
        && match pki.kind(key)
           case Ed25519 => |sig| == SIG_ED25519_LEN && |data| <= MANIFEST_MAX_LEN && pki.signs(key, data, sig)
           case OtherKind => false
           case _ => pki.signs(key, data, sig)
  }

  /** In other words: the certificate is readable and chains to the trusted one, its key is of a known
      kind and the signature over the data holds under it, with the sizes the program allows. */
  lemma AuthenticMeans(pki: Pki, data: string, sig: string, cert: string)
    ensures Authentic(pki, data, sig, cert) <==>
            exists c, key :: TrustedKey(pki, cert, c, key) && pki.signs(key, data, sig) && 1 <= |sig| <= 16384
              && pki.kind(key) != OtherKind && (pki.kind(key) == Ed25519 ==> |sig| == 64 && |data| <= 1048576)
  {
    if Authentic(pki, data, sig, cert) {
      var c := pki.readCert(cert).value;
      assert TrustedKey(pki, cert, c, pki.publicKey(c).value);
    }
  }

  predicate TrustedKey(pki: Pki, cert: string, c: int, key: int) {
    pki.readCert(cert) == Some(c) && pki.chains(c) && pki.publicKey(c) == Some(key)
  }

  /** How the data file is read: the size of each piece, whether OpenSSL takes it, and the byte at
      which reading breaks off, if it does. */
  datatype Feed = Feed(piece: nat -> nat, updateOk: nat -> bool, brokenAt: Option<nat>)

  /** Things that can fail for reasons other than the contents. */
  datatype Faults = Faults(storeMem: bool, storeLoad: bool, chainMem: bool, chainInit: bool, sigSeek: bool,
                           sigMem: bool, sigRead: bool, dataRead: bool, dataMem: bool, ctxMem: bool, init: bool, feed: Feed)

  ghost predicate NoFaults(f: Faults) {
    && !f.storeMem && !f.storeLoad && !f.chainMem && !f.chainInit && !f.sigSeek && !f.sigMem && !f.sigRead
    && !f.dataRead && !f.dataMem && !f.ctxMem && !f.init && f.feed.brokenAt.None? && forall i :: f.feed.updateOk(i)
  }

  method LoadCaStore(f: Faults) returns (r: Result)
    ensures r == if f.storeMem then ErrMem else if f.storeLoad then ErrLoadCa else Ok
  {
    if f.storeMem { return ErrMem; }
    if f.storeLoad { return ErrLoadCa; }
    return Ok;
  }

  method VerifySignerCert(pki: Pki, cert: int, f: Faults) returns (r: Result)
    ensures r == Ok <==> !f.chainMem && !f.chainInit && pki.chains(cert)
    ensures r != Ok ==> r == if f.chainMem then ErrMem else ErrCertVerify
  {
    if f.chainMem { return ErrMem; }
    if f.chainInit || !pki.chains(cert) { return ErrCertVerify; }
    return Ok;
  }

  method ReadSignature(sig: Option<string>, f: Faults) returns (r: Result, bytes: string)
    ensures r == Ok <==> sig.Some? && 0 < |sig.value| <= SIG_MAX_LEN && !f.sigSeek && !f.sigMem && !f.sigRead
    ensures r == Ok ==> bytes == sig.value
    ensures r != Ok ==> r == ErrOpenFile || r == ErrReadSig || r == ErrMem
  {
    bytes := "";
    if sig.None? { return ErrOpenFile, bytes; }
    if f.sigSeek || |sig.value| == 0 || |sig.value| > SIG_MAX_LEN { return ErrReadSig, bytes; }
    if f.sigMem { return ErrMem, bytes; }
    if f.sigRead { return ErrReadSig, bytes; }
    return Ok, sig.value;
  }

  method VerifyEd25519(pki: Pki, key: int, data: Option<string>, sig: string, f: Faults) returns (r: Result)
    ensures r == Ok <==>
      && |sig| == SIG_ED25519_LEN && data.Some? && |data.value| <= MANIFEST_MAX_LEN
      && !f.dataRead && !f.dataMem && !f.ctxMem && !f.init && pki.signs(key, data.value, sig)
  {
    if |sig| != SIG_ED25519_LEN { return ErrSigVerify; }
    if data.None? { return ErrOpenFile; }
    if f.dataRead || |data.value| > MANIFEST_MAX_LEN { return ErrReadData; }
    if f.dataMem || f.ctxMem { return ErrMem; }
    if f.init || !pki.signs(key, data.value, sig) { return ErrSigVerify; }
    return Ok;
  }

  /** The signature is checked over the whole file, whatever pieces it was read in. */
  method VerifyRsaEcdsa(pki: Pki, key: int, data: Option<string>, sig: string, f: Faults) returns (r: Result)
    ensures r == Ok ==> data.Some? && !f.ctxMem && !f.init && f.feed.brokenAt.None? && pki.signs(key, data.value, sig)
    ensures NoFaults(f) && data.Some? ==> (r == Ok <==> pki.signs(key, data.value, sig))
    ensures data.Some? && !f.ctxMem && !f.init && f.feed.brokenAt.Some? ==> r == ErrHash
  {
    if data.None? { return ErrOpenFile; }
    if f.ctxMem { return ErrMem; }
    if f.init { return ErrSigVerify; }
    var file, feed := data.value, f.feed;
    var limit := if feed.brokenAt.Some? then Min(feed.brokenAt.value, |file|) else |file|;
    var hashed, at, i := "", 0, 0;
    while at < limit
      invariant at <= limit && hashed == file[..at]
    {
      var n := Min(Min(if feed.piece(i) == 0 then 1 else feed.piece(i), 4096), limit - at);
      if !feed.updateOk(i) { return ErrHash; }
      hashed, at, i := hashed + file[at..at + n], at + n, i + 1;
    }
    if feed.brokenAt.Some? { return ErrHash; }
    assert hashed == file;
    if !pki.signs(key, hashed, sig) { return ErrSigVerify; }
    return Ok;
  }

  /** `verify_signature_with_cert`: nothing passes that is not authentic, whatever fails along
      the way, and everything authentic passes when nothing fails. */
  method VerifySignatureWithCert(pki: Pki, data: Option<string>, sig: Option<string>, cert: Option<string>, f: Faults)
    returns (r: Result)
    ensures r == Ok ==> data.Some? && sig.Some? && cert.Some? && Authentic(pki, data.value, sig.value, cert.value)
    ensures NoFaults(f) && data.Some? && sig.Some? && cert.Some? && Authentic(pki, data.value, sig.value, cert.value)
            ==> r == Ok
    ensures cert.None? ==> r == ErrOpenFile
    ensures cert.Some? && pki.readCert(cert.value).None? ==> r == ErrLoadCert
  {
    if cert.None? { return ErrOpenFile; }
    var c := pki.readCert(cert.value);
    if c.None? { return ErrLoadCert; }
    r := LoadCaStore(f);
    if r != Ok { return; }
    r := VerifySignerCert(pki, c.value, f);
    if r != Ok { return; }
    var key := pki.publicKey(c.value);
    if key.None? { return ErrLoadPubkey; }
    var bytes;
    r, bytes := ReadSignature(sig, f);
    if r != Ok { return; }
    if pki.kind(key.value) == Ed25519 {
      r := VerifyEd25519(pki, key.value, data, bytes, f);
      return;
    }
    if pki.kind(key.value) != Ec && pki.kind(key.value) != Rsa { return ErrSigVerify; }
    r := VerifyRsaEcdsa(pki, key.value, data, bytes, f);
  }

  // ---------- The error text ----------

  /** All queued messages in one line; no separator before the first text. */
  function Joined(messages: seq<string>, n: nat): string
    requires n <= |messages|
  {
    if n == 0 then ""
    else var before := Joined(messages, n - 1);
         before + (if before == "" then "" else "; ") + messages[n - 1]
  }

  lemma JoinedThree(a: string, b: string, c: string)
    requires a != ""
    ensures Joined([a, b, c], 3) == a + "; " + b + "; " + c
  {
    assert Joined([a, b, c], 1) == a;
    assert Joined([a, b, c], 2) == a + "; " + b;
  }

  /** Later messages only ever extend the text. */
  lemma {:induction false} JoinedGrows(messages: seq<string>, n: nat, m: nat)
    requires n <= m <= |messages|
    ensures Joined(messages, n) <= Joined(messages, m)
    decreases m
  {
    if n < m { JoinedGrows(messages, n, m - 1); }
  }

  /** `snprintf(a + used, a.Length - used, "%s", text)`: as much as fits, terminated; the result is
      the length the whole text would have had. */
  method Print(a: array<char>, used: nat, text: string) returns (written: nat)
    requires used < a.Length
    modifies a
    ensures written == |text|
    ensures var n := Min(|text|, a.Length - used - 1);
            a[..used + n] == (old(a[..used]) + text)[..used + n] && a[used + n] == NUL
  {
    var n := Min(|text|, a.Length - used - 1);
    for i := 0 to n
      invariant a[..used] == old(a[..used])
      invariant forall k :: 0 <= k < i ==> a[used + k] == text[k]
    {
      a[used + i] := text[i];
    }
    a[used + n] := NUL;
    return |text|;
  }

  /** A buffer that holds the front of a NUL-free text and then a terminator. */
  lemma FrontHeld(b: seq<char>, all: string, n: nat)
    requires n < |b| && n <= |all| && b[..n] == all[..n] && b[n] == NUL && NulFree(all)
    ensures Terminated(b, 0) && At(b, 0) == all[..n]
  {
    assert forall i :: 0 <= i < n ==> b[i] == b[..n][i] == all[..n][i] == all[i];
    EndIs(b, 0, n);
  }

  lemma JoinedEmpty(messages: seq<string>)
    ensures Joined(messages, 0) == ""
  {
  }

  lemma JoinedSnoc(messages: seq<string>, n: nat)
    requires n < |messages|
    ensures Joined(messages, n + 1) ==
            Joined(messages, n) + ((if Joined(messages, n) == "" then "" else "; ") + messages[n])
  {
  }

  lemma {:induction false} JoinedNulFree(messages: seq<string>, n: nat)
    requires n <= |messages| && forall i :: 0 <= i < |messages| ==> NulFree(messages[i])
    ensures NulFree(Joined(messages, n))
  {
    if n > 0 { JoinedNulFree(messages, n - 1); }
  }

  /** `format_openssl_errors`: the buffer ends up holding the joined messages cut to what fits
      with a terminator, and never more. */
  method FormatErrors(errbuf: array<char>, messages: seq<string>)
    requires errbuf.Length > 0 && forall i :: 0 <= i < |messages| ==> NulFree(messages[i])
    modifies errbuf
    ensures Terminated(errbuf[..], 0)
    ensures At(errbuf[..], 0) == Take(Joined(messages, |messages|), errbuf.Length - 1)
  {
    hide NulFree, At, End, Terminated, Joined;
    JoinedEmpty(messages);
    ghost var whole := Joined(messages, |messages|);
    JoinedNulFree(messages, |messages|);
    var used, i := 0, 0;
    errbuf[0] := NUL;
    while i < |messages|
      invariant i <= |messages| && 0 <= used < errbuf.Length && errbuf[used] == NUL
      invariant errbuf[..used] == Joined(messages, i)
    {
      var text := (if used == 0 then "" else "; ") + messages[i];
      JoinedSnoc(messages, i);
      var written := Print(errbuf, used, text);
      i := i + 1;
      if written >= errbuf.Length - used {
        var last := errbuf.Length - 1;
        errbuf[last] := NUL;
        JoinedGrows(messages, i, |messages|);
        assert errbuf[..last] == Joined(messages, i)[..last] == whole[..last];
        FrontHeld(errbuf[..], whole, last);
        return;
      }
      used := used + written;
    }
    FrontHeld(errbuf[..], whole, used);
  }
}

/** SHA-256 over files and hexadecimal text: src/hash.c.  The digest itself is any function
    that absorbs one byte at a time. */
module Hash {
  import opened Wrappers
  import opened Text

  const DIGEST_LEN: nat := 32

  datatype Code = Ok | EOpen | EInit | EUpdate | ERead | EFinal

  /** A streaming digest: a start state, the effect of one byte, and the result. */
  datatype Hasher = Hasher(init: int, step: (int, char) -> int, finish: int -> string)

  function Absorb(h: Hasher, s: int, data: string): int
    decreases |data|
  {
    if data == "" then s else Absorb(h, h.step(s, data[0]), data[1..])
  }

  function Digest(h: Hasher, data: string): string {
    h.finish(Absorb(h, h.init, data))
  }

  lemma {:induction false} AbsorbConcat(h: Hasher, s: int, a: string, b: string)
    ensures Absorb(h, s, a + b) == Absorb(h, Absorb(h, s, a), b)
    decreases |a|
  {
    if a == "" {
      assert a + b == b;
    } else {
      assert (a + b)[1..] == a[1..] + b;
      AbsorbConcat(h, h.step(s, a[0]), a[1..], b);
    }
  }

  /** Absorbing nothing changes nothing, and absorbing a byte is one step. */
  lemma AbsorbByte(h: Hasher, s: int, c: char)
    ensures Absorb(h, s, "") == s && Absorb(h, s, [c]) == h.step(s, c)
  {
    assert [c][1..] == "";
  }

  /** Every byte counts: one more byte is one more step from the initial state to the result. */
  lemma DigestSteps(h: Hasher, data: string, c: char)
    ensures Digest(h, "") == h.finish(h.init)
    ensures Digest(h, data + [c]) == h.finish(h.step(Absorb(h, h.init, data), c))
  {
    AbsorbConcat(h, h.init, data, [c]);
    AbsorbByte(h, Absorb(h, h.init, data), c);
  }

  /** How reading a file goes: the size of each piece, the OpenSSL calls, and the byte at which
      reading breaks off, if it does. */
  datatype Reading = Reading(piece: nat -> nat, initOk: bool, updateOk: nat -> bool, brokenAt: Option<nat>, finalOk: bool)

  /** The bytes a reader gets to see. */
  function Readable(file: string, io: Reading): nat {
    if io.brokenAt.Some? then Min(io.brokenAt.value, |file|) else |file|
  }

  /** A reading with nothing going wrong, however it is split. */
  ghost predicate Clean(io: Reading) {
    io.initOk && io.finalOk && io.brokenAt.None? && forall i :: io.updateOk(i)
  }

  /** `sha256sum_file`: on success the digest of the whole file, whatever pieces `fread` returned. */
  method Sha256SumFile(h: Hasher, file: Option<string>, io: Reading) returns (rc: Code, digest: string)
    ensures rc == Ok ==> file.Some? && io.initOk && io.brokenAt.None? && digest == Digest(h, file.value) && |digest| == DIGEST_LEN
    ensures file.Some? && Clean(io) && |Digest(h, file.value)| == DIGEST_LEN ==> rc == Ok
    ensures rc == Ok && file.value == "" ==> digest == h.finish(h.init)
    ensures rc == Ok && |file.value| == 1 ==> digest == h.finish(h.step(h.init, file.value[0]))
    ensures file.None? ==> rc == EOpen
    ensures file.Some? && io.initOk && io.brokenAt.Some? ==> rc == ERead || rc == EUpdate
  {
    digest := "";
    if file.None? { return EOpen, digest; }
    if !io.initOk { return EInit, digest; }
    var data := file.value;
    var limit := Readable(data, io);
    var s, at, i := h.init, 0, 0;
    while at < limit
      invariant at <= limit && s == Absorb(h, h.init, data[..at])
    {
      var n := Min(Min(if io.piece(i) == 0 then 1 else io.piece(i), 4096), limit - at);
      if !io.updateOk(i) { return EUpdate, digest; }
      AbsorbConcat(h, h.init, data[..at], data[at..at + n]);
      assert data[..at + n] == data[..at] + data[at..at + n];
      s, at, i := Absorb(h, s, data[at..at + n]), at + n, i + 1;
    }
    if io.brokenAt.Some? { return ERead, digest; }
    assert data[..at] == data;
    if !io.finalOk { return EFinal, digest; }
    digest := h.finish(s);
    if |data| == 1 {
      AbsorbByte(h, h.init, data[0]);
      assert data == [data[0]];
    }
    if |digest| != DIGEST_LEN { return EFinal, digest; }
    return Ok, digest;
  }

  // ---------- Hexadecimal ----------

  predicate IsBytes(s: string) {
    forall i :: 0 <= i < |s| ==> s[i] as int < 256
  }

  function HexDigit(n: nat): (c: char)
    requires n < 16
  {
    "0123456789abcdef"[n]
  }

  /** The lowercase form of the Base16 alphabet of section 8 of RFC 4648. */
  function FromHexDigit(c: char): Option<nat> {
    if '0' <= c <= '9' then Some(c as int - 48)
    else if 'a' <= c <= 'f' then Some(c as int - 87)
    else None
  }

  function Hex(s: string): (r: string)
    requires IsBytes(s)
    ensures |r| == 2 * |s|
  {
    if s == "" then "" else [HexDigit(s[0] as int / 16), HexDigit(s[0] as int % 16)] + Hex(s[1..])
  }

  function Unhex(s: string): Option<string> {
    if s == "" then Some("")
    else if |s| == 1 then None
    else match (FromHexDigit(s[0]), FromHexDigit(s[1]), Unhex(s[2..]))
         case (Some(hi), Some(lo), Some(rest)) =>
           if hi < 16 && lo < 16 then Some([(16 * hi + lo) as char] + rest) else None
         case _ => None
  }

  lemma DigitRoundTrip(n: nat)
    requires n < 16
    ensures FromHexDigit(HexDigit(n)) == Some(n)
  {
  }

  /** Decoding undoes encoding; hence encoding is injective. */
  lemma {:induction false} HexRoundTrip(s: string)
    requires IsBytes(s)
    ensures Unhex(Hex(s)) == Some(s)
  {
    hide HexDigit, FromHexDigit;
    if s != "" {
      HexRoundTrip(s[1..]);
      var hi, lo := s[0] as int / 16, s[0] as int % 16;
      DigitRoundTrip(hi);
      DigitRoundTrip(lo);
      assert Hex(s)[2..] == Hex(s[1..]) && Hex(s)[0] == HexDigit(hi) && Hex(s)[1] == HexDigit(lo);
      assert [(16 * hi + lo) as char] + s[1..] == s;
    }
  }

  /** The high digit comes first, in lowercase. */
  lemma HexSample()
    ensures Hex([0 as char, 154 as char, 255 as char]) == "009aff"
  {
    var s := [0 as char, 154 as char, 255 as char];
    assert s[1..] == [154 as char, 255 as char] && s[1..][1..] == [255 as char];
    assert Hex([255 as char]) == "ff" by { assert [255 as char][1..] == ""; }
    assert Hex([154 as char, 255 as char]) == "9aff";
  }

  lemma DigitBack(c: char)
    requires FromHexDigit(c).Some?
    ensures FromHexDigit(c).value < 16 && HexDigit(FromHexDigit(c).value) == c
  {
  }

  lemma ByteParts(hi: nat, lo: nat)
    requires hi < 16 && lo < 16
    ensures var c := (16 * hi + lo) as char; c as int < 256 && c as int / 16 == hi && c as int % 16 == lo
  {
  }

  /** Only the encoding of a text decodes to it. */
  lemma {:induction false} UnhexHex(s: string)
    requires Unhex(s).Some?
    ensures IsBytes(Unhex(s).value) && Hex(Unhex(s).value) == s
  {
    hide HexDigit, FromHexDigit;
    if s != "" {
      UnhexHex(s[2..]);
      DigitBack(s[0]);
      DigitBack(s[1]);
      var rest, hi, lo := Unhex(s[2..]).value, FromHexDigit(s[0]).value, FromHexDigit(s[1]).value;
      ByteParts(hi, lo);
      var r := [(16 * hi + lo) as char] + rest;
      assert Unhex(s).value == r && r[1..] == rest;
      assert s == [s[0], s[1]] + s[2..];
    }
  }

  lemma HexInjective(a: string, b: string)
    requires IsBytes(a) && IsBytes(b) && Hex(a) == Hex(b)
    ensures a == b
  {
    HexRoundTrip(a);
    HexRoundTrip(b);
  }

  lemma {:induction false} HexAt(s: string, i: nat)
    requires IsBytes(s) && i < |s|
    ensures Hex(s)[2 * i] == HexDigit(s[i] as int / 16) && Hex(s)[2 * i + 1] == HexDigit(s[i] as int % 16)
  {
    if i > 0 { HexAt(s[1..], i - 1); }
  }

  /** `hex_encode`: fills `out` with the lowercase digits and a terminator, or refuses a buffer that is too small. */
  method HexEncode(out: array<char>, input: string) returns (rc: int)
    requires IsBytes(input)
    modifies out
    ensures rc == 0 <==> out.Length >= 2 * |input| + 1
    ensures rc == 0 ==> out[..2 * |input|] == Hex(input) && out[2 * |input|] == '\0'
    ensures rc != 0 ==> rc == -2 && out[..] == old(out[..])
  {
    if out.Length < |input| * 2 + 1 { return -2; }
    for i := 0 to |input|
      invariant forall k :: 0 <= k < 2 * i ==> out[k] == Hex(input)[k]
    {
      HexAt(input, i);
      out[i * 2] := HexDigit(input[i] as int / 16);
      out[i * 2 + 1] := HexDigit(input[i] as int % 16);
    }
    out[|input| * 2] := '\0';
    return 0;
  }

  // ---------- The ring of results ----------

  const RING_SLOTS: nat := 4
  const UINT_RANGE: nat := 0x1_0000_0000

  /** The static ring and slot counter of `sha256_hex`. */
  class HexRing {
    var ring: seq<string>
    var idx: nat

    ghost predicate Valid()
      reads this
    {
      |ring| == RING_SLOTS && idx < UINT_RANGE
    }

    constructor ()
      ensures Valid()
    {
      ring, idx := ["", "", "", ""], 0;
    }

    /** `sha256_hex`: the returned slot stands for the returned pointer. */
    method Format(digest: string) returns (slot: nat)
      requires Valid() && IsBytes(digest)
      modifies this
      ensures Valid()
      ensures slot == old(idx) % RING_SLOTS && ring[slot] == Hex(digest)
      ensures (ring, idx) == Cycle(old(ring), old(idx), [digest])
    {
      slot := idx % RING_SLOTS;
      idx := (idx + 1) % UINT_RANGE;
      ring := ring[slot := Hex(digest)];
    }
  }

  /** The ring after a sequence of calls. */
  ghost function Cycle(ring: seq<string>, idx: nat, digests: seq<string>): (seq<string>, nat)
    requires |ring| == RING_SLOTS && forall i :: 0 <= i < |digests| ==> IsBytes(digests[i])
    decreases |digests|
  {
    if digests == [] then (ring, idx)
    else Cycle(ring[idx % RING_SLOTS := Hex(digests[0])], (idx + 1) % UINT_RANGE, digests[1..])
  }

  /** The counter wraps at a multiple of the ring size. */
  lemma NextIndex(idx: nat, ahead: nat)
    requires idx < UINT_RANGE && ahead > 0
    ensures ((idx + 1) % UINT_RANGE + (ahead - 1)) % RING_SLOTS == (idx + ahead) % RING_SLOTS
  {
    if idx + 1 == UINT_RANGE {
      assert idx + ahead == RING_SLOTS * 0x4000_0000 + (ahead - 1);
    } else {
      assert (idx + 1) % UINT_RANGE == idx + 1;
    }
  }

  /** A slot that comes up again only `ahead` calls later keeps its text until then. */
  lemma {:induction false} CycleKeeps(ring: seq<string>, idx: nat, digests: seq<string>, slot: nat, ahead: nat)
    requires |ring| == RING_SLOTS && idx < UINT_RANGE && slot < RING_SLOTS
    requires forall i :: 0 <= i < |digests| ==> IsBytes(digests[i])
    requires |digests| <= ahead < RING_SLOTS && (idx + ahead) % RING_SLOTS == slot
    ensures |Cycle(ring, idx, digests).0| == RING_SLOTS && Cycle(ring, idx, digests).0[slot] == ring[slot]
    decreases |digests|
  {
    if digests != [] {
      NextIndex(idx, ahead);
      CycleKeeps(ring[idx % RING_SLOTS := Hex(digests[0])], (idx + 1) % UINT_RANGE, digests[1..], slot, ahead - 1);
    }
  }

  /** The result of a call is in the slot four calls back, no sooner and no later. */
  lemma {:induction false} NewestSlot(ring: seq<string>, idx: nat, before: seq<string>, digest: string)
    requires |ring| == 4 && idx < UINT_RANGE && IsBytes(digest) && forall i :: 0 <= i < |before| ==> IsBytes(before[i])
    ensures var r := Cycle(ring, idx, before + [digest]).0; |r| == 4 && r[(idx + |before|) % 4] == Hex(digest)
    decreases |before|
  {
    if before == [] {
      assert before + [digest] == [digest] && [digest][1..] == [];
    } else {
      assert (before + [digest])[1..] == before[1..] + [digest];
      NextIndex(idx, |before|);
      NewestSlot(ring[idx % RING_SLOTS := Hex(before[0])], (idx + 1) % UINT_RANGE, before[1..], digest);
    }
  }

  /** Each result survives the next three calls, also when the unsigned counter wraps. */
  lemma ResultSurvives(ring: seq<string>, idx: nat, digest: string, later: seq<string>)
    requires |ring| == RING_SLOTS && idx < UINT_RANGE && IsBytes(digest) && |later| <= 3
    requires forall i :: 0 <= i < |later| ==> IsBytes(later[i])
    ensures var r := Cycle(ring, idx, [digest] + later).0;
            |r| == RING_SLOTS && r[idx % RING_SLOTS] == Hex(digest)
  {
    var slot := idx % RING_SLOTS;
    assert ([digest] + later)[1..] == later;
    NextIndex(idx, 4);
    CycleKeeps(ring[slot := Hex(digest)], (idx + 1) % UINT_RANGE, later, slot, 3);
  }
}

/** Writing a configuration as an INI file and loading it again. */
module ConfigRoundTrip {
  import opened Wrappers
  import opened Text
  import opened CString
  import opened IniSpec
  import opened IniRoundTrip
  import opened Config

  // ---------- Decimal numbers ----------

  function Digits(n: nat): (s: string)
    ensures s != "" && forall i :: 0 <= i < |s| ==> IsDigit(s[i])
  {
    if n < 10 then [(48 + n) as char] else Digits(n / 10) + [(48 + n % 10) as char]
  }

  function Itoa(n: int): string {
    if n < 0 then "-" + Digits(-n) else Digits(n)
  }

  lemma {:induction false} DigitsValueSnoc(s: string, c: char, acc: nat)
    requires IsDigit(c) && forall i :: 0 <= i < |s| ==> IsDigit(s[i])
    ensures DigitsValue(s + [c], acc) == 10 * DigitsValue(s, acc) + (c as int - 48)
  {
    var t := s + [c];
    if s == "" {
      assert t[1..] == "";
      assert DigitsValue("", 10 * acc + (c as int - 48)) == 10 * acc + (c as int - 48);
    } else {
      assert t[1..] == s[1..] + [c];
      DigitsValueSnoc(s[1..], c, 10 * acc + (s[0] as int - 48));
    }
  }

  lemma {:induction false} DigitsRoundTrip(n: nat)
    ensures DigitsValue(Digits(n), 0) == n
  {
    if n < 10 {
      DigitsValueSnoc("", (48 + n) as char, 0);
      assert "" + [(48 + n) as char] == Digits(n);
    } else {
      DigitsRoundTrip(n / 10);
      DigitsValueSnoc(Digits(n / 10), (48 + n % 10) as char, 0);
    }
  }

  lemma AtoiRoundTrip(n: int)
    ensures Atoi(Itoa(n)) == n
  {
    var s := Itoa(n);
    assert s[0] == '-' || IsDigit(s[0]);
    FirstIs(s, 0, 0);
    assert LStrip(s) == s;
    if n < 0 {
      assert s[1..] == Digits(-n);
      DigitsRoundTrip(-n);
    } else {
      DigitsRoundTrip(n);
    }
  }

  /** Leading whitespace, a plus sign, and whatever follows the digits do not matter. */
  lemma AtoiLenient(space: string, n: int, rest: string)
    requires (forall i :: 0 <= i < |space| ==> IsSpace(space[i])) && (rest != "" ==> !IsDigit(rest[0]))
    ensures Atoi(space + Itoa(n) + rest) == n
    ensures n >= 0 ==> Atoi(space + "+" + Itoa(n) + rest) == n
  {
    hide DigitsValue, Digits, LStrip;
    var t := Itoa(n) + rest;
    assert t[0] == Itoa(n)[0];
    SkipSpace(space, t);
    assert space + Itoa(n) + rest == space + t;
    DigitsRoundTrip(if n < 0 then -n else n);
    DigitsStop(Digits(if n < 0 then -n else n), rest, 0);
    if n < 0 {
      assert t[1..] == Digits(-n) + rest;
    } else {
      SkipSpace(space, "+" + t);
      assert space + "+" + Itoa(n) + rest == space + ("+" + t);
      assert ("+" + t)[1..] == t;
    }
  }

  lemma SkipSpace(space: string, t: string)
    requires (forall i :: 0 <= i < |space| ==> IsSpace(space[i])) && t != "" && !IsSpace(t[0])
    ensures LStrip(space + t) == t
  {
    FirstIs(space + t, 0, |space|);
    assert (space + t)[|space|..] == t;
  }

  lemma {:induction false} DigitsStop(s: string, rest: string, acc: nat)
    requires (forall i :: 0 <= i < |s| ==> IsDigit(s[i])) && (rest != "" ==> !IsDigit(rest[0]))
    ensures DigitsValue(s + rest, acc) == DigitsValue(s, acc)
    decreases |s|
  {
    if s == "" {
      assert s + rest == rest;
    } else {
      assert (s + rest)[1..] == s[1..] + rest;
      DigitsStop(s[1..], rest, 10 * acc + (s[0] as int - 48));
    }
  }

  lemma {:induction false} DigitsShort(n: nat, d: nat)
    requires d > 0 && n < Pow10(d)
    ensures |Digits(n)| <= d
  {
    if n >= 10 { DigitsShort(n / 10, d - 1); }
  }

  function Pow10(d: nat): (p: nat)
    ensures p > 0
  {
    if d == 0 then 1 else 10 * Pow10(d - 1)
  }

  predicate IsInt32(n: int) {
    -0x8000_0000 <= n < 0x8000_0000
  }

  lemma ItoaClean(n: int)
    requires IsInt32(n)
    ensures CleanValue(Itoa(n)) && OneLine(Itoa(n)) && NulFree(Itoa(n)) && |Itoa(n)| <= 11
  {
    var s := Itoa(n);
    assert forall i :: 0 <= i < |s| ==> IsDigit(s[i]) || s[i] == '-';
    assert Pow10(10) == 10_000_000_000;
    DigitsShort(if n < 0 then -n else n, 10);
  }

  // ---------- The written form of a configuration ----------

  const NETWORK: seq<Key> :=
    [ServerUrl, EnrollUrl, TlsCaCert, TlsClientCert, TlsClientKey,
     ConnectTimeout, TransferTimeout, LowSpeedLimit, LowSpeedTime, RetryAttempts]

  const SYSTEM: seq<Key> :=
    [UpdateIntervalSec, InboxManifestDir, CurrentManifestDir, ManifestCaCert, LogFile, DeviceId]

  /** The value written for a field; an unset string is not written. */
  function Spelled(f: Field): Option<string> {
    match f
    case Text(text) => text
    case Number(number) => Some(Itoa(number))
  }

  function ItemsFor(s: Settings, keys: seq<Key>): seq<Item> {
    if keys == [] then []
    else var k := keys[|keys| - 1];
         ItemsFor(s, keys[..|keys| - 1]) +
         match Spelled(Get(s, k)) case None => [] case Some(v) => [Entry(NameOf(k), v)]
  }

  function EventsFor(s: Settings, keys: seq<Key>): seq<Event> {
    if keys == [] then []
    else var k := keys[|keys| - 1];
         EventsFor(s, keys[..|keys| - 1]) +
         match Spelled(Get(s, k)) case None => [] case Some(v) => [Event(SectionOf(k), NameOf(k), v)]
  }

  function ConfigItems(s: Settings): seq<Item> {
    [Head("network")] + ItemsFor(s, NETWORK) + [Head("system")] + ItemsFor(s, SYSTEM)
  }

  function ConfigText(s: Settings): string {
    Render(ConfigItems(s))
  }

  predicate CleanField(k: Key, f: Field) {
    match f
    case Text(None) => true
    case Text(Some(v)) => CleanValue(v) && OneLine(v) && NulFree(v) && Fits(Written(Entry(NameOf(k), v)))
    case Number(n) => IsInt32(n)
  }

  predicate Expressible(s: Settings) {
    forall k :: CleanField(k, Get(s, k))
  }

  // ---------- Reading it back ----------

  lemma {:induction false} MeaningPrefix(a: seq<Item>, b: seq<Item>, n: nat)
    requires n <= |a|
    ensures Meaning(a + b, n) == Meaning(a, n) && SectionAt(a + b, n) == SectionAt(a, n) && NameAt(a + b, n) == NameAt(a, n)
  {
    if n > 0 { MeaningPrefix(a, b, n - 1); }
  }

  lemma HeadSection(pre: seq<Item>, section: string)
    requires pre != [] && pre[|pre| - 1] == Head(section)
    ensures SectionAt(pre, |pre|) == section
  {
  }

  lemma MeaningSnoc(items: seq<Item>, last: Item)
    requires last.Entry?
    ensures var more := items + [last];
            && Meaning(more, |more|) ==
               Meaning(items, |items|) + [Event(SectionAt(items, |items|), last.name, last.value)]
            && SectionAt(more, |more|) == SectionAt(items, |items|)
  {
    MeaningPrefix(items, [last], |items|);
  }

  /** Entries written under their heading mean the calls of their keys. */
  lemma {:induction false} BlockMeaning(pre: seq<Item>, s: Settings, keys: seq<Key>, section: string)
    requires pre != [] && pre[|pre| - 1] == Head(section)
    requires forall i :: 0 <= i < |keys| ==> SectionOf(keys[i]) == section
    ensures var items := pre + ItemsFor(s, keys);
            && Meaning(items, |items|) == Meaning(pre, |pre|) + EventsFor(s, keys)
            && SectionAt(items, |items|) == section
  {
    hide Get, NameOf, SectionAt, Meaning, Spelled;
    if keys == [] {
      assert pre + [] == pre;
      HeadSection(pre, section);
    } else {
      var less := keys[..|keys| - 1];
      BlockMeaning(pre, s, less, section);
      var k := keys[|keys| - 1];
      var items := pre + ItemsFor(s, less);
      if Spelled(Get(s, k)).Some? {
        var last := Entry(NameOf(k), Spelled(Get(s, k)).value);
        assert pre + ItemsFor(s, keys) == items + [last];
        MeaningSnoc(items, last);
      } else {
        assert pre + ItemsFor(s, keys) == items;
      }
    }
  }

  lemma NothingMeant()
    ensures Meaning([], 0) == []
  {
  }

  lemma MeaningHead(items: seq<Item>, section: string)
    ensures var more := items + [Head(section)];
            Meaning(more, |more|) == Meaning(items, |items|) && more[|more| - 1] == Head(section)
  {
    MeaningPrefix(items, [Head(section)], |items|);
  }

  lemma ConfigMeaning(s: Settings)
    ensures var items := ConfigItems(s);
            Meaning(items, |items|) == EventsFor(s, NETWORK) + EventsFor(s, SYSTEM)
  {
    hide Get, NameOf, ItemsFor, EventsFor, Meaning, SectionAt;
    MeaningHead([], "network");
    NothingMeant();
    var head := [] + [Head("network")];
    BlockMeaning(head, s, NETWORK, "network");
    var net := head + ItemsFor(s, NETWORK);
    var both := net + [Head("system")];
    MeaningHead(net, "system");
    BlockMeaning(both, s, SYSTEM, "system");
    assert ConfigItems(s) == both + ItemsFor(s, SYSTEM);
  }

  lemma {:induction false} LastValuePrefix(events: seq<Event>, e: seq<Event>, k: Key, n: nat)
    requires n <= |events|
    ensures LastValue(events + e, k, n) == LastValue(events, k, n)
  {
    hide Names, Converted, Get;
    if n > 0 { LastValuePrefix(events, e, k, n - 1); }
  }

  /** Reading a written field back gives the field. */
  lemma SpelledRoundTrip(s: Settings, k: Key)
    ensures match Spelled(Get(s, k))
            case None => Get(s, k) == Get(ZERO, k)
            case Some(v) => Converted(k, v) == Get(s, k)
  {
    hide Itoa, Atoi;
    if Get(s, k).Number? { AtoiRoundTrip(Get(s, k).number); }
  }

  lemma OwnName(e: Event, k: Key, x: Key)
    requires e.section == SectionOf(x) && e.name == NameOf(x)
    ensures Names(e, k) <==> k == x
  {
    hide KeyOf, NameOf, SectionOf;
    KeyOfNames(e, k);
    KeyOfNames(e, x);
  }

  lemma {:induction false} EventsForValue(s: Settings, keys: seq<Key>, k: Key)
    ensures var events := EventsFor(s, keys);
            LastValue(events, k, |events|) == if k in keys then Get(s, k) else Get(ZERO, k)
  {
    hide Get, NameOf, SectionOf, Names, Converted;
    if keys != [] {
      var less, x := keys[..|keys| - 1], keys[|keys| - 1];
      assert keys == less + [x];
      EventsForValue(s, less, k);
      SpelledRoundTrip(s, x);
      var spelled := Spelled(Get(s, x));
      if spelled.Some? {
        var e := Event(SectionOf(x), NameOf(x), spelled.value);
        OwnName(e, k, x);
        LastValuePrefix(EventsFor(s, less), [e], k, |EventsFor(s, less)|);
      } else {
        assert EventsFor(s, keys) == EventsFor(s, less);
      }
    }
  }

  lemma EventsForAppend(s: Settings, a: seq<Key>, b: seq<Key>)
    ensures EventsFor(s, a + b) == EventsFor(s, a) + EventsFor(s, b)
  {
    hide Get, NameOf, SectionOf;
    if b == [] {
      assert a + b == a;
    } else {
      assert (a + b)[..|a + b| - 1] == a + b[..|b| - 1];
      EventsForAppend(s, a, b[..|b| - 1]);
    }
  }

  lemma StringsDetermine(s: Settings, t: Settings)
    requires forall k :: Get(s, k) == Get(t, k)
    ensures s.serverUrl == t.serverUrl && s.enrollUrl == t.enrollUrl && s.tlsCaCert == t.tlsCaCert
    ensures s.tlsClientCert == t.tlsClientCert && s.tlsClientKey == t.tlsClientKey
  {
    assert Get(s, ServerUrl) == Get(t, ServerUrl) && Get(s, EnrollUrl) == Get(t, EnrollUrl);
    assert Get(s, TlsCaCert) == Get(t, TlsCaCert) && Get(s, TlsClientCert) == Get(t, TlsClientCert);
    assert Get(s, TlsClientKey) == Get(t, TlsClientKey);
  }

  lemma NumbersDetermine(s: Settings, t: Settings)
    requires forall k :: Get(s, k) == Get(t, k)
    ensures s.connectTimeout == t.connectTimeout && s.transferTimeout == t.transferTimeout
    ensures s.lowSpeedLimit == t.lowSpeedLimit && s.lowSpeedTime == t.lowSpeedTime
    ensures s.retryAttempts == t.retryAttempts && s.updateIntervalSec == t.updateIntervalSec
  {
    assert Get(s, ConnectTimeout) == Get(t, ConnectTimeout) && Get(s, TransferTimeout) == Get(t, TransferTimeout);
    assert Get(s, LowSpeedLimit) == Get(t, LowSpeedLimit) && Get(s, LowSpeedTime) == Get(t, LowSpeedTime);
    assert Get(s, RetryAttempts) == Get(t, RetryAttempts) && Get(s, UpdateIntervalSec) == Get(t, UpdateIntervalSec);
  }

  lemma SystemDetermine(s: Settings, t: Settings)
    requires forall k :: Get(s, k) == Get(t, k)
    ensures s.inboxManifestDir == t.inboxManifestDir && s.currentManifestDir == t.currentManifestDir
    ensures s.manifestCaCert == t.manifestCaCert && s.logFile == t.logFile && s.deviceId == t.deviceId
  {
    assert Get(s, InboxManifestDir) == Get(t, InboxManifestDir) && Get(s, DeviceId) == Get(t, DeviceId);
    assert Get(s, CurrentManifestDir) == Get(t, CurrentManifestDir) && Get(s, ManifestCaCert) == Get(t, ManifestCaCert);
    assert Get(s, LogFile) == Get(t, LogFile);
  }

  lemma FieldsDetermine(s: Settings, t: Settings)
    requires forall k :: Get(s, k) == Get(t, k)
    ensures s == t
  {
    hide Get;
    StringsDetermine(s, t);
    NumbersDetermine(s, t);
    SystemDetermine(s, t);
  }

  lemma FoldOfEvents(s: Settings)
    ensures var events := EventsFor(s, NETWORK) + EventsFor(s, SYSTEM); Fold(events, |events|) == s
  {
    hide Get, Fold, LastValue, EventsFor;
    EventsForAppend(s, NETWORK, SYSTEM);
    var events := EventsFor(s, NETWORK + SYSTEM);
    forall k: Key ensures Get(Fold(events, |events|), k) == Get(s, k) {
      LastWriteWins(events, |events|, k);
      EventsForValue(s, NETWORK + SYSTEM, k);
      AllKeys(k);
    }
    FieldsDetermine(Fold(events, |events|), s);
  }

  lemma AllKeys(k: Key)
    ensures k in NETWORK + SYSTEM
  {
  }

  lemma {:induction false} ItemsForClean(s: Settings, keys: seq<Key>)
    requires Expressible(s)
    ensures forall i :: 0 <= i < |ItemsFor(s, keys)| ==>
              ItemsFor(s, keys)[i].Entry? && CleanItem(ItemsFor(s, keys)[i]) && NulFree(Written(ItemsFor(s, keys)[i]))
  {
    hide CleanItem, NulFree, Get, NameOf;
    if keys != [] {
      var k := keys[|keys| - 1];
      ItemsForClean(s, keys[..|keys| - 1]);
      if Spelled(Get(s, k)).Some? { FieldClean(s, k); }
    }
  }

  predicate IsLetter(c: char) {
    'a' <= c <= 'z' || c == '_'
  }

  predicate IsWord(s: string) {
    0 < |s| <= 20 && forall i :: 0 <= i < |s| ==> IsLetter(s[i])
  }

  lemma UrlWord(k: Key)
    requires k in {ServerUrl, EnrollUrl, TlsCaCert, TlsClientCert}
    ensures IsWord(NameOf(k))
  {
  }

  lemma TimeoutWord(k: Key)
    requires k in {TlsClientKey, ConnectTimeout, TransferTimeout}
    ensures IsWord(NameOf(k))
  {
  }

  lemma RetryWord(k: Key)
    requires k in {LowSpeedLimit, LowSpeedTime, RetryAttempts}
    ensures IsWord(NameOf(k))
  {
  }

  lemma InboxWord(k: Key)
    requires k in {UpdateIntervalSec, InboxManifestDir, CurrentManifestDir}
    ensures IsWord(NameOf(k))
  {
  }

  lemma DeviceWord(k: Key)
    requires k in {ManifestCaCert, LogFile, DeviceId}
    ensures IsWord(NameOf(k))
  {
  }

  lemma NameIsWord(k: Key)
    ensures IsWord(NameOf(k))
  {
    hide NameOf, IsWord;
    if k in {ServerUrl, EnrollUrl, TlsCaCert, TlsClientCert} {
      UrlWord(k);
    } else if k in {TlsClientKey, ConnectTimeout, TransferTimeout} {
      TimeoutWord(k);
    } else if k in {LowSpeedLimit, LowSpeedTime, RetryAttempts} {
      RetryWord(k);
    } else if k in {UpdateIntervalSec, InboxManifestDir, CurrentManifestDir} {
      InboxWord(k);
    } else {
      DeviceWord(k);
    }
  }

  lemma NameClean(k: Key)
    ensures CleanName(NameOf(k)) && NulFree(NameOf(k)) && |NameOf(k)| <= 20
  {
    hide NameOf;
    NameIsWord(k);
  }

  lemma FieldClean(s: Settings, k: Key)
    requires CleanField(k, Get(s, k)) && Spelled(Get(s, k)).Some?
    ensures var item := Entry(NameOf(k), Spelled(Get(s, k)).value); CleanItem(item) && NulFree(Written(item))
  {
    hide Get, NameOf, CleanName, CleanValue, Itoa;
    NameClean(k);
    match Get(s, k)
    case Text(_) =>
    case Number(n) => ItoaClean(n);
  }

  lemma {:induction false} ConcatNulFree(lines: seq<string>)
    requires forall i :: 0 <= i < |lines| ==> NulFree(lines[i])
    ensures NulFree(Concat(lines))
  {
    if lines != [] { ConcatNulFree(lines[1..]); }
  }

  lemma ConfigItemsClean(s: Settings)
    requires Expressible(s)
    ensures Writable(ConfigItems(s)) && NulFree(ConfigText(s))
  {
    hide CleanItem, Get, ItemsFor;
    ItemsForClean(s, NETWORK);
    ItemsForClean(s, SYSTEM);
    var items := ConfigItems(s);
    HeadsClean();
    assert forall i :: 0 <= i < |items| ==> CleanItem(items[i]) && NulFree(Written(items[i]));
    ConcatNulFree(LinesOf(items));
  }

  lemma HeadClean(s: string)
    requires IsWord(s)
    ensures CleanItem(Head(s)) && NulFree(Written(Head(s)))
  {
    var line := Written(Head(s));
    assert |line| == |s| + 3 && line[0] == '[' && line[|s| + 1] == ']' && line[|s| + 2] == '\n';
    assert forall i :: 1 <= i <= |s| ==> line[i] == s[i - 1];
  }

  lemma HeadsClean()
    ensures CleanItem(Head("network")) && NulFree(Written(Head("network")))
    ensures CleanItem(Head("system")) && NulFree(Written(Head("system")))
  {
    hide CleanItem, NulFree, Written;
    HeadClean("network");
    HeadClean("system");
  }

  /** Any configuration with all required strings, written out and loaded, comes back as itself. */
  lemma LoadOfWritten(s: Settings)
    requires Expressible(s) && Usable(s)
    ensures NulFree(ConfigText(s)) && Loadable(ConfigText(s)) && Loaded(ConfigText(s)) == s
  {
    hide Get, Fold, Expressible, FirstError, Complete;
    ConfigItemsClean(s);
    var items, text := ConfigItems(s), ConfigText(s);
    DocumentRoundTrip(items, AcceptAll);
    ConfigMeaning(s);
    FoldOfEvents(s);
    assert EventsOf(text) == EventsFor(s, NETWORK) + EventsFor(s, SYSTEM);
    CompleteFold(EventsOf(text));
  }

  /** The round trip through the loader itself. */
  method Reload(config: OtaConfig, s: Settings) returns (rc: int)
    requires Expressible(s) && Usable(s)
    modifies config
    ensures rc == 0 && config.s == s
  {
    LoadOfWritten(s);
    rc := config.Load(Some(ConfigText(s)));
  }

  /** In a written file a continuation line replaces the value of its key, over comments, blank
      lines and earlier continuation lines. */
  lemma ContinuedInFile(items: seq<Item>, i: nat, j: nat, k: Key, v: string, w: string)
    requires Writable(items) && i < j < |items| && SectionAt(items, i) == SectionOf(k)
    requires items[i] == Entry(NameOf(k), v) && items[j] == More(w)
    requires forall l :: i < l < j ==> items[l].More? || items[l].Note? || items[l].Blank?
    ensures var events := Events(LinesOf(items), j + 1); Get(Fold(events, |events|), k) == Converted(k, w)
  {
    hide Writable, Get, Fold, Converted, NameOf, SectionOf, Events, SectionAt, VerdictAt, ContextAt, ReadsWell, Agrees, LinesOf;
    ItemsRead(items, |items|);
    ItemsRead(items, i);
    var lines := LinesOf(items);
    SectionAgrees(items, i);
    forall l | i <= l <= j ensures VerdictAt(lines, l) == Expected(items[l]) { VerdictRead(items, l); }
    ContinuationReplaces(lines, i, j, k, v, w);
  }

  lemma VerdictRead(items: seq<Item>, l: nat)
    requires l < |items| && ReadsWell(items, l)
    ensures VerdictAt(LinesOf(items), l) == Expected(items[l])
  {
    hide VerdictAt;
  }

  lemma SectionAgrees(items: seq<Item>, i: nat)
    requires i <= |items| && Agrees(items, i)
    ensures ContextAt(LinesOf(items), i).section == SectionAt(items, i)
  {
    hide Events, Meaning, ContextAt, NameAt;
  }
}

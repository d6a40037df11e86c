/** Configuration loading: src/config.c on top of the INI parser. */
module Config {
  import opened Wrappers
  import opened Text
  import opened CString
  import opened IniSpec
  import IniParser

  /** The fields of `struct ota_config`; a string that was never set is a NULL pointer. */
  datatype Settings = Settings(
    serverUrl: Option<string>, enrollUrl: Option<string>, tlsCaCert: Option<string>,
    tlsClientCert: Option<string>, tlsClientKey: Option<string>,
    connectTimeout: int, transferTimeout: int, lowSpeedLimit: int, lowSpeedTime: int,
    retryAttempts: int, updateIntervalSec: int,
    inboxManifestDir: Option<string>, currentManifestDir: Option<string>,
    manifestCaCert: Option<string>, logFile: Option<string>, deviceId: Option<string>)

  const ZERO := Settings(None, None, None, None, None, 0, 0, 0, 0, 0, 0, None, None, None, None, None)

  // ---------- Numbers ----------

  predicate IsDigit(c: char) {
    '0' <= c <= '9'
  }

  function DigitsValue(s: string, acc: nat): int {
    if s != "" && IsDigit(s[0]) then DigitsValue(s[1..], 10 * acc + (s[0] as int - 48)) else acc
  }

  /** `atoi`, for values in the range of a C `int`. */
  function Atoi(s: string): int {
    var t := LStrip(s);
    if t != "" && t[0] == '-' then -DigitsValue(t[1..], 0)
    else if t != "" && t[0] == '+' then DigitsValue(t[1..], 0)
    else DigitsValue(t, 0)
  }

  // ---------- Keys ----------

  datatype Key =
    | ServerUrl | EnrollUrl | TlsCaCert | TlsClientCert | TlsClientKey
    | ConnectTimeout | TransferTimeout | LowSpeedLimit | LowSpeedTime | RetryAttempts
    | UpdateIntervalSec | InboxManifestDir | CurrentManifestDir | ManifestCaCert | LogFile | DeviceId

  function SectionOf(k: Key): string {
    if k.UpdateIntervalSec? || k.InboxManifestDir? || k.CurrentManifestDir? || k.ManifestCaCert? || k.LogFile? || k.DeviceId?
    then "system" else "network"
  }

  function NameOf(k: Key): string {
    match k
    case ServerUrl => "server_url"
    case EnrollUrl => "enroll_url"
    case TlsCaCert => "tls_ca_cert"
    case TlsClientCert => "tls_client_cert"
    case TlsClientKey => "tls_client_key"
    case ConnectTimeout => "connect_timeout"
    case TransferTimeout => "transfer_timeout"
    case LowSpeedLimit => "low_speed_limit"
    case LowSpeedTime => "low_speed_time"
    case RetryAttempts => "retry_attempts"
    case UpdateIntervalSec => "update_interval_sec"
    case InboxManifestDir => "inbox_manifest_dir"
    case CurrentManifestDir => "current_manifest_dir"
    case ManifestCaCert => "manifest_ca_cert"
    case LogFile => "log_file"
    case DeviceId => "device_id"
  }

  /** What a field holds: a string that may be unset, or a number. */
  datatype Field = Text(text: Option<string>) | Number(number: int)

  function Get(s: Settings, k: Key): Field {
    match k
    case ServerUrl => Text(s.serverUrl)
    case EnrollUrl => Text(s.enrollUrl)
    case TlsCaCert => Text(s.tlsCaCert)
    case TlsClientCert => Text(s.tlsClientCert)
    case TlsClientKey => Text(s.tlsClientKey)
    case ConnectTimeout => Number(s.connectTimeout)
    case TransferTimeout => Number(s.transferTimeout)
    case LowSpeedLimit => Number(s.lowSpeedLimit)
    case LowSpeedTime => Number(s.lowSpeedTime)
    case RetryAttempts => Number(s.retryAttempts)
    case UpdateIntervalSec => Number(s.updateIntervalSec)
    case InboxManifestDir => Text(s.inboxManifestDir)
    case CurrentManifestDir => Text(s.currentManifestDir)
    case ManifestCaCert => Text(s.manifestCaCert)
    case LogFile => Text(s.logFile)
    case DeviceId => Text(s.deviceId)
  }

  predicate Names(e: Event, k: Key) {
    e.section == SectionOf(k) && e.name == NameOf(k)
  }

  function Converted(k: Key, value: string): Field {
    if Get(ZERO, k).Text? then Text(Some(value)) else Number(Atoi(value))
  }

  /** The key a call is about, if any. */
  function KeyOf(e: Event): (r: Option<Key>)
    ensures r.Some? ==> Names(e, r.value)
  {
    if e.section == "network" then
      if e.name == "server_url" then Some(ServerUrl)
      else if e.name == "enroll_url" then Some(EnrollUrl)
      else if e.name == "tls_ca_cert" then Some(TlsCaCert)
      else if e.name == "tls_client_cert" then Some(TlsClientCert)
      else if e.name == "tls_client_key" then Some(TlsClientKey)
      else if e.name == "connect_timeout" then Some(ConnectTimeout)
      else if e.name == "transfer_timeout" then Some(TransferTimeout)
      else if e.name == "low_speed_limit" then Some(LowSpeedLimit)
      else if e.name == "low_speed_time" then Some(LowSpeedTime)
      else if e.name == "retry_attempts" then Some(RetryAttempts)
      else None
    else if e.section == "system" then
      if e.name == "update_interval_sec" then Some(UpdateIntervalSec)
      else if e.name == "inbox_manifest_dir" then Some(InboxManifestDir)
      else if e.name == "current_manifest_dir" then Some(CurrentManifestDir)
      else if e.name == "manifest_ca_cert" then Some(ManifestCaCert)
      else if e.name == "log_file" then Some(LogFile)
      else if e.name == "device_id" then Some(DeviceId)
      else None
    else None
  }

  function Put(s: Settings, k: Key, value: string): Settings {
    match k
    case ServerUrl => s.(serverUrl := Some(value))
    case EnrollUrl => s.(enrollUrl := Some(value))
    case TlsCaCert => s.(tlsCaCert := Some(value))
    case TlsClientCert => s.(tlsClientCert := Some(value))
    case TlsClientKey => s.(tlsClientKey := Some(value))
    case ConnectTimeout => s.(connectTimeout := Atoi(value))
    case TransferTimeout => s.(transferTimeout := Atoi(value))
    case LowSpeedLimit => s.(lowSpeedLimit := Atoi(value))
    case LowSpeedTime => s.(lowSpeedTime := Atoi(value))
    case RetryAttempts => s.(retryAttempts := Atoi(value))
    case UpdateIntervalSec => s.(updateIntervalSec := Atoi(value))
    case InboxManifestDir => s.(inboxManifestDir := Some(value))
    case CurrentManifestDir => s.(currentManifestDir := Some(value))
    case ManifestCaCert => s.(manifestCaCert := Some(value))
    case LogFile => s.(logFile := Some(value))
    case DeviceId => s.(deviceId := Some(value))
  }

  function Assign(s: Settings, e: Event): Settings {
    if KeyOf(e).None? then s else Put(s, KeyOf(e).value, e.value)
  }

  lemma KeyOfNames(e: Event, k: Key)
    ensures KeyOf(e) == Some(k) <==> Names(e, k)
  {
    hide KeyOf, NameOf;
    if Names(e, k) {
      if SectionOf(k) == "system" { KeyFound(e, k); } else { KeyFoundNetwork(e, k); }
    }
  }

  lemma KeyFound(e: Event, k: Key)
    requires e.name == NameOf(k) && e.section == SectionOf(k) == "system"
    ensures KeyOf(e) == Some(k)
  {
  }

  lemma KeyFoundNetwork(e: Event, k: Key)
    requires e.name == NameOf(k) && e.section == SectionOf(k) == "network"
    ensures KeyOf(e) == Some(k)
  {
  }

  lemma AssignGet(s: Settings, e: Event, k: Key)
    ensures Get(Assign(s, e), k) == if Names(e, k) then Converted(k, e.value) else Get(s, k)
  {
    hide Names, KeyOf, Atoi;
    KeyOfNames(e, k);
  }

  /** Each name of the configuration file and the field it sets. */
  lemma NetworkFields(s: Settings, v: string)
    ensures Assign(s, Event("network", "server_url", v)) == s.(serverUrl := Some(v))
    ensures Assign(s, Event("network", "enroll_url", v)) == s.(enrollUrl := Some(v))
    ensures Assign(s, Event("network", "tls_ca_cert", v)) == s.(tlsCaCert := Some(v))
    ensures Assign(s, Event("network", "tls_client_cert", v)) == s.(tlsClientCert := Some(v))
    ensures Assign(s, Event("network", "tls_client_key", v)) == s.(tlsClientKey := Some(v))
  {
    hide Atoi, Names, NameOf, SectionOf;
  }

  lemma TimeoutFields(s: Settings, v: string)
    ensures Assign(s, Event("network", "connect_timeout", v)) == s.(connectTimeout := Atoi(v))
    ensures Assign(s, Event("network", "transfer_timeout", v)) == s.(transferTimeout := Atoi(v))
  {
    hide Atoi, Names, NameOf, SectionOf;
  }

  lemma NumberFields(s: Settings, v: string)
    ensures Assign(s, Event("network", "low_speed_limit", v)) == s.(lowSpeedLimit := Atoi(v))
    ensures Assign(s, Event("network", "low_speed_time", v)) == s.(lowSpeedTime := Atoi(v))
    ensures Assign(s, Event("network", "retry_attempts", v)) == s.(retryAttempts := Atoi(v))
  {
    hide Atoi, Names, NameOf, SectionOf;
  }

  lemma DirectoryFields(s: Settings, v: string)
    ensures Assign(s, Event("system", "update_interval_sec", v)) == s.(updateIntervalSec := Atoi(v))
    ensures Assign(s, Event("system", "inbox_manifest_dir", v)) == s.(inboxManifestDir := Some(v))
    ensures Assign(s, Event("system", "current_manifest_dir", v)) == s.(currentManifestDir := Some(v))
  {
    hide Atoi, Names, NameOf, SectionOf;
  }

  lemma SystemFields(s: Settings, v: string)
    ensures Assign(s, Event("system", "manifest_ca_cert", v)) == s.(manifestCaCert := Some(v))
    ensures Assign(s, Event("system", "log_file", v)) == s.(logFile := Some(v))
    ensures Assign(s, Event("system", "device_id", v)) == s.(deviceId := Some(v))
  {
    hide Atoi, Names, NameOf, SectionOf;
  }

  /** The last of the first `n` calls that names key `k` decides its field; without one it is zero. */
  function LastValue(events: seq<Event>, k: Key, n: nat): Field
    requires n <= |events|
  {
    if n == 0 then Get(ZERO, k)
    else if Names(events[n - 1], k) then Converted(k, events[n - 1].value)
    else LastValue(events, k, n - 1)
  }

  /** All calls applied in order, starting from a zeroed structure. */
  function Fold(events: seq<Event>, n: nat): Settings
    requires n <= |events|
  {
    if n == 0 then ZERO else Assign(Fold(events, n - 1), events[n - 1])
  }

  /** Last write wins, key by key. */
  lemma {:induction false} LastWriteWins(events: seq<Event>, n: nat, k: Key)
    requires n <= |events|
    ensures Get(Fold(events, n), k) == LastValue(events, k, n)
  {
    hide Assign, Converted, Names;
    if n > 0 {
      LastWriteWins(events, n - 1, k);
      AssignGet(Fold(events, n - 1), events[n - 1], k);
    }
  }

  lemma NameShort(k: Key)
    ensures |NameOf(k)| < MAX_NAME
  {
  }

  /** Comment, blank and continuation lines leave the section and the name to continue. */
  lemma {:induction false} ContextHeld(lines: seq<string>, i: nat, j: nat)
    requires i <= j <= |lines| && forall l :: i <= l < j ==> VerdictAt(lines, l).Ignored? || VerdictAt(lines, l).Continued?
    ensures ContextAt(lines, j) == ContextAt(lines, i)
  {
    hide Judge;
    if i < j {
      ContextHeld(lines, i, j - 1);
      assert VerdictAt(lines, j - 1).Ignored? || VerdictAt(lines, j - 1).Continued?;
    }
  }

  /** A continuation line replaces the value of the pair it continues, also over comment and blank
      lines and over earlier continuation lines: the field is what the last of them says. */
  lemma ContinuationReplaces(lines: seq<string>, i: nat, j: nat, k: Key, v: string, w: string)
    requires i < j < |lines| && ContextAt(lines, i).section == SectionOf(k) && VerdictAt(lines, i) == Pair(NameOf(k), v)
    requires forall l :: i < l < j ==> VerdictAt(lines, l).Ignored? || VerdictAt(lines, l).Continued?
    requires VerdictAt(lines, j) == Continued(w)
    ensures Get(Fold(Events(lines, j + 1), |Events(lines, j + 1)|), k) == Converted(k, w)
  {
    hide Judge, Fold, Get, Converted, NameOf, SectionOf;
    NameShort(k);
    ContextHeld(lines, i + 1, j);
    assert ContextAt(lines, j) == Context(SectionOf(k), NameOf(k));
    var events := Events(lines, j + 1);
    assert events[|events| - 1] == Event(SectionOf(k), NameOf(k), w);
    LastWriteWins(events, |events|, k);
  }

  predicate Required(k: Key) {
    || k.ServerUrl? || k.TlsCaCert? || k.TlsClientCert? || k.TlsClientKey?
    || k.InboxManifestDir? || k.CurrentManifestDir? || k.ManifestCaCert?
  }

  predicate Present(f: Field) {
    f.Text? && f.text.Some? && f.text.value != ""
  }

  predicate Filled(value: Option<string>) {
    value.Some? && value.value != ""
  }

  /** `struct ota_config`, filled in place by the handler. */
  class OtaConfig {
    var s: Settings

    /** `memset` to zero. */
    constructor ()
      ensures s == ZERO
    {
      s := ZERO;
    }

    /** `config_handler`: sets the one field the section and name stand for, if any. */
    method Handle(e: Event)
      modifies this
      ensures s == Assign(old(s), e)
    {
      hide Atoi;
      if e.section == "network" {
        HandleNetwork(e);
      } else if e.section == "system" {
        HandleSystem(e);
      }
    }

    method HandleNetwork(e: Event)
      requires e.section == "network"
      modifies this
      ensures s == Assign(old(s), e)
    {
      hide Atoi;
      var name, value := e.name, e.value;
      if name == "server_url" {
        s := s.(serverUrl := Some(value));
      } else if name == "enroll_url" {
        s := s.(enrollUrl := Some(value));
      } else if name == "tls_ca_cert" {
        s := s.(tlsCaCert := Some(value));
      } else if name == "tls_client_cert" {
        s := s.(tlsClientCert := Some(value));
      } else if name == "tls_client_key" {
        s := s.(tlsClientKey := Some(value));
      } else if name == "connect_timeout" {
        s := s.(connectTimeout := Atoi(value));
      } else if name == "transfer_timeout" {
        s := s.(transferTimeout := Atoi(value));
      } else if name == "low_speed_limit" {
        s := s.(lowSpeedLimit := Atoi(value));
      } else if name == "low_speed_time" {
        s := s.(lowSpeedTime := Atoi(value));
      } else if name == "retry_attempts" {
        s := s.(retryAttempts := Atoi(value));
      }
    }

    method HandleSystem(e: Event)
      requires e.section == "system"
      modifies this
      ensures s == Assign(old(s), e)
    {
      hide Atoi;
      var name, value := e.name, e.value;
      if name == "update_interval_sec" {
        s := s.(updateIntervalSec := Atoi(value));
      } else if name == "inbox_manifest_dir" {
        s := s.(inboxManifestDir := Some(value));
      } else if name == "current_manifest_dir" {
        s := s.(currentManifestDir := Some(value));
      } else if name == "manifest_ca_cert" {
        s := s.(manifestCaCert := Some(value));
      } else if name == "log_file" {
        s := s.(logFile := Some(value));
      } else if name == "device_id" {
        s := s.(deviceId := Some(value));
      }
    }

    /** `validate_required_string`. */
    static function Missing(value: Option<string>): bool {
      value.None? || value.value == ""
    }

    /** `config_load`; a file that cannot be opened is `None`. */
    method Load(file: Option<string>) returns (rc: int)
      requires file.Some? ==> NulFree(file.value)
      modifies this
      ensures rc >= -1
      ensures rc == 0 <==> file.Some? && Loadable(file.value)
      ensures rc == 0 ==> s == Loaded(file.value)
      ensures rc == 0 ==> Filled(s.serverUrl) && Filled(s.tlsCaCert) && Filled(s.tlsClientCert) && Filled(s.tlsClientKey)
      ensures rc == 0 ==> Filled(s.inboxManifestDir) && Filled(s.currentManifestDir) && Filled(s.manifestCaCert)
      ensures file.None? ==> rc == -1
      ensures file.Some? ==> (rc > 0 <==> !FirstError(Lines(file.value), AcceptAll, |Lines(file.value)|, 0))
      ensures rc > 0 ==> file.Some? && FirstError(Lines(file.value), AcceptAll, |Lines(file.value)|, rc)
    {
      hide FirstError, Loadable, Assign, Lines, Events;
      s := ZERO;
      if file.None? { return -1; }
      var error, events := IniParser.ParseStream(file.value, AcceptAll);
      for i := 0 to |events|
        invariant s == Fold(events, i)
      {
        Handle(events[i]);
      }
      LoadableIff(file.value, error);
      ErrorUnique(Lines(file.value), AcceptAll, |Lines(file.value)|, error);
      UsableIff(s);
      if error != 0 { return error; }
      if Missing(s.serverUrl) || Missing(s.tlsCaCert) || Missing(s.tlsClientCert) || Missing(s.tlsClientKey)
         || Missing(s.inboxManifestDir) || Missing(s.currentManifestDir) || Missing(s.manifestCaCert) {
        return -1;
      }
      return 0;
    }
  }

  ghost function EventsOf(text: string): seq<Event> {
    Events(Lines(text), |Lines(text)|)
  }

  ghost function Loaded(text: string): Settings {
    Fold(EventsOf(text), |EventsOf(text)|)
  }

  /** No line is rejected, and every required string, as the last call that names it left it, is
      present and not empty. */
  ghost predicate Loadable(text: string) {
    FirstError(Lines(text), AcceptAll, |Lines(text)|, 0) && Complete(EventsOf(text))
  }

  lemma LoadableIff(text: string, error: nat)
    requires FirstError(Lines(text), AcceptAll, |Lines(text)|, error)
    ensures Loadable(text) <==> error == 0 && Usable(Loaded(text))
  {
    hide Fold, Complete, FirstError;
    CompleteFold(EventsOf(text));
    ErrorUnique(Lines(text), AcceptAll, |Lines(text)|, error);
  }

  /** `config_handler` accepts every call. */
  function AcceptAll(events: seq<Event>): bool {
    true
  }

  ghost predicate Complete(events: seq<Event>) {
    forall k :: Required(k) ==> Present(LastValue(events, k, |events|))
  }

  ghost predicate Usable(s: Settings) {
    forall k :: Required(k) ==> Present(Get(s, k))
  }

  lemma UsableIff(s: Settings)
    ensures Usable(s) <==>
            && Present(Text(s.serverUrl)) && Present(Text(s.tlsCaCert)) && Present(Text(s.tlsClientCert))
            && Present(Text(s.tlsClientKey)) && Present(Text(s.inboxManifestDir))
            && Present(Text(s.currentManifestDir)) && Present(Text(s.manifestCaCert))
  {
    if Usable(s) {
      assert Required(ServerUrl) && Required(TlsCaCert) && Required(TlsClientCert) && Required(TlsClientKey);
      assert Required(InboxManifestDir) && Required(CurrentManifestDir) && Required(ManifestCaCert);
      assert Get(s, ServerUrl) == Text(s.serverUrl) && Get(s, TlsCaCert) == Text(s.tlsCaCert);
      assert Get(s, TlsClientCert) == Text(s.tlsClientCert) && Get(s, TlsClientKey) == Text(s.tlsClientKey);
      assert Get(s, InboxManifestDir) == Text(s.inboxManifestDir);
      assert Get(s, CurrentManifestDir) == Text(s.currentManifestDir);
      assert Get(s, ManifestCaCert) == Text(s.manifestCaCert);
    }
  }

  lemma CompleteFold(events: seq<Event>)
    ensures Complete(events) <==> Usable(Fold(events, |events|))
  {
    hide Fold, LastValue, Get;
    forall k: Key ensures Get(Fold(events, |events|), k) == LastValue(events, k, |events|) {
      LastWriteWins(events, |events|, k);
    }
  }

  lemma ErrorUnique(lines: seq<string>, accepts: Handler, n: nat, error: nat)
    requires n <= |lines| && FirstError(lines, accepts, n, error)
    ensures FirstError(lines, accepts, n, 0) <==> error == 0
  {
    hide Rejected;
  }
}

/**
 * The connection-state controller as values: its state, one transition
 * function per operation, the status report, and what the operations
 * promise about one another.
 *
 * The radio, the clock, the mode pin and the credential store are inputs:
 * a radio status code, a `now` timestamp, a `modeswitch` boolean and a map
 * from slot id to stored string.
 */
module WifiSpec {
  import opened WifiTables

  /** Radio mode codes; 0 is the undetermined mode the controller starts in. */
  const WIFI_STA := 1
  const WIFI_AP := 2
  /** The radio status code that means "associated". */
  const WL_CONNECTED := 3
  /** The fixed gateway address the access point is configured with. */
  const AP_IP := "192.168.1.1"
  const AP_SUBNET := "255.255.255.0"

  datatype Option<T> = None | Some(value: T)

  /** The fixed configuration: AP credentials and the label/threshold tables. */
  datatype Config = Config(
    apSsid: string,
    apPassword: string,
    signalLevelRanges: seq<int>,
    signalLevelNames: seq<string>,
    wifiStatusStrings: seq<string>)

  predicate ValidConfig(cfg: Config)
  {
    && |cfg.signalLevelRanges| == LEVEL_COUNT
    && |cfg.signalLevelNames| == LEVEL_COUNT
    && |cfg.wifiStatusStrings| == STATUS_COUNT
  }

  /** The controller's fields, together with the contents of the credential store. */
  datatype WifiState = WifiState(
    wifimode: int,
    apmode: bool,
    modeAp: bool,
    modeSta: bool,
    connectStartTime: nat,
    staSsid: string,
    staPassword: string,
    romSsid: int,
    romPassword: int,
    rom: map<int, string>)

  /** What the controller asks of the radio. */
  datatype RadioAction =
    | StartAccessPoint(ssid: string, password: string, ip: string, subnet: string)
    | BeginStation(ssid: string, password: string)
    | Disconnect

  /** The status snapshot, one field per key of the status report. */
  datatype StatusReport = StatusReport(
    ap: bool,
    apSsid: string,
    apPassword: string,
    apIp: string,
    sta: int,
    staStatus: string,
    staSsid: string,
    staPassword: nat,
    staTime: nat,
    staIp: string,
    pingTime: nat)

  // ---------------------------------------------------------------- store

  /** Reading a slot; a slot never written reads as the empty string. */
  function RomRead(rom: map<int, string>, slot: int): (value: string)
  {
    if slot in rom then rom[slot] else ""
  }

  /** Reading a slot back returns what was last written to it, and writes leave other slots alone. */
  lemma RomReadAfterWrite(rom: map<int, string>, written: int, value: string, slot: int)
    ensures RomRead(rom[written := value], slot) == if slot == written then value else RomRead(rom, slot)
  {
  }

  // --------------------------------------------------------- byte length

  /** The number of bytes the UTF-8 encoding of character `c` takes. */
  function Utf8Width(c: char): (width: nat)
    ensures 1 <= width <= 4
    ensures width == 1 <==> (c as int) < 0x80
  {
    if (c as int) < 0x80 then 1
    else if (c as int) < 0x800 then 2
    else if (c as int) < 0x1_0000 then 3
    else 4
  }

  /** The number of bytes of the UTF-8 encoding of `s`, which is what a device string's length counts. */
  function Utf8Length(s: string): (n: nat)
    ensures |s| <= n <= 4 * |s|
    ensures n == 0 <==> s == []
  {
    if s == [] then 0 else Utf8Width(s[0]) + Utf8Length(s[1..])
  }

  /** Byte length and character count agree exactly on ASCII strings. */
  lemma {:induction false} Utf8LengthAscii(s: string)
    ensures Utf8Length(s) == |s| <==> forall i :: 0 <= i < |s| ==> (s[i] as int) < 0x80
  {
    if s != [] {
      Utf8LengthAscii(s[1..]);
      assert forall i :: 1 <= i < |s| ==> s[i] == s[1..][i - 1];
    }
  }

  // ---------------------------------------------------------- transitions

  /** The state of a fresh controller: undetermined, flags clear, nothing cached. */
  function Initial(romSsid: int, romPassword: int, rom: map<int, string>): (s: WifiState)
  {
    WifiState(0, false, false, false, 0, "", "", romSsid, romPassword, rom)
  }

  /** Binding the controller to a store and choosing the two credential slots in it. */
  function AfterSetMemory(s: WifiState, store: map<int, string>, romSsid: int, romPassword: int): (r: WifiState)
  {
    s.(rom := store, romSsid := romSsid, romPassword := romPassword)
  }

  /** Reloading the STA credentials from their two slots. */
  function AfterReadSettings(s: WifiState): (r: WifiState)
  {
    s.(staSsid := RomRead(s.rom, s.romSsid), staPassword := RomRead(s.rom, s.romPassword))
  }

  /** Connecting in an explicit mode. */
  function AfterConnect(s: WifiState, mode: int, now: nat): (r: WifiState)
  {
    if mode == WIFI_AP then s.(apmode := true, modeAp := true, wifimode := mode)
    else if mode == WIFI_STA then s.(connectStartTime := now, wifimode := mode)
    else s.(wifimode := mode)
  }

  /** The radio actions an explicit connect issues. */
  function ConnectActions(cfg: Config, s: WifiState, mode: int): (actions: seq<RadioAction>)
  {
    if mode == WIFI_AP then [StartAccessPoint(cfg.apSsid, cfg.apPassword, AP_IP, AP_SUBNET)]
    else if mode == WIFI_STA then [BeginStation(s.staSsid, s.staPassword)]
    else []
  }

  /** The mode the one-shot decision picks once the credentials are loaded. */
  function ChosenMode(modeswitch: bool, loaded: WifiState): (mode: int)
  {
    if modeswitch || loaded.staSsid == "" then WIFI_AP else WIFI_STA
  }

  /** The automatic connect: acts only while the mode is undetermined. */
  function AfterAutoConnect(s: WifiState, modeswitch: bool, now: nat): (r: WifiState)
  {
    if s.wifimode == 0 then
      var loaded := AfterReadSettings(s);
      AfterConnect(loaded, ChosenMode(modeswitch, loaded), now)
    else s
  }

  /** The radio actions the automatic connect issues. */
  function AutoConnectActions(cfg: Config, s: WifiState, modeswitch: bool): (actions: seq<RadioAction>)
  {
    if s.wifimode == 0 then
      var loaded := AfterReadSettings(s);
      ConnectActions(cfg, loaded, ChosenMode(modeswitch, loaded))
    else []
  }

  /** The status poll. */
  function AfterPoll(s: WifiState, status: int): (r: WifiState)
  {
    if status == WL_CONNECTED then s.(wifimode := WIFI_STA, modeSta := true)
    else s.(modeSta := false)
  }

  /**
   * The snapshot built by the status report from the state before its
   * poll; the poll changes only fields the snapshot does not show.
   */
  function Report(cfg: Config, s: WifiState, status: int, staIp: string, now: nat): (report: StatusReport)
    requires ValidConfig(cfg)
  {
    var polled := AfterPoll(s, status);
    StatusReport(
      s.apmode, cfg.apSsid, cfg.apPassword, AP_IP,
      status, StatusLabel(cfg.wifiStatusStrings, status),
      polled.staSsid, Utf8Length(polled.staPassword), polled.connectStartTime,
      staIp, now)
  }

  /** The store writes of a credential update: a slot only for a parameter present. */
  function AfterWriteCredentials(s: WifiState, ssid: Option<string>, password: Option<string>): (r: WifiState)
  {
    var s1 := if ssid.Some? then s.(rom := s.rom[s.romSsid := ssid.value]) else s;
    if password.Some? then s1.(rom := s1.rom[s1.romPassword := password.value]) else s1
  }

  /** The credential update: write, reload, reconnect as a station. */
  function AfterCredentialUpdate(s: WifiState, ssid: Option<string>, password: Option<string>, now: nat): (r: WifiState)
  {
    AfterConnect(AfterReadSettings(AfterWriteCredentials(s, ssid, password)), WIFI_STA, now)
  }

  // ------------------------------------------------------------ properties

  /** The mode codes the controller's own decisions produce. */
  predicate KnownMode(mode: int)
  {
    mode == 0 || mode == WIFI_AP || mode == WIFI_STA
  }

  /**
   * An explicit connect always ends in the requested mode. The AP path
   * raises both AP flags and keeps the start time; the STA path restarts
   * the start time and keeps the AP flags, so AP and STA may coexist.
   * Nothing else changes.
   */
  lemma ConnectEffect(s: WifiState, mode: int, now: nat)
    ensures var r := AfterConnect(s, mode, now);
      && r.wifimode == mode
      && (mode == WIFI_AP ==> r.apmode && r.modeAp && r.connectStartTime == s.connectStartTime)
      && (mode == WIFI_STA ==> r.connectStartTime == now && r.apmode == s.apmode && r.modeAp == s.modeAp)
      && (mode != WIFI_AP && mode != WIFI_STA ==> r == s.(wifimode := mode))
      && r.modeSta == s.modeSta && r.staSsid == s.staSsid && r.staPassword == s.staPassword
      && r.rom == s.rom && r.romSsid == s.romSsid && r.romPassword == s.romPassword
  {
  }

  /** The AP path issues the fixed AP credentials and address; the STA path the loaded credentials. */
  lemma ConnectActionsUseCredentials(cfg: Config, s: WifiState, mode: int)
    ensures mode == WIFI_AP ==>
      ConnectActions(cfg, s, mode) == [StartAccessPoint(cfg.apSsid, cfg.apPassword, "192.168.1.1", "255.255.255.0")]
    ensures mode == WIFI_STA ==> ConnectActions(cfg, s, mode) == [BeginStation(s.staSsid, s.staPassword)]
    ensures mode != WIFI_AP && mode != WIFI_STA ==> ConnectActions(cfg, s, mode) == []
  {
  }

  /**
   * While undetermined, the automatic connect loads the stored credentials
   * and picks AP exactly when the pin is asserted or the stored SSID is
   * empty, STA otherwise.
   */
  lemma AutoConnectDecision(s: WifiState, modeswitch: bool, now: nat)
    requires s.wifimode == 0
    ensures var r := AfterAutoConnect(s, modeswitch, now);
      && r.staSsid == RomRead(s.rom, s.romSsid)
      && r.staPassword == RomRead(s.rom, s.romPassword)
      && (r.wifimode == WIFI_AP <==> modeswitch || RomRead(s.rom, s.romSsid) == "")
      && (r.wifimode == WIFI_STA <==> !modeswitch && RomRead(s.rom, s.romSsid) != "")
      && (r.wifimode == WIFI_AP ==> r.apmode && r.modeAp && r.connectStartTime == s.connectStartTime)
      && (r.wifimode == WIFI_STA ==> r.connectStartTime == now && r.apmode == s.apmode)
      && r.rom == s.rom
  {
  }

  /** Once the mode is determined, the automatic connect changes nothing and issues nothing. */
  lemma AutoConnectNoOp(cfg: Config, s: WifiState, modeswitch: bool, now: nat)
    requires s.wifimode != 0
    ensures AfterAutoConnect(s, modeswitch, now) == s
    ensures AutoConnectActions(cfg, s, modeswitch) == []
  {
  }

  /**
   * A second automatic connect, whatever the pin and the clock say then,
   * neither changes the state nor restarts a connection attempt.
   */
  lemma AutoConnectIdempotent(cfg: Config, s: WifiState, pin1: bool, now1: nat, pin2: bool, now2: nat)
    ensures var once := AfterAutoConnect(s, pin1, now1);
      && AfterAutoConnect(once, pin2, now2) == once
      && AutoConnectActions(cfg, once, pin2) == []
  {
    var once := AfterAutoConnect(s, pin1, now1);
    if s.wifimode == 0 {
      assert once.wifimode == WIFI_AP || once.wifimode == WIFI_STA;
    }
  }

  /**
   * A poll that observes an association forces STA mode and sets the STA
   * flag; any other status clears the flag and keeps the mode.
   * Nothing else changes.
   */
  lemma PollEffect(s: WifiState, status: int)
    ensures var r := AfterPoll(s, status);
      && (status == WL_CONNECTED ==> r.wifimode == WIFI_STA && r.modeSta)
      && (status != WL_CONNECTED ==> r.wifimode == s.wifimode && !r.modeSta)
      && r == s.(wifimode := r.wifimode, modeSta := r.modeSta)
  {
  }

  /**
   * The mode codes stay among undetermined, AP and STA under the automatic
   * connect and the poll (and, by ConnectEffect and CredentialUpdateEffect,
   * under connects to AP or STA), and a determined mode never falls back to
   * undetermined: after the automatic connect the mode is always determined.
   */
  lemma ModeStaysKnown(s: WifiState, pin: bool, status: int, now: nat)
    requires KnownMode(s.wifimode)
    ensures KnownMode(AfterAutoConnect(s, pin, now).wifimode)
    ensures AfterAutoConnect(s, pin, now).wifimode != 0
    ensures KnownMode(AfterPoll(s, status).wifimode)
    ensures s.wifimode != 0 ==> AfterPoll(s, status).wifimode != 0
  {
  }

  /**
   * The snapshot: AP fields from the configuration with the fixed address,
   * the status code and its label, the STA SSID, the password's length in
   * bytes,
   * the attempt's start time, the caller's address and timestamp.
   */
  lemma ReportFields(cfg: Config, s: WifiState, status: int, staIp: string, now: nat)
    requires ValidConfig(cfg)
    ensures var r := Report(cfg, s, status, staIp, now);
      && r.ap == s.apmode && r.apSsid == cfg.apSsid && r.apPassword == cfg.apPassword
      && r.apIp == "192.168.1.1"
      && r.sta == status && r.staStatus == StatusLabel(cfg.wifiStatusStrings, status)
      && r.staSsid == s.staSsid && r.staPassword == Utf8Length(s.staPassword)
      && r.staTime == s.connectStartTime && r.staIp == staIp && r.pingTime == now
  {
  }

  /**
   * The snapshot depends on the STA password only through its byte length:
   * two states that differ in the password alone, with passwords of equal
   * byte length, give the same snapshot.
   */
  lemma ReportRedactsPassword(cfg: Config, s: WifiState, other: string, status: int, staIp: string, now: nat)
    requires ValidConfig(cfg)
    requires Utf8Length(other) == Utf8Length(s.staPassword)
    ensures Report(cfg, s, status, staIp, now) == Report(cfg, s.(staPassword := other), status, staIp, now)
  {
  }

  /**
   * A credential update writes the SSID slot only when an SSID is given and
   * the password slot only when a password is given, touches no other
   * slot, reloads the credentials from the store and connects as a station.
   */
  lemma CredentialUpdateEffect(s: WifiState, ssid: Option<string>, password: Option<string>, now: nat)
    ensures var r := AfterCredentialUpdate(s, ssid, password, now);
      && (forall slot :: slot != s.romSsid && slot != s.romPassword ==> RomRead(r.rom, slot) == RomRead(s.rom, slot))
      && (password.Some? ==> RomRead(r.rom, s.romPassword) == password.value)
      && (ssid.Some? && (password.None? || s.romSsid != s.romPassword) ==> RomRead(r.rom, s.romSsid) == ssid.value)
      && (ssid.None? && password.None? ==> r.rom == s.rom)
      && (ssid.None? && s.romSsid != s.romPassword ==> RomRead(r.rom, s.romSsid) == RomRead(s.rom, s.romSsid))
      && (password.None? ==>
            RomRead(r.rom, s.romPassword) ==
              if ssid.Some? && s.romSsid == s.romPassword then ssid.value else RomRead(s.rom, s.romPassword))
      && r.staSsid == RomRead(r.rom, s.romSsid) && r.staPassword == RomRead(r.rom, s.romPassword)
      && r.wifimode == WIFI_STA && r.connectStartTime == now
      && r.apmode == s.apmode && r.modeAp == s.modeAp && r.modeSta == s.modeSta
  {
  }

  /** With distinct slots, the credentials given are the credentials used to connect. */
  lemma CredentialUpdateRoundTrip(cfg: Config, s: WifiState, ssid: string, password: string, now: nat)
    requires s.romSsid != s.romPassword
    ensures var r := AfterCredentialUpdate(s, Some(ssid), Some(password), now);
      && r.staSsid == ssid && r.staPassword == password
      && ConnectActions(cfg, AfterReadSettings(AfterWriteCredentials(s, Some(ssid), Some(password))), WIFI_STA)
           == [BeginStation(ssid, password)]
  {
    var written := AfterWriteCredentials(s, Some(ssid), Some(password));
    RomReadAfterWrite(s.rom[s.romSsid := ssid], s.romPassword, password, s.romSsid);
    RomReadAfterWrite(s.rom[s.romSsid := ssid], s.romPassword, password, s.romPassword);
    RomReadAfterWrite(s.rom, s.romSsid, ssid, s.romSsid);
  }
}

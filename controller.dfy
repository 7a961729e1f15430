/**
 * The WiFi controller object. Its fields are updated in place by the
 * connect, poll, status and credential-update operations; each method's
 * new state is the WifiSpec transition of the old one, and the radio
 * requests it issues are recorded in the ghost field `radio`.
 */
module WifiController {
  import opened WifiTables
  import opened WifiSpec

  class CodbotsWifi {
    const config: Config

    var romSsid: int
    var romPassword: int
    /** The credential store's contents, slot id to stored string. */
    var rom: map<int, string>

    var wifimode: int
    var apmode: bool
    var modeAp: bool
    var modeSta: bool
    var connectStartTime: nat
    var staSsid: string
    var staPassword: string

    /** Every request issued to the radio, oldest first. */
    ghost var radio: seq<RadioAction>

    /** The configuration tables have the sizes the classifiers index. */
    predicate Valid()
    {
      ValidConfig(config)
    }

    /** The abstract value of the controller. */
    function State(): WifiState
      reads this
    {
      WifiState(wifimode, apmode, modeAp, modeSta, connectStartTime,
                staSsid, staPassword, romSsid, romPassword, rom)
    }

    constructor (cfg: Config, ssidSlot: int, passwordSlot: int, store: map<int, string>)
      requires ValidConfig(cfg)
      ensures config == cfg && Valid()
      ensures State() == Initial(ssidSlot, passwordSlot, store)
      ensures radio == []
    {
      config := cfg;
      romSsid, romPassword, rom := ssidSlot, passwordSlot, store;
      wifimode := 0;
      apmode, modeAp, modeSta := false, false, false;
      connectStartTime := 0;
      staSsid, staPassword := "", "";
      radio := [];
    }

    /** Binds the controller to `store` and chooses the two slots that hold the STA credentials. */
    method SetMemory(store: map<int, string>, ssidSlot: int, passwordSlot: int)
      modifies this
      ensures State() == AfterSetMemory(old(State()), store, ssidSlot, passwordSlot)
      ensures radio == old(radio)
    {
      rom := store;
      romSsid := ssidSlot;
      romPassword := passwordSlot;
    }

    /** Reloads the STA credentials from the store. */
    method ReadWifiSettings()
      modifies this
      ensures State() == AfterReadSettings(old(State()))
      ensures radio == old(radio)
    {
      staSsid := RomRead(rom, romSsid);
      staPassword := RomRead(rom, romPassword);
    }

    /**
     * The one-shot automatic connect; `modeswitch` is the mode pin's
     * reading and `now` the clock.
     */
    method Connect(modeswitch: bool, now: nat)
      modifies this
      ensures State() == AfterAutoConnect(old(State()), modeswitch, now)
      ensures radio == old(radio) + AutoConnectActions(config, old(State()), modeswitch)
    {
      if wifimode == 0 {
        ReadWifiSettings();
        if modeswitch || staSsid == "" {
          ConnectMode(WIFI_AP, now);
        } else {
          ConnectMode(WIFI_STA, now);
        }
      }
    }

    /** Connects in the given mode; `now` is the clock. */
    method ConnectMode(mode: int, now: nat)
      modifies this
      ensures State() == AfterConnect(old(State()), mode, now)
      ensures radio == old(radio) + ConnectActions(config, old(State()), mode)
    {
      if mode == WIFI_AP {
        radio := radio + [StartAccessPoint(config.apSsid, config.apPassword, AP_IP, AP_SUBNET)];
        apmode := true;
        modeAp := true;
      } else if mode == WIFI_STA {
        radio := radio + [BeginStation(staSsid, staPassword)];
        connectStartTime := now;
      }
      wifimode := mode;
    }

    /** Polls the radio, whose status reads `status`, and returns that status. */
    method GetConnectStatus(status: int) returns (r: int)
      modifies this
      ensures r == status
      ensures State() == AfterPoll(old(State()), status)
      ensures radio == old(radio)
    {
      if status == WL_CONNECTED {
        wifimode := WIFI_STA;
        modeSta := true;
      } else {
        modeSta := false;
      }
      r := status;
    }

    /**
     * The status snapshot. `status` is the radio's status, `staIp` its
     * station address and `now` the clock.
     */
    method GetConnectStatusJson(status: int, staIp: string, now: nat) returns (report: StatusReport)
      requires Valid()
      modifies this
      ensures report == Report(config, old(State()), status, staIp, now)
      ensures State() == AfterPoll(old(State()), status)
      ensures radio == old(radio)
    {
      var ap := apmode;
      var polled := GetConnectStatus(status);
      report := StatusReport(
        ap, config.apSsid, config.apPassword, AP_IP,
        polled, StatusLabel(config.wifiStatusStrings, polled),
        staSsid, Utf8Length(staPassword), connectStartTime,
        staIp, now);
    }

    /**
     * The credential-update request: `ssid` and `password` are the request's
     * parameters (None when absent), `connectNow` and `pingNow` the clock at
     * the connect and at the snapshot, `status` and `staIp` the radio's
     * answers while the snapshot is built.
     */
    method WifiConnectRequest(ssid: Option<string>, password: Option<string>, connectNow: nat,
                              status: int, staIp: string, pingNow: nat)
      returns (report: StatusReport)
      requires Valid()
      modifies this
      ensures State() == AfterPoll(AfterCredentialUpdate(old(State()), ssid, password, connectNow), status)
      ensures report == Report(config, AfterCredentialUpdate(old(State()), ssid, password, connectNow),
                               status, staIp, pingNow)
      ensures radio == old(radio) +
                ConnectActions(config, AfterReadSettings(AfterWriteCredentials(old(State()), ssid, password)), WIFI_STA)
    {
      if ssid.Some? {
        rom := rom[romSsid := ssid.value];
      }
      if password.Some? {
        rom := rom[romPassword := password.value];
      }
      ReadWifiSettings();
      ConnectMode(WIFI_STA, connectNow);
      report := GetConnectStatusJson(status, staIp, pingNow);
    }

    /**
     * The disconnect request: asks the radio to disconnect, then answers
     * with the status snapshot; the mode is left as it was.
     */
    method WifiDisconnectRequest(status: int, staIp: string, now: nat) returns (report: StatusReport)
      requires Valid()
      modifies this
      ensures radio == old(radio) + [Disconnect]
      ensures report == Report(config, old(State()), status, staIp, now)
      ensures State() == AfterPoll(old(State()), status)
    {
      radio := radio + [Disconnect];
      report := GetConnectStatusJson(status, staIp, now);
    }
  }
}

/**
 * The controller's boot and status scenarios, stated once on the values of
 * WifiSpec and once through the controller object, using only the
 * methods' contracts.
 */
module WifiScenarios {
  import opened WifiTables
  import opened WifiSpec
  import WifiController

  /** Pin asserted, nothing stored: AP mode, and the snapshot shows the AP and its fixed address. */
  lemma AccessPointAtBoot(cfg: Config, ssidSlot: int, passwordSlot: int, now: nat, status: int, staIp: string, ping: nat)
    requires ValidConfig(cfg)
    ensures var booted := AfterAutoConnect(Initial(ssidSlot, passwordSlot, map[]), true, now);
      && booted.wifimode == WIFI_AP
      && Report(cfg, booted, status, staIp, ping).ap
      && Report(cfg, booted, status, staIp, ping).apIp == "192.168.1.1"
  {
  }

  /**
   * Pin clear, "home-net" / "secret1" stored: STA mode, the station is
   * begun with exactly those credentials, and the snapshot shows the SSID
   * and a password length of 7.
   */
  lemma StationAtBoot(cfg: Config, ssidSlot: int, passwordSlot: int, now: nat, status: int, staIp: string, ping: nat)
    requires ValidConfig(cfg)
    requires ssidSlot != passwordSlot
    ensures var s := Initial(ssidSlot, passwordSlot, map[ssidSlot := "home-net", passwordSlot := "secret1"]);
      var booted := AfterAutoConnect(s, false, now);
      && booted.wifimode == WIFI_STA
      && AutoConnectActions(cfg, s, false) == [BeginStation("home-net", "secret1")]
      && Report(cfg, booted, status, staIp, ping).staSsid == "home-net"
      && Report(cfg, booted, status, staIp, ping).staPassword == 7
  {
  }

  /** A poll that observes an association while in AP mode forces STA mode and the STA flag. */
  lemma PollPromotesAccessPoint(s: WifiState)
    requires s.wifimode == WIFI_AP
    ensures AfterPoll(s, WL_CONNECTED).wifimode == WIFI_STA
    ensures AfterPoll(s, WL_CONNECTED).modeSta
    ensures AfterPoll(s, WL_CONNECTED).apmode == s.apmode
  {
  }

  /** The snapshot reports a password's bytes, not its characters: "päss" has four characters and five bytes. */
  lemma NonAsciiPasswordLength(cfg: Config, s: WifiState, status: int, staIp: string, now: nat)
    requires ValidConfig(cfg)
    requires s.staPassword == "p\U{E4}ss"
    ensures |s.staPassword| == 4
    ensures Report(cfg, s, status, staIp, now).staPassword == 5
  {
    var pw := s.staPassword;
    assert pw[1..] == "\U{E4}ss" && pw[2..] == "ss";
    assert Utf8Width(pw[1]) == 2;
    assert Utf8Length(pw[2..]) == 2 by {
      Utf8LengthAscii(pw[2..]);
    }
    assert pw[1..][1..] == pw[2..];
    assert Utf8Length(pw[1..]) == 2 + Utf8Length(pw[2..]);
    assert Utf8Length(pw) == 1 + Utf8Length(pw[1..]);
  }

  /** Status code 0 reads label 0 of the table; code 9 reads "UNKNOWN". */
  lemma StatusLabelExamples(labels: seq<string>)
    requires |labels| == STATUS_COUNT
    ensures StatusLabel(labels, 0) == labels[0]
    ensures StatusLabel(labels, 9) == "UNKNOWN"
  {
  }

  /**
   * A client of the controller object: boot with a station stored, boot
   * again, poll, then update the credentials.
   */
  method StationClient(cfg: Config)
    requires ValidConfig(cfg)
  {
    var store := map[10 := "home-net", 42 := "secret1"];
    var wifi := new WifiController.CodbotsWifi(cfg, 10, 42, store);
    wifi.Connect(false, 100);
    assert wifi.wifimode == WIFI_STA && wifi.connectStartTime == 100;
    assert wifi.radio == [BeginStation("home-net", "secret1")];

    wifi.Connect(true, 200);
    assert wifi.wifimode == WIFI_STA && wifi.connectStartTime == 100;
    assert wifi.radio == [BeginStation("home-net", "secret1")];

    var report := wifi.GetConnectStatusJson(WL_CONNECTED, "10.0.0.7", 300);
    Utf8LengthAscii("secret1");
    assert wifi.modeSta && report.staPassword == 7 && report.staTime == 100;

    report := wifi.WifiConnectRequest(Some("office"), None, 400, 6, "", 401);
    assert wifi.staSsid == "office" && wifi.staPassword == "secret1";
    assert wifi.connectStartTime == 400 && !wifi.modeSta;
    assert report.staSsid == "office" && report.staTime == 400;
  }
}

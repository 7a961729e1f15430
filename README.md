# CODBOTS_WIFI connection-state controller, modelled in Dafny

This project models the connection-state controller of the CODBOTS_WIFI
library. The controller runs on an ESP32-class board. It decides once, at
boot, whether the board hosts its own access point (AP) or joins a network
as a station (STA). It keeps the STA credentials in two slots of a ROM
store and issues the radio's connect requests. It polls the radio's status,
classifies signal strength, and builds the status snapshot that the
`/wifi_status`, `/wifi_connect` and `/wifi_disconnect` web handlers return.

Files:

- `tables.dfy`, module `WifiTables`: the pure classifiers.
  - `SignalLevel` is the step function over the five-entry threshold table.
  - `GetSignalLevel` is the driver's downward loop, proved against it.
  - `SignalLevelName`, `StatusLabel` and `EncryptionTypeString` are the lookup tables.
- `spec_state.dfy`, module `WifiSpec`: the controller as values.
  - `WifiState` holds the controller's fields plus the ROM contents.
  - Each operation is a transition function (`AfterAutoConnect`, `AfterConnect`, `AfterPoll`, `AfterCredentialUpdate`, ...).
  - `Report` builds the `StatusReport` record, one field per JSON key.
  - The lemmas state what the operations promise.
- `controller.dfy`, module `WifiController`: the class `CodbotsWifi`, whose
  methods update its fields in place. Each method's `ensures` ties the new
  `State()` to the matching `WifiSpec` function. A ghost field `radio` records
  every request issued to the radio: AP start, STA begin, disconnect.
- `scenarios.dfy`, module `WifiScenarios`: boot and poll scenarios as
  lemmas, plus a client method that drives the object through its contracts.

The external collaborators are inputs:

- the mode pin's `digitalRead` is a `bool` argument;
- `millis()` is a `now: nat` argument;
- `WiFi.status()` is an `int` argument;
- `WiFi.localIP()` is a string argument;
- the ROM is a `map<int, string>` from slot id to stored string.

The header `CODBOTS_WIFI.h` is not part of this model. Its tables and the AP
credentials form a `Config` value that is given to the constructor: 5
thresholds, 5 level names and 8 status labels. The constants take the ESP32
Arduino core's values:

- `WIFI_STA = 1` and `WIFI_AP = 2`; the initial mode is 0 (undetermined);
- `WL_CONNECTED = 3`;
- the five `WIFI_AUTH_*` codes are 0 to 4.

The constructor starts with both AP flags and the STA flag false, a start
time of 0 and empty cached credentials.

Behaviour of the code that the model keeps as it is:

- `connect(int mode)` sets `wifimode` to whatever code it is given,
  including 0. It issues a radio request only for `WIFI_AP` and `WIFI_STA`
  (`ConnectEffect`). `ModeStaysKnown` gives the invariant for the operations
  that choose their own mode.
- The STA path never clears `apmode`, so the AP and STA flags can both be
  true (`ConnectEffect`, `CredentialUpdateEffect`).
- The snapshot's `STA_password` is the length of a device string, which
  counts bytes. The model counts the bytes of the password's UTF-8 encoding
  (`Utf8Length`), which differs from the character count for non-ASCII
  passwords (`NonAsciiPasswordLength`).

## Model

| member | source | states |
|---|---|---|
| `WifiTables.LevelBelow` | CODBOTS_WIFI.cpp:58-65 | scanning bands i-1 down to 0 yields a level below 5 that is either 0 or the first band from the top whose threshold the reading meets; all bands above it are unmet |
| `WifiTables.SignalLevel` | CODBOTS_WIFI.cpp:56-66 | the level is the largest index in 0..4 whose threshold the reading meets, or 0 when none is met |
| `WifiTables.SignalLevelUnique` | CODBOTS_WIFI.cpp:56-66 | that characterisation determines the level uniquely |
| `WifiTables.GetSignalLevel` | CODBOTS_WIFI.cpp:56-66 | the downward loop with early return returns exactly that largest-matching level, or 0 |
| `WifiTables.SignalLevelMonotonic` | CODBOTS_WIFI.cpp:56-66 | a stronger reading never gets a lower level, for a threshold table in any order |
| `WifiTables.SignalLevelBands` | CODBOTS_WIFI.cpp:56-66 | for an ascending table, level i > 0 holds exactly on [T_i, T_i+1), or from T_4 on for i = 4, and level 0 holds exactly below T_1 |
| `WifiTables.SignalLevelOfTopThreshold` | CODBOTS_WIFI.cpp:58-63 | the top threshold itself classifies as level 4 |
| `WifiTables.SignalLevelName` | CODBOTS_WIFI.cpp:42-50 | the name is the table entry at the reading's level; it is always a table entry, so the "Unknown" fallback is never taken |
| `WifiTables.StatusLabel` | CODBOTS_WIFI.cpp:219-229 | a status label is a table entry or "UNKNOWN" |
| `WifiTables.StatusLabelLookup` | CODBOTS_WIFI.cpp:221-227 | for any eight-entry table, code s in 0..7 reads entry s and every other code reads "UNKNOWN" |
| `WifiTables.StatusLabelIdentifiesCode` | CODBOTS_WIFI.cpp:219-229 | with distinct labels other than "UNKNOWN", the label is "UNKNOWN" exactly for codes outside 0..7, and two in-range codes share a label only if they are equal |
| `WifiTables.EncryptionTypeString` | CODBOTS_WIFI.cpp:108-125 | the five authentication modes never read "Unknown" |
| `WifiTables.EncryptionTypeStringIdentifiesMode` | CODBOTS_WIFI.cpp:108-125 | the name is "Unknown" exactly for codes outside the five modes; distinct modes get distinct names |
| `WifiSpec.Utf8Width` | CODBOTS_WIFI.cpp:331 | a character's UTF-8 encoding takes 1 to 4 bytes, exactly 1 for ASCII |
| `WifiSpec.Utf8Length` | CODBOTS_WIFI.cpp:331 | a string's UTF-8 byte length lies between its character count and four times it, and is 0 only for the empty string |
| `WifiSpec.Utf8LengthAscii` | CODBOTS_WIFI.cpp:331 | byte length equals character count exactly when every character is ASCII |
| `WifiSpec.RomReadAfterWrite` | CODBOTS_WIFI.cpp:273-279 | a slot reads back the value last written to it; other slots are unaffected |
| `WifiSpec.ConnectEffect` | CODBOTS_WIFI.cpp:172-195 | connect(mode) always ends in `wifimode == mode`; the AP path sets both AP flags and keeps the start time; the STA path sets the start time to now and keeps the AP flags; any other code changes only the mode; credentials, STA flag and store are untouched |
| `WifiSpec.ConnectActionsUseCredentials` | CODBOTS_WIFI.cpp:174-190 | the AP path starts the AP with the fixed AP credentials at 192.168.1.1/255.255.255.0; the STA path begins association with the cached STA credentials; any other code issues nothing |
| `WifiSpec.AutoConnectDecision` | CODBOTS_WIFI.cpp:141-157 | while undetermined, connect() reloads the stored credentials and picks AP exactly when the pin is asserted or the stored SSID is empty, STA exactly otherwise, with the matching path's effect |
| `WifiSpec.AutoConnectNoOp` | CODBOTS_WIFI.cpp:143 | with a determined mode, connect() changes nothing and issues no radio request |
| `WifiSpec.AutoConnectIdempotent` | CODBOTS_WIFI.cpp:141-157 | a second connect(), whatever the pin and clock then read, changes nothing and restarts no attempt |
| `WifiSpec.PollEffect` | CODBOTS_WIFI.cpp:201-213 | a poll that sees WL_CONNECTED forces STA mode and sets the STA flag; any other status clears the flag and keeps the mode; nothing else changes |
| `WifiSpec.ModeStaysKnown` | CODBOTS_WIFI.cpp:141-213 | connect() and the poll keep the mode among 0, AP and STA; after connect() the mode is determined; a poll never makes a determined mode undetermined |
| `WifiSpec.ReportFields` | CODBOTS_WIFI.cpp:318-335 | the snapshot shows the AP flag, the AP credentials, the fixed AP address 192.168.1.1, the polled status and its label, the STA SSID, the password's length in bytes, the attempt's start time, the station address and the ping time |
| `WifiSpec.ReportRedactsPassword` | CODBOTS_WIFI.cpp:331 | the snapshot depends on the STA password only through its byte length: passwords of equal byte length give equal snapshots |
| `WifiSpec.CredentialUpdateEffect` | CODBOTS_WIFI.cpp:267-283 | the SSID slot is written only for an ssid parameter and the password slot only for a password parameter; no other slot changes; the cached credentials are reloaded from the store; the controller connects as a station with a fresh start time and unchanged AP flags |
| `WifiSpec.CredentialUpdateRoundTrip` | CODBOTS_WIFI.cpp:271-283 | with distinct slots, the given SSID and password become the cached credentials and are the ones the station is begun with |
| `WifiController.CodbotsWifi.constructor` | CODBOTS_WIFI.cpp:10-13 | a fresh controller is undetermined, with both AP flags and the STA flag false, start time 0, empty cached credentials and no radio request issued |
| `WifiController.CodbotsWifi.SetMemory` | CODBOTS_WIFI.cpp:19-26 | the controller is bound to the given store and the two given credential slots; nothing else changes |
| `WifiController.CodbotsWifi.ReadWifiSettings` | CODBOTS_WIFI.cpp:131-135 | the cached SSID and password become the contents of their slots; nothing else changes |
| `WifiController.CodbotsWifi.Connect` | CODBOTS_WIFI.cpp:141-157 | the new state is `AfterAutoConnect` of the old one, and the radio requests are those of the chosen path |
| `WifiController.CodbotsWifi.ConnectMode` | CODBOTS_WIFI.cpp:172-195 | the new state is `AfterConnect` of the old one, and the radio request is that of the requested mode |
| `WifiController.CodbotsWifi.GetConnectStatus` | CODBOTS_WIFI.cpp:201-213 | returns the radio status unchanged; the new state is `AfterPoll` of the old one |
| `WifiController.CodbotsWifi.GetConnectStatusJson` | CODBOTS_WIFI.cpp:318-340 | returns `Report` of the state before the poll and applies the poll |
| `WifiController.CodbotsWifi.WifiConnectRequest` | CODBOTS_WIFI.cpp:265-285 | writes the parameters present, reloads, connects as a station (one STA begin with the reloaded credentials), then answers with the snapshot and its poll |
| `WifiController.CodbotsWifi.WifiDisconnectRequest` | CODBOTS_WIFI.cpp:288-291 | issues one disconnect request and answers with the snapshot; only the poll changes the state |
| `WifiScenarios.AccessPointAtBoot` | CODBOTS_WIFI.cpp:141-157 | pin asserted and nothing stored gives AP mode, and the snapshot shows AP true at 192.168.1.1 |
| `WifiScenarios.StationAtBoot` | CODBOTS_WIFI.cpp:141-157 | pin clear with "home-net"/"secret1" stored gives STA mode, begins the station with those credentials, and the snapshot shows SSID "home-net" and password length 7 |
| `WifiScenarios.PollPromotesAccessPoint` | CODBOTS_WIFI.cpp:203-207 | a connected poll in AP mode forces STA mode and sets the STA flag, keeping the AP flag |
| `WifiScenarios.NonAsciiPasswordLength` | CODBOTS_WIFI.cpp:331 | a cached password "päss" has four characters but the snapshot reports 5, its byte length |
| `WifiScenarios.StatusLabelExamples` | CODBOTS_WIFI.cpp:219-229 | code 0 reads the table's first label; code 9 reads "UNKNOWN" |

## Left out

- `getWifiNetworksJSON` (CODBOTS_WIFI.cpp:72-102) is left out. It is a radio scan plus JSON serialisation, both foreign calls. Its per-network label, `EncryptionTypeString`, is modelled.
- `beginServer` (CODBOTS_WIFI.cpp:235-312) is left out: route registration, SPIFFS mounting, static file serving and `/networks_list`. The bodies of `/wifi_connect`, `/wifi_disconnect` and `/wifi_status` are modelled as `WifiConnectRequest`, `WifiDisconnectRequest` and `GetConnectStatusJson`.
- The default constructor without a ROM (CODBOTS_WIFI.cpp:4-7) is not modelled. The model always has a store.
- `setModePin`, `pinMode` and `digitalRead` are not modelled. The pin reading is the `modeswitch` argument.
- `getWifiMode` and `getIP` are plain getters and are not modelled. The mode is the public field `wifimode`. The station address is an argument.
- Strings are sequences of Unicode characters. The model assumes the device holds the request's strings as their UTF-8 bytes; it does not model invalid byte sequences.
- ROM internals are not modelled: `createSlot`, `writeSlot`, `readValues`, the 32-byte slot capacity and any truncation. A slot that was never written reads as the empty string.
- The JSON text, its key names and the 1024-byte document capacity are not modelled. The snapshot is the `StatusReport` record.
- `Serial.println` logging, `IPAddress` values, and what the radio does with `softAP`, `softAPConfig`, `begin` and `disconnect` are not modelled. These requests appear only as ghost `RadioAction` records.
- Asynchronous web-server callbacks are not modelled. All operations are sequential calls.
- `GetConnectStatus`: the source reads `WiFi.status()` twice, once for the test and once for the return value. The model takes a single reading, so it does not capture a status change between the two reads.
- The wrap-around of `millis()` is not modelled. `millis()` is an unsigned 32-bit counter that wraps. Timestamps are unbounded `nat`s here; the controller only stores them and never compares them.

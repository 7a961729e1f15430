/**
 * The pure classifiers of the WiFi controller: the signal-strength step
 * function over a five-entry threshold table, its label, the eight-entry
 * radio status label table and the names of the radio's authentication
 * modes.
 */
module WifiTables {

  /** Number of signal bands (entries of the threshold and name tables). */
  const LEVEL_COUNT := 5
  /** Number of entries of the radio status label table. */
  const STATUS_COUNT := 8

  // Authentication modes as the radio driver numbers them.
  const WIFI_AUTH_OPEN := 0
  const WIFI_AUTH_WEP := 1
  const WIFI_AUTH_WPA_PSK := 2
  const WIFI_AUTH_WPA2_PSK := 3
  const WIFI_AUTH_WPA_WPA2_PSK := 4

  /**
   * `level` is the signal level of reading `rssi`: the largest band index
   * whose threshold the reading meets, or 0 when it meets none.
   */
  ghost predicate IsSignalLevel(ranges: seq<int>, rssi: int, level: int)
    requires |ranges| == LEVEL_COUNT
  {
    && 0 <= level < LEVEL_COUNT
    && (forall j :: level < j < LEVEL_COUNT ==> rssi < ranges[j])
    && (level == 0 || rssi >= ranges[level])
  }

  /** At most one level satisfies IsSignalLevel. */
  lemma SignalLevelUnique(ranges: seq<int>, rssi: int, a: int, b: int)
    requires |ranges| == LEVEL_COUNT
    requires IsSignalLevel(ranges, rssi, a) && IsSignalLevel(ranges, rssi, b)
    ensures a == b
  {
  }

  /**
   * The result of scanning the bands i-1, i-2, ..., 0 from the top: the
   * first band whose threshold `rssi` meets, or 0.
   */
  function LevelBelow(ranges: seq<int>, rssi: int, i: nat): (level: nat)
    requires |ranges| == LEVEL_COUNT && i <= LEVEL_COUNT
    ensures level < LEVEL_COUNT
    ensures forall j :: level < j < i ==> rssi < ranges[j]
    ensures level == 0 || (level < i && rssi >= ranges[level])
    decreases i
  {
    if i == 0 then 0
    else if rssi >= ranges[i - 1] then i - 1
    else LevelBelow(ranges, rssi, i - 1)
  }

  /** The signal level of `rssi` against threshold table `ranges`. */
  function SignalLevel(ranges: seq<int>, rssi: int): (level: nat)
    requires |ranges| == LEVEL_COUNT
    ensures IsSignalLevel(ranges, rssi, level)
  {
    LevelBelow(ranges, rssi, LEVEL_COUNT)
  }

  /**
   * The driver's downward scan with early return; it computes exactly the
   * largest band whose threshold the reading meets, or 0.
   */
  method GetSignalLevel(ranges: seq<int>, rssi: int) returns (level: int)
    requires |ranges| == LEVEL_COUNT
    ensures IsSignalLevel(ranges, rssi, level)
    ensures level == SignalLevel(ranges, rssi)
  {
    var i := LEVEL_COUNT - 1;
    while i >= 0
      invariant -1 <= i < LEVEL_COUNT
      invariant forall j :: i < j < LEVEL_COUNT ==> rssi < ranges[j]
      decreases i
    {
      if rssi >= ranges[i] {
        SignalLevelUnique(ranges, rssi, i, SignalLevel(ranges, rssi));
        return i;
      }
      i := i - 1;
    }
    SignalLevelUnique(ranges, rssi, 0, SignalLevel(ranges, rssi));
    return 0;
  }

  /** A stronger reading never yields a lower level, whatever the table's order. */
  lemma SignalLevelMonotonic(ranges: seq<int>, weaker: int, stronger: int)
    requires |ranges| == LEVEL_COUNT
    requires weaker <= stronger
    ensures SignalLevel(ranges, weaker) <= SignalLevel(ranges, stronger)
  {
  }

  /**
   * For an ascending table the levels are bands: the level is 4 from the
   * top threshold on, 0 below the second threshold, and i exactly on
   * [ranges[i], ranges[i+1]) in between.
   */
  lemma SignalLevelBands(ranges: seq<int>, rssi: int, i: int)
    requires |ranges| == LEVEL_COUNT
    requires forall j, k :: 0 <= j < k < LEVEL_COUNT ==> ranges[j] <= ranges[k]
    requires 0 < i < LEVEL_COUNT
    ensures SignalLevel(ranges, rssi) == i <==>
              ranges[i] <= rssi && (i == LEVEL_COUNT - 1 || rssi < ranges[i + 1])
    ensures SignalLevel(ranges, rssi) == 0 <==> rssi < ranges[1]
  {
  }

  /** The top threshold always classifies as the strongest level. */
  lemma SignalLevelOfTopThreshold(ranges: seq<int>)
    requires |ranges| == LEVEL_COUNT
    ensures SignalLevel(ranges, ranges[LEVEL_COUNT - 1]) == LEVEL_COUNT - 1
  {
  }

  /**
   * The label of a reading. The level is always a valid index, so the
   * "Unknown" fallback of the driver is never taken.
   */
  function SignalLevelName(ranges: seq<int>, names: seq<string>, rssi: int): (name: string)
    requires |ranges| == LEVEL_COUNT && |names| == LEVEL_COUNT
    ensures name == names[SignalLevel(ranges, rssi)]
    ensures name in names
  {
    var index := SignalLevel(ranges, rssi);
    if 0 <= index < LEVEL_COUNT then names[index] else "Unknown"
  }

  /** The label of a radio status code; codes outside 0..7 read "UNKNOWN". */
  function StatusLabel(labels: seq<string>, status: int): (text: string)
    requires |labels| == STATUS_COUNT
    ensures text in labels || text == "UNKNOWN"
  {
    if 0 <= status < STATUS_COUNT then labels[status] else "UNKNOWN"
  }

  /**
   * For any eight-entry table, code s in 0..7 reads entry s and every other
   * code reads "UNKNOWN".
   */
  lemma StatusLabelLookup(labels: seq<string>, status: int)
    requires |labels| == STATUS_COUNT
    ensures 0 <= status < STATUS_COUNT ==> StatusLabel(labels, status) == labels[status]
    ensures !(0 <= status < STATUS_COUNT) ==> StatusLabel(labels, status) == "UNKNOWN"
  {
  }

  /**
   * With a table of distinct labels none of which is "UNKNOWN", the label
   * identifies the code: two codes in range share a label only if equal,
   * and "UNKNOWN" means out of range.
   */
  lemma StatusLabelIdentifiesCode(labels: seq<string>, a: int, b: int)
    requires |labels| == STATUS_COUNT
    requires forall j, k :: 0 <= j < k < STATUS_COUNT ==> labels[j] != labels[k]
    requires "UNKNOWN" !in labels
    ensures StatusLabel(labels, a) == "UNKNOWN" <==> !(0 <= a < STATUS_COUNT)
    ensures (0 <= a < STATUS_COUNT && 0 <= b < STATUS_COUNT &&
             StatusLabel(labels, a) == StatusLabel(labels, b)) ==> a == b
  {
    if 0 <= a < STATUS_COUNT && 0 <= b < STATUS_COUNT && a != b {
      if a < b {
        assert labels[a] != labels[b];
      } else {
        assert labels[b] != labels[a];
      }
    }
  }

  /** The five authentication modes the scan report names. */
  predicate IsKnownAuthMode(t: int)
  {
    t == WIFI_AUTH_OPEN || t == WIFI_AUTH_WEP || t == WIFI_AUTH_WPA_PSK ||
    t == WIFI_AUTH_WPA2_PSK || t == WIFI_AUTH_WPA_WPA2_PSK
  }

  /** The name of an authentication mode, "Unknown" for any other code. */
  function EncryptionTypeString(encryptionType: int): (name: string)
    ensures IsKnownAuthMode(encryptionType) ==> name != "Unknown"
  {
    if encryptionType == WIFI_AUTH_OPEN then "Open"
    else if encryptionType == WIFI_AUTH_WEP then "WEP"
    else if encryptionType == WIFI_AUTH_WPA_PSK then "WPA-PSK"
    else if encryptionType == WIFI_AUTH_WPA2_PSK then "WPA2-PSK"
    else if encryptionType == WIFI_AUTH_WPA_WPA2_PSK then "WPA/WPA2-PSK"
    else "Unknown"
  }

  /**
   * The name is "Unknown" exactly for the codes outside the five modes, and
   * distinct modes get distinct names.
   */
  lemma EncryptionTypeStringIdentifiesMode(a: int, b: int)
    ensures EncryptionTypeString(a) == "Unknown" <==> !IsKnownAuthMode(a)
    ensures (IsKnownAuthMode(a) && IsKnownAuthMode(b) &&
             EncryptionTypeString(a) == EncryptionTypeString(b)) ==> a == b
  {
  }
}

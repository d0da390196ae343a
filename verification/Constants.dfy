/** const.py: the categories, the key tables, event classification and webhook ids. */
module Constants {
  const NETWORK_DEVICE := "network_device"
  const NETWORK_WAN := "network_wan"
  const NETWORK_CLIENT := "network_client"
  const SECURITY_THREAT := "security_threat"
  const SECURITY_HONEYPOT := "security_honeypot"
  const SECURITY_FIREWALL := "security_firewall"
  const POWER := "power"

  const ALL_CATEGORIES: seq<string> := [NETWORK_DEVICE, NETWORK_WAN, NETWORK_CLIENT, SECURITY_THREAT,
                                        SECURITY_HONEYPOT, SECURITY_FIREWALL, POWER]

  type Table = seq<(string, string)>

  // UNIFI_KEY_TO_CATEGORY in declaration order, one run per group: legacy key prefixes.

  const LEGACY_ACCESS_POINTS: Table := [
    ("EVT_AP_Disconnected", NETWORK_DEVICE),
    ("EVT_AP_Connected", NETWORK_DEVICE),
    ("EVT_AP_Lost_Contact", NETWORK_DEVICE),
    ("EVT_AP_Adopted", NETWORK_DEVICE),
    ("EVT_AP_AutoReadopted", NETWORK_DEVICE),
    ("EVT_AP_Restarted", NETWORK_DEVICE),
    ("EVT_AP_Upgraded", NETWORK_DEVICE),
    ("EVT_AP_UpgradeFailed", NETWORK_DEVICE),
    ("EVT_AP_UpgradeScheduled", NETWORK_DEVICE),
    ("EVT_AP_Isolated", NETWORK_DEVICE),
    ("EVT_AP_Deleted", NETWORK_DEVICE)
  ]

  const LEGACY_SWITCHES: Table := [
    ("EVT_SW_Disconnected", NETWORK_DEVICE),
    ("EVT_SW_Connected", NETWORK_DEVICE),
    ("EVT_SW_Lost_Contact", NETWORK_DEVICE),
    ("EVT_SW_Adopted", NETWORK_DEVICE),
    ("EVT_SW_AutoReadopted", NETWORK_DEVICE),
    ("EVT_SW_Restarted", NETWORK_DEVICE),
    ("EVT_SW_Upgraded", NETWORK_DEVICE),
    ("EVT_SW_Deleted", NETWORK_DEVICE),
    ("EVT_SW_StpPortBlocking", NETWORK_DEVICE)
  ]

  const LEGACY_GATEWAYS: Table := [
    ("EVT_GW_Disconnected", NETWORK_DEVICE),
    ("EVT_GW_Connected", NETWORK_DEVICE),
    ("EVT_GW_Lost_Contact", NETWORK_DEVICE),
    ("EVT_GW_Adopted", NETWORK_DEVICE),
    ("EVT_GW_AutoReadopted", NETWORK_DEVICE),
    ("EVT_GW_Restarted", NETWORK_DEVICE),
    ("EVT_GW_Upgraded", NETWORK_DEVICE),
    ("EVT_GW_Deleted", NETWORK_DEVICE)
  ]

  const LEGACY_OTHER_DEVICES: Table := [
    ("EVT_DM_Connected", NETWORK_DEVICE),
    ("EVT_DM_Lost_Contact", NETWORK_DEVICE),
    ("EVT_DM_Upgraded", NETWORK_DEVICE),
    ("EVT_XG_AutoReadopted", NETWORK_DEVICE),
    ("EVT_XG_Connected", NETWORK_DEVICE),
    ("EVT_XG_Lost_Contact", NETWORK_DEVICE),
    ("EVT_IPS_IDS_Disconnected", NETWORK_DEVICE)
  ]

  const LEGACY_WAN: Table := [
    ("EVT_GW_WANTransition", NETWORK_WAN),
    ("EVT_GW_Failover", NETWORK_WAN),
    ("EVT_GW_WAN_Transition", NETWORK_WAN),
    ("EVT_GW_Internet_Access", NETWORK_WAN)
  ]

  const LEGACY_CLIENTS: Table := [
    ("EVT_WU_Connected", NETWORK_CLIENT),
    ("EVT_WU_Disconnected", NETWORK_CLIENT),
    ("EVT_WU_Roam", NETWORK_CLIENT),
    ("EVT_WG_Connected", NETWORK_CLIENT),
    ("EVT_WG_Disconnected", NETWORK_CLIENT),
    ("EVT_WG_Roam", NETWORK_CLIENT),
    ("EVT_WG_AuthorizationEnded", NETWORK_CLIENT),
    ("EVT_LU_Connected", NETWORK_CLIENT),
    ("EVT_LU_Disconnected", NETWORK_CLIENT),
    ("EVT_LG_Connected", NETWORK_CLIENT),
    ("EVT_LG_Disconnected", NETWORK_CLIENT)
  ]

  const LEGACY_THREATS: Table := [
    ("EVT_IPS_ThreatDetected", SECURITY_THREAT),
    ("EVT_IPS_IpsAlert", SECURITY_THREAT),
    ("EVT_IDS_Alert", SECURITY_THREAT),
    ("EVT_GW_ThreatDetected", SECURITY_THREAT),
    ("EVT_AP_DetectRogueAP", SECURITY_THREAT),
    ("EVT_AP_RadarDetected", SECURITY_THREAT),
    ("EVT_SW_DetectRogueDHCP", SECURITY_THREAT)
  ]

  const LEGACY_HONEYPOT_AND_FIREWALL: Table := [
    ("EVT_GW_Honeypot", SECURITY_HONEYPOT),
    ("EVT_GW_HoneypotDetected", SECURITY_HONEYPOT),
    ("EVT_GW_GeoIPFilteredTraffic", SECURITY_FIREWALL),
    ("EVT_GW_TrafficRoute", SECURITY_FIREWALL),
    ("EVT_GW_BlockedTraffic", SECURITY_FIREWALL),
    ("EVT_LC_Blocked", SECURITY_FIREWALL),
    ("EVT_WC_Blocked", SECURITY_FIREWALL)
  ]

  const LEGACY_POWER: Table := [
    ("EVT_SW_PoEDisconnect", POWER),
    ("EVT_SW_PoeDisconnect", POWER),
    ("EVT_SW_PoeOverload", POWER),
    ("EVT_SW_Overheat", POWER),
    ("EVT_AP_PowerCycled", POWER),
    ("EVT_GW_PowerLoss", POWER),
    ("EVT_XG_OutletPowerCycle", POWER),
    ("EVT_USP_RpsPowerDeniedByPsuOverload", POWER),
    ("EVT_UPS_", POWER)
  ]

  const LEGACY_GROUPS: seq<Table> := [
    LEGACY_ACCESS_POINTS,
    LEGACY_SWITCHES,
    LEGACY_GATEWAYS,
    LEGACY_OTHER_DEVICES,
    LEGACY_WAN,
    LEGACY_CLIENTS,
    LEGACY_THREATS,
    LEGACY_HONEYPOT_AND_FIREWALL,
    LEGACY_POWER
  ]

  function Flat(groups: seq<Table>): Table {
    if groups == [] then [] else groups[0] + Flat(groups[1..])
  }

  const LEGACY_PREFIXES: Table := Flat(LEGACY_GROUPS)

  /** SYSTEM_LOG_KEY_TO_CATEGORY: exact v2 keys. */
  const SYSTEM_LOG_KEYS: Table := [
    ("THREAT_BLOCKED_KNOWN_DESTINATION_CLIENT", SECURITY_THREAT),
    ("THREAT_BLOCKED_KNOWN_SOURCE_IP", SECURITY_THREAT),
    ("THREAT_BLOCKED_KNOWN_DESTINATION_IP", SECURITY_THREAT),
    ("THREAT_BLOCKED", SECURITY_THREAT),
    ("THREAT_DETECTED", SECURITY_THREAT),
    ("IDS_ALERT", SECURITY_THREAT),
    ("IPS_ALERT", SECURITY_THREAT),
    ("GEO_IP_FILTERED", SECURITY_FIREWALL),
    ("FIREWALL_BLOCK", SECURITY_FIREWALL),
    ("CLIENT_BLOCKED", SECURITY_FIREWALL),
    ("HONEYPOT_DETECTED", SECURITY_HONEYPOT),
    ("HONEYPOT", SECURITY_HONEYPOT),
    ("WAN_TRANSITION", NETWORK_WAN),
    ("WAN_FAILOVER", NETWORK_WAN),
    ("WAN_DISCONNECTED", NETWORK_WAN),
    ("WAN_CONNECTED", NETWORK_WAN),
    ("INTERNET_UNREACHABLE", NETWORK_WAN),
    ("INTERNET_RESTORED", NETWORK_WAN),
    ("DEVICE_DISCONNECTED", NETWORK_DEVICE),
    ("DEVICE_CONNECTED", NETWORK_DEVICE),
    ("DEVICE_LOST_CONTACT", NETWORK_DEVICE),
    ("DEVICE_ADOPTED", NETWORK_DEVICE),
    ("DEVICE_RESTARTED", NETWORK_DEVICE),
    ("DEVICE_UPGRADED", NETWORK_DEVICE),
    ("AP_DISCONNECTED", NETWORK_DEVICE),
    ("AP_CONNECTED", NETWORK_DEVICE),
    ("SWITCH_DISCONNECTED", NETWORK_DEVICE),
    ("SWITCH_CONNECTED", NETWORK_DEVICE),
    ("GATEWAY_DISCONNECTED", NETWORK_DEVICE),
    ("GATEWAY_CONNECTED", NETWORK_DEVICE),
    ("CLIENT_CONNECTED", NETWORK_CLIENT),
    ("CLIENT_DISCONNECTED", NETWORK_CLIENT),
    ("CLIENT_ROAMED", NETWORK_CLIENT),
    ("POE_OVERLOAD", POWER),
    ("POE_DISCONNECT", POWER),
    ("POWER_LOSS", POWER),
    ("UPS_LOW_BATTERY", POWER),
    ("DEVICE_OVERHEAT", POWER)
  ]

  /** SYSTEM_LOG_CATEGORY_FALLBACK: the v2 category enum. */
  const ENUM_FALLBACK: Table := [
    ("SECURITY", SECURITY_THREAT),
    ("INTERNET_AND_WAN", NETWORK_WAN),
    ("UNIFI_DEVICES", NETWORK_DEVICE),
    ("CLIENT_DEVICES", NETWORK_CLIENT),
    ("POWER", POWER),
    ("VPN", NETWORK_WAN),
    ("SOFTWARE_UPDATES", NETWORK_DEVICE)
  ]

  // ---- classification ----

  /** dict.get on a table with distinct keys, "" when absent. */
  function Lookup(t: Table, key: string): string {
    if t == [] then "" else if t[0].0 == key then t[0].1 else Lookup(t[1..], key)
  }

  /** The first entry whose prefix the key starts with. */
  function ScanPrefixes(t: Table, key: string): (r: string)
    ensures r == "" || exists x :: x in t && x.0 <= key && x.1 == r
  {
    if t == [] then "" else if t[0].0 <= key then t[0].1 else ScanPrefixes(t[1..], key)
  }

  /** The scan takes the first entry whose prefix the key starts with, and none only if there is none. */
  lemma {:induction false} ScanIsFirstMatch(t: Table, key: string)
    ensures if exists i :: 0 <= i < |t| && t[i].0 <= key
            then exists i :: 0 <= i < |t| && t[i].0 <= key && ScanPrefixes(t, key) == t[i].1
                             && forall j :: 0 <= j < i ==> !(t[j].0 <= key)
            else ScanPrefixes(t, key) == ""
  {
    if t != [] && !(t[0].0 <= key) {
      ScanIsFirstMatch(t[1..], key);
      if j :| 0 <= j < |t| && t[j].0 <= key {
        assert t[1..][j - 1] == t[j];
        var i :| 0 <= i < |t[1..]| && t[1..][i].0 <= key && ScanPrefixes(t[1..], key) == t[1..][i].1
          && forall k :: 0 <= k < i ==> !(t[1..][k].0 <= key);
        assert t[i + 1] == t[1..][i];
        assert forall k :: 0 < k < i + 1 ==> t[k] == t[1..][k - 1];
      } else {
        assert forall i :: 0 <= i < |t[1..]| ==> t[1..][i] == t[i + 1];
      }
    }
  }

  predicate IsDigit(c: char) {
    '0' <= c <= '9'
  }

  predicate AllDigits(s: string) {
    forall i :: 0 <= i < |s| ==> IsDigit(s[i])
  }

  /** How many digits the text ends with. */
  function TrailingDigits(s: string): (n: nat)
    ensures n <= |s|
    ensures AllDigits(s[|s| - n..])
    ensures n < |s| ==> !IsDigit(s[|s| - n - 1])
  {
    if s == [] || !IsDigit(s[|s| - 1]) then 0 else TrailingDigits(s[..|s| - 1]) + 1
  }

  /** re.sub of a trailing "_<digits>" by nothing. */
  function StripNumericSuffix(s: string): string {
    var n := TrailingDigits(s);
    if 0 < n < |s| && s[|s| - n - 1] == '_' then s[..|s| - n - 1] else s
  }

  function ClassifyEventKey(key: string, v2Enum: string): string {
    var exact := Lookup(SYSTEM_LOG_KEYS, key);
    if exact != "" then exact
    else
      var stripped := StripNumericSuffix(key);
      var variant := if stripped != key then Lookup(SYSTEM_LOG_KEYS, stripped) else "";
      if variant != "" then variant
      else
        var legacy := ScanPrefixes(LEGACY_PREFIXES, key);
        if legacy != "" then legacy else Lookup(ENUM_FALLBACK, v2Enum)
  }

  /** The two-stage resolution of an event: by key alone, then by enum alone. */
  function ResolveInTwoStages(key: string, v2Enum: string): string {
    var byKey := ClassifyEventKey(key, "");
    if byKey != "" then byKey else ClassifyEventKey("", v2Enum)
  }

  // ---- what the tables promise ----

  lemma {:induction false} LookupFinds(t: Table, key: string)
    ensures Lookup(t, key) == "" || exists i :: 0 <= i < |t| && t[i].0 == key && Lookup(t, key) == t[i].1
  {
    if t != [] && t[0].0 != key {
      LookupFinds(t[1..], key);
      if Lookup(t, key) != "" {
        var i :| 0 <= i < |t[1..]| && t[1..][i].0 == key && Lookup(t, key) == t[1..][i].1;
        assert t[i + 1] == t[1..][i];
      }
    }
  }

  lemma SystemLogKeysAreWords(i: nat)
    requires i < |SYSTEM_LOG_KEYS|
    ensures var k := SYSTEM_LOG_KEYS[i].0; |k| > 0 && !IsDigit(k[|k| - 1])
  {
  }

  /** Two-stage resolution is one call of classify_event_key, for every key and enum. */
  lemma TwoStagesAreOne(key: string, v2Enum: string)
    ensures ResolveInTwoStages(key, v2Enum) == ClassifyEventKey(key, v2Enum)
  {
    hide Lookup, ScanPrefixes, StripNumericSuffix, Flat;
    NothingForTheEmptyKey();
    NoEmptyEnum();
  }

  lemma NothingForTheEmptyKey()
    ensures Lookup(SYSTEM_LOG_KEYS, "") == "" && ScanPrefixes(LEGACY_PREFIXES, "") == "" && StripNumericSuffix("") == ""
  {
    hide Lookup, ScanPrefixes, Flat, CategoryOfPrefix;
    LookupFinds(SYSTEM_LOG_KEYS, "");
    forall i: nat | i < |SYSTEM_LOG_KEYS| ensures SYSTEM_LOG_KEYS[i].0 != "" {
      SystemLogKeysAreWords(i);
    }
    forall x | x in LEGACY_PREFIXES ensures x.0 != "" {
      LegacyOwnCategory(x);
    }
  }

  lemma NoEmptyEnum()
    ensures Lookup(ENUM_FALLBACK, "") == ""
  {
    LookupFinds(ENUM_FALLBACK, "");
  }

  lemma {:induction false} TrailingDigitsOfVariant(s: string, d: string)
    requires AllDigits(d) && (s == "" || !IsDigit(s[|s| - 1]))
    ensures TrailingDigits(s + d) == |d|
  {
    if d != [] {
      assert (s + d)[..|s + d| - 1] == s + d[..|d| - 1];
      TrailingDigitsOfVariant(s, d[..|d| - 1]);
    } else {
      assert s + d == s;
    }
  }

  /** Stripping undoes appending a numeric suffix, on any text, and only ever removes one. */
  lemma StripUndoesSuffix(s: string, d: string)
    requires AllDigits(d) && d != ""
    ensures StripNumericSuffix(s + "_" + d) == s
  {
    TrailingDigitsOfVariant(s + "_", d);
    assert (s + "_" + d)[..|s|] == s;
  }

  /** Appending _<digits> to any v2 table key never changes its category, whatever the enum. */
  lemma NumericVariantKeepsCategory(i: nat, d: string, v2Enum: string)
    requires i < |SYSTEM_LOG_KEYS| && AllDigits(d) && d != ""
    ensures var key := SYSTEM_LOG_KEYS[i].0;
            ClassifyEventKey(key + "_" + d, v2Enum) == ClassifyEventKey(key, v2Enum) != ""
  {
    hide Lookup, ScanPrefixes, StripNumericSuffix;
    var key := SYSTEM_LOG_KEYS[i].0;
    var variant := key + "_" + d;
    StripUndoesSuffix(key, d);
    LookupFinds(SYSTEM_LOG_KEYS, variant);
    assert IsDigit(variant[|variant| - 1]);
    forall j: nat | j < |SYSTEM_LOG_KEYS| ensures SYSTEM_LOG_KEYS[j].0 != variant {
      SystemLogKeysAreWords(j);
    }
    forall j: nat | j < |SYSTEM_LOG_KEYS| ensures SYSTEM_LOG_KEYS[j].1 != "" {
      SystemLogCategoriesAreNamed(j);
    }
    LookupSucceeds(SYSTEM_LOG_KEYS, i);
  }

  lemma {:induction false} LookupSucceeds(t: Table, i: nat)
    requires i < |t| && forall j :: 0 <= j < |t| ==> t[j].1 != ""
    ensures Lookup(t, t[i].0) != ""
  {
    if t[0].0 != t[i].0 {
      LookupSucceeds(t[1..], i - 1);
    }
  }

  lemma SystemLogCategoriesAreNamed(j: nat)
    requires j < |SYSTEM_LOG_KEYS|
    ensures SYSTEM_LOG_KEYS[j].1 in ALL_CATEGORIES && SYSTEM_LOG_KEYS[j].1 != ""
  {
  }

  // ---- the prefix scan does not depend on table order ----

  function At(key: string, i: nat): char {
    if i < |key| then key[i] else ' '
  }

  /** A reading of a legacy key by its device code and the head of its event name. */
  function CategoryOfPrefix(key: string): string {
    var a, b, c, d, e := At(key, 4), At(key, 5), At(key, 7), At(key, 8), At(key, 9);
    if a == 'A' then
      if c == 'P' then POWER else if (c == 'R' && d == 'a') || (c == 'D' && e == 't') then SECURITY_THREAT
      else NETWORK_DEVICE
    else if a == 'S' then
      if c == 'P' || c == 'O' then POWER else if c == 'D' && e == 't' then SECURITY_THREAT else NETWORK_DEVICE
    else if a == 'G' then
      if c == 'W' || c == 'F' || c == 'I' then NETWORK_WAN
      else if c == 'H' then SECURITY_HONEYPOT
      else if c == 'T' && d == 'h' then SECURITY_THREAT
      else if c == 'T' || c == 'G' || c == 'B' then SECURITY_FIREWALL
      else if c == 'P' then POWER
      else NETWORK_DEVICE
    else if a == 'D' then NETWORK_DEVICE
    else if a == 'X' then if c == 'O' then POWER else NETWORK_DEVICE
    else if a == 'I' then if b == 'P' && d == 'I' && e == 'D' then NETWORK_DEVICE else SECURITY_THREAT
    else if a == 'U' then POWER
    else if b == 'C' then SECURITY_FIREWALL
    else NETWORK_CLIENT
  }

  /** Long enough for CategoryOfPrefix to read. */
  predicate Readable(p: string) {
    |p| >= 10 || (|p| >= 8 && p[4] == 'U')
  }

  predicate OwnCategory(entry: (string, string)) {
    Readable(entry.0) && CategoryOfPrefix(entry.0) == entry.1
  }

  lemma AccessPointsOwn(i: nat)
    requires i < |LEGACY_ACCESS_POINTS|
    ensures OwnCategory(LEGACY_ACCESS_POINTS[i])
  {
  }

  lemma SwitchesOwn(i: nat)
    requires i < |LEGACY_SWITCHES|
    ensures OwnCategory(LEGACY_SWITCHES[i])
  {
  }

  lemma GatewaysOwn(i: nat)
    requires i < |LEGACY_GATEWAYS|
    ensures OwnCategory(LEGACY_GATEWAYS[i])
  {
  }

  lemma OtherDevicesOwn(i: nat)
    requires i < |LEGACY_OTHER_DEVICES|
    ensures OwnCategory(LEGACY_OTHER_DEVICES[i])
  {
  }

  lemma WanOwn(i: nat)
    requires i < |LEGACY_WAN|
    ensures OwnCategory(LEGACY_WAN[i])
  {
  }

  lemma ClientsOwn(i: nat)
    requires i < |LEGACY_CLIENTS|
    ensures OwnCategory(LEGACY_CLIENTS[i])
  {
  }

  lemma ThreatsOwn(i: nat)
    requires i < |LEGACY_THREATS|
    ensures OwnCategory(LEGACY_THREATS[i])
  {
  }

  lemma HoneypotAndFirewallOwn(i: nat)
    requires i < |LEGACY_HONEYPOT_AND_FIREWALL|
    ensures OwnCategory(LEGACY_HONEYPOT_AND_FIREWALL[i])
  {
  }

  lemma PowerOwn(i: nat)
    requires i < |LEGACY_POWER|
    ensures OwnCategory(LEGACY_POWER[i])
  {
  }

  lemma GroupOwns(g: nat, i: nat)
    requires g < |LEGACY_GROUPS| && i < |LEGACY_GROUPS[g]|
    ensures OwnCategory(LEGACY_GROUPS[g][i])
  {
    hide OwnCategory;
    if g == 0 {
      AccessPointsOwn(i);
    } else if g == 1 {
      SwitchesOwn(i);
    } else if g == 2 {
      GatewaysOwn(i);
    } else if g == 3 {
      OtherDevicesOwn(i);
    } else if g == 4 {
      WanOwn(i);
    } else if g == 5 {
      ClientsOwn(i);
    } else if g == 6 {
      ThreatsOwn(i);
    } else if g == 7 {
      HoneypotAndFirewallOwn(i);
    } else if g == 8 {
      PowerOwn(i);
    }
  }

  lemma {:induction false} InSomeGroup(groups: seq<Table>, x: (string, string))
    requires x in Flat(groups)
    ensures exists g, i :: 0 <= g < |groups| && 0 <= i < |groups[g]| && groups[g][i] == x
  {
    if x !in groups[0] {
      InSomeGroup(groups[1..], x);
      var g, i :| 0 <= g < |groups[1..]| && 0 <= i < |groups[1..][g]| && groups[1..][g][i] == x;
      assert groups[g + 1][i] == x;
    } else {
      var i :| 0 <= i < |groups[0]| && groups[0][i] == x;
    }
  }

  lemma LegacyOwnCategory(x: (string, string))
    requires x in LEGACY_PREFIXES
    ensures OwnCategory(x)
  {
    hide OwnCategory, Flat;
    InSomeGroup(LEGACY_GROUPS, x);
    var g, i :| 0 <= g < |LEGACY_GROUPS| && 0 <= i < |LEGACY_GROUPS[g]| && LEGACY_GROUPS[g][i] == x;
    GroupOwns(g, i);
  }

  lemma ReadingExtends(p: string, key: string)
    requires p <= key && Readable(p)
    ensures CategoryOfPrefix(key) == CategoryOfPrefix(p)
  {
    assert At(key, 4) == At(p, 4) && At(key, 5) == At(p, 5) && At(key, 7) == At(p, 7);
    if |p| >= 10 {
      assert At(key, 8) == At(p, 8) && At(key, 9) == At(p, 9);
    }
  }

  /** Every entry the key starts with names this category. */
  predicate Agreed(t: Table, key: string, category: string) {
    forall x :: x in t && x.0 <= key ==> x.1 == category
  }

  lemma {:induction false} ScanOfAgreed(t: Table, key: string, category: string)
    requires Agreed(t, key, category)
    ensures ScanPrefixes(t, key) == if exists x :: x in t && x.0 <= key then category else ""
  {
    if t != [] && !(t[0].0 <= key) {
      ScanOfAgreed(t[1..], key, category);
      assert forall x :: x in t <==> x == t[0] || x in t[1..];
    } else if t != [] {
      assert t[0] in t;
    }
  }

  /** Overlapping prefixes agree, so scanning any reordering of the table gives the same answer. */
  lemma PrefixScanIgnoresOrder(t: Table, key: string)
    ensures multiset(t) == multiset(LEGACY_PREFIXES) ==> ScanPrefixes(t, key) == ScanPrefixes(LEGACY_PREFIXES, key)
  {
    hide CategoryOfPrefix, Readable, ScanPrefixes, Flat;
    if multiset(t) == multiset(LEGACY_PREFIXES) {
      forall x: (string, string) ensures x in t <==> x in LEGACY_PREFIXES {
        assert x in multiset(t) <==> x in multiset(LEGACY_PREFIXES);
      }
      forall x | x in LEGACY_PREFIXES && x.0 <= key ensures x.1 == CategoryOfPrefix(key) {
        LegacyOwnCategory(x);
        ReadingExtends(x.0, key);
      }
      ScanOfAgreed(t, key, CategoryOfPrefix(key));
      ScanOfAgreed(LEGACY_PREFIXES, key, CategoryOfPrefix(key));
    }
  }

  lemma EnumCategoriesAreNamed(j: nat)
    requires j < |ENUM_FALLBACK|
    ensures ENUM_FALLBACK[j].1 in ALL_CATEGORIES
  {
  }

  lemma ReadingIsACategory(key: string)
    ensures CategoryOfPrefix(key) in ALL_CATEGORIES
  {
    assert ALL_CATEGORIES[0] == NETWORK_DEVICE && ALL_CATEGORIES[1] == NETWORK_WAN;
    assert ALL_CATEGORIES[2] == NETWORK_CLIENT;
    assert ALL_CATEGORIES[3] == SECURITY_THREAT && ALL_CATEGORIES[4] == SECURITY_HONEYPOT;
    assert ALL_CATEGORIES[5] == SECURITY_FIREWALL && ALL_CATEGORIES[6] == POWER;
  }

  lemma {:induction false} LookupFirst(t: Table, i: nat)
    requires i < |t| && forall j :: 0 <= j < i ==> t[j].0 != t[i].0
    ensures Lookup(t, t[i].0) == t[i].1
  {
    if i > 0 {
      LookupFirst(t[1..], i - 1);
    }
  }

  lemma EnumOf(c: string) returns (v2Enum: string)
    requires c in ALL_CATEGORIES && c != SECURITY_HONEYPOT && c != SECURITY_FIREWALL
    ensures Lookup(ENUM_FALLBACK, v2Enum) == c
  {
    hide Lookup;
    var i: nat :=
      if c == SECURITY_THREAT then 0 else if c == NETWORK_WAN then 1
      else if c == NETWORK_DEVICE then 2 else if c == NETWORK_CLIENT then 3 else 4;
    v2Enum := ENUM_FALLBACK[i].0;
    forall j | 0 <= j < i ensures ENUM_FALLBACK[j].0 != v2Enum {
      assert ENUM_FALLBACK[j].0[0] != v2Enum[0];
    }
    LookupFirst(ENUM_FALLBACK, i);
  }

  lemma KeyOf(c: string) returns (key: string)
    requires c == SECURITY_HONEYPOT || c == SECURITY_FIREWALL
    ensures Lookup(SYSTEM_LOG_KEYS, key) == c
  {
    hide Lookup;
    var i: nat := if c == SECURITY_HONEYPOT then 10 else 7;
    key := SYSTEM_LOG_KEYS[i].0;
    forall j | 0 <= j < i ensures SYSTEM_LOG_KEYS[j].0 != key {
      assert SYSTEM_LOG_KEYS[j].0[0] != key[0];
    }
    LookupFirst(SYSTEM_LOG_KEYS, i);
  }

  /** Every category can be met: some event resolves to it. */
  lemma SomeEventOf(c: string) returns (key: string, v2Enum: string)
    requires c in ALL_CATEGORIES
    ensures ResolveInTwoStages(key, v2Enum) == c
  {
    hide Lookup, ScanPrefixes, StripNumericSuffix, Flat;
    if c == SECURITY_HONEYPOT || c == SECURITY_FIREWALL {
      key := KeyOf(c);
      v2Enum := "";
    } else {
      key := "";
      v2Enum := EnumOf(c);
      NothingForTheEmptyKey();
    }
    TwoStagesAreOne(key, v2Enum);
  }

  /** Classification never invents a category. */
  lemma ClassifiesIntoKnownCategories(key: string, v2Enum: string)
    ensures ClassifyEventKey(key, v2Enum) == "" || ClassifyEventKey(key, v2Enum) in ALL_CATEGORIES
  {
    hide Lookup, ScanPrefixes, StripNumericSuffix, CategoryOfPrefix, Flat;
    LookupFinds(SYSTEM_LOG_KEYS, key);
    LookupFinds(SYSTEM_LOG_KEYS, StripNumericSuffix(key));
    LookupFinds(ENUM_FALLBACK, v2Enum);
    forall j: nat | j < |SYSTEM_LOG_KEYS| ensures SYSTEM_LOG_KEYS[j].1 in ALL_CATEGORIES {
      SystemLogCategoriesAreNamed(j);
    }
    forall j: nat | j < |ENUM_FALLBACK| ensures ENUM_FALLBACK[j].1 in ALL_CATEGORIES {
      EnumCategoriesAreNamed(j);
    }
    forall x | x in LEGACY_PREFIXES ensures x.1 in ALL_CATEGORIES {
      LegacyOwnCategory(x);
      ReadingIsACategory(x.0);
    }
  }

  // ---- what a key classifies to, by table entry ----

  /** The key of this entry, or its variant with a numeric suffix. */
  ghost predicate KeyOrVariant(key: string, i: nat)
    requires i < |SYSTEM_LOG_KEYS|
  {
    || key == SYSTEM_LOG_KEYS[i].0
    || exists d :: d != "" && AllDigits(d) && key == SYSTEM_LOG_KEYS[i].0 + "_" + d
  }

  ghost predicate NoSystemKey(key: string) {
    forall i: nat :: i < |SYSTEM_LOG_KEYS| ==> !KeyOrVariant(key, i)
  }

  /** The first legacy prefix this key starts with. */
  predicate FirstPrefix(key: string, i: nat) {
    && i < |LEGACY_PREFIXES| && LEGACY_PREFIXES[i].0 <= key
    && forall j :: 0 <= j < i ==> !(LEGACY_PREFIXES[j].0 <= key)
  }

  predicate NoPrefix(key: string) {
    forall i :: 0 <= i < |LEGACY_PREFIXES| ==> !(LEGACY_PREFIXES[i].0 <= key)
  }

  /** A reading of a v2 key by its head. */
  function CategoryOfKey(key: string): string {
    var a, b, c := At(key, 0), At(key, 1), At(key, 7);
    if a == 'T' then SECURITY_THREAT
    else if a == 'I' then if b == 'N' then NETWORK_WAN else SECURITY_THREAT
    else if a == 'G' then if b == 'E' then SECURITY_FIREWALL else NETWORK_DEVICE
    else if a == 'F' then SECURITY_FIREWALL
    else if a == 'C' then if c == 'B' then SECURITY_FIREWALL else NETWORK_CLIENT
    else if a == 'H' then SECURITY_HONEYPOT
    else if a == 'W' then NETWORK_WAN
    else if a == 'D' then if c == 'O' then POWER else NETWORK_DEVICE
    else if a == 'P' || a == 'U' then POWER
    else NETWORK_DEVICE
  }

  function CategoryOfEnum(v2Enum: string): string {
    var a, b := At(v2Enum, 0), At(v2Enum, 1);
    if a == 'S' then if b == 'E' then SECURITY_THREAT else NETWORK_DEVICE
    else if a == 'I' || a == 'V' then NETWORK_WAN
    else if a == 'C' then NETWORK_CLIENT
    else if a == 'P' then POWER
    else NETWORK_DEVICE
  }

  lemma EarlyKeysRead(i: nat)
    requires i < 18
    ensures SYSTEM_LOG_KEYS[i].1 == CategoryOfKey(SYSTEM_LOG_KEYS[i].0)
  {
  }

  lemma LateKeysRead(i: nat)
    requires 18 <= i < |SYSTEM_LOG_KEYS|
    ensures SYSTEM_LOG_KEYS[i].1 == CategoryOfKey(SYSTEM_LOG_KEYS[i].0)
  {
  }

  /** Every v2 entry carries the category its key reads as. */
  lemma SystemLogKeysRead(i: nat)
    requires i < |SYSTEM_LOG_KEYS|
    ensures SYSTEM_LOG_KEYS[i].1 == CategoryOfKey(SYSTEM_LOG_KEYS[i].0)
  {
    hide SYSTEM_LOG_KEYS, CategoryOfKey;
    if i < 18 {
      EarlyKeysRead(i);
    } else {
      LateKeysRead(i);
    }
  }

  lemma EnumsRead(i: nat)
    requires i < |ENUM_FALLBACK|
    ensures ENUM_FALLBACK[i].1 == CategoryOfEnum(ENUM_FALLBACK[i].0) != ""
  {
  }

  /** Entries that share a key agree, so a lookup gives each entry's own category. */
  lemma SystemLookup(i: nat)
    requires i < |SYSTEM_LOG_KEYS|
    ensures Lookup(SYSTEM_LOG_KEYS, SYSTEM_LOG_KEYS[i].0) == SYSTEM_LOG_KEYS[i].1 != ""
  {
    hide Lookup, CategoryOfKey;
    forall j: nat | j < |SYSTEM_LOG_KEYS|
      ensures SYSTEM_LOG_KEYS[j].1 != "" && SYSTEM_LOG_KEYS[j].1 == CategoryOfKey(SYSTEM_LOG_KEYS[j].0)
    {
      SystemLogCategoriesAreNamed(j);
      SystemLogKeysRead(j);
    }
    LookupFinds(SYSTEM_LOG_KEYS, SYSTEM_LOG_KEYS[i].0);
    LookupSucceeds(SYSTEM_LOG_KEYS, i);
  }

  lemma EnumLookup(i: nat)
    requires i < |ENUM_FALLBACK|
    ensures Lookup(ENUM_FALLBACK, ENUM_FALLBACK[i].0) == ENUM_FALLBACK[i].1 != ""
  {
    hide Lookup, CategoryOfEnum;
    forall j: nat | j < |ENUM_FALLBACK|
      ensures ENUM_FALLBACK[j].1 == CategoryOfEnum(ENUM_FALLBACK[j].0) != ""
    {
      EnumsRead(j);
    }
    LookupFinds(ENUM_FALLBACK, ENUM_FALLBACK[i].0);
    LookupSucceeds(ENUM_FALLBACK, i);
  }

  /** An exact v2 key, with or without a numeric suffix, has its entry's category. */
  lemma SystemKeyClassifies(key: string, v2Enum: string, i: nat)
    requires i < |SYSTEM_LOG_KEYS| && KeyOrVariant(key, i)
    ensures ClassifyEventKey(key, v2Enum) == SYSTEM_LOG_KEYS[i].1
  {
    hide Lookup, ScanPrefixes, StripNumericSuffix;
    SystemLookup(i);
    if key != SYSTEM_LOG_KEYS[i].0 {
      var d :| d != "" && AllDigits(d) && key == SYSTEM_LOG_KEYS[i].0 + "_" + d;
      NumericVariantKeepsCategory(i, d, v2Enum);
    }
  }

  lemma StripShape(s: string)
    requires StripNumericSuffix(s) != s
    ensures exists d :: d != "" && AllDigits(d) && s == StripNumericSuffix(s) + "_" + d
  {
    hide TrailingDigits;
    var n := TrailingDigits(s);
    var d := s[|s| - n..];
    assert s == s[..|s| - n - 1] + "_" + d;
  }

  /** With no such entry the exact lookups find nothing. */
  lemma NoSystemKeyFound(key: string, v2Enum: string)
    requires NoSystemKey(key)
    ensures ClassifyEventKey(key, v2Enum)
         == var legacy := ScanPrefixes(LEGACY_PREFIXES, key);
            if legacy != "" then legacy else Lookup(ENUM_FALLBACK, v2Enum)
  {
    hide Lookup, ScanPrefixes, StripNumericSuffix, Flat;
    var stripped := StripNumericSuffix(key);
    LookupFinds(SYSTEM_LOG_KEYS, key);
    LookupFinds(SYSTEM_LOG_KEYS, stripped);
    if stripped != key {
      StripShape(key);
    }
    forall i: nat | i < |SYSTEM_LOG_KEYS| ensures SYSTEM_LOG_KEYS[i].0 != key && SYSTEM_LOG_KEYS[i].0 != stripped {
      assert !KeyOrVariant(key, i);
    }
  }

  /** What every key and enum classify to: the entry of the exact or suffixed v2 key; else the first
      legacy prefix the key starts with; else the enum's own entry; else nothing. */
  lemma ClassifiesByTable(key: string, v2Enum: string)
    ensures forall i: nat :: i < |SYSTEM_LOG_KEYS| && KeyOrVariant(key, i) ==>
              ClassifyEventKey(key, v2Enum) == SYSTEM_LOG_KEYS[i].1
    ensures NoSystemKey(key) ==>
              forall i: nat :: FirstPrefix(key, i) ==> ClassifyEventKey(key, v2Enum) == LEGACY_PREFIXES[i].1
    ensures NoSystemKey(key) && NoPrefix(key) ==>
              forall i: nat :: i < |ENUM_FALLBACK| && ENUM_FALLBACK[i].0 == v2Enum ==>
                ClassifyEventKey(key, v2Enum) == ENUM_FALLBACK[i].1
    ensures NoSystemKey(key) && NoPrefix(key) ==>
              (forall i: nat :: i < |ENUM_FALLBACK| ==> ENUM_FALLBACK[i].0 != v2Enum) ==>
              ClassifyEventKey(key, v2Enum) == ""
  {
    hide Lookup, ScanPrefixes, Flat, ClassifyEventKey, KeyOrVariant, NoSystemKey;
    forall i: nat | i < |SYSTEM_LOG_KEYS| && KeyOrVariant(key, i)
      ensures ClassifyEventKey(key, v2Enum) == SYSTEM_LOG_KEYS[i].1
    {
      SystemKeyClassifies(key, v2Enum, i);
    }
    if NoSystemKey(key) {
      NoSystemKeyFound(key, v2Enum);
      ScanIsFirstMatch(LEGACY_PREFIXES, key);
      forall i: nat | FirstPrefix(key, i) ensures ClassifyEventKey(key, v2Enum) == LEGACY_PREFIXES[i].1 {
        FirstPrefixScans(key, i);
      }
      forall i: nat | i < |ENUM_FALLBACK| ensures Lookup(ENUM_FALLBACK, ENUM_FALLBACK[i].0) == ENUM_FALLBACK[i].1 {
        EnumLookup(i);
      }
      LookupFinds(ENUM_FALLBACK, v2Enum);
    }
  }

  lemma FirstPrefixScans(key: string, i: nat)
    requires FirstPrefix(key, i)
    ensures ScanPrefixes(LEGACY_PREFIXES, key) == LEGACY_PREFIXES[i].1 != ""
  {
    hide ScanPrefixes, Flat, CategoryOfPrefix, Readable;
    ScanIsFirstMatch(LEGACY_PREFIXES, key);
    var k :| 0 <= k < |LEGACY_PREFIXES| && LEGACY_PREFIXES[k].0 <= key
      && ScanPrefixes(LEGACY_PREFIXES, key) == LEGACY_PREFIXES[k].1
      && forall j :: 0 <= j < k ==> !(LEGACY_PREFIXES[j].0 <= key);
    assert k == i;
    assert LEGACY_PREFIXES[i] in LEGACY_PREFIXES;
    LegacyOwnCategory(LEGACY_PREFIXES[i]);
    ReadingIsACategory(LEGACY_PREFIXES[i].0);
    CategoryLengths(LEGACY_PREFIXES[i].1);
  }

  /** A legacy key, an enum and an unknown enum, by their texts. */
  lemma EachTableClassifies()
    ensures ClassifyEventKey("EVT_AP_Disconnected", "") == "network_device"
    ensures ClassifyEventKey("", "VPN") == "network_wan"
    ensures ClassifyEventKey("", "AUDIT") == ""
  {
    hide Lookup, ScanPrefixes, StripNumericSuffix, ClassifyEventKey, KeyOrVariant, NoSystemKey;
    var key := "EVT_AP_Disconnected";
    assert LEGACY_PREFIXES[0] == LEGACY_ACCESS_POINTS[0];
    forall i: nat | i < |SYSTEM_LOG_KEYS| ensures !KeyOrVariant(key, i) && !KeyOrVariant("", i) {
      NotASystemKey(i);
    }
    assert NoSystemKey(key) && NoSystemKey("") by {
      NoneOfThem(key);
      NoneOfThem("");
    }
    ClassifiesByTable(key, "");
    assert FirstPrefix(key, 0);
    NothingForTheEmptyKey();
    NoSystemKeyFound("", "VPN");
    NoSystemKeyFound("", "AUDIT");
    EnumLookup(5);
    LookupFinds(ENUM_FALLBACK, "AUDIT");
    assert forall i :: 0 <= i < |ENUM_FALLBACK| ==> ENUM_FALLBACK[i].0[0] != 'A';
  }

  lemma NotASystemKey(i: nat)
    requires i < |SYSTEM_LOG_KEYS|
    ensures !KeyOrVariant("EVT_AP_Disconnected", i) && !KeyOrVariant("", i)
  {
    var k := SYSTEM_LOG_KEYS[i].0;
    assert |k| > 0 && k[0] != 'E';
    assert forall d: string :: (k + "_" + d)[0] == k[0];
  }

  lemma NoneOfThem(key: string)
    requires forall i: nat :: i < |SYSTEM_LOG_KEYS| ==> !KeyOrVariant(key, i)
    ensures NoSystemKey(key)
  {
  }

  // ---- webhook ids ----

  const WEBHOOK_ID_PREFIX := "unifi_alerts_"

  function WebhookId(category: string, suffix: string): string {
    if suffix != "" then WEBHOOK_ID_PREFIX + suffix + "_" + category else WEBHOOK_ID_PREFIX + category
  }

  /** What an id looks like: the fixed prefix, the suffix and an underscore if there is one, the category.
      Without a suffix it is the form of installations older than suffixes. */
  lemma WebhookIdForm(category: string, suffix: string)
    ensures WebhookId(category, "") == "unifi_alerts_" + category
    ensures suffix != "" ==> WebhookId(category, suffix) == "unifi_alerts_" + (suffix + ("_" + category))
  {
    assert WEBHOOK_ID_PREFIX + suffix + "_" + category == WEBHOOK_ID_PREFIX + (suffix + ("_" + category));
  }

  predicate EndsWith(s: string, tail: string) {
    |tail| <= |s| && s[|s| - |tail|..] == tail
  }

  lemma CategoryLengths(a: string)
    requires a in ALL_CATEGORIES
    ensures |a| in {5, 11, 14, 15, 17}
  {
  }

  lemma CategoryUnderscores(a: string, i: nat)
    requires a in ALL_CATEGORIES && i < |a| && a[i] == '_'
    ensures |a| - i - 1 in {3, 6, 8}
  {
  }

  /** No category is another one after an underscore. */
  lemma NoCategoryInsideAnother(a: string, b: string)
    requires a in ALL_CATEGORIES && b in ALL_CATEGORIES
    ensures !EndsWith(a, "_" + b)
  {
    CategoryLengths(b);
    if EndsWith(a, "_" + b) {
      var at := |a| - |"_" + b|;
      assert a[at] == a[at..][0] == '_';
      CategoryUnderscores(a, at);
    }
  }

  /** What follows the fixed prefix. */
  function IdTail(category: string, suffix: string): string {
    if suffix != "" then suffix + "_" + category else category
  }

  lemma EndsWithCategory(a: string, b: string, t: string)
    requires |a| < |b| && (EndsWith(IdTail(b, t), "_" + a) || IdTail(b, t) == a)
    ensures EndsWith(b, "_" + a)
  {
    var x, y := IdTail(b, t), "_" + a;
    assert x[|x| - |b|..] == b;
    assert x[|x| - |y|..] == b[|b| - |y|..];
  }

  lemma TailEnds(a: string, s: string)
    ensures IdTail(a, s) == a || EndsWith(IdTail(a, s), "_" + a)
  {
    if s != "" {
      assert s + "_" + a == s + ("_" + a);
    }
  }

  lemma SameTail(a: string, s: string, b: string, t: string)
    requires IdTail(a, s) == IdTail(b, t) && |a| <= |b| && !EndsWith(b, "_" + a)
    ensures a == b && s == t
  {
    var x := IdTail(a, s);
    assert x[|x| - |a|..] == a && x[|x| - |b|..] == b;
    TailEnds(a, s);
    if |a| < |b| {
      EndsWithCategory(a, b, t);
    } else if s != "" && t != "" {
      assert x[..|x| - |a| - 1] == s && x[..|x| - |b| - 1] == t;
    }
  }

  lemma SameId(a: string, s: string, b: string, t: string)
    requires !EndsWith(a, "_" + b) && !EndsWith(b, "_" + a) && WebhookId(a, s) == WebhookId(b, t)
    ensures a == b && s == t
  {
    var x := WebhookId(a, s);
    assert x[|WEBHOOK_ID_PREFIX|..] == IdTail(a, s);
    assert x[|WEBHOOK_ID_PREFIX|..] == IdTail(b, t);
    hide EndsWith;
    if |a| <= |b| {
      SameTail(a, s, b, t);
    } else {
      SameTail(b, t, a, s);
    }
  }

  /** The id is injective in (suffix, category), the empty suffix included. */
  lemma WebhookIdsAreDistinct(a: string, s: string, b: string, t: string)
    requires a in ALL_CATEGORIES && b in ALL_CATEGORIES
    ensures WebhookId(a, s) == WebhookId(b, t) <==> a == b && s == t
  {
    hide WebhookId, EndsWith;
    NoCategoryInsideAnother(a, b);
    NoCategoryInsideAnother(b, a);
    if WebhookId(a, s) == WebhookId(b, t) {
      SameId(a, s, b, t);
    }
  }
}

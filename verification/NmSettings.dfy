// The NetworkManager connection dictionary: building it from a profile spec and
// reading a profile back from it.
module NmSettings {
  import opened Text
  import opened Wnet
  import opened IPv4
  import opened IpText

  // The D-Bus values that occur in a wifi connection.
  datatype Variant =
    | VString(s: string)
    | VBool(b: bool)
    | VBytes(bytes: string)
    | VU32(u: nat)
    | VU32s(us: seq<nat>)
    | VByteArrays(arrays: seq<seq<Octet>>)
    | VStrings(ss: seq<string>)
    | VDicts(ds: seq<map<string, Variant>>)

  type Group = map<string, Variant>
  type Settings = map<string, Group>

  // ---- addresses as 32-bit words ---------------------------------------------------------

  const TWO32 := 0x1_0000_0000

  datatype Endian = Little | Big

  // The four bytes of an address, in network order, read in the host's byte order.
  function ToWord(x: Addr, e: Endian): (u: nat)
    ensures u < TWO32
  {
    match e
    case Little => x.a + 0x100 * x.b + 0x1_0000 * x.c + 0x100_0000 * x.d
    case Big => x.d + 0x100 * x.c + 0x1_0000 * x.b + 0x100_0000 * x.a
  }

  function FromWord(u: nat, e: Endian): Addr
    requires u < TWO32
  {
    var b0, b1, b2, b3 := u % 0x100, u / 0x100 % 0x100, u / 0x1_0000 % 0x100, u / 0x100_0000;
    match e
    case Little => Addr(b0, b1, b2, b3)
    case Big => Addr(b3, b2, b1, b0)
  }

  function Ip4ToU32(s: string, e: Endian): Option<nat> {
    match ParseIP(s)
    case Some(V4(x)) => Some(ToWord(x, e))
    case _ => None
  }

  // A word that does not fit 32 bits does not occur.
  function U32ToIP4(u: nat, e: Endian): string {
    Format(FromWord(u % TWO32, e))
  }

  lemma LowByte(b: nat, q: nat)
    requires b < 0x100
    ensures (b + 0x100 * q) % 0x100 == b && (b + 0x100 * q) / 0x100 == q
  {
  }

  lemma ByteShifts(u: nat)
    ensures u / 0x1_0000 == u / 0x100 / 0x100
    ensures u / 0x100_0000 == u / 0x100 / 0x100 / 0x100
  {
  }

  lemma WordBytes(b0: nat, b1: nat, b2: nat, b3: nat)
    requires b0 < 0x100 && b1 < 0x100 && b2 < 0x100 && b3 < 0x100
    ensures var u := b0 + 0x100 * b1 + 0x1_0000 * b2 + 0x100_0000 * b3;
            u % 0x100 == b0 && u / 0x100 % 0x100 == b1 && u / 0x1_0000 % 0x100 == b2 && u / 0x100_0000 == b3
  {
    var q2 := b2 + 0x100 * b3;
    var q1 := b1 + 0x100 * q2;
    var u := b0 + 0x100 * q1;
    LowByte(b0, q1);
    LowByte(b1, q2);
    LowByte(b2, b3);
    ByteShifts(u);
  }

  lemma BytesWord(u: nat)
    requires u < TWO32
    ensures u == u % 0x100 + 0x100 * (u / 0x100 % 0x100)
                 + 0x1_0000 * (u / 0x1_0000 % 0x100) + 0x100_0000 * (u / 0x100_0000)
  {
  }

  lemma WordOfAddr(x: Addr, e: Endian)
    ensures FromWord(ToWord(x, e), e) == x
  {
    match e
    case Little => WordBytes(x.a, x.b, x.c, x.d);
    case Big => WordBytes(x.d, x.c, x.b, x.a);
  }

  lemma AddrOfWord(u: nat, e: Endian)
    requires u < TWO32
    ensures ToWord(FromWord(u, e), e) == u
  {
    BytesWord(u);
  }

  lemma SmallWord(u: nat)
    requires u < TWO32
    ensures u % TWO32 == u
  {
  }

  // Every word, of all 2^32, is read back from its text, for either byte order.
  lemma WordRoundTrip(u: nat, e: Endian)
    requires u < TWO32
    ensures Ip4ToU32(U32ToIP4(u, e), e) == Some(u)
  {
    SmallWord(u);
    AddrOfWord(u, e);
    ParseShowIP(V4(FromWord(u, e)));
  }

  // An accepted text comes back as the dotted decimal of its address, so as itself
  // exactly if it is dotted decimal already.
  lemma TextRoundTripIff(s: string, e: Endian)
    requires Ip4ToU32(s, e).Some?
    ensures U32ToIP4(Ip4ToU32(s, e).value, e) == ShowIP(ParseIP(s).value)
    ensures U32ToIP4(Ip4ToU32(s, e).value, e) == s <==> Parse(s).Some?
  {
    var x := ParseIP(s).value.addr;
    SmallWord(ToWord(x, e));
    WordOfAddr(x, e);
    ParseFormat(Format(x), x);
    if Parse(s).Some? {
      ParseFormat(s, x);
    }
  }

  // ---- reading keys ------------------------------------------------------------------------

  function Lookup(s: Settings, group: string, key: string): Option<Variant> {
    if group in s && key in s[group] then Some(s[group][key]) else None
  }

  function SString(s: Settings, group: string, key: string): string {
    match Lookup(s, group, key)
    case Some(VString(x)) => x
    case _ => ""
  }

  function SBool(s: Settings, group: string, key: string, default: bool): bool {
    match Lookup(s, group, key)
    case Some(VBool(b)) => b
    case _ => default
  }

  function SBytes(s: Settings, group: string, key: string): string {
    match Lookup(s, group, key)
    case Some(VBytes(b)) => b
    case _ => ""
  }

  // ---- building ------------------------------------------------------------------------------

  function AddressDict(c: IpCidr): map<string, Variant> {
    map["address" := VString(ShowIP(c.ip)), "prefix" := VU32(c.prefix)]
  }

  function AddressOf(text: string): Option<map<string, Variant>> {
    match ParseIPCIDR(text)
    case Some(c) => Some(AddressDict(c))
    case None => None
  }

  // The entries that parse, in order.
  ghost function AddressData(addresses: seq<string>): seq<map<string, Variant>> {
    FilterMap(AddressOf, addresses)
  }

  ghost function WordOf(e: Endian): string -> Option<nat> {
    s => Ip4ToU32(s, e)
  }

  function BytesOf(text: string): Option<seq<Octet>> {
    match ParseIP(text)
    case Some(V6(b)) => Some(b)
    case _ => None
  }

  // The servers of the group's own family: words for ipv4, 16 bytes each for ipv6.
  ghost function DnsData(group: string, dns: seq<string>, e: Endian): Option<Variant> {
    if group == "ipv6" then
      var arrays := FilterMap(BytesOf, dns);
      if arrays == [] then None else Some(VByteArrays(arrays))
    else
      var words := FilterMap(WordOf(e), dns);
      if words == [] then None else Some(VU32s(words))
  }

  method DnsBytes(dns: seq<string>) returns (arrays: seq<seq<Octet>>)
    ensures arrays == FilterMap(BytesOf, dns)
  {
    arrays := [];
    for i := 0 to |dns|
      invariant arrays == FilterMap(BytesOf, dns[..i])
    {
      FilterMapNext(BytesOf, dns, i);
      var ip := ParseIP(dns[i]);
      if ip.Some? && ip.value.V6? {
        arrays := arrays + [ip.value.bytes];
      }
    }
    assert dns[..|dns|] == dns;
  }

  method DnsWords(dns: seq<string>, e: Endian) returns (words: seq<nat>)
    ensures words == FilterMap(WordOf(e), dns)
  {
    words := [];
    for i := 0 to |dns|
      invariant words == FilterMap(WordOf(e), dns[..i])
    {
      FilterMapNext(WordOf(e), dns, i);
      var u := Ip4ToU32(dns[i], e);
      if u.Some? {
        words := words + [u.value];
      }
    }
    assert dns[..|dns|] == dns;
  }

  method DnsVariant(group: string, dns: seq<string>, e: Endian) returns (v: Option<Variant>)
    ensures v == DnsData(group, dns, e)
  {
    if group == "ipv6" {
      var arrays := DnsBytes(dns);
      return if arrays == [] then None else Some(VByteArrays(arrays));
    }
    var words := DnsWords(dns, e);
    return if words == [] then None else Some(VU32s(words));
  }

  ghost function ManualGroup(group: string, c: IPConfig, e: Endian): Group {
    var g0 := map["method" := VString("manual")];
    var g1 := if AddressData(c.addresses) != [] then g0["address-data" := VDicts(AddressData(c.addresses))] else g0;
    var g2 := if c.gateway != "" then g1["gateway" := VString(c.gateway)] else g1;
    var dns := DnsData(group, c.dns, e);
    var g3 := if dns.Some? then g2["dns" := dns.value] else g2;
    if c.dnsSearch != [] then g3["dns-search" := VStrings(c.dnsSearch)] else g3
  }

  ghost function IpGroup(group: string, cfg: Option<IPConfig>, e: Endian): Group {
    if cfg.None? then map["method" := VString("auto")]
    else match cfg.value.ipMethod
      case IPManual => ManualGroup(group, cfg.value, e)
      case IPDisabled => map["method" := VString("disabled")]
      case _ => map["method" := VString("auto")]
  }

  method IpSection(group: string, cfg: Option<IPConfig>, e: Endian) returns (g: Group)
    ensures g == IpGroup(group, cfg, e)
  {
    if cfg.None? {
      return map["method" := VString("auto")];
    }
    var c := cfg.value;
    match c.ipMethod
    case IPDisabled => return map["method" := VString("disabled")];
    case IPAuto => return map["method" := VString("auto")];
    case IPUnspecified => return map["method" := VString("auto")];
    case IPManual =>
      g := map["method" := VString("manual")];
      var ad := [];
      for i := 0 to |c.addresses|
        invariant ad == AddressData(c.addresses[..i])
      {
        FilterMapNext(AddressOf, c.addresses, i);
        var p := ParseIPCIDR(c.addresses[i]);
        if p.None? {
          continue;
        }
        ad := ad + [AddressDict(p.value)];
      }
      assert c.addresses[..|c.addresses|] == c.addresses;
      if ad != [] {
        g := g["address-data" := VDicts(ad)];
      }
      if c.gateway != "" {
        g := g["gateway" := VString(c.gateway)];
      }
      var dns := DnsVariant(group, c.dns, e);
      if dns.Some? {
        g := g["dns" := dns.value];
      }
      if c.dnsSearch != [] {
        g := g["dns-search" := VStrings(c.dnsSearch)];
      }
  }

  ghost function Built(spec: ProfileSpec, e: Endian): Settings {
    var wireless := map["ssid" := VBytes(spec.ssid), "mode" := VString("infrastructure")];
    var s := map[
      "connection" := map["id" := VString(if spec.name == "" then spec.ssid else spec.name),
                          "type" := VString("802-11-wireless"),
                          "autoconnect" := VBool(spec.autoconnect)],
      "802-11-wireless" := if spec.hidden then wireless["hidden" := VBool(true)] else wireless,
      "ipv4" := IpGroup("ipv4", spec.ipv4, e),
      "ipv6" := IpGroup("ipv6", spec.ipv6, e)];
    if spec.security.kind == SecPSK then
      s["802-11-wireless-security" := map["key-mgmt" := VString("wpa-psk"),
                                          "psk" := VString(spec.security.passphrase)]]
    else s
  }

  method BuildSettings(spec: ProfileSpec, e: Endian) returns (s: Settings)
    ensures s == Built(spec, e)
  {
    var id := spec.name;
    if id == "" {
      id := spec.ssid;
    }
    var wireless := map["ssid" := VBytes(spec.ssid), "mode" := VString("infrastructure")];
    if spec.hidden {
      wireless := wireless["hidden" := VBool(true)];
    }
    var v4 := IpSection("ipv4", spec.ipv4, e);
    var v6 := IpSection("ipv6", spec.ipv6, e);
    s := map[
      "connection" := map["id" := VString(id),
                          "type" := VString("802-11-wireless"),
                          "autoconnect" := VBool(spec.autoconnect)],
      "802-11-wireless" := wireless,
      "ipv4" := v4,
      "ipv6" := v6];
    if spec.security.kind == SecPSK {
      s := s["802-11-wireless-security" := map["key-mgmt" := VString("wpa-psk"),
                                               "psk" := VString(spec.security.passphrase)]];
    }
  }

  // ---- reading a profile back ------------------------------------------------------------------

  function AddressText(d: map<string, Variant>): string {
    var addr := if "address" in d && d["address"].VString? then d["address"].s else "";
    var prefix := if "prefix" in d && d["prefix"].VU32? then d["prefix"].u else 0;
    if addr != "" then addr + "/" + Itoa(prefix) else ""
  }

  function TextOf(d: map<string, Variant>): Option<string> {
    if AddressText(d) != "" then Some(AddressText(d)) else None
  }

  ghost function ReadAddresses(ds: seq<map<string, Variant>>): seq<string> {
    FilterMap(TextOf, ds)
  }

  ghost function ServerOf(e: Endian): nat -> Option<string> {
    (u: nat) => Some(U32ToIP4(u, e))
  }

  // An array of any other length is skipped.
  function ArrayText(bytes: seq<Octet>): Option<string> {
    if |bytes| == 16 then Some(ShowIP(ToIp(bytes))) else None
  }

  ghost function ReadServers(s: Settings, group: string, e: Endian): seq<string> {
    match Lookup(s, group, "dns")
    case Some(VByteArrays(arrays)) => if group == "ipv6" then FilterMap(ArrayText, arrays) else []
    case Some(VU32s(us)) => if group == "ipv6" then [] else FilterMap(ServerOf(e), us)
    case _ => []
  }

  function ReadMethod(s: Settings, group: string): IPMethod {
    var m := SString(s, group, "method");
    if m == "auto" then IPAuto
    else if m == "manual" then IPManual
    else if m == "disabled" then IPDisabled
    else IPUnspecified
  }

  ghost function ReadConfig(s: Settings, group: string, e: Endian): IPConfig {
    IPConfig(ReadMethod(s, group),
             match Lookup(s, group, "address-data") case Some(VDicts(ds)) => ReadAddresses(ds) case _ => [],
             SString(s, group, "gateway"),
             ReadServers(s, group, e),
             match Lookup(s, group, "dns-search") case Some(VStrings(ss)) => ss case _ => [])
  }

  method ArrayTexts(arrays: seq<seq<Octet>>) returns (dns: seq<string>)
    ensures dns == FilterMap(ArrayText, arrays)
  {
    dns := [];
    for i := 0 to |arrays|
      invariant dns == FilterMap(ArrayText, arrays[..i])
    {
      FilterMapNext(ArrayText, arrays, i);
      if |arrays[i]| == 16 {
        dns := dns + [ShowIP(ToIp(arrays[i]))];
      }
    }
    assert arrays[..|arrays|] == arrays;
  }

  method WordTexts(us: seq<nat>, e: Endian) returns (dns: seq<string>)
    ensures dns == FilterMap(ServerOf(e), us)
  {
    dns := [];
    for i := 0 to |us|
      invariant dns == FilterMap(ServerOf(e), us[..i])
    {
      FilterMapNext(ServerOf(e), us, i);
      dns := dns + [U32ToIP4(us[i], e)];
    }
    assert us[..|us|] == us;
  }

  method ServersFromSettings(s: Settings, group: string, e: Endian) returns (dns: seq<string>)
    ensures dns == ReadServers(s, group, e)
  {
    dns := [];
    var v := Lookup(s, group, "dns");
    if v.Some? {
      if group == "ipv6" {
        if v.value.VByteArrays? {
          dns := ArrayTexts(v.value.arrays);
        }
      } else if v.value.VU32s? {
        dns := WordTexts(v.value.us, e);
      }
    }
  }

  method IpConfigFromSettings(s: Settings, group: string, e: Endian) returns (cfg: IPConfig)
    ensures cfg == ReadConfig(s, group, e)
  {
    var addresses := [];
    var ad := Lookup(s, group, "address-data");
    if ad.Some? && ad.value.VDicts? {
      var ds := ad.value.ds;
      for i := 0 to |ds|
        invariant addresses == ReadAddresses(ds[..i])
      {
        FilterMapNext(TextOf, ds, i);
        var text := AddressText(ds[i]);
        if text != "" {
          addresses := addresses + [text];
        }
      }
      assert ds[..|ds|] == ds;
    }
    var dns := ServersFromSettings(s, group, e);
    var search := Lookup(s, group, "dns-search");
    cfg := IPConfig(ReadMethod(s, group), addresses, SString(s, group, "gateway"), dns,
                    if search.Some? && search.value.VStrings? then search.value.ss else []);
  }

  function SecurityFromKeyMgmt(km: string): SecurityKind {
    if km == "" || km == "none" then SecOpen else if km == "wpa-eap" then SecEnterprise else SecPSK
  }

  // A profile as NetworkManager reports it; its id is the connection's own UUID.
  datatype NmProfile = NmProfile(id: string, name: string, ssid: string, hidden: bool, autoconnect: bool,
                                 kind: SecurityKind, ipv4: IPConfig, ipv6: IPConfig)

  ghost function ReadProfile(s: Settings, e: Endian): NmProfile {
    NmProfile(SString(s, "connection", "uuid"), SString(s, "connection", "id"),
              SBytes(s, "802-11-wireless", "ssid"), SBool(s, "802-11-wireless", "hidden", false),
              SBool(s, "connection", "autoconnect", true),
              SecurityFromKeyMgmt(SString(s, "802-11-wireless-security", "key-mgmt")),
              ReadConfig(s, "ipv4", e), ReadConfig(s, "ipv6", e))
  }

  // ---- what the dictionary keeps -------------------------------------------------------------------

  function CanonicalCidr(text: string): Option<string> {
    match ParseIPCIDR(text)
    case Some(c) => Some(ShowIP(c.ip) + "/" + Itoa(c.prefix))
    case None => None
  }

  // A server of the group's family, in canonical form.
  function V4Server(text: string): Option<string> {
    match ParseIP(text)
    case Some(V4(x)) => Some(ShowIP(V4(x)))
    case _ => None
  }

  function V6Server(text: string): Option<string> {
    match ParseIP(text)
    case Some(V6(b)) => Some(ShowIP(V6(b)))
    case _ => None
  }

  // The addresses that parse, of either family, in canonical form and in order.
  ghost function KeptAddresses(addresses: seq<string>): seq<string> {
    FilterMap(CanonicalCidr, addresses)
  }

  // The servers of the group's family, in canonical form and in order.
  ghost function KeptDns(group: string, dns: seq<string>): seq<string> {
    FilterMap(if group == "ipv6" then V6Server else V4Server, dns)
  }

  ghost function KeptManual(group: string, c: IPConfig): IPConfig {
    IPConfig(IPManual, KeptAddresses(c.addresses), c.gateway, KeptDns(group, c.dns), c.dnsSearch)
  }

  ghost function KeptConfig(group: string, cfg: Option<IPConfig>): IPConfig {
    if cfg.None? then AUTO_CONFIG
    else match cfg.value.ipMethod
      case IPManual => KeptManual(group, cfg.value)
      case IPDisabled => IPConfig(IPDisabled, [], "", [], [])
      case _ => AUTO_CONFIG
  }

  lemma AddressTextOf(c: IpCidr)
    requires IsIp(c.ip)
    ensures TextOf(AddressDict(c)) == Some(ShowIP(c.ip) + "/" + Itoa(c.prefix))
  {
    ParseShowIP(c.ip);
  }

  lemma AddressReadsBack(text: string)
    ensures CanonicalCidr(text) == match AddressOf(text) case Some(d) => TextOf(d) case None => None
  {
    match ParseIPCIDR(text)
    case Some(c) => AddressTextOf(c);
    case None =>
  }

  lemma AddressesReadBack(addresses: seq<string>)
    ensures ReadAddresses(AddressData(addresses)) == KeptAddresses(addresses)
  {
    forall text
      ensures CanonicalCidr(text) == match AddressOf(text) case Some(d) => TextOf(d) case None => None
    {
      AddressReadsBack(text);
    }
    FilterMapTwice(AddressOf, TextOf, CanonicalCidr, addresses);
  }

  lemma WordsReadBack(dns: seq<string>, e: Endian)
    ensures FilterMap(ServerOf(e), FilterMap(WordOf(e), dns)) == FilterMap(V4Server, dns)
  {
    forall text
      ensures V4Server(text) == match WordOf(e)(text) case Some(u) => ServerOf(e)(u) case None => None
    {
      if Ip4ToU32(text, e).Some? {
        TextRoundTripIff(text, e);
      }
    }
    FilterMapTwice(WordOf(e), ServerOf(e), V4Server, dns);
  }

  lemma BytesReadBack(dns: seq<string>)
    ensures FilterMap(ArrayText, FilterMap(BytesOf, dns)) == FilterMap(V6Server, dns)
  {
    FilterMapTwice(BytesOf, ArrayText, V6Server, dns);
  }

  lemma ManualKeys(group: string, c: IPConfig, e: Endian)
    ensures var g, dns := ManualGroup(group, c, e), DnsData(group, c.dns, e);
            && "method" in g && g["method"] == VString("manual")
            && ("address-data" in g <==> AddressData(c.addresses) != [])
            && ("address-data" in g ==> g["address-data"] == VDicts(AddressData(c.addresses)))
            && ("gateway" in g <==> c.gateway != "") && ("gateway" in g ==> g["gateway"] == VString(c.gateway))
            && ("dns" in g <==> dns.Some?) && ("dns" in g ==> g["dns"] == dns.value)
            && ("dns-search" in g <==> c.dnsSearch != [])
            && ("dns-search" in g ==> g["dns-search"] == VStrings(c.dnsSearch))
  {
  }

  lemma DnsReadBack(s: Settings, group: string, dns: seq<string>, e: Endian)
    requires Lookup(s, group, "dns") == DnsData(group, dns, e)
    ensures ReadServers(s, group, e) == KeptDns(group, dns)
  {
    if group == "ipv6" {
      BytesReadBack(dns);
    } else {
      WordsReadBack(dns, e);
    }
  }

  lemma ManualReadBack(s: Settings, group: string, c: IPConfig, e: Endian)
    requires group in s && s[group] == ManualGroup(group, c, e)
    ensures ReadConfig(s, group, e) == KeptManual(group, c)
  {
    ManualKeys(group, c, e);
    AddressesReadBack(c.addresses);
    DnsReadBack(s, group, c.dns, e);
  }

  // One address family, through the dictionary and back.
  lemma ConfigReadBack(s: Settings, group: string, cfg: Option<IPConfig>, e: Endian)
    requires group in s && s[group] == IpGroup(group, cfg, e)
    ensures ReadConfig(s, group, e) == KeptConfig(group, cfg)
  {
    if cfg.Some? && cfg.value.ipMethod == IPManual {
      ManualReadBack(s, group, cfg.value, e);
    }
  }

  predicate IsCanonicalServer(group: string, text: string) {
    && ParseIP(text).Some? && ParseIP(text).value.V6? == (group == "ipv6")
    && ShowIP(ParseIP(text).value) == text
  }

  // Addresses and servers that are written in canonical form, the servers in the
  // group's own family.
  ghost predicate IsCanonical(group: string, c: IPConfig) {
    && (forall i :: 0 <= i < |c.addresses| ==> CanonicalCidr(c.addresses[i]) == Some(c.addresses[i]))
    && (forall i :: 0 <= i < |c.dns| ==> IsCanonicalServer(group, c.dns[i]))
  }

  // The settings of a family that come back unchanged.
  ghost predicate IsKept(group: string, c: IPConfig) {
    match c.ipMethod
    case IPManual => IsCanonical(group, c)
    case IPUnspecified => false
    case _ => c.addresses == [] && c.gateway == "" && c.dns == [] && c.dnsSearch == []
  }

  lemma KeptDnsIff(group: string, dns: seq<string>)
    ensures KeptDns(group, dns) == dns <==> forall i :: 0 <= i < |dns| ==> IsCanonicalServer(group, dns[i])
  {
    if group == "ipv6" {
      FilterMapIff(V6Server, dns);
    } else {
      FilterMapIff(V4Server, dns);
    }
  }

  lemma KeptIff(group: string, c: IPConfig)
    ensures KeptConfig(group, Some(c)) == c <==> IsKept(group, c)
  {
    FilterMapIff(CanonicalCidr, c.addresses);
    KeptDnsIff(group, c.dns);
  }

  lemma BuiltGroups(spec: ProfileSpec, e: Endian)
    ensures var s := Built(spec, e);
            && "ipv4" in s && s["ipv4"] == IpGroup("ipv4", spec.ipv4, e)
            && "ipv6" in s && s["ipv6"] == IpGroup("ipv6", spec.ipv6, e)
  {
  }

  lemma BuiltNames(spec: ProfileSpec, e: Endian)
    ensures var s := Built(spec, e);
            && SBytes(s, "802-11-wireless", "ssid") == spec.ssid
            && SBool(s, "802-11-wireless", "hidden", false) == spec.hidden
            && SString(s, "connection", "id") == (if spec.name == "" then spec.ssid else spec.name)
            && SBool(s, "connection", "autoconnect", true) == spec.autoconnect
  {
  }

  lemma BuiltSecurity(spec: ProfileSpec, e: Endian)
    ensures var kind := SecurityFromKeyMgmt(SString(Built(spec, e), "802-11-wireless-security", "key-mgmt"));
            kind == spec.security.kind <==> spec.security.kind != SecEnterprise
  {
  }

  // Building the dictionary and reading it back: names and flags are preserved (an
  // empty name becomes the SSID), each family keeps what it has room for, and the
  // security kind comes back unless it is enterprise.
  lemma ProfileReadBack(spec: ProfileSpec, e: Endian)
    ensures var p := ReadProfile(Built(spec, e), e);
            && p.ssid == spec.ssid && p.name == (if spec.name == "" then spec.ssid else spec.name)
            && p.hidden == spec.hidden && p.autoconnect == spec.autoconnect
            && p.ipv4 == KeptConfig("ipv4", spec.ipv4) && p.ipv6 == KeptConfig("ipv6", spec.ipv6)
            && (p.kind == spec.security.kind <==> spec.security.kind != SecEnterprise)
  {
    BuiltGroups(spec, e);
    BuiltNames(spec, e);
    BuiltSecurity(spec, e);
    ConfigReadBack(Built(spec, e), "ipv4", spec.ipv4, e);
    ConfigReadBack(Built(spec, e), "ipv6", spec.ipv6, e);
  }

  // ---- what NetworkManager is told ------------------------------------------------------------------

  // The groups of the dictionary and what each of them says. A network with a passphrase,
  // and no other, has a security group: key management WPA-PSK and that passphrase.
  lemma BuiltForNm(spec: ProfileSpec, e: Endian)
    ensures var s := Built(spec, e);
            && SString(s, "connection", "type") == "802-11-wireless"
            && SString(s, "802-11-wireless", "mode") == "infrastructure"
            && ("802-11-wireless-security" in s <==> spec.security.kind == SecPSK)
            && SString(s, "802-11-wireless-security", "key-mgmt")
               == (if spec.security.kind == SecPSK then "wpa-psk" else "")
            && SString(s, "802-11-wireless-security", "psk")
               == (if spec.security.kind == SecPSK then spec.security.passphrase else "")
            && (Lookup(s, "802-11-wireless", "hidden") == if spec.hidden then Some(VBool(true)) else None)
  {
  }

  // Nothing else is in it.
  lemma BuiltHasNoMore(spec: ProfileSpec, e: Endian)
    ensures var s := Built(spec, e);
            && s.Keys == {"connection", "802-11-wireless", "ipv4", "ipv6"}
                         + (if spec.security.kind == SecPSK then {"802-11-wireless-security"} else {})
            && s["connection"].Keys == {"id", "type", "autoconnect"}
            && s["802-11-wireless"].Keys == {"ssid", "mode"} + (if spec.hidden then {"hidden"} else {})
            && ("802-11-wireless-security" in s ==> s["802-11-wireless-security"].Keys == {"key-mgmt", "psk"})
  {
  }

  // Each family is told its method; all else is only there for a manual one.
  lemma FamilyForNm(spec: ProfileSpec, e: Endian, group: string)
    requires group == "ipv4" || group == "ipv6"
    ensures var s, cfg := Built(spec, e), if group == "ipv4" then spec.ipv4 else spec.ipv6;
            && SString(s, group, "method")
               == (if cfg.None? then "auto"
                   else match cfg.value.ipMethod
                        case IPManual => "manual"
                        case IPDisabled => "disabled"
                        case _ => "auto")
            && SString(s, group, "gateway")
               == (if cfg.Some? && cfg.value.ipMethod == IPManual then cfg.value.gateway else "")
            && ((cfg.None? || cfg.value.ipMethod != IPManual) ==> s[group].Keys == {"method"})
            && s[group].Keys <= {"method", "address-data", "gateway", "dns", "dns-search"}
  {
    var cfg := if group == "ipv4" then spec.ipv4 else spec.ipv6;
    BuiltGroups(spec, e);
    if cfg.Some? && cfg.value.ipMethod == IPManual {
      ManualKeys(group, cfg.value, e);
    }
  }

  // Every address that parses is told, as its text and its prefix length.
  lemma EveryAddressIsTold(spec: ProfileSpec, e: Endian, group: string, c: IPConfig, i: nat)
    requires (group == "ipv4" && spec.ipv4 == Some(c)) || (group == "ipv6" && spec.ipv6 == Some(c))
    requires c.ipMethod == IPManual && i < |c.addresses| && ParseIPCIDR(c.addresses[i]).Some?
    ensures var told, x := Lookup(Built(spec, e), group, "address-data"), ParseIPCIDR(c.addresses[i]).value;
            && told.Some? && told.value.VDicts?
            && map["address" := VString(ShowIP(x.ip)), "prefix" := VU32(x.prefix)] in told.value.ds
  {
    BuiltGroups(spec, e);
    ManualKeys(group, c, e);
    FilterMapMember(AddressOf, c.addresses, i);
  }

  // A server is told as a word whose bytes in memory, in the host's order, are those of
  // the address in network order.
  lemma WordInMemory(s: string, x: Addr, e: Endian)
    requires ParseIP(s) == Some(V4(x))
    ensures Ip4ToU32(s, e).Some?
    ensures var u := Ip4ToU32(s, e).value;
            var low, high := u % 0x100, u / 0x100_0000;
            var second, third := u / 0x100 % 0x100, u / 0x1_0000 % 0x100;
            [x.a, x.b, x.c, x.d] == match e
                                    case Little => [low, second, third, high]
                                    case Big => [high, third, second, low]
  {
    match e
    case Little => WordBytes(x.a, x.b, x.c, x.d);
    case Big => WordBytes(x.d, x.c, x.b, x.a);
  }

  // What NetworkManager holds of connections made by other tools: any other method is
  // unspecified, only no key management or none is open, only EAP is enterprise, and a
  // flag that is not set has its default.
  lemma ForeignIsRead(s: Settings, e: Endian)
    ensures var p := ReadProfile(s, e);
            && (p.ipv4.ipMethod == IPUnspecified <==>
                SString(s, "ipv4", "method") !in {"auto", "manual", "disabled"})
            && (Lookup(s, "connection", "autoconnect").None? ==> p.autoconnect)
            && (Lookup(s, "802-11-wireless", "hidden").None? ==> !p.hidden)
            && (p.kind == SecOpen <==> SString(s, "802-11-wireless-security", "key-mgmt") in {"", "none"})
            && (p.kind == SecEnterprise <==> SString(s, "802-11-wireless-security", "key-mgmt") == "wpa-eap")
  {
  }

  // Which addresses are canonical: those whose text is read and shown as it is, with
  // a prefix that its notation has room for. Host bits are kept.
  lemma CanonicalAddressIff(ip: Ip, n: nat)
    requires IsIp(ip)
    ensures CanonicalCidr(ShowIP(ip) + "/" + Itoa(n)) == Some(ShowIP(ip) + "/" + Itoa(n))
            <==> n <= if ip.V4? then 32 else 128
  {
    ParseShowCIDR(ip, n);
  }

  // What was kept of an address is kept for good, unless it is an IPv4-mapped one
  // whose prefix only fits the IPv6 notation: its text then reads as nothing.
  lemma KeptAddressIsStableIff(text: string)
    requires CanonicalCidr(text).Some?
    ensures CanonicalCidr(CanonicalCidr(text).value) == CanonicalCidr(text)
            <==> !(ParseIPCIDR(text).value.ip.V4? && ParseIPCIDR(text).value.prefix > 32)
  {
    var c := ParseIPCIDR(text).value;
    CanonicalAddressIff(c.ip, c.prefix);
  }

  // There are such addresses: each IPv4 address has a text for every longer prefix that
  // is kept in a form that reads as nothing.
  lemma MappedAddressIsLost(x: Addr, n: nat) returns (text: string)
    requires 32 < n <= 128
    ensures CanonicalCidr(text) == Some(Format(x) + "/" + Itoa(n))
    ensures CanonicalCidr(Format(x) + "/" + Itoa(n)) == None
  {
    text := MappedCidr(x, n);
    ParseShowCIDR(V4(x), n);
  }
}

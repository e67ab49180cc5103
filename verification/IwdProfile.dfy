// Content of iwd provisioning files: rendering profile settings and reading them
// back.
module IwdProfile {
  import opened Text
  import opened Wnet
  import opened IPv4
  import opened IpText
  import opened Ini
  import opened IwdFilename

  // ---- address and netmask ------------------------------------------------------

  // Splits a CIDR string into iwd's Address and Netmask; a bare address has none, and
  // neither has one in IPv6 notation.
  function CidrToAddrNetmask(cidr: string): Option<(string, string)> {
    match ParseIPCIDR(cidr)
    case Some(c) => Some((ShowIP(c.ip), if c.wide then "" else Format(PrefixMask(c.prefix))))
    case None => if ParseIP(cidr).Some? then Some((cidr, "")) else None
  }

  function JoinAddrNetmask(addr: string, netmask: string): string {
    if netmask == "" then addr
    else match ParseIP(netmask)
      case Some(V4(m)) => addr + "/" + Itoa(MaskSize(m))
      case _ => addr
  }

  // Splitting and joining keeps every canonical CIDR string, host bits included.
  lemma CidrRoundTrip(x: Addr, n: nat)
    requires n <= 32
    ensures CidrToAddrNetmask(FormatCIDR(x, n)) == Some((Format(x), Format(PrefixMask(n))))
    ensures JoinAddrNetmask(Format(x), Format(PrefixMask(n))) == FormatCIDR(x, n)
  {
    ParseFormatCIDR(x, n);
    JoinIsMaskSize(Format(x), PrefixMask(n));
    MaskLengthOfPrefix(PrefixMask(n), n);
  }

  lemma WideCidrNormalises(cidr: string, c: IpCidr)
    requires ParseIPCIDR(cidr) == Some(c) && c.wide
    ensures CidrToAddrNetmask(cidr) == CidrToAddrNetmask(ShowIP(c.ip)) == Some((ShowIP(c.ip), ""))
    ensures IsWord(ShowIP(c.ip)) && '/' !in ShowIP(c.ip)
  {
    ParseShowIP(c.ip);
    CidrHasSlash(ShowIP(c.ip));
  }

  // Any accepted text, of either family, is brought to its canonical form by one round
  // trip, and joining is then undone by splitting again.
  lemma CidrNormalises(cidr: string)
    requires CidrToAddrNetmask(cidr).Some?
    ensures var (a, m) := CidrToAddrNetmask(cidr).value;
            && IsWord(a) && (m == "" || IsWord(m))
            && CidrToAddrNetmask(JoinAddrNetmask(a, m)) == Some((a, m))
            && JoinAddrNetmask(a, m) != ""
  {
    match ParseIPCIDR(cidr)
    case Some(c) =>
      if c.wide {
        WideCidrNormalises(cidr, c);
      } else {
        FormatIsPlain(c.ip.addr);
        FormatIsPlain(PrefixMask(c.prefix));
        CidrRoundTrip(c.ip.addr, c.prefix);
      }
    case None =>
      ParsedIsWord(cidr);
  }

  ghost predicate IsCanonicalCidr(s: string) {
    exists x, n: nat :: n <= 32 && s == FormatCIDR(x, n)
  }

  // The round trip returns the text itself exactly for bare addresses and canonical
  // IPv4 CIDR strings; one in IPv6 notation loses its prefix.
  lemma CidrKeptIff(cidr: string)
    requires CidrToAddrNetmask(cidr).Some?
    ensures var (a, m) := CidrToAddrNetmask(cidr).value;
            JoinAddrNetmask(a, m) == cidr <==> ParseIP(cidr).Some? || IsCanonicalCidr(cidr)
  {
    CidrHasSlash(cidr);
    if IsCanonicalCidr(cidr) {
      var x, n: nat :| n <= 32 && cidr == FormatCIDR(x, n);
      CidrRoundTrip(x, n);
    }
    match ParseIPCIDR(cidr)
    case Some(c) =>
      if c.wide {
        WideCidrNormalises(cidr, c);
      } else {
        CidrRoundTrip(c.ip.addr, c.prefix);
      }
    case None =>
  }

  lemma JoinIsMaskSize(addr: string, m: Addr)
    ensures JoinAddrNetmask(addr, Format(m)) == addr + "/" + Itoa(MaskSize(m))
  {
    ParseShowIP(V4(m));
  }

  lemma SamePrefixText(addr: string, n: nat, size: nat)
    ensures addr + "/" + Itoa(n) == addr + "/" + Itoa(size) <==> n == size
  {
    DecimalItoa(n);
    DecimalItoa(size);
    if addr + "/" + Itoa(n) == addr + "/" + Itoa(size) {
      assert (addr + "/" + Itoa(n))[|addr| + 1..] == Itoa(n);
      assert (addr + "/" + Itoa(size))[|addr| + 1..] == Itoa(size);
    }
  }

  // A netmask that is not a prefix mask silently becomes /0; every other one
  // keeps its length.
  lemma JoinKeepsPrefixMasksOnly(addr: string, m: Addr, n: nat)
    requires 0 < n <= 32
    ensures JoinAddrNetmask(addr, Format(m)) == addr + "/" + Itoa(n) <==> m == PrefixMask(n)
    ensures !IsPrefixMask(m) ==> JoinAddrNetmask(addr, Format(m)) == addr + "/0"
  {
    JoinIsMaskSize(addr, m);
    SamePrefixText(addr, n, MaskSize(m));
    MaskLengthOfPrefix(m, n);
    OtherMasksHaveSizeZero(m);
    assert Itoa(0) == "0";
  }

  // There are such masks.
  lemma HoledMaskIsLost(addr: string)
    ensures JoinAddrNetmask(addr, "255.0.255.0") == addr + "/0"
  {
    var m := Addr(255, 0, 255, 0);
    assert Format(m) == "255.0.255.0" by {
      assert Itoa(255) == "255" && Itoa(0) == "0";
      assert OctetTexts(m) == ["255", "0", "255", "0"];
      assert OctetTexts(m)[1..] == ["0", "255", "0"] && OctetTexts(m)[1..][1..] == ["255", "0"]
             && OctetTexts(m)[1..][1..][1..] == ["0"];
    }
    JoinKeepsPrefixMasksOnly(addr, m, 1);
  }

  // ---- rendering ------------------------------------------------------------------

  // What a provisioning file stores besides the network it is named after.
  datatype Settings = Settings(passphrase: string, autoconnect: bool, hidden: bool,
                               ipv4: Option<IPConfig>, ipv6: Option<IPConfig>)

  function BoolStr(b: bool): string {
    if b then "true" else "false"
  }

  // The IPv4 address pair to write, if the family is written at all.
  function StaticV4(c: Option<IPConfig>): Option<(string, string)> {
    if c.Some? && c.value.ipMethod == IPManual && c.value.addresses != []
    then CidrToAddrNetmask(c.value.addresses[0]) else None
  }

  predicate IsStaticV6(c: Option<IPConfig>) {
    c.Some? && c.value.ipMethod == IPManual && c.value.addresses != []
  }

  ghost function SecurityBlocks(kind: SecurityKind, passphrase: string): seq<Block> {
    if kind == SecPSK && passphrase != "" then [Block("Security", [("Passphrase", passphrase)])] else []
  }

  ghost function SettingsBlock(s: Settings): Block {
    Block("Settings", [("AutoConnect", BoolStr(s.autoconnect))] + if s.hidden then [("Hidden", "true")] else [])
  }

  ghost function GatewayAndDns(c: IPConfig): seq<(string, string)> {
    (if c.gateway != "" then [("Gateway", c.gateway)] else [])
    + if c.dns != [] then [("DNS", Join(c.dns, ' '))] else []
  }

  ghost function V4Entries(addr: string, mask: string, c: IPConfig): seq<(string, string)> {
    [("Address", addr)]
    + (if mask != "" then [("Netmask", mask)] else [])
    + GatewayAndDns(c)
    + if c.dnsSearch != [] then [("DomainName", c.dnsSearch[0])] else []
  }

  ghost function V6Entries(c: IPConfig): seq<(string, string)>
    requires c.addresses != []
  {
    [("Enabled", "true"), ("Address", c.addresses[0])] + GatewayAndDns(c)
  }

  ghost function V4Blocks(c: Option<IPConfig>): seq<Block> {
    match StaticV4(c)
    case Some(p) => [Block("IPv4", V4Entries(p.0, p.1, c.value))]
    case None => []
  }

  ghost function V6Blocks(c: Option<IPConfig>): seq<Block> {
    if IsStaticV6(c) then [Block("IPv6", V6Entries(c.value))] else []
  }

  ghost function ProfileBlocks(kind: SecurityKind, s: Settings): seq<Block> {
    SecurityBlocks(kind, s.passphrase) + [SettingsBlock(s)] + V4Blocks(s.ipv4) + V6Blocks(s.ipv6)
  }

  ghost function Content(kind: SecurityKind, s: Settings): string {
    Print(ProfileBlocks(kind, s))
  }

  // ---- the builder ------------------------------------------------------------------

  ghost function EntryText(es: seq<(string, string)>): string {
    Unlines(EntryLines(es))
  }

  lemma {:induction false} EntryTextAppend(a: seq<(string, string)>, b: seq<(string, string)>)
    ensures EntryText(a + b) == EntryText(a) + EntryText(b)
    decreases |a|
  {
    if a == [] {
      assert a + b == b;
    } else {
      assert (a + b)[1..] == a[1..] + b;
      EntryTextAppend(a[1..], b);
    }
  }

  lemma EntryTextOne(key: string, value: string)
    ensures EntryText([(key, value)]) == key + "=" + value + "\n"
  {
    var line := key + "=" + value;
    assert EntryLines([(key, value)]) == [line];
    assert Unlines([line]) == line + "\n" + Unlines([]);
  }

  lemma Extend(head: string, a: seq<(string, string)>, b: seq<(string, string)>)
    ensures head + EntryText(a + b) == head + EntryText(a) + EntryText(b)
  {
    EntryTextAppend(a, b);
  }

  lemma PrintBlock(b: Block)
    ensures Unlines(BlockLines(b)) == "[" + b.name + "]\n" + EntryText(b.entries)
  {
    assert BlockLines(b)[1..] == EntryLines(b.entries);
  }

  lemma PrintCons(b: Block, bs: seq<Block>)
    requires bs != []
    ensures Print([b] + bs) == Unlines(BlockLines(b)) + "\n" + Print(bs)
  {
    assert ([b] + bs)[1..] == bs;
    UnlinesAppend(BlockLines(b) + [""], FileLines(bs));
    UnlinesAppend(BlockLines(b), [""]);
    assert Unlines([""]) == "\n" by {
      assert [""][1..] == [];
    }
  }

  lemma Reassociate(a: string, b: string, c: string, d: string, e: string)
    ensures a + b + (c + d + e) == (a + b + c) + d + e
  {
  }

  lemma {:induction false} PrintSnoc(bs: seq<Block>, b: Block)
    requires bs != []
    ensures Print(bs + [b]) == Print(bs) + "\n" + Unlines(BlockLines(b))
    decreases |bs|
  {
    var first, rest := bs[0], bs[1..];
    if rest == [] {
      assert bs == [first] && bs + [b] == [first] + [b];
      PrintCons(first, [b]);
    } else {
      PrintSnoc(rest, b);
      assert bs == [first] + rest && bs + [b] == [first] + (rest + [b]);
      PrintCons(first, rest);
      PrintCons(first, rest + [b]);
      Reassociate(Unlines(BlockLines(first)), "\n", Print(rest), "\n", Unlines(BlockLines(b)));
    }
  }

  lemma PrintAppend(bs: seq<Block>, b: Block)
    requires bs != []
    ensures Print(bs + [b]) == Print(bs) + "\n[" + b.name + "]\n" + EntryText(b.entries)
  {
    PrintSnoc(bs, b);
    PrintBlock(b);
  }

  method WriteEntry(b: string, key: string, value: string) returns (r: string)
    ensures r == b + EntryText([(key, value)])
  {
    EntryTextOne(key, value);
    r := b + (key + "=" + value + "\n");
  }

  method WriteGatewayAndDns(b: string, c: IPConfig) returns (r: string)
    ensures r == b + EntryText(GatewayAndDns(c))
  {
    r := b;
    ghost var es := [];
    if c.gateway != "" {
      r := WriteEntry(r, "Gateway", c.gateway);
      es := [("Gateway", c.gateway)];
    }
    if c.dns != [] {
      r := WriteEntry(r, "DNS", Join(c.dns, ' '));
      EntryTextAppend(es, [("DNS", Join(c.dns, ' '))]);
      es := es + [("DNS", Join(c.dns, ' '))];
    }
    assert es == GatewayAndDns(c);
  }

  method WriteV4(b: string, addr: string, mask: string, c: IPConfig) returns (r: string)
    ensures r == b + EntryText(V4Entries(addr, mask, c))
  {
    r := WriteEntry(b, "Address", addr);
    ghost var es := [("Address", addr)];
    if mask != "" {
      r := WriteEntry(r, "Netmask", mask);
      Extend(b, es, [("Netmask", mask)]);
      es := es + [("Netmask", mask)];
    }
    r := WriteGatewayAndDns(r, c);
    Extend(b, es, GatewayAndDns(c));
    es := es + GatewayAndDns(c);
    if c.dnsSearch != [] {
      r := WriteEntry(r, "DomainName", c.dnsSearch[0]);
      Extend(b, es, [("DomainName", c.dnsSearch[0])]);
      es := es + [("DomainName", c.dnsSearch[0])];
    }
    assert es == V4Entries(addr, mask, c);
  }

  method WriteV6(b: string, c: IPConfig) returns (r: string)
    requires c.addresses != []
    ensures r == b + EntryText(V6Entries(c))
  {
    r := WriteEntry(b, "Enabled", "true");
    r := WriteEntry(r, "Address", c.addresses[0]);
    Extend(b, [("Enabled", "true")], [("Address", c.addresses[0])]);
    ghost var es := [("Enabled", "true")] + [("Address", c.addresses[0])];
    r := WriteGatewayAndDns(r, c);
    Extend(b, es, GatewayAndDns(c));
    assert es + GatewayAndDns(c) == V6Entries(c);
  }

  method WriteSettings(b: string, s: Settings) returns (r: string)
    ensures r == b + EntryText(SettingsBlock(s).entries)
  {
    r := WriteEntry(b, "AutoConnect", BoolStr(s.autoconnect));
    if s.hidden {
      r := WriteEntry(r, "Hidden", "true");
      Extend(b, [("AutoConnect", BoolStr(s.autoconnect))], [("Hidden", "true")]);
    } else {
      assert SettingsBlock(s).entries == [("AutoConnect", BoolStr(s.autoconnect))];
    }
  }

  method WriteSecurity(kind: SecurityKind, passphrase: string) returns (r: string)
    ensures r == if SecurityBlocks(kind, passphrase) == [] then "" else Print(SecurityBlocks(kind, passphrase)) + "\n"
  {
    r := "";
    if kind == SecPSK && passphrase != "" {
      r := r + ("[" + "Security" + "]\n");
      r := WriteEntry(r, "Passphrase", passphrase);
      r := r + "\n";
      PrintBlock(SecurityBlocks(kind, passphrase)[0]);
    }
  }

  lemma PrintSecond(bs: seq<Block>, b: Block)
    ensures |bs| <= 1 ==>
              Print(bs + [b])
              == (if bs == [] then "" else Print(bs) + "\n") + "[" + b.name + "]\n" + EntryText(b.entries)
  {
    if bs == [] {
      PrintBlock(b);
      assert bs + [b] == [b];
    } else {
      PrintAppend(bs, b);
    }
  }

  // The text the builder ends with is the printed block list.
  method RenderProfile(kind: SecurityKind, s: Settings) returns (b: string)
    ensures b == Content(kind, s)
  {
    b := WriteSecurity(kind, s.passphrase);
    ghost var bs := SecurityBlocks(kind, s.passphrase);
    b := b + "[" + "Settings" + "]\n";
    b := WriteSettings(b, s);
    PrintSecond(bs, SettingsBlock(s));
    bs := bs + [SettingsBlock(s)];
    var v4 := StaticV4(s.ipv4);
    if v4.Some? {
      b := b + "\n[" + "IPv4" + "]\n";
      b := WriteV4(b, v4.value.0, v4.value.1, s.ipv4.value);
      PrintAppend(bs, V4Blocks(s.ipv4)[0]);
    } else {
      assert bs + V4Blocks(s.ipv4) == bs;
    }
    bs := bs + V4Blocks(s.ipv4);
    ghost var v6 := V6Blocks(s.ipv6);
    if IsStaticV6(s.ipv6) {
      b := b + "\n[" + "IPv6" + "]\n";
      b := WriteV6(b, s.ipv6.value);
      PrintAppend(bs, v6[0]);
    } else {
      assert bs + v6 == bs;
    }
    assert bs + v6 == ProfileBlocks(kind, s);
  }

  // ---- reading ----------------------------------------------------------------------

  function Value(out: Sections, section: string, key: string): string {
    if key in Section(out, section) then Section(out, section)[key] else ""
  }

  function ParseBool(v: string, default: bool): bool {
    var t := Lower(Trim(v));
    if t == "true" || t == "yes" || t == "1" then true
    else if t == "false" || t == "no" || t == "0" then false
    else default
  }

  function Flag(out: Sections, key: string, default: bool): bool {
    if key in Section(out, "Settings") then ParseBool(out["Settings"][key], default) else default
  }

  function WordsOf(v: string): seq<string> {
    if v != "" then Fields(v) else []
  }

  function ReadV4(out: Sections): IPConfig {
    if "IPv4" !in out then AUTO_CONFIG
    else
      var addr, domain := Value(out, "IPv4", "Address"), Value(out, "IPv4", "DomainName");
      IPConfig(IPManual,
               if addr != "" then [JoinAddrNetmask(addr, Value(out, "IPv4", "Netmask"))] else [],
               Value(out, "IPv4", "Gateway"),
               WordsOf(Value(out, "IPv4", "DNS")),
               if domain != "" then [domain] else [])
  }

  function ReadV6(out: Sections): IPConfig {
    if "IPv6" !in out then AUTO_CONFIG
    else
      var addr := Value(out, "IPv6", "Address");
      IPConfig(IPManual,
               if addr != "" then [addr] else [],
               Value(out, "IPv6", "Gateway"),
               WordsOf(Value(out, "IPv6", "DNS")),
               [])
  }

  function ReadSettings(out: Sections): Settings {
    Settings(Value(out, "Security", "Passphrase"), Flag(out, "AutoConnect", true), Flag(out, "Hidden", false),
             Some(ReadV4(out)), Some(ReadV6(out)))
  }

  // The settings a file is read as; the passphrase is only used to patch the file.
  ghost function Decode(content: string): Settings {
    ReadSettings(ParseSpec(content))
  }

  function ToProfile(n: Network, s: Settings): Profile
    requires s.ipv4.Some? && s.ipv6.Some?
  {
    Profile(DeriveID(n.ssid, n.typ), n.ssid, n.ssid, s.hidden, s.autoconnect,
            Security(TypeToKind(n.typ), ""), s.ipv4.value, s.ipv6.value)
  }

  method ParseProfile(n: Network, content: string) returns (p: Profile, s: Settings)
    ensures s == Decode(content)
    ensures p == ToProfile(n, s)
  {
    var out := ParseINI(content);
    s := ReadSettings(out);
    p := ToProfile(n, s);
  }

  // ---- what a file can keep -----------------------------------------------------------

  // The part of an address family that the file format has room for: a manual
  // family keeps one address, in canonical form, and one IPv4 search domain;
  // every other family is read back as automatic.
  function KeptV4(c: Option<IPConfig>): IPConfig {
    match StaticV4(c)
    case None => AUTO_CONFIG
    case Some(p) =>
      IPConfig(IPManual, [JoinAddrNetmask(p.0, p.1)], c.value.gateway, c.value.dns,
               if c.value.dnsSearch == [] then [] else [c.value.dnsSearch[0]])
  }

  function KeptV6(c: Option<IPConfig>): IPConfig {
    if IsStaticV6(c) then IPConfig(IPManual, [c.value.addresses[0]], c.value.gateway, c.value.dns, [])
    else AUTO_CONFIG
  }

  function Kept(kind: SecurityKind, s: Settings): Settings {
    Settings(if kind == SecPSK then s.passphrase else "", s.autoconnect, s.hidden,
             Some(KeptV4(s.ipv4)), Some(KeptV6(s.ipv6)))
  }

  predicate AreWords(ws: seq<string>) {
    forall w :: w in ws ==> IsWord(w)
  }

  predicate IsCleanFamily(c: IPConfig) {
    IsClean(c.gateway) && AreWords(c.dns)
  }

  // The values that the file format can carry.
  predicate CanStore(kind: SecurityKind, s: Settings) {
    && (kind == SecPSK ==> IsClean(s.passphrase))
    && (StaticV4(s.ipv4).Some? ==>
          && IsCleanFamily(s.ipv4.value)
          && (s.ipv4.value.dnsSearch != [] ==> s.ipv4.value.dnsSearch[0] != "" && IsClean(s.ipv4.value.dnsSearch[0])))
    && (IsStaticV6(s.ipv6) ==>
          && IsCleanFamily(s.ipv6.value)
          && s.ipv6.value.addresses[0] != "" && IsClean(s.ipv6.value.addresses[0]))
  }

  // ---- the round trip -----------------------------------------------------------------

  lemma WordIsClean(w: string)
    requires IsWord(w)
    ensures IsClean(w)
  {
  }

  lemma {:induction false} JoinedWordsClean(ws: seq<string>)
    requires AreWords(ws)
    ensures IsClean(Join(ws, ' '))
    ensures ws != [] ==> Join(ws, ' ') != "" && !IsSpace(Join(ws, ' ')[0])
  {
    if ws != [] {
      assert ws[0] in ws;
    }
    if |ws| > 1 {
      JoinedWordsClean(ws[1..]);
      var rest := Join(ws[1..], ' ');
      var s := ws[0] + [' '] + rest;
      assert s == Join(ws, ' ');
      assert s[|s| - 1] == rest[|rest| - 1];
    }
  }

  // The keys of a rendered file.
  const KEYS := {"Passphrase", "AutoConnect", "Hidden", "Enabled", "Address", "Netmask", "Gateway", "DNS", "DomainName"}

  predicate AreLetters(s: string) {
    forall i :: 0 <= i < |s| ==> 'A' <= s[i] <= 'Z' || 'a' <= s[i] <= 'z'
  }

  lemma KeysAreLetters(k: string)
    requires k in KEYS
    ensures AreLetters(k) && k != ""
  {
  }

  lemma LettersAreKey(k: string)
    requires AreLetters(k) && k != ""
    ensures IsKey(k)
  {
  }

  lemma CleanEntry(k: string, v: string)
    requires k in KEYS && IsClean(v)
    ensures AreCleanEntries([(k, v)])
  {
    KeysAreLetters(k);
    LettersAreKey(k);
  }

  lemma CleanAppend(a: seq<(string, string)>, b: seq<(string, string)>)
    requires AreCleanEntries(a) && AreCleanEntries(b)
    ensures AreCleanEntries(a + b)
  {
  }

  lemma CleanGatewayAndDns(c: IPConfig)
    requires IsCleanFamily(c)
    ensures AreCleanEntries(GatewayAndDns(c))
  {
    CleanEntry("Gateway", c.gateway);
    JoinedWordsClean(c.dns);
    CleanEntry("DNS", Join(c.dns, ' '));
    CleanAppend(if c.gateway != "" then [("Gateway", c.gateway)] else [],
                if c.dns != [] then [("DNS", Join(c.dns, ' '))] else []);
  }

  lemma CleanV4Entries(addr: string, mask: string, c: IPConfig)
    requires IsClean(addr) && IsClean(mask) && IsCleanFamily(c)
    requires c.dnsSearch != [] ==> IsClean(c.dnsSearch[0])
    ensures AreCleanEntries(V4Entries(addr, mask, c))
  {
    CleanEntry("Address", addr);
    CleanEntry("Netmask", mask);
    CleanGatewayAndDns(c);
    var es := [("Address", addr)];
    CleanAppend(es, if mask != "" then [("Netmask", mask)] else []);
    es := es + if mask != "" then [("Netmask", mask)] else [];
    CleanAppend(es, GatewayAndDns(c));
    es := es + GatewayAndDns(c);
    if c.dnsSearch != [] {
      CleanEntry("DomainName", c.dnsSearch[0]);
    }
    CleanAppend(es, if c.dnsSearch != [] then [("DomainName", c.dnsSearch[0])] else []);
  }

  lemma CleanV6Entries(c: IPConfig)
    requires c.addresses != [] && IsClean(c.addresses[0]) && IsCleanFamily(c)
    ensures AreCleanEntries(V6Entries(c))
  {
    CleanEntry("Enabled", "true");
    CleanEntry("Address", c.addresses[0]);
    CleanAppend([("Enabled", "true")], [("Address", c.addresses[0])]);
    CleanGatewayAndDns(c);
    CleanAppend([("Enabled", "true"), ("Address", c.addresses[0])], GatewayAndDns(c));
  }

  lemma BoolsAreRead(b: bool, default: bool)
    ensures IsClean(BoolStr(b)) && ParseBool(BoolStr(b), default) == b
  {
    TrimIsTrimmed("true");
    TrimIsTrimmed("false");
    assert Lower("true") == "true";
    assert Lower("false") == "false";
  }

  // ---- what the rendered file is read as ------------------------------------------------

  function Get(m: Entries, k: string): string {
    if k in m then m[k] else ""
  }

  lemma GatewayAndDnsMap(m: Entries, a: seq<(string, string)>, c: IPConfig)
    ensures var m0 := AddEntries(m, a);
            var m1 := if c.gateway != "" then m0["Gateway" := c.gateway] else m0;
            AddEntries(m, a + GatewayAndDns(c)) == if c.dns != [] then m1["DNS" := Join(c.dns, ' ')] else m1
  {
    var gw := if c.gateway != "" then [("Gateway", c.gateway)] else [];
    if c.gateway != "" {
      AddEntry(m, a, "Gateway", c.gateway);
    } else {
      assert a + gw == a;
    }
    if c.dns != [] {
      AddEntry(m, a + gw, "DNS", Join(c.dns, ' '));
      assert a + GatewayAndDns(c) == a + gw + [("DNS", Join(c.dns, ' '))];
    } else {
      assert a + GatewayAndDns(c) == a + gw;
    }
  }

  lemma V4Map(addr: string, mask: string, c: IPConfig)
    ensures var m := AddEntries(map[], V4Entries(addr, mask, c));
            && Get(m, "Address") == addr
            && Get(m, "Netmask") == mask
            && Get(m, "Gateway") == c.gateway
            && Get(m, "DNS") == (if c.dns != [] then Join(c.dns, ' ') else "")
            && Get(m, "DomainName") == if c.dnsSearch != [] then c.dnsSearch[0] else ""
  {
    var es := [("Address", addr)];
    AddEntry(map[], [], "Address", addr);
    assert [] + es == es;
    var mk := if mask != "" then [("Netmask", mask)] else [];
    if mask != "" {
      AddEntry(map[], es, "Netmask", mask);
    } else {
      assert es + mk == es;
    }
    GatewayAndDnsMap(map[], es + mk, c);
    var most := es + mk + GatewayAndDns(c);
    if c.dnsSearch != [] {
      AddEntry(map[], most, "DomainName", c.dnsSearch[0]);
    } else {
      assert V4Entries(addr, mask, c) == most;
    }
  }

  lemma V6Map(c: IPConfig)
    requires c.addresses != []
    ensures var m := AddEntries(map[], V6Entries(c));
            && Get(m, "Address") == c.addresses[0]
            && Get(m, "Gateway") == c.gateway
            && Get(m, "DNS") == if c.dns != [] then Join(c.dns, ' ') else ""
  {
    var es := [("Enabled", "true"), ("Address", c.addresses[0])];
    AddEntry(map[], [("Enabled", "true")], "Address", c.addresses[0]);
    assert [("Enabled", "true")] + [("Address", c.addresses[0])] == es;
    AddEntry(map[], [], "Enabled", "true");
    assert [] + [("Enabled", "true")] == [("Enabled", "true")];
    GatewayAndDnsMap(map[], es, c);
  }

  lemma SettingsMap(s: Settings)
    ensures var m := AddEntries(map[], SettingsBlock(s).entries);
            && "AutoConnect" in m && m["AutoConnect"] == BoolStr(s.autoconnect)
            && ("Hidden" in m <==> s.hidden) && (s.hidden ==> m["Hidden"] == "true")
  {
    var es := [("AutoConnect", BoolStr(s.autoconnect))];
    AddEntry(map[], [], "AutoConnect", BoolStr(s.autoconnect));
    assert [] + es == es;
    if s.hidden {
      AddEntry(map[], es, "Hidden", "true");
    } else {
      assert SettingsBlock(s).entries == es;
    }
  }

  // Adding at most one block of a name that is not there yet.
  lemma AddOptional(bs: seq<Block>, opt: seq<Block>, name: string)
    requires |opt| <= 1 && (opt != [] ==> opt[0].name == name)
    requires name !in AddBlocks(map[], bs)
    ensures AddBlocks(map[], bs + opt)
            == if opt == [] then AddBlocks(map[], bs)
               else AddBlocks(map[], bs)[name := AddEntries(map[], opt[0].entries)]
  {
    if opt == [] {
      assert bs + opt == bs;
    } else {
      assert opt == [opt[0]];
      AddFreshBlock(map[], bs, opt[0]);
    }
  }

  function WithSection(out: Sections, present: bool, name: string, es: Entries): Sections {
    if present then out[name := es] else out
  }

  lemma SectionNamesDiffer()
    ensures "Security" != "Settings" && "Security" != "IPv4" && "Security" != "IPv6"
    ensures "Settings" != "IPv4" && "Settings" != "IPv6" && "IPv4" != "IPv6"
  {
    assert "IPv4"[3] != "IPv6"[3];
    assert "Security"[1] == 'e' && "Security"[2] != "Settings"[2];
  }

  // The map of a rendered file, built section by section.
  lemma ProfileSections(kind: SecurityKind, s: Settings)
    ensures var b1, b3, b4 := SecurityBlocks(kind, s.passphrase), V4Blocks(s.ipv4), V6Blocks(s.ipv6);
            var o1 := WithSection(map[], b1 != [], "Security", map["Passphrase" := s.passphrase]);
            var o2 := o1["Settings" := AddEntries(map[], SettingsBlock(s).entries)];
            var o3 := WithSection(o2, b3 != [], "IPv4", if b3 == [] then map[] else AddEntries(map[], b3[0].entries));
            var o4 := WithSection(o3, b4 != [], "IPv6", if b4 == [] then map[] else AddEntries(map[], b4[0].entries));
            AddBlocks(map[], ProfileBlocks(kind, s)) == o4
  {
    SectionNamesDiffer();
    var b1, b3, b4 := SecurityBlocks(kind, s.passphrase), V4Blocks(s.ipv4), V6Blocks(s.ipv6);
    AddOptional([], b1, "Security");
    assert [] + b1 == b1;
    AddEntry(map[], [], "Passphrase", s.passphrase);
    assert [] + [("Passphrase", s.passphrase)] == [("Passphrase", s.passphrase)];
    AddOptional(b1, [SettingsBlock(s)], "Settings");
    AddOptional(b1 + [SettingsBlock(s)], b3, "IPv4");
    AddOptional(b1 + [SettingsBlock(s)] + b3, b4, "IPv6");
  }

  // The sections of a rendered file, one by one.
  lemma ProfileMap(kind: SecurityKind, s: Settings)
    ensures var out := AddBlocks(map[], ProfileBlocks(kind, s));
            && Value(out, "Security", "Passphrase") == (if kind == SecPSK then s.passphrase else "")
            && "Settings" in out && out["Settings"] == AddEntries(map[], SettingsBlock(s).entries)
            && ("IPv4" in out <==> V4Blocks(s.ipv4) != [])
            && ("IPv4" in out ==> out["IPv4"] == AddEntries(map[], V4Blocks(s.ipv4)[0].entries))
            && ("IPv6" in out <==> V6Blocks(s.ipv6) != [])
            && ("IPv6" in out ==> out["IPv6"] == AddEntries(map[], V6Blocks(s.ipv6)[0].entries))
  {
    SectionNamesDiffer();
    ProfileSections(kind, s);
  }

  lemma SecurityClean(kind: SecurityKind, passphrase: string)
    requires kind == SecPSK ==> IsClean(passphrase)
    ensures AreCleanBlocks(SecurityBlocks(kind, passphrase))
  {
    if kind == SecPSK {
      CleanEntry("Passphrase", passphrase);
    }
  }

  lemma SettingsClean(s: Settings)
    ensures AreCleanBlocks([SettingsBlock(s)])
  {
    BoolsAreRead(s.autoconnect, true);
    CleanEntry("AutoConnect", BoolStr(s.autoconnect));
    if s.hidden {
      BoolsAreRead(true, true);
      CleanEntry("Hidden", "true");
    }
    CleanAppend([("AutoConnect", BoolStr(s.autoconnect))], if s.hidden then [("Hidden", "true")] else []);
  }

  lemma StaticV4IsClean(c: Option<IPConfig>)
    requires StaticV4(c).Some?
    ensures IsClean(StaticV4(c).value.0) && IsClean(StaticV4(c).value.1)
  {
    CidrNormalises(c.value.addresses[0]);
    WordIsClean(StaticV4(c).value.0);
    if StaticV4(c).value.1 != "" {
      WordIsClean(StaticV4(c).value.1);
    }
  }

  lemma V4Clean(kind: SecurityKind, s: Settings)
    requires CanStore(kind, s)
    ensures AreCleanBlocks(V4Blocks(s.ipv4))
  {
    var v4 := StaticV4(s.ipv4);
    if v4.Some? {
      StaticV4IsClean(s.ipv4);
      CleanV4Entries(v4.value.0, v4.value.1, s.ipv4.value);
    }
  }

  lemma V6Clean(kind: SecurityKind, s: Settings)
    requires CanStore(kind, s)
    ensures AreCleanBlocks(V6Blocks(s.ipv6))
  {
    if IsStaticV6(s.ipv6) {
      CleanV6Entries(s.ipv6.value);
    }
  }

  lemma ProfileBlocksClean(kind: SecurityKind, s: Settings)
    requires CanStore(kind, s)
    ensures AreCleanBlocks(ProfileBlocks(kind, s))
  {
    SecurityClean(kind, s.passphrase);
    SettingsClean(s);
    V4Clean(kind, s);
    V6Clean(kind, s);
  }

  lemma DnsIsRead(dns: seq<string>, text: string)
    requires AreWords(dns)
    requires text == if dns != [] then Join(dns, ' ') else ""
    ensures WordsOf(text) == dns
  {
    FieldsJoin(dns);
    JoinedWordsClean(dns);
  }

  lemma V4IsRead(out: Sections, c: Option<IPConfig>)
    requires StaticV4(c).Some? ==> && AreWords(c.value.dns)
                                   && (c.value.dnsSearch != [] ==> c.value.dnsSearch[0] != "")
    requires "IPv4" in out <==> V4Blocks(c) != []
    requires "IPv4" in out ==> out["IPv4"] == AddEntries(map[], V4Blocks(c)[0].entries)
    ensures ReadV4(out) == KeptV4(c)
  {
    var v4 := StaticV4(c);
    if v4.Some? {
      V4Map(v4.value.0, v4.value.1, c.value);
      CidrNormalises(c.value.addresses[0]);
      DnsIsRead(c.value.dns, Get(out["IPv4"], "DNS"));
    }
  }

  lemma V6IsRead(out: Sections, c: Option<IPConfig>)
    requires IsStaticV6(c) ==> AreWords(c.value.dns) && c.value.addresses[0] != ""
    requires "IPv6" in out <==> V6Blocks(c) != []
    requires "IPv6" in out ==> out["IPv6"] == AddEntries(map[], V6Blocks(c)[0].entries)
    ensures ReadV6(out) == KeptV6(c)
  {
    if IsStaticV6(c) {
      V6Map(c.value);
      DnsIsRead(c.value.dns, Get(out["IPv6"], "DNS"));
    }
  }

  lemma FlagsAreRead(out: Sections, s: Settings)
    requires "Settings" in out && out["Settings"] == AddEntries(map[], SettingsBlock(s).entries)
    ensures Flag(out, "AutoConnect", true) == s.autoconnect && Flag(out, "Hidden", false) == s.hidden
  {
    SettingsMap(s);
    BoolsAreRead(s.autoconnect, true);
    BoolsAreRead(true, false);
  }

  lemma ContentIsRead(kind: SecurityKind, s: Settings)
    requires CanStore(kind, s)
    ensures ReadSettings(AddBlocks(map[], ProfileBlocks(kind, s))) == Kept(kind, s)
  {
    var out := AddBlocks(map[], ProfileBlocks(kind, s));
    ProfileMap(kind, s);
    FlagsAreRead(out, s);
    V4IsRead(out, s.ipv4);
    V6IsRead(out, s.ipv6);
  }

  lemma ReadBack(kind: SecurityKind, s: Settings)
    requires CanStore(kind, s)
    ensures Decode(Content(kind, s)) == Kept(kind, s)
  {
    ProfileBlocksClean(kind, s);
    PrintParse(ProfileBlocks(kind, s));
    ContentIsRead(kind, s);
  }

  // Values read from a file can be stored again.
  lemma DecodedValuesAreClean(content: string)
    ensures var d := Decode(content);
            && IsClean(d.passphrase)
            && IsCleanFamily(d.ipv4.value) && IsCleanFamily(d.ipv6.value)
            && (d.ipv4.value.dnsSearch != [] ==> d.ipv4.value.dnsSearch[0] != "" && IsClean(d.ipv4.value.dnsSearch[0]))
            && (d.ipv6.value.addresses != [] ==> d.ipv6.value.addresses[0] != "" && IsClean(d.ipv6.value.addresses[0]))
  {
    ValuesAreClean(content);
  }

  // The round trip holds exactly for the settings the format can carry: whatever a
  // profile holds besides, its file gives back what it keeps if and only if every
  // kept value fits on one line, is trimmed, and separates into words again.
  lemma RoundTripIff(kind: SecurityKind, s: Settings)
    ensures Decode(Content(kind, s)) == Kept(kind, s) <==> CanStore(kind, s)
  {
    if CanStore(kind, s) {
      ReadBack(kind, s);
    }
    DecodedValuesAreClean(Content(kind, s));
  }

  lemma KeptV4IsStable(c: Option<IPConfig>)
    ensures V4Blocks(Some(KeptV4(c))) == V4Blocks(c) && KeptV4(Some(KeptV4(c))) == KeptV4(c)
    ensures StaticV4(Some(KeptV4(c))) == StaticV4(c)
  {
    if StaticV4(c).Some? {
      CidrNormalises(c.value.addresses[0]);
    }
  }

  lemma KeptV6IsStable(c: Option<IPConfig>)
    ensures V6Blocks(Some(KeptV6(c))) == V6Blocks(c) && KeptV6(Some(KeptV6(c))) == KeptV6(c)
    ensures IsStaticV6(Some(KeptV6(c))) == IsStaticV6(c)
  {
  }

  // Storing what was kept writes the same file, byte for byte, whatever the settings.
  lemma KeptIsStable(kind: SecurityKind, s: Settings)
    ensures Content(kind, Kept(kind, s)) == Content(kind, s) && Kept(kind, Kept(kind, s)) == Kept(kind, s)
  {
    var k := Kept(kind, s);
    KeptV4IsStable(s.ipv4);
    KeptV6IsStable(s.ipv6);
    assert SecurityBlocks(kind, k.passphrase) == SecurityBlocks(kind, s.passphrase);
    assert SettingsBlock(k) == SettingsBlock(s);
  }

  // What the format can carry it can carry again.
  lemma KeptCanBeStored(kind: SecurityKind, s: Settings)
    ensures CanStore(kind, Kept(kind, s)) <==> CanStore(kind, s)
  {
    KeptV4IsStable(s.ipv4);
    KeptV6IsStable(s.ipv6);
  }

  // Reading a written file and writing what was read gives the same file.
  lemma RewriteIsIdentity(kind: SecurityKind, s: Settings)
    requires CanStore(kind, s)
    ensures Content(kind, Decode(Content(kind, s))) == Content(kind, s)
  {
    RoundTripIff(kind, s);
    KeptIsStable(kind, s);
  }
}

// The provisioning file as other programs see it: the exact text that is written, and
// what is read from text that was written by hand.
module IwdFormat {
  import opened Text
  import opened Wnet
  import opened IPv4
  import opened IpText
  import opened Ini
  import opened IwdProfile

  // ---- the text that is written -----------------------------------------------------

  function Line(key: string, value: string): string {
    key + "=" + value + "\n"
  }

  function LineIf(present: bool, key: string, value: string): string {
    if present then Line(key, value) else ""
  }

  lemma LineIsText(present: bool, key: string, value: string)
    ensures EntryText([(key, value)]) == Line(key, value)
    ensures EntryText(if present then [(key, value)] else []) == LineIf(present, key, value)
  {
    EntryTextOne(key, value);
  }

  // What both families write behind their addresses.
  function RouteText(c: IPConfig): string {
    LineIf(c.gateway != "", "Gateway", c.gateway) + LineIf(c.dns != [], "DNS", Join(c.dns, ' '))
  }

  lemma RouteIsWritten(c: IPConfig)
    ensures EntryText(GatewayAndDns(c)) == RouteText(c)
  {
    LineIsText(c.gateway != "", "Gateway", c.gateway);
    LineIsText(c.dns != [], "DNS", Join(c.dns, ' '));
    EntryTextAppend(if c.gateway != "" then [("Gateway", c.gateway)] else [],
                    if c.dns != [] then [("DNS", Join(c.dns, ' '))] else []);
  }

  // The body of a static IPv4 family: its address, the mask if the address had a
  // prefix, and the first search domain.
  function V4Body(addr: string, mask: string, c: IPConfig): string {
    Line("Address", addr) + LineIf(mask != "", "Netmask", mask) + RouteText(c)
    + if c.dnsSearch != [] then Line("DomainName", c.dnsSearch[0]) else ""
  }

  lemma V4BodyIsWritten(addr: string, mask: string, c: IPConfig)
    ensures EntryText(V4Entries(addr, mask, c)) == V4Body(addr, mask, c)
  {
    var head := [("Address", addr)];
    var mk := if mask != "" then [("Netmask", mask)] else [];
    var dom := if c.dnsSearch != [] then [("DomainName", c.dnsSearch[0])] else [];
    LineIsText(true, "Address", addr);
    LineIsText(mask != "", "Netmask", mask);
    if c.dnsSearch != [] {
      LineIsText(true, "DomainName", c.dnsSearch[0]);
    }
    RouteIsWritten(c);
    EntryTextAppend(head, mk);
    EntryTextAppend(head + mk, GatewayAndDns(c));
    EntryTextAppend(head + mk + GatewayAndDns(c), dom);
  }

  function V6Body(c: IPConfig): string
    requires c.addresses != []
  {
    Line("Enabled", "true") + Line("Address", c.addresses[0]) + RouteText(c)
  }

  lemma V6BodyIsWritten(c: IPConfig)
    requires c.addresses != []
    ensures EntryText(V6Entries(c)) == V6Body(c)
  {
    var head := [("Enabled", "true")] + [("Address", c.addresses[0])];
    LineIsText(true, "Enabled", "true");
    LineIsText(true, "Address", c.addresses[0]);
    EntryTextAppend([("Enabled", "true")], [("Address", c.addresses[0])]);
    RouteIsWritten(c);
    EntryTextAppend(head, GatewayAndDns(c));
    assert head + GatewayAndDns(c) == V6Entries(c);
  }

  function FlagsBody(s: Settings): string {
    Line("AutoConnect", if s.autoconnect then "true" else "false") + LineIf(s.hidden, "Hidden", "true")
  }

  lemma FlagsAreWritten(s: Settings)
    ensures EntryText(SettingsBlock(s).entries) == FlagsBody(s)
  {
    LineIsText(true, "AutoConnect", BoolStr(s.autoconnect));
    LineIsText(s.hidden, "Hidden", "true");
    EntryTextAppend([("AutoConnect", BoolStr(s.autoconnect))], if s.hidden then [("Hidden", "true")] else []);
  }

  // The passphrase of a network that has one stands first.
  function SecurityText(kind: SecurityKind, passphrase: string): string {
    if kind == SecPSK && passphrase != "" then "[Security]\n" + Line("Passphrase", passphrase) + "\n" else ""
  }

  // The flags are always written.
  function HeadText(kind: SecurityKind, s: Settings): string {
    SecurityText(kind, s.passphrase) + "[Settings]\n" + FlagsBody(s)
  }

  lemma HeaderText(name: string, header: string)
    requires header == "[" + name + "]\n"
    ensures "\n[" + name + "]\n" == "\n" + header
    ensures forall s: string :: s + "[" + name + "]\n" == s + header
  {
    forall s: string
      ensures s + "[" + name + "]\n" == s + header
    {
    }
  }

  lemma SecurityIsWritten(kind: SecurityKind, passphrase: string)
    ensures var bs := SecurityBlocks(kind, passphrase);
            (if bs == [] then "" else Print(bs) + "\n") == SecurityText(kind, passphrase)
  {
    var bs := SecurityBlocks(kind, passphrase);
    if bs != [] {
      PrintBlock(bs[0]);
      LineIsText(true, "Passphrase", passphrase);
      assert "[" + "Security" + "]\n" == "[Security]\n";
    }
  }

  lemma HeadIsWritten(kind: SecurityKind, s: Settings)
    ensures Print(SecurityBlocks(kind, s.passphrase) + [SettingsBlock(s)]) == HeadText(kind, s)
  {
    PrintSecond(SecurityBlocks(kind, s.passphrase), SettingsBlock(s));
    SecurityIsWritten(kind, s.passphrase);
    FlagsAreWritten(s);
    HeaderText("Settings", "[Settings]\n");
  }

  function V4Text(c: Option<IPConfig>): string {
    match StaticV4(c)
    case None => ""
    case Some((addr, mask)) => "\n[IPv4]\n" + V4Body(addr, mask, c.value)
  }

  function V6Text(c: Option<IPConfig>): string {
    if IsStaticV6(c) then "\n[IPv6]\n" + V6Body(c.value) else ""
  }

  lemma Regrouped(a: string, b: string, c: string, d: string, e: string)
    ensures a + b + c + d + e == a + ((b + c + d) + e)
  {
  }

  lemma WithBlock(bs: seq<Block>, b: Block, header: string)
    requires bs != [] && header == "\n[" + b.name + "]\n"
    ensures Print(bs + [b]) == Print(bs) + (header + EntryText(b.entries))
  {
    PrintAppend(bs, b);
    Regrouped(Print(bs), "\n[", b.name, "]\n", EntryText(b.entries));
  }

  lemma V4IsWritten(bs: seq<Block>, c: Option<IPConfig>)
    requires bs != []
    ensures Print(bs + V4Blocks(c)) == Print(bs) + V4Text(c)
  {
    match StaticV4(c)
    case None =>
      assert bs + [] == bs;
    case Some((addr, mask)) =>
      V4BodyIsWritten(addr, mask, c.value);
      WithBlock(bs, Block("IPv4", V4Entries(addr, mask, c.value)), "\n[IPv4]\n");
  }

  lemma V6IsWritten(bs: seq<Block>, c: Option<IPConfig>)
    requires bs != []
    ensures Print(bs + V6Blocks(c)) == Print(bs) + V6Text(c)
  {
    if IsStaticV6(c) {
      V6BodyIsWritten(c.value);
      WithBlock(bs, Block("IPv6", V6Entries(c.value)), "\n[IPv6]\n");
    } else {
      assert bs + [] == bs;
    }
  }

  // The file, character by character. What a family or the passphrase does not fill is
  // not there at all.
  lemma FileText(kind: SecurityKind, s: Settings)
    ensures Content(kind, s) == HeadText(kind, s) + V4Text(s.ipv4) + V6Text(s.ipv6)
  {
    var head := SecurityBlocks(kind, s.passphrase) + [SettingsBlock(s)];
    HeadIsWritten(kind, s);
    V4IsWritten(head, s.ipv4);
    V6IsWritten(head + V4Blocks(s.ipv4), s.ipv6);
  }

  // ---- what a family keeps ------------------------------------------------------------

  ghost predicate IsManualWith(c: Option<IPConfig>, addr: string) {
    c.Some? && c.value.ipMethod == IPManual && c.value.addresses != [] && c.value.addresses[0] == addr
  }

  // A manual IPv4 family is kept if its first address is one, with or without a prefix;
  // it keeps that address, its gateway, all its servers and its first search domain.
  // Every other family is left to be automatic.
  lemma KeptV4Iff(c: Option<IPConfig>)
    ensures KeptV4(c).ipMethod == IPManual <==>
              exists addr :: IsManualWith(c, addr) && (ParseIP(addr).Some? || ParseIPCIDR(addr).Some?)
    ensures KeptV4(c).ipMethod != IPManual ==> KeptV4(c) == AUTO_CONFIG
    ensures forall addr ::
              IsManualWith(c, addr) && (ParseIP(addr).Some? || IsCanonicalCidr(addr)) ==>
                KeptV4(c) == IPConfig(IPManual, [addr], c.value.gateway, c.value.dns,
                                      if c.value.dnsSearch == [] then [] else [c.value.dnsSearch[0]])
  {
    if c.Some? && c.value.ipMethod == IPManual && c.value.addresses != [] {
      var addr := c.value.addresses[0];
      assert IsManualWith(c, addr);
      if IsCanonicalCidr(addr) {
        var x, n: nat :| n <= 32 && addr == FormatCIDR(x, n);
        CidrRoundTrip(x, n);
      }
      if CidrToAddrNetmask(addr).Some? {
        CidrKeptIff(addr);
      }
    }
  }

  // A manual IPv6 family is kept whatever its first address is; search domains are not.
  lemma KeptV6Iff(c: Option<IPConfig>)
    ensures KeptV6(c).ipMethod == IPManual <==> exists addr :: IsManualWith(c, addr)
    ensures KeptV6(c).ipMethod != IPManual ==> KeptV6(c) == AUTO_CONFIG
    ensures forall addr :: IsManualWith(c, addr) ==>
              KeptV6(c) == IPConfig(IPManual, [addr], c.value.gateway, c.value.dns, [])
  {
    if IsStaticV6(c) {
      assert IsManualWith(c, c.value.addresses[0]);
    }
  }

  // ---- flags written by hand ----------------------------------------------------------

  lemma FlagFile(v: string, w: string)
    requires IsClean(v) && IsClean(w)
    ensures ParseSpec("[Settings]\n" + (Line("AutoConnect", v) + Line("Hidden", w)))
            == map["Settings" := map["AutoConnect" := v, "Hidden" := w]]
  {
    var es := [("AutoConnect", v)] + [("Hidden", w)];
    var b := Block("Settings", es);
    CleanEntry("AutoConnect", v);
    CleanEntry("Hidden", w);
    CleanAppend([("AutoConnect", v)], [("Hidden", w)]);
    LineIsText(true, "AutoConnect", v);
    LineIsText(true, "Hidden", w);
    EntryTextAppend([("AutoConnect", v)], [("Hidden", w)]);
    PrintBlock(b);
    assert "[" + "Settings" + "]\n" == "[Settings]\n";
    PrintParse([b]);
    AddEntry(map[], [("AutoConnect", v)], "Hidden", w);
    AddEntry(map[], [], "AutoConnect", v);
    assert [] + [("AutoConnect", v)] == [("AutoConnect", v)];
    assert [b][1..] == [];
  }

  predicate IsOff(v: string) {
    Lower(v) == "false" || Lower(v) == "no" || Lower(v) == "0"
  }

  predicate IsOn(v: string) {
    Lower(v) == "true" || Lower(v) == "yes" || Lower(v) == "1"
  }

  lemma SpellingIff(v: string)
    requires IsTrimmed(v)
    ensures ParseBool(v, true) <==> !IsOff(v)
    ensures ParseBool(v, false) <==> IsOn(v)
  {
    TrimIsTrimmed(v);
    assert "true"[0] != "false"[0] && "true"[0] != "no"[0] && "true"[0] != "0"[0];
    assert "yes"[0] != "false"[0] && "yes"[0] != "no"[0] && "yes"[0] != "0"[0];
    assert "1"[0] != "false"[0] && "1"[0] != "no"[0] && "1"[0] != "0"[0];
  }

  // AutoConnect is on unless it is switched off in one of three spellings, Hidden is
  // off unless it is switched on in one of three; case does not matter.
  lemma FlagsIff(v: string, w: string)
    requires IsClean(v) && IsClean(w)
    ensures var d := Decode("[Settings]\n" + (Line("AutoConnect", v) + Line("Hidden", w)));
            (d.autoconnect <==> !IsOff(v)) && (d.hidden <==> IsOn(w))
  {
    FlagFile(v, w);
    SpellingIff(v);
    SpellingIff(w);
  }

  // ---- what a file without a section says -----------------------------------------------

  // The name has no section yet, and none is being filled.
  ghost predicate IsUnread(r: Reader, name: string) {
    name !in r.out && r.cur != name
  }

  lemma {:induction false} UnreadStays(r: Reader, lines: seq<string>, name: string)
    requires IsUnread(r, name) && forall l :: l in lines ==> Classify(l) != Header(name)
    ensures name !in FeedAll(r, lines).out
    decreases |lines|
  {
    if lines != [] {
      assert lines[0] in lines;
      UnreadStays(Feed(r, Classify(lines[0])), lines[1..], name);
    }
  }

  lemma HeaderLine(line: string, name: string)
    requires Classify(line) == Header(name)
    ensures Trim(line) == "[" + name + "]"
  {
    var t := Trim(line);
    assert t == [t[0]] + t[1..|t| - 1] + [t[|t| - 1]];
  }

  // A file in which no line is the header of the flags, or of the passphrase, or of a
  // family, says what the section's absence means: connect on sight, not hidden, no
  // passphrase, automatic addresses.
  lemma AbsentSectionDefaults(content: string)
    ensures (forall l :: l in Lines(content) ==> Trim(l) != "[Settings]") ==>
              Decode(content).autoconnect && !Decode(content).hidden
    ensures (forall l :: l in Lines(content) ==> Trim(l) != "[Security]") ==> Decode(content).passphrase == ""
    ensures (forall l :: l in Lines(content) ==> Trim(l) != "[IPv4]") ==> Decode(content).ipv4 == Some(AUTO_CONFIG)
    ensures (forall l :: l in Lines(content) ==> Trim(l) != "[IPv6]") ==> Decode(content).ipv6 == Some(AUTO_CONFIG)
  {
    AbsentSection(content, "Settings");
    AbsentSection(content, "Security");
    AbsentSection(content, "IPv4");
    AbsentSection(content, "IPv6");
    assert "[" + "Settings" + "]" == "[Settings]" && "[" + "Security" + "]" == "[Security]";
    assert "[" + "IPv4" + "]" == "[IPv4]" && "[" + "IPv6" + "]" == "[IPv6]";
  }

  lemma AbsentSection(content: string, name: string)
    requires name != ""
    ensures (forall l :: l in Lines(content) ==> Trim(l) != "[" + name + "]") ==> name !in ParseSpec(content)
  {
    if forall l :: l in Lines(content) ==> Trim(l) != "[" + name + "]" {
      forall l | l in Lines(content)
        ensures Classify(l) != Header(name)
      {
        if Classify(l) == Header(name) {
          HeaderLine(l, name);
        }
      }
      UnreadStays(START, Lines(content), name);
    }
  }

  // ---- lines that do not count ------------------------------------------------------------

  // A blank line, a comment, or a line that is neither a header nor an assignment.
  predicate IsNoise(line: string) {
    var t := Trim(line);
    || t == "" || t[0] == '#' || t[0] == ';'
    || ('=' !in t && !(t[0] == '[' && t[|t| - 1] == ']'))
  }

  lemma NoiseFeedsNothing(r: Reader, line: string, rest: seq<string>)
    requires IsNoise(line)
    ensures FeedAll(r, [line] + rest) == FeedAll(r, rest)
  {
    assert ([line] + rest)[1..] == rest;
  }

  // Such a line may stand anywhere in a file without changing what is read from it.
  lemma NoiseIsIgnored(before: seq<string>, noise: string, after: seq<string>)
    requires forall l :: l in before + [noise] + after ==> '\n' !in l
    requires IsNoise(noise)
    ensures ParseSpec(Unlines(before + [noise] + after)) == ParseSpec(Unlines(before + after))
  {
    LinesUnlines(before + [noise] + after);
    assert forall l :: l in before + after ==> l in before + [noise] + after;
    LinesUnlines(before + after);
    assert before + [noise] + after == before + ([noise] + after);
    FeedAllAppend(START, before, [noise] + after);
    FeedAllAppend(START, before, after);
    NoiseFeedsNothing(FeedAll(START, before), noise, after);
  }

  lemma TrimKey(k: string, pad: string)
    requires IsKey(k) && AllSpace(pad)
    ensures Trim(k + pad) == k && '=' !in k + pad
  {
    TrimPadded("", k, pad);
    assert "" + k + pad == k + pad;
    assert forall c :: c in pad ==> c != '=';
  }

  // A line as trimming leaves it: value is the value with the space in front of it.
  lemma SplitLine(k: string, pad: string, value: string)
    requires IsKey(k) && AllSpace(pad) && (value == "" || !IsSpace(value[|value| - 1]))
    ensures IsTrimmed(k + pad + ['='] + value)
    ensures Classify(k + pad + ['='] + value) == Entry(k, Trim(value))
  {
    var line := k + pad + ['='] + value;
    assert line[0] == k[0];
    assert line[|line| - 1] == if value == "" then '=' else value[|value| - 1];
    TrimIsTrimmed(line);
    TrimKey(k, pad);
    IndexByteAt(k + pad, '=', value);
  }

  lemma SameTrim(a: string, b: string)
    requires Trim(a) == Trim(b)
    ensures Classify(a) == Classify(b)
  {
  }

  lemma ClassifyTrimmed(front: string, line: string, back: string)
    requires AllSpace(front) && AllSpace(back) && IsTrimmed(line)
    ensures Classify(front + line + back) == Classify(line)
  {
    TrimPadded(front, line, back);
    TrimIsTrimmed(line);
    SameTrim(front + line + back, line);
  }

  lemma Regroup(a: string, b: string, c: string, d: string)
    ensures a + (b + c) + d == a + b + (c + d)
  {
  }

  // White space around the key, the value and the line is not part of either.
  lemma PaddedEntryIsRead(p1: string, k: string, p2: string, p3: string, v: string, p4: string)
    requires AllSpace(p1) && AllSpace(p2) && AllSpace(p3) && AllSpace(p4)
    requires IsKey(k) && IsClean(v)
    ensures Classify(p1 + (k + p2 + ['='] + (p3 + v)) + p4) == Entry(k, v)
  {
    if v == "" {
      assert p3 + v == p3;
      SplitLine(k, p2, "");
      assert k + p2 + ['='] + "" == k + p2 + ['='];
      ClassifyTrimmed(p1, k + p2 + ['='], p3 + p4);
      Regroup(p1, k + p2 + ['='], p3, p4);
    } else {
      SplitLine(k, p2, p3 + v);
      TrimPadded(p3, v, "");
      assert p3 + v + "" == p3 + v;
      ClassifyTrimmed(p1, k + p2 + ['='] + (p3 + v), p4);
    }
  }
}

// The wireless configuration of an OpenWrt node as rpcd's uci object serves it:
// named sections of options, with staged edits that a commit makes permanent.
module Uci {
  import opened Text
  import opened Wnet

  datatype Section = Section(typ: string, options: map<string, string>)

  type Config = map<string, Section>

  function Opt(s: Section, key: string): string {
    if key in s.options then s.options[key] else ""
  }

  // ---- edits ------------------------------------------------------------------------

  datatype Cmd =
    | Set(section: string, values: map<string, string>)
    | Add(name: string, values: map<string, string>)
    | Delete(section: string)
    | Commit

  datatype Node = Node(staged: Config, committed: Config)

  // Setting options needs the section; adding a named section replaces any section
  // of that name.
  predicate Applies(n: Node, c: Cmd) {
    match c
    case Set(section, _) => section in n.staged
    case Delete(section) => section in n.staged
    case _ => true
  }

  function Merge(s: Section, values: map<string, string>): Section {
    s.(options := s.options + values)
  }

  function Apply(n: Node, c: Cmd): Node {
    if !Applies(n, c) then n
    else match c
      case Set(section, values) => n.(staged := n.staged[section := Merge(n.staged[section], values)])
      case Add(name, values) => n.(staged := n.staged[name := Section("wifi-iface", values)])
      case Delete(section) => n.(staged := n.staged - {section})
      case Commit => Node(n.staged, n.staged)
  }

  ghost function After(n: Node, plan: seq<Cmd>): Node
    decreases |plan|
  {
    if plan == [] then n else After(Apply(n, plan[0]), plan[1..])
  }

  lemma {:induction false} AfterAppend(n: Node, a: seq<Cmd>, b: seq<Cmd>)
    ensures After(n, a + b) == After(After(n, a), b)
    decreases |a|
  {
    if a == [] {
      assert a + b == b;
    } else {
      assert (a + b)[1..] == a[1..] + b;
      AfterAppend(Apply(n, a[0]), a[1..], b);
    }
  }

  lemma AfterOne(n: Node, a: seq<Cmd>, c: Cmd)
    ensures After(n, a + [c]) == Apply(After(n, a), c)
  {
    AfterAppend(n, a, [c]);
    assert [c][1..] == [];
  }

  // ---- stations -----------------------------------------------------------------------

  // The fields of a wifi-iface section that a profile is made of.
  datatype Iface = Iface(section: string, device: string, mode: string, ssid: string, encryption: string,
                         key: string, network: string, bssid: string, disabled: bool)

  function UciBool(v: string): bool {
    var t := Lower(Trim(v));
    t == "1" || t == "true" || t == "yes" || t == "on"
  }

  function BoolToUci(b: bool): string {
    if b then "1" else "0"
  }

  lemma UciBoolRoundTrip(b: bool)
    ensures UciBool(BoolToUci(b)) == b
  {
    TrimIsTrimmed("1");
    TrimIsTrimmed("0");
    assert Lower("1") == "1" && Lower("0") == "0";
  }

  // An option is set by any of four words, in either case and with space around it.
  lemma UciBoolIff(front: string, v: string, back: string)
    requires AllSpace(front) && AllSpace(back) && IsTrimmed(v)
    ensures UciBool(front + v + back) <==>
              Lower(v) == "1" || Lower(v) == "true" || Lower(v) == "yes" || Lower(v) == "on"
  {
    TrimPadded(front, v, back);
  }

  function ToIface(name: string, s: Section): Iface {
    Iface(name, Opt(s, "device"), Opt(s, "mode"), Opt(s, "ssid"), Opt(s, "encryption"),
          Opt(s, "key"), Opt(s, "network"), Opt(s, "bssid"), UciBool(Opt(s, "disabled")))
  }

  predicate IsStation(s: Section) {
    s.typ == "wifi-iface" && Lower(Opt(s, "mode")) == "sta"
  }

  function EncToKind(enc: string): SecurityKind {
    var e := Lower(Trim(enc));
    if e == "" || e == "none" then SecOpen
    else if Contains(e, "8021x") || Contains(e, "wpa-eap") || Contains(e, "wpa2-eap") || Contains(e, "wpa3-eap")
    then SecEnterprise
    else SecPSK
  }

  function KindToEnc(k: SecurityKind): string {
    match k
    case SecPSK => "psk2"
    case SecEnterprise => "wpa2"
    case SecOpen => "none"
  }

  // The kind survives the uci encoding, except that enterprise security would come
  // back as a pre-shared key.
  lemma KindRoundTripIff(k: SecurityKind)
    ensures EncToKind(KindToEnc(k)) == k <==> k != SecEnterprise
  {
    TrimIsTrimmed(KindToEnc(k));
    assert Lower("psk2") == "psk2" && Lower("none") == "none" && Lower("wpa2") == "wpa2";
  }

  // What other tools write is open if it is nothing or "none", enterprise if it mentions
  // 802.1X or a WPA-EAP mode, and a pre-shared key otherwise.
  lemma EncKindIff(front: string, v: string, back: string)
    requires AllSpace(front) && AllSpace(back) && IsTrimmed(v)
    ensures EncToKind(front + v + back) == SecOpen <==> v == "" || Lower(v) == "none"
    ensures EncToKind(front + v + back) == SecEnterprise <==>
              || Mentions(v, "8021x") || Mentions(v, "wpa-eap")
              || Mentions(v, "wpa2-eap") || Mentions(v, "wpa3-eap")
  {
    TrimPadded(front, v, back);
    ContainsIffMentions(v, "8021x");
    ContainsIffMentions(v, "wpa-eap");
    ContainsIffMentions(v, "wpa2-eap");
    ContainsIffMentions(v, "wpa3-eap");
    if v == "" || Lower(v) == "none" {
      NoneMentions(v, "8021x");
      NoneMentions(v, "wpa-eap");
      NoneMentions(v, "wpa2-eap");
      NoneMentions(v, "wpa3-eap");
    }
  }

  lemma NoneMentions(v: string, word: string)
    requires |v| <= 4 && |word| > 4
    ensures !Mentions(v, word)
  {
  }

  // An order in which the sections of a config can be visited: each once.
  ghost predicate IsOrder(order: seq<string>, cfg: Config) {
    && (forall name :: name in cfg <==> name in order)
    && (forall i, j :: 0 <= i < j < |order| ==> order[i] != order[j])
  }

  ghost function Stations(cfg: Config, order: seq<string>): seq<Iface>
    requires forall name :: name in order ==> name in cfg
  {
    if order == [] then []
    else (if IsStation(cfg[order[0]]) then [ToIface(order[0], cfg[order[0]])] else []) + Stations(cfg, order[1..])
  }

  lemma {:induction false} StationsMeaning(cfg: Config, order: seq<string>)
    requires forall name :: name in order ==> name in cfg
    ensures forall w :: w in Stations(cfg, order) ==>
              w.section in order && IsStation(cfg[w.section]) && w == ToIface(w.section, cfg[w.section])
    ensures forall name :: name in order && IsStation(cfg[name]) ==> ToIface(name, cfg[name]) in Stations(cfg, order)
  {
    if order != [] {
      StationsMeaning(cfg, order[1..]);
    }
  }

  lemma StationsNext(cfg: Config, order: seq<string>, i: nat)
    requires (forall name :: name in order ==> name in cfg) && i < |order|
    ensures Stations(cfg, order[i..])
            == (if IsStation(cfg[order[i]]) then [ToIface(order[i], cfg[order[i]])] else [])
               + Stations(cfg, order[i + 1..])
  {
    assert order[i..][1..] == order[i + 1..];
  }

  lemma Reassociate(a: seq<Iface>, b: seq<Iface>, c: seq<Iface>)
    ensures a + (b + c) == a + b + c
    ensures b == [] ==> a + (b + c) == a + c
  {
  }

  method StaIfaces(cfg: Config, order: seq<string>) returns (out: seq<Iface>)
    requires IsOrder(order, cfg)
    ensures out == Stations(cfg, order)
  {
    out := [];
    for i := 0 to |order|
      invariant Stations(cfg, order) == out + Stations(cfg, order[i..])
    {
      StationsNext(cfg, order, i);
      var w := ToIface(order[i], cfg[order[i]]);
      if cfg[order[i]].typ == "wifi-iface" && Lower(w.mode) == "sta" {
        Reassociate(out, [w], Stations(cfg, order[i + 1..]));
        out := out + [w];
      } else {
        Reassociate(out, [], Stations(cfg, order[i + 1..]));
      }
    }
  }
}

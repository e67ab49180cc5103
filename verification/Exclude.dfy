// Hiding interfaces: a wrapper that makes a backend look as if the interfaces matched
// by a list of rules were absent.
module Exclude {
  import opened Text
  import opened Wnet

  datatype Interface = Interface(name: string, mac: string, pci: string)

  datatype Active = Active(id: string, iface: string, ssid: string)

  // ---- rules ------------------------------------------------------------------------------

  datatype Rule = Rule(name: string, mac: string, pci: string)

  predicate IsEmpty(r: Rule) {
    r.name == "" && r.mac == "" && r.pci == ""
  }

  function MacDigit(c: char): Option<char> {
    if '0' <= c <= '9' || 'a' <= c <= 'f' then Some(c)
    else if 'A' <= c <= 'F' then Some((c as int + 32) as char)
    else None
  }

  ghost function NormalMac(s: string): string {
    FilterMap(MacDigit, s)
  }

  method NormalizeMac(s: string) returns (b: string)
    ensures b == NormalMac(s)
  {
    b := "";
    for i := 0 to |s|
      invariant b == NormalMac(s[..i])
    {
      FilterMapNext(MacDigit, s, i);
      var r := s[i];
      if '0' <= r <= '9' || 'a' <= r <= 'f' {
        b := b + [r];
      } else if 'A' <= r <= 'F' {
        b := b + [(r as int + 32) as char];
      }
    }
    assert s[..|s|] == s;
  }

  predicate IsLowerHex(c: char) {
    '0' <= c <= '9' || 'a' <= c <= 'f'
  }

  predicate IsHex(c: char) {
    IsLowerHex(c) || 'A' <= c <= 'F'
  }

  // The text is one way to write an address with these digits: its hexadecimal digits, in
  // either case, are those, in order, and anything else may stand between them.
  ghost predicate Writes(text: string, digits: string) {
    if text == "" then digits == ""
    else if IsHex(text[0]) then
      digits != "" && IsLowerHex(digits[0]) && digits[0] == LowerChar(text[0]) && Writes(text[1..], digits[1..])
    else Writes(text[1..], digits)
  }

  lemma NormalMacCons(text: string)
    requires text != ""
    ensures NormalMac(text) == (if IsHex(text[0]) then [LowerChar(text[0])] else []) + NormalMac(text[1..])
  {
    assert text == [text[0]] + text[1..];
    FilterMapAppend(MacDigit, [text[0]], text[1..]);
    FilterMapOne(MacDigit, text[0]);
  }

  // A text has one normal form: the digits that it writes.
  lemma {:induction false} WritesIff(text: string, digits: string)
    ensures Writes(text, digits) <==> NormalMac(text) == digits
  {
    if text != "" {
      NormalMacCons(text);
      if IsHex(text[0]) {
        if digits != "" {
          WritesIff(text[1..], digits[1..]);
          assert digits == [digits[0]] + digits[1..];
        }
      } else {
        WritesIff(text[1..], digits);
      }
    }
  }

  lemma {:induction false} NormalMacShape(s: string)
    ensures forall c :: c in NormalMac(s) ==> IsLowerHex(c)
  {
    if s != "" {
      NormalMacCons(s);
      NormalMacShape(s[1..]);
    }
  }

  // Which addresses are in normal form already.
  lemma NormalMacIff(s: string)
    ensures NormalMac(s) == s <==> forall c :: c in s ==> IsLowerHex(c)
  {
    FilterMapIff(MacDigit, s);
    if forall c :: c in s ==> IsLowerHex(c) {
      assert forall i :: 0 <= i < |s| ==> s[i] in s;
    }
    if NormalMac(s) == s {
      NormalMacShape(s);
    }
  }

  // Neither case nor separators matter.
  lemma {:induction false} NormalMacOfLower(s: string)
    ensures NormalMac(Lower(s)) == NormalMac(s)
  {
    if s != "" {
      NormalMacCons(s);
      NormalMacCons(Lower(s));
      assert Lower(s)[1..] == Lower(s[1..]);
      NormalMacOfLower(s[1..]);
    }
  }

  lemma {:induction false} OnlySeparators(sep: string)
    requires forall c :: c in sep ==> !IsHex(c)
    ensures NormalMac(sep) == ""
  {
    if sep != "" {
      NormalMacCons(sep);
      OnlySeparators(sep[1..]);
    }
  }

  lemma SeparatorsAreDropped(a: string, sep: string, b: string)
    requires forall c :: c in sep ==> !IsHex(c)
    ensures NormalMac(a + sep + b) == NormalMac(a + b)
  {
    OnlySeparators(sep);
    FilterMapAppend(MacDigit, a + sep, b);
    FilterMapAppend(MacDigit, a, sep);
    FilterMapAppend(MacDigit, a, b);
  }

  // A rule that validation lets through.
  ghost predicate IsValid(r: Rule) {
    !IsEmpty(r) && (r.mac != "" ==> |NormalMac(r.mac)| == 12)
  }

  // An address without its domain matches the tail of a full one.
  predicate PciMatch(rule: string, actual: string) {
    var r, a := Lower(Trim(rule)), Lower(actual);
    actual != "" && (r == a || HasSuffix(a, ":" + r))
  }

  lemma {:induction false} LowerAppend(a: string, b: string)
    ensures Lower(a + b) == Lower(a) + Lower(b)
  {
  }

  // The address is a longer one that ends in what the rule spells, after a colon.
  ghost predicate IsUnderDomain(actual: string, rule: string) {
    exists domain, tail :: actual == domain + ":" + tail && Lower(tail) == Lower(Trim(rule))
  }

  lemma UnderDomain(rule: string, actual: string)
    requires HasSuffix(Lower(actual), ":" + Lower(Trim(rule)))
    ensures IsUnderDomain(actual, rule)
  {
    var r := Lower(Trim(rule));
    var cut := |actual| - |r| - 1;
    var domain, tail := actual[..cut], actual[cut + 1..];
    assert Lower(actual)[cut..] == ":" + r;
    assert Lower(actual)[cut] == (":" + r)[0] && actual[cut] == ':';
    assert Lower(tail) == Lower(actual)[cut..][1..];
    assert (":" + r)[1..] == r;
    assert actual == domain + ":" + tail;
  }

  lemma PciDomain(domain: string, tail: string, rule: string)
    requires Lower(tail) == Lower(Trim(rule))
    ensures HasSuffix(Lower(domain + ":" + tail), ":" + Lower(Trim(rule)))
  {
    LowerAppend(domain + ":", tail);
    LowerAppend(domain, ":");
    assert Lower(":") == ":";
    assert Lower(domain + ":" + tail) == Lower(domain) + (":" + Lower(tail));
  }

  // A rule matches the address it spells, in either case, and every address that has
  // something and a colon in front of that; it matches nothing else.
  lemma PciMatchIff(rule: string, actual: string)
    ensures PciMatch(rule, actual) <==>
              actual != "" && (Lower(actual) == Lower(Trim(rule)) || IsUnderDomain(actual, rule))
  {
    if HasSuffix(Lower(actual), ":" + Lower(Trim(rule))) {
      UnderDomain(rule, actual);
    }
    if IsUnderDomain(actual, rule) {
      var domain, tail :| actual == domain + ":" + tail && Lower(tail) == Lower(Trim(rule));
      PciDomain(domain, tail, rule);
    }
  }

  // So in front of it there may be a domain, but not more of the bus number.
  lemma PciBoundaryIff(front: string, tail: string, rule: string)
    requires Lower(tail) == Lower(Trim(rule)) && front != ""
    ensures PciMatch(rule, front + tail) <==> front[|front| - 1] == ':'
  {
    var a, r, cut := Lower(front + tail), Lower(Trim(rule)), |front| - 1;
    LowerAppend(front, tail);
    assert a == Lower(front) + r;
    assert a[cut] == LowerChar(front[cut]);
    assert a[cut..] == [a[cut]] + r;
    assert (":" + r)[0] == ':';
  }

  // A rule matches an interface that satisfies every field it sets; the empty rule
  // matches nothing. The interface's mac is given in normal form.
  ghost predicate RuleMatches(r: Rule, name: string, mac: string, pci: string) {
    && !IsEmpty(r)
    && (r.name != "" ==> r.name == name)
    && (r.mac != "" ==> NormalMac(r.mac) == mac)
    && (r.pci != "" ==> PciMatch(r.pci, pci))
  }

  method Matches(r: Rule, name: string, mac: string, pci: string) returns (matched: bool)
    ensures matched <==> RuleMatches(r, name, mac, pci)
  {
    matched := false;
    if r.name != "" {
      if r.name != name {
        return false;
      }
      matched := true;
    }
    if r.mac != "" {
      var m := NormalizeMac(r.mac);
      if m != mac {
        return false;
      }
      matched := true;
    }
    if r.pci != "" {
      if !PciMatch(r.pci, pci) {
        return false;
      }
      matched := true;
    }
  }

  // A rule on the hardware address alone matches exactly the interfaces whose address has
  // the same digits, however the two are written.
  lemma MacRuleMatchesIff(mac: string, it: Interface)
    requires mac != ""
    ensures IsExcluded([Rule("", mac, "")], it) <==> exists d :: Writes(mac, d) && Writes(it.mac, d)
  {
    var r := Rule("", mac, "");
    assert r in [r];
    WritesIff(mac, NormalMac(mac));
    WritesIff(it.mac, NormalMac(it.mac));
    if d :| Writes(mac, d) && Writes(it.mac, d) {
      WritesIff(mac, d);
      WritesIff(it.mac, d);
      assert RuleMatches(r, it.name, NormalMac(it.mac), it.pci);
    }
    if IsExcluded([r], it) {
      assert NormalMac(mac) == NormalMac(it.mac);
    }
  }

  // ---- rule sets ------------------------------------------------------------------------------

  datatype RuleSet = RuleSet(rules: seq<Rule>, needMac: bool, needPci: bool)

  ghost predicate IsCompiled(s: RuleSet, rules: seq<Rule>) {
    && (forall r :: r in s.rules <==> r in rules && !IsEmpty(r))
    && (s.needMac <==> exists r :: r in s.rules && r.mac != "")
    && (s.needPci <==> exists r :: r in s.rules && r.pci != "")
  }

  method NewExcludeSet(rules: seq<Rule>) returns (s: RuleSet)
    ensures IsCompiled(s, rules)
  {
    s := RuleSet([], false, false);
    for i := 0 to |rules|
      invariant IsCompiled(s, rules[..i])
    {
      var r := rules[i];
      assert rules[..i + 1] == rules[..i] + [r];
      if IsEmpty(r) {
        continue;
      }
      ghost var before := s.rules;
      s := RuleSet(s.rules + [r], s.needMac || r.mac != "", s.needPci || r.pci != "");
      assert forall x :: x in s.rules <==> x in before || x == r;
    }
    assert rules[..|rules|] == rules;
  }

  ghost predicate SetMatches(rules: seq<Rule>, name: string, mac: string, pci: string) {
    exists r :: r in rules && RuleMatches(r, name, NormalMac(mac), pci)
  }

  method Match(s: RuleSet, name: string, mac: string, pci: string) returns (matched: bool)
    ensures matched <==> SetMatches(s.rules, name, mac, pci)
  {
    var m := NormalizeMac(mac);
    for i := 0 to |s.rules|
      invariant forall j :: 0 <= j < i ==> !RuleMatches(s.rules[j], name, m, pci)
    {
      var hit := Matches(s.rules[i], name, m, pci);
      if hit {
        assert s.rules[i] in s.rules;
        return true;
      }
    }
    return false;
  }

  ghost predicate IsExcluded(rules: seq<Rule>, it: Interface) {
    SetMatches(rules, it.name, it.mac, it.pci)
  }

  // ---- what a list of rules hides -----------------------------------------------------------------

  // A rule on the name alone hides the interface of exactly that name, one on the PCI
  // address alone those whose address matches.
  lemma SingleRuleIff(value: string, it: Interface)
    requires value != ""
    ensures IsExcluded([Rule(value, "", "")], it) <==> it.name == value
    ensures IsExcluded([Rule("", "", value)], it) <==> PciMatch(value, it.pci)
  {
    var n, p := Rule(value, "", ""), Rule("", "", value);
    assert n in [n] && p in [p];
    assert RuleMatches(n, it.name, NormalMac(it.mac), it.pci) <==> it.name == value;
    assert RuleMatches(p, it.name, NormalMac(it.mac), it.pci) <==> PciMatch(value, it.pci);
  }

  // The fields of a rule must all agree, so a rule hides what each of its fields would
  // hide on its own; a rule without fields hides nothing.
  lemma FieldsAreJoined(r: Rule, it: Interface)
    ensures IsExcluded([r], it) <==>
              && !IsEmpty(r)
              && (r.name != "" ==> IsExcluded([Rule(r.name, "", "")], it))
              && (r.mac != "" ==> IsExcluded([Rule("", r.mac, "")], it))
              && (r.pci != "" ==> IsExcluded([Rule("", "", r.pci)], it))
  {
    OneRule(r, it);
    OneRule(Rule(r.name, "", ""), it);
    OneRule(Rule("", r.mac, ""), it);
    OneRule(Rule("", "", r.pci), it);
  }

  lemma OneRule(r: Rule, it: Interface)
    ensures IsExcluded([r], it) <==> RuleMatches(r, it.name, NormalMac(it.mac), it.pci)
  {
    assert r in [r];
  }

  // A list of rules hides what any one of them would hide.
  lemma RulesAreAlternatives(rules: seq<Rule>, it: Interface)
    ensures IsExcluded(rules, it) <==> exists r :: r in rules && IsExcluded([r], it)
  {
    forall r
      ensures IsExcluded([r], it) <==> RuleMatches(r, it.name, NormalMac(it.mac), it.pci)
    {
      OneRule(r, it);
    }
  }

  // ---- the name shortcut ------------------------------------------------------------------------

  // Whether a rule that matches a bare name also matches every interface of that name.
  ghost predicate IsShortcutSound(r: Rule) {
    forall name, mac, pci :: RuleMatches(r, name, "", "") ==> RuleMatches(r, name, NormalMac(mac), pci)
  }

  lemma ShortcutSoundIff(r: Rule)
    ensures IsShortcutSound(r) <==> !(r.pci == "" && r.mac != "" && NormalMac(r.mac) == "")
  {
    if r.pci == "" && r.mac != "" && NormalMac(r.mac) == "" {
      assert RuleMatches(r, r.name, "", "");
      NormalMacIff("a");
      assert !RuleMatches(r, r.name, NormalMac("a"), "");
    }
  }

  lemma ValidRuleShortcut(r: Rule, name: string, mac: string, pci: string)
    requires IsValid(r) && RuleMatches(r, name, "", "")
    ensures r.mac == "" && r.pci == "" && RuleMatches(r, name, NormalMac(mac), pci)
  {
  }

  ghost predicate AreValid(rules: seq<Rule>) {
    forall r :: r in rules ==> IsValid(r)
  }

  // Matching the name alone never claims more than a full match does.
  lemma ShortcutImpliesFull(rules: seq<Rule>, it: Interface)
    requires AreValid(rules) && SetMatches(rules, it.name, "", "")
    ensures IsExcluded(rules, it)
  {
    var r :| r in rules && RuleMatches(r, it.name, NormalMac(""), "");
    ValidRuleShortcut(r, it.name, it.mac, it.pci);
  }

  // Without rules on other attributes the name alone decides.
  lemma NameDecides(rules: seq<Rule>, it: Interface)
    requires forall r :: r in rules ==> r.mac == "" && r.pci == ""
    ensures IsExcluded(rules, it) ==> SetMatches(rules, it.name, "", "")
  {
    if IsExcluded(rules, it) {
      var r :| r in rules && RuleMatches(r, it.name, NormalMac(it.mac), it.pci);
      assert RuleMatches(r, it.name, NormalMac(""), "");
    }
  }

  // ---- the wrapped backend -----------------------------------------------------------------------

  // What a backend answers: its listings and its lookups by name and by id. Looking up
  // a name in failing ends in an error, whether there is such an interface or not.
  datatype Backend = Backend(listing: seq<Interface>, lookup: map<string, Interface>, failing: set<string>,
                             connections: seq<Active>, connection: map<string, Active>)

  ghost predicate Agrees(b: Backend) {
    && (forall n :: n in b.lookup ==> b.lookup[n].name == n)
    && (forall it :: it in b.listing ==> it.name in b.lookup && b.lookup[it.name] == it)
  }

  // A name is hidden if its interface is excluded, or, should there be no such
  // interface, if a rule for the bare name applies.
  ghost predicate IsHidden(b: Backend, rules: seq<Rule>, name: string) {
    && name != ""
    && if name in b.lookup then IsExcluded(rules, b.lookup[name]) else SetMatches(rules, name, "", "")
  }

  // What the guard can tell: without the interface, only rules for bare names apply.
  ghost predicate IsGuarded(b: Backend, rules: seq<Rule>, name: string) {
    && name != ""
    && if name in b.lookup && name !in b.failing
       then IsExcluded(rules, b.lookup[name])
       else SetMatches(rules, name, "", "")
  }

  // A name that the guard lets through although its interface is excluded.
  ghost predicate SlipsThrough(b: Backend, rules: seq<Rule>, name: string) {
    && name != "" && name in b.failing && name in b.lookup
    && IsExcluded(rules, b.lookup[name]) && !SetMatches(rules, name, "", "")
  }

  // The guard reaches the verdict of a full match exactly unless the lookup of an
  // interface fails that is excluded by more than its name.
  lemma GuardIsFullIff(b: Backend, rules: seq<Rule>, name: string)
    requires Agrees(b) && AreValid(rules)
    ensures (IsGuarded(b, rules, name) <==> IsHidden(b, rules, name)) <==> !SlipsThrough(b, rules, name)
    ensures IsGuarded(b, rules, name) ==> IsHidden(b, rules, name)
  {
    if name in b.lookup && SetMatches(rules, name, "", "") {
      ShortcutImpliesFull(rules, b.lookup[name]);
    }
  }

  // This happens to every interface that a rule on its address excludes.
  lemma SlipHappens(it: Interface, r: Rule)
    requires IsValid(r) && (r.mac != "" || r.pci != "")
    requires it.name != "" && RuleMatches(r, it.name, NormalMac(it.mac), it.pci)
    ensures SlipsThrough(Backend([it], map[it.name := it], {it.name}, [], map[]), [r], it.name)
  {
    if SetMatches([r], it.name, "", "") {
      ValidRuleShortcut(r, it.name, "", "");
    }
    assert r in [r];
  }

  ghost function VisibleInterfaces(rules: seq<Rule>, its: seq<Interface>): seq<Interface> {
    if its == [] then []
    else
      var init, last := its[..|its| - 1], its[|its| - 1];
      if IsExcluded(rules, last) then VisibleInterfaces(rules, init) else VisibleInterfaces(rules, init) + [last]
  }

  ghost function VisibleConnections(b: Backend, rules: seq<Rule>, cs: seq<Active>): seq<Active> {
    if cs == [] then []
    else
      var init, last := cs[..|cs| - 1], cs[|cs| - 1];
      if IsHidden(b, rules, last.iface) then VisibleConnections(b, rules, init)
      else VisibleConnections(b, rules, init) + [last]
  }

  // The connections that the guard lets through.
  ghost function ShownConnections(b: Backend, rules: seq<Rule>, cs: seq<Active>): seq<Active> {
    if cs == [] then []
    else
      var init, last := cs[..|cs| - 1], cs[|cs| - 1];
      if IsGuarded(b, rules, last.iface) then ShownConnections(b, rules, init)
      else ShownConnections(b, rules, init) + [last]
  }

  // The backend as it would be without the excluded interfaces and what runs on them.
  ghost function Removed(b: Backend, rules: seq<Rule>): Backend {
    Backend(VisibleInterfaces(rules, b.listing),
            map n | n in b.lookup && !IsExcluded(rules, b.lookup[n]) :: b.lookup[n],
            b.failing,
            VisibleConnections(b, rules, b.connections),
            map c | c in b.connection && !IsHidden(b, rules, b.connection[c].iface) :: b.connection[c])
  }

  function Answer<T>(m: map<string, T>, k: string): Result<T> {
    if k in m then Ok(m[k]) else Err(NotFound)
  }

  lemma {:induction false} ShownAreVisible(b: Backend, rules: seq<Rule>, cs: seq<Active>)
    requires Agrees(b) && AreValid(rules)
    ensures |VisibleConnections(b, rules, cs)| <= |ShownConnections(b, rules, cs)|
    ensures (forall c :: c in cs ==> !SlipsThrough(b, rules, c.iface)) ==>
              ShownConnections(b, rules, cs) == VisibleConnections(b, rules, cs)
    ensures (exists c :: c in cs && SlipsThrough(b, rules, c.iface)) ==>
              |VisibleConnections(b, rules, cs)| < |ShownConnections(b, rules, cs)|
  {
    if cs != [] {
      var init, last := cs[..|cs| - 1], cs[|cs| - 1];
      assert cs == init + [last];
      ShownAreVisible(b, rules, init);
      GuardIsFullIff(b, rules, last.iface);
    }
  }

  // The guard shows the connections of the filtered backend exactly if none of them
  // slips through.
  lemma ShownAreVisibleIff(b: Backend, rules: seq<Rule>, cs: seq<Active>)
    requires Agrees(b) && AreValid(rules)
    ensures ShownConnections(b, rules, cs) == VisibleConnections(b, rules, cs)
            <==> forall c :: c in cs ==> !SlipsThrough(b, rules, c.iface)
  {
    ShownAreVisible(b, rules, cs);
  }

  class Filtered {
    const b: Backend
    const ex: RuleSet

    ghost predicate Valid() {
      Agrees(b) && AreValid(ex.rules) && IsCompiled(ex, ex.rules)
    }

    constructor (b: Backend, rules: seq<Rule>)
      requires Agrees(b) && AreValid(rules)
      ensures this.b == b && Valid() && forall r :: r in ex.rules <==> r in rules
    {
      var s := NewExcludeSet(rules);
      this.b, this.ex := b, s;
    }

    method ExcludedIface(it: Interface) returns (r: bool)
      ensures r <==> IsExcluded(ex.rules, it)
    {
      r := Match(ex, it.name, it.mac, it.pci);
    }

    // Two stages: the name alone, then the resolved interface, if it can be resolved.
    method ExcludedName(name: string) returns (r: bool)
      requires Valid()
      ensures r <==> IsGuarded(b, ex.rules, name)
      ensures (r <==> IsHidden(b, ex.rules, name)) <==> !SlipsThrough(b, ex.rules, name)
    {
      GuardIsFullIff(b, ex.rules, name);
      if name == "" || |ex.rules| == 0 {
        return false;
      }
      r := Match(ex, name, "", "");
      if r {
        if name in b.lookup {
          ShortcutImpliesFull(ex.rules, b.lookup[name]);
        }
        return true;
      }
      if !ex.needMac && !ex.needPci {
        if name in b.lookup {
          NameDecides(ex.rules, b.lookup[name]);
        }
        return false;
      }
      if name in b.failing || name !in b.lookup {
        return false;
      }
      r := ExcludedIface(b.lookup[name]);
    }

    method Interfaces() returns (out: seq<Interface>)
      ensures out == Removed(b, ex.rules).listing
    {
      out := [];
      for i := 0 to |b.listing|
        invariant out == VisibleInterfaces(ex.rules, b.listing[..i])
      {
        assert b.listing[..i + 1][..i] == b.listing[..i];
        var excluded := ExcludedIface(b.listing[i]);
        if excluded {
          continue;
        }
        out := out + [b.listing[i]];
      }
      assert b.listing[..|b.listing|] == b.listing;
    }

    method Interface(name: string) returns (r: Result<Interface>)
      requires Valid()
      ensures r == if name in b.failing then (if SetMatches(ex.rules, name, "", "") then Err(NotFound) else Err(Remote))
                   else Answer(Removed(b, ex.rules).lookup, name)
    {
      var byName := Match(ex, name, "", "");
      if byName {
        if name in b.lookup {
          ShortcutImpliesFull(ex.rules, b.lookup[name]);
        }
        return Err(NotFound);
      }
      if name in b.failing {
        return Err(Remote);
      }
      if name !in b.lookup {
        return Err(NotFound);
      }
      var excluded := ExcludedIface(b.lookup[name]);
      return if excluded then Err(NotFound) else Ok(b.lookup[name]);
    }

    method Connections() returns (out: seq<Active>)
      requires Valid()
      ensures out == ShownConnections(b, ex.rules, b.connections)
      ensures out == Removed(b, ex.rules).connections <==>
                forall c :: c in b.connections ==> !SlipsThrough(b, ex.rules, c.iface)
    {
      ShownAreVisibleIff(b, ex.rules, b.connections);
      out := [];
      for i := 0 to |b.connections|
        invariant out == ShownConnections(b, ex.rules, b.connections[..i])
      {
        assert b.connections[..i + 1][..i] == b.connections[..i];
        var excluded := ExcludedName(b.connections[i].iface);
        if excluded {
          continue;
        }
        out := out + [b.connections[i]];
      }
      assert b.connections[..|b.connections|] == b.connections;
    }

    method Connection(id: string) returns (r: Result<Active>)
      requires Valid()
      ensures r == if id in b.connection && !IsGuarded(b, ex.rules, b.connection[id].iface)
                   then Ok(b.connection[id]) else Err(NotFound)
      ensures r == Answer(Removed(b, ex.rules).connection, id) <==>
                !(id in b.connection && SlipsThrough(b, ex.rules, b.connection[id].iface))
    {
      if id !in b.connection {
        return Err(NotFound);
      }
      var excluded := ExcludedName(b.connection[id].iface);
      return if excluded then Err(NotFound) else Ok(b.connection[id]);
    }

    // The guard in front of scan, power and activation on a named interface.
    method Admit(name: string) returns (r: Result<()>)
      requires Valid()
      ensures r == if IsGuarded(b, ex.rules, name) then Err(NotFound) else Ok(())
    {
      var excluded := ExcludedName(name);
      return if excluded then Err(NotFound) else Ok(());
    }

    // The guard in front of status, watch and deactivation of a connection.
    method VisibleConnection(id: string) returns (r: Result<()>)
      requires Valid()
      ensures r ==
              if id in b.connection && !IsGuarded(b, ex.rules, b.connection[id].iface)
              then Ok(()) else Err(NotFound)
    {
      var c := Connection(id);
      return if c.Ok? then Ok(()) else Err(NotFound);
    }
  }

  // ---- the filtered view is consistent --------------------------------------------------------------

  lemma {:induction false} VisibleInterfacesMeaning(rules: seq<Rule>, its: seq<Interface>)
    ensures forall it :: it in VisibleInterfaces(rules, its) <==> it in its && !IsExcluded(rules, it)
  {
    if its != [] {
      var init, last := its[..|its| - 1], its[|its| - 1];
      assert its == init + [last];
      VisibleInterfacesMeaning(rules, init);
    }
  }

  // The filtered backend is again one whose lookups agree with its listing, and it
  // shows exactly the interfaces that no rule matches.
  lemma RemovedAgrees(b: Backend, rules: seq<Rule>)
    requires Agrees(b)
    ensures Agrees(Removed(b, rules))
    ensures forall it :: it in Removed(b, rules).listing <==> it in b.listing && !IsExcluded(rules, it)
  {
    VisibleInterfacesMeaning(rules, b.listing);
  }

  lemma {:induction false} VisibleConnectionsMeaning(b: Backend, rules: seq<Rule>, cs: seq<Active>)
    ensures forall c :: c in VisibleConnections(b, rules, cs) <==> c in cs && !IsHidden(b, rules, c.iface)
  {
    if cs != [] {
      var init, last := cs[..|cs| - 1], cs[|cs| - 1];
      assert cs == init + [last];
      VisibleConnectionsMeaning(b, rules, init);
    }
  }

  // No visible connection is bound to an interface that has been hidden.
  lemma NoConnectionOnHiddenInterface(b: Backend, rules: seq<Rule>, c: Active)
    requires Agrees(b) && c in Removed(b, rules).connections && c.iface != "" && c.iface in b.lookup
    ensures c.iface in Removed(b, rules).lookup
  {
    VisibleConnectionsMeaning(b, rules, b.connections);
  }

  // A name is hidden in the filtered backend only if it already was.
  lemma HiddenStaysHidden(b: Backend, rules: seq<Rule>, name: string)
    ensures IsHidden(Removed(b, rules), rules, name) ==>
              IsHidden(b, rules, name) || (name in b.lookup && IsExcluded(rules, b.lookup[name]))
  {
  }

  // Hiding twice is hiding once.
  lemma RemovedTwice(b: Backend, rules: seq<Rule>)
    ensures Removed(Removed(b, rules), rules) == Removed(b, rules)
  {
    var r := Removed(b, rules);
    VisibleInterfacesMeaning(rules, b.listing);
    AllVisible(rules, r.listing);
    VisibleConnectionsMeaning(b, rules, b.connections);
    forall c | c in r.connections
      ensures !IsHidden(r, rules, c.iface)
    {
      HiddenStaysHidden(b, rules, c.iface);
    }
    AllUnhidden(r, rules, r.connections);
    assert Removed(r, rules).lookup == r.lookup;
    assert Removed(r, rules).connection == r.connection;
  }

  lemma {:induction false} AllUnhidden(b: Backend, rules: seq<Rule>, cs: seq<Active>)
    requires forall c :: c in cs ==> !IsHidden(b, rules, c.iface)
    ensures VisibleConnections(b, rules, cs) == cs
  {
    if cs != [] {
      var init, last := cs[..|cs| - 1], cs[|cs| - 1];
      assert cs == init + [last];
      AllUnhidden(b, rules, init);
    }
  }

  lemma {:induction false} AllVisible(rules: seq<Rule>, its: seq<Interface>)
    requires forall it :: it in its ==> !IsExcluded(rules, it)
    ensures VisibleInterfaces(rules, its) == its
  {
    if its != [] {
      var init, last := its[..|its| - 1], its[|its| - 1];
      assert its == init + [last];
      AllVisible(rules, init);
    }
  }
}

// Names of iwd provisioning files: <encoded ssid>.<type>.
module IwdFilename {
  import opened Text
  import opened Wnet

  // Every Go string is a sequence of bytes; hexadecimal coding depends on it.
  predicate IsBytes(s: string) {
    forall i :: 0 <= i < |s| ==> s[i] as int < 256
  }

  // ---- base16 (section 8 of RFC 4648, lower case) -----------------------------

  function HexDigit(n: nat): (c: char)
    requires n < 16
  {
    if n < 10 then ('0' as int + n) as char else ('a' as int + n - 10) as char
  }

  function HexValue(c: char): (r: Option<nat>)
    ensures r.Some? ==> r.value < 16
  {
    if '0' <= c <= '9' then Some(c as int - '0' as int)
    else if 'a' <= c <= 'f' then Some(c as int - 'a' as int + 10)
    else if 'A' <= c <= 'F' then Some(c as int - 'A' as int + 10)
    else None
  }

  function HexEncode(s: string): string
    requires IsBytes(s)
  {
    if s == "" then ""
    else [HexDigit(s[0] as int / 16), HexDigit(s[0] as int % 16)] + HexEncode(s[1..])
  }

  function HexDecode(t: string): (r: Option<string>)
    ensures r.Some? ==> IsBytes(r.value)
  {
    if t == "" then Some("")
    else if |t| == 1 then None
    else match (HexValue(t[0]), HexValue(t[1]), HexDecode(t[2..]))
      case (Some(hi), Some(lo), Some(rest)) => Some([(16 * hi + lo) as char] + rest)
      case _ => None
  }

  predicate IsLowerHex(t: string) {
    forall i :: 0 <= i < |t| ==> '0' <= t[i] <= '9' || 'a' <= t[i] <= 'f'
  }

  lemma {:induction false} HexRoundTrip(s: string)
    requires IsBytes(s)
    ensures HexDecode(HexEncode(s)) == Some(s)
    ensures IsLowerHex(HexEncode(s))
  {
    if s != "" {
      HexRoundTrip(s[1..]);
      var t := HexEncode(s);
      assert t[2..] == HexEncode(s[1..]);
      assert [s[0]] + s[1..] == s;
      assert forall i :: 2 <= i < |t| ==> t[i] == HexEncode(s[1..])[i - 2];
    }
  }

  lemma HexDigitValue(c: char)
    requires HexValue(c).Some?
    ensures HexDigit(HexValue(c).value) == c <==> IsLowerHex([c])
  {
    assert IsLowerHex([c]) <==> ('0' <= [c][0] <= '9' || 'a' <= [c][0] <= 'f');
  }

  lemma LowerHexSplit(t: string)
    requires |t| >= 2
    ensures IsLowerHex(t) <==> IsLowerHex([t[0]]) && IsLowerHex([t[1]]) && IsLowerHex(t[2..])
  {
    assert forall i :: 2 <= i < |t| ==> t[i] == t[2..][i - 2];
    if IsLowerHex([t[0]]) && IsLowerHex([t[1]]) && IsLowerHex(t[2..]) {
      assert [t[0]][0] == t[0] && [t[1]][0] == t[1];
    }
  }

  lemma HexByte(hi: nat, lo: nat)
    requires hi < 16 && lo < 16
    ensures (16 * hi + lo) / 16 == hi && (16 * hi + lo) % 16 == lo
  {
  }

  // Decoding forgets only the case of the digits.
  lemma {:induction false} HexReencode(t: string)
    requires HexDecode(t).Some?
    ensures HexEncode(HexDecode(t).value) == t <==> IsLowerHex(t)
  {
    if t != "" {
      HexReencode(t[2..]);
      LowerHexSplit(t);
      HexDigitValue(t[0]);
      HexDigitValue(t[1]);
      var hi, lo, rest := HexValue(t[0]).value, HexValue(t[1]).value, HexDecode(t[2..]).value;
      HexByte(hi, lo);
      var s := [(16 * hi + lo) as char] + rest;
      assert HexDecode(t) == Some(s) && s[1..] == rest;
      var e := [HexDigit(hi), HexDigit(lo)] + HexEncode(rest);
      assert HexEncode(s) == e;
      assert t == [t[0], t[1]] + t[2..];
      assert e[2..] == HexEncode(rest);
    }
  }

  // ---- the filename codec -------------------------------------------------------

  predicate IsSimpleChar(c: char) {
    'A' <= c <= 'Z' || 'a' <= c <= 'z' || '0' <= c <= '9' || c == ' ' || c == '_' || c == '-'
  }

  ghost predicate IsSimple(s: string) {
    s != "" && forall i :: 0 <= i < |s| ==> IsSimpleChar(s[i])
  }

  method SimpleSSID(s: string) returns (simple: bool)
    ensures simple <==> IsSimple(s)
  {
    if s == "" {
      return false;
    }
    for i := 0 to |s|
      invariant forall j :: 0 <= j < i ==> IsSimpleChar(s[j])
    {
      if !IsSimpleChar(s[i]) {
        return false;
      }
    }
    return true;
  }

  ghost function EncodeSSID(ssid: string): string
    requires IsBytes(ssid)
  {
    if IsSimple(ssid) then ssid else "=" + HexEncode(ssid)
  }

  function DecodeSSID(stem: string): Option<string> {
    if stem != "" && stem[0] == '=' then HexDecode(stem[1..]) else Some(stem)
  }

  predicate IsType(typ: string) {
    typ == "open" || typ == "psk" || typ == "8021x"
  }

  // An iwd network: what a provisioning file is about.
  datatype Network = Network(ssid: string, typ: string)

  ghost predicate IsNetwork(n: Network) {
    IsBytes(n.ssid) && IsType(n.typ)
  }

  ghost function Filename(n: Network): string
    requires IsNetwork(n)
  {
    EncodeSSID(n.ssid) + "." + n.typ
  }

  method ProfileFilename(ssid: string, typ: string) returns (name: string)
    requires IsNetwork(Network(ssid, typ))
    ensures name == Filename(Network(ssid, typ))
  {
    var simple := SimpleSSID(ssid);
    var stem := if simple then ssid else "=" + HexEncode(ssid);
    return stem + "." + typ;
  }

  function ParseFilename(name: string): (r: Option<Network>) {
    var i := LastIndexByte(name, '.');
    if i < 0 then None
    else
      var typ := name[i + 1..];
      if !IsType(typ) then None
      else match DecodeSSID(name[..i])
        case Some(ssid) => Some(Network(ssid, typ))
        case None => None
  }

  predicate IsPlainSsid(ssid: string) {
    && ssid != ""
    && forall c :: c in ssid ==>
         'a' <= c <= 'z' || 'A' <= c <= 'Z' || '0' <= c <= '9' || c == ' ' || c == '_' || c == '-'
  }

  const DIGITS := "0123456789abcdef"

  lemma {:induction false} HexText(s: string, i: nat)
    requires IsBytes(s) && i < |s|
    ensures |HexEncode(s)| == 2 * |s|
    ensures HexEncode(s)[2 * i] == DIGITS[s[i] as int / 16] && HexEncode(s)[2 * i + 1] == DIGITS[s[i] as int % 16]
  {
    if i > 0 {
      HexText(s[1..], i - 1);
    } else if |s| > 1 {
      HexText(s[1..], 0);
    }
  }

  lemma SimpleIffPlain(ssid: string)
    ensures IsSimple(ssid) <==> IsPlainSsid(ssid)
  {
    assert forall i :: 0 <= i < |ssid| ==> ssid[i] in ssid;
  }

  lemma HexIsLonger(ssid: string)
    requires IsBytes(ssid)
    ensures |"=" + HexEncode(ssid)| != |ssid|
  {
    if ssid != "" {
      HexText(ssid, 0);
    }
  }

  // The name iwd looks for: the SSID itself if it is made of letters, digits, blanks,
  // underscores and hyphens, and '=' with its bytes in hexadecimal otherwise.
  lemma NameIff(n: Network)
    requires IsNetwork(n)
    ensures Filename(n) == n.ssid + "." + n.typ <==> IsPlainSsid(n.ssid)
    ensures !IsPlainSsid(n.ssid) ==> Filename(n) == "=" + HexEncode(n.ssid) + "." + n.typ
  {
    SimpleIffPlain(n.ssid);
    HexIsLonger(n.ssid);
    assert |Filename(n)| == |EncodeSSID(n.ssid)| + 1 + |n.typ|;
    assert |n.ssid + "." + n.typ| == |n.ssid| + 1 + |n.typ|;
  }

  // Every byte-string SSID, with each of the three types, is read back from the
  // file name built for it.
  lemma FilenameRoundTrip(n: Network)
    requires IsNetwork(n)
    ensures ParseFilename(Filename(n)) == Some(n)
  {
    var stem := EncodeSSID(n.ssid);
    assert Filename(n) == stem + ['.'] + n.typ;
    LastIndexByteAt(stem, '.', n.typ);
    if !IsSimple(n.ssid) {
      HexRoundTrip(n.ssid);
      assert stem[1..] == HexEncode(n.ssid);
    }
  }

  lemma FilenameInjective(m: Network, n: Network)
    requires IsNetwork(m) && IsNetwork(n)
    ensures Filename(m) == Filename(n) <==> m == n
  {
    FilenameRoundTrip(m);
    FilenameRoundTrip(n);
  }

  // A built name stays inside the store: no path separator, no zero byte, and
  // never one of the two directory names.
  lemma FilenameIsPlain(n: Network)
    requires IsNetwork(n)
    ensures '/' !in Filename(n) && '\0' !in Filename(n)
    ensures Filename(n) != "." && Filename(n) != ".."
  {
    StemChars(n.ssid);
    var stem, name := EncodeSSID(n.ssid), Filename(n);
    forall i | 0 <= i < |name|
      ensures IsSimpleChar(name[i]) || name[i] == '=' || name[i] == '.'
    {
      if i > |stem| {
        assert name[i] == n.typ[i - |stem| - 1];
      }
    }
    assert name[0] == stem[0];
  }

  lemma StemChars(ssid: string)
    requires IsBytes(ssid)
    ensures EncodeSSID(ssid) != ""
    ensures forall i :: 0 <= i < |EncodeSSID(ssid)| ==> IsSimpleChar(EncodeSSID(ssid)[i]) || EncodeSSID(ssid)[i] == '='
  {
    HexRoundTrip(ssid);
  }

  // ---- canonical names -----------------------------------------------------------

  // A name the backend itself would have chosen for the network it denotes.
  ghost predicate IsCanonical(name: string)
    requires ParseFilename(name).Some?
  {
    var n := ParseFilename(name).value;
    IsNetwork(n) && Filename(n) == name
  }

  ghost function Stem(name: string): string
    requires ParseFilename(name).Some?
  {
    name[..LastIndexByte(name, '.')]
  }

  lemma StemDecides(name: string)
    requires ParseFilename(name).Some? && IsNetwork(ParseFilename(name).value)
    ensures Filename(ParseFilename(name).value) == name <==> EncodeSSID(ParseFilename(name).value.ssid) == Stem(name)
  {
    var n, stem := ParseFilename(name).value, Stem(name);
    LastIndexByteHit(name, '.');
    assert name == stem + "." + n.typ;
    var e := EncodeSSID(n.ssid);
    if e + "." + n.typ == stem + "." + n.typ {
      assert |e| == |stem|;
      assert (e + "." + n.typ)[..|e|] == e && (stem + "." + n.typ)[..|e|] == stem;
    }
  }

  // Exactly which readable names are canonical: a simple stem, or '=' and the
  // lower-case digits of an SSID that is not simple.
  lemma CanonicalIff(name: string)
    requires ParseFilename(name).Some?
    ensures IsCanonical(name) <==>
              || IsSimple(Stem(name))
              || (Stem(name) != "" && Stem(name)[0] == '=' && IsLowerHex(Stem(name)[1..])
                  && !IsSimple(HexDecode(Stem(name)[1..]).value))
  {
    var n, stem := ParseFilename(name).value, Stem(name);
    if IsNetwork(n) {
      StemDecides(name);
    }
    if stem != "" && stem[0] == '=' {
      HexReencode(stem[1..]);
      assert stem == "=" + stem[1..];
      assert EncodeSSID(n.ssid) == stem <==> !IsSimple(n.ssid) && HexEncode(n.ssid) == stem[1..] by {
        if !IsSimple(n.ssid) {
          assert EncodeSSID(n.ssid)[1..] == HexEncode(n.ssid);
        }
      }
    } else if IsNetwork(n) {
      assert n.ssid == stem;
      assert !IsSimple(stem) ==> EncodeSSID(stem)[0] == '=';
    }
  }

  lemma HexNameParses(n: Network)
    requires IsNetwork(n)
    ensures ParseFilename("=" + HexEncode(n.ssid) + "." + n.typ) == Some(n)
  {
    var stem := "=" + HexEncode(n.ssid);
    HexRoundTrip(n.ssid);
    LastIndexByteAt(stem, '.', n.typ);
    assert stem + "." + n.typ == stem + ['.'] + n.typ;
    assert stem[1..] == HexEncode(n.ssid);
  }

  // A hand-made name need not be canonical: the hexadecimal of a simple SSID is a
  // second name for the same network.
  lemma TwoNamesOneNetwork(n: Network)
    requires IsNetwork(n) && IsSimple(n.ssid)
    ensures var other := "=" + HexEncode(n.ssid) + "." + n.typ;
            other != Filename(n) && ParseFilename(other) == ParseFilename(Filename(n)) == Some(n)
  {
    var other := "=" + HexEncode(n.ssid) + "." + n.typ;
    HexNameParses(n);
    FilenameRoundTrip(n);
    assert other[0] == '=' && Filename(n)[0] == n.ssid[0];
  }

  function TypeToKind(typ: string): SecurityKind {
    if typ == "psk" then SecPSK else if typ == "8021x" then SecEnterprise else SecOpen
  }

  // Ids are derived from the network, so equal ids mean the same network.
  lemma NetworkIdInjective(m: Network, n: Network)
    requires IsType(m.typ) && IsType(n.typ)
    ensures DeriveID(m.ssid, m.typ) == DeriveID(n.ssid, n.typ) <==> m == n
  {
    DeriveIDInjective(m.ssid, TypeToKind(m.typ), n.ssid, TypeToKind(n.typ));
  }
}

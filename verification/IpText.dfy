// IP address text of either family as Go's net package reads and prints it.
module IpText {
  import opened Text
  import opened IPv4

  type V6Addr = b: seq<Octet> | |b| == 16 witness seq(16, _ => 0)

  // ---- IPv6 text --------------------------------------------------------------

  // An IPv4-mapped address (section 2.5.5.2 of RFC 4291) counts as an IPv4 address
  // wherever the two families are told apart.
  function Mapped(b: V6Addr): Option<Addr> {
    if (forall i :: 0 <= i < 10 ==> b[i] == 0) && b[10] == 255 && b[11] == 255
    then Some(Addr(b[12], b[13], b[14], b[15])) else None
  }

  predicate IsV6Char(c: char) {
    IsDigit(c) || 'a' <= c <= 'f' || 'A' <= c <= 'F' || c == ':' || c == '.'
  }

  predicate IsV6Text(s: string) {
    ':' in s && forall i :: 0 <= i < |s| ==> IsV6Char(s[i])
  }

  // Reading and showing IPv6 text. Which of the many spellings of an address are
  // accepted, and which one is shown, is left open.
  datatype V6Form = V6Form(parse: string -> Option<V6Addr>, show: V6Addr -> string)

  ghost predicate HasText(f: V6Form, b: V6Addr) {
    exists s :: f.parse(s) == Some(b)
  }

  // All that is known of the two: they deal in text of hexadecimal digits, colons and
  // dots, every address has some text, and one that is not mapped is read back from
  // the text shown for it.
  ghost predicate IsV6Form(f: V6Form) {
    && (forall s :: f.parse(s).Some? ==> IsV6Text(s))
    && (forall b :: HasText(f, b))
    && (forall b :: Mapped(b).None? ==> IsV6Text(f.show(b)) && f.parse(f.show(b)) == Some(b))
  }

  type V6Codec = f: V6Form | IsV6Form(f) witness PlainForm()

  // Some such pair; everything below holds for any.
  const V6_TEXT: V6Codec

  // ---- such a pair exists -------------------------------------------------------

  function Nibble(n: nat): char
    requires n < 16
  {
    if n < 10 then DigitChar(n) else ('a' as int + n - 10) as char
  }

  function NibbleValue(c: char): nat
    requires IsDigit(c) || 'a' <= c <= 'f'
    ensures NibbleValue(c) < 16
  {
    if IsDigit(c) then DigitValue(c) else c as int - 'a' as int + 10
  }

  predicate IsPlain(s: string) {
    |s| == 33 && s[0] == ':' && forall i :: 1 <= i < 33 ==> IsDigit(s[i]) || 'a' <= s[i] <= 'f'
  }

  function PlainDigit(b: V6Addr, i: nat): char
    requires i < 32
  {
    Nibble(if i % 2 == 0 then b[i / 2] / 16 else b[i / 2] % 16)
  }

  // A colon and all 32 digits.
  function PlainShow(b: V6Addr): string {
    [':'] + seq(32, i requires 0 <= i < 32 => PlainDigit(b, i))
  }

  function PlainByte(s: string, i: nat): Octet
    requires IsPlain(s) && i < 16
  {
    16 * NibbleValue(s[2 * i + 1]) + NibbleValue(s[2 * i + 2])
  }

  function PlainBytes(s: string): V6Addr
    requires IsPlain(s)
  {
    seq(16, i requires 0 <= i < 16 => PlainByte(s, i))
  }

  function PlainParse(s: string): Option<V6Addr> {
    if IsPlain(s) then Some(PlainBytes(s)) else None
  }

  lemma PlainPair(b: V6Addr, i: nat)
    requires i < 16
    ensures PlainDigit(b, 2 * i) == Nibble(b[i] / 16) && PlainDigit(b, 2 * i + 1) == Nibble(b[i] % 16)
  {
    assert 2 * i / 2 == i && (2 * i + 1) / 2 == i;
  }

  lemma NibbleIsRead(n: nat)
    requires n < 16
    ensures var c := Nibble(n);
            (IsDigit(c) || 'a' <= c <= 'f') && NibbleValue(c) == n
  {
  }

  lemma PlainShowIsPlain(b: V6Addr)
    ensures IsPlain(PlainShow(b))
  {
    var s := PlainShow(b);
    forall i | 1 <= i < 33
      ensures IsDigit(s[i]) || 'a' <= s[i] <= 'f'
    {
      assert s[i] == PlainDigit(b, i - 1);
    }
  }

  lemma PlainByteIsRead(b: V6Addr, i: nat)
    requires i < 16 && IsPlain(PlainShow(b))
    ensures PlainByte(PlainShow(b), i) == b[i]
  {
    PlainPair(b, i);
    NibbleIsRead(b[i] / 16);
    NibbleIsRead(b[i] % 16);
    assert PlainShow(b)[2 * i + 1] == PlainDigit(b, 2 * i) && PlainShow(b)[2 * i + 2] == PlainDigit(b, 2 * i + 1);
  }

  lemma PlainRoundTrip(b: V6Addr)
    ensures IsPlain(PlainShow(b)) && PlainParse(PlainShow(b)) == Some(b)
  {
    PlainShowIsPlain(b);
    forall i | 0 <= i < 16
      ensures PlainByte(PlainShow(b), i) == b[i]
    {
      PlainByteIsRead(b, i);
    }
    assert PlainBytes(PlainShow(b)) == b;
  }

  lemma PlainIsText(s: string)
    requires IsPlain(s)
    ensures IsV6Text(s)
  {
    assert s[0] == ':';
    forall i | 0 <= i < |s|
      ensures IsV6Char(s[i])
    {
      assert i == 0 || 1 <= i < 33;
    }
  }

  lemma PlainHasText(b: V6Addr)
    ensures IsV6Text(PlainShow(b)) && PlainParse(PlainShow(b)) == Some(b)
    ensures HasText(V6Form(PlainParse, PlainShow), b)
  {
    PlainRoundTrip(b);
    PlainIsText(PlainShow(b));
    assert V6Form(PlainParse, PlainShow).parse(PlainShow(b)) == Some(b);
  }

  lemma PlainIsV6Form()
    ensures IsV6Form(V6Form(PlainParse, PlainShow))
  {
    var f := V6Form(PlainParse, PlainShow);
    forall s | f.parse(s).Some?
      ensures IsV6Text(s)
    {
      PlainIsText(s);
    }
    forall b
      ensures HasText(f, b) && IsV6Text(f.show(b)) && f.parse(f.show(b)) == Some(b)
    {
      PlainHasText(b);
    }
  }

  function PlainForm(): (f: V6Form)
    ensures IsV6Form(f)
  {
    PlainIsV6Form();
    V6Form(PlainParse, PlainShow)
  }

  // ---- either family ------------------------------------------------------------

  datatype Ip = V4(addr: Addr) | V6(bytes: V6Addr)

  // 16 bytes as net.IP treats them.
  function ToIp(b: V6Addr): Ip {
    match Mapped(b)
    case Some(x) => V4(x)
    case None => V6(b)
  }

  predicate IsIp(ip: Ip) {
    ip.V6? ==> Mapped(ip.bytes).None?
  }

  // net.ParseIP.
  function ParseIP(s: string): (r: Option<Ip>)
    ensures r.Some? ==> IsIp(r.value)
  {
    match Parse(s)
    case Some(x) => Some(V4(x))
    case None =>
      match V6_TEXT.parse(s)
      case Some(b) => Some(ToIp(b))
      case None => None
  }

  // net.IP.String.
  function ShowIP(ip: Ip): string {
    match ip
    case V4(x) => Format(x)
    case V6(b) => V6_TEXT.show(b)
  }

  // A prefix in the notation of its address: of 32 bits, or, for IPv6 text, of 128.
  datatype IpCidr = IpCidr(ip: Ip, prefix: nat, wide: bool)

  // net.ParseCIDR.
  function ParseIPCIDR(s: string): (r: Option<IpCidr>)
    ensures r.Some? ==> IsIp(r.value.ip) && (!r.value.wide ==> r.value.ip.V4? && r.value.prefix <= 32)
  {
    match ParseCIDR(s)
    case Some(c) => Some(IpCidr(V4(c.addr), c.prefix, false))
    case None =>
      var i := IndexByte(s, '/');
      if i < 0 then None
      else match (V6_TEXT.parse(s[..i]), ParsePrefix(s[i + 1..], 128))
        case (Some(b), Some(n)) => Some(IpCidr(ToIp(b), n, true))
        case _ => None
  }

  lemma V6TextIsWord(s: string)
    requires IsV6Text(s)
    ensures IsWord(s) && '/' !in s
  {
  }

  lemma DottedHasNoColon(s: string)
    requires Parse(s).Some?
    ensures ':' !in s
  {
    ParseFormat(s, Parse(s).value);
    FormatChars(Parse(s).value);
  }

  lemma FormatIsPlain(x: Addr)
    ensures IsWord(Format(x)) && '/' !in Format(x)
  {
    FormatChars(x);
  }

  // An accepted text is one word without a slash.
  lemma ParsedIsWord(s: string)
    requires ParseIP(s).Some?
    ensures IsWord(s) && '/' !in s
  {
    match Parse(s)
    case Some(x) =>
      ParseFormat(s, x);
      FormatIsPlain(x);
    case None =>
      V6TextIsWord(s);
  }

  // An address of either family is read back from its text.
  lemma ParseShowIP(ip: Ip)
    requires IsIp(ip)
    ensures ParseIP(ShowIP(ip)) == Some(ip)
    ensures IsWord(ShowIP(ip)) && '/' !in ShowIP(ip)
  {
    match ip
    case V4(x) =>
      ParseFormat(Format(x), x);
      FormatIsPlain(x);
    case V6(b) =>
      ShowIsNotDotted(b);
      assert IsV6Text(V6_TEXT.show(b));
      V6TextIsWord(V6_TEXT.show(b));
  }

  // A text without a slash is no CIDR string, and one with a slash is no address.
  lemma CidrHasSlash(s: string)
    ensures ParseIPCIDR(s).Some? ==> '/' in s && ParseIP(s).None?
  {
    if ParseIP(s).Some? {
      ParsedIsWord(s);
    }
  }

  // What a printed prefix is read as: nothing, if the notation has no room for it.
  lemma ParseShowCIDR(ip: Ip, n: nat)
    requires IsIp(ip)
    ensures ParseIPCIDR(ShowIP(ip) + "/" + Itoa(n))
            == if n <= (if ip.V4? then 32 else 128) then Some(IpCidr(ip, n, ip.V6?)) else None
  {
    ParseShowIP(ip);
    var a, s := ShowIP(ip), ShowIP(ip) + "/" + Itoa(n);
    assert s == a + ['/'] + Itoa(n);
    IndexByteAt(a, '/', Itoa(n));
    PrefixIsRead(n, 32);
    PrefixIsRead(n, 128);
    match ip
    case V4(x) => FormatIsNoV6(x);
    case V6(b) => ShowIsNotDotted(b);
  }

  function MappedBytes(x: Addr): (b: V6Addr)
    ensures Mapped(b) == Some(x)
  {
    [0, 0, 0, 0, 0, 0, 0, 0, 0, 0, 255, 255, x.a, x.b, x.c, x.d]
  }

  // A mapped address can be written with any prefix up to 128.
  lemma MappedCidr(x: Addr, n: nat) returns (text: string)
    requires n <= 128
    ensures ParseIPCIDR(text) == Some(IpCidr(V4(x), n, true))
  {
    var b := MappedBytes(x);
    assert HasText(V6_TEXT, b);
    var s :| V6_TEXT.parse(s) == Some(b);
    assert IsV6Text(s);
    V6TextIsWord(s);
    text := s + "/" + Itoa(n);
    assert text == s + ['/'] + Itoa(n);
    IndexByteAt(s, '/', Itoa(n));
    PrefixIsRead(n, 32);
    PrefixIsRead(n, 128);
    if Parse(s).Some? {
      DottedHasNoColon(s);
    }
  }

  lemma PrefixIsRead(n: nat, bits: nat)
    ensures ParsePrefix(Itoa(n), bits) == if n <= bits then Some(n) else None
  {
    DecimalItoa(n);
  }

  lemma FormatIsNoV6(x: Addr)
    ensures V6_TEXT.parse(Format(x)).None? && Parse(Format(x)) == Some(x)
  {
    ParseFormat(Format(x), x);
    DottedHasNoColon(Format(x));
    assert V6_TEXT.parse(Format(x)).Some? ==> IsV6Text(Format(x));
  }

  lemma ShowIsNotDotted(b: V6Addr)
    requires Mapped(b).None?
    ensures Parse(V6_TEXT.show(b)).None? && V6_TEXT.parse(V6_TEXT.show(b)) == Some(b)
  {
    assert IsV6Text(V6_TEXT.show(b));
    if Parse(V6_TEXT.show(b)).Some? {
      DottedHasNoColon(V6_TEXT.show(b));
    }
  }
}

// IPv4 text as Go's net package reads and prints it: dotted decimal addresses,
// CIDR notation (section 3.1 of RFC 4632) and netmasks.
module IPv4 {
  import opened Text

  type Octet = n: int | 0 <= n < 256

  datatype Addr = Addr(a: Octet, b: Octet, c: Octet, d: Octet)

  // ---- decimal numbers ------------------------------------------------------

  predicate IsDigit(c: char) {
    '0' <= c <= '9'
  }

  predicate AllDigits(s: string) {
    forall i :: 0 <= i < |s| ==> IsDigit(s[i])
  }

  function DigitChar(n: nat): char
    requires n < 10
  {
    ('0' as int + n) as char
  }

  function DigitValue(c: char): nat
    requires IsDigit(c)
  {
    c as int - '0' as int
  }

  // fmt's %d.
  function Itoa(n: nat): (s: string)
    ensures s != "" && AllDigits(s)
  {
    if n < 10 then [DigitChar(n)] else Itoa(n / 10) + [DigitChar(n % 10)]
  }

  function Decimal(s: string): nat
    requires AllDigits(s)
  {
    if s == "" then 0 else 10 * Decimal(s[..|s| - 1]) + DigitValue(s[|s| - 1])
  }

  lemma {:induction false} DecimalItoa(n: nat)
    ensures Decimal(Itoa(n)) == n
    ensures n > 0 ==> Itoa(n)[0] != '0'
    ensures n >= 10 ==> |Itoa(n)| > 1
  {
    if n >= 10 {
      DecimalItoa(n / 10);
      assert Itoa(n)[..|Itoa(n)| - 1] == Itoa(n / 10);
    }
  }

  lemma ItoaNext(m: nat, c: char)
    requires m > 0 && IsDigit(c)
    ensures Itoa(10 * m + DigitValue(c)) == Itoa(m) + [c]
  {
    var n := 10 * m + DigitValue(c);
    assert n / 10 == m && n % 10 == DigitValue(c);
  }

  // A digit string without a leading zero is the one Itoa prints.
  lemma {:induction false} ItoaDecimal(s: string)
    requires AllDigits(s) && s != ""
    requires |s| == 1 || s[0] != '0'
    ensures Itoa(Decimal(s)) == s
  {
    var init, last := s[..|s| - 1], s[|s| - 1];
    assert s == init + [last];
    if |s| > 1 {
      ItoaDecimal(init);
      DecimalPositive(init);
      ItoaNext(Decimal(init), last);
    } else {
      assert Decimal(init) == 0;
    }
  }

  lemma {:induction false} DecimalPositive(s: string)
    requires AllDigits(s) && s != "" && s[0] != '0'
    ensures Decimal(s) > 0
  {
    if |s| > 1 {
      DecimalPositive(s[..|s| - 1]);
    }
  }

  // ---- dotted decimal -------------------------------------------------------

  function ParseOctet(s: string): Option<Octet> {
    if s != "" && AllDigits(s) && (|s| == 1 || s[0] != '0') && Decimal(s) < 256
    then Some(Decimal(s)) else None
  }

  function OctetTexts(x: Addr): seq<string> {
    [Itoa(x.a), Itoa(x.b), Itoa(x.c), Itoa(x.d)]
  }

  function Format(x: Addr): string {
    Join(OctetTexts(x), '.')
  }

  // net.ParseIP on a dotted-decimal string.
  function Parse(s: string): Option<Addr> {
    var p := Split(s, '.');
    if |p| != 4 then None
    else match (ParseOctet(p[0]), ParseOctet(p[1]), ParseOctet(p[2]), ParseOctet(p[3]))
      case (Some(a), Some(b), Some(c), Some(d)) => Some(Addr(a, b, c, d))
      case _ => None
  }

  lemma OctetText(s: string, n: Octet)
    ensures ParseOctet(s) == Some(n) <==> s == Itoa(n)
  {
    DecimalItoa(n);
    if ParseOctet(s) == Some(n) {
      ItoaDecimal(s);
    }
  }

  // The parser accepts an address in one spelling only, the printed one.
  lemma ParseFormat(s: string, x: Addr)
    ensures Parse(s) == Some(x) <==> s == Format(x)
  {
    var p := Split(s, '.');
    if |p| == 4 {
      OctetText(p[0], x.a);
      OctetText(p[1], x.b);
      OctetText(p[2], x.c);
      OctetText(p[3], x.d);
      if Parse(s) == Some(x) {
        assert p == OctetTexts(x);
        JoinSplit(s, '.');
      }
    }
    if s == Format(x) {
      SplitJoin(OctetTexts(x), '.');
    }
  }

  lemma FormatChars(x: Addr)
    ensures Format(x) != ""
    ensures forall i :: 0 <= i < |Format(x)| ==> IsDigit(Format(x)[i]) || Format(x)[i] == '.'
    ensures Format(x)[0] != '.' && Format(x)[|Format(x)| - 1] != '.'
    ensures IsWord(Format(x))
  {
    var t := OctetTexts(x);
    assert Format(x) == t[0] + ['.'] + (t[1] + ['.'] + (t[2] + ['.'] + t[3])) by {
      assert t[1..][1..] == t[2..];
      assert t[2..][1..] == t[3..];
      assert Join(t[2..], '.') == t[2] + ['.'] + t[3];
      assert Join(t[1..], '.') == t[1] + ['.'] + (t[2] + ['.'] + t[3]);
    }
  }

  // ---- CIDR -----------------------------------------------------------------

  datatype Cidr = Cidr(addr: Addr, prefix: nat)

  // The prefix length of an address of that many bits as net.ParseCIDR reads it:
  // decimal, leading zeros allowed.
  function ParsePrefix(s: string, bits: nat): Option<nat> {
    if s != "" && AllDigits(s) && Decimal(s) <= bits then Some(Decimal(s)) else None
  }

  function ParseCIDR(s: string): Option<Cidr> {
    var i := IndexByte(s, '/');
    if i < 0 then None
    else match (Parse(s[..i]), ParsePrefix(s[i + 1..], 32))
      case (Some(a), Some(n)) => Some(Cidr(a, n))
      case _ => None
  }

  function FormatCIDR(x: Addr, n: nat): string {
    Format(x) + "/" + Itoa(n)
  }

  lemma ParseFormatCIDR(x: Addr, n: nat)
    requires n <= 32
    ensures ParseCIDR(FormatCIDR(x, n)) == Some(Cidr(x, n))
  {
    FormatChars(x);
    IndexByteAt(Format(x), '/', Itoa(n));
    assert FormatCIDR(x, n) == Format(x) + ['/'] + Itoa(n);
    ParseFormat(Format(x), x);
    DecimalItoa(n);
  }

  // ---- netmasks -------------------------------------------------------------

  // The byte whose k high bits are set.
  function HighBits(k: nat): Octet
    requires k <= 8
  {
    if k == 0 then 0 else if k == 1 then 128 else if k == 2 then 192 else if k == 3 then 224
    else if k == 4 then 240 else if k == 5 then 248 else if k == 6 then 252 else if k == 7 then 254 else 255
  }

  function Clamp8(k: int): (r: nat)
    ensures r <= 8
  {
    if k < 0 then 0 else if k > 8 then 8 else k
  }

  // net.CIDRMask(n, 32).
  function PrefixMask(n: nat): Addr
    requires n <= 32
  {
    Addr(HighBits(Clamp8(n)), HighBits(Clamp8(n - 8)), HighBits(Clamp8(n - 16)), HighBits(Clamp8(n - 24)))
  }

  // v << 1 on a byte.
  function ShiftLeft(v: Octet): Octet {
    if v >= 128 then 2 * v - 256 else 2 * v
  }

  // Shifts left while the top bit is set, counting: the inner loop of
  // net.simpleMaskLength. Some(k) when nothing is left over.
  function LeadingOnes(v: Octet, count: nat): (r: Option<nat>)
    requires count <= 8
    decreases 8 - count
  {
    if v >= 128 && count < 8 then LeadingOnes(ShiftLeft(v), count + 1)
    else if v == 0 then Some(count) else None
  }

  function MaskLength(bytes: seq<Octet>): Option<nat> {
    if bytes == [] then Some(0)
    else if bytes[0] == 255 then
      match MaskLength(bytes[1..])
      case Some(n) => Some(8 + n)
      case None => None
    else
      match LeadingOnes(bytes[0], 0)
      case Some(k) => if forall i :: 1 <= i < |bytes| ==> bytes[i] == 0 then Some(k) else None
      case None => None
  }

  function Bytes(x: Addr): seq<Octet> {
    [x.a, x.b, x.c, x.d]
  }

  // net.IPMask.Size: a mask that is not a prefix has size 0.
  function MaskSize(m: Addr): nat {
    match MaskLength(Bytes(m))
    case Some(n) => n
    case None => 0
  }

  lemma HighBitsShift(v: Octet, k: nat)
    requires 0 < k <= 8 && v >= 128
    ensures ShiftLeft(v) == HighBits(k - 1) <==> v == HighBits(k)
  {
  }

  lemma {:induction false} LeadingOnesAt(v: Octet, count: nat, k: nat)
    requires count <= k <= 8
    ensures LeadingOnes(v, count) == Some(k) <==> v == HighBits(k - count)
    decreases 8 - count
  {
    if v >= 128 && count < 8 {
      LeadingOnesGrow(v, count);
      if count < k {
        LeadingOnesAt(ShiftLeft(v), count + 1, k);
        HighBitsShift(v, k - count);
      }
    }
  }

  lemma {:induction false} LeadingOnesGrow(v: Octet, count: nat)
    requires count <= 8
    ensures LeadingOnes(v, count).Some? ==> count <= LeadingOnes(v, count).value <= 8
    ensures LeadingOnes(v, count).Some? && v >= 128 && count < 8 ==> count < LeadingOnes(v, count).value
    decreases 8 - count
  {
    if v >= 128 && count < 8 {
      LeadingOnesGrow(ShiftLeft(v), count + 1);
    }
  }

  lemma HighBitsLeadingOnes(v: Octet, k: nat)
    requires k <= 8
    ensures v != 255 ==> (LeadingOnes(v, 0) == Some(k) <==> k < 8 && v == HighBits(k))
  {
    LeadingOnesAt(v, 0, k);
  }

  // The bytes of a prefix mask of n bits.
  ghost predicate IsMask(b: seq<Octet>, n: int) {
    forall i :: 0 <= i < |b| ==> b[i] == HighBits(Clamp8(n - 8 * i))
  }

  lemma IsMaskCons(b: seq<Octet>, n: int)
    requires b != []
    ensures IsMask(b, n) <==> b[0] == HighBits(Clamp8(n)) && IsMask(b[1..], n - 8)
  {
    if b[0] == HighBits(Clamp8(n)) && IsMask(b[1..], n - 8) {
      forall i | 0 <= i < |b|
        ensures b[i] == HighBits(Clamp8(n - 8 * i))
      {
        assert i > 0 ==> b[i] == b[1..][i - 1];
      }
    }
  }

  lemma IsMaskTail(b: seq<Octet>, n: nat)
    requires b != [] && n < 8
    ensures IsMask(b, n) <==> b[0] == HighBits(n) && forall i :: 1 <= i < |b| ==> b[i] == 0
  {
  }

  lemma {:induction false} MaskLengthBound(bytes: seq<Octet>)
    ensures MaskLength(bytes).Some? ==> MaskLength(bytes).value <= 8 * |bytes|
  {
    if bytes != [] {
      LeadingOnesGrow(bytes[0], 0);
      MaskLengthBound(bytes[1..]);
    }
  }

  // The simplified mask length of a byte string is n exactly when it is n ones
  // followed by zeros.
  lemma {:induction false} MaskLengthIff(b: seq<Octet>, n: nat)
    requires n <= 8 * |b|
    ensures MaskLength(b) == Some(n) <==> IsMask(b, n)
  {
    if b != [] {
      IsMaskCons(b, n);
      if b[0] == 255 {
        if n >= 8 {
          MaskLengthIff(b[1..], n - 8);
        }
      } else {
        LeadingOnesGrow(b[0], 0);
        HighBitsLeadingOnes(b[0], Clamp8(n));
        if n < 8 {
          IsMaskTail(b, n);
        }
      }
    }
  }

  // A mask has a size other than "not a prefix" exactly when it is a prefix mask,
  // and then the size is that prefix.
  lemma MaskLengthOfPrefix(m: Addr, n: nat)
    requires n <= 32
    ensures MaskLength(Bytes(m)) == Some(n) <==> m == PrefixMask(n)
  {
    var b := Bytes(m);
    MaskLengthIff(b, n);
    assert b[0] == m.a && b[1] == m.b && b[2] == m.c && b[3] == m.d;
  }

  ghost predicate IsPrefixMask(m: Addr) {
    exists n: nat :: n <= 32 && m == PrefixMask(n)
  }

  lemma OtherMasksHaveSizeZero(m: Addr)
    ensures !IsPrefixMask(m) ==> MaskSize(m) == 0
  {
    MaskLengthBound(Bytes(m));
    if MaskLength(Bytes(m)).Some? {
      MaskLengthOfPrefix(m, MaskLength(Bytes(m)).value);
    }
  }
}

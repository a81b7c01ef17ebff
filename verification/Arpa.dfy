/** Reverse-lookup names of address blocks (pkg/rfc2317/arpa.go): section 3.5 of RFC 1035,
    section 4 of RFC 2317 and section 2.5 of RFC 3596. Addresses are byte sequences as the
    library's parser yields them. */
module Arpa {
  import opened Wrappers
  import opened Arithmetic
  import opened Strings

  type Byte = b: int | 0 <= b < 256

  /** An address of 4 or 16 bytes and a mask length. */
  datatype Block = Block(addr: seq<Byte>, bits: nat)

  predicate ValidBlock(b: Block) {
    (|b.addr| == 4 || |b.addr| == 16) && b.bits <= 8 * |b.addr|
  }

  /** An IPv4 address written as an IPv6 one. */
  predicate IsMapped(addr: seq<Byte>) {
    |addr| == 16 && addr[..10] == seq(10, _ => 0) && addr[10] == 255 && addr[11] == 255
  }

  /** What the text form of a bare address is turned into. */
  function BlockOfAddress(addr: seq<Byte>): Block
    requires |addr| == 4 || |addr| == 16
  {
    if IsMapped(addr) then Block(addr[12..], 32) else Block(addr, 8 * |addr|)
  }

  function Pow2(n: nat): (p: nat)
    ensures p > 0
  {
    if n == 0 then 1 else 2 * Pow2(n - 1)
  }

  function MaskByte(b: Byte, keep: int): Byte {
    if keep >= 8 then b
    else if keep <= 0 then 0
    else
      ModAtMost(b, Pow2(8 - keep));
      b - b % Pow2(8 - keep)
  }

  /** The address with everything beyond the mask cleared. */
  function Masked(addr: seq<Byte>, bits: nat): (r: seq<Byte>)
    ensures |r| == |addr|
  {
    seq(|addr|, i requires 0 <= i < |addr| => MaskByte(addr[i], bits - 8 * i))
  }

  function HexDigit(n: int): char
    requires 0 <= n < 16
  {
    "0123456789abcdef"[n]
  }

  /** Half-byte j of an address, counted from the front. */
  function Nibble(addr: seq<Byte>, j: nat): int
    requires j < 2 * |addr|
    ensures 0 <= Nibble(addr, j) < 16
  {
    if j % 2 == 0 then addr[j / 2] / 16 else addr[j / 2] % 16
  }

  /** The labels of the full reverse name, most specific first. */
  function Octets(addr: seq<Byte>): (r: seq<string>)
    ensures |r| == |addr|
  {
    seq(|addr|, i requires 0 <= i < |addr| => Decimal(addr[|addr| - 1 - i]))
  }

  function Nibbles(addr: seq<Byte>): (r: seq<string>)
    ensures |r| == 2 * |addr|
  {
    seq(2 * |addr|, i requires 0 <= i < 2 * |addr| => [HexDigit(Nibble(addr, 2 * |addr| - 1 - i))])
  }

  const IN_ADDR := ["in-addr", "arpa"]
  const IP6 := ["ip6", "arpa"]

  function Labels(addr: seq<Byte>): seq<string>
    requires |addr| == 4 || |addr| == 16
  {
    if IsMapped(addr) then Octets(addr[12..]) + IN_ADDR
    else if |addr| == 4 then Octets(addr) + IN_ADDR
    else Nibbles(addr) + IP6
  }

  /** Every label followed by a dot. */
  function Dotted(ls: seq<string>): string {
    if ls == [] then "" else Dotted(ls[..|ls| - 1]) + ls[|ls| - 1] + "."
  }

  lemma {:induction false} DottedIsJoin(ls: seq<string>)
    requires ls != []
    ensures Dotted(ls) == Join(ls, '.') + "."
  {
    if |ls| == 1 {
      assert Dotted(ls[..0]) == "";
    } else {
      var init := ls[..|ls| - 1];
      DottedIsJoin(init);
      assert ls == init + [ls[|ls| - 1]];
      JoinAppend(init, [ls[|ls| - 1]], '.');
    }
  }

  lemma DottedSnoc(ls: seq<string>, l: string)
    ensures Dotted(ls + [l]) == Dotted(ls) + l + "."
  {
    assert (ls + [l])[..|ls|] == ls;
  }

  method ReverseNibbles(addr: seq<Byte>) returns (buf: string)
    ensures buf == Dotted(Nibbles(addr))
  {
    hide HexDigit, IsMapped;
    buf := "";
    ghost var ls := Nibbles(addr);
    var i := |addr| - 1;
    assert ls[..0] == [];
    while i >= 0
      invariant -1 <= i < |addr|
      invariant buf == Dotted(ls[..2 * (|addr| - 1 - i)])
    {
      var v := addr[i];
      ghost var k := 2 * (|addr| - 1 - i);
      NibblesOf(addr, i);
      assert ls[k] == [HexDigit(v % 16)] && ls[k + 1] == [HexDigit(v / 16)];
      TwoMore(ls, k);
      buf := buf + [HexDigit(v % 16), '.', HexDigit(v / 16), '.'];
      i := i - 1;
    }
    assert ls[..|ls|] == ls;
  }

  lemma TwoMore(ls: seq<string>, k: nat)
    requires k + 1 < |ls| && |ls[k]| == 1 && |ls[k + 1]| == 1
    ensures Dotted(ls[..k + 2]) == Dotted(ls[..k]) + [ls[k][0], '.', ls[k + 1][0], '.']
  {
    DottedSnoc(ls[..k], ls[k]);
    DottedSnoc(ls[..k + 1], ls[k + 1]);
    assert ls[..k + 1] == ls[..k] + [ls[k]];
    assert ls[..k + 2] == ls[..k + 1] + [ls[k + 1]];
  }

  /** reverseaddr, on the parsed address. */
  method ReverseAddr(addr: seq<Byte>) returns (name: string)
    requires |addr| == 4 || |addr| == 16
    ensures name == Dotted(Labels(addr))
  {
    if |addr| == 4 || IsMapped(addr) {
      var ip := addr[|addr| - 4..];
      name := Decimal(ip[3]) + "." + Decimal(ip[2]) + "." + Decimal(ip[1]) + "." + Decimal(ip[0]) + ".in-addr.arpa.";
      Dotted4(ip);
      assert |addr| == 4 ==> ip == addr;
    } else {
      name := ReverseNibbles(addr);
      DottedTail(Nibbles(addr), "ip6");
      name := name + "ip6.arpa.";
    }
  }

  lemma DottedTail(ls: seq<string>, l: string)
    ensures Dotted(ls + [l, "arpa"]) == Dotted(ls) + (l + ".arpa.")
  {
    DottedSnoc(ls, l);
    DottedSnoc(ls + [l], "arpa");
    assert ls + [l] + ["arpa"] == ls + [l, "arpa"];
    assert Dotted(ls) + l + "." + "arpa" + "." == Dotted(ls) + (l + ".arpa.");
  }

  lemma NibblesOf(addr: seq<Byte>, i: nat)
    requires i < |addr|
    ensures Nibble(addr, 2 * i) == addr[i] / 16 && Nibble(addr, 2 * i + 1) == addr[i] % 16
  {
    assert (2 * i) / 2 == i && (2 * i + 1) / 2 == i;
  }

  lemma Dotted4(ip: seq<Byte>)
    requires |ip| == 4
    ensures Dotted(Octets(ip) + IN_ADDR) ==
            Decimal(ip[3]) + "." + Decimal(ip[2]) + "." + Decimal(ip[1]) + "." + Decimal(ip[0]) + ".in-addr.arpa."
  {
    DottedFour(Decimal(ip[3]), Decimal(ip[2]), Decimal(ip[1]), Decimal(ip[0]));
    assert Octets(ip) == [Decimal(ip[3]), Decimal(ip[2]), Decimal(ip[1]), Decimal(ip[0])];
    DottedTail(Octets(ip), "in-addr");
    var front := Decimal(ip[3]) + "." + Decimal(ip[2]) + "." + Decimal(ip[1]) + "." + Decimal(ip[0]);
    assert front + "." + "in-addr.arpa." == front + ".in-addr.arpa.";
  }

  lemma DottedFour(a: string, b: string, c: string, d: string)
    ensures Dotted([a, b, c, d]) == a + "." + b + "." + c + "." + d + "."
  {
    DottedSnoc([], a);
    DottedSnoc([a], b);
    DottedSnoc([a, b], c);
    DottedSnoc([a, b, c], d);
    assert [] + [a] == [a] && [a] + [b] == [a, b] && [a, b] + [c] == [a, b, c] && [a, b, c] + [d] == [a, b, c, d];
  }

  /** strings.TrimRight with a dot. */
  function TrimDots(s: string): string {
    if s != "" && s[|s| - 1] == '.' then TrimDots(s[..|s| - 1]) else s
  }

  /** The last part of strings.SplitN(s, ".", n + 1): s without its first n labels, or its
      last label when there are no more. */
  function AfterLabels(s: string, n: nat): string {
    var k := IndexOf(s, '.');
    if n == 0 || k == |s| then s else AfterLabels(s[k + 1..], n - 1)
  }

  lemma {:induction false} AfterLabelsJoin(ls: seq<string>, n: nat)
    requires n < |ls| && forall l | l in ls :: '.' !in l
    ensures AfterLabels(Join(ls, '.'), n) == Join(ls[n..], '.')
    decreases n
  {
    if n > 0 {
      assert ls[0] in ls && forall l | l in ls[1..] :: l in ls;
      IndexOfIs(ls[0], '.', Join(ls[1..], '.'));
      assert Join(ls, '.')[|ls[0]| + 1..] == Join(ls[1..], '.');
      AfterLabelsJoin(ls[1..], n - 1);
      assert ls[1..][n - 1..] == ls[n..];
    } else {
      assert ls[0..] == ls;
    }
  }

  datatype Error = BitsBeyondMask | ZeroBits | NotOctets | NotNibbles

  predicate Classless(b: Block) {
    |b.addr| == 4 && 25 <= b.bits < 32
  }

  /** How many labels of the full name fall outside the mask. */
  function ToTrim(b: Block): nat
    requires ValidBlock(b)
  {
    if |b.addr| == 4 then (32 - b.bits) / 8 else (128 - b.bits) / 4
  }

  /** CidrToInAddr, once the text is parsed. */
  method CidrToInAddr(b: Block) returns (r: Result<string, Error>)
    requires ValidBlock(b)
    ensures r == NameOf(b)
  {
    var base := ReverseAddr(b.addr);
    TrimOneDot(b.addr);
    base := TrimDots(base);
    if Masked(b.addr, b.bits) != b.addr { return Err(BitsBeyondMask); }
    if b.bits == 0 { return Err(ZeroBits); }
    if Classless(b) {
      var first := Decimal(Masked(b.addr, b.bits)[3]);
      return Ok(first + "/" + Decimal(b.bits) + "." + AfterLabels(base, 1));
    }
    if |b.addr| == 4 {
      if b.bits % 8 != 0 { return Err(NotOctets); }
    } else {
      if b.bits % 4 != 0 { return Err(NotNibbles); }
    }
    return Ok(AfterLabels(base, ToTrim(b)));
  }

  lemma TrimOneDot(addr: seq<Byte>)
    requires |addr| == 4 || |addr| == 16
    ensures TrimDots(Dotted(Labels(addr))) == Join(Labels(addr), '.')
  {
    var ls := Labels(addr);
    DottedIsJoin(ls);
    assert Dotted(ls)[..|Dotted(ls)| - 1] == Join(ls, '.');
    JoinAppend(ls[..|ls| - 1], [ls[|ls| - 1]], '.');
    assert ls == ls[..|ls| - 1] + [ls[|ls| - 1]];
    assert ls[|ls| - 1] == "arpa";
  }

  // ---- the specification ----

  function NameOf(b: Block): Result<string, Error>
    requires ValidBlock(b)
  {
    if Masked(b.addr, b.bits) != b.addr then Err(BitsBeyondMask)
    else if b.bits == 0 then Err(ZeroBits)
    else if Classless(b) then
      Ok(Decimal(b.addr[3]) + "/" + Decimal(b.bits) + "." + AfterLabels(Join(Labels(b.addr), '.'), 1))
    else if |b.addr| == 4 && b.bits % 8 != 0 then Err(NotOctets)
    else if |b.addr| == 16 && b.bits % 4 != 0 then Err(NotNibbles)
    else Ok(AfterLabels(Join(Labels(b.addr), '.'), ToTrim(b)))
  }

  /** The blocks that have a name of their own kind. */
  predicate Accepted(b: Block) {
    ValidBlock(b) && NameOf(b).Ok?
  }

  /** No bit of the address is set beyond the mask. */
  ghost predicate WithinMask(b: Block) {
    forall i | 0 <= i < |b.addr| ::
      && (b.bits <= 8 * i ==> b.addr[i] == 0)
      && (8 * i < b.bits < 8 * i + 8 ==> b.addr[i] % Pow2(8 * i + 8 - b.bits) == 0)
  }

  lemma WithinMaskExactly(b: Block)
    ensures Masked(b.addr, b.bits) == b.addr <==> WithinMask(b)
  {
    forall i | 0 <= i < |b.addr|
      ensures Masked(b.addr, b.bits)[i] == b.addr[i] <==>
              && (b.bits <= 8 * i ==> b.addr[i] == 0)
              && (8 * i < b.bits < 8 * i + 8 ==> b.addr[i] % Pow2(8 * i + 8 - b.bits) == 0)
    {
      assert Masked(b.addr, b.bits)[i] == MaskByte(b.addr[i], b.bits - 8 * i);
    }
  }

  /** A block has a name exactly when no bit is set beyond a mask that is not empty, and the mask
      ends at an octet or within the last one, for IPv4, or at a half-byte, for IPv6. Otherwise
      the first of these that fails is the error. */
  lemma AcceptedExactly(b: Block)
    requires ValidBlock(b)
    ensures NameOf(b) == Err(BitsBeyondMask) <==> !WithinMask(b)
    ensures NameOf(b) == Err(ZeroBits) <==> WithinMask(b) && b.bits == 0
    ensures NameOf(b) == Err(NotOctets) <==> WithinMask(b) && |b.addr| == 4 && b.bits < 24 && b.bits % 8 != 0
    ensures NameOf(b) == Err(NotNibbles) <==> WithinMask(b) && |b.addr| == 16 && b.bits % 4 != 0
    ensures Accepted(b) <==>
              && WithinMask(b) && b.bits > 0
              && (|b.addr| == 4 ==> b.bits in {8, 16} || b.bits >= 24)
              && (|b.addr| == 16 ==> b.bits % 4 == 0)
  {
    hide Masked, AfterLabels, Join, Labels, WithinMask;
    WithinMaskExactly(b);
  }

  /** The labels of an accepted name. */
  function NameLabels(b: Block): seq<string>
    requires ValidBlock(b) && !IsMapped(b.addr)
  {
    if Classless(b) then [Decimal(b.addr[3]) + "/" + Decimal(b.bits)] + Labels(b.addr)[1..]
    else Labels(b.addr)[ToTrim(b)..]
  }

  predicate Plain(l: string) {
    '.' !in l && '/' !in l
  }

  ghost predicate AllPlain(ls: seq<string>) {
    forall i | 0 <= i < |ls| :: Plain(ls[i])
  }

  lemma DigitsPlain(s: string)
    requires forall c | c in s :: IsDigit(c)
    ensures Plain(s)
  {
    assert !IsDigit('.') && !IsDigit('/');
  }

  lemma OctetsPlain(addr: seq<Byte>)
    ensures AllPlain(Octets(addr) + IN_ADDR)
  {
    forall i | 0 <= i < |addr| ensures Plain(Octets(addr)[i]) {
      DigitsPlain(Decimal(addr[|addr| - 1 - i]));
    }
    assert Plain("in-addr") && Plain("arpa");
  }

  lemma NibblesPlain(addr: seq<Byte>)
    ensures AllPlain(Nibbles(addr) + IP6)
  {
    forall i | 0 <= i < 2 * |addr| ensures Plain(Nibbles(addr)[i]) {
      HexPlain(Nibble(addr, 2 * |addr| - 1 - i));
    }
    assert Plain("ip6") && Plain("arpa");
  }

  lemma HexPlain(n: int)
    requires 0 <= n < 16
    ensures Plain([HexDigit(n)])
  {
  }

  lemma LabelsPlain(addr: seq<Byte>)
    requires |addr| == 4 || |addr| == 16
    ensures AllPlain(Labels(addr))
    ensures forall l | l in Labels(addr) :: '.' !in l
  {
    if IsMapped(addr) {
      OctetsPlain(addr[12..]);
    } else if |addr| == 4 {
      OctetsPlain(addr);
    } else {
      NibblesPlain(addr);
    }
    forall l | l in Labels(addr) ensures '.' !in l {
      var i :| 0 <= i < |Labels(addr)| && Labels(addr)[i] == l;
    }
  }

  lemma NameIsLabels(b: Block)
    requires Accepted(b) && !IsMapped(b.addr)
    ensures NameOf(b).value == Join(NameLabels(b), '.')
    ensures forall l | l in NameLabels(b) :: '.' !in l
  {
    LabelsPlain(b.addr);
    if Classless(b) {
      AfterLabelsJoin(Labels(b.addr), 1);
      assert NameLabels(b)[1..] == Labels(b.addr)[1..];
    } else {
      AfterLabelsJoin(Labels(b.addr), ToTrim(b));
    }
  }

  /** A bare address gets its full reverse name; an IPv4 address in IPv6 form gets the IPv4 one. */
  lemma BareAddressName(addr: seq<Byte>)
    requires |addr| == 4 || |addr| == 16
    ensures NameOf(BlockOfAddress(addr)) == Ok(Join(Labels(addr), '.'))
  {
    var b := BlockOfAddress(addr);
    assert Masked(b.addr, b.bits) == b.addr;
    assert Labels(b.addr) == Labels(addr);
  }

  // ---- reading names back ----

  /** A byte written in decimal; anything else reads as 0. */
  function NumberOf(s: string): Byte {
    if (forall c | c in s :: IsDigit(c)) && ParseDecimal(s) < 256 then ParseDecimal(s) else 0
  }

  function HexValue(s: string): (v: int)
    ensures 0 <= v < 16
  {
    if |s| == 1 && '0' <= s[0] <= '9' then (s[0] - '0') as int
    else if |s| == 1 && 'a' <= s[0] <= 'f' then (s[0] - 'a') as int + 10
    else 0
  }

  function OctetAt(body: seq<string>, i: nat): Byte {
    if i < |body| then NumberOf(body[|body| - 1 - i]) else 0
  }

  function NibbleAt(body: seq<string>, j: nat): (v: int)
    ensures 0 <= v < 16
  {
    if j < |body| then HexValue(body[|body| - 1 - j]) else 0
  }

  function OctetsOf(body: seq<string>): (r: seq<Byte>)
    ensures |r| == 4
  {
    seq(4, i requires 0 <= i < 4 => OctetAt(body, i))
  }

  function BytesOf(body: seq<string>): (r: seq<Byte>)
    ensures |r| == 16
  {
    seq(16, i requires 0 <= i < 16 => 16 * NibbleAt(body, 2 * i) + NibbleAt(body, 2 * i + 1))
  }

  function DecodeInAddr(body: seq<string>): Block
    requires body != []
  {
    var k := IndexOf(body[0], '/');
    if k == |body[0]| then Block(OctetsOf(body), 8 * |body|)
    else Block(OctetsOf([body[0][..k]] + body[1..]), NumberOf(body[0][k + 1..]))
  }

  /** The block a reverse name stands for. */
  function DecodeLabels(ls: seq<string>): Option<Block> {
    if |ls| < 3 then None
    else
      var body, tail := ls[..|ls| - 2], ls[|ls| - 2..];
      if tail == IP6 then Some(Block(BytesOf(body), 4 * |body|))
      else if tail != IN_ADDR then None
      else Some(DecodeInAddr(body))
  }

  function DecodeName(name: string): Option<Block> {
    DecodeLabels(Split(name, '.'))
  }

  lemma NumberOfDecimal(b: Byte)
    ensures NumberOf(Decimal(b)) == b
  {
    ParseDecimalOf(b);
  }

  lemma HexValueOf(n: int)
    requires 0 <= n < 16
    ensures HexValue([HexDigit(n)]) == n
  {
  }

  lemma MaskedZero(addr: seq<Byte>, bits: nat, i: nat)
    requires Masked(addr, bits) == addr && i < |addr| && bits <= 8 * i
    ensures addr[i] == 0
  {
    assert Masked(addr, bits)[i] == MaskByte(addr[i], bits - 8 * i);
  }

  lemma MaskedHalf(addr: seq<Byte>, bits: nat, i: nat)
    requires Masked(addr, bits) == addr && i < |addr| && bits == 8 * i + 4
    ensures addr[i] % 16 == 0
  {
    assert Masked(addr, bits)[i] == MaskByte(addr[i], 4);
    assert Pow2(4) == 16;
  }

  /** Nothing past the mask is left in an accepted IPv6 block. */
  lemma NibblePastMask(b: Block, j: nat)
    requires Accepted(b) && |b.addr| == 16 && b.bits / 4 <= j < 32
    ensures Nibble(b.addr, j) == 0
  {
    var i := j / 2;
    if b.bits <= 8 * i {
      MaskedZero(b.addr, b.bits, i);
    } else {
      assert b.bits == 8 * i + 4;
      MaskedHalf(b.addr, b.bits, i);
    }
  }

  lemma DecodeParts(body: seq<string>, tail: seq<string>)
    requires body != [] && |tail| == 2
    ensures DecodeLabels(body + tail) ==
            if tail == IP6 then Some(Block(BytesOf(body), 4 * |body|))
            else if tail != IN_ADDR then None
            else Some(DecodeInAddr(body))
  {
    assert (body + tail)[..|body|] == body && (body + tail)[|body|..] == tail;
  }

  lemma CutFront(xs: seq<string>, tail: seq<string>, t: nat)
    requires t <= |xs|
    ensures (xs + tail)[t..] == xs[t..] + tail
  {
  }

  /** The last k octets read back, the others being 0. */
  lemma OctetsReadBack(addr: seq<Byte>, k: nat)
    requires |addr| == 4 && k <= 4 && forall i | k <= i < 4 :: addr[i] == 0
    ensures OctetsOf(Octets(addr)[4 - k..]) == addr
  {
    var body := Octets(addr)[4 - k..];
    forall i | 0 <= i < 4 ensures OctetAt(body, i) == addr[i] {
      if i < k {
        assert body[k - 1 - i] == Decimal(addr[i]);
        NumberOfDecimal(addr[i]);
      }
    }
  }

  lemma OctetsDecode(addr: seq<Byte>, k: nat)
    requires |addr| == 4 && 1 <= k <= 4 && forall i | k <= i < 4 :: addr[i] == 0
    ensures DecodeLabels(Octets(addr)[4 - k..] + IN_ADDR) == Some(Block(addr, 8 * k))
  {
    var body := Octets(addr)[4 - k..];
    DecodeParts(body, IN_ADDR);
    assert body[0] == Decimal(addr[k - 1]);
    DigitsPlain(body[0]);
    OctetsReadBack(addr, k);
  }

  lemma OctetLabels(b: Block, k: nat)
    requires ValidBlock(b) && |b.addr| == 4 && b.bits == 8 * k && 1 <= k <= 4
    ensures NameLabels(b) == Octets(b.addr)[4 - k..] + IN_ADDR
  {
    assert !Classless(b) && ToTrim(b) == 4 - k;
    CutFront(Octets(b.addr), IN_ADDR, 4 - k);
  }

  lemma OctetBits(b: Block) returns (k: nat)
    requires Accepted(b) && |b.addr| == 4 && !Classless(b)
    ensures 1 <= k <= 4 && b.bits == 8 * k && Masked(b.addr, b.bits) == b.addr
  {
    AcceptedBits(b);
    k := b.bits / 8;
  }

  lemma DecodeOctets(b: Block)
    requires Accepted(b) && |b.addr| == 4 && !Classless(b)
    ensures DecodeLabels(NameLabels(b)) == Some(b)
  {
    var k := OctetBits(b);
    OctetLabels(b, k);
    forall i | k <= i < 4 ensures b.addr[i] == 0 { MaskedZero(b.addr, b.bits, i); }
    OctetsDecode(b.addr, k);
  }

  lemma DecodeClassless(b: Block)
    requires Accepted(b) && Classless(b)
    ensures DecodeLabels(NameLabels(b)) == Some(b)
  {
    var last, bits := Decimal(b.addr[3]), Decimal(b.bits);
    var first := last + "/" + bits;
    var body := [first] + Octets(b.addr)[1..];
    CutFront(Octets(b.addr), IN_ADDR, 1);
    assert NameLabels(b) == body + IN_ADDR;
    DecodeParts(body, IN_ADDR);
    DigitsPlain(last);
    ClasslessParts(last, bits, body);
    NumberOfDecimal(b.bits);
    assert [last] + body[1..] == Octets(b.addr)[0..];
    OctetsReadBack(b.addr, 4);
  }

  lemma ClasslessParts(last: string, bits: string, body: seq<string>)
    requires Plain(last) && body != [] && body[0] == last + "/" + bits
    ensures DecodeInAddr(body) == Block(OctetsOf([last] + body[1..]), NumberOf(bits))
  {
    IndexOfIs(last, '/', bits);
    assert body[0][..|last|] == last && body[0][|last| + 1..] == bits;
  }

  lemma NibblesReadBack(addr: seq<Byte>, n: nat)
    requires |addr| == 16 && n <= 32 && forall j | n <= j < 32 :: Nibble(addr, j) == 0
    ensures BytesOf(Nibbles(addr)[32 - n..]) == addr
  {
    hide HexDigit, HexValue;
    var body := Nibbles(addr)[32 - n..];
    forall j | 0 <= j < 32 ensures NibbleAt(body, j) == Nibble(addr, j) {
      if j < n {
        assert body[n - 1 - j] == [HexDigit(Nibble(addr, j))];
        HexValueOf(Nibble(addr, j));
      }
    }
    forall i | 0 <= i < 16 ensures BytesOf(body)[i] == addr[i] {
      NibblesOf(addr, i);
    }
  }

  lemma DecodeNibbles(b: Block)
    requires Accepted(b) && |b.addr| == 16 && !IsMapped(b.addr)
    ensures DecodeLabels(NameLabels(b)) == Some(b)
  {
    var n := b.bits / 4;
    assert b.bits == 4 * n && ToTrim(b) == 32 - n && n >= 1;
    var body := Nibbles(b.addr)[32 - n..];
    CutFront(Nibbles(b.addr), IP6, 32 - n);
    DecodeParts(body, IP6);
    forall j | n <= j < 32 ensures Nibble(b.addr, j) == 0 { NibblePastMask(b, j); }
    NibblesReadBack(b.addr, n);
  }

  lemma {:induction false} AfterLabelsAdd(s: string, m: nat, n: nat)
    ensures AfterLabels(s, m + n) == AfterLabels(AfterLabels(s, m), n)
    decreases m
  {
    hide IndexOf;
    var k := IndexOf(s, '.');
    if m > 0 && k < |s| {
      var rest := s[k + 1..];
      assert AfterLabels(s, m) == AfterLabels(rest, m - 1);
      assert AfterLabels(s, m + n) == AfterLabels(rest, m - 1 + n);
      AfterLabelsAdd(rest, m - 1, n);
    }
  }

  /** Past the last label nothing more is cut. */
  lemma AfterAllLabels(ls: seq<string>, n: nat)
    requires ls != [] && n >= |ls| - 1 && forall l | l in ls :: '.' !in l
    ensures AfterLabels(Join(ls, '.'), n) == ls[|ls| - 1]
  {
    var m, last := |ls| - 1, ls[|ls| - 1];
    AfterLabelsAdd(Join(ls, '.'), m, n - m);
    AfterLabelsJoin(ls, m);
    assert ls[m..] == [last];
    assert last in ls;
  }

  lemma MappedDecodesElsewhere(b: Block)
    requires Accepted(b) && IsMapped(b.addr)
    ensures DecodeName(NameOf(b).value) != Some(b)
  {
    hide IsMapped, Masked, Octets;
    MappedLabels(b.addr);
    var octets, t := Octets(b.addr[12..]), ToTrim(b);
    if t <= 3 {
      MappedName(b);
      OctetsPlain(b.addr[12..]);
      assert forall l | l in octets[t..] + IN_ADDR :: l in octets + IN_ADDR;
      SplitJoin(octets[t..] + IN_ADDR, '.');
      DecodeParts(octets[t..], IN_ADDR);
    } else {
      ShortNameDecodesToNothing(octets + IN_ADDR, t);
    }
  }

  lemma MappedLabels(addr: seq<Byte>)
    requires IsMapped(addr)
    ensures |addr| == 16 && Labels(addr) == Octets(addr[12..]) + IN_ADDR
    ensures forall l | l in Labels(addr) :: '.' !in l
  {
    LabelsPlain(addr);
  }

  /** The name of an accepted block of that form keeps the octets outside the trimmed labels. */
  lemma MappedName(b: Block)
    requires Accepted(b) && IsMapped(b.addr) && ToTrim(b) <= 4
    ensures |b.addr| == 16
    ensures NameOf(b) == Ok(Join(Octets(b.addr[12..])[ToTrim(b)..] + IN_ADDR, '.'))
  {
    hide Octets, IsMapped, Masked, AfterLabels, Join, Labels;
    MappedLabels(b.addr);
    AfterLabelsJoin(Labels(b.addr), ToTrim(b));
    CutFront(Octets(b.addr[12..]), IN_ADDR, ToTrim(b));
  }

  lemma ShortNameDecodesToNothing(ls: seq<string>, t: nat)
    requires |ls| == 6 && t >= 4 && forall l | l in ls :: '.' !in l
    ensures DecodeName(AfterLabels(Join(ls, '.'), t)) == None
  {
    if t == 4 {
      AfterLabelsJoin(ls, t);
      SplitJoin(ls[t..], '.');
    } else {
      AfterAllLabels(ls, t);
      assert '.' !in ls[5];
    }
  }

  /** For all accepted blocks, the name can be read back exactly when the address is not an
      IPv4 address in IPv6 form. */
  lemma NameReadsBackExactly(b: Block)
    requires Accepted(b)
    ensures DecodeName(NameOf(b).value) == Some(b) <==> !IsMapped(b.addr)
  {
    if IsMapped(b.addr) {
      MappedDecodesElsewhere(b);
    } else {
      NameIsLabels(b);
      SplitJoin(NameLabels(b), '.');
      if Classless(b) {
        DecodeClassless(b);
      } else if |b.addr| == 4 {
        DecodeOctets(b);
      } else {
        DecodeNibbles(b);
      }
    }
  }

  /** Different blocks have different names. */
  lemma NamesAreDistinct(a: Block, b: Block)
    requires Accepted(a) && Accepted(b) && !IsMapped(a.addr) && !IsMapped(b.addr)
    requires NameOf(a) == NameOf(b)
    ensures a == b
  {
    NameReadsBackExactly(a);
    NameReadsBackExactly(b);
  }

  const MAPPED_ZERO: seq<Byte> := [0, 0, 0, 0, 0, 0, 0, 0, 0, 0, 255, 255, 0, 0, 0, 0]

  /** Without the restriction they collide: these two are both named "arpa". */
  lemma MappedNamesCollide()
    ensures NameOf(Block(MAPPED_ZERO, 96)) == NameOf(Block(MAPPED_ZERO, 100)) == Ok("arpa")
  {
    MappedZeroNamed(96);
    MappedZeroNamed(100);
  }

  lemma MappedZeroNamed(bits: nat)
    requires bits == 96 || bits == 100
    ensures NameOf(Block(MAPPED_ZERO, bits)) == Ok("arpa")
  {
    hide IsMapped, AfterLabels;
    MappedZeroKept(bits);
    MappedFar(Block(MAPPED_ZERO, bits));
  }

  lemma MappedZeroKept(bits: nat)
    requires bits == 96 || bits == 100
    ensures IsMapped(MAPPED_ZERO) && Masked(MAPPED_ZERO, bits) == MAPPED_ZERO
  {
    assert MAPPED_ZERO[..10] == seq(10, _ => 0);
    forall i | 0 <= i < 16 ensures Masked(MAPPED_ZERO, bits)[i] == MAPPED_ZERO[i] {
      if bits - 8 * i < 8 { MaskOfZero(bits - 8 * i); }
    }
  }

  /** With five labels or more to trim, only the last label is left. */
  lemma MappedFar(b: Block)
    requires ValidBlock(b) && IsMapped(b.addr) && ToTrim(b) >= 5
    ensures AfterLabels(Join(Labels(b.addr), '.'), ToTrim(b)) == "arpa"
  {
    hide IsMapped, Octets, AfterLabels, Join;
    MappedLabels(b.addr);
    AfterAllLabels(Labels(b.addr), ToTrim(b));
  }

  lemma MaskOfZero(keep: int)
    ensures MaskByte(0, keep) == 0
  {
  }

  /** The mask of an accepted block of that form leaves the prefix alone. */
  lemma MappedBits(b: Block)
    requires Accepted(b) && IsMapped(b.addr)
    ensures 96 <= b.bits && ToTrim(b) <= 8 && b.bits == 128 - 4 * ToTrim(b)
  {
    AcceptedBits(b);
    if b.bits < 96 {
      assert Masked(b.addr, b.bits)[11] == MaskByte(b.addr[11], b.bits - 88);
      PartialMaskChanges(255, b.bits - 88);
    }
  }

  lemma PartialMaskChanges(b: Byte, keep: int)
    requires b == 255 && keep < 8
    ensures MaskByte(b, keep) != b
  {
    if keep > 0 {
      var p := Pow2(8 - keep);
      assert p == 2 * Pow2(7 - keep);
      assert 255 % p != 0 by {
        if 255 % p == 0 { assert 255 == p * (255 / p); EvenProduct(Pow2(7 - keep), 255 / p); }
      }
    }
  }

  lemma EvenProduct(a: nat, b: nat)
    ensures (2 * a) * b % 2 == 0
  {
    assert (2 * a) * b == 2 * (a * b);
  }

  /** The IPv4 network whose octets the name keeps. */
  function Shadow(b: Block): Block
    requires |b.addr| == 16 && b.bits <= 128
  {
    var t := (128 - b.bits) / 4;
    if t <= 3 then Block(Masked(b.addr[12..], 32 - 8 * t), 32 - 8 * t)
    else if t == 4 then Block(b.addr[12 := if b.addr[12] == 255 then 0 else b.addr[12] + 1], b.bits)
    else Block(MAPPED_ZERO, if b == Block(MAPPED_ZERO, 96) then 100 else 96)
  }

  lemma OctetMaskIdempotent(addr: seq<Byte>, k: nat)
    requires |addr| == 4 && k <= 4
    ensures Masked(Masked(addr, 8 * k), 8 * k) == Masked(addr, 8 * k)
    ensures Octets(Masked(addr, 8 * k))[4 - k..] == Octets(addr)[4 - k..]
  {
    forall i | 0 <= i < 4 ensures Masked(addr, 8 * k)[i] == if i < k then addr[i] else 0 {}
  }

  lemma ShadowOfOctets(b: Block, t: nat)
    requires Accepted(b) && IsMapped(b.addr) && ToTrim(b) == t && t <= 3
    ensures Accepted(Shadow(b)) && NameOf(Shadow(b)) == NameOf(b)
  {
    hide Octets, IsMapped, Masked, Join, NameOf, Accepted;
    MappedName(b);
    OctetMaskIdempotent(b.addr[12..], 4 - t);
    assert Shadow(b) == Block(Masked(b.addr[12..], 8 * (4 - t)), 8 * (4 - t));
    OctetBlockNamed(Shadow(b), 4 - t);
  }

  lemma OctetBlockNamed(o: Block, k: nat)
    requires |o.addr| == 4 && o.bits == 8 * k && 1 <= k <= 4 && Masked(o.addr, o.bits) == o.addr
    ensures Accepted(o) && NameOf(o) == Ok(Join(Octets(o.addr)[4 - k..] + IN_ADDR, '.'))
  {
    hide Octets, Masked, Join, AfterLabels;
    OctetBlockAccepted(o, k);
    NameIsLabels(o);
    OctetLabels(o, k);
  }

  lemma OctetBlockAccepted(o: Block, k: nat)
    requires |o.addr| == 4 && o.bits == 8 * k && 1 <= k <= 4 && Masked(o.addr, o.bits) == o.addr
    ensures Accepted(o)
  {
  }

  lemma ShadowOfNoOctets(b: Block)
    requires Accepted(b) && IsMapped(b.addr) && ToTrim(b) == 4
    ensures Accepted(Shadow(b)) && NameOf(Shadow(b)) == NameOf(b) && Shadow(b) != b
  {
    MappedBits(b);
    var o := Shadow(b);
    assert o.addr[..12] == b.addr[..12];
    assert IsMapped(o.addr) by { assert o.addr[..10] == b.addr[..10]; }
    forall i | 0 <= i < 16 ensures Masked(o.addr, o.bits)[i] == o.addr[i] {
      assert Masked(b.addr, b.bits)[i] == b.addr[i];
    }
    assert Masked(o.addr, o.bits) == o.addr;
    LabelsPlain(o.addr);
    LabelsPlain(b.addr);
    AfterLabelsJoin(Labels(o.addr), 4);
    AfterLabelsJoin(Labels(b.addr), 4);
    assert Labels(o.addr)[4..] == IN_ADDR && Labels(b.addr)[4..] == IN_ADDR;
  }

  lemma ShadowOfNothing(b: Block)
    requires Accepted(b) && IsMapped(b.addr) && ToTrim(b) >= 5
    ensures Accepted(Shadow(b)) && NameOf(Shadow(b)) == NameOf(b) && Shadow(b) != b
  {
    hide IsMapped, Masked, AfterLabels, Join, Labels;
    MappedZeroNamed(96);
    MappedZeroNamed(100);
    MappedFar(b);
  }

  /** Every accepted IPv4 address block in IPv6 form shares its name with another block. */
  lemma MappedNameShared(b: Block)
    requires Accepted(b) && IsMapped(b.addr)
    ensures Accepted(Shadow(b)) && Shadow(b) != b && NameOf(Shadow(b)) == NameOf(b)
  {
    MappedBits(b);
    if ToTrim(b) <= 3 {
      ShadowOfOctets(b, ToTrim(b));
    } else if ToTrim(b) == 4 {
      ShadowOfNoOctets(b);
    } else {
      ShadowOfNothing(b);
    }
  }

  // ---- hierarchy ----

  /** outer is a strictly larger network around inner, on an octet or nibble boundary. */
  ghost predicate Encloses(outer: Block, inner: Block) {
    && |outer.addr| == |inner.addr| && outer.bits < inner.bits
    && Masked(inner.addr, outer.bits) == outer.addr
    && (|outer.addr| == 4 ==> outer.bits % 8 == 0)
  }

  /** Inside the outer mask the two addresses agree, byte by byte and half-byte by half-byte. */
  lemma SharedByte(outer: Block, inner: Block, i: nat)
    requires Encloses(outer, inner) && i < |outer.addr|
    ensures outer.bits >= 8 * i + 8 ==> inner.addr[i] == outer.addr[i]
    ensures outer.bits == 8 * i + 4 ==> inner.addr[i] / 16 == outer.addr[i] / 16
  {
    assert Masked(inner.addr, outer.bits)[i] == MaskByte(inner.addr[i], outer.bits - 8 * i);
    if outer.bits == 8 * i + 4 { HalfByte(inner.addr[i]); }
  }

  lemma HalfByte(b: Byte)
    ensures MaskByte(b, 4) / 16 == b / 16
  {
    assert Pow2(4) == 16;
  }

  lemma SharedOctets(outer: Block, inner: Block)
    requires Accepted(outer) && Accepted(inner) && Encloses(outer, inner) && |outer.addr| == 4
    ensures Labels(inner.addr)[ToTrim(outer)..] == Labels(outer.addr)[ToTrim(outer)..]
  {
    AcceptedBits(outer);
    var k := outer.bits / 8;
    assert outer.bits == 8 * k && ToTrim(outer) == 4 - k;
    OctetsAgree(outer, inner, k);
    CutFront(Octets(inner.addr), IN_ADDR, 4 - k);
    CutFront(Octets(outer.addr), IN_ADDR, 4 - k);
  }

  lemma OctetsAgree(outer: Block, inner: Block, k: nat)
    requires Encloses(outer, inner) && |outer.addr| == 4 && outer.bits == 8 * k && k <= 4
    ensures Octets(inner.addr)[4 - k..] == Octets(outer.addr)[4 - k..]
  {
    forall i | 4 - k <= i < 4 ensures Octets(inner.addr)[i] == Octets(outer.addr)[i] {
      SharedByte(outer, inner, 3 - i);
    }
  }

  lemma SharedNibble(outer: Block, inner: Block, j: nat)
    requires Encloses(outer, inner) && |outer.addr| == 16
    requires outer.bits % 4 == 0 && 4 * j < outer.bits <= 128
    ensures j < 32 && Nibble(inner.addr, j) == Nibble(outer.addr, j)
  {
    SharedByte(outer, inner, j / 2);
    SharedHalf(outer.bits, j);
    NibblesOf(inner.addr, j / 2);
    NibblesOf(outer.addr, j / 2);
  }

  lemma SharedHalf(bits: nat, j: nat)
    requires bits % 4 == 0 && 4 * j < bits
    ensures bits >= 8 * (j / 2) + 8 || (j % 2 == 0 && bits == 8 * (j / 2) + 4)
    ensures j == 2 * (j / 2) + j % 2
  {
  }

  lemma SharedNibbles(outer: Block, inner: Block)
    requires Accepted(outer) && Accepted(inner) && Encloses(outer, inner) && |outer.addr| == 16
    requires !IsMapped(outer.addr) && !IsMapped(inner.addr)
    ensures Labels(inner.addr)[ToTrim(outer)..] == Labels(outer.addr)[ToTrim(outer)..]
  {
    AcceptedBits(outer);
    var n := outer.bits / 4;
    assert outer.bits == 4 * n && ToTrim(outer) == 32 - n;
    NibblesAgree(outer, inner, n);
    CutFront(Nibbles(inner.addr), IP6, 32 - n);
    CutFront(Nibbles(outer.addr), IP6, 32 - n);
  }

  lemma NibblesAgree(outer: Block, inner: Block, n: nat)
    requires Encloses(outer, inner) && |outer.addr| == 16 && outer.bits == 4 * n && n <= 32
    ensures Nibbles(inner.addr)[32 - n..] == Nibbles(outer.addr)[32 - n..]
  {
    forall i | 32 - n <= i < 32 ensures Nibbles(inner.addr)[i] == Nibbles(outer.addr)[i] {
      SharedNibble(outer, inner, 31 - i);
    }
  }

  /** A smaller network's name ends in a dot and the name of every network around it, so the
      reverse zones delegate; this includes the classless names of RFC 2317. */
  lemma NamesNest(outer: Block, inner: Block)
    requires Accepted(outer) && Accepted(inner) && Encloses(outer, inner)
    requires !IsMapped(outer.addr) && !IsMapped(inner.addr)
    ensures HasSuffix(NameOf(inner).value, "." + NameOf(outer).value)
  {
    NameIsLabels(outer);
    NameIsLabels(inner);
    var t := ToTrim(outer);
    TrimsMore(outer, inner);
    OuterLabels(outer, inner);
    FrontSplits(inner, t);
    JoinedSuffix(Front(inner, t), NameLabels(outer));
  }

  lemma JoinedSuffix(front: seq<string>, ls: seq<string>)
    requires front != [] && ls != []
    ensures HasSuffix(Join(front + ls, '.'), "." + Join(ls, '.'))
  {
    JoinAppend(front, ls, '.');
    var p, t := Join(front, '.'), "." + Join(ls, '.');
    assert Join(front + ls, '.') == p + t;
    assert (p + t)[|p|..] == t;
  }

  lemma OuterLabels(outer: Block, inner: Block)
    requires Accepted(outer) && Accepted(inner) && Encloses(outer, inner)
    requires !IsMapped(outer.addr) && !IsMapped(inner.addr)
    ensures NameLabels(outer) == Labels(inner.addr)[ToTrim(outer)..] && NameLabels(outer) != []
  {
    TrimsMore(outer, inner);
    if |outer.addr| == 4 {
      SharedOctets(outer, inner);
    } else {
      SharedNibbles(outer, inner);
    }
  }

  /** The labels the smaller network adds in front. */
  function Front(b: Block, t: nat): seq<string>
    requires ValidBlock(b) && !IsMapped(b.addr) && 1 <= t <= |Labels(b.addr)|
    requires !Classless(b) ==> ToTrim(b) < t
  {
    if Classless(b) then [Decimal(b.addr[3]) + "/" + Decimal(b.bits)] + Labels(b.addr)[1..t]
    else Labels(b.addr)[ToTrim(b)..t]
  }

  lemma FrontSplits(b: Block, t: nat)
    requires ValidBlock(b) && !IsMapped(b.addr) && 1 <= t <= |Labels(b.addr)|
    requires !Classless(b) ==> ToTrim(b) < t
    ensures Front(b, t) != [] && NameLabels(b) == Front(b, t) + Labels(b.addr)[t..]
  {
    hide IsMapped, Labels, Decimal;
    CutTwice(Labels(b.addr), if Classless(b) then 1 else ToTrim(b), t);
  }

  lemma CutTwice(ls: seq<string>, a: nat, b: nat)
    requires a <= b <= |ls|
    ensures ls[a..] == ls[a..b] + ls[b..]
  {
  }

  lemma AcceptedBits(b: Block)
    requires Accepted(b)
    ensures 0 < b.bits <= 8 * |b.addr|
    ensures if |b.addr| == 16 then b.bits % 4 == 0 else Classless(b) || b.bits % 8 == 0
  {
  }

  lemma TrimsMore(outer: Block, inner: Block)
    requires Accepted(outer) && Accepted(inner) && Encloses(outer, inner)
    ensures !Classless(outer) && ToTrim(outer) >= 1
    ensures if |outer.addr| == 4 then ToTrim(outer) <= 3 else ToTrim(outer) <= 31
    ensures !Classless(inner) ==> ToTrim(inner) < ToTrim(outer)
  {
    AcceptedBits(outer);
    AcceptedBits(inner);
    if |outer.addr| == 4 {
      OctetTrim(outer.bits / 8, inner.bits / 8);
    } else {
      NibbleTrim(outer.bits / 4, inner.bits / 4);
    }
  }

  lemma OctetTrim(k: nat, m: nat)
    requires 1 <= k <= 3 && m <= 4
    ensures 1 <= (32 - 8 * k) / 8 <= 3
    ensures k < m ==> (32 - 8 * m) / 8 < (32 - 8 * k) / 8
  {
  }

  lemma NibbleTrim(n: nat, m: nat)
    requires 1 <= n < m <= 32
    ensures 1 <= (128 - 4 * n) / 4 <= 31 && (128 - 4 * m) / 4 < (128 - 4 * n) / 4
  {
  }

  // ---- the names, spelled out ----

  lemma JoinTwo(a: string, b: string)
    ensures Join([a, b], '.') == a + "." + b
  {
    JoinCons(a, [b], '.');
    assert [a] + [b] == [a, b];
  }

  lemma JoinMore(a: string, rest: seq<string>)
    requires rest != []
    ensures Join([a] + rest, '.') == a + "." + Join(rest, '.')
  {
    JoinCons(a, rest, '.');
  }

  lemma InAddrJoined()
    ensures Join(IN_ADDR, '.') == "in-addr.arpa"
  {
    JoinTwo("in-addr", "arpa");
    assert "in-addr" + "." + "arpa" == "in-addr.arpa";
  }

  /** The octets of an IPv4 network, last first, in front of the suffix. */
  function OctetName(octets: seq<string>): string {
    if octets == [] then "in-addr.arpa" else octets[0] + "." + OctetName(octets[1..])
  }

  lemma {:induction false} OctetNameIs(octets: seq<string>)
    ensures Join(octets + IN_ADDR, '.') == OctetName(octets)
  {
    if octets == [] {
      InAddrJoined();
      assert octets + IN_ADDR == IN_ADDR;
    } else {
      OctetNameIs(octets[1..]);
      assert octets + IN_ADDR == [octets[0]] + (octets[1..] + IN_ADDR);
      JoinMore(octets[0], octets[1..] + IN_ADDR);
    }
  }

  /** The name of an accepted IPv4 block: the octets inside the mask, last first, in decimal; a
      mask that ends within the last octet puts that octet, a slash and the mask in front. */
  lemma V4NameExactly(b: Block)
    requires Accepted(b) && |b.addr| == 4
    ensures var a := b.addr;
            NameOf(b) == Ok(
              if b.bits == 8 then OctetName([Decimal(a[0])])
              else if b.bits == 16 then OctetName([Decimal(a[1]), Decimal(a[0])])
              else if b.bits == 24 then OctetName([Decimal(a[2]), Decimal(a[1]), Decimal(a[0])])
              else if b.bits == 32 then OctetName([Decimal(a[3]), Decimal(a[2]), Decimal(a[1]), Decimal(a[0])])
              else Decimal(a[3]) + "/" + Decimal(b.bits) + "." + OctetName([Decimal(a[2]), Decimal(a[1]), Decimal(a[0])]))
  {
    hide Decimal, AfterLabels, Join, Masked, OctetName;
    var a := b.addr;
    AcceptedBits(b);
    var octets := [Decimal(a[3]), Decimal(a[2]), Decimal(a[1]), Decimal(a[0])];
    assert Octets(a) == octets;
    if Classless(b) {
      NameIsLabels(b);
      assert Labels(a)[1..] == octets[1..] + IN_ADDR;
      JoinMore(Decimal(a[3]) + "/" + Decimal(b.bits), octets[1..] + IN_ADDR);
      OctetNameIs(octets[1..]);
    } else {
      var k := b.bits / 8;
      OctetBlockNamed(b, k);
      OctetNameIs(octets[4 - k..]);
    }
  }

  /** Label j of the name of an IPv6 block is its half-byte counted from the end of the mask, in
      hexadecimal; the suffix follows. */
  lemma V6LabelExactly(b: Block, j: nat)
    requires Accepted(b) && |b.addr| == 16 && !IsMapped(b.addr)
    ensures |NameLabels(b)| == b.bits / 4 + 2
    ensures j < b.bits / 4 ==>
              var h := b.bits / 4 - 1 - j;
              NameLabels(b)[j] == ["0123456789abcdef"[if h % 2 == 0 then b.addr[h / 2] / 16 else b.addr[h / 2] % 16]]
    ensures NameLabels(b)[b.bits / 4..] == ["ip6", "arpa"]
    ensures NameOf(b) == Ok(Join(NameLabels(b), '.'))
  {
    hide AfterLabels, Join, Masked, IsMapped;
    AcceptedBits(b);
    NameIsLabels(b);
    var n := b.bits / 4;
    assert ToTrim(b) == 32 - n;
    CutFront(Nibbles(b.addr), IP6, 32 - n);
    assert NameLabels(b) == Nibbles(b.addr)[32 - n..] + IP6;
    if j < n {
      var h := n - 1 - j;
      assert NameLabels(b)[j] == Nibbles(b.addr)[32 - n + j] == [HexDigit(Nibble(b.addr, h))];
    }
  }

  const DOCUMENTED_V6: seq<Byte> := [0x20, 0x01, 0, 0, 0, 0, 0, 0, 0, 0, 0, 0, 0, 0, 0, 0]

  /** The three names in the program's own documentation. */
  lemma DocumentedNames()
    ensures NameOf(Block([10, 20, 30, 0], 24)) == Ok("30.20.10.in-addr.arpa")
    ensures NameOf(Block([10, 20, 30, 0], 25)) == Ok("0/25.30.20.10.in-addr.arpa")
    ensures NameOf(Block(DOCUMENTED_V6, 16)) == Ok("1.0.0.2.ip6.arpa")
  {
    DocumentedV4();
    DocumentedV6();
  }

  lemma DocumentedV4()
    ensures NameOf(Block([10, 20, 30, 0], 24)) == Ok("30.20.10.in-addr.arpa")
    ensures NameOf(Block([10, 20, 30, 0], 25)) == Ok("0/25.30.20.10.in-addr.arpa")
  {
    hide Masked, AfterLabels, Join, NameOf, OctetName, WithinMask, Decimal;
    var a: seq<Byte> := [10, 20, 30, 0];
    V4WithinMask(24);
    V4WithinMask(25);
    V4NameExactly(Block(a, 24));
    V4NameExactly(Block(a, 25));
    SmallDecimals();
    NameOfThree("30", "20", "10");
    DocumentedTexts();
  }

  lemma DocumentedTexts()
    ensures "30" + "." + "20" + "." + "10" + ".in-addr.arpa" == "30.20.10.in-addr.arpa"
    ensures "0" + "/" + "25" + "." + "30.20.10.in-addr.arpa" == "0/25.30.20.10.in-addr.arpa"
  {
  }

  lemma ZeroMod(p: nat)
    requires p > 0
    ensures 0 % p == 0
  {
  }

  lemma V4WithinMask(bits: nat)
    requires bits == 24 || bits == 25
    ensures Accepted(Block([10, 20, 30, 0], bits))
  {
    hide Masked, AfterLabels, Join, NameOf, Pow2, Accepted;
    var b := Block([10, 20, 30, 0], bits);
    assert WithinMask(b) by {
      forall i | 0 <= i < 4 && 8 * i < bits < 8 * i + 8 ensures b.addr[i] % Pow2(8 * i + 8 - bits) == 0 {
        assert i == 3;
        ZeroMod(Pow2(8 * i + 8 - bits));
      }
    }
    AcceptedExactly(b);
  }

  lemma SmallDecimals()
    ensures Decimal(0) == "0" && Decimal(10) == "10" && Decimal(20) == "20" && Decimal(25) == "25" && Decimal(30) == "30"
  {
    assert Decimal(1) == "1" && Decimal(2) == "2" && Decimal(3) == "3";
  }

  lemma NameOfThree(a: string, b: string, c: string)
    ensures OctetName([a, b, c]) == a + "." + b + "." + c + ".in-addr.arpa"
  {
    assert [a, b, c][1..] == [b, c] && [b, c][1..] == [c];
    assert [c][1..] == [];
    assert OctetName([c]) == c + "." + "in-addr.arpa";
    assert c + "." + "in-addr.arpa" == c + ".in-addr.arpa";
    assert a + "." + (b + "." + (c + ".in-addr.arpa")) == a + "." + b + "." + c + ".in-addr.arpa";
  }

  lemma DocumentedV6()
    ensures NameOf(Block(DOCUMENTED_V6, 16)) == Ok("1.0.0.2.ip6.arpa")
  {
    hide Accepted, AfterLabels, Join, NameOf, NameLabels, IsMapped;
    var b := Block(DOCUMENTED_V6, 16);
    V6WithinMask();
    V6Labels();
    V6LabelExactly(b, 0);
    JoinedSix("1", "0", "0", "2", "ip6", "arpa");
    assert "1" + "." + ("0" + "." + ("0" + "." + ("2" + "." + ("ip6" + "." + "arpa")))) == "1.0.0.2.ip6.arpa";
  }

  lemma V6WithinMask()
    ensures Accepted(Block(DOCUMENTED_V6, 16)) && !IsMapped(DOCUMENTED_V6)
  {
    hide Masked, AfterLabels, Join, NameOf;
    AcceptedExactly(Block(DOCUMENTED_V6, 16));
  }

  lemma V6LabelAt(j: nat)
    requires j < 4 && Accepted(Block(DOCUMENTED_V6, 16)) && !IsMapped(DOCUMENTED_V6)
    ensures |NameLabels(Block(DOCUMENTED_V6, 16))| == 6
    ensures NameLabels(Block(DOCUMENTED_V6, 16))[j] == ["1", "0", "0", "2"][j]
    ensures NameLabels(Block(DOCUMENTED_V6, 16))[4..] == ["ip6", "arpa"]
  {
    hide Accepted, NameOf, NameLabels, IsMapped, Join;
    V6LabelExactly(Block(DOCUMENTED_V6, 16), j);
  }

  lemma V6Labels()
    ensures Accepted(Block(DOCUMENTED_V6, 16)) && !IsMapped(DOCUMENTED_V6)
    ensures NameLabels(Block(DOCUMENTED_V6, 16)) == ["1", "0", "0", "2", "ip6", "arpa"]
  {
    hide Accepted, NameOf, NameLabels, IsMapped;
    V6WithinMask();
    var ls := NameLabels(Block(DOCUMENTED_V6, 16));
    V6LabelAt(0);
    forall j | 0 <= j < 4 ensures ls[j] == ["1", "0", "0", "2"][j] { V6LabelAt(j); }
    assert ls[4..][0] == ls[4] && ls[4..][1] == ls[5];
  }

  lemma JoinedSix(a: string, b: string, c: string, d: string, e: string, f: string)
    ensures Join([a, b, c, d, e, f], '.') == a + "." + (b + "." + (c + "." + (d + "." + (e + "." + f))))
  {
    assert [a, b, c, d, e, f] == [a] + ([b] + ([c] + ([d] + [e, f])));
    JoinTwo(e, f);
    JoinMore(d, [e, f]);
    JoinMore(c, [d] + [e, f]);
    JoinMore(b, [c] + ([d] + [e, f]));
    JoinMore(a, [b] + ([c] + ([d] + [e, f])));
  }
}

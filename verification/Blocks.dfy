/**
 parseBlock: the value of a location block of one operation, an address or an unsigned LEB128 constant
 (sections 2.5.1.1, 2.5.1.4 and 7.6 of DWARF 4).
 */
module Blocks {
  import opened Basics

  type byte = x: nat | x < 256

  const DW_OP_addr: byte := 0x03
  const DW_OP_plus_uconst: byte := 0x23

  // ---- 64-bit operations ----

  function Pow2(k: nat): (r: nat)
    ensures r > 0
  {
    if k == 0 then 1 else 2 * Pow2(k - 1)
  }

  function ShiftLeft(x: u64, k: nat): u64 {
    x * Pow2(k) % U64
  }

  // Bitwise or.
  function Or(a: nat, b: nat): nat
    decreases a + b
  {
    if a == 0 && b == 0 then 0
    else (if a % 2 == 1 || b % 2 == 1 then 1 else 0) + 2 * Or(a / 2, b / 2)
  }

  lemma {:induction false} OrZero(b: nat)
    ensures Or(0, b) == b
  {
    if b > 0 { OrZero(b / 2); }
  }

  // Below the bits of `b` the or is a sum.
  lemma {:induction false} OrIsSum(a: nat, b: nat, k: nat)
    requires a < Pow2(k)
    ensures Or(a, b * Pow2(k)) == a + b * Pow2(k)
  {
    if k == 0 {
      OrZero(b);
    } else {
      var c := b * Pow2(k - 1);
      assert b * Pow2(k) == 2 * c;
      OrIsSum(a / 2, b, k - 1);
      assert Or(a, 2 * c) == a % 2 + 2 * Or(a / 2, c);
    }
  }

  lemma {:induction false} PowSum(j: nat, k: nat)
    ensures Pow2(j + k) == Pow2(j) * Pow2(k)
  {
    if j > 0 { PowSum(j - 1, k); }
  }

  lemma {:induction false} PowMonotone(j: nat, k: nat)
    requires j <= k
    ensures Pow2(j) <= Pow2(k)
  {
    if j < k { PowMonotone(j, k - 1); }
  }

  lemma Pow7()
    ensures Pow2(7) == 128 && Pow2(56) < U64
  {
    assert Pow2(7) == 128;
    PowSum(7, 7);
    PowSum(14, 14);
    PowSum(28, 28);
  }

  // ---- what the encodings mean ----

  // Little-endian bytes.
  function LittleEndian(bytes: seq<byte>): nat {
    if bytes == [] then 0 else bytes[0] + 256 * LittleEndian(bytes[1..])
  }

  // Unsigned LEB128: seven bits a byte, low ones first, up to a byte below 128 or the end.
  function Uleb(bytes: seq<byte>): nat {
    if bytes == [] then 0
    else if bytes[0] < 128 then bytes[0]
    else bytes[0] - 128 + 128 * Uleb(bytes[1..])
  }

  // The encoding of `v` in `n` bytes, padded with zero groups if it needs fewer.
  function EncodeUleb(v: nat, n: nat): (bytes: seq<byte>)
    requires n > 0 && v < Pow2(7 * n)
    ensures |bytes| == n
  {
    if n == 1 then
      Pow7();
      [v]
    else
      PowSum(7, 7 * (n - 1));
      Pow7();
      QuotientFits(v, Pow2(7 * (n - 1)));
      [v % 128 + 128] + EncodeUleb(v / 128, n - 1)
  }

  lemma QuotientFits(v: nat, p: nat)
    requires v < 128 * p
    ensures v / 128 < p
  {}

  function EncodeLittleEndian(v: nat, n: nat): (bytes: seq<byte>)
    requires v < Pow2(8 * n)
    ensures |bytes| == n
  {
    if n == 0 then []
    else
      PowSum(8, 8 * (n - 1));
      assert Pow2(8) == 256;
      ByteQuotientFits(v, Pow2(8 * (n - 1)));
      [v % 256] + EncodeLittleEndian(v / 256, n - 1)
  }

  lemma ByteQuotientFits(v: nat, p: nat)
    requires v < 256 * p
    ensures v / 256 < p
  {}

  // ---- parseBlock ----

  // The value of a block; None is the failing assertion on the length of a constant.
  function BlockValue(blen: nat, data: seq<byte>): Option<nat>
    requires data != [] && blen <= |data| && (data[0] == DW_OP_addr ==> |data| >= 9)
  {
    if data[0] == DW_OP_addr then Some(LittleEndian(data[1..9]))
    else if data[0] == DW_OP_plus_uconst then
      if blen > 9 then None else Some(Uleb(if blen == 0 then [] else data[1..blen]))
    else Some(0)
  }

  /**
   `data` is the memory from bdata on, of which the block is the first `blen` bytes; an address is read
   from nine bytes, whatever `blen` says.
   */
  method ParseBlock(blen: nat, data: seq<byte>) returns (result: Option<u64>)
    requires data != [] && blen <= |data| && (data[0] == DW_OP_addr ==> |data| >= 9)
    ensures result == BlockValue(blen, data)
    ensures result == None <==> data[0] == 0x23 && blen > 9
    ensures data[0] == 0x03 ==> result == Some(LittleEndian(data[1..9]))
    ensures data[0] == 0x23 && blen <= 9 ==> result == Some(Uleb(if blen == 0 then [] else data[1..blen]))
    ensures data[0] != 0x03 && data[0] != 0x23 ==> result == Some(0)
  {
    if data[0] == DW_OP_addr {
      var address := ParseAddress(data);
      return Some(address);
    } else if data[0] == DW_OP_plus_uconst {
      if blen > 9 { return None; }
      var constant := ParseConstant(blen, data);
      return Some(constant);
    } else {
      return Some(0);
    }
  }

  method ParseAddress(data: seq<byte>) returns (result: u64)
    requires |data| >= 9
    ensures result == LittleEndian(data[1..9])
  {
    result := 0;
    var i := 1;
    while i < 9
      invariant 1 <= i <= 9 && result == LittleEndian(data[10 - i..9]) && result < Pow2(8 * (i - 1))
    {
      AddressStep(data, i);
      result := ShiftLeft(result, 8);
      result := (result + data[9 - i]) % U64;
      i := i + 1;
    }
  }

  // One more byte at the low end; eight of them fit into 64 bits.
  lemma {:induction false} AddressStep(data: seq<byte>, i: nat)
    requires 1 <= i < 9 <= |data| && LittleEndian(data[10 - i..9]) < Pow2(8 * (i - 1))
    ensures var low := LittleEndian(data[10 - i..9]);
            && LittleEndian(data[9 - i..9]) == 256 * low + data[9 - i] < Pow2(8 * i) <= U64
            && 256 * low < U64 && Pow2(8) == 256
  {
    var low := LittleEndian(data[10 - i..9]);
    assert data[9 - i..9][1..] == data[10 - i..9];
    assert Pow2(8) == 256;
    PowSum(8, 8 * (i - 1));
    PowMonotone(8 * i, 64);
    Pow64();
  }

  lemma Pow64()
    ensures Pow2(64) == U64
  {
    assert Pow2(8) == 256;
    PowSum(8, 8);
    PowSum(16, 16);
    PowSum(32, 32);
  }

  method ParseConstant(blen: nat, data: seq<byte>) returns (result: u64)
    requires data != [] && blen <= |data| && blen <= 9
    ensures result == Uleb(if blen == 0 then [] else data[1..blen])
  {
    result := 0;
    var i := 1;
    ghost var rest := if blen == 0 then [] else data[1..blen];
    ghost var whole := Uleb(rest);
    while i < blen
      invariant 1 <= i && (i <= blen || blen == 0)
      invariant rest == if blen == 0 then [] else data[i..blen]
      invariant Decoded(whole, result, rest, i)
    {
      var byte := data[i];
      DecodeStep(whole, result, rest, i);
      result := Or(result, ShiftLeft(byte % 128, (i - 1) * 7));
      if byte < 128 { return; }
      rest := rest[1..];
      i := i + 1;
    }
  }

  // `whole` is made of the groups before byte `i`, which come to `result`, and of the groups of `rest`.
  ghost predicate Decoded(whole: nat, result: nat, rest: seq<byte>, i: nat)
    requires i >= 1
  {
    && result < Pow2(7 * (i - 1)) && whole == result + Uleb(rest) * Pow2(7 * (i - 1))
    && (rest == [] ==> whole == result)
  }

  lemma {:induction false} DecodeStep(whole: nat, result: nat, rest: seq<byte>, i: nat)
    requires 1 <= i < 9 && rest != [] && Decoded(whole, result, rest, i)
    ensures Or(result, ShiftLeft(rest[0] % 128, (i - 1) * 7)) < U64
    ensures var result1 := Or(result, ShiftLeft(rest[0] % 128, (i - 1) * 7));
            if rest[0] < 128 then result1 == whole else Decoded(whole, result1, rest[1..], i + 1)
  {
    hide Or, ShiftLeft, Pow2;
    ConstantStep(result, rest[0], i);
    UlebFirst(rest);
    if rest[0] >= 128 {
      Regroup(rest[0], Uleb(rest[1..]), Pow2(7 * (i - 1)));
      assert 7 * (i + 1 - 1) == 7 * i;
    } else {
      assert rest[0] % 128 == rest[0];
    }
  }

  lemma {:induction false} UlebFirst(bytes: seq<byte>)
    requires bytes != []
    ensures Uleb(bytes) == if bytes[0] < 128 then bytes[0] else bytes[0] - 128 + 128 * Uleb(bytes[1..])
    ensures bytes[1..] == [] ==> Uleb(bytes[1..]) == 0
  {}

  lemma Regroup(byte: byte, u: nat, p: nat)
    requires byte >= 128
    ensures (byte - 128 + 128 * u) * p == byte % 128 * p + u * (128 * p)
  {
    assert byte % 128 == byte - 128;
    Distribute(byte - 128, u, p);
  }

  lemma Distribute(x: nat, u: nat, p: nat)
    ensures (x + 128 * u) * p == x * p + u * (128 * p)
  {
    assert (x + 128 * u) * p == x * p + (128 * u) * p;
    assert (128 * u) * p == u * (128 * p);
  }

  // One more group of seven bits at the high end; eight of them fit into 64 bits.
  lemma ConstantStep(result: nat, byte: byte, i: nat)
    requires 1 <= i < 9 && result < Pow2(7 * (i - 1))
    ensures var p, group := Pow2(7 * (i - 1)), byte % 128;
            && Pow2(7 * i) == 128 * p
            && Or(result, ShiftLeft(group, (i - 1) * 7)) == result + group * p < 128 * p <= U64
  {
    var k, group := 7 * (i - 1), byte % 128;
    Pow7();
    PowSum(7, k);
    PowMonotone(7 * i, 56);
    GroupFits(group, result, Pow2(k));
    OrIsSum(result, group, k);
  }

  lemma GroupFits(group: nat, r: nat, p: nat)
    requires group < 128 && r < p && 128 * p < U64
    ensures r + group * p < 128 * p && group * p % U64 == group * p
  {
    assert group * p <= 127 * p;
  }

  // What the bytes of a constant come to, one by one.
  function Groups(bytes: seq<byte>): nat {
    if bytes == [] then 0 else bytes[|bytes| - 1] % 128 * Pow2(7 * (|bytes| - 1)) + Groups(bytes[..|bytes| - 1])
  }

  lemma {:induction false} GroupsFrom(bytes: seq<byte>)
    requires bytes != []
    ensures Groups(bytes) == bytes[0] % 128 + 128 * Groups(bytes[1..])
  {
    var n := |bytes| - 1;
    if n == 0 {
      assert bytes[..0] == [] && bytes[1..] == [] && Pow2(0) == 1;
    } else {
      GroupsFrom(bytes[..n]);
      assert bytes[1..][..n - 1] == bytes[..n][1..];
      Pow7();
      PowSum(7, 7 * (n - 1));
      Scale(bytes[n] % 128, Pow2(7 * (n - 1)));
    }
  }

  lemma Scale(x: nat, p: nat)
    ensures x * (128 * p) == 128 * (x * p)
  {}

  // A constant that its block cuts off before a byte below 128 is the sum of the groups there are.
  lemma {:induction false} CutOffConstant(bytes: seq<byte>)
    requires forall i | 0 <= i < |bytes| :: bytes[i] >= 128
    ensures Uleb(bytes) == Groups(bytes)
  {
    if bytes != [] {
      CutOffConstant(bytes[1..]);
      GroupsFrom(bytes);
    }
  }

  // ---- round trips ----

  // Any bytes of which exactly the last is below 128 encode their value; padding is such bytes, too.
  ghost predicate IsUleb(bytes: seq<byte>) {
    bytes != [] && bytes[|bytes| - 1] < 128 && forall i | 0 <= i < |bytes| - 1 :: bytes[i] >= 128
  }

  lemma {:induction false} EncodeIsUleb(v: nat, n: nat)
    requires n > 0 && v < Pow2(7 * n)
    ensures IsUleb(EncodeUleb(v, n))
  {
    if n > 1 {
      PowSum(7, 7 * (n - 1));
      Pow7();
      QuotientFits(v, Pow2(7 * (n - 1)));
      EncodeIsUleb(v / 128, n - 1);
    } else {
      Pow7();
    }
  }

  // Decoding an encoding gives the value back, whatever follows ...
  lemma {:induction false} UlebRoundTrip(v: nat, n: nat, rest: seq<byte>)
    requires n > 0 && v < Pow2(7 * n)
    ensures Uleb(EncodeUleb(v, n) + rest) == v
  {
    Pow7();
    var bytes := EncodeUleb(v, n);
    if n > 1 {
      PowSum(7, 7 * (n - 1));
      QuotientFits(v, Pow2(7 * (n - 1)));
      UlebRoundTrip(v / 128, n - 1, rest);
      assert (bytes + rest)[1..] == EncodeUleb(v / 128, n - 1) + rest;
    }
  }

  // ... and every encoding is the one of its value and length.
  lemma {:induction false} UlebIsEncoded(bytes: seq<byte>)
    requires IsUleb(bytes)
    ensures Uleb(bytes) < Pow2(7 * |bytes|) && EncodeUleb(Uleb(bytes), |bytes|) == bytes
  {
    if |bytes| == 1 {
      Pow7();
    } else {
      UlebIsEncoded(bytes[1..]);
      EncodeNext(bytes[0], Uleb(bytes[1..]), |bytes|);
      assert bytes == [bytes[0]] + bytes[1..];
    }
  }

  lemma {:induction false} EncodeNext(byte: byte, u: nat, n: nat)
    requires byte >= 128 && n > 1 && u < Pow2(7 * (n - 1))
    ensures var v := byte - 128 + 128 * u; v < Pow2(7 * n) && EncodeUleb(v, n) == [byte] + EncodeUleb(u, n - 1)
  {
    Pow7();
    PowSum(7, 7 * (n - 1));
    FirstGroup(byte, u, Pow2(7 * (n - 1)));
  }

  lemma FirstGroup(byte: byte, u: nat, p: nat)
    requires byte >= 128 && u < p
    ensures var v := byte - 128 + 128 * u; v < 128 * p && v / 128 == u && v % 128 == byte - 128
  {}

  lemma {:induction false} LittleEndianRoundTrip(v: nat, n: nat)
    requires v < Pow2(8 * n)
    ensures LittleEndian(EncodeLittleEndian(v, n)) == v
  {
    if n > 0 {
      PowSum(8, 8 * (n - 1));
      assert Pow2(8) == 256;
      ByteQuotientFits(v, Pow2(8 * (n - 1)));
      LittleEndianRoundTrip(v / 256, n - 1);
      assert EncodeLittleEndian(v, n)[1..] == EncodeLittleEndian(v / 256, n - 1);
    }
  }

  // parseBlock inverts the encoding of every constant in at most eight bytes, padded or not ...
  lemma {:induction false} ConstantRoundTrip(v: nat, n: nat, rest: seq<byte>)
    requires 0 < n <= 8 && v < Pow2(7 * n) && n + |rest| <= 8
    ensures var data := [DW_OP_plus_uconst] + EncodeUleb(v, n) + rest; BlockValue(|data|, data) == Some(v)
  {
    UlebRoundTrip(v, n, rest);
    var data := [DW_OP_plus_uconst] + EncodeUleb(v, n) + rest;
    assert data[1..|data|] == EncodeUleb(v, n) + rest;
  }

  // ... and that of every address, whatever follows.
  lemma {:induction false} AddressRoundTrip(a: u64, rest: seq<byte>)
    ensures a < Pow2(8 * 8)
    ensures var data := [DW_OP_addr] + EncodeLittleEndian(a, 8) + rest; BlockValue(|data|, data) == Some(a)
  {
    Pow64();
    LittleEndianRoundTrip(a, 8);
    var data := [DW_OP_addr] + EncodeLittleEndian(a, 8) + rest;
    assert data[1..9] == EncodeLittleEndian(a, 8);
  }
}

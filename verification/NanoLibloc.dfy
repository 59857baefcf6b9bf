/** The reference IPv4 walk the geo reader is ported from (reference/nanolibloc.c): a 32-bit
    shift register, byte offsets in 32-bit arithmetic, 33 steps. */
module NanoLibloc {
  import opened Bytes
  import opened Geo

  /** The reference multiplies first: its bound test on a byte offset. */
  function Offset(idx: nat): nat {
    idx * ENTRY % U32_MAX
  }

  /** The port's division test and the reference's offset test agree on every index that does
      not wrap exactly when the table holds whole nodes only. */
  lemma BoundsAgreeIff(len: nat)
    requires len <= U32_MAX
    ensures (forall idx: nat :: Fits(idx) ==> (EntryOob(idx, len) <==> Offset(idx) >= len))
            <==> len % ENTRY == 0
  {
    if len % ENTRY != 0 {
      var idx := len / ENTRY;
      assert EntryOob(idx, len) && Offset(idx) < len;
    }
  }

  /** Over all 32-bit indices the wrap tells them apart on every table but the empty one: index
      2^30 has offset 0. */
  lemma BoundsAgreeOnAllIff(len: nat)
    requires len <= U32_MAX && len % ENTRY == 0
    ensures (forall idx: nat :: idx < U32_MAX ==> (EntryOob(idx, len) <==> Offset(idx) >= len)) <==> len == 0
  {
    if len > 0 {
      var idx: nat := 0x4000_0000;
      assert Offset(idx) == 0 && EntryOob(idx, len);
    }
  }

  predicate Fits(idx: nat) {
    idx * ENTRY < U32_MAX
  }

  /** The reference can walk this address safely: whole nodes, and no index on the address's own
      path that wraps. */
  predicate Unwrapped(nt: seq<byte>, root: nat, bits: seq<nat>)
    requires |bits| == 32 && Binary(bits)
  {
    && |nt| <= U32_MAX && |nt| % ENTRY == 0 && Fits(root)
    && forall k :: 0 <= k < 32 && Follow(nt, root, bits, k).At? ==>
         Fits(Child(nt, Follow(nt, root, bits, k).node, bits[k]))
  }

  // ---- the shift register ----

  /** The number spelled by the bits from k on, in place. */
  function Value(bits: seq<nat>, k: nat): nat
    requires |bits| == 32 && k <= 32
    decreases 32 - k
  {
    if k == 32 then 0 else bits[k] * Pow2(31 - k) + Value(bits, k + 1)
  }

  lemma {:induction false} ValueBound(bits: seq<nat>, k: nat)
    requires |bits| == 32 && Binary(bits) && k <= 32
    ensures Value(bits, k) < Pow2(32 - k)
    decreases 32 - k
  {
    if k < 32 {
      ValueBound(bits, k + 1);
    }
  }

  /** The register before step k. */
  function Register(bits: seq<nat>, k: nat): nat
    requires |bits| == 32 && k <= 32
  {
    Value(bits, k) * Pow2(k)
  }

  lemma RegisterStep(bits: seq<nat>, k: nat)
    requires |bits| == 32 && Binary(bits) && k < 32
    ensures Register(bits, k) < U32_MAX
    ensures Register(bits, k) / 0x8000_0000 == bits[k]
    ensures 2 * Register(bits, k) % U32_MAX == Register(bits, k + 1)
  {
    RegisterSplits(bits, k);
  }

  /** The register is its top bit over what the remaining bits spell. */
  lemma RegisterSplits(bits: seq<nat>, k: nat)
    requires |bits| == 32 && Binary(bits) && k < 32
    ensures 2 * (Register(bits, k) - bits[k] * 0x8000_0000) == Register(bits, k + 1)
    ensures 0 <= Register(bits, k) - bits[k] * 0x8000_0000 < 0x8000_0000
  {
    hide Pow2;
    var v, p, q := Value(bits, k + 1), Pow2(31 - k), Pow2(k);
    ValueBound(bits, k + 1);
    Pow2Values();
    Pow2Add(31 - k, k);
    Pow2Add(1, k);
    assert Value(bits, k) == bits[k] * p + v;
    hide Value;
    SplitProduct(bits[k], p, v, q);
  }

  lemma SplitProduct(bit: nat, p: nat, v: nat, q: nat)
    requires q > 0 && v < p && p * q == 0x8000_0000
    ensures (bit * p + v) * q - bit * 0x8000_0000 == v * q
    ensures 0 <= v * q < 0x8000_0000
    ensures v * (2 * q) == 2 * (v * q)
  {
    ScaleStep(bit, p, v, q);
    Product(v, p, q);
    Doubled(v, q);
  }

  lemma Doubled(v: nat, q: nat)
    ensures v * (2 * q) == 2 * (v * q)
  {
  }

  lemma Product(a: nat, b: nat, c: nat)
    requires a < b && c > 0
    ensures a * c < b * c
  {
  }

  /** The low i bits of byte j, in place, before the bytes that follow. */
  lemma {:induction false} ByteValue(v4: seq<byte>, j: nat, i: nat)
    requires |v4| == 4 && j < 4 && i <= 8
    ensures Value(Bits(v4), 8 * j + 8 - i) == LowBits(v4[j] as nat, i) * Pow2(24 - 8 * j) + Value(Bits(v4), 8 * j + 8)
  {
    hide Pow2, Bits, BitOf, Value, LowBits;
    NoLowBits(v4[j] as nat);
    if i > 0 {
      var k, b := 8 * j + 8 - i, v4[j] as nat;
      ByteValue(v4, j, i - 1);
      Pow2Add(i - 1, 24 - 8 * j);
      AddressBit(v4, j, i - 1);
      ValueStep(Bits(v4), k);
      LowBitsStep(b, i);
      AddBit(Value(Bits(v4), k), BitOf(b, i - 1), Pow2(i - 1), LowBits(b, i - 1), Pow2(24 - 8 * j), Value(Bits(v4), 8 * j + 8));
    }
  }

  lemma ValueStep(bits: seq<nat>, k: nat)
    requires |bits| == 32 && k < 32
    ensures Value(bits, k) == bits[k] * Pow2(31 - k) + Value(bits, k + 1)
  {
  }

  lemma LowBitsStep(b: nat, i: nat)
    requires i > 0
    ensures LowBits(b, i) == BitOf(b, i - 1) * Pow2(i - 1) + LowBits(b, i - 1)
  {
  }

  lemma NoLowBits(b: nat)
    ensures LowBits(b, 0) == 0
  {
  }

  lemma AddBit(v: nat, bit: nat, p: nat, low: nat, q: nat, tail: nat)
    requires v == bit * (p * q) + (low * q + tail)
    ensures v == (bit * p + low) * q + tail
  {
    ScaleStep(bit, p, low, q);
  }

  lemma AddressBit(v4: seq<byte>, j: nat, i: nat)
    requires |v4| == 4 && j < 4 && i < 8
    ensures Bits(v4)[8 * j + 7 - i] == BitOf(v4[j] as nat, i)
  {
    hide BitOf;
  }

  lemma ScaleStep(bit: nat, p: nat, low: nat, q: nat)
    ensures (bit * p + low) * q == bit * (p * q) + low * q
  {
  }

  /** The packed address spells its own bits. */
  lemma PackedAddress(v4: seq<byte>)
    requires |v4| == 4
    ensures U32(v4, 0) == Register(Bits(v4), 0)
  {
    hide Pow2, Value, Bits;
    Pow2Values();
    WholeByte(v4, 0);
    WholeByte(v4, 1);
    WholeByte(v4, 2);
    WholeByte(v4, 3);
    EmptyValue(Bits(v4));
  }

  lemma EmptyValue(bits: seq<nat>)
    requires |bits| == 32
    ensures Value(bits, 32) == 0
  {
  }

  lemma WholeByte(v4: seq<byte>, j: nat)
    requires |v4| == 4 && j < 4
    ensures Value(Bits(v4), 8 * j) == v4[j] as nat * Pow2(24 - 8 * j) + Value(Bits(v4), 8 * j + 8)
  {
    hide Pow2, Value, Bits;
    Pow2Values();
    ByteValue(v4, j, 8);
    AllBits(v4[j] as nat);
  }

  /** locdb_lookup4 from a given root: on tables it can walk safely it is the same
      longest-prefix match as the port. */
  method Lookup4(nt: seq<byte>, root: nat, v4: seq<byte>) returns (ret: int)
    requires |v4| == 4 && Unwrapped(nt, root, Bits(v4))
    ensures IsMatch(nt, root, Bits(v4), ret)
  {
    hide U32, EntryOob, IsMatch, Bits, Register, Fits, Unwrapped, LastLeaf;
    var address := U32(v4, 0);
    ret := -1;
    var nxt: nat := root;
    ghost var bits := Bits(v4);
    PackedAddress(v4);
    BitsBinary(v4);
    NoLeafYet(nt, root, bits);
    RootFits(nt, root, bits);
    var mask: nat := 0;
    while mask <= 32
      invariant 0 <= mask <= 33
      invariant mask <= 32 ==> Fits(nxt)
      invariant mask <= 32 ==> address == Register(bits, mask)
      invariant mask <= 32 ==> Follow(nt, root, bits, mask) == Enter(nt, nxt)
      invariant forall k :: 0 <= k < mask ==> Follow(nt, root, bits, k).At?
      invariant ret == LastLeaf(nt, root, bits, mask)
    {
      var off := nxt * ENTRY % U32_MAX;
      OffsetTest(nt, nxt);
      if off >= |nt| {
        OutsideMatch(nt, root, bits, mask);
        return -1;
      }
      NodeInside(nt, nxt);
      var net := U32(nt, off + 8);
      if net < LEAF_MARK {
        ret := net;
      }
      LastLeafStep(nt, root, bits, mask, nxt);
      TopBit(bits, mask);
      ChildFits(nt, root, bits, mask, nxt);
      var bit := address / 0x2000_0000 / 4 % 2 * 4;      // (address >> 29) & 4
      nxt := U32(nt, off + bit);
      if nxt == 0 {
        if mask < 32 {
          EndedMatch(nt, root, bits, mask + 1);
        } else {
          MatchFromLastLeaf(nt, root, bits);
        }
        return;
      }
      address := 2 * address % U32_MAX;
      mask := mask + 1;
    }
    MatchFromLastLeaf(nt, root, bits);
  }

  lemma RootFits(nt: seq<byte>, root: nat, bits: seq<nat>)
    requires |bits| == 32 && Binary(bits) && Unwrapped(nt, root, bits)
    ensures Fits(root) && |nt| <= U32_MAX && |nt| % ENTRY == 0
  {
  }

  /** The children of a node, as the reference loads them; the one on the path is safe to step to. */
  lemma ChildFits(nt: seq<byte>, root: nat, bits: seq<nat>, k: nat, node: nat)
    requires |bits| == 32 && Binary(bits) && Unwrapped(nt, root, bits) && k <= 32
    requires Follow(nt, root, bits, k) == At(node) && Fits(node)
    ensures var off := node * ENTRY % U32_MAX;
            && off + ENTRY <= |nt|
            && U32(nt, off) == Child(nt, node, 0) && U32(nt, off + 4) == Child(nt, node, 1)
            && (k < 32 ==> Fits(Child(nt, node, bits[k])))
  {
    hide U32, Follow, Fits;
    OffsetTest(nt, node);
    NodeInside(nt, node);
  }

  lemma BitsBinary(v4: seq<byte>)
    requires |v4| == 4
    ensures |Bits(v4)| == 32 && Binary(Bits(v4))
  {
  }

  lemma OffsetTest(nt: seq<byte>, idx: nat)
    requires |nt| <= U32_MAX && |nt| % ENTRY == 0 && Fits(idx)
    ensures idx * ENTRY % U32_MAX == idx * ENTRY
    ensures EntryOob(idx, |nt|) <==> idx * ENTRY >= |nt|
  {
  }

  /** The tested bit is the address bit of the step, and 0 once the register has run dry. */
  lemma TopBit(bits: seq<nat>, k: nat)
    requires |bits| == 32 && Binary(bits) && k <= 32
    ensures var a := Register(bits, k);
            && a / 0x2000_0000 / 4 % 2 == (if k < 32 then bits[k] else 0)
            && (k < 32 ==> 2 * a % U32_MAX == Register(bits, k + 1))
  {
    hide Register;
    if k < 32 {
      RegisterStep(bits, k);
      TopOf(Register(bits, k));
    } else {
      EmptyValue(bits);
      EmptyRegister(bits);
    }
  }

  lemma TopOf(a: nat)
    requires a < U32_MAX
    ensures a / 0x2000_0000 / 4 % 2 == a / 0x8000_0000
  {
  }

  lemma EmptyRegister(bits: seq<nat>)
    requires |bits| == 32 && Value(bits, 32) == 0
    ensures Register(bits, 32) == 0
  {
  }

  /** The port and its reference, run on the same table, root and address. */
  method PortAndReference(nt: seq<byte>, root: nat, v4: seq<byte>) returns (port: int, reference: int)
    requires |v4| == 4 && Unwrapped(nt, root, Bits(v4))
    ensures port == reference
  {
    ghost var visits: nat;
    port, visits := Walk(nt, v4, root);
    reference := Lookup4(nt, root, v4);
    MatchUnique(nt, root, Bits(v4), port, reference);
  }
}

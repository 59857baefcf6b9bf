/** The key a client is rate limited under (heavybag_rate.c): FNV-1a over a family tag and the
    bytes that identify the client. */
module RateKey {
  import opened Bytes
  import opened Geo

  const WORD: nat := 0x1_0000_0000_0000_0000     // 2^64

  /** A 64-bit hash value. */
  type u64 = h: nat | h < 0x1_0000_0000_0000_0000

  const FNV_OFFSET: u64 := 14695981039346656037
  const FNV_PRIME: u64 := 1099511628211
  const AF_INET: byte := 2
  const AF_INET6: byte := 10

  /** Exclusive or of the low n bits. */
  function Xor(a: nat, b: nat, n: nat): (x: nat)
    ensures x < Pow2(n)
  {
    if n == 0 then 0 else 2 * Xor(a / 2, b / 2, n - 1) + (a + b) % 2
  }

  function ByteXor(a: byte, b: byte): byte {
    Pow2Values();
    Xor(a, b, 8)
  }

  /** h ^= b: a byte changes the low eight bits. */
  function Fold(h: u64, b: byte): u64 {
    h - h % 256 + ByteXor(h % 256, b)
  }

  /** h *= FNV_PRIME, modulo 2^64. */
  function Scaled(h: u64): u64 {
    h * FNV_PRIME % WORD
  }

  function Mix(h: u64, b: byte): u64 {
    Scaled(Fold(h, b))
  }

  function Fnv(h: u64, bytes: seq<byte>): u64 {
    if bytes == [] then h else Mix(Fnv(h, bytes[..|bytes| - 1]), bytes[|bytes| - 1])
  }

  /** Who the bytes say the client is: an IPv4 address, mapped or not, or an IPv6 /64. */
  datatype Client = V4(address: seq<byte>) | V6(network: seq<byte>) | Nobody

  function ClientOf(sa: Sockaddr): Client
    requires Wellformed(sa)
  {
    match sa
    case Inet(v4) => V4(v4)
    case Inet6(v6) => if IsMapped(v6) then V4(v6[12..]) else V6(v6[..8])
    case OtherFamily => Nobody
  }

  /** Zero is the mark of a free slot, so no client may hash to it. */
  function KeyOf(c: Client): (k: u64)
    ensures k == 0 <==> c == Nobody
  {
    match c
    case Nobody => 0
    case V4(a) => NonZero(Fnv(Mix(FNV_OFFSET, AF_INET), a))
    case V6(n) => NonZero(Fnv(Mix(FNV_OFFSET, AF_INET6), n))
  }

  function NonZero(h: u64): (k: u64)
    ensures k != 0
  {
    if h == 0 then 1 else h
  }

  /** rate_key. */
  method RateKey(sa: Sockaddr) returns (key: u64)
    requires Wellformed(sa)
    ensures key == KeyOf(ClientOf(sa))
  {
    hide Mix, NonZero;
    var bytes: seq<byte>, tag: byte;
    match sa {
      case Inet(v4) => bytes, tag := v4, AF_INET;
      case Inet6(v6) =>
        if IsMapped(v6) {
          bytes, tag := v6[12..], AF_INET;
        } else {
          bytes, tag := v6[..8], AF_INET6;
        }
      case OtherFamily => return 0;
    }
    var h := Mix(FNV_OFFSET, tag);
    for i := 0 to |bytes|
      invariant h == Fnv(Mix(FNV_OFFSET, tag), bytes[..i])
    {
      assert bytes[..i + 1][..i] == bytes[..i];
      h := Mix(h, bytes[i]);
    }
    assert bytes[..|bytes|] == bytes;
    return NonZero(h);
  }

  /** An IPv4 client keeps its bucket when it arrives v4-mapped. */
  lemma MappedKeepsKey(v4: seq<byte>)
    requires |v4| == 4
    ensures ClientOf(Inet6(Mapped(v4))) == ClientOf(Inet(v4))
  {
    assert Mapped(v4)[..12] == [0, 0, 0, 0, 0, 0, 0, 0, 0, 0, 255, 255];
    assert Mapped(v4)[12..] == v4;
  }

  /** Every IPv4 address is a client of its own, no native IPv6 address is one of them, and only an address
      of another family has no key. */
  lemma ClientsAre(v4: seq<byte>, w4: seq<byte>, v6: seq<byte>, sa: Sockaddr)
    requires |v4| == |w4| == 4 && |v6| == 16 && Wellformed(sa)
    ensures ClientOf(Inet(v4)) == ClientOf(Inet(w4)) <==> v4 == w4
    ensures ClientOf(Inet6(v6)) == ClientOf(Inet(v4)) <==> v6 == Mapped(v4)
    ensures KeyOf(ClientOf(sa)) == 0 <==> sa == OtherFamily
  {
    hide Mix, NonZero;
    assert v6 == v6[..12] + v6[12..];
    MappedKeepsKey(v4);
  }

  /** Two native IPv6 addresses are one client exactly when their first 64 bits agree. */
  lemma SlashSixtyFour(a: seq<byte>, b: seq<byte>)
    requires |a| == |b| == 16 && !IsMapped(a) && !IsMapped(b)
    ensures ClientOf(Inet6(a)) == ClientOf(Inet6(b)) <==> Bits(a)[..64] == Bits(b)[..64]
  {
    hide Bits, IsMapped;
    if a[..8] == b[..8] {
      NetworkGivesBits(a, b);
    }
    if Bits(a)[..64] == Bits(b)[..64] {
      BitsGiveNetwork(a, b);
    }
  }

  lemma NetworkGivesBits(a: seq<byte>, b: seq<byte>)
    requires |a| == |b| == 16 && a[..8] == b[..8]
    ensures Bits(a)[..64] == Bits(b)[..64]
  {
    hide BitOf;
    forall m | 0 <= m < 64 ensures Bits(a)[m] == Bits(b)[m] {
      assert a[..8][m / 8] == b[..8][m / 8];
    }
  }

  lemma BitsGiveNetwork(a: seq<byte>, b: seq<byte>)
    requires |a| == |b| == 16 && Bits(a)[..64] == Bits(b)[..64]
    ensures a[..8] == b[..8]
  {
    hide BitOf;
    forall j | 0 <= j < 8 ensures a[j] == b[j] {
      forall i | 0 <= i < 8 ensures BitOf(a[j], i) == BitOf(b[j], i) {
        assert Bits(a)[..64][8 * j + 7 - i] == Bits(b)[..64][8 * j + 7 - i];
      }
      SameBits(a[j], b[j]);
    }
  }

  // ---- the hash tells clients apart ----

  /** Multiplying by an odd number modulo 2^64 loses nothing. */
  lemma ScaledReadsBack(g: u64, h: u64)
    requires Scaled(g) == Scaled(h)
    ensures g == h
  {
    var m := g * FNV_PRIME / WORD - h * FNV_PRIME / WORD;
    assert (g - h) * 1099511628211 == m * WORD;
    InverseCancels(g - h, m);
  }

  /** 14886173955864302971 is the inverse of the prime modulo 2^64. */
  lemma InverseCancels(d: int, m: int)
    requires d * 1099511628211 == m * WORD && d < WORD && -d < WORD
    ensures d == 0
  {
    assert 1099511628211 * 14886173955864302971 == 1 + 887285111055 * WORD;
    assert d == WORD * (14886173955864302971 * m - 887285111055 * d);
  }

  lemma {:induction false} XorReadsBack(a: nat, b: nat, c: nat, n: nat)
    requires b < Pow2(n) && c < Pow2(n)
    ensures Xor(a, b, n) == Xor(a, c, n) <==> b == c
    ensures Xor(b, a, n) == Xor(c, a, n) <==> b == c
  {
    if n > 0 {
      assert Pow2(n) == 2 * Pow2(n - 1);
      hide Pow2;
      XorReadsBack(a / 2, b / 2, c / 2, n - 1);
      OneBit(Xor(a / 2, b / 2, n - 1), a, b, Xor(a / 2, c / 2, n - 1), c);
    }
  }

  lemma OneBit(x: nat, a: nat, b: nat, y: nat, c: nat)
    requires x == y <==> b / 2 == c / 2
    ensures 2 * x + (a + b) % 2 == 2 * y + (a + c) % 2 <==> b == c
  {
  }

  lemma FoldReadsBack(g: u64, b: byte, h: u64, c: byte)
    requires Fold(g, b) == Fold(h, c)
    ensures g / 256 == h / 256 && ByteXor(g % 256, b) == ByteXor(h % 256, c)
  {
    hide ByteXor;
    assert g == 256 * (g / 256) + g % 256 && h == 256 * (h / 256) + h % 256;
  }

  /** One turn of the loop loses neither the hash nor the byte. */
  lemma MixReadsBack(g: u64, b: byte, h: u64, c: byte)
    ensures Mix(g, b) == Mix(h, b) <==> g == h
    ensures Mix(g, b) == Mix(g, c) <==> b == c
  {
    hide Scaled, Xor, Fold, Pow2;
    Pow2Values();
    if Mix(g, b) == Mix(h, b) {
      ScaledReadsBack(Fold(g, b), Fold(h, b));
      FoldReadsBack(g, b, h, b);
      XorReadsBack(b, g % 256, h % 256, 8);
      assert g == 256 * (g / 256) + g % 256 && h == 256 * (h / 256) + h % 256;
    }
    if Mix(g, b) == Mix(g, c) {
      ScaledReadsBack(Fold(g, b), Fold(g, c));
      FoldReadsBack(g, b, g, c);
      XorReadsBack(g % 256, b, c, 8);
    }
  }

  /** Equal bytes keep two hashes apart. */
  lemma {:induction false} FnvKeepsApart(g: u64, h: u64, bytes: seq<byte>)
    requires g != h
    ensures Fnv(g, bytes) != Fnv(h, bytes)
  {
    hide Mix;
    if bytes != [] {
      FnvKeepsApart(g, h, bytes[..|bytes| - 1]);
      MixReadsBack(Fnv(g, bytes[..|bytes| - 1]), bytes[|bytes| - 1], Fnv(h, bytes[..|bytes| - 1]), 0);
    }
  }

  lemma {:induction false} FnvConcat(h: u64, s: seq<byte>, t: seq<byte>)
    ensures Fnv(h, s + t) == Fnv(Fnv(h, s), t)
  {
    hide Mix;
    if t == [] {
      assert s + t == s;
    } else {
      assert (s + t)[..|s + t| - 1] == s + t[..|t| - 1];
      FnvConcat(h, s, t[..|t| - 1]);
    }
  }

  /** Two byte strings that differ in one byte hash differently, from any start. */
  lemma OneByteTells(h: u64, bytes: seq<byte>, i: nat, b: byte)
    requires i < |bytes| && bytes[i] != b
    ensures Fnv(h, bytes) != Fnv(h, bytes[i := b])
  {
    hide Mix;
    var s, t := bytes[..i], bytes[i + 1..];
    OneTurn(h, s, bytes[i], t);
    OneTurn(h, s, b, t);
    assert bytes == s + [bytes[i]] + t && bytes[i := b] == s + [b] + t;
    MixReadsBack(Fnv(h, s), bytes[i], 0, b);
    FnvKeepsApart(Mix(Fnv(h, s), bytes[i]), Mix(Fnv(h, s), b), t);
  }

  lemma OneTurn(h: u64, s: seq<byte>, b: byte, t: seq<byte>)
    ensures Fnv(h, s + [b] + t) == Fnv(Mix(Fnv(h, s), b), t)
  {
    hide Mix;
    FnvConcat(h, s + [b], t);
    FnvConcat(h, s, [b]);
    assert [b][..0] == [];
  }

  /** The hash of a client, before zero is taken out. */
  function HashOf(c: Client): u64
    requires c != Nobody
  {
    if c.V4? then Fnv(Mix(FNV_OFFSET, 2), c.address) else Fnv(Mix(FNV_OFFSET, 10), c.network)
  }

  /** The key is the hash, and 1 where that is zero. */
  lemma KeyIs(c: Client)
    requires c != Nobody
    ensures KeyOf(c) == if HashOf(c) == 0 then 1 else HashOf(c)
  {
    hide Mix;
  }

  /** Clients of one kind that differ in one byte share a key only where one hash is zero and the other one. */
  lemma NeighboursDiffer(bytes: seq<byte>, i: nat, b: byte)
    requires i < |bytes| && bytes[i] != b
    ensures KeyOf(V4(bytes)) == KeyOf(V4(bytes[i := b])) ==> {HashOf(V4(bytes)), HashOf(V4(bytes[i := b]))} == {0, 1}
    ensures KeyOf(V6(bytes)) == KeyOf(V6(bytes[i := b])) ==> {HashOf(V6(bytes)), HashOf(V6(bytes[i := b]))} == {0, 1}
  {
    hide Mix, Fnv, KeyOf;
    OneByteTells(Mix(FNV_OFFSET, 2), bytes, i, b);
    OneByteTells(Mix(FNV_OFFSET, 10), bytes, i, b);
    KeyIs(V4(bytes));
    KeyIs(V4(bytes[i := b]));
    KeyIs(V6(bytes));
    KeyIs(V6(bytes[i := b]));
  }

  /** Published values of 64-bit FNV-1a, of no byte and of the letter a. */
  lemma PublishedValues()
    ensures Fnv(FNV_OFFSET, []) == 0xcbf29ce484222325
    ensures Fnv(FNV_OFFSET, [97]) == 0xaf63dc4c8601ec8c
  {
    hide Scaled, Xor, Fold, Pow2;
    LetterA();
    FoldIs(0xcbf29ce4842223, 0x25, 97, 0x44);
    Remainder(0xcbf29ce484222344, 875948729822, 0xaf63dc4c8601ec8c);
    assert [97][..0] == [];
  }

  lemma LetterA()
    ensures Xor(0x25, 97, 8) == 0x44
  {
    hide Xor, Pow2;
    XorStep(0x25, 97, 8);
    XorStep(18, 48, 7);
    XorStep(9, 24, 6);
    XorStep(4, 12, 5);
    XorStep(2, 6, 4);
    XorStep(1, 3, 3);
    XorStep(0, 1, 2);
    XorStep(0, 0, 1);
  }

  lemma XorStep(a: nat, b: nat, n: nat)
    ensures Xor(a, b, n) == if n == 0 then 0 else 2 * Xor(a / 2, b / 2, n - 1) + (a + b) % 2
    ensures Xor(a, b, 0) == 0
  {
  }

  lemma FoldIs(high: nat, low: byte, b: byte, x: nat)
    requires 256 * high + low < WORD && Xor(low, b, 8) == x
    ensures Fold(256 * high + low, b) == 256 * high + x
  {
    hide Xor, Pow2;
    assert (256 * high + low) % 256 == low;
  }

  lemma Remainder(h: u64, q: nat, r: u64)
    requires h * 1099511628211 == q * WORD + r
    ensures Scaled(h) == r
  {
  }
}

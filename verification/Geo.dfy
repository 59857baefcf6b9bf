/** The geo database's radix trie (heavybag_geo.c): 12-byte big-endian nodes, two child indices
    and a leaf, read from a table that may be cyclic, truncated or hostile. */
module Geo {
  import opened Wrappers
  import opened Bytes

  const ENTRY: nat := 12
  const LEAF_MARK: nat := 0x8000_0000

  function U32(t: seq<byte>, at: nat): (v: nat)
    requires at + 4 <= |t|
    ensures v < 0x1_0000_0000
  {
    t[at] as nat * 0x100_0000 + t[at + 1] as nat * 0x1_0000 + t[at + 2] as nat * 0x100 + t[at + 3] as nat
  }

  /** geo_entry_oob: entry idx does not lie wholly inside a block of len bytes. */
  predicate EntryOob(idx: nat, len: nat) {
    idx >= len / ENTRY
  }

  /** The division form agrees with the natural bound, without its overflow. */
  lemma EntryOobMeans(idx: nat, len: nat)
    ensures EntryOob(idx, len) <==> idx * ENTRY + ENTRY > len
  {
  }

  function Child(nt: seq<byte>, node: nat, bit: nat): nat
    requires !EntryOob(node, |nt|) && bit < 2
  {
    U32(nt, node * ENTRY + 4 * bit)
  }

  /** The leaf a node carries, if its marker bit is clear. */
  function Leaf(nt: seq<byte>, node: nat): Option<nat>
    requires !EntryOob(node, |nt|)
  {
    var net := U32(nt, node * ENTRY + 8);
    if net < LEAF_MARK then Some(net) else None
  }

  /** Bit m of the address, most significant bit first. */
  function Bit(addr: seq<byte>, m: nat): (b: nat)
    requires m < 8 * |addr|
    ensures b < 2
  {
    BitOf(addr[m / 8] as nat, 7 - m % 8)
  }

  function Bits(addr: seq<byte>): (bits: seq<nat>)
    ensures |bits| == 8 * |addr| && forall m :: 0 <= m < |bits| ==> bits[m] == Bit(addr, m) < 2
  {
    seq(8 * |addr|, m requires 0 <= m < 8 * |addr| => Bit(addr, m))
  }

  /** Where the path of a bit string stands after its first k bits: on a node inside the table,
      past a zero child, or at an index outside the table. */
  datatype Place = At(node: nat) | Ended | Outside

  predicate Binary(bits: seq<nat>) {
    forall m :: 0 <= m < |bits| ==> bits[m] < 2
  }

  function Enter(nt: seq<byte>, node: nat): Place {
    if EntryOob(node, |nt|) then Outside else At(node)
  }

  function Follow(nt: seq<byte>, root: nat, bits: seq<nat>, k: nat): (p: Place)
    requires Binary(bits) && k <= |bits|
    ensures p.At? ==> !EntryOob(p.node, |nt|)
  {
    if k == 0 then Enter(nt, root)
    else
      match Follow(nt, root, bits, k - 1)
      case At(node) =>
        var next := Child(nt, node, bits[k - 1]);
        if next == 0 then Ended else Enter(nt, next)
      case Ended => Ended
      case Outside => Outside
  }

  /** The prefix of k bits names a node that carries leaf v. */
  predicate Carries(nt: seq<byte>, root: nat, bits: seq<nat>, k: nat, v: nat)
    requires Binary(bits)
  {
    && k <= |bits|
    && Follow(nt, root, bits, k).At?
    && Leaf(nt, Follow(nt, root, bits, k).node) == Some(v)
  }

  /** The path of the bit string runs out of the table. */
  ghost predicate LeavesTable(nt: seq<byte>, root: nat, bits: seq<nat>)
    requires Binary(bits)
  {
    exists k :: 0 <= k <= |bits| && Follow(nt, root, bits, k).Outside?
  }

  /** v is the leaf of the longest prefix, of k bits, that carries one. */
  ghost predicate Longest(nt: seq<byte>, root: nat, bits: seq<nat>, k: nat, v: nat)
    requires Binary(bits)
  {
    Carries(nt, root, bits, k, v) && forall k': nat, v': nat :: Carries(nt, root, bits, k', v') ==> k' <= k
  }

  ghost predicate HasLeaf(nt: seq<byte>, root: nat, bits: seq<nat>)
    requires Binary(bits)
  {
    exists k: nat, v: nat :: Carries(nt, root, bits, k, v)
  }

  /** Longest-prefix match: -1 when the path leaves the table or no prefix carries a leaf, else
      the leaf of the longest prefix that does. */
  ghost predicate IsMatch(nt: seq<byte>, root: nat, bits: seq<nat>, r: int)
    requires Binary(bits)
  {
    if LeavesTable(nt, root, bits) || !HasLeaf(nt, root, bits) then r == -1
    else exists k: nat, v: nat :: Longest(nt, root, bits, k, v) && r == v
  }

  /** Once a path has ended or left the table it stays so. */
  lemma {:induction false} FollowStays(nt: seq<byte>, root: nat, bits: seq<nat>, k: nat, j: nat)
    requires Binary(bits) && k <= j <= |bits| && !Follow(nt, root, bits, k).At?
    ensures Follow(nt, root, bits, j) == Follow(nt, root, bits, k)
    decreases j - k
  {
    if k < j {
      FollowStays(nt, root, bits, k, j - 1);
    }
  }

  /** The leaf last seen on the first k nodes of the path, -1 before there is one. */
  function LastLeaf(nt: seq<byte>, root: nat, bits: seq<nat>, k: nat): (r: int)
    requires Binary(bits) && k <= |bits| + 1
    ensures -1 <= r < LEAF_MARK
  {
    if k == 0 then -1
    else
      match Follow(nt, root, bits, k - 1)
      case At(node) =>
        var leaf := Leaf(nt, node);
        if leaf.Some? then leaf.value else LastLeaf(nt, root, bits, k - 1)
      case Ended => LastLeaf(nt, root, bits, k - 1)
      case Outside => LastLeaf(nt, root, bits, k - 1)
  }

  /** The last leaf seen is the leaf of the longest prefix that carries one. */
  lemma {:induction false} LastLeafMeans(nt: seq<byte>, root: nat, bits: seq<nat>, k: nat)
    requires Binary(bits) && k <= |bits| + 1
    ensures var r := LastLeaf(nt, root, bits, k);
            if r == -1 then forall j: nat, v: nat :: j < k ==> !Carries(nt, root, bits, j, v)
            else exists j: nat :: j < k && Carries(nt, root, bits, j, r)
                   && forall j': nat, v': nat :: j' < k && Carries(nt, root, bits, j', v') ==> j' <= j
  {
    hide Leaf, Follow;
    if k > 0 {
      LastLeafMeans(nt, root, bits, k - 1);
      var r := LastLeaf(nt, root, bits, k);
      var p := Follow(nt, root, bits, k - 1);
      if p.At? && Leaf(nt, p.node).Some? {
        assert Carries(nt, root, bits, k - 1, r);
      }
    }
  }

  lemma {:induction false} LastLeafStays(nt: seq<byte>, root: nat, bits: seq<nat>, k: nat, j: nat)
    requires Binary(bits) && k <= j <= |bits| + 1 && k <= |bits| && !Follow(nt, root, bits, k).At?
    ensures LastLeaf(nt, root, bits, j) == LastLeaf(nt, root, bits, k)
    decreases j - k
  {
    if k < j {
      FollowStays(nt, root, bits, k, j - 1);
      LastLeafStays(nt, root, bits, k, j - 1);
    }
  }

  lemma MatchFromLastLeaf(nt: seq<byte>, root: nat, bits: seq<nat>)
    requires Binary(bits) && forall k :: 0 <= k <= |bits| ==> !Follow(nt, root, bits, k).Outside?
    ensures IsMatch(nt, root, bits, LastLeaf(nt, root, bits, |bits| + 1))
  {
    hide Leaf, Follow, LastLeaf;
    LastLeafMeans(nt, root, bits, |bits| + 1);
    var r := LastLeaf(nt, root, bits, |bits| + 1);
    if r != -1 {
      var k: nat :| Carries(nt, root, bits, k, r)
                    && forall k': nat, v': nat :: k' < |bits| + 1 && Carries(nt, root, bits, k', v') ==> k' <= k;
      assert Longest(nt, root, bits, k, r);
    }
  }

  lemma NoLeafYet(nt: seq<byte>, root: nat, bits: seq<nat>)
    requires Binary(bits)
    ensures LastLeaf(nt, root, bits, 0) == -1
  {
  }

  lemma LastLeafStep(nt: seq<byte>, root: nat, bits: seq<nat>, k: nat, node: nat)
    requires Binary(bits) && k <= |bits| && Follow(nt, root, bits, k) == At(node)
    ensures var net := U32(nt, node * ENTRY + 8);
            LastLeaf(nt, root, bits, k + 1) == if net < LEAF_MARK then net else LastLeaf(nt, root, bits, k)
  {
    hide U32, Follow;
  }

  /** geo_walk on an untrusted table. `visits` counts the nodes read. */
  method Walk(nt: seq<byte>, addr: seq<byte>, root: nat) returns (ret: int, ghost visits: nat)
    ensures IsMatch(nt, root, Bits(addr), ret)
    ensures visits <= 8 * |addr| + 1
    ensures -1 <= ret < LEAF_MARK
  {
    hide U32, EntryOob, Pow2, IsMatch, LastLeaf;
    ret, visits := -1, 0;
    var nxt: nat, mask: nat := root, 0;
    ghost var bits := Bits(addr);
    NoLeafYet(nt, root, bits);
    while true
      invariant 0 <= mask <= 8 * |addr| && visits == mask
      invariant Follow(nt, root, bits, mask) == Enter(nt, nxt)
      invariant forall k :: 0 <= k < mask ==> Follow(nt, root, bits, k).At?
      invariant ret == LastLeaf(nt, root, bits, mask)
      decreases 8 * |addr| - mask
    {
      if EntryOob(nxt, |nt|) {
        OutsideMatch(nt, root, bits, mask);
        return -1, visits;
      }
      visits := visits + 1;
      NodeInside(nt, nxt);
      var net := U32(nt, nxt * ENTRY + 8);
      if net < LEAF_MARK {
        ret := net;
      }
      LastLeafStep(nt, root, bits, mask, nxt);
      if mask / 8 >= |addr| {
        MatchFromLastLeaf(nt, root, bits);
        return;
      }
      var bit := addr[mask / 8] as nat / Pow2(7 - mask % 8) % 2;
      assert bit == bits[mask];
      mask := mask + 1;
      nxt := U32(nt, nxt * ENTRY + bit * 4);
      if nxt == 0 {
        EndedMatch(nt, root, bits, mask);
        return;
      }
    }
  }

  lemma NodeInside(nt: seq<byte>, node: nat)
    requires !EntryOob(node, |nt|)
    ensures node * ENTRY + ENTRY <= |nt|
  {
  }

  lemma OutsideMatch(nt: seq<byte>, root: nat, bits: seq<nat>, k: nat)
    requires Binary(bits) && k <= |bits| && Follow(nt, root, bits, k).Outside?
    ensures IsMatch(nt, root, bits, -1)
  {
    hide Follow, Carries;
  }

  lemma EndedMatch(nt: seq<byte>, root: nat, bits: seq<nat>, k: nat)
    requires Binary(bits) && k <= |bits| && Follow(nt, root, bits, k).Ended?
    requires forall j :: 0 <= j < k ==> Follow(nt, root, bits, j).At?
    ensures IsMatch(nt, root, bits, LastLeaf(nt, root, bits, k))
  {
    hide IsMatch, Follow;
    forall j | 0 <= j <= |bits| ensures !Follow(nt, root, bits, j).Outside? {
      if j >= k {
        FollowStays(nt, root, bits, k, j);
      }
    }
    LastLeafStays(nt, root, bits, k, |bits| + 1);
    MatchFromLastLeaf(nt, root, bits);
  }

  /** The match is unique: IsMatch decides the answer. */
  lemma MatchUnique(nt: seq<byte>, root: nat, bits: seq<nat>, r1: int, r2: int)
    requires Binary(bits) && IsMatch(nt, root, bits, r1) && IsMatch(nt, root, bits, r2)
    ensures r1 == r2
  {
    hide Follow, Leaf;
  }

  // ---- the IPv4-mapped root ----

  datatype RootResult = Ok(root: nat) | Truncated | DeadEnd

  function Repeat(b: nat, n: nat): (s: seq<nat>)
    ensures |s| == n && forall i :: 0 <= i < n ==> s[i] == b
  {
    seq(n, _ => b)
  }

  /** ::ffff:0:0/96 as a bit string. */
  function V4Prefix(): (s: seq<nat>)
    ensures |s| == 96 && Binary(s)
    ensures forall i :: 0 <= i < 96 ==> s[i] == if i < 80 then 0 else 1
  {
    Repeat(0, 80) + Repeat(1, 16)
  }

  /** geo_ipv4root: Ok names a non-zero index reached through 96 in-range nodes; Truncated and
      DeadEnd mean the chain leaves the table or meets a zero child. */
  method Ipv4Root(nt: seq<byte>) returns (r: RootResult)
    ensures match r
            case Ok(root) => root != 0 && Follow(nt, 0, V4Prefix(), 96) == Enter(nt, root)
                             && forall k :: 0 <= k < 96 ==> Follow(nt, 0, V4Prefix(), k).At?
            case Truncated => exists k :: 0 <= k < 96 && Follow(nt, 0, V4Prefix(), k).Outside?
            case DeadEnd => Follow(nt, 0, V4Prefix(), 96).Ended?
  {
    hide U32, EntryOob;
    var nxt: nat := 0;
    var i: nat := 0;
    while i < 96
      invariant 0 <= i <= 96 && (i > 0 ==> nxt != 0)
      invariant Follow(nt, 0, V4Prefix(), i) == Enter(nt, nxt)
      invariant forall k :: 0 <= k < i ==> Follow(nt, 0, V4Prefix(), k).At?
    {
      if EntryOob(nxt, |nt|) {
        assert Follow(nt, 0, V4Prefix(), i).Outside?;
        return Truncated;
      }
      NodeInside(nt, nxt);
      nxt := U32(nt, nxt * ENTRY + if i < 80 then 0 else 4);
      i := i + 1;
      if nxt == 0 {
        FollowStays(nt, 0, V4Prefix(), i, 96);
        return DeadEnd;
      }
    }
    return Ok(nxt);
  }

  /** The v4-mapped form of an IPv4 address. */
  function Mapped(v4: seq<byte>): seq<byte> {
    [0, 0, 0, 0, 0, 0, 0, 0, 0, 0, 255, 255] + v4
  }

  lemma AllOnes(k: nat)
    requires k < 8
    ensures 255 / Pow2(k) % 2 == 1 && 0 / Pow2(k) % 2 == 0
  {
    assert Pow2(0) == 1 && Pow2(1) == 2 && Pow2(2) == 4 && Pow2(3) == 8;
    assert Pow2(4) == 16 && Pow2(5) == 32 && Pow2(6) == 64 && Pow2(7) == 128;
  }

  lemma MappedBits(v4: seq<byte>)
    requires |v4| == 4
    ensures Bits(Mapped(v4)) == V4Prefix() + Bits(v4)
  {
    hide Pow2;
    forall m | 0 <= m < 128 ensures Bits(Mapped(v4))[m] == (V4Prefix() + Bits(v4))[m] {
      if m < 96 {
        AllOnes(7 - m % 8);
      } else {
        assert Mapped(v4)[m / 8] == v4[(m - 96) / 8];
      }
    }
  }

  /** Below the mapped root the long path is the short one. */
  lemma {:induction false} FollowComposes(nt: seq<byte>, root: nat, pre: seq<nat>, post: seq<nat>, mid: nat, k: nat)
    requires Binary(pre) && Binary(post) && Binary(pre + post) && k <= |post|
    requires Follow(nt, root, pre, |pre|) == Enter(nt, mid)
    ensures Follow(nt, root, pre + post, |pre| + k) == Follow(nt, mid, post, k)
  {
    if k == 0 {
      FollowPrefix(nt, root, pre, post, |pre|);
    } else {
      FollowComposes(nt, root, pre, post, mid, k - 1);
    }
  }

  lemma {:induction false} FollowPrefix(nt: seq<byte>, root: nat, pre: seq<nat>, post: seq<nat>, k: nat)
    requires Binary(pre) && Binary(pre + post) && k <= |pre|
    ensures Follow(nt, root, pre + post, k) == Follow(nt, root, pre, k)
  {
    if k > 0 {
      FollowPrefix(nt, root, pre, post, k - 1);
    }
  }

  /** How the paths of a prefix, of what follows it, and of both together line up. */
  ghost predicate Aligned(nt: seq<byte>, root: nat, pre: seq<nat>, post: seq<nat>)
    requires Binary(pre) && Binary(post) && Binary(pre + post)
  {
    && (forall k :: 0 <= k < |pre| ==> Follow(nt, 0, pre, k).At?)
    && (forall k :: 0 <= k <= |pre| ==> Follow(nt, 0, pre + post, k) == Follow(nt, 0, pre, k))
    && (forall k :: |pre| <= k <= |pre| + |post| ==> Follow(nt, 0, pre + post, k) == Follow(nt, root, post, k - |pre|))
  }

  /** The IPv4 walk from the precomputed root against the 128-bit walk of the mapped address:
      they agree whenever the short walk meets a leaf or leaves the table, and otherwise the
      long walk answers with the deepest leaf of the /96 chain. */
  lemma Ipv4RootComposes(nt: seq<byte>, root: nat, v4: seq<byte>, short: int, long: int, chain: int)
    requires |v4| == 4 && root != 0 && Follow(nt, 0, V4Prefix(), 96) == Enter(nt, root)
    requires forall k :: 0 <= k < 96 ==> Follow(nt, 0, V4Prefix(), k).At?
    requires IsMatch(nt, root, Bits(v4), short) && IsMatch(nt, 0, Bits(Mapped(v4)), long)
    requires IsMatch(nt, 0, V4Prefix(), chain)
    ensures long == if LeavesTable(nt, root, Bits(v4)) || HasLeaf(nt, root, Bits(v4)) then short else chain
  {
    hide Bits, Leaf, Follow, Mapped;
    var pre, post := V4Prefix(), Bits(v4);
    MappedBits(v4);
    forall k | 96 <= k <= 128 ensures Follow(nt, 0, pre + post, k) == Follow(nt, root, post, k - 96) {
      FollowComposes(nt, 0, pre, post, root, k - 96);
    }
    forall k | 0 <= k <= 96 ensures Follow(nt, 0, pre + post, k) == Follow(nt, 0, pre, k) {
      FollowPrefix(nt, 0, pre, post, k);
    }
    assert Aligned(nt, root, pre, post);
    if LeavesTable(nt, root, post) {
      var k :| 0 <= k <= 32 && Follow(nt, root, post, k).Outside?;
      assert Follow(nt, 0, pre + post, 96 + k).Outside?;
    } else {
      StaysInside(nt, root, pre, post);
      if HasLeaf(nt, root, post) {
        LeafBelow(nt, root, pre, post, short);
        MatchUnique(nt, 0, pre + post, short, long);
      } else {
        LeafOnChain(nt, root, pre, post, chain);
        MatchUnique(nt, 0, pre + post, chain, long);
      }
    }
  }

  lemma StaysInside(nt: seq<byte>, root: nat, pre: seq<nat>, post: seq<nat>)
    requires Binary(pre) && Binary(post) && Binary(pre + post) && Aligned(nt, root, pre, post)
    requires !LeavesTable(nt, root, post)
    ensures !LeavesTable(nt, 0, pre + post) && !LeavesTable(nt, 0, pre)
  {
    hide Follow;
    forall k | 0 <= k <= |pre + post| ensures !Follow(nt, 0, pre + post, k).Outside? {
      if k >= |pre| {
        assert !Follow(nt, root, post, k - |pre|).Outside?;
      }
    }
    assert Follow(nt, 0, pre + post, |pre|) == Follow(nt, 0, pre, |pre|);
  }

  lemma LeafBelow(nt: seq<byte>, root: nat, pre: seq<nat>, post: seq<nat>, short: int)
    requires Binary(pre) && Binary(post) && Binary(pre + post) && Aligned(nt, root, pre, post)
    requires !LeavesTable(nt, root, post) && !LeavesTable(nt, 0, pre + post) && HasLeaf(nt, root, post)
    requires IsMatch(nt, root, post, short)
    ensures IsMatch(nt, 0, pre + post, short)
  {
    hide Follow, Leaf, LeavesTable;
    var k: nat, v: nat :| Longest(nt, root, post, k, v) && short == v;
    assert Carries(nt, 0, pre + post, |pre| + k, v);
    forall k': nat, v': nat | Carries(nt, 0, pre + post, k', v') ensures k' <= |pre| + k {
      if k' > |pre| {
        assert Carries(nt, root, post, k' - |pre|, v');
      }
    }
    assert Longest(nt, 0, pre + post, |pre| + k, v);
  }

  lemma LeafOnChain(nt: seq<byte>, root: nat, pre: seq<nat>, post: seq<nat>, chain: int)
    requires Binary(pre) && Binary(post) && Binary(pre + post) && Aligned(nt, root, pre, post)
    requires !LeavesTable(nt, 0, pre) && !LeavesTable(nt, 0, pre + post) && !HasLeaf(nt, root, post)
    requires IsMatch(nt, 0, pre, chain)
    ensures IsMatch(nt, 0, pre + post, chain)
  {
    hide Follow, Leaf, LeavesTable;
    forall k: nat, v: nat ensures Carries(nt, 0, pre + post, k, v) <==> Carries(nt, 0, pre, k, v) {
      if |pre| <= k <= |pre| + |post| {
        assert !Carries(nt, root, post, k - |pre|, v);
        assert Follow(nt, 0, pre + post, k) == Follow(nt, root, post, k - |pre|);
      }
    }
    if HasLeaf(nt, 0, pre) {
      var k: nat, v: nat :| Longest(nt, 0, pre, k, v) && chain == v;
      assert Longest(nt, 0, pre + post, k, v);
    }
  }

  // ---- lookup by socket address ----

  datatype Sockaddr = Inet(v4: seq<byte>) | Inet6(v6: seq<byte>) | OtherFamily

  predicate Wellformed(sa: Sockaddr) {
    (sa.Inet? ==> |sa.v4| == 4) && (sa.Inet6? ==> |sa.v6| == 16)
  }

  /** IN6_IS_ADDR_V4MAPPED. */
  predicate IsMapped(v6: seq<byte>)
    requires |v6| == 16
  {
    v6[..12] == [0, 0, 0, 0, 0, 0, 0, 0, 0, 0, 255, 255]
  }

  datatype Db = Db(nt: seq<byte>, nd: seq<byte>, ipv4root: nat)

  datatype Record = Record(country: (byte, byte), asn: nat, flags: nat)

  /** The record of network leaf net, unless the leaf lies outside the network block. */
  function RecordOf(nd: seq<byte>, net: int): Option<Record> {
    if net < 0 || EntryOob(net, |nd|) then None
    else
      var p := net * ENTRY;
      Some(Record((nd[p], nd[p + 1]), U32(nd, p + 4), nd[p + 8] as nat * 256 + nd[p + 9] as nat))
  }

  /** The root and bits a lookup walks: IPv4 and v4-mapped addresses from the IPv4 root. */
  function Path(db: Db, sa: Sockaddr): (nat, seq<nat>)
    requires Wellformed(sa) && !sa.OtherFamily?
  {
    if sa.Inet? then (db.ipv4root, Bits(sa.v4))
    else if IsMapped(sa.v6) then (db.ipv4root, Bits(sa.v6[12..]))
    else (0, Bits(sa.v6))
  }

  /** What a lookup may answer: the record of the longest-prefix match, None for no match, a leaf
      outside the network block or an unknown family. */
  ghost predicate IsAnswer(db: Db, sa: Sockaddr, r: Option<Record>)
    requires Wellformed(sa)
  {
    if sa.OtherFamily? then r == None
    else exists net: int :: IsMatch(db.nt, Path(db, sa).0, Path(db, sa).1, net) && r == RecordOf(db.nd, net)
  }

  /** geo_lookup. No table makes it read outside a block. */
  method Lookup(db: Db, sa: Sockaddr) returns (r: Option<Record>)
    requires Wellformed(sa)
    ensures IsAnswer(db, sa, r)
  {
    hide IsMatch, Bits;
    var net: int;
    ghost var visits: nat;
    match sa {
      case OtherFamily => return None;
      case Inet(v4) => net, visits := Walk(db.nt, v4, db.ipv4root);
      case Inet6(v6) =>
        if IsMapped(v6) {
          net, visits := Walk(db.nt, v6[12..], db.ipv4root);
        } else {
          net, visits := Walk(db.nt, v6, 0);
        }
    }
    assert IsMatch(db.nt, Path(db, sa).0, Path(db, sa).1, net);
    if net < 0 || EntryOob(net, |db.nd|) {
      assert RecordOf(db.nd, net) == None;
      return None;
    }
    var p := net * ENTRY;
    return Some(Record((db.nd[p], db.nd[p + 1]), U32(db.nd, p + 4), db.nd[p + 8] as nat * 256 + db.nd[p + 9] as nat));
  }
}

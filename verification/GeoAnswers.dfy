/** What a geo lookup answers, byte by byte: the nodes it visits, the record it reads, and that an IPv4
    address and its v4-mapped form get one answer. */
module GeoAnswers {
  import opened Wrappers
  import opened Bytes
  import opened Geo

  // ---- the bytes ----

  function Put32(v: nat): (b: seq<byte>)
    requires v < 0x1_0000_0000
    ensures |b| == 4
  {
    [v / 0x100_0000, v / 0x1_0000 % 256, v / 256 % 256, v % 256]
  }

  lemma Get32(t: seq<byte>, at: nat, v: nat)
    requires v < 0x1_0000_0000 && at + 4 <= |t| && t[at..at + 4] == Put32(v)
    ensures U32(t, at) == v
  {
    var b := t[at..at + 4];
    assert b[0] == t[at] && b[1] == t[at + 1] && b[2] == t[at + 2] && b[3] == t[at + 3];
    Spelled(v, v / 256, v / 0x1_0000, v / 0x100_0000);
  }

  lemma Spelled(v: nat, v1: nat, v2: nat, v3: nat)
    requires v1 == v / 256 && v2 == v / 0x1_0000 && v3 == v / 0x100_0000
    ensures v == v3 * 0x100_0000 + v2 % 256 * 0x1_0000 + v1 % 256 * 256 + v % 256
  {
    Halves(v, 256);
    Halves(v, 0x1_0000);
  }

  lemma Halves(v: nat, d: nat)
    requires d == 256 || d == 0x1_0000
    ensures v / (d * 256) == v / d / 256
  {
  }

  /** A tree node: where bit 0 and bit 1 lead, and its leaf, none from 2^31 on. */
  datatype Node = Node(zero: nat, one: nat, net: nat)

  predicate Fits(n: Node) {
    n.zero < 0x1_0000_0000 && n.one < 0x1_0000_0000 && n.net < 0x1_0000_0000
  }

  /** A node written after the bytes `before` reads back. */
  lemma NodeReadsBack(before: seq<byte>, n: Node, after: seq<byte>)
    requires Fits(n) && |before| % 12 == 0
    ensures var nt := before + Put32(n.zero) + Put32(n.one) + Put32(n.net) + after;
            var i := |before| / 12;
            && !EntryOob(i, |nt|) && Child(nt, i, 0) == n.zero && Child(nt, i, 1) == n.one
            && Leaf(nt, i) == if n.net < 0x8000_0000 then Some(n.net) else None
  {
    hide Put32, U32;
    var nt := before + Put32(n.zero) + Put32(n.one) + Put32(n.net) + after;
    var at := |before|;
    assert nt[at..at + 4] == Put32(n.zero) && nt[at + 4..at + 8] == Put32(n.one) && nt[at + 8..at + 12] == Put32(n.net);
    Get32(nt, at, n.zero);
    Get32(nt, at + 4, n.one);
    Get32(nt, at + 8, n.net);
  }

  /** The record of a network entry written after `before` reads back; its reserved bytes do not matter. */
  lemma RecordReadsBack(before: seq<byte>, country: (byte, byte), asn: nat, flags: nat, reserved: (seq<byte>, seq<byte>), after: seq<byte>)
    requires |before| % 12 == 0 && asn < 0x1_0000_0000 && flags < 0x1_0000 && |reserved.0| == |reserved.1| == 2
    ensures var entry := [country.0, country.1] + reserved.0 + Put32(asn) + [flags / 256, flags % 256] + reserved.1;
            RecordOf(before + entry + after, |before| / 12) == Some(Record(country, asn, flags))
  {
    hide Put32, U32;
    var entry := [country.0, country.1] + reserved.0 + Put32(asn) + [flags / 256, flags % 256] + reserved.1;
    var nd, p := before + entry + after, |before|;
    assert forall i :: 0 <= i < 12 ==> nd[p + i] == entry[i];
    assert nd[p + 4..p + 8] == Put32(asn);
    Get32(nd, p + 4, asn);
  }

  /** A leaf that does not lie wholly inside the network block has no record, any other one has. */
  lemma RecordIff(nd: seq<byte>, net: int)
    ensures RecordOf(nd, net).Some? <==> 0 <= net && net * 12 + 12 <= |nd|
  {
  }

  /** The bits of an address spell its bytes, most significant bit first. */
  lemma BitsSpell(addr: seq<byte>, j: nat)
    requires j < |addr|
    ensures var b := Bits(addr)[8 * j..8 * j + 8];
            addr[j] == 128 * b[0] + 64 * b[1] + 32 * b[2] + 16 * b[3] + 8 * b[4] + 4 * b[5] + 2 * b[6] + b[7]
  {
    hide BitOf;
    EachBit(addr[j]);
    ByteSpelled(addr[j]);
    var b := Bits(addr)[8 * j..8 * j + 8];
    assert forall i :: 0 <= i < 8 ==> b[i] == BitOf(addr[j], 7 - i);
  }

  /** The mapped form: 80 zero bits, 16 one bits, then the IPv4 address. */
  lemma MappedIff(v6: seq<byte>)
    requires |v6| == 16
    ensures IsMapped(v6) <==> v6 == Mapped(v6[12..])
    ensures IsMapped(v6) <==> (forall i :: 0 <= i < 10 ==> v6[i] == 0) && v6[10] == v6[11] == 255
  {
    assert v6 == v6[..12] + v6[12..];
    assert IsMapped(v6) ==> forall i :: 0 <= i < 12 ==> v6[i] == v6[..12][i];
  }

  // ---- the nodes a walk visits ----

  predicate Inside(nt: seq<byte>, node: nat) {
    node * 12 + 12 <= |nt|
  }

  predicate AllInside(nt: seq<byte>, nodes: seq<nat>) {
    forall i :: 0 <= i < |nodes| ==> Inside(nt, nodes[i])
  }

  function Next(nt: seq<byte>, node: nat, bit: nat): nat
    requires Inside(nt, node) && bit < 2
  {
    U32(nt, node * 12 + 4 * bit)
  }

  /** The third word of a node: its leaf, if below 2^31. */
  function Mark(nt: seq<byte>, node: nat): nat
    requires Inside(nt, node)
  {
    U32(nt, node * 12 + 8)
  }

  /** The index node i of the trail should have: the root, or the child of the node before by its bit. */
  function Due(nt: seq<byte>, root: nat, bits: seq<nat>, nodes: seq<nat>, i: nat): nat
    requires Binary(bits) && AllInside(nt, nodes) && i <= |nodes| && i <= |bits|
  {
    if i == 0 then root else Next(nt, nodes[i - 1], bits[i - 1])
  }

  /** The nodes visited are right: each one whole inside the table, the one due, and after the root not 0. */
  predicate IsTrail(nt: seq<byte>, root: nat, bits: seq<nat>, nodes: seq<nat>)
    requires Binary(bits)
  {
    && |nodes| <= |bits| + 1 && AllInside(nt, nodes)
    && forall i :: 0 <= i < |nodes| ==> nodes[i] == Due(nt, root, bits, nodes, i) && (i > 0 ==> nodes[i] != 0)
  }

  /** The trail ends because the bits do, or at a zero child. */
  predicate Ends(nt: seq<byte>, root: nat, bits: seq<nat>, nodes: seq<nat>)
    requires Binary(bits) && IsTrail(nt, root, bits, nodes)
  {
    |nodes| == |bits| + 1 || (nodes != [] && Due(nt, root, bits, nodes, |nodes|) == 0)
  }

  /** The trail leads out of the table. */
  predicate Escapes(nt: seq<byte>, root: nat, bits: seq<nat>, nodes: seq<nat>)
    requires Binary(bits) && IsTrail(nt, root, bits, nodes)
  {
    !Ends(nt, root, bits, nodes) && !Inside(nt, Due(nt, root, bits, nodes, |nodes|))
  }

  /** r is the leaf of the last node that has one, -1 if none has. */
  predicate LastOf(nt: seq<byte>, nodes: seq<nat>, r: int)
    requires AllInside(nt, nodes)
  {
    if r < 0 then r == -1 && forall i :: 0 <= i < |nodes| ==> Mark(nt, nodes[i]) >= 0x8000_0000
    else
      && r < 0x8000_0000
      && exists i ::
           && 0 <= i < |nodes| && Mark(nt, nodes[i]) == r
           && forall j :: i < j < |nodes| ==> Mark(nt, nodes[j]) >= 0x8000_0000
  }

  lemma {:induction false} TrailFollows(nt: seq<byte>, root: nat, bits: seq<nat>, nodes: seq<nat>, k: nat)
    requires Binary(bits) && IsTrail(nt, root, bits, nodes) && k < |nodes|
    ensures Follow(nt, root, bits, k) == At(nodes[k])
  {
    hide U32;
    if k > 0 {
      TrailFollows(nt, root, bits, nodes, k - 1);
    }
  }

  /** Every address has a trail that ends or escapes. */
  lemma TrailExists(nt: seq<byte>, root: nat, bits: seq<nat>) returns (nodes: seq<nat>)
    requires Binary(bits)
    ensures IsTrail(nt, root, bits, nodes) && (Ends(nt, root, bits, nodes) || Escapes(nt, root, bits, nodes))
  {
    hide U32;
    nodes := [];
    while !Ends(nt, root, bits, nodes) && !Escapes(nt, root, bits, nodes)
      invariant IsTrail(nt, root, bits, nodes)
      decreases |bits| + 1 - |nodes|
    {
      nodes := TrailGrows(nt, root, bits, nodes);
    }
  }

  lemma TrailGrows(nt: seq<byte>, root: nat, bits: seq<nat>, nodes: seq<nat>) returns (longer: seq<nat>)
    requires Binary(bits) && IsTrail(nt, root, bits, nodes)
    requires !Ends(nt, root, bits, nodes) && !Escapes(nt, root, bits, nodes)
    ensures |longer| == |nodes| + 1 && IsTrail(nt, root, bits, longer)
  {
    hide Next;
    longer := nodes + [Due(nt, root, bits, nodes, |nodes|)];
    assert AllInside(nt, longer);
    forall i | 0 <= i < |longer| ensures longer[i] == Due(nt, root, bits, longer, i) && (i > 0 ==> longer[i] != 0) {
      if i > 0 {
        assert longer[i - 1] == nodes[i - 1];
      }
      assert Due(nt, root, bits, longer, i) == Due(nt, root, bits, nodes, i);
      assert i < |nodes| ==> longer[i] == nodes[i];
    }
  }

  /** The match is the last leaf on the trail of an address, and none if the trail leaves the table. */
  lemma MatchIsLastOfTrail(nt: seq<byte>, root: nat, bits: seq<nat>, nodes: seq<nat>, r: int)
    requires Binary(bits) && IsTrail(nt, root, bits, nodes)
    requires Ends(nt, root, bits, nodes) || Escapes(nt, root, bits, nodes)
    ensures IsMatch(nt, root, bits, r) <==> if Escapes(nt, root, bits, nodes) then r == -1 else LastOf(nt, nodes, r)
  {
    hide U32, IsMatch, LastLeaf, LastOf;
    forall k | 0 <= k < |nodes| {
      TrailFollows(nt, root, bits, nodes, k);
    }
    var n := |nodes|;
    var m: int := -1;
    if Escapes(nt, root, bits, nodes) {
      assert Follow(nt, root, bits, n).Outside?;
      OutsideMatch(nt, root, bits, n);
    } else {
      m := LastLeaf(nt, root, bits, n);
      if n == |bits| + 1 {
        MatchFromLastLeaf(nt, root, bits);
      } else {
        EndedMatch(nt, root, bits, n);
      }
      LastOfTrail(nt, root, bits, nodes, n);
      assert nodes[..n] == nodes;
      LastOfUnique(nt, nodes, m, r);
    }
    if IsMatch(nt, root, bits, r) {
      MatchUnique(nt, root, bits, r, m);
    }
  }

  lemma LastOfUnique(nt: seq<byte>, nodes: seq<nat>, r: int, s: int)
    requires forall i :: 0 <= i < |nodes| ==> Inside(nt, nodes[i])
    requires LastOf(nt, nodes, r)
    ensures LastOf(nt, nodes, s) <==> r == s
  {
    hide U32;
  }

  lemma {:induction false} LastOfTrail(nt: seq<byte>, root: nat, bits: seq<nat>, nodes: seq<nat>, k: nat)
    requires Binary(bits) && IsTrail(nt, root, bits, nodes) && k <= |nodes|
    ensures LastOf(nt, nodes[..k], LastLeaf(nt, root, bits, k))
  {
    hide U32, Follow, LastOf, Due;
    if k > 0 {
      LastOfTrail(nt, root, bits, nodes, k - 1);
      TrailFollows(nt, root, bits, nodes, k - 1);
      assert nodes[..k] == nodes[..k - 1] + [nodes[k - 1]];
      LastLeafStep(nt, root, bits, k - 1, nodes[k - 1]);
      LastOfNext(nt, nodes[..k - 1], nodes[k - 1], LastLeaf(nt, root, bits, k - 1));
    } else {
      NoLeafYet(nt, root, bits);
      LastOfNothing(nt);
    }
  }

  lemma LastOfNothing(nt: seq<byte>)
    ensures LastOf(nt, [], -1)
  {
  }

  lemma LastOfNext(nt: seq<byte>, nodes: seq<nat>, node: nat, r: int)
    requires AllInside(nt, nodes) && Inside(nt, node) && LastOf(nt, nodes, r)
    ensures LastOf(nt, nodes + [node], if Mark(nt, node) < 0x8000_0000 then Mark(nt, node) else r)
  {
    hide Mark;
    var longer := nodes + [node];
    assert longer[|nodes|] == node && forall i :: 0 <= i < |nodes| ==> longer[i] == nodes[i];
    if Mark(nt, node) >= 0x8000_0000 && r >= 0 {
      var i :| 0 <= i < |nodes| && Mark(nt, nodes[i]) == r && forall j :: i < j < |nodes| ==> Mark(nt, nodes[j]) >= 0x8000_0000;
      assert Mark(nt, longer[i]) == r;
    }
  }

  // ---- the answers ----

  lemma MatchExists(nt: seq<byte>, root: nat, bits: seq<nat>) returns (r: int)
    requires Binary(bits)
    ensures IsMatch(nt, root, bits, r)
  {
    hide IsMatch, IsTrail, Ends, Escapes, LastLeaf, Follow;
    if k :| 0 <= k <= |bits| && Follow(nt, root, bits, k).Outside? {
      OutsideMatch(nt, root, bits, k);
      r := -1;
    } else {
      MatchFromLastLeaf(nt, root, bits);
      r := LastLeaf(nt, root, bits, |bits| + 1);
    }
  }

  /** r is the record of the match of these bits from this node. */
  ghost predicate IsRecord(db: Db, root: nat, bits: seq<nat>, r: Option<Record>)
    requires Binary(bits)
  {
    exists net: int :: IsMatch(db.nt, root, bits, net) && r == RecordOf(db.nd, net)
  }

  lemma RecordIsOf(db: Db, root: nat, bits: seq<nat>, net: int, r: Option<Record>)
    requires Binary(bits) && IsMatch(db.nt, root, bits, net)
    ensures IsRecord(db, root, bits, r) <==> r == RecordOf(db.nd, net)
  {
    hide IsMatch, RecordOf;
    if IsRecord(db, root, bits, r) {
      var other: int :| IsMatch(db.nt, root, bits, other) && r == RecordOf(db.nd, other);
      MatchUnique(db.nt, root, bits, net, other);
    }
  }

  /** Where a lookup starts: IPv4 and v4-mapped addresses at the IPv4 root, with 32 bits, any other IPv6
      address at node 0, with 128; another family has no answer. */
  lemma AnswersAre(db: Db, v4: seq<byte>, v6: seq<byte>, r: Option<Record>)
    requires |v4| == 4 && |v6| == 16
    ensures IsAnswer(db, Inet(v4), r) <==> IsRecord(db, db.ipv4root, Bits(v4), r)
    ensures IsAnswer(db, Inet6(Mapped(v4)), r) <==> IsRecord(db, db.ipv4root, Bits(v4), r)
    ensures !IsMapped(v6) ==> (IsAnswer(db, Inet6(v6), r) <==> IsRecord(db, 0, Bits(v6), r))
    ensures IsAnswer(db, OtherFamily, r) <==> r == None
  {
    hide IsMatch, RecordOf, Bits;
    MappedIff(Mapped(v4));
    assert Mapped(v4)[12..] == v4;
  }

  /** A lookup has one answer. */
  lemma OneAnswer(db: Db, sa: Sockaddr, r: Option<Record>, s: Option<Record>)
    requires Wellformed(sa) && IsAnswer(db, sa, r)
    ensures IsAnswer(db, sa, s) <==> r == s
  {
    hide IsMatch, RecordOf, Bits;
    if IsAnswer(db, sa, s) && !sa.OtherFamily? {
      var m: int :| IsMatch(db.nt, Path(db, sa).0, Path(db, sa).1, m) && r == RecordOf(db.nd, m);
      var n: int :| IsMatch(db.nt, Path(db, sa).0, Path(db, sa).1, n) && s == RecordOf(db.nd, n);
      MatchUnique(db.nt, Path(db, sa).0, Path(db, sa).1, m, n);
    }
  }

  /** The IPv4 root is the one the loader finds: the mapped prefix leads to it through the table. */
  predicate Rooted(db: Db) {
    && db.ipv4root != 0 && Follow(db.nt, 0, V4Prefix(), 96) == Enter(db.nt, db.ipv4root)
    && forall k :: 0 <= k < 96 ==> Follow(db.nt, 0, V4Prefix(), k).At?
  }

  /** With the loader's root an IPv4 address, mapped or not, is answered like the 128 bits of its mapped
      form from node 0, exactly when its own 32 bits meet a leaf or leave the table or the mapped prefix
      itself has no record. */
  lemma V4AnswerIff(db: Db, v4: seq<byte>, chain: int)
    requires |v4| == 4 && Rooted(db) && IsMatch(db.nt, 0, V4Prefix(), chain)
    ensures (forall r :: IsAnswer(db, Inet(v4), r) <==> IsRecord(db, 0, Bits(Mapped(v4)), r))
            <==> LeavesTable(db.nt, db.ipv4root, Bits(v4)) || HasLeaf(db.nt, db.ipv4root, Bits(v4))
                 || RecordOf(db.nd, chain) == None
  {
    hide IsMatch, RecordOf, Bits, Follow, Mapped, LeavesTable, HasLeaf;
    var short := MatchExists(db.nt, db.ipv4root, Bits(v4));
    var long := MatchExists(db.nt, 0, Bits(Mapped(v4)));
    Ipv4RootComposes(db.nt, db.ipv4root, v4, short, long, chain);
    forall r ensures IsAnswer(db, Inet(v4), r) <==> r == RecordOf(db.nd, short) {
      V4Answers(db, v4, r);
      RecordIsOf(db, db.ipv4root, Bits(v4), short, r);
    }
    forall r ensures IsRecord(db, 0, Bits(Mapped(v4)), r) <==> r == RecordOf(db.nd, long) {
      RecordIsOf(db, 0, Bits(Mapped(v4)), long, r);
    }
    assert IsAnswer(db, Inet(v4), RecordOf(db.nd, short));
    if !LeavesTable(db.nt, db.ipv4root, Bits(v4)) && !HasLeaf(db.nt, db.ipv4root, Bits(v4)) {
      NoMatch(db, db.ipv4root, Bits(v4), short);
    }
  }

  lemma V4Answers(db: Db, v4: seq<byte>, r: Option<Record>)
    requires |v4| == 4
    ensures IsAnswer(db, Inet(v4), r) <==> IsRecord(db, db.ipv4root, Bits(v4), r)
  {
    hide IsMatch, RecordOf, Bits;
  }

  lemma NoMatch(db: Db, root: nat, bits: seq<nat>, short: int)
    requires Binary(bits) && IsMatch(db.nt, root, bits, short) && !HasLeaf(db.nt, root, bits)
    ensures RecordOf(db.nd, short) == None
  {
    hide HasLeaf, LeavesTable;
  }
}

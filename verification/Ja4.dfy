/** The TLS client fingerprint (heavybag_ja4.c): filter, sort, print, hash. */
module Ja4 {
  import opened Wrappers
  import opened Bytes

  const MAX_ELEMS: nat := 256
  const CSV_CAP: nat := MAX_ELEMS * 5 * 2 + 4
  const ZEROS: string := "000000000000"

  type u16 = v: nat | v < 0x1_0000

  /** What ja4_build is given; an absent signature or ALPN list is empty. */
  datatype Hello = Hello(
    ciphers: seq<u16>, exts: seq<u16>, sigalgs: seq<u16>, alpn: seq<byte>, version: u16, quic: bool)

  // ---- filtering ----

  /** The mask test (v & 0x0f0f) == 0x0a0a: the low nibble of both bytes is 0xa. */
  predicate IsGrease(v: u16) {
    v % 16 == 10 && v / 256 % 16 == 10
  }

  /** Section 2 of RFC 8701: 0x0A0A, 0x1A1A, up to 0xFAFA. */
  predicate Reserved(v: u16) {
    exists k: nat :: k < 16 && v == 0x0a0a + 0x1010 * k
  }

  /** The mask catches every reserved value and, besides, those whose bytes differ. */
  lemma GreaseIsWider(v: u16)
    ensures Reserved(v) <==> IsGrease(v) && v / 256 == v % 256
    ensures IsGrease(0x1a2a) && !Reserved(0x1a2a)
  {
    if Reserved(v) {
      var k: nat :| k < 16 && v == 0x0a0a + 0x1010 * k;
      ReservedBytes(k);
    }
    if IsGrease(v) && v / 256 == v % 256 {
      assert v == 0x0a0a + 0x1010 * (v % 256 / 16);
    }
  }

  lemma ReservedBytes(k: nat)
    requires k < 16
    ensures var v := 0x0a0a + 0x1010 * k; v / 256 == v % 256 == 10 + 16 * k && IsGrease(v)
  {
  }

  /** Extensions with their own field in the first part: server name and ALPN. */
  predicate Counted(v: u16, ext: bool) {
    !IsGrease(v) && !(ext && (v == 0x0000 || v == 0x0010))
  }

  function One(v: u16, ext: bool): seq<u16> {
    if Counted(v, ext) then [v] else []
  }

  function Kept(src: seq<u16>, ext: bool): seq<u16> {
    if src == [] then [] else One(src[0], ext) + Kept(src[1..], ext)
  }

  lemma {:induction false} KeptConcat(s: seq<u16>, t: seq<u16>, ext: bool)
    ensures Kept(s + t, ext) == Kept(s, ext) + Kept(t, ext)
  {
    hide One;
    if s == [] {
      assert s + t == t;
    } else {
      assert (s + t)[1..] == s[1..] + t;
      KeptConcat(s[1..], t, ext);
      assert Kept(s + t, ext) == One(s[0], ext) + Kept(s[1..] + t, ext);
    }
  }

  lemma KeptNext(src: seq<u16>, i: nat, ext: bool)
    requires i < |src|
    ensures Kept(src[..i + 1], ext) == Kept(src[..i], ext) + One(src[i], ext)
  {
    assert src[..i + 1] == src[..i] + [src[i]];
    KeptConcat(src[..i], [src[i]], ext);
  }

  function Head(s: seq<u16>, n: nat): seq<u16> {
    if |s| <= n then s else s[..n]
  }

  /** The filtering loops: the first dst.Length values that count, in order. */
  method FilterInto(src: seq<u16>, dst: array<u16>, ext: bool) returns (k: nat)
    modifies dst
    ensures k <= dst.Length && dst[..k] == Head(Kept(src, ext), dst.Length)
  {
    hide Kept, IsGrease;
    var i := 0;
    k := 0;
    NothingKept(src, ext);
    while i < |src| && k < dst.Length
      invariant 0 <= i <= |src| && 0 <= k <= dst.Length
      invariant dst[..k] == Kept(src[..i], ext)
    {
      KeptNext(src, i, ext);
      if !(IsGrease(src[i]) || (ext && (src[i] == 0x0000 || src[i] == 0x0010))) {
        dst[k] := src[i];
        k := k + 1;
      }
      i := i + 1;
    }
    assert src == src[..i] + src[i..];
    KeptConcat(src[..i], src[i..], ext);
    if i == |src| {
      assert src[..i] == src;
    }
  }

  lemma NothingKept(src: seq<u16>, ext: bool)
    ensures Kept(src[..0], ext) == []
  {
  }

  // ---- sorting ----

  predicate Ascending(s: seq<u16>) {
    forall i, j :: 0 <= i < j < |s| ==> s[i] <= s[j]
  }

  function Insert(v: u16, s: seq<u16>): seq<u16> {
    if s == [] || v <= s[0] then [v] + s else [s[0]] + Insert(v, s[1..])
  }

  function Sort(s: seq<u16>): seq<u16> {
    if s == [] then [] else Insert(s[0], Sort(s[1..]))
  }

  lemma {:induction false} InsertKeeps(v: u16, s: seq<u16>)
    ensures multiset(Insert(v, s)) == multiset(s) + multiset{v}
  {
    if s != [] && v > s[0] {
      InsertKeeps(v, s[1..]);
      assert s == [s[0]] + s[1..];
    }
  }

  lemma {:induction false} InsertAscends(v: u16, s: seq<u16>)
    requires Ascending(s)
    ensures Ascending(Insert(v, s)) && Insert(v, s) != []
    ensures Insert(v, s)[0] == v || (s != [] && Insert(v, s)[0] == s[0])
  {
    if s != [] && v > s[0] {
      InsertAscends(v, s[1..]);
      AscendingCons(s[0], Insert(v, s[1..]));
    } else {
      AscendingCons(v, s);
    }
  }

  lemma AscendingCons(v: u16, s: seq<u16>)
    requires Ascending(s) && (s != [] ==> v <= s[0])
    ensures Ascending([v] + s)
  {
  }

  lemma {:induction false} SortAscends(s: seq<u16>)
    ensures Ascending(Sort(s)) && multiset(Sort(s)) == multiset(s)
  {
    if s != [] {
      SortAscends(s[1..]);
      InsertAscends(s[0], Sort(s[1..]));
      InsertKeeps(s[0], Sort(s[1..]));
      assert s == [s[0]] + s[1..];
    }
  }

  /** A multiset of numbers has one ascending arrangement, so any sorting routine will do. */
  lemma {:induction false} AscendingUnique(s: seq<u16>, t: seq<u16>)
    requires Ascending(s) && Ascending(t) && multiset(s) == multiset(t)
    ensures s == t
  {
    hide Ascending;
    assert |s| == |multiset(s)| == |multiset(t)| == |t|;
    if s != [] {
      LeastFirst(s, t);
      LeastFirst(t, s);
      TailAscends(s);
      TailAscends(t);
      AscendingUnique(s[1..], t[1..]);
    }
  }

  lemma TailAscends(s: seq<u16>)
    requires s != [] && Ascending(s)
    ensures Ascending(s[1..]) && multiset(s[1..]) == multiset(s) - multiset{s[0]} && s == [s[0]] + s[1..]
  {
    assert s == [s[0]] + s[1..];
  }

  lemma LeastFirst(s: seq<u16>, t: seq<u16>)
    requires Ascending(s) && Ascending(t) && multiset(s) == multiset(t) && s != [] && t != []
    ensures s[0] <= t[0]
  {
    assert t[0] in multiset(s);
  }

  lemma SortedEqualIff(s: seq<u16>, t: seq<u16>)
    ensures Sort(s) == Sort(t) <==> multiset(s) == multiset(t)
  {
    SortAscends(s);
    SortAscends(t);
    if multiset(s) == multiset(t) {
      AscendingUnique(Sort(s), Sort(t));
    }
  }

  /** Stands for qsort on list[0..n): by AscendingUnique there is only one outcome. */
  method SortPrefix(a: array<u16>, n: nat)
    requires n <= a.Length
    modifies a
    ensures a[..n] == Sort(old(a[..n]))
  {
    var s := Sort(a[..n]);
    SortAscends(a[..n]);
    assert |s| == |multiset(s)| == n;
    for i := 0 to n
      invariant a[..i] == s[..i]
    {
      a[i] := s[i];
    }
  }

  // ---- printing ----

  function HexDigit(v: nat): (c: char)
    ensures ('0' <= c <= '9' || 'a' <= c <= 'f')
  {
    var d := v % 16;
    if d < 10 then '0' + d as char else 'a' + (d - 10) as char
  }

  lemma HexDigitInjective(a: nat, b: nat)
    ensures HexDigit(a) == HexDigit(b) <==> a % 16 == b % 16
  {
  }

  function Hex4(v: u16): (s: string)
    ensures |s| == 4
  {
    [HexDigit(v / 4096), HexDigit(v / 256), HexDigit(v / 16), HexDigit(v)]
  }

  lemma Nibbles(v: u16)
    ensures v == v / 4096 % 16 * 4096 + v / 256 % 16 * 256 + v / 16 % 16 * 16 + v % 16
  {
    assert v / 256 == v / 16 / 16 && v / 4096 == v / 256 / 16;
  }

  lemma Hex4Injective(a: u16, b: u16)
    requires Hex4(a) == Hex4(b)
    ensures a == b
  {
    hide HexDigit;
    assert Hex4(a)[0] == Hex4(b)[0] && Hex4(a)[1] == Hex4(b)[1] && Hex4(a)[2] == Hex4(b)[2] && Hex4(a)[3] == Hex4(b)[3];
    HexDigitInjective(a / 4096, b / 4096);
    HexDigitInjective(a / 256, b / 256);
    HexDigitInjective(a / 16, b / 16);
    HexDigitInjective(a, b);
    Nibbles(a);
    Nibbles(b);
  }

  /** What one turn of the printing loop appends. */
  function Item(later: bool, v: u16): string {
    (if later then "," else "") + Hex4(v)
  }

  function Csv(vals: seq<u16>): string {
    if vals == [] then "" else Csv(vals[..|vals| - 1]) + Item(|vals| > 1, vals[|vals| - 1])
  }

  lemma {:induction false} CsvShape(vals: seq<u16>)
    ensures |Csv(vals)| == if vals == [] then 0 else 5 * |vals| - 1
    ensures '_' !in Csv(vals)
  {
    if vals != [] {
      CsvShape(vals[..|vals| - 1]);
    }
  }

  /** The printed list determines the list. */
  lemma {:induction false} CsvInjective(s: seq<u16>, t: seq<u16>)
    requires Csv(s) == Csv(t)
    ensures s == t
  {
    hide Hex4;
    CsvShape(s);
    CsvShape(t);
    assert |s| == |t|;
    if s != [] {
      var n := |s| - 1;
      var x, y := Csv(s[..n]), Csv(t[..n]);
      CsvShape(s[..n]);
      CsvShape(t[..n]);
      assert Csv(s) == x + Item(n > 0, s[n]) && Csv(t) == y + Item(n > 0, t[n]);
      assert Csv(s)[..|x|] == x && Csv(t)[..|y|] == y;
      assert Csv(s)[|Csv(s)| - 4..] == Hex4(s[n]) && Csv(t)[|Csv(t)| - 4..] == Hex4(t[n]);
      Hex4Injective(s[n], t[n]);
      CsvInjective(s[..n], t[..n]);
      assert s == s[..n] + [s[n]] && t == t[..n] + [t[n]];
    }
  }

  /** snprintf at pos: the text cut to the room there is, a NUL after it, and the full length. */
  method Snprintf(buf: array<char>, pos: nat, s: string) returns (w: nat)
    requires pos < buf.Length
    modifies buf
    ensures w == |s| && buf[..pos] == old(buf[..pos])
    ensures w < buf.Length - pos ==> buf[..pos + w] == old(buf[..pos]) + s
  {
    var n := if |s| < buf.Length - pos then |s| else buf.Length - pos - 1;
    for i := 0 to n
      invariant buf[..pos + i] == old(buf[..pos]) + s[..i]
    {
      buf[pos + i] := s[i];
    }
    assert n == |s| ==> s[..n] == s;
    buf[pos + n] := '\0';
    w := |s|;
  }

  /** ja4_append_hex_csv: the first `done` values in full, and all of them whenever five bytes a
      value are left. */
  method AppendHexCsv(buf: array<char>, pos: nat, vals: seq<u16>) returns (p: nat, ghost done: nat)
    requires pos <= buf.Length
    modifies buf
    ensures pos <= p <= buf.Length && done <= |vals|
    ensures buf[..p] == old(buf[..pos]) + Csv(vals[..done])
    ensures pos + 5 * |vals| < buf.Length ==> vals[..done] == vals
  {
    hide Csv, Item;
    p, done := pos, 0;
    var i := 0;
    NoCsv(vals);
    while i < |vals|
      invariant 0 <= i <= |vals| && done == i && pos <= p <= buf.Length
      invariant buf[..p] == old(buf[..pos]) + Csv(vals[..i])
    {
      CsvNext(vals, i);
      CsvShape(vals[..i + 1]);
      if p + 1 >= buf.Length {
        return;
      }
      var w := Snprintf(buf, p, Item(i > 0, vals[i]));
      if w >= buf.Length - p {
        return;
      }
      p := p + w;
      i := i + 1;
      done := i;
    }
  }

  lemma NoCsv(vals: seq<u16>)
    ensures Csv(vals[..0]) == ""
  {
  }

  lemma CsvNext(vals: seq<u16>, i: nat)
    requires i < |vals|
    ensures Csv(vals[..i + 1]) == Csv(vals[..i]) + Item(i > 0, vals[i])
  {
    hide Item;
    assert vals[..i + 1][..i] == vals[..i];
  }

  // ---- the three parts ----

  function Clamp(n: nat): (m: nat)
    ensures m <= 99
  {
    if n > 99 then 99 else n
  }

  function Digits2(n: nat): (s: string)
    requires n <= 99
    ensures |s| == 2
  {
    ['0' + (n / 10) as char, '0' + (n % 10) as char]
  }

  lemma Digits2Injective(a: nat, b: nat)
    requires a <= 99 && b <= 99 && Digits2(a) == Digits2(b)
    ensures a == b
  {
    assert Digits2(a)[0] == Digits2(b)[0] && Digits2(a)[1] == Digits2(b)[1];
    assert a / 10 == b / 10 && a % 10 == b % 10;
  }

  function VersionCode(v: u16): (s: string)
    ensures |s| == 2
  {
    match v
    case 0x0304 => "13"
    case 0x0303 => "12"
    case 0x0302 => "11"
    case 0x0301 => "10"
    case 0x0300 => "s3"
    case 0xfeff => "d1"
    case 0xfefd => "d2"
    case 0xfefc => "d3"
    case _ => "00"
  }

  predicate IsAlnum(c: nat) {
    0x30 <= c <= 0x39 || 0x41 <= c <= 0x5a || 0x61 <= c <= 0x7a
  }

  /** First and last byte of the ALPN value, hex-escaped unless both are alphanumeric. */
  function AlpnChars(alpn: seq<byte>): (s: string)
    ensures |s| == 2
  {
    if alpn == [] then "00"
    else
      var first, last := alpn[0], alpn[|alpn| - 1];
      if IsAlnum(first) && IsAlnum(last) then [first as char, last as char]
      else [HexDigit(first / 16), HexDigit(last)]
  }

  predicate HasSni(exts: seq<u16>) {
    0x0000 in exts
  }

  function PartA(h: Hello): (s: string)
    ensures |s| == 10
  {
    [if h.quic then 'q' else 't'] + VersionCode(h.version) + [if HasSni(h.exts) then 'd' else 'i']
    + Digits2(Clamp(|Kept(h.ciphers, false)|)) + Digits2(Clamp(|Kept(h.exts, false)|)) + AlpnChars(h.alpn)
  }

  function CipherList(h: Hello): seq<u16> {
    Head(Kept(h.ciphers, false), MAX_ELEMS)
  }

  function ExtList(h: Hello): seq<u16> {
    Head(Kept(h.exts, true), MAX_ELEMS)
  }

  function SigList(h: Hello): seq<u16> {
    Head(Kept(h.sigalgs, false), MAX_ELEMS)
  }

  /** What the second part hashes; nothing for an empty list. */
  function PreimageB(h: Hello): Option<string> {
    if CipherList(h) == [] then None else Some(Csv(Sort(CipherList(h))))
  }

  function SigText(sigs: seq<u16>): string {
    if sigs == [] then "" else "_" + Csv(sigs)
  }

  /** What the third part hashes. */
  function PreimageC(h: Hello): Option<string> {
    if ExtList(h) == [] && SigList(h) == [] then None
    else Some(Csv(Sort(ExtList(h))) + SigText(SigList(h)))
  }

  /** SHA-256 cut to twelve hex digits, as an unknown function that may fail. */
  type Hash = string -> Option<string>

  function HashPart(hash: Hash, pre: Option<string>): Option<string> {
    if pre.None? then Some(ZEROS) else hash(pre.value)
  }

  /** The fingerprint; None when a digest fails. */
  function Fingerprint(h: Hello, hash: Hash): Option<string> {
    var b, c := HashPart(hash, PreimageB(h)), HashPart(hash, PreimageC(h));
    if b.None? || c.None? then None
    else Some(PartA(h) + "_" + b.value + "_" + c.value)
  }

  // ---- the builder ----

  method PartACounts(h: Hello) returns (sni: bool, ncip: nat, next: nat)
    ensures sni == HasSni(h.exts)
    ensures ncip == Clamp(|Kept(h.ciphers, false)|) && next == Clamp(|Kept(h.exts, false)|)
  {
    hide Kept, IsGrease;
    sni, next, ncip := false, 0, 0;
    NothingKept(h.exts, false);
    NothingKept(h.ciphers, false);
    for i := 0 to |h.exts|
      invariant next == |Kept(h.exts[..i], false)|
      invariant sni <==> 0x0000 in h.exts[..i]
    {
      KeptNext(h.exts, i, false);
      ZeroIsKept();
      if IsGrease(h.exts[i]) {
        continue;
      }
      if h.exts[i] == 0x0000 {
        sni := true;
      }
      next := next + 1;
    }
    for i := 0 to |h.ciphers|
      invariant ncip == |Kept(h.ciphers[..i], false)|
    {
      KeptNext(h.ciphers, i, false);
      if !IsGrease(h.ciphers[i]) {
        ncip := ncip + 1;
      }
    }
    assert h.exts[..|h.exts|] == h.exts && h.ciphers[..|h.ciphers|] == h.ciphers;
    if ncip > 99 {
      ncip := 99;
    }
    if next > 99 {
      next := 99;
    }
  }

  lemma ZeroIsKept()
    ensures !IsGrease(0x0000)
  {
  }

  /** The second part's buffer: filter, sort, print. The buffer never runs short. */
  method TextB(h: Hello) returns (pre: Option<string>)
    ensures pre == PreimageB(h)
  {
    hide Kept, Sort, Csv;
    var list := new u16[MAX_ELEMS];
    var csv := new char[CSV_CAP];
    var n := FilterInto(h.ciphers, list, false);
    SortPrefix(list, n);
    if n == 0 {
      return None;
    }
    SortLength(CipherList(h));
    assert list[..n] == Sort(CipherList(h));
    ghost var done: nat;
    var pos: nat;
    pos, done := AppendHexCsv(csv, 0, list[..n]);
    assert csv[..pos] == Csv(Sort(CipherList(h)));
    return Some(csv[..pos]);
  }

  lemma SortLength(s: seq<u16>)
    ensures |Sort(s)| == |s|
  {
    SortAscends(s);
    assert |Sort(s)| == |multiset(Sort(s))| == |multiset(s)| == |s|;
  }

  /** The third part's buffer: sorted extensions, then the signature algorithms as sent. */
  method TextC(h: Hello) returns (pre: Option<string>)
    ensures pre == PreimageC(h)
  {
    hide Kept, Sort, Csv;
    var list := new u16[MAX_ELEMS];
    var sig := new u16[MAX_ELEMS];
    var n := FilterInto(h.exts, list, true);
    SortPrefix(list, n);
    var ns := FilterInto(h.sigalgs, sig, false);
    assert sig[..ns] == SigList(h);
    SortLength(ExtList(h));
    if n == 0 && ns == 0 {
      return None;
    }
    assert list[..n] == Sort(ExtList(h));
    var text := PrintHalves(list[..n], sig[..ns]);
    return Some(text);
  }

  /** The signature half: a bar and the list, or nothing. */
  method AppendSigs(csv: array<char>, at: nat, sigs: seq<u16>) returns (pos: nat)
    requires at + 5 * |sigs| + 1 < csv.Length
    modifies csv
    ensures at <= pos <= csv.Length && csv[..pos] == old(csv[..at]) + SigText(sigs)
  {
    hide Csv;
    pos := at;
    if |sigs| > 0 {
      if pos + 1 < csv.Length {
        csv[pos] := '_';
        pos := pos + 1;
        csv[pos] := '\0';
      }
      assert csv[..pos] == old(csv[..at]) + "_";
      ghost var done: nat;
      pos, done := AppendHexCsv(csv, pos, sigs);
    }
  }

  /** Two lists into one buffer, a bar between them if there is a second. The buffer has room. */
  method PrintHalves(exts: seq<u16>, sigs: seq<u16>) returns (text: string)
    requires |exts| <= MAX_ELEMS && |sigs| <= MAX_ELEMS
    ensures text == Csv(exts) + SigText(sigs)
  {
    hide Csv, SigText;
    var csv := new char[CSV_CAP];
    var pos: nat;
    ghost var done: nat;
    pos, done := AppendHexCsv(csv, 0, exts);
    assert csv[..pos] == Csv(exts);
    CsvShape(exts);
    pos := AppendSigs(csv, pos, sigs);
    return csv[..pos];
  }

  /** ja4_build. */
  method Build(h: Hello, hash: Hash) returns (out: Option<string>)
    ensures out == Fingerprint(h, hash)
  {
    hide PreimageB, PreimageC, Clamp, Digits2, VersionCode, AlpnChars, HasSni;
    var sni, ncip, next := PartACounts(h);
    var a := [if h.quic then 'q' else 't'] + VersionCode(h.version) + [if sni then 'd' else 'i']
             + Digits2(ncip) + Digits2(next) + AlpnChars(h.alpn);
    var jb := ZEROS;
    var pre := TextB(h);
    if pre.Some? {
      var md := hash(pre.value);
      if md.None? {
        return None;
      }
      jb := md.value;
    }
    var jc := ZEROS;
    pre := TextC(h);
    if pre.Some? {
      var md := hash(pre.value);
      if md.None? {
        return None;
      }
      jc := md.value;
    }
    return Some(a + "_" + jb + "_" + jc);
  }

  // ---- what the fingerprint means ----

  /** Two hellos hash the same cipher text exactly when they offer the same ciphers, as a
      multiset, GREASE aside (and past the first 256, which are not read). */
  lemma PreimageBIff(x: Hello, y: Hello)
    ensures PreimageB(x) == PreimageB(y) <==> multiset(CipherList(x)) == multiset(CipherList(y))
  {
    hide CipherList, Csv, Sort;
    var s, t := CipherList(x), CipherList(y);
    SortedEqualIff(s, t);
    EmptyMultiset(s);
    EmptyMultiset(t);
    if PreimageB(x) == PreimageB(y) && s != [] {
      CsvInjective(Sort(s), Sort(t));
    }
  }

  lemma EmptyMultiset(s: seq<u16>)
    ensures multiset(s) == multiset{} <==> s == []
  {
    assert |multiset(s)| == |s|;
  }

  /** The two halves of the third part cannot run into each other. */
  lemma HalvesSeparate(e: seq<u16>, s: seq<u16>, f: seq<u16>, t: seq<u16>)
    requires Csv(e) + SigText(s) == Csv(f) + SigText(t)
    ensures e == f && s == t
  {
    hide Csv;
    CsvShape(e);
    CsvShape(f);
    var x, y := Csv(e) + SigText(s), Csv(f) + SigText(t);
    NoBar(e, s);
    NoBar(f, t);
    assert |Csv(e)| == |Csv(f)|;
    assert x[..|Csv(e)|] == Csv(e) && y[..|Csv(f)|] == Csv(f);
    CsvInjective(e, f);
    assert x[|Csv(e)|..] == SigText(s) && y[|Csv(f)|..] == SigText(t);
    if s != [] {
      assert SigText(s)[1..] == Csv(s) && SigText(t)[1..] == Csv(t);
      CsvInjective(s, t);
    }
  }

  /** The bar, if any, stands right after the first list. */
  lemma NoBar(e: seq<u16>, s: seq<u16>)
    ensures var x, n := Csv(e) + SigText(s), |Csv(e)|;
            && (forall i :: 0 <= i < n ==> x[i] != '_')
            && (if n < |x| then x[n] == '_' && s != [] else s == [])
  {
    hide Csv;
    CsvShape(e);
    var x := Csv(e) + SigText(s);
    forall i | 0 <= i < |Csv(e)| ensures x[i] != '_' {
      assert x[i] in Csv(e);
    }
  }

  /** Likewise the third part: extensions as a multiset, signature algorithms in order. */
  lemma PreimageCIff(x: Hello, y: Hello)
    ensures PreimageC(x) == PreimageC(y)
            <==> multiset(ExtList(x)) == multiset(ExtList(y)) && SigList(x) == SigList(y)
  {
    hide ExtList, SigList, Csv, Sort;
    var s, t := ExtList(x), ExtList(y);
    SortedEqualIff(s, t);
    EmptyMultiset(s);
    EmptyMultiset(t);
    if PreimageC(x) == PreimageC(y) && PreimageC(x).Some? {
      HalvesSeparate(Sort(s), SigList(x), Sort(t), SigList(y));
    }
  }

  /** Everything of a hello the fingerprint shows. */
  datatype Canon = Canon(
    quic: bool, version: string, sni: bool, ciphers: nat, exts: nat, alpn: string,
    cipherSet: multiset<u16>, extSet: multiset<u16>, sigs: seq<u16>)

  ghost function Canonical(h: Hello): Canon {
    Canon(h.quic, VersionCode(h.version), HasSni(h.exts),
          Clamp(|Kept(h.ciphers, false)|), Clamp(|Kept(h.exts, false)|), AlpnChars(h.alpn),
          multiset(CipherList(h)), multiset(ExtList(h)), SigList(h))
  }

  /** The hash neither fails on these two texts nor confuses them, nor either with the zeros. */
  ghost predicate Separates(hash: Hash, p: Option<string>, q: Option<string>) {
    && HashPart(hash, p).Some? && |HashPart(hash, p).value| == 12
    && HashPart(hash, q).Some? && |HashPart(hash, q).value| == 12
    && (HashPart(hash, p) == HashPart(hash, q) ==> p == q)
  }

  /** The canonical form is exact: where the hash does its work, two clients share a fingerprint
      exactly when they share the canonical form. */
  lemma FingerprintIff(x: Hello, y: Hello, hash: Hash)
    requires Separates(hash, PreimageB(x), PreimageB(y)) && Separates(hash, PreimageC(x), PreimageC(y))
    ensures Fingerprint(x, hash) == Fingerprint(y, hash) <==> Canonical(x) == Canonical(y)
  {
    hide PreimageB, PreimageC, PartA, CipherList, ExtList, SigList, Kept, HasSni, Clamp, VersionCode, AlpnChars;
    PreimageBIff(x, y);
    PreimageCIff(x, y);
    PartAIff(x, y);
    PartsSeparate(PartA(x), HashPart(hash, PreimageB(x)).value, HashPart(hash, PreimageC(x)).value,
                  PartA(y), HashPart(hash, PreimageB(y)).value, HashPart(hash, PreimageC(y)).value);
  }

  lemma PartsSeparate(a: string, b: string, c: string, d: string, e: string, f: string)
    requires |a| == |d| == 10 && |b| == |e| == 12 && |c| == |f| == 12
    ensures a + "_" + b + "_" + c == d + "_" + e + "_" + f <==> a == d && b == e && c == f
  {
    var x, y := a + "_" + b + "_" + c, d + "_" + e + "_" + f;
    assert x[..10] == a && x[11..23] == b && x[24..] == c;
    assert y[..10] == d && y[11..23] == e && y[24..] == f;
  }

  lemma PartAIff(x: Hello, y: Hello)
    ensures PartA(x) == PartA(y)
            <==> x.quic == y.quic && VersionCode(x.version) == VersionCode(y.version)
                 && HasSni(x.exts) == HasSni(y.exts) && AlpnChars(x.alpn) == AlpnChars(y.alpn)
                 && Clamp(|Kept(x.ciphers, false)|) == Clamp(|Kept(y.ciphers, false)|)
                 && Clamp(|Kept(x.exts, false)|) == Clamp(|Kept(y.exts, false)|)
  {
    hide Kept, HasSni, Clamp, VersionCode, AlpnChars, Digits2;
    PartAFields(x);
    PartAFields(y);
    if PartA(x) == PartA(y) {
      Digits2Injective(Clamp(|Kept(x.ciphers, false)|), Clamp(|Kept(y.ciphers, false)|));
      Digits2Injective(Clamp(|Kept(x.exts, false)|), Clamp(|Kept(y.exts, false)|));
    }
  }

  lemma PartAFields(h: Hello)
    ensures var a := PartA(h);
            && a[0] == (if h.quic then 'q' else 't') && a[1..3] == VersionCode(h.version)
            && a[3] == (if HasSni(h.exts) then 'd' else 'i')
            && a[4..6] == Digits2(Clamp(|Kept(h.ciphers, false)|))
            && a[6..8] == Digits2(Clamp(|Kept(h.exts, false)|)) && a[8..10] == AlpnChars(h.alpn)
  {
    hide Kept, HasSni, Clamp, VersionCode, AlpnChars, Digits2;
  }

  // ---- order and GREASE ----

  lemma {:induction false} KeptCounts(s: seq<u16>, ext: bool, v: u16)
    ensures multiset(Kept(s, ext))[v] == if Counted(v, ext) then multiset(s)[v] else 0
  {
    hide Counted;
    if s != [] {
      KeptCounts(s[1..], ext, v);
      assert s == [s[0]] + s[1..];
    }
  }

  /** Without its GREASE and over the 256 limit, what a hello says, order aside. */
  ghost predicate SameOffer(x: Hello, y: Hello) {
    && x.quic == y.quic && x.version == y.version && x.alpn == y.alpn
    && multiset(Kept(x.ciphers, false)) == multiset(Kept(y.ciphers, false))
    && multiset(Kept(x.exts, false)) == multiset(Kept(y.exts, false))
    && Kept(x.sigalgs, false) == Kept(y.sigalgs, false)
  }

  predicate Short(h: Hello) {
    |Kept(h.ciphers, false)| <= MAX_ELEMS && |Kept(h.exts, false)| <= MAX_ELEMS
  }

  /** A client cannot change its fingerprint by shuffling ciphers or extensions or by scattering
      GREASE values, whatever the hash. */
  lemma OrderAndGreaseIgnored(x: Hello, y: Hello, hash: Hash)
    requires SameOffer(x, y) && Short(x) && Short(y)
    ensures Fingerprint(x, hash) == Fingerprint(y, hash)
  {
    hide Kept, PreimageB, PreimageC;
    SameExtensions(x.exts, y.exts);
    KeptSizes(x.ciphers, y.ciphers);
    KeptSizes(x.exts, y.exts);
    FewerKept(x.exts);
    FewerKept(y.exts);
    PreimageBIff(x, y);
    PreimageCIff(x, y);
    PartAIff(x, y);
  }

  lemma KeptSizes(s: seq<u16>, t: seq<u16>)
    requires multiset(Kept(s, false)) == multiset(Kept(t, false))
    ensures |Kept(s, false)| == |Kept(t, false)|
  {
    assert |multiset(Kept(s, false))| == |Kept(s, false)| && |multiset(Kept(t, false))| == |Kept(t, false)|;
  }

  lemma {:induction false} FewerKept(s: seq<u16>)
    ensures |Kept(s, true)| <= |Kept(s, false)|
  {
    if s != [] {
      FewerKept(s[1..]);
    }
  }

  lemma SameExtensions(s: seq<u16>, t: seq<u16>)
    requires multiset(Kept(s, false)) == multiset(Kept(t, false))
    ensures multiset(Kept(s, true)) == multiset(Kept(t, true)) && HasSni(s) == HasSni(t)
  {
    hide Kept;
    forall v: u16 ensures multiset(Kept(s, true))[v] == multiset(Kept(t, true))[v] {
      KeptCounts(s, true, v);
      KeptCounts(t, true, v);
      KeptCounts(s, false, v);
      KeptCounts(t, false, v);
    }
    KeptCounts(s, false, 0);
    KeptCounts(t, false, 0);
    assert HasSni(s) <==> multiset(s)[0] > 0;
    assert HasSni(t) <==> multiset(t)[0] > 0;
  }

  /** A fingerprint is 36 characters, and nothing a client sends can put anything but letters
      and digits between its two bars. */
  lemma FingerprintShape(h: Hello, hash: Hash)
    requires forall s :: hash(s).Some? ==> |hash(s).value| == 12 && Plain(hash(s).value)
    ensures Fingerprint(h, hash).Some? ==>
              var f := Fingerprint(h, hash).value;
              |f| == 36 && f[10] == '_' && f[23] == '_' && Plain(f[..10]) && Plain(f[11..23]) && Plain(f[24..])
  {
    hide PartA, PreimageB, PreimageC;
    PlainPartA(h);
    if Fingerprint(h, hash).Some? {
      var b, c := HashPart(hash, PreimageB(h)).value, HashPart(hash, PreimageC(h)).value;
      var f := PartA(h) + "_" + b + "_" + c;
      assert f[..10] == PartA(h) && f[11..23] == b && f[24..] == c;
    }
  }

  predicate Plain(s: string) {
    forall i :: 0 <= i < |s| ==> IsAlnum(s[i] as nat)
  }

  lemma PlainPartA(h: Hello)
    ensures Plain(PartA(h))
  {
    hide Kept, HasSni;
  }
}

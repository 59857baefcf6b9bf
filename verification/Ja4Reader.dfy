/** Reading a fingerprint and the texts it hashes: what each character of them denotes. */
module Ja4Reader {
  import opened Wrappers
  import opened Bytes
  import opened Ja4
  import RateRules

  // ---- the fields of the first part ----

  /** TLS 1.0 to 1.3 print as '1' and their minor version; the older and the datagram versions have codes of
      their own, everything else prints "00". */
  lemma VersionMeans(v: u16)
    ensures 0x0301 <= v <= 0x0304 ==> VersionCode(v) == ['1', '0' + (v - 0x0301) as char]
    ensures v == 0x0300 ==> VersionCode(v) == "s3"
    ensures v == 0xfeff ==> VersionCode(v) == "d1"
    ensures v == 0xfefd ==> VersionCode(v) == "d2"
    ensures v == 0xfefc ==> VersionCode(v) == "d3"
    ensures !(0x0300 <= v <= 0x0304 || v == 0xfefc || v == 0xfefd || v == 0xfeff) ==> VersionCode(v) == "00"
  {
  }

  /** A code other than "00" tells the version. */
  lemma VersionReadsBack(v: u16, w: u16)
    ensures VersionCode(v) == VersionCode(w) <==> v == w || (VersionCode(v) == "00" && VersionCode(w) == "00")
  {
    assert VersionCode(v)[0] == VersionCode(w)[0] && VersionCode(v)[1] == VersionCode(w)[1] ==> VersionCode(v) == VersionCode(w);
  }

  /** A count field denotes the count, 99 for every larger one. */
  lemma CountMeans(n: nat)
    ensures var s := Digits2(Clamp(n));
            RateRules.AllDigits(s) && RateRules.Decimal(s) == if n < 100 then n else 99
  {
    var m := Clamp(n);
    var s := Digits2(m);
    assert s[..1] == [s[0]] && s[..1][..0] == [];
    assert RateRules.Decimal(s[..1]) == m / 10;
  }

  predicate Alphanumeric(c: char) {
    '0' <= c <= '9' || 'A' <= c <= 'Z' || 'a' <= c <= 'z'
  }

  function HexValue(c: char): nat {
    if '0' <= c <= '9' then (c - '0') as nat else if 'a' <= c <= 'f' then (c - 'a') as nat + 10 else 0
  }

  predicate LowerHex(c: char) {
    '0' <= c <= '9' || 'a' <= c <= 'f'
  }

  lemma HexDigitMeans(v: nat)
    ensures LowerHex(HexDigit(v)) && HexValue(HexDigit(v)) == v % 16
  {
  }

  /** The protocol field is fixed by the first and the last byte: themselves if both are letters or digits,
      else the high nibble of the one and the low nibble of the other in hex. */
  lemma AlpnMeans(alpn: seq<byte>)
    ensures alpn == [] ==> AlpnChars(alpn) == "00"
    ensures alpn != [] ==>
              var s, first, last := AlpnChars(alpn), alpn[0] as char, alpn[|alpn| - 1] as char;
              if Alphanumeric(first) && Alphanumeric(last) then s == [first, last]
              else LowerHex(s[0]) && LowerHex(s[1]) && HexValue(s[0]) == alpn[0] / 16 && HexValue(s[1]) == alpn[|alpn| - 1] % 16
  {
    if alpn != [] {
      assert IsAlnum(alpn[0]) <==> Alphanumeric(alpn[0] as char);
      assert IsAlnum(alpn[|alpn| - 1]) <==> Alphanumeric(alpn[|alpn| - 1] as char);
      HexDigitMeans(alpn[0] / 16);
      HexDigitMeans(alpn[|alpn| - 1]);
    }
  }

  // ---- the lists ----

  /** What the mask test accepts, digit by digit in hex: ?a?a. */
  lemma GreaseMeans(v: u16)
    ensures IsGrease(v) <==> exists i: nat, j: nat :: i < 16 && j < 16 && v == 4096 * i + 0x0a00 + 16 * j + 0x000a
  {
    if IsGrease(v) {
      Nibbles(v);
      assert v == 4096 * (v / 4096) + 0x0a00 + 16 * (v / 16 % 16) + 0x000a;
    }
    if i: nat, j: nat :| i < 16 && j < 16 && v == 4096 * i + 0x0a00 + 16 * j + 0x000a {
      GreaseAt(i, j);
    }
  }

  lemma GreaseAt(i: nat, j: nat)
    requires i < 16 && j < 16
    ensures IsGrease(4096 * i + 0x0a00 + 16 * j + 0x000a)
  {
    var v := 4096 * i + 0x0a00 + 16 * j + 0x000a;
    assert v == 16 * (256 * i + 0xa0 + j) + 10;
    assert v == 256 * (16 * i + 10) + (16 * j + 10);
    assert v / 256 == 16 * i + 10;
  }

  /** The filters keep exactly the values that are not ?a?a, in order; the extension list loses the server
      name (0) and the protocol list (16) too. */
  lemma KeptMeans(src: seq<u16>, ext: bool, i: nat)
    requires i < |src|
    ensures Kept([], ext) == [] && src[..|src|] == src
    ensures Kept(src[..i + 1], ext)
            == Kept(src[..i], ext) + if (src[i] % 16 == 10 && src[i] / 256 % 16 == 10) || (ext && (src[i] == 0 || src[i] == 16)) then [] else [src[i]]
  {
    KeptNext(src, i, ext);
  }

  /** The hashed lists are what is kept, up to the first 256 values. */
  lemma ListsMean(h: Hello)
    ensures CipherList(h) <= Kept(h.ciphers, false) && ExtList(h) <= Kept(h.exts, true) && SigList(h) <= Kept(h.sigalgs, false)
    ensures CipherList(h) == Kept(h.ciphers, false) || |CipherList(h)| == 256 < |Kept(h.ciphers, false)|
    ensures ExtList(h) == Kept(h.exts, true) || |ExtList(h)| == 256 < |Kept(h.exts, true)|
    ensures SigList(h) == Kept(h.sigalgs, false) || |SigList(h)| == 256 < |Kept(h.sigalgs, false)|
  {
    hide Kept;
  }

  // ---- reading a text back ----

  /** The number a string of hex digits denotes. */
  function Hexadecimal(s: string): nat {
    if s == "" then 0 else 16 * Hexadecimal(s[..|s| - 1]) + HexValue(s[|s| - 1])
  }

  lemma Hex4Means(v: u16)
    ensures Hexadecimal(Hex4(v)) == v && forall i :: 0 <= i < 4 ==> LowerHex(Hex4(v)[i])
  {
    hide HexDigit, HexValue, LowerHex;
    var s := Hex4(v);
    HexDigitMeans(v / 4096);
    HexDigitMeans(v / 256);
    HexDigitMeans(v / 16);
    HexDigitMeans(v);
    Nibbles(v);
    assert s[..3][..2] == s[..2] && s[..2][..1] == s[..1] && s[..1][..0] == "";
    assert Hexadecimal(s[..1]) == v / 4096 % 16;
    assert Hexadecimal(s[..2]) == 16 * Hexadecimal(s[..1]) + v / 256 % 16;
    assert Hexadecimal(s[..3]) == 16 * Hexadecimal(s[..2]) + v / 16 % 16;
  }

  /** Where the text after the last comma starts. */
  function LastField(s: string): (k: nat)
    ensures k <= |s| && ',' !in s[k..] && (k > 0 ==> s[k - 1] == ',')
  {
    if s == "" then 0 else if s[|s| - 1] == ',' then |s| else LastField(s[..|s| - 1])
  }

  lemma LastFieldIs(s: string, k: nat)
    requires k <= |s| && ',' !in s[k..] && (k > 0 ==> s[k - 1] == ',')
    ensures LastField(s) == k
  {
    forall i | k <= i < |s| ensures s[i] != ',' {
      assert s[i] == s[k..][i - k];
    }
    var n := LastField(s);
    forall i | n <= i < |s| ensures s[i] != ',' {
      assert s[i] == s[n..][i - n];
    }
  }

  /** Reading comma-separated hex numbers. */
  function ReadList(s: string): seq<nat>
    decreases |s|
  {
    if s == "" then []
    else
      var k := LastField(s);
      (if k == 0 then [] else ReadList(s[..k - 1])) + [Hexadecimal(s[k..])]
  }

  /** A printed list reads back. */
  lemma {:induction false} ListReadsBack(vals: seq<u16>)
    ensures ReadList(Csv(vals)) == vals
  {
    hide Csv, Item, Hexadecimal, LastField;
    NoCsv(vals);
    if vals == [] {
      assert vals[..0] == vals;
    } else {
      var n := |vals| - 1;
      assert vals[..n + 1] == vals;
      CsvNext(vals, n);
      ListReadsBack(vals[..n]);
      LastItem(Csv(vals[..n]), n > 0, vals[n]);
      assert n == 0 ==> vals[..n] == [];
      assert vals == vals[..n] + [vals[n]];
    }
  }

  /** The last field of a printed list. */
  lemma LastItem(before: string, later: bool, v: u16)
    requires later || before == ""
    ensures var s := before + Item(later, v);
            var k := LastField(s);
            && s != "" && Hexadecimal(s[k..]) == v
            && if later then k > 0 && s[..k - 1] == before else k == 0
  {
    hide Hex4, Hexadecimal, LowerHex, LastField;
    var s, k := before + Item(later, v), if later then |before| + 1 else 0;
    Hex4Means(v);
    NoComma(Hex4(v));
    assert s[k..] == Hex4(v);
    LastFieldIs(s, k);
  }

  lemma NoComma(s: string)
    requires |s| == 4 && forall i :: 0 <= i < 4 ==> LowerHex(s[i])
    ensures ',' !in s
  {
  }

  /** The text before and after the bar. */
  function Halves(s: string): (r: (string, string)) {
    if exists k :: 0 <= k < |s| && s[k] == '_' then
      var k := BarAt(s, 0); (s[..k], s[k + 1..])
    else (s, "")
  }

  function BarAt(s: string, i: nat): (k: nat)
    requires i <= |s| && exists j :: i <= j < |s| && s[j] == '_'
    ensures i <= k < |s| && s[k] == '_' && forall j :: i <= j < k ==> s[j] != '_'
    decreases |s| - i
  {
    if s[i] == '_' then i else BarAt(s, i + 1)
  }

  /** The second part hashes the ciphers in ascending order, or nothing if there are none. */
  lemma CiphersReadBack(h: Hello)
    ensures PreimageB(h) == None <==> CipherList(h) == []
    ensures PreimageB(h).Some? ==> exists s: seq<u16> ::
              ReadList(PreimageB(h).value) == s && Ascending(s) && multiset(s) == multiset(CipherList(h))
  {
    hide CipherList, Csv, Sort, ReadList;
    SortAscends(CipherList(h));
    ListReadsBack(Sort(CipherList(h)));
  }

  /** The third part hashes the extensions in ascending order, a bar if there are signature algorithms, and
      these as sent, or nothing if there are neither. */
  lemma ExtensionsReadBack(h: Hello)
    ensures PreimageC(h) == None <==> ExtList(h) == [] && SigList(h) == []
    ensures PreimageC(h).Some? ==> exists s: seq<u16> ::
              && ReadList(Halves(PreimageC(h).value).0) == s && Ascending(s) && multiset(s) == multiset(ExtList(h))
              && ReadList(Halves(PreimageC(h).value).1) == SigList(h)
              && ('_' in PreimageC(h).value <==> SigList(h) != [])
  {
    hide ExtList, SigList, Csv, Sort, ReadList;
    if PreimageC(h).Some? {
      var s := Sort(ExtList(h));
      SortAscends(ExtList(h));
      ListReadsBack(s);
      HalvesAre(s, SigList(h));
    }
  }

  lemma HalvesAre(e: seq<u16>, s: seq<u16>)
    ensures var x := Csv(e) + SigText(s);
            Halves(x) == (Csv(e), Csv(s)) && ReadList(Halves(x).1) == s && ('_' in x <==> s != [])
  {
    hide Csv, ReadList, SigText, Halves;
    var x, n := Csv(e) + SigText(s), |Csv(e)|;
    NoBar(e, s);
    ListReadsBack(s);
    assert x[..n] == Csv(e);
    if s != [] {
      assert x[n] == '_';
      BarIs(x, n);
      SigTextIs(s);
      assert x[n + 1..] == SigText(s)[1..];
    } else {
      SigTextIs(s);
      assert x == Csv(e);
      NoBarHalves(x);
    }
  }

  lemma SigTextIs(s: seq<u16>)
    ensures if s == [] then SigText(s) == "" == Csv(s) else |SigText(s)| > 0 && SigText(s)[1..] == Csv(s)
  {
    hide Csv;
    NoCsv(s);
    assert s[..0] == [];
  }

  lemma BarIs(x: string, n: nat)
    requires n < |x| && x[n] == '_' && forall i :: 0 <= i < n ==> x[i] != '_'
    ensures Halves(x) == (x[..n], x[n + 1..])
  {
    assert BarAt(x, 0) == n;
  }

  lemma NoBarHalves(x: string)
    requires forall i :: 0 <= i < |x| ==> x[i] != '_'
    ensures Halves(x) == (x, "")
  {
  }

  // ---- the whole fingerprint ----

  /** Every character of a fingerprint, and when there is none: only when the hash of a text fails. */
  lemma FingerprintMeans(h: Hello, hash: Hash)
    requires forall s :: hash(s).Some? ==> |hash(s).value| == 12
    ensures Fingerprint(h, hash) == None
            <==> (PreimageB(h).Some? && hash(PreimageB(h).value) == None) || (PreimageC(h).Some? && hash(PreimageC(h).value) == None)
    ensures Fingerprint(h, hash).Some? ==>
              var f := Fingerprint(h, hash).value;
              && |f| == 36 && f[0] == (if h.quic then 'q' else 't') && f[1..3] == VersionCode(h.version)
              && f[3] == (if 0 in h.exts then 'd' else 'i')
              && f[4..6] == Digits2(Clamp(|Kept(h.ciphers, false)|)) && f[6..8] == Digits2(Clamp(|Kept(h.exts, false)|))
              && f[8..10] == AlpnChars(h.alpn) && f[10] == f[23] == '_'
              && (if PreimageB(h) == None then f[11..23] == "000000000000" else hash(PreimageB(h).value) == Some(f[11..23]))
              && (if PreimageC(h) == None then f[24..] == "000000000000" else hash(PreimageC(h).value) == Some(f[24..]))
  {
    hide Kept, Clamp, VersionCode, AlpnChars, Digits2, PreimageB, PreimageC, PartA;
    PartAFields(h);
    if Fingerprint(h, hash).Some? {
      var a, b, c := PartA(h), HashPart(hash, PreimageB(h)).value, HashPart(hash, PreimageC(h)).value;
      var f := a + "_" + b + "_" + c;
      assert f[11..23] == b && f[24..] == c && f[..10] == a;
      assert f[..10][1..3] == f[1..3] && f[..10][4..6] == f[4..6] && f[..10][6..8] == f[6..8] && f[..10][8..10] == f[8..10];
      SniMeans(h);
    }
  }

  lemma SniMeans(h: Hello)
    ensures HasSni(h.exts) <==> 0 in h.exts
  {
  }
}

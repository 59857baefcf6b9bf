/** The sorted fingerprint table: its loader and comparator (heavybag_match.c) and its binary
    search (heavybag_ua_parse.c). */
module Ja4Index {
  import opened Wrappers
  import opened Lists

  datatype Family = Unknown | Chromium | Firefox | Safari | Tool | Bot

  datatype Row = Row(key: string, family: Family)

  // ---- the order ----

  /** Dictionary order; a proper prefix comes first. */
  function Compare(a: string, b: string): (c: int)
    ensures c == -1 || c == 0 || c == 1
  {
    if a == "" || b == "" then (if a == b then 0 else if a == "" then -1 else 1)
    else if a[0] == b[0] then Compare(a[1..], b[1..])
    else if a[0] < b[0] then -1 else 1
  }

  lemma {:induction false} CompareEqual(a: string, b: string)
    ensures Compare(a, b) == 0 <==> a == b
  {
    if a != "" && b != "" {
      CompareEqual(a[1..], b[1..]);
      assert a == [a[0]] + a[1..] && b == [b[0]] + b[1..];
    }
  }

  lemma {:induction false} CompareReversed(a: string, b: string)
    ensures Compare(b, a) == -Compare(a, b)
  {
    if a != "" && b != "" {
      CompareReversed(a[1..], b[1..]);
    }
  }

  lemma {:induction false} CompareTransitive(a: string, b: string, c: string)
    requires Compare(a, b) <= 0 && Compare(b, c) <= 0
    ensures Compare(a, c) <= 0
    ensures Compare(a, c) == 0 ==> Compare(a, b) == 0 && Compare(b, c) == 0
  {
    if a != "" && b != "" && c != "" && a[0] == b[0] == c[0] {
      CompareTransitive(a[1..], b[1..], c[1..]);
    }
  }

  /** memcmp over m bytes: the difference at the first byte that differs. */
  function Memcmp(a: string, b: string, m: nat): int
    requires m <= |a| && m <= |b|
  {
    if m == 0 then 0
    else if a[0] != b[0] then a[0] as int - b[0] as int
    else Memcmp(a[1..], b[1..], m - 1)
  }

  function Shorter(a: string, b: string): (m: nat)
    ensures m <= |a| && m <= |b|
  {
    if |a| < |b| then |a| else |b|
  }

  /** ja4_entry_cmp, the loader's comparator. */
  function EntryCmp(a: string, b: string): int {
    var c := Memcmp(a, b, Shorter(a, b));
    if c != 0 then (if c < 0 then -1 else 1)
    else if |a| < |b| then -1
    else if |a| > |b| then 1
    else 0
  }

  /** The comparison written out in the lookup. */
  function LookupCmp(entry: string, key: string): int {
    var c := Memcmp(entry, key, Shorter(entry, key));
    if c != 0 then c
    else if |entry| < |key| then -1
    else if |entry| > |key| then 1
    else 0
  }

  /** Loader and lookup compare alike, and both by dictionary order. */
  lemma {:induction false} SameOrder(a: string, b: string)
    ensures EntryCmp(a, b) == Compare(a, b)
    ensures LookupCmp(a, b) < 0 <==> Compare(a, b) < 0
    ensures LookupCmp(a, b) == 0 <==> Compare(a, b) == 0
  {
    if a != "" && b != "" && a[0] == b[0] {
      SameOrder(a[1..], b[1..]);
      assert Memcmp(a, b, Shorter(a, b)) == Memcmp(a[1..], b[1..], Shorter(a[1..], b[1..]));
    }
  }

  // ---- the table ----

  predicate Sorted(rows: seq<Row>) {
    forall i, j :: 0 <= i < j < |rows| ==> Compare(rows[i].key, rows[j].key) <= 0
  }

  /** What qsort with the loader's comparator may return: some sorted rearrangement. */
  predicate SortOf(table: seq<Row>, rows: seq<Row>) {
    Sorted(table) && multiset(table) == multiset(rows)
  }

  function Insert(r: Row, rows: seq<Row>): seq<Row> {
    if rows == [] || EntryCmp(r.key, rows[0].key) <= 0 then [r] + rows
    else [rows[0]] + Insert(r, rows[1..])
  }

  function Sort(rows: seq<Row>): seq<Row> {
    if rows == [] then [] else Insert(rows[0], Sort(rows[1..]))
  }

  lemma {:induction false} InsertKeeps(r: Row, rows: seq<Row>)
    ensures multiset(Insert(r, rows)) == multiset(rows) + multiset{r}
  {
    if rows != [] && EntryCmp(r.key, rows[0].key) > 0 {
      InsertKeeps(r, rows[1..]);
      assert rows == [rows[0]] + rows[1..];
    }
  }

  lemma SortedCons(r: Row, rows: seq<Row>)
    requires Sorted(rows) && (rows != [] ==> Compare(r.key, rows[0].key) <= 0)
    ensures Sorted([r] + rows)
  {
    hide Compare;
    forall j | 0 <= j < |rows| ensures Compare(r.key, rows[j].key) <= 0 {
      if j > 0 {
        CompareTransitive(r.key, rows[0].key, rows[j].key);
      }
    }
  }

  lemma {:induction false} InsertSorts(r: Row, rows: seq<Row>)
    requires Sorted(rows)
    ensures Sorted(Insert(r, rows)) && Insert(r, rows) != []
    ensures Insert(r, rows)[0] == r || (rows != [] && Insert(r, rows)[0] == rows[0])
  {
    hide Compare, EntryCmp;
    if rows == [] || EntryCmp(r.key, rows[0].key) <= 0 {
      if rows != [] {
        SameOrder(r.key, rows[0].key);
      }
      SortedCons(r, rows);
    } else {
      SameOrder(r.key, rows[0].key);
      CompareReversed(r.key, rows[0].key);
      InsertSorts(r, rows[1..]);
      SortedCons(rows[0], Insert(r, rows[1..]));
    }
  }

  lemma {:induction false} SortSorts(rows: seq<Row>)
    ensures SortOf(Sort(rows), rows)
  {
    if rows != [] {
      SortSorts(rows[1..]);
      InsertKeeps(rows[0], Sort(rows[1..]));
      InsertSorts(rows[0], Sort(rows[1..]));
      assert rows == [rows[0]] + rows[1..];
    }
  }

  // ---- the loader ----

  function Lower(c: char): char {
    if 'A' <= c <= 'Z' then c - 'A' + 'a' else c
  }

  /** ngx_strncasecmp over the whole of two strings of one length. */
  predicate SameFolded(s: string, name: string) {
    |s| == |name| && forall i :: 0 <= i < |s| ==> Lower(s[i]) == Lower(name[i])
  }

  function Name(f: Family): string
    requires f != Unknown
  {
    match f
    case Chromium => "chromium"
    case Firefox => "firefox"
    case Safari => "safari"
    case Tool => "tool"
    case Bot => "bot"
  }

  function FamilyParse(s: string): Family {
    if SameFolded(s, "chromium") then Chromium
    else if SameFolded(s, "firefox") then Firefox
    else if SameFolded(s, "safari") then Safari
    else if SameFolded(s, "tool") then Tool
    else if SameFolded(s, "bot") then Bot
    else Unknown
  }

  /** The order of the tests does not matter: a token is a family exactly when it spells that
      family's name in any case. */
  lemma FamilyParseMeans(s: string, f: Family)
    requires f != Unknown
    ensures FamilyParse(s) == f <==> SameFolded(s, Name(f))
  {
    assert "firefox"[0] == 'f' && "chromium"[0] == 'c' && "safari"[0] == 's';
    assert "tool"[0] == 't' && "bot"[0] == 'b';
  }

  /** A significant line: key, then family text; a line without the latter is skipped. */
  function RowOf(l: string): Option<Row> {
    var key := Until(l, BLANKS);
    var text := Skip(l[|key|..], BLANKS);
    if |key| == 0 || |text| == 0 then None else Some(Row(key, FamilyParse(text)))
  }

  function Rows(ls: seq<string>): seq<Row> {
    if ls == [] then []
    else (if RowOf(ls[0]).Some? then [RowOf(ls[0]).value] else []) + Rows(ls[1..])
  }

  lemma RowAt(t: string, ls: nat, le: nat, ke: nat, fs: nat)
    requires ls <= ke <= fs <= le <= |t|
    requires forall i :: ls <= i < ke ==> t[i] !in BLANKS
    requires ke < le ==> t[ke] in BLANKS
    requires forall i :: ke <= i < fs ==> t[i] in BLANKS
    requires fs < le ==> t[fs] !in BLANKS
    ensures RowOf(t[ls..le]) == if ke == ls || fs == le then None else Some(Row(t[ls..ke], FamilyParse(t[fs..le])))
  {
    hide Until, Skip, BLANKS, FamilyParse;
    KeyAt(t, ls, le, ke);
    TextAt(t, ke, le, fs);
  }

  lemma KeyAt(t: string, ls: nat, le: nat, ke: nat)
    requires ls <= ke <= le <= |t|
    requires forall i :: ls <= i < ke ==> t[i] !in BLANKS
    requires ke < le ==> t[ke] in BLANKS
    ensures Until(t[ls..le], BLANKS) == t[ls..ke] && t[ls..le][ke - ls..] == t[ke..le]
  {
    hide Until, BLANKS;
    var l := t[ls..le];
    assert forall i :: 0 <= i < |l| ==> l[i] == t[ls + i];
    UntilIs(l, BLANKS, ke - ls);
    assert l[..ke - ls] == t[ls..ke];
  }

  lemma TextAt(t: string, ke: nat, le: nat, fs: nat)
    requires ke <= fs <= le <= |t|
    requires forall i :: ke <= i < fs ==> t[i] in BLANKS
    requires fs < le ==> t[fs] !in BLANKS
    ensures Skip(t[ke..le], BLANKS) == t[fs..le]
  {
    hide Skip, BLANKS;
    var rest := t[ke..le];
    assert forall i :: 0 <= i < |rest| ==> rest[i] == t[ke + i];
    SkipIs(rest, BLANKS, fs - ke);
    assert rest[fs - ke..] == t[fs..le];
  }

  /** The bounds of key and family text within the line t[ls..le]. */
  method SplitRow(t: string, ls: nat, le: nat) returns (ke: nat, fs: nat)
    requires ls <= le <= |t|
    ensures ls <= ke <= fs <= le
    ensures RowOf(t[ls..le]) == if ke == ls || fs == le then None else Some(Row(t[ls..ke], FamilyParse(t[fs..le])))
  {
    hide RowOf, FamilyParse;
    ke := ls;
    while ke < le && t[ke] != ' ' && t[ke] != '\t'
      invariant ls <= ke <= le
      invariant forall i :: ls <= i < ke ==> t[i] !in BLANKS
    {
      ke := ke + 1;
    }
    fs := ke;
    while fs < le && (t[fs] == ' ' || t[fs] == '\t')
      invariant ke <= fs <= le
      invariant forall i :: ke <= i < fs ==> t[i] in BLANKS
    {
      fs := fs + 1;
    }
    RowAt(t, ls, le, ke, fs);
  }

  lemma RowsStep(ls: seq<string>, l: string, rest: seq<string>)
    requires ls == [l] + rest
    ensures Rows(ls) == (if RowOf(l).Some? then [RowOf(l).value] else []) + Rows(rest)
  {
    hide RowOf;
    assert ls[1..] == rest;
  }

  /** ja4_list_compile: the rows of the file, sorted. */
  method LoadTable(t: string) returns (table: seq<Row>)
    ensures SortOf(table, Rows(Lines(t)))
  {
    hide Lines, Rows, RowOf, FamilyParse, SortOf;
    table := [];
    var p: nat := 0;
    assert t[0..] == t;
    while true
      invariant p <= |t| && Rows(Lines(t)) == table + Rows(Lines(t[p..]))
      decreases |t| - p
    {
      var next, line := NextLine(t, p);
      if line.None? {
        break;
      }
      var (ls, le) := line.value;
      RowsStep(Lines(t[p..]), t[ls..le], Lines(t[next..]));
      p := next;
      var ke, fs := SplitRow(t, ls, le);
      if ke == ls || fs == le {
        continue;
      }
      table := table + [Row(t[ls..ke], FamilyParse(t[fs..le]))];
    }
    NoRows();
    assert Rows(Lines(t)) == table;
    SortSorts(table);
    table := Sort(table);
  }

  lemma NoRows()
    ensures Rows([]) == []
  {
  }

  // ---- the lookup ----

  ghost predicate Listed(rows: seq<Row>, key: string) {
    exists row :: row in rows && row.key == key
  }

  /** A family some row gives the key, Unknown when none does. */
  ghost predicate Answers(table: seq<Row>, key: string, r: Family) {
    if key != "" && Listed(table, key) then Row(key, r) in table else r == Unknown
  }

  /** The index at which the binary search over [lo, hi] stops on the key. */
  function Hit(table: seq<Row>, key: string, lo: int, hi: int): (i: Option<nat>)
    requires 0 <= lo && hi < |table|
    ensures i.Some? ==> lo <= i.value <= hi
    decreases hi - lo + 1
  {
    if lo > hi then None
    else
      var mid := lo + (hi - lo) / 2;
      var cmp := LookupCmp(table[mid].key, key);
      if cmp == 0 then Some(mid) else if cmp < 0 then Hit(table, key, mid + 1, hi) else Hit(table, key, lo, mid - 1)
  }

  /** What the search answers, on any table. */
  function Search(table: seq<Row>, key: string): Family {
    if key == "" then Unknown
    else
      match Hit(table, key, 0, |table| - 1)
      case None => Unknown
      case Some(i) => table[i].family
  }

  /** heavybag_ja4_family_lookup: its answer, and what that means on a sorted table. */
  method Lookup(table: seq<Row>, key: string) returns (r: Family)
    ensures r == Search(table, key)
    ensures Sorted(table) ==> Answers(table, key, r)
  {
    hide LookupCmp, Answers, Sorted, Search, Hit;
    SearchIs(table, key);
    if |table| == 0 || |key| == 0 {
      return Unknown;
    }
    var lo, hi := 0, |table| - 1;
    while lo <= hi
      invariant 0 <= lo && hi < |table|
      invariant Hit(table, key, lo, hi) == Hit(table, key, 0, |table| - 1)
      decreases hi - lo + 1
    {
      var mid := lo + (hi - lo) / 2;
      var cmp := LookupCmp(table[mid].key, key);
      HitStep(table, key, lo, hi);
      if cmp == 0 {
        return table[mid].family;
      }
      if cmp < 0 {
        lo := mid + 1;
      } else {
        hi := mid - 1;
      }
    }
    HitNowhere(table, key, lo, hi);
    return Unknown;
  }

  lemma HitStep(table: seq<Row>, key: string, lo: int, hi: int)
    requires 0 <= lo <= hi < |table|
    ensures var mid := lo + (hi - lo) / 2; var cmp := LookupCmp(table[mid].key, key);
            Hit(table, key, lo, hi)
            == if cmp == 0 then Some(mid) else if cmp < 0 then Hit(table, key, mid + 1, hi) else Hit(table, key, lo, mid - 1)
  {
    hide LookupCmp;
  }

  lemma HitNowhere(table: seq<Row>, key: string, lo: int, hi: int)
    requires 0 <= lo && hi < lo && hi < |table|
    ensures Hit(table, key, lo, hi) == None
  {
  }

  lemma SearchIs(table: seq<Row>, key: string)
    ensures var h := Hit(table, key, 0, |table| - 1);
            Search(table, key) == if |key| == 0 || h.None? then Unknown else table[h.value].family
    ensures Sorted(table) ==> Answers(table, key, Search(table, key))
  {
    hide Sorted, Answers;
    if Sorted(table) {
      SearchAnswers(table, key);
    }
  }

  /** On a sorted table the search stops on the key if any row has it. */
  lemma {:induction false} HitFinds(table: seq<Row>, key: string, lo: int, hi: int)
    requires Sorted(table) && 0 <= lo <= hi + 1 && hi < |table|
    requires forall i :: 0 <= i < lo ==> Compare(table[i].key, key) < 0
    requires forall i :: hi < i < |table| ==> Compare(table[i].key, key) > 0
    ensures var h := Hit(table, key, lo, hi);
            if h.Some? then table[h.value].key == key else forall i :: 0 <= i < |table| ==> table[i].key != key
    decreases hi - lo + 1
  {
    hide Compare, LookupCmp, Sorted;
    if lo > hi {
      NoneLeft(table, key, lo);
    } else {
      var mid := lo + (hi - lo) / 2;
      SameOrder(table[mid].key, key);
      CompareEqual(table[mid].key, key);
      if LookupCmp(table[mid].key, key) < 0 {
        SmallerBelow(table, mid, key);
        HitFinds(table, key, mid + 1, hi);
      } else if LookupCmp(table[mid].key, key) > 0 {
        GreaterAbove(table, mid, key);
        HitFinds(table, key, lo, mid - 1);
      }
    }
  }

  lemma NoneLeft(table: seq<Row>, key: string, lo: int)
    requires forall i :: 0 <= i < lo && i < |table| ==> Compare(table[i].key, key) < 0
    requires forall i :: 0 <= lo <= i < |table| ==> Compare(table[i].key, key) > 0
    requires lo >= 0
    ensures forall i :: 0 <= i < |table| ==> table[i].key != key
  {
    hide Compare;
    forall i | 0 <= i < |table| ensures table[i].key != key {
      CompareEqual(table[i].key, key);
    }
  }

  lemma SearchAnswers(table: seq<Row>, key: string)
    requires Sorted(table)
    ensures Answers(table, key, Search(table, key))
  {
    hide Sorted, Hit;
    HitFinds(table, key, 0, |table| - 1);
    var h := Hit(table, key, 0, |table| - 1);
    if h.Some? {
      assert table[h.value] == Row(table[h.value].key, table[h.value].family);
    }
  }

  /** Where the search stops depends on the keys alone. */
  lemma {:induction false} HitByKeys(s: seq<Row>, t: seq<Row>, key: string, lo: int, hi: int)
    requires |s| == |t| && (forall i :: 0 <= i < |s| ==> s[i].key == t[i].key) && 0 <= lo && hi < |s|
    ensures Hit(s, key, lo, hi) == Hit(t, key, lo, hi)
    decreases hi - lo + 1
  {
    hide LookupCmp;
    if lo <= hi {
      var mid := lo + (hi - lo) / 2;
      HitByKeys(s, t, key, mid + 1, hi);
      HitByKeys(s, t, key, lo, mid - 1);
    }
  }

  lemma SmallerBelow(table: seq<Row>, mid: nat, key: string)
    requires Sorted(table) && mid < |table| && Compare(table[mid].key, key) < 0
    ensures forall i :: 0 <= i <= mid ==> Compare(table[i].key, key) < 0
  {
    forall i | 0 <= i < mid ensures Compare(table[i].key, key) < 0 {
      CompareTransitive(table[i].key, table[mid].key, key);
    }
  }

  lemma GreaterAbove(table: seq<Row>, mid: nat, key: string)
    requires Sorted(table) && mid < |table| && Compare(table[mid].key, key) > 0
    ensures forall i :: mid <= i < |table| ==> Compare(table[i].key, key) > 0
  {
    CompareReversed(table[mid].key, key);
    forall i | mid < i < |table| ensures Compare(table[i].key, key) > 0 {
      CompareTransitive(key, table[mid].key, table[i].key);
      CompareReversed(key, table[i].key);
    }
  }

  /** The reference: the first row of the unsorted list that has the key. */
  function Scan(rows: seq<Row>, key: string): Family {
    if rows == [] || key == "" then Unknown
    else if rows[0].key == key then rows[0].family
    else Scan(rows[1..], key)
  }

  /** No two rows give the key different families. */
  ghost predicate OneFamily(rows: seq<Row>, key: string) {
    forall f, g :: Row(key, f) in rows && Row(key, g) in rows ==> f == g
  }

  lemma {:induction false} ScanAnswers(rows: seq<Row>, key: string)
    ensures Answers(rows, key, Scan(rows, key))
  {
    if rows != [] && key != "" {
      assert rows == [rows[0]] + rows[1..];
      if rows[0].key == key {
        assert rows[0] == Row(key, rows[0].family);
      } else {
        ScanAnswers(rows[1..], key);
      }
    }
  }

  lemma Swapped(s: seq<Row>, i: nat, j: nat)
    requires i < |s| && j < |s| && s[i].key == s[j].key
    ensures var t := s[i := s[j]][j := s[i]];
            multiset(t) == multiset(s) && forall k :: 0 <= k < |s| ==> t[k].key == s[k].key
  {
  }

  /** The same rows in another order of equal keys: sorted as well. */
  lemma SortedByKeys(s: seq<Row>, t: seq<Row>)
    requires Sorted(s) && |s| == |t| && forall k :: 0 <= k < |s| ==> t[k].key == s[k].key
    ensures Sorted(t)
  {
    hide Compare;
  }

  /** Exchanging the row the search hits with another of its key makes that one the answer. */
  lemma ExchangedAnswers(sorted: seq<Row>, key: string, i: nat, j: nat)
    requires Sorted(sorted) && key != "" && i < |sorted| && j < |sorted|
    requires Hit(sorted, key, 0, |sorted| - 1) == Some(i) && sorted[i].key == sorted[j].key == key
    ensures var t := sorted[i := sorted[j]][j := sorted[i]];
            Sorted(t) && multiset(t) == multiset(sorted) && Search(t, key) == sorted[j].family
  {
    hide Sorted, Hit;
    var t := sorted[i := sorted[j]][j := sorted[i]];
    Swapped(sorted, i, j);
    SortedByKeys(sorted, t);
    HitByKeys(sorted, t, key, 0, |t| - 1);
  }

  /** Some sorted rearrangement of the rows makes the search give each family listed for a key. */
  lemma SearchCanAnswer(rows: seq<Row>, key: string, f: Family) returns (table: seq<Row>)
    requires key != "" && Row(key, f) in rows
    ensures SortOf(table, rows) && Search(table, key) == f
  {
    hide Sorted, Hit, Sort, Search;
    var sorted := Sort(rows);
    SortSorts(rows);
    SameRows(sorted, rows);
    HitFinds(sorted, key, 0, |sorted| - 1);
    var j: nat :| j < |sorted| && sorted[j] == Row(key, f);
    assert sorted[j].key == key;
    var i := Hit(sorted, key, 0, |sorted| - 1).value;
    ExchangedAnswers(sorted, key, i, j);
    table := sorted[i := sorted[j]][j := sorted[i]];
  }

  /** Over all the orders qsort may leave equal keys in, the search gives exactly the families the
      file lists for the key, and Unknown exactly when it lists none. */
  lemma PossibleAnswersIff(rows: seq<Row>, key: string, f: Family)
    ensures (exists table :: SortOf(table, rows) && Search(table, key) == f) <==> Answers(rows, key, f)
  {
    hide Sorted, Search;
    SortSorts(rows);
    SearchAnswers(Sort(rows), key);
    forall table | SortOf(table, rows) ensures Answers(rows, key, Search(table, key)) {
      SearchAnswers(table, key);
      SameRows(table, rows);
    }
    if key != "" && Row(key, f) in rows {
      var table := SearchCanAnswer(rows, key, f);
    }
  }

  /** However equal keys were sorted the search answers what a linear scan of the file answers,
      exactly when the file does not give the key two families. */
  lemma SearchIsScanIff(rows: seq<Row>, key: string)
    requires key != ""
    ensures (forall table :: SortOf(table, rows) ==> Search(table, key) == Scan(rows, key)) <==> OneFamily(rows, key)
  {
    hide Scan, Search, SortOf;
    ScanAnswers(rows, key);
    forall f {
      PossibleAnswersIff(rows, key, f);
    }
    if OneFamily(rows, key) {
      forall table | SortOf(table, rows) ensures Search(table, key) == Scan(rows, key) {
        assert Answers(rows, key, Search(table, key));
      }
    } else {
      var f, g :| Row(key, f) in rows && Row(key, g) in rows && f != g;
      assert Answers(rows, key, f) && Answers(rows, key, g);
    }
  }

  lemma SameRows(table: seq<Row>, rows: seq<Row>)
    requires multiset(table) == multiset(rows)
    ensures forall row :: row in table <==> row in rows
  {
    forall row ensures row in table <==> row in rows {
      assert row in multiset(table) <==> row in multiset(rows);
    }
  }

  /** The search may answer Unknown exactly when the file does not list the key or lists it with an
      unrecognised family, and must exactly when it lists it with no other. */
  lemma UnknownIff(rows: seq<Row>, key: string)
    requires key != ""
    ensures (exists table :: SortOf(table, rows) && Search(table, key) == Unknown)
            <==> !Listed(rows, key) || Row(key, Unknown) in rows
    ensures (forall table :: SortOf(table, rows) ==> Search(table, key) == Unknown)
            <==> forall f :: f != Unknown ==> Row(key, f) !in rows
  {
    hide Search, SortOf;
    forall f ensures (exists table :: SortOf(table, rows) && Search(table, key) == f) <==> Answers(rows, key, f) {
      PossibleAnswersIff(rows, key, f);
    }
    assert Answers(rows, key, Unknown) <==> !Listed(rows, key) || Row(key, Unknown) in rows;
    forall f | Row(key, f) in rows ensures Listed(rows, key) && Answers(rows, key, f) {
      assert Row(key, f).key == key;
    }
    forall table | SortOf(table, rows) ensures Answers(rows, key, Search(table, key)) {
      assert exists t :: SortOf(t, rows) && Search(t, key) == Search(table, key);
    }
  }

  /** From file to answer: a family the file lists for the key, the scan's if it lists only one. */
  method Classify(t: string, key: string) returns (r: Family)
    ensures Answers(Rows(Lines(t)), key, r)
    ensures OneFamily(Rows(Lines(t)), key) ==> r == Scan(Rows(Lines(t)), key)
  {
    hide Lines, Rows, Search, Sorted;
    var table := LoadTable(t);
    SameRows(table, Rows(Lines(t)));
    r := Lookup(table, key);
    ScanAnswers(Rows(Lines(t)), key);
  }
}

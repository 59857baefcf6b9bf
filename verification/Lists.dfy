/** The list files (heavybag_match.c): the pointer-walking line reader, the signature-list
    parser and the alternation buffer. A byte is a char here; nothing depends on its width. */
module Lists {
  import opened Wrappers

  const BLANKS: set<char> := {' ', '\t'}

  /** What comes before the first stop character. */
  function Until(s: string, stops: set<char>): (r: string)
    ensures r <= s && (forall i :: 0 <= i < |r| ==> s[i] !in stops)
    ensures |r| < |s| ==> s[|r|] in stops
  {
    if s == "" || s[0] in stops then "" else [s[0]] + Until(s[1..], stops)
  }

  /** What is left after skipping characters at the front. */
  function Skip(s: string, over: set<char>): (r: string)
    ensures |r| <= |s| && r == s[|s| - |r|..] && (forall i :: 0 <= i < |s| - |r| ==> s[i] in over)
    ensures r != "" ==> r[0] !in over
  {
    if s == "" || s[0] !in over then s else Skip(s[1..], over)
  }

  /** What is left after skipping characters at the back. */
  function SkipBack(s: string, over: set<char>): (r: string)
    ensures r <= s && (forall i :: |r| <= i < |s| ==> s[i] in over)
    ensures r != "" ==> r[|r| - 1] !in over
  {
    if s == "" || s[|s| - 1] !in over then s else SkipBack(s[..|s| - 1], over)
  }

  function Trim(s: string): string {
    SkipBack(Skip(s, BLANKS), BLANKS)
  }

  function DropCr(s: string): string {
    if s != "" && s[|s| - 1] == '\r' then s[..|s| - 1] else s
  }

  lemma UntilIs(s: string, stops: set<char>, k: nat)
    requires k <= |s| && (forall i :: 0 <= i < k ==> s[i] !in stops) && (k < |s| ==> s[k] in stops)
    ensures Until(s, stops) == s[..k]
  {
    var r := Until(s, stops);
    assert |r| == k;
  }

  lemma SkipIs(s: string, over: set<char>, k: nat)
    requires k <= |s| && (forall i :: 0 <= i < k ==> s[i] in over) && (k < |s| ==> s[k] !in over)
    ensures Skip(s, over) == s[k..]
  {
    var r := Skip(s, over);
    assert r != "" ==> r[0] == s[|s| - |r|];
    assert |s| - |r| == k;
  }

  lemma SkipBackIs(s: string, over: set<char>, k: nat)
    requires k <= |s| && (forall i :: k <= i < |s| ==> s[i] in over) && (k > 0 ==> s[k - 1] !in over)
    ensures SkipBack(s, over) == s[..k]
  {
    var r := SkipBack(s, over);
    assert r != "" ==> r[|r| - 1] == s[|r| - 1];
    assert |r| == k;
  }

  /** The part of s between a and b is its trimmed form. */
  lemma TrimIs(s: string, a: nat, b: nat)
    requires a <= b <= |s|
    requires forall i :: 0 <= i < a ==> s[i] in BLANKS
    requires forall i :: b <= i < |s| ==> s[i] in BLANKS
    requires a < b ==> s[a] !in BLANKS && s[b - 1] !in BLANKS
    requires a == b ==> a == |s|
    ensures Trim(s) == s[a..b]
  {
    hide Skip, SkipBack, BLANKS;
    SkipIs(s, BLANKS, a);
    var rest := s[a..];
    forall i | b - a <= i < |rest| ensures rest[i] in BLANKS {
      assert rest[i] == s[a + i];
    }
    assert b > a ==> rest[b - a - 1] == s[b - 1];
    SkipBackIs(rest, BLANKS, b - a);
    assert rest[..b - a] == s[a..b];
  }

  // ---- lines ----

  /** Splitting on LF. */
  function RawLines(t: string): (ls: seq<string>)
    ensures |ls| > 0
    decreases |t|
  {
    var l := Until(t, {'\n'});
    if |l| == |t| then [l] else [l] + RawLines(t[|l| + 1..])
  }

  function JoinLines(ls: seq<string>): string {
    if ls == [] then "" else if |ls| == 1 then ls[0] else ls[0] + "\n" + JoinLines(ls[1..])
  }

  predicate OneLine(s: string) {
    forall i :: 0 <= i < |s| ==> s[i] != '\n'
  }

  lemma {:induction false} RawLinesJoin(t: string)
    ensures JoinLines(RawLines(t)) == t && forall i :: 0 <= i < |RawLines(t)| ==> OneLine(RawLines(t)[i])
    decreases |t|
  {
    hide Until;
    var l := Until(t, {'\n'});
    assert OneLine(l);
    if |l| < |t| {
      var rest := t[|l| + 1..];
      RawLinesJoin(rest);
      JoinLonger(l, RawLines(rest));
      assert t == l + "\n" + rest;
    }
  }

  lemma JoinLonger(l: string, ls: seq<string>)
    requires ls != []
    ensures JoinLines([l] + ls) == l + "\n" + JoinLines(ls)
  {
    assert ([l] + ls)[1..] == ls;
  }

  /** The split is the only list of LF-free strings that joins back to the text. */
  lemma {:induction false} RawLinesUnique(t: string, ls: seq<string>)
    requires ls != [] && (forall i :: 0 <= i < |ls| ==> OneLine(ls[i])) && JoinLines(ls) == t
    ensures ls == RawLines(t)
  {
    hide Until, JoinLines;
    if |ls| > 1 {
      JoinedHead(ls);
      RawLinesUnique(t[|ls[0]| + 1..], ls[1..]);
      assert ls == [ls[0]] + ls[1..];
    } else {
      JoinedOne(ls);
    }
  }

  lemma JoinedOne(ls: seq<string>)
    requires |ls| == 1 && OneLine(ls[0])
    ensures JoinLines(ls) == ls[0] == Until(ls[0], {'\n'}) && ls == [ls[0]]
  {
    UntilIs(ls[0], {'\n'}, |ls[0]|);
  }

  lemma JoinedHead(ls: seq<string>)
    requires |ls| > 1 && OneLine(ls[0])
    ensures var t, n := JoinLines(ls), |ls[0]|;
            n < |t| && Until(t, {'\n'}) == ls[0] && t[n + 1..] == JoinLines(ls[1..])
  {
    hide Until;
    var t, n := ls[0] + "\n" + JoinLines(ls[1..]), |ls[0]|;
    assert t == JoinLines(ls);
    assert forall i :: 0 <= i < n ==> t[i] == ls[0][i];
    UntilIs(t, {'\n'}, n);
    assert t[..n] == ls[0];
  }

  /** A trimmed line that is neither blank nor a comment. */
  predicate Significant(l: string) {
    l != "" && l[0] != '#'
  }

  function Kept(ls: seq<string>): seq<string> {
    if ls == [] then []
    else
      var l := Trim(DropCr(ls[0]));
      (if Significant(l) then [l] else []) + Kept(ls[1..])
  }

  /** The significant lines of a text: split on LF, drop one CR, trim, drop blank and comment
      lines. */
  function Lines(t: string): seq<string> {
    Kept(RawLines(t))
  }

  lemma LinesStep(t: string, k: nat)
    requires k <= |t| && OneLine(t[..k]) && (k < |t| ==> t[k] == '\n')
    ensures var l := Trim(DropCr(t[..k]));
            Lines(t) == (if Significant(l) then [l] else []) + (if k == |t| then [] else Lines(t[k + 1..]))
  {
    hide Trim, DropCr, Significant, Until;
    assert forall i :: 0 <= i < k ==> t[..k][i] == t[i];
    UntilIs(t, {'\n'}, k);
    var ls := RawLines(t);
    assert ls[0] == t[..k];
    assert Lines(t) == (if Significant(Trim(DropCr(ls[0]))) then [Trim(DropCr(ls[0]))] else []) + Kept(ls[1..]);
    if k < |t| {
      assert ls[1..] == RawLines(t[k + 1..]);
    } else {
      assert ls[1..] == [];
    }
  }

  lemma NoLines()
    ensures Lines("") == []
  {
    LinesStep("", 0);
  }

  lemma LineAt(t: string, from: nat, eol: nat)
    requires from <= eol <= |t| && (eol < |t| ==> t[eol] == '\n')
    requires forall i :: from <= i < eol ==> t[i] != '\n'
    ensures var l := Trim(DropCr(t[from..eol]));
            var next := if eol < |t| then eol + 1 else eol;
            Lines(t[from..]) == (if Significant(l) then [l] else []) + Lines(t[next..])
  {
    hide Lines, Trim, DropCr, Significant;
    var rest := t[from..];
    assert rest[..eol - from] == t[from..eol];
    LinesStep(rest, eol - from);
    NoLines();
    if eol < |t| {
      assert rest[eol - from + 1..] == t[eol + 1..];
    } else {
      assert t[eol..] == "";
    }
  }

  lemma CrDroppedAt(t: string, from: nat, eol: nat)
    requires from <= eol <= |t|
    ensures DropCr(t[from..eol]) == t[from..if eol > from && t[eol - 1] == '\r' then eol - 1 else eol]
  {
    var raw := t[from..eol];
    if eol > from {
      assert raw[|raw| - 1] == t[eol - 1];
      assert raw[..|raw| - 1] == t[from..eol - 1];
    }
  }

  lemma TrimmedAt(t: string, from: nat, ls: nat, le: nat, bare: nat)
    requires from <= ls <= le <= bare <= |t|
    requires forall i :: from <= i < ls ==> t[i] in BLANKS
    requires forall i :: le <= i < bare ==> t[i] in BLANKS
    requires ls < le ==> t[ls] !in BLANKS && t[le - 1] !in BLANKS
    requires ls == le ==> ls == bare
    ensures Trim(t[from..bare]) == t[ls..le]
  {
    hide Trim, BLANKS;
    var s := t[from..bare];
    assert forall i :: 0 <= i < |s| ==> s[i] == t[from + i];
    TrimIs(s, ls - from, le - from);
    assert s[ls - from..le - from] == t[ls..le];
  }

  /** next_line: the bounds of the next significant line from p0, and where to go on. */
  method NextLine(t: string, p0: nat) returns (p: nat, line: Option<(nat, nat)>)
    requires p0 <= |t|
    ensures line.None? ==> p == |t| && Lines(t[p0..]) == []
    ensures line.Some? ==>
              var (ls, le) := line.value;
              && p0 <= ls < le <= p <= |t|
              && Lines(t[p0..]) == [t[ls..le]] + Lines(t[p..])
  {
    hide Lines, Trim, DropCr;
    NoLines();
    p := p0;
    while p < |t|
      invariant p0 <= p <= |t|
      invariant Lines(t[p0..]) == Lines(t[p..])
    {
      ghost var from := p;
      var ls: nat := p;
      while p < |t| && t[p] != '\n'
        invariant ls <= p <= |t|
        invariant forall i :: ls <= i < p ==> t[i] != '\n'
      {
        p := p + 1;
      }
      var le := p;
      if p < |t| {
        p := p + 1;
      }
      ghost var eol := le;
      LineAt(t, from, eol);
      if le > ls && t[le - 1] == '\r' {
        le := le - 1;
      }
      ghost var bare := le;
      CrDroppedAt(t, from, eol);
      while ls < le && (t[ls] == ' ' || t[ls] == '\t')
        invariant from <= ls <= le
        invariant forall i :: from <= i < ls ==> t[i] in BLANKS
      {
        ls := ls + 1;
      }
      while le > ls && (t[le - 1] == ' ' || t[le - 1] == '\t')
        invariant ls <= le <= bare
        invariant forall i :: le <= i < bare ==> t[i] in BLANKS
      {
        le := le - 1;
      }
      TrimmedAt(t, from, ls, le, bare);
      if ls == le || t[ls] == '#' {
        continue;
      }
      return p, Some((ls, le));
    }
    assert t[p..] == "";
    return p, None;
  }

  /** The whole list, line by line: what repeated next_line yields. */
  method ReadLines(t: string) returns (ls: seq<string>)
    ensures ls == Lines(t)
  {
    hide Lines;
    ls := [];
    var p: nat := 0;
    assert t[0..] == t;
    while true
      invariant p <= |t| && Lines(t) == ls + Lines(t[p..])
      decreases |t| - p
    {
      var next, line := NextLine(t, p);
      if line.None? {
        return;
      }
      var (s, e) := line.value;
      ls := ls + [t[s..e]];
      p := next;
    }
  }

  // ---- signature rules ----

  /** The three buckets of a signature list, in lookup order. */
  datatype Action = NotFound | Forbidden | Close

  /** One line: its pattern and the text of its action. */
  datatype Entry = Entry(pattern: string, token: string)

  /** The pattern runs up to the first blank; the action is the rest up to a comment. */
  function ParseLine(l: string): Entry {
    var pattern := Until(l, BLANKS);
    Entry(pattern, Trim(Until(l[|pattern|..], {'#'})))
  }

  function ActionOf(token: string): Option<Action> {
    if token == "" || token == "404" then Some(NotFound)
    else if token == "403" then Some(Forbidden)
    else if token == "444" then Some(Close)
    else None
  }

  function ParseLines(ls: seq<string>): (es: seq<Entry>)
    ensures |es| == |ls| && forall i :: 0 <= i < |ls| ==> es[i] == ParseLine(ls[i])
  {
    seq(|ls|, i requires 0 <= i < |ls| => ParseLine(ls[i]))
  }

  function Entries(t: string): seq<Entry> {
    ParseLines(Lines(t))
  }

  /** The patterns filed under one action, in order. */
  function Bucket(es: seq<Entry>, a: Action): seq<string> {
    if es == [] then []
    else
      var last := es[|es| - 1];
      Bucket(es[..|es| - 1], a) + if ActionOf(last.token) == Some(a) then [last.pattern] else []
  }

  lemma {:induction false} BucketsPartition(es: seq<Entry>)
    requires forall i :: 0 <= i < |es| ==> ActionOf(es[i].token).Some?
    ensures |Bucket(es, NotFound)| + |Bucket(es, Forbidden)| + |Bucket(es, Close)| == |es|
  {
    if es != [] {
      BucketsPartition(es[..|es| - 1]);
    }
  }

  datatype Loaded = Loaded(buckets: map<Action, seq<string>>, total: nat) | UnknownAction(token: string)

  /** The bounds of pattern and action within the line t[ls..le]. */
  method SplitRule(t: string, ls: nat, le: nat) returns (pe: nat, s: nat, e: nat)
    requires ls <= le <= |t|
    ensures ls <= pe <= s <= e <= le
    ensures ParseLine(t[ls..le]) == Entry(t[ls..pe], t[s..e])
  {
    hide Until, Trim;
    pe := ls;
    while pe < le && t[pe] != ' ' && t[pe] != '\t'
      invariant ls <= pe <= le
      invariant forall i :: ls <= i < pe ==> t[i] !in BLANKS
    {
      pe := pe + 1;
    }
    s := pe;
    while s < le && (t[s] == ' ' || t[s] == '\t')
      invariant pe <= s <= le
      invariant forall i :: pe <= i < s ==> t[i] in BLANKS
    {
      s := s + 1;
    }
    e := s;
    while e < le && t[e] != '#'
      invariant s <= e <= le
      invariant forall i :: s <= i < e ==> t[i] != '#'
    {
      e := e + 1;
    }
    ghost var cut := e;
    while e > s && (t[e - 1] == ' ' || t[e - 1] == '\t')
      invariant s <= e <= cut
      invariant forall i :: e <= i < cut ==> t[i] in BLANKS
    {
      e := e - 1;
    }
    RuleAt(t, ls, le, pe, s, e, cut);
  }

  lemma RuleAt(t: string, ls: nat, le: nat, pe: nat, s: nat, e: nat, cut: nat)
    requires ls <= pe <= s <= e <= cut <= le <= |t|
    requires forall i :: ls <= i < pe ==> t[i] !in BLANKS
    requires pe < le ==> t[pe] in BLANKS
    requires forall i :: pe <= i < s ==> t[i] in BLANKS
    requires s < le ==> t[s] !in BLANKS
    requires forall i :: s <= i < cut ==> t[i] != '#'
    requires cut < le ==> t[cut] == '#'
    requires forall i :: e <= i < cut ==> t[i] in BLANKS
    requires e > s ==> t[e - 1] !in BLANKS
    ensures ParseLine(t[ls..le]) == Entry(t[ls..pe], t[s..e])
  {
    hide Until, Trim, BLANKS;
    var l := t[ls..le];
    assert forall i :: 0 <= i < |l| ==> l[i] == t[ls + i];
    UntilIs(l, BLANKS, pe - ls);
    assert l[..pe - ls] == t[ls..pe] && l[pe - ls..] == t[pe..le];
    NoHash(t, pe, s);
    CutAt(t, pe, le, cut);
    TrimmedAt(t, pe, s, e, cut);
  }

  lemma NoHash(t: string, from: nat, to: nat)
    requires from <= to <= |t| && forall i :: from <= i < to ==> t[i] in BLANKS
    ensures forall i :: from <= i < to ==> t[i] != '#'
  {
  }

  lemma CutAt(t: string, from: nat, to: nat, cut: nat)
    requires from <= cut <= to <= |t|
    requires forall i :: from <= i < cut ==> t[i] != '#'
    requires cut < to ==> t[cut] == '#'
    ensures Until(t[from..to], {'#'}) == t[from..cut]
  {
    hide Until;
    var rest := t[from..to];
    assert forall i :: 0 <= i < |rest| ==> rest[i] == t[from + i];
    UntilIs(rest, {'#'}, cut - from);
    assert rest[..cut - from] == t[from..cut];
  }

  /** The parse phase of scanner_compile: every pattern in its action's bucket, in file order,
      unless some action is unknown; then the first of those is the error. */
  method ScannerParse(t: string) returns (r: Loaded)
    ensures var es := Entries(t);
            match r
            case Loaded(buckets, total) =>
              && (forall i :: 0 <= i < |es| ==> ActionOf(es[i].token).Some?)
              && (forall a :: a in buckets && buckets[a] == Bucket(es, a))
              && total == |es|
            case UnknownAction(token) =>
              exists i :: 0 <= i < |es| && es[i].token == token && ActionOf(token).None?
                && forall j :: 0 <= j < i ==> ActionOf(es[j].token).Some?
  {
    hide Lines, ParseLine, ActionOf, Bucket;
    var buckets: map<Action, seq<string>> := map[NotFound := [], Forbidden := [], Close := []];
    var total: nat := 0;
    ghost var es := Entries(t);
    var p: nat := 0;
    assert t[0..] == t;
    forall a: Action ensures a in buckets && buckets[a] == Bucket(es[..0], a) {
      EmptyBucket(a);
      match a case NotFound => case Forbidden => case Close =>
    }
    while true
      invariant p <= |t| && total <= |es| && es[total..] == Entries(t[p..])
      invariant forall i :: 0 <= i < total ==> ActionOf(es[i].token).Some?
      invariant forall a :: a in buckets && buckets[a] == Bucket(es[..total], a)
      decreases |t| - p
    {
      var next, line := NextLine(t, p);
      if line.None? {
        assert es[total..] == [];
        assert es[..total] == es;
        return Loaded(buckets, total);
      }
      var (ls, le) := line.value;
      assert Entries(t[p..]) == [ParseLine(t[ls..le])] + Entries(t[next..]);
      var pe, s, e := SplitRule(t, ls, le);
      var token := t[s..e];
      assert es[total] == es[total..][0] == Entry(t[ls..pe], token);
      assert es[total + 1..] == es[total..][1..];
      var action;
      match ActionOf(token) {
        case None => return UnknownAction(token);
        case Some(a) => action := a;
      }
      buckets := buckets[action := buckets[action] + [t[ls..pe]]];
      BucketStep(es, total);
      total := total + 1;
      p := next;
    }
  }

  lemma EmptyBucket(a: Action)
    ensures Bucket([], a) == []
  {
  }

  lemma BucketStep(es: seq<Entry>, k: nat)
    requires k < |es|
    ensures forall a :: Bucket(es[..k + 1], a)
                        == Bucket(es[..k], a) + if ActionOf(es[k].token) == Some(a) then [es[k].pattern] else []
  {
    assert es[..k + 1][..k] == es[..k];
  }

  // ---- printing a list ----

  datatype Rule = Rule(pattern: string, action: Action)

  function Code(a: Action): string {
    match a
    case NotFound => "404"
    case Forbidden => "403"
    case Close => "444"
  }

  function RuleLine(r: Rule): string {
    r.pattern + " " + Code(r.action)
  }

  function Print(rules: seq<Rule>): string {
    if rules == [] then "" else RuleLine(rules[0]) + "\n" + Print(rules[1..])
  }

  /** The entries a printed list should read back as. */
  function Written(rules: seq<Rule>): (es: seq<Entry>)
    ensures |es| == |rules| && forall i :: 0 <= i < |es| ==> es[i] == Entry(rules[i].pattern, Code(rules[i].action))
  {
    seq(|rules|, i requires 0 <= i < |rules| => Entry(rules[i].pattern, Code(rules[i].action)))
  }

  /** A pattern a list can carry: no blank and no line break in it, and not a comment. */
  predicate Canonical(p: string) {
    p != "" && p[0] != '#' && OneLine(p) && forall i :: 0 <= i < |p| ==> p[i] !in BLANKS
  }

  predicate AllCanonical(rules: seq<Rule>) {
    forall i :: 0 <= i < |rules| ==> Canonical(rules[i].pattern)
  }

  /** A significant line as Lines delivers it. */
  predicate Clean(l: string) {
    Significant(l) && OneLine(l) && l[0] !in BLANKS
  }

  predicate AllClean(ls: seq<string>) {
    forall i :: 0 <= i < |ls| ==> Clean(ls[i])
  }

  lemma TrimmedFirst(s: string)
    requires OneLine(s)
    ensures OneLine(Trim(s)) && (Trim(s) != "" ==> Trim(s)[0] !in BLANKS)
  {
    var a := Skip(s, BLANKS);
    assert OneLine(a);
  }

  lemma {:induction false} KeptAreClean(ls: seq<string>)
    requires forall i :: 0 <= i < |ls| ==> OneLine(ls[i])
    ensures AllClean(Kept(ls))
  {
    hide Clean, Trim, DropCr, Significant, OneLine;
    if ls != [] {
      CleanLine(ls[0]);
      KeptAreClean(ls[1..]);
    }
  }

  lemma CleanLine(l: string)
    requires OneLine(l)
    ensures var k := Trim(DropCr(l)); Significant(k) ==> Clean(k)
  {
    hide Trim;
    assert OneLine(DropCr(l));
    TrimmedFirst(DropCr(l));
  }

  /** Whatever the file says, every pattern read from it is canonical. */
  lemma PatternsAreCanonical(t: string)
    ensures forall i :: 0 <= i < |Entries(t)| ==> Canonical(Entries(t)[i].pattern)
  {
    RawLinesJoin(t);
    KeptAreClean(RawLines(t));
    forall i | 0 <= i < |Entries(t)| ensures Canonical(Entries(t)[i].pattern) {
      CleanPattern(Lines(t)[i]);
    }
  }

  lemma CleanPattern(l: string)
    requires Clean(l)
    ensures Canonical(ParseLine(l).pattern)
  {
    hide Until, Trim;
    var p := Until(l, BLANKS);
    assert forall i :: 0 <= i < |p| ==> p[i] == l[i];
    assert |p| > 0;
  }

  /** A canonical rule's line comes through the line reader untouched... */
  lemma LineSurvives(r: Rule)
    requires Canonical(r.pattern)
    ensures var l := RuleLine(r); OneLine(l) && Trim(DropCr(l)) == l && Significant(l)
  {
    hide Trim;
    var l := RuleLine(r);
    LineShape(r);
    TrimIs(l, 0, |l|);
    assert l[0..|l|] == l;
  }

  /** ... and splits into its pattern and its action. */
  lemma LineParses(r: Rule)
    requires Canonical(r.pattern)
    ensures ParseLine(RuleLine(r)) == Entry(r.pattern, Code(r.action))
  {
    hide ParseLine;
    var l, n := RuleLine(r), |r.pattern|;
    LineShape(r);
    RuleAt(l, 0, |l|, n, n + 1, |l|, |l|);
    assert l[0..|l|] == l && l[0..n] == r.pattern && l[n + 1..|l|] == Code(r.action);
  }

  lemma LineShape(r: Rule)
    requires Canonical(r.pattern)
    ensures var l, n := RuleLine(r), |r.pattern|;
            && |l| == n + 4 && l[n] == ' ' && l[0] != '#'
            && (forall i :: 0 <= i < n ==> l[i] !in BLANKS)
            && (forall i :: n < i < n + 4 ==> l[i] !in BLANKS && l[i] != '#' && l[i] != '\r')
            && OneLine(l)
  {
    var l, n := RuleLine(r), |r.pattern|;
    assert forall i :: 0 <= i < n ==> l[i] == r.pattern[i];
    assert forall i :: n < i < n + 4 ==> l[i] == Code(r.action)[i - n - 1];
  }

  /** Printing a list of rules and reading it back gives the same rules, in order, exactly when
      every pattern is canonical. */
  lemma RoundTripIff(rules: seq<Rule>)
    ensures Entries(Print(rules)) == Written(rules) <==> AllCanonical(rules)
  {
    if AllCanonical(rules) {
      RoundTrip(rules);
    }
    if Entries(Print(rules)) == Written(rules) {
      PatternsAreCanonical(Print(rules));
      assert forall i :: 0 <= i < |rules| ==> Written(rules)[i].pattern == rules[i].pattern;
    }
  }

  lemma {:induction false} RoundTrip(rules: seq<Rule>)
    requires AllCanonical(rules)
    ensures Entries(Print(rules)) == Written(rules)
  {
    hide Lines, ParseLine, Trim, DropCr, RuleLine, Canonical;
    if rules == [] {
      NoEntries();
    } else {
      var l, rest := RuleLine(rules[0]), Print(rules[1..]);
      LineSurvives(rules[0]);
      LineParses(rules[0]);
      RoundTrip(rules[1..]);
      PrintedLine(l, rest);
      assert Entries(Print(rules)) == [ParseLine(l)] + Entries(rest);
      assert Written(rules) == [Written(rules)[0]] + Written(rules[1..]);
    }
  }

  lemma NoEntries()
    ensures Entries("") == []
  {
    NoLines();
  }

  lemma PrintedLine(l: string, rest: string)
    requires OneLine(l) && Trim(DropCr(l)) == l && Significant(l)
    ensures Lines(l + "\n" + rest) == [l] + Lines(rest)
  {
    hide Lines, Trim, DropCr;
    var t := l + "\n" + rest;
    assert t[..|l|] == l && t[|l| + 1..] == rest;
    LinesStep(t, |l|);
  }

  /** The rules of a list whose actions are all known. */
  function RulesOf(es: seq<Entry>): (rs: seq<Rule>)
    requires forall i :: 0 <= i < |es| ==> ActionOf(es[i].token).Some?
    ensures |rs| == |es| && forall i :: 0 <= i < |rs| ==> rs[i] == Rule(es[i].pattern, ActionOf(es[i].token).value)
  {
    seq(|es|, i requires 0 <= i < |es| => Rule(es[i].pattern, ActionOf(es[i].token).value))
  }

  /** Any list that loads can be rewritten in canonical form without changing a bucket. */
  lemma ReprintKeepsBuckets(t: string, a: Action)
    requires forall i :: 0 <= i < |Entries(t)| ==> ActionOf(Entries(t)[i].token).Some?
    ensures Bucket(Entries(Print(RulesOf(Entries(t)))), a) == Bucket(Entries(t), a)
  {
    hide Lines, Print, ParseLine;
    var rules := RulesOf(Entries(t));
    PatternsAreCanonical(t);
    RoundTrip(rules);
    SameBucket(Entries(t), Written(rules), a);
  }

  lemma {:induction false} SameBucket(es: seq<Entry>, fs: seq<Entry>, a: Action)
    requires |es| == |fs|
    requires forall i :: 0 <= i < |es| ==> es[i].pattern == fs[i].pattern && ActionOf(es[i].token) == ActionOf(fs[i].token)
    ensures Bucket(es, a) == Bucket(fs, a)
  {
    if es != [] {
      SameBucket(es[..|es| - 1], fs[..|fs| - 1], a);
    }
  }

  // ---- the alternation buffer ----

  function Group(p: string): string {
    "(?:" + p + ")"
  }

  /** The groups of the patterns, separated by bars. */
  function Alternation(ps: seq<string>): string {
    if ps == [] then ""
    else if |ps| == 1 then Group(ps[0])
    else Alternation(ps[..|ps| - 1]) + "|" + Group(ps[|ps| - 1])
  }

  method Put(buf: array<char>, at: nat, s: string) returns (next: nat)
    requires at + |s| <= buf.Length
    modifies buf
    ensures next == at + |s|
    ensures buf[..next] == old(buf[..at]) + s
  {
    var i := 0;
    while i < |s|
      invariant 0 <= i <= |s| && buf[..at + i] == old(buf[..at]) + s[..i]
    {
      buf[at + i] := s[i];
      i := i + 1;
    }
    next := at + |s|;
    assert s[..|s|] == s;
  }

  /** What the sizing loop has counted, and the bars still to come. */
  function GroupBytes(ps: seq<string>): nat {
    if ps == [] then 0 else GroupBytes(ps[..|ps| - 1]) + 3 + |ps[|ps| - 1]| + 1
  }

  lemma {:induction false} SizedExactly(ps: seq<string>)
    requires ps != []
    ensures |Alternation(ps)| == GroupBytes(ps) + |ps| - 1
  {
    if |ps| > 1 {
      SizedExactly(ps[..|ps| - 1]);
    } else {
      assert ps[..0] == [];
    }
  }

  lemma {:induction false} GrowsWithin(ps: seq<string>, k: nat)
    requires k <= |ps|
    ensures |Alternation(ps[..k])| <= |Alternation(ps)|
    decreases |ps| - k
  {
    if k < |ps| {
      assert ps[..k + 1][..k] == ps[..k];
      GrowsWithin(ps, k + 1);
    } else {
      assert ps[..k] == ps;
    }
  }

  lemma AlternationStep(ps: seq<string>, k: nat)
    requires k < |ps|
    ensures Alternation(ps[..k + 1]) == Alternation(ps[..k]) + (if k > 0 then "|" else "") + Group(ps[k])
    ensures |Alternation(ps[..k + 1])| <= |Alternation(ps)|
  {
    assert ps[..k + 1][..k] == ps[..k];
    GrowsWithin(ps, k + 1);
  }

  /** compile_bucket's sizing loop. */
  method SizeOf(patterns: seq<string>) returns (len: nat)
    requires patterns != []
    ensures len == |Alternation(patterns)|
  {
    len := 0;
    for i := 0 to |patterns|
      invariant len == GroupBytes(patterns[..i])
    {
      assert patterns[..i + 1][..i] == patterns[..i];
      len := len + 3 + |patterns[i]| + 1;
    }
    assert patterns[..|patterns|] == patterns;
    len := len + |patterns| - 1;
    SizedExactly(patterns);
  }

  /** One turn of the copy loop. */
  method PutItem(buf: array<char>, at: nat, later: bool, pattern: string) returns (p: nat)
    requires at + |(if later then "|" else "") + Group(pattern)| <= buf.Length
    modifies buf
    ensures p <= buf.Length
    ensures buf[..p] == old(buf[..at]) + ((if later then "|" else "") + Group(pattern))
  {
    p := at;
    if later {
      p := Put(buf, p, "|");
    }
    p := Put(buf, p, "(?:");
    p := Put(buf, p, pattern);
    p := Put(buf, p, ")");
  }

  /** compile_bucket up to the regex engine: no pattern, no regex; otherwise the buffer sized by
      the first loop holds the alternation and nothing else, and no write leaves it. */
  method CompileBucket(patterns: seq<string>) returns (combined: Option<string>)
    ensures combined == if patterns == [] then None else Some(Alternation(patterns))
  {
    hide Group, Alternation;
    if |patterns| == 0 {
      return None;
    }
    var len := SizeOf(patterns);
    var buf := new char[len];
    var p: nat := 0;
    NoAlternation();
    for i := 0 to |patterns|
      invariant p <= buf.Length && buf[..p] == Alternation(patterns[..i])
    {
      AlternationStep(patterns, i);
      p := PutItem(buf, p, i > 0, patterns[i]);
    }
    assert patterns[..|patterns|] == patterns;
    assert buf[..p] == buf[..];
    return Some(buf[..]);
  }

  lemma NoAlternation()
    ensures Alternation([]) == ""
  {
  }
}

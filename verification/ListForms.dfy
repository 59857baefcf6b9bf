/** The list files as their authors write them: what each form of line comes to. */
module ListForms {
  import opened Wrappers
  import opened Lists

  /** Nothing but spaces and tabs. */
  predicate Blank(s: string) {
    forall i :: 0 <= i < |s| ==> s[i] == ' ' || s[i] == '\t'
  }

  predicate NoBlank(s: string) {
    forall i :: 0 <= i < |s| ==> s[i] != ' ' && s[i] != '\t'
  }

  /** Not empty, and no blank at either end. */
  predicate Tight(s: string) {
    s != "" && s[0] != ' ' && s[0] != '\t' && s[|s| - 1] != ' ' && s[|s| - 1] != '\t'
  }

  // ---- lines ----

  lemma OneTrimmed(before: string, core: string, after: string)
    requires Blank(before) && Blank(after) && Tight(core)
    ensures Trim(before + core + after) == core
  {
    hide Trim;
    var s := before + core + after;
    TrimIs(s, |before|, |before| + |core|);
    assert s[|before|..|before| + |core|] == core;
  }

  lemma BlankTrimmed(s: string)
    requires Blank(s)
    ensures Trim(s) == ""
  {
    hide Trim;
    TrimIs(s, |s|, |s|);
    assert s[|s|..|s|] == "";
  }

  lemma CrDropped(s: string)
    ensures DropCr(s + "\r") == s
    ensures s == "" || s[|s| - 1] != '\r' ==> DropCr(s) == s
  {
    assert (s + "\r")[..|s|] == s;
  }

  /** A line break starts a new line; a line that is blank, a comment or empty says nothing. A line ends in LF
      or CR LF, and blanks around it do not count. */
  lemma LineForms(before: string, core: string, after: string, cr: bool, rest: string)
    requires Blank(before) && Blank(after) && Tight(core) && OneLine(core) && (after == "" && !cr ==> core[|core| - 1] != '\r')
    ensures var line := before + core + after + (if cr then "\r" else "");
            Lines(line + "\n" + rest) == (if core[0] == '#' then [] else [core]) + Lines(rest)
  {
    hide Lines, Trim, DropCr;
    var text := before + core + after;
    var line := text + (if cr then "\r" else "");
    OneTrimmed(before, core, after);
    CrDropped(text);
    assert !cr ==> line == text && text[|text| - 1] != '\r';
    assert OneLine(line);
    FirstLine(line, rest);
  }

  lemma BlankLines(blank: string, cr: bool, rest: string)
    requires Blank(blank)
    ensures Lines(blank + (if cr then "\r" else "") + "\n" + rest) == Lines(rest) && Lines("") == []
  {
    hide Lines, Trim, DropCr;
    var line := blank + (if cr then "\r" else "");
    BlankTrimmed(blank);
    CrDropped(blank);
    assert !cr ==> line == blank;
    assert OneLine(line);
    FirstLine(line, rest);
    NoLines();
  }

  /** A last line without a line break is a line like any other. */
  lemma LastLine(before: string, core: string, after: string)
    requires Blank(before) && Blank(after) && Tight(core) && OneLine(core) && (after == "" ==> core[|core| - 1] != '\r')
    ensures Lines(before + core + after) == if core[0] == '#' then [] else [core]
  {
    hide Lines, Trim, DropCr;
    var line := before + core + after;
    OneTrimmed(before, core, after);
    CrDropped(line);
    assert OneLine(line);
    assert line[..|line|] == line;
    LinesStep(line, |line|);
  }

  lemma FirstLine(line: string, rest: string)
    requires OneLine(line)
    ensures var l := Trim(DropCr(line));
            Lines(line + "\n" + rest) == (if l != "" && l[0] != '#' then [l] else []) + Lines(rest)
  {
    hide Lines, Trim, DropCr;
    var t := line + "\n" + rest;
    assert t[..|line|] == line && t[|line| + 1..] == rest;
    LinesStep(t, |line|);
  }

  // ---- rules ----

  /** An optional comment. */
  predicate Comment(s: string) {
    s == "" || s[0] == '#'
  }

  /** A pattern alone, or with a comment after it, has no action... */
  lemma PatternAlone(p: string, gap: string, comment: string)
    requires NoBlank(p) && Blank(gap) && Comment(comment) && (gap == "" ==> comment == "")
    ensures ParseLine(p + gap + comment) == Entry(p, "")
  {
    hide ParseLine;
    var l, n, m := p + gap + comment, |p|, |p| + |gap|;
    RuleAt(l, 0, |l|, n, m, m, m);
    assert l[0..|l|] == l && l[0..n] == p && l[m..m] == "";
  }

  /** ... and one with an action the action, without the blanks around it and the comment. */
  lemma PatternWithAction(p: string, gap: string, action: string, after: string, comment: string)
    requires NoBlank(p) && Blank(gap) && gap != "" && Tight(action) && '#' !in action && Blank(after) && Comment(comment)
    ensures ParseLine(p + gap + action + after + comment) == Entry(p, action)
  {
    hide ParseLine;
    var l, n := p + gap + action + after + comment, |p|;
    var s, e := n + |gap|, n + |gap| + |action|;
    assert forall i :: s <= i < e ==> l[i] == action[i - s];
    RuleAt(l, 0, |l|, n, s, e, e + |after|);
    assert l[0..|l|] == l && l[0..n] == p && l[s..e] == action;
  }

  /** A rule without an action is filed under 404; with one under 404, 403 or 444, and any other is an error. */
  lemma ActionsAre(token: string)
    ensures ActionOf(token) == Some(NotFound) <==> token == "" || token == "404"
    ensures ActionOf(token) == Some(Forbidden) <==> token == "403"
    ensures ActionOf(token) == Some(Close) <==> token == "444"
  {
    assert "404"[1] == '0' && "403"[1] == '0' && "444"[1] == '4' && "404"[2] == '4' && "403"[2] == '3';
  }

  /** A bucket holds the patterns of its action in the order of the file. */
  lemma {:induction false} BucketConcat(es: seq<Entry>, fs: seq<Entry>, a: Action)
    ensures Bucket(es + fs, a) == Bucket(es, a) + Bucket(fs, a)
    decreases |fs|
  {
    hide ActionOf;
    if fs == [] {
      assert es + fs == es;
    } else {
      assert (es + fs)[..|es + fs| - 1] == es + fs[..|fs| - 1];
      BucketConcat(es, fs[..|fs| - 1], a);
    }
  }

  lemma BucketOfOne(p: string, token: string, a: Action)
    ensures Bucket([], a) == []
    ensures Bucket([Entry(p, token)], a)
            == if (a == NotFound && token in {"", "404"}) || (a == Forbidden && token == "403") || (a == Close && token == "444") then [p] else []
  {
    hide ActionOf;
    ActionsAre(token);
    assert [Entry(p, token)][..0] == [];
  }

  /** The alternation of two lists is theirs with a bar between; of one pattern, a group. */
  lemma {:induction false} AlternationConcat(ps: seq<string>, qs: seq<string>)
    requires ps != [] && qs != []
    ensures Alternation(ps + qs) == Alternation(ps) + "|" + Alternation(qs)
    decreases |qs|
  {
    hide Alternation, Group;
    var n := |qs| - 1;
    LastPattern(ps + qs);
    LastPattern(qs);
    assert (ps + qs)[..|ps| + n] == ps + qs[..n];
    if n > 0 {
      AlternationConcat(ps, qs[..n]);
      Regrouped(Alternation(ps), Alternation(qs[..n]), Group(qs[n]));
    } else {
      assert ps + qs[..n] == ps;
    }
  }

  lemma Regrouped(a: string, b: string, c: string)
    ensures a + "|" + b + "|" + c == a + "|" + (b + "|" + c)
  {
  }

  lemma LastPattern(ps: seq<string>)
    requires ps != []
    ensures var n := |ps| - 1;
            Alternation(ps) == if n > 0 then Alternation(ps[..n]) + "|" + Group(ps[n]) else Group(ps[n])
  {
    hide Group;
  }

  lemma AlternationOfOne(p: string)
    ensures Alternation([p]) == "(?:" + p + ")"
  {
  }
}

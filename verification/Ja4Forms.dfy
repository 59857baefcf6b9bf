/** The fingerprint list as its authors write it, and the order of its keys. */
module Ja4Forms {
  import opened Wrappers
  import opened Lists
  import opened ListForms
  import opened Ja4Index

  // ---- families ----

  /** The same character, or the same ASCII letter in the other case. */
  predicate SameLetter(c: char, d: char) {
    c == d || ('A' <= c <= 'Z' && d as int == c as int + 32) || ('A' <= d <= 'Z' && c as int == d as int + 32)
  }

  predicate SameLetters(s: string, t: string) {
    |s| == |t| && forall i :: 0 <= i < |s| ==> SameLetter(s[i], t[i])
  }

  lemma LowerMeans(c: char, d: char)
    ensures Lower(c) == Lower(d) <==> SameLetter(c, d)
  {
  }

  lemma FoldedMeans(s: string, t: string)
    ensures SameFolded(s, t) <==> SameLetters(s, t)
  {
    hide Lower, SameLetter;
    forall i | 0 <= i < |s| && i < |t| ensures Lower(s[i]) == Lower(t[i]) <==> SameLetter(s[i], t[i]) {
      LowerMeans(s[i], t[i]);
    }
  }

  /** The case of a letter changes no family. */
  lemma CaseIgnored(s: string, t: string)
    requires SameLetters(s, t)
    ensures FamilyParse(s) == FamilyParse(t)
  {
    hide FamilyParse;
    var f, g := FamilyParse(s), FamilyParse(t);
    if f != Unknown {
      FamilyParseMeans(s, f);
      FamilyParseMeans(t, f);
      SameName(s, t, Name(f));
    } else if g != Unknown {
      FamilyParseMeans(s, g);
      FamilyParseMeans(t, g);
      SameName(s, t, Name(g));
    }
  }

  lemma SameName(s: string, t: string, name: string)
    requires SameLetters(s, t)
    ensures SameFolded(s, name) <==> SameFolded(t, name)
  {
    hide Lower;
    FoldedMeans(s, t);
  }

  /** The five names, in any case, and nothing else name a family. */
  lemma FamiliesAre(s: string)
    ensures FamilyParse(s) == Chromium <==> SameLetters(s, "chromium")
    ensures FamilyParse(s) == Firefox <==> SameLetters(s, "firefox")
    ensures FamilyParse(s) == Safari <==> SameLetters(s, "safari")
    ensures FamilyParse(s) == Tool <==> SameLetters(s, "tool")
    ensures FamilyParse(s) == Bot <==> SameLetters(s, "bot")
  {
    hide FamilyParse, SameLetters;
    FamilyIs(s, Chromium, "chromium");
    FamilyIs(s, Firefox, "firefox");
    FamilyIs(s, Safari, "safari");
    FamilyIs(s, Tool, "tool");
    FamilyIs(s, Bot, "bot");
  }

  lemma FamilyIs(s: string, f: Family, name: string)
    requires f != Unknown && name == Name(f)
    ensures FamilyParse(s) == f <==> SameLetters(s, name)
  {
    hide FamilyParse;
    FamilyParseMeans(s, f);
    FoldedMeans(s, name);
  }

  /** The family is all that follows the key: with another word or a comment behind it, it is none. */
  lemma FamilyIsRestOfLine(name: string, more: string, key: string)
    requires key != "" && NoBlank(key) && Tight(name + " " + more)
    ensures RowOf(key + " " + (name + " " + more)) == Some(Row(key, Unknown))
  {
    hide RowOf, FamilyParse, SameLetter;
    var text := name + " " + more;
    RowForms(key, " ", text);
    FamiliesAre(text);
    assert text[|name|] == ' ';
    NoName(text, |name|);
  }

  lemma NoName(s: string, i: nat)
    requires i < |s| && s[i] == ' '
    ensures !SameLetters(s, "chromium") && !SameLetters(s, "firefox") && !SameLetters(s, "safari")
    ensures !SameLetters(s, "tool") && !SameLetters(s, "bot")
  {
    NotInName(s, i, "chromium");
    NotInName(s, i, "firefox");
    NotInName(s, i, "safari");
    NotInName(s, i, "tool");
    NotInName(s, i, "bot");
  }

  lemma NotInName(s: string, i: nat, name: string)
    requires i < |s| && s[i] == ' ' && forall j :: 0 <= j < |name| ==> 'a' <= name[j] <= 'z'
    ensures !SameLetters(s, name)
  {
    assert |s| == |name| ==> !SameLetter(s[i], name[i]);
  }

  // ---- rows ----

  /** A line of a key and a family gives a row, a line of a key alone none. */
  lemma RowForms(key: string, gap: string, text: string)
    requires key != "" && NoBlank(key) && Blank(gap) && gap != "" && Tight(text)
    ensures RowOf(key + gap + text) == Some(Row(key, FamilyParse(text)))
    ensures RowOf(key) == None
  {
    hide RowOf, FamilyParse;
    var l, n := key + gap + text, |key|;
    RowAt(l, 0, |l|, n, n + |gap|);
    assert l[0..|l|] == l && l[0..n] == key && l[n + |gap|..|l|] == text;
    RowAt(key, 0, n, n, n);
    assert key[0..n] == key;
  }

  /** The rows of a file are those of its lines, in order. */
  lemma {:induction false} RowsConcat(ls: seq<string>, ms: seq<string>)
    ensures Rows(ls + ms) == Rows(ls) + Rows(ms)
    ensures forall l :: Rows([l]) == if RowOf(l).Some? then [RowOf(l).value] else []
  {
    hide RowOf;
    if ls == [] {
      assert ls + ms == ms;
    } else {
      assert (ls + ms)[1..] == ls[1..] + ms;
      RowsConcat(ls[1..], ms);
    }
  }

  // ---- the order ----

  /** The strings first differ at i, where a's character is the smaller. */
  predicate LessAt(a: string, b: string, i: nat) {
    i < |a| && i < |b| && a[i] < b[i] && a[..i] == b[..i]
  }

  /** a comes before b: a shorter beginning of it, or smaller where they first differ. */
  predicate Before(a: string, b: string) {
    (|a| < |b| && a <= b) || exists i :: 0 <= i < |a| && LessAt(a, b, i)
  }

  /** The order of keys is that of a dictionary. */
  lemma {:induction false} CompareMeans(a: string, b: string)
    ensures Compare(a, b) < 0 <==> Before(a, b)
    ensures Compare(a, b) == 0 <==> a == b
  {
    CompareEqual(a, b);
    if a != "" && b != "" {
      FirstsLess(a, b);
      if a[0] == b[0] {
        CompareMeans(a[1..], b[1..]);
        BeforeTail(a, b);
      }
    }
  }

  lemma BeforeAt(a: string, b: string, i: nat)
    requires LessAt(a, b, i)
    ensures Before(a, b)
  {
  }

  lemma FirstsLess(a: string, b: string)
    requires a != "" && b != ""
    ensures a[0] < b[0] ==> LessAt(a, b, 0) && Before(a, b)
    ensures a[0] > b[0] ==> !Before(a, b)
  {
    assert a[..0] == b[..0];
    if a[0] < b[0] {
      BeforeAt(a, b, 0);
    }
    forall i: nat | i > 0 && a[0] != b[0] ensures !LessAt(a, b, i) {
      if i < |a| && i < |b| {
        assert a[..i][0] != b[..i][0];
      }
    }
  }

  lemma LessTail(a: string, b: string, i: nat)
    requires a != "" && b != "" && a[0] == b[0]
    ensures LessAt(a, b, i + 1) <==> LessAt(a[1..], b[1..], i)
    ensures !LessAt(a, b, 0)
  {
    if i + 1 <= |a| && i + 1 <= |b| {
      assert a[..i + 1] == [a[0]] + a[1..][..i] && b[..i + 1] == [a[0]] + b[1..][..i];
      assert a[..i + 1][1..] == a[1..][..i] && b[..i + 1][1..] == b[1..][..i];
    }
  }

  lemma BeforeTail(a: string, b: string)
    requires a != "" && b != "" && a[0] == b[0]
    ensures Before(a, b) <==> Before(a[1..], b[1..])
  {
    hide LessAt;
    var c, d := a[1..], b[1..];
    assert a == [a[0]] + c && b == [a[0]] + d;
    LessTail(a, b, 0);
    if i :| 0 <= i < |a| && LessAt(a, b, i) {
      LessTail(a, b, i - 1);
    }
    if i :| 0 <= i < |c| && LessAt(c, d, i) {
      LessTail(a, b, i);
      assert LessAt(a, b, i + 1);
    }
  }
}

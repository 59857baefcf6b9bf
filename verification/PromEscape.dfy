/** Label escaping for the text exposition (heavybag_status.c). */
module PromEscape {
  predicate Special(c: char) {
    c == '\\' || c == '"' || c == '\n'
  }

  /** A control byte that has no escape and is dropped. */
  predicate Dropped(c: char) {
    c < ' ' && c != '\n'
  }

  function Piece(c: char): string {
    if Special(c) then ['\\', if c == '\n' then 'n' else c]
    else if Dropped(c) then ""
    else [c]
  }

  function Escaped(s: string): string {
    if s == "" then "" else Piece(s[0]) + Escaped(s[1..])
  }

  lemma {:induction false} EscapedConcat(s: string, t: string)
    ensures Escaped(s + t) == Escaped(s) + Escaped(t)
  {
    if s == "" {
      assert s + t == t;
    } else {
      assert (s + t)[1..] == s[1..] + t;
      EscapedConcat(s[1..], t);
    }
  }

  lemma EscapedNext(s: string, i: nat)
    requires i < |s|
    ensures Escaped(s[..i + 1]) == Escaped(s[..i]) + Piece(s[i])
  {
    assert s[..i + 1] == s[..i] + [s[i]];
    EscapedConcat(s[..i], [s[i]]);
  }

  /** prom_escape: writes the escape of a prefix of s at position `at`, and of the longest one
      that fits below last; a pair is never split and nothing else in the buffer changes. */
  method Escape(buf: array<char>, at: nat, last: nat, s: string) returns (p: nat, ghost taken: nat)
    requires at <= buf.Length && last <= buf.Length
    modifies buf
    ensures at <= p <= buf.Length && taken <= |s| && (p == at || p <= last)
    ensures buf[at..p] == Escaped(s[..taken])
    ensures taken < |s| ==> at + |Escaped(s[..taken + 1])| > last
    ensures forall k :: 0 <= k < at || p <= k < buf.Length ==> buf[k] == old(buf[k])
  {
    hide Escaped;
    p := at;
    var i := 0;
    NothingEscaped(s);
    while i < |s|
      invariant 0 <= i <= |s| && at <= p <= buf.Length && (p == at || p <= last)
      invariant buf[at..p] == Escaped(s[..i])
      invariant forall k :: 0 <= k < at || p <= k < buf.Length ==> buf[k] == old(buf[k])
    {
      var c := s[i];
      EscapedNext(s, i);
      if c == '\\' || c == '"' || c == '\n' {
        if last - p < 2 {
          return p, i;
        }
        PutPair(buf, at, p, if c == '\n' then 'n' else c);
        p := p + 2;
      } else if c >= ' ' {
        if p >= last {
          return p, i;
        }
        PutOne(buf, at, p, c);
        p := p + 1;
      }
      i := i + 1;
    }
    taken := |s|;
  }

  method PutOne(buf: array<char>, at: nat, p: nat, c: char)
    requires at <= p < buf.Length
    modifies buf
    ensures buf[at..p + 1] == old(buf[at..p]) + [c]
    ensures forall k :: 0 <= k < buf.Length && k != p ==> buf[k] == old(buf[k])
  {
    buf[p] := c;
  }

  method PutPair(buf: array<char>, at: nat, p: nat, c: char)
    requires at <= p < buf.Length - 1
    modifies buf
    ensures buf[at..p + 2] == old(buf[at..p]) + ['\\', c]
    ensures forall k :: 0 <= k < buf.Length && k != p && k != p + 1 ==> buf[k] == old(buf[k])
  {
    buf[p], buf[p + 1] := '\\', c;
  }

  lemma NothingEscaped(s: string)
    ensures Escaped(s[..0]) == ""
  {
  }

  // ---- reading a label back ----

  function Unescape(e: string): string {
    if e == "" then ""
    else if e[0] == '\\' && |e| > 1 then [if e[1] == 'n' then '\n' else e[1]] + Unescape(e[2..])
    else [e[0]] + Unescape(e[1..])
  }

  function Visible(s: string): string {
    if s == "" then "" else (if Dropped(s[0]) then "" else [s[0]]) + Visible(s[1..])
  }

  /** Unescaping gives the label back, less the control bytes that have no escape. */
  lemma {:induction false} UnescapeInverts(s: string)
    ensures Unescape(Escaped(s)) == Visible(s)
  {
    if s != "" {
      UnescapeInverts(s[1..]);
      UnescapePiece(s[0], Escaped(s[1..]));
    }
  }

  lemma UnescapePiece(c: char, rest: string)
    ensures Unescape(Piece(c) + rest) == (if Dropped(c) then "" else [c]) + Unescape(rest)
  {
    var e := Piece(c) + rest;
    if Special(c) {
      assert e[2..] == rest;
    } else if Dropped(c) {
      assert e == rest;
    } else {
      assert e[1..] == rest;
    }
  }

  /** A label value a scraper reads safely: printable, no bare quote or line break, and every
      backslash starts one of the three escapes. */
  predicate WellFormed(e: string) {
    e == "" ||
    if e[0] == '\\' then |e| > 1 && (e[1] == '\\' || e[1] == '"' || e[1] == 'n') && WellFormed(e[2..])
    else e[0] >= ' ' && e[0] != '"' && WellFormed(e[1..])
  }

  lemma {:induction false} EscapedIsWellFormed(s: string)
    ensures WellFormed(Escaped(s))
  {
    if s != "" {
      EscapedIsWellFormed(s[1..]);
      var e := Escaped(s);
      if Special(s[0]) {
        assert e[2..] == Escaped(s[1..]);
      } else if Dropped(s[0]) {
        assert e == Escaped(s[1..]);
      } else {
        assert e[1..] == Escaped(s[1..]);
      }
    }
  }

  /** Escaping reaches exactly the well-formed label values. */
  lemma WellFormedIff(e: string)
    ensures WellFormed(e) <==> Escaped(Unescape(e)) == e
  {
    if Escaped(Unescape(e)) == e {
      EscapedIsWellFormed(Unescape(e));
    } else if WellFormed(e) {
      EscapeInverts(e);
    }
  }

  lemma {:induction false} EscapeInverts(e: string)
    requires WellFormed(e)
    ensures Escaped(Unescape(e)) == e
  {
    if e != "" {
      var n := if e[0] == '\\' then 2 else 1;
      EscapeInverts(e[n..]);
      var u := Unescape(e);
      assert u[1..] == Unescape(e[n..]);
      assert e == Piece(u[0]) + e[n..];
    }
  }

  /** Two labels print alike exactly when they differ in dropped control bytes only. */
  lemma EscapedEqualIff(a: string, b: string)
    ensures Escaped(a) == Escaped(b) <==> Visible(a) == Visible(b)
  {
    UnescapeInverts(a);
    UnescapeInverts(b);
    EscapedVisible(a);
    EscapedVisible(b);
  }

  lemma {:induction false} EscapedVisible(s: string)
    ensures Escaped(Visible(s)) == Escaped(s)
  {
    if s != "" {
      EscapedVisible(s[1..]);
      if Dropped(s[0]) {
        assert Visible(s) == Visible(s[1..]) && Escaped(s) == Escaped(s[1..]);
      } else {
        assert Visible(s)[1..] == Visible(s[1..]);
      }
    }
  }
}

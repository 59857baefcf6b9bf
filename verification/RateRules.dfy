/** waf_rate_limit directives: parsing one directive into a rule, and picking the rule that
    applies to a verdict (heavybag_rate.c). */
module RateRules {
  import opened Wrappers
  import opened RateBucket

  /** A rule; `geo` is None for the default rule, else its packed country codes. */
  datatype Rule = Rule(params: Params, geo: Option<seq<nat>>)

  const INT_MAX: nat := 0x7fff_ffff_ffff_ffff
  const COUNT_MAX: nat := 4294967            // 0xffffffff / SCALE

  predicate IsDigit(c: char) {
    '0' <= c <= '9'
  }

  predicate AllDigits(s: string) {
    forall i :: 0 <= i < |s| ==> IsDigit(s[i])
  }

  /** The number a digit string denotes. */
  function Decimal(s: string): nat
    requires AllDigits(s)
  {
    if s == [] then 0 else 10 * Decimal(s[..|s| - 1]) + (s[|s| - 1] - '0') as nat
  }

  lemma {:induction false} DecimalGrows(s: string, i: nat)
    requires AllDigits(s) && i <= |s|
    ensures Decimal(s[..i]) <= Decimal(s)
    decreases |s| - i
  {
    if i < |s| {
      assert s[..i + 1][..i] == s[..i];
      DecimalGrows(s, i + 1);
    } else {
      assert s[..i] == s;
    }
  }

  /** ngx_atoi: None for an empty or non-numeric string, or one beyond the signed word. */
  method Atoi(s: string) returns (r: Option<nat>)
    ensures r.Some? <==> s != [] && AllDigits(s) && Decimal(s) <= INT_MAX
    ensures r.Some? ==> r.value == Decimal(s)
  {
    if |s| == 0 {
      return None;
    }
    var v, i := 0, 0;
    while i < |s|
      invariant 0 <= i <= |s| && AllDigits(s[..i])
      invariant v == Decimal(s[..i]) <= INT_MAX
    {
      assert s[..i + 1][..i] == s[..i];
      if !IsDigit(s[i]) {
        assert !AllDigits(s);
        return None;
      }
      var d := (s[i] - '0') as nat;
      if v > (INT_MAX - d) / 10 {
        if AllDigits(s) {
          DecimalGrows(s, i + 1);
        }
        return None;
      }
      v := 10 * v + d;
      i := i + 1;
    }
    assert s[..i] == s;
    return Some(v);
  }

  function Period(unit: char): nat {
    if unit == 's' then 1000 else if unit == 'm' then 60000 else if unit == 'h' then 3600000 else 0
  }

  /** "rate=" digits "r/" unit, with a count from 1 to COUNT_MAX. */
  ghost predicate IsRate(a: string, ds: string, unit: char) {
    && a == "rate=" + ds + "r/" + [unit]
    && ds != [] && AllDigits(ds) && 0 < Decimal(ds) <= COUNT_MAX && Period(unit) > 0
  }

  /** What a rate= token says: its count and period. */
  ghost function RateToken(a: string): Option<(nat, nat)> {
    if exists ds, unit :: IsRate(a, ds, unit) then
      var ds, unit :| IsRate(a, ds, unit); Some((Decimal(ds), Period(unit)))
    else None
  }

  method ParseRate(a: string) returns (r: Option<(nat, nat)>)
    requires "rate=" <= a
    ensures r == RateToken(a)
  {
    var p := 5;
    while p < |a| && IsDigit(a[p])
      invariant 5 <= p <= |a| && forall k :: 5 <= k < p ==> IsDigit(a[k])
    {
      p := p + 1;
    }
    forall ds, unit | IsRate(a, ds, unit) ensures ds == a[5..p] && unit == a[|a| - 1] && |a| == p + 3 {
      RateShape(a, ds, unit, p);
    }
    if p == 5 || |a| - p != 3 || a[p] != 'r' || a[p + 1] != '/' {
      return None;
    }
    var unit := a[p + 2];
    assert a == "rate=" + a[5..p] + "r/" + [unit];
    var num := Atoi(a[5..p]);
    if num.None? || num.value == 0 || Period(unit) == 0 || num.value > COUNT_MAX {
      return None;
    }
    assert IsRate(a, a[5..p], unit);
    return Some((num.value, Period(unit)));
  }

  /** The digits of a rate token are its maximal digit run. */
  lemma RateShape(a: string, ds: string, unit: char, p: nat)
    requires IsRate(a, ds, unit) && 5 <= p <= |a| && (p < |a| ==> !IsDigit(a[p]))
    requires forall k :: 5 <= k < p ==> IsDigit(a[k])
    ensures ds == a[5..p] && |a| == p + 3 && unit == a[|a| - 1]
  {
    assert a[5..5 + |ds|] == ds;
    assert a[5 + |ds|] == 'r';
    assert forall k :: 5 <= k < 5 + |ds| ==> a[k] == ds[k - 5];
  }

  /** One comma-separated list of two-letter codes, packed upper-case; None at the first entry
      that is not two characters long. A trailing comma is allowed. */
  function Countries(s: string): (r: Option<seq<nat>>)
    decreases |s|
  {
    if s == [] then Some([])
    else
      var n := CommaAt(s, 0);
      if n != 2 then None
      else
        var rest := Countries(s[if n < |s| then n + 1 else n..]);
        if rest.None? then None else Some([Pack2(s[0], s[1])] + rest.value)
  }

  function CommaAt(s: string, i: nat): (n: nat)
    requires i <= |s|
    ensures i <= n <= |s| && (n < |s| ==> s[n] == ',') && ',' !in s[i..n]
    decreases |s| - i
  {
    if i == |s| || s[i] == ',' then i else CommaAt(s, i + 1)
  }

  function ToUpper(c: char): char {
    if 'a' <= c <= 'z' then c - 'a' + 'A' else c
  }

  function Pack2(c0: char, c1: char): nat {
    (ToUpper(c0) as nat * 256 + ToUpper(c1) as nat) % 0x1_0000
  }

  /** `acc` followed by what is still to be parsed. */
  function Append(acc: seq<nat>, rest: Option<seq<nat>>): Option<seq<nat>> {
    if rest.None? then None else Some(acc + rest.value)
  }

  method ParseCountries(s: string) returns (r: Option<seq<nat>>)
    ensures r == Countries(s)
  {
    var p, acc := 0, [];
    assert s[0..] == s;
    AppendUnits(acc, Countries(s));
    while p < |s|
      invariant 0 <= p <= |s|
      invariant Countries(s) == Append(acc, Countries(s[p..]))
    {
      var ds := p;
      ghost var t := s[ds..];
      while p < |s| && s[p] != ','
        invariant ds <= p <= |s| && CommaAt(t, 0) == CommaAt(t, p - ds)
      {
        p := p + 1;
      }
      if p - ds != 2 {
        return None;
      }
      var code := Pack2(s[ds], s[ds + 1]);
      if p < |s| {
        p := p + 1;
      }
      assert t[p - ds..] == s[p..];
      assert Countries(t) == Append([code], Countries(s[p..]));
      AppendTwice(acc, code, Countries(s[p..]));
      acc := acc + [code];
    }
    assert s[p..] == [];
    AppendUnits(acc, None);
    return Some(acc);
  }

  lemma AppendUnits(acc: seq<nat>, rest: Option<seq<nat>>)
    ensures Append([], rest) == rest && Append(acc, Some([])) == Some(acc)
  {
    assert acc + [] == acc;
    if rest.Some? {
      assert [] + rest.value == rest.value;
    }
  }

  lemma AppendTwice(acc: seq<nat>, code: nat, rest: Option<seq<nat>>)
    ensures Append(acc, Append([code], rest)) == Append(acc + [code], rest)
  {
    if rest.Some? {
      assert acc + ([code] + rest.value) == acc + [code] + rest.value;
    }
  }

  predicate HasDefault(rules: seq<Rule>) {
    exists i :: 0 <= i < |rules| && rules[i].geo.None?
  }

  predicate AtMostOneDefault(rules: seq<Rule>) {
    forall i, j :: 0 <= i < |rules| && 0 <= j < |rules| && rules[i].geo.None? && rules[j].geo.None? ==> i == j
  }

  /** What the parameters read so far amount to; 0 and None mean not given. */
  datatype Draft = Draft(rateFp: nat, periodMs: nat, burstFp: nat, geo: Option<seq<nat>>)

  predicate IsCount(s: string) {
    s != [] && AllDigits(s) && 0 < Decimal(s) <= COUNT_MAX
  }

  ghost function Absorb(d: Draft, a: string): Option<Draft> {
    if |a| > 5 && "rate=" <= a then
      match RateToken(a)
      case None => None
      case Some(r) => Some(d.(rateFp := r.0 * SCALE, periodMs := r.1))
    else if |a| > 6 && "burst=" <= a then
      if IsCount(a[6..]) then Some(d.(burstFp := Decimal(a[6..]) * SCALE)) else None
    else if |a| > 8 && "for_geo=" <= a then
      match Countries(a[8..])
      case None => None
      case Some(ccs) => Some(d.(geo := Some((if d.geo.Some? then d.geo.value else []) + ccs)))
    else None
  }

  ghost function AbsorbAll(d: Draft, args: seq<string>): Option<Draft>
    decreases |args|
  {
    if args == [] then Some(d)
    else
      match Absorb(d, args[0])
      case None => None
      case Some(d') => AbsorbAll(d', args[1..])
  }

  function RuleOf(d: Draft): Rule {
    Rule(Params(d.rateFp, d.periodMs, if d.burstFp == 0 then d.rateFp else d.burstFp), d.geo)
  }

  /** The rule set after one directive, or None when the configuration is refused. */
  ghost function AddDirective(rules: seq<Rule>, args: seq<string>): Option<seq<Rule>> {
    match AbsorbAll(Draft(0, 0, 0, None), args)
    case None => None
    case Some(d) =>
      if d.rateFp == 0 || (d.geo.None? && HasDefault(rules)) then None else Some(rules + [RuleOf(d)])
  }

  method AbsorbToken(d: Draft, a: string) returns (r: Option<Draft>)
    ensures r == Absorb(d, a)
  {
    if |a| > 5 && "rate=" <= a {
      var rate := ParseRate(a);
      return if rate.None? then None else Some(d.(rateFp := rate.value.0 * SCALE, periodMs := rate.value.1));
    }
    if |a| > 6 && "burst=" <= a {
      var num := Atoi(a[6..]);
      if num.None? || num.value == 0 || num.value > COUNT_MAX {
        return None;
      }
      return Some(d.(burstFp := num.value * SCALE));
    }
    if |a| > 8 && "for_geo=" <= a {
      var ccs := ParseCountries(a[8..]);
      return if ccs.None? then None
             else Some(d.(geo := Some((if d.geo.Some? then d.geo.value else []) + ccs.value)));
    }
    return None;
  }

  /** rate_rule_add on the directive's arguments after its name. */
  method RuleAdd(rules: seq<Rule>, args: seq<string>) returns (r: Option<seq<Rule>>)
    ensures r == AddDirective(rules, args)
  {
    hide Absorb;
    var d := Draft(0, 0, 0, None);
    var i := 0;
    assert args[0..] == args;
    while i < |args|
      invariant 0 <= i <= |args|
      invariant AbsorbAll(Draft(0, 0, 0, None), args) == AbsorbAll(d, args[i..])
    {
      var next := AbsorbToken(d, args[i]);
      if next.None? {
        return None;
      }
      d := next.value;
      i := i + 1;
    }
    if d.rateFp == 0 {
      return None;
    }
    if d.geo.None? {
      var k := 0;
      while k < |rules|
        invariant 0 <= k <= |rules| && forall j :: 0 <= j < k ==> rules[j].geo.Some?
      {
        if rules[k].geo.None? {
          return None;
        }
        k := k + 1;
      }
    }
    return Some(rules + [RuleOf(d)]);
  }

  /** What every draft keeps: a rate that was given is in range, and so is a burst. */
  predicate InRange(d: Draft) {
    && d.rateFp < WRAP && d.rateFp % SCALE == 0 && d.burstFp < WRAP && d.burstFp % SCALE == 0
    && (d.rateFp > 0 ==> d.periodMs in {1000, 60000, 3600000})
  }

  lemma {:induction false} DraftsStayInRange(d: Draft, args: seq<string>)
    requires InRange(d)
    ensures AbsorbAll(d, args).Some? ==> InRange(AbsorbAll(d, args).value)
    decreases |args|
  {
    hide Absorb, InRange;
    if args != [] && Absorb(d, args[0]).Some? {
      AbsorbStaysInRange(d, args[0]);
      DraftsStayInRange(Absorb(d, args[0]).value, args[1..]);
    }
  }

  lemma AbsorbStaysInRange(d: Draft, a: string)
    requires InRange(d) && Absorb(d, a).Some?
    ensures InRange(Absorb(d, a).value)
  {
    hide Countries;
  }

  /** A configuration: the directives of one location or server, in order. */
  ghost function Configure(directives: seq<seq<string>>): Option<seq<Rule>> {
    if directives == [] then Some([])
    else
      match Configure(directives[..|directives| - 1])
      case None => None
      case Some(rules) => AddDirective(rules, directives[|directives| - 1])
  }

  /** Every accepted directive sequence leaves rules whose arithmetic cannot overflow, and at
      most one default among them. */
  lemma {:induction false} AcceptedConfiguration(directives: seq<seq<string>>)
    requires Configure(directives).Some?
    ensures var rules := Configure(directives).value;
            && |rules| == |directives| && AtMostOneDefault(rules)
            && forall i :: 0 <= i < |rules| ==> Accepted(rules[i].params)
  {
    if directives != [] {
      AcceptedConfiguration(directives[..|directives| - 1]);
      DraftsStayInRange(Draft(0, 0, 0, None), directives[|directives| - 1]);
    }
  }

  /** The rule applies to a client of country cc16 (0: no country known). */
  predicate ForGeo(r: Rule, cc16: nat) {
    cc16 != 0 && r.geo.Some? && cc16 in r.geo.value
  }

  /** rate_rule_select: the index of the first for_geo rule naming the country, else of the last
      default rule. */
  method RuleSelect(rules: seq<Rule>, cc16: nat) returns (r: Option<nat>)
    ensures r == Select(rules, cc16)
  {
    var deflt := None;
    var i := 0;
    while i < |rules|
      invariant 0 <= i <= |rules|
      invariant forall j :: 0 <= j < i ==> !ForGeo(rules[j], cc16)
      invariant deflt == LastDefault(rules[..i])
    {
      assert rules[..i + 1][..i] == rules[..i];
      if rules[i].geo.None? {
        deflt := Some(i);
      } else if cc16 != 0 && cc16 in rules[i].geo.value {
        FirstIs(rules, cc16, 0, i);
        return Some(i);
      }
      i := i + 1;
    }
    assert rules[..i] == rules;
    FirstIs(rules, cc16, 0, |rules|);
    return deflt;
  }

  function LastDefault(rules: seq<Rule>): Option<nat> {
    if rules == [] then None
    else if rules[|rules| - 1].geo.None? then Some(|rules| - 1)
    else LastDefault(rules[..|rules| - 1])
  }

  function FirstForGeo(rules: seq<Rule>, cc16: nat, i: nat): (n: nat)
    requires i <= |rules|
    ensures i <= n <= |rules|
    decreases |rules| - i
  {
    if i == |rules| || ForGeo(rules[i], cc16) then i else FirstForGeo(rules, cc16, i + 1)
  }

  lemma {:induction false} FirstIs(rules: seq<Rule>, cc16: nat, i: nat, n: nat)
    requires i <= n <= |rules| && (n < |rules| ==> ForGeo(rules[n], cc16))
    requires forall j :: i <= j < n ==> !ForGeo(rules[j], cc16)
    ensures FirstForGeo(rules, cc16, i) == n
    decreases n - i
  {
    if i < n {
      FirstIs(rules, cc16, i + 1, n);
    }
  }

  function Select(rules: seq<Rule>, cc16: nat): Option<nat> {
    var n := FirstForGeo(rules, cc16, 0);
    if n < |rules| then Some(n) else LastDefault(rules)
  }

  /** In an accepted configuration the choice is exactly: the first rule naming the country if
      there is one, else the one default rule, else none. */
  lemma SelectMeans(directives: seq<seq<string>>, cc16: nat, i: nat)
    requires Configure(directives).Some? && i < |Configure(directives).value|
    ensures var rules := Configure(directives).value;
            Select(rules, cc16) == Some(i) <==>
              if cc16 != 0 && exists j :: 0 <= j < |rules| && rules[j].geo.Some? && cc16 in rules[j].geo.value then
                && rules[i].geo.Some? && cc16 in rules[i].geo.value
                && forall j :: 0 <= j < i ==> rules[j].geo.None? || cc16 !in rules[j].geo.value
              else rules[i].geo.None?
  {
    var rules := Configure(directives).value;
    AcceptedConfiguration(directives);
    FirstMeans(rules, cc16, 0);
    LastDefaultMeans(rules);
  }

  lemma {:induction false} FirstMeans(rules: seq<Rule>, cc16: nat, i: nat)
    requires i <= |rules|
    ensures var n := FirstForGeo(rules, cc16, i);
            (n < |rules| ==> ForGeo(rules[n], cc16)) && forall j :: i <= j < n ==> !ForGeo(rules[j], cc16)
    decreases |rules| - i
  {
    if i < |rules| && !ForGeo(rules[i], cc16) {
      FirstMeans(rules, cc16, i + 1);
    }
  }

  lemma {:induction false} LastDefaultMeans(rules: seq<Rule>)
    ensures var d := LastDefault(rules);
            (d.Some? ==> d.value < |rules| && rules[d.value].geo.None?) && (d.None? ==> !HasDefault(rules))
  {
    if rules != [] && rules[|rules| - 1].geo.Some? {
      LastDefaultMeans(rules[..|rules| - 1]);
    }
  }
}

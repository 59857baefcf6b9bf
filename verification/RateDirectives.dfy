/** What a waf_rate_limit directive means, in the words an administrator writes: tokens per second, minute
    or hour, a burst, and a list of countries. */
module RateDirectives {
  import opened Wrappers
  import opened RateBucket
  import opened RateRules

  /** A count a directive may give: a decimal number from 1 to 4294967. */
  predicate Countable(ds: string) {
    ds != "" && AllDigits(ds) && 0 < Decimal(ds) <= 4294967
  }

  function UnitMs(unit: char): nat {
    match unit
    case 's' => 1000
    case 'm' => 60 * 1000
    case 'h' => 60 * 60 * 1000
    case _ => 0
  }

  /** A decimal number read digit by digit, the last one counting least. */
  lemma DecimalMeans(ds: string, d: char)
    requires AllDigits(ds) && '0' <= d <= '9'
    ensures AllDigits(ds + [d]) && Decimal(ds + [d]) == 10 * Decimal(ds) + (d as int - '0' as int) && Decimal("") == 0
  {
    assert (ds + [d])[..|ds|] == ds;
  }

  // ---- one argument ----

  function RateArg(ds: string, unit: char): string {
    "rate=" + ds + "r/" + [unit]
  }

  /** rate=Nr/u stands for N tokens a unit, and no other unit or count is taken. */
  lemma RateArgMeans(d: Draft, ds: string, unit: char)
    ensures Absorb(d, RateArg(ds, unit))
            == if Countable(ds) && unit in {'s', 'm', 'h'} then Some(d.(rateFp := Decimal(ds) * 1000, periodMs := UnitMs(unit))) else None
  {
    hide Countries, Decimal;
    var a := RateArg(ds, unit);
    assert "rate=" <= a && |a| > 5;
    forall ds', unit' | IsRate(a, ds', unit') ensures ds' == ds && unit' == unit {
      assert a[5..|a| - 3] == ds' && a[5..|a| - 3] == ds && a[|a| - 1] == unit' && a[|a| - 1] == unit;
    }
    if Countable(ds) && unit in {'s', 'm', 'h'} {
      assert IsRate(a, ds, unit);
    }
  }

  /** Over one second, minute or hour a rate=Nr/s, /m or /h rule earns exactly N tokens. */
  lemma RateEarns(d: Draft, ds: string, unit: char)
    requires Absorb(d, RateArg(ds, unit)).Some?
    ensures Countable(ds) && UnitMs(unit) > 0
    ensures var p := RuleOf(Absorb(d, RateArg(ds, unit)).value).params;
            p.periodMs > 0 && Refill(UnitMs(unit), p) == Decimal(ds) * SCALE
  {
    hide Decimal, Absorb;
    RateArgMeans(d, ds, unit);
    EarnsAll(UnitMs(unit), Decimal(ds) * 1000);
  }

  lemma EarnsAll(ms: nat, fp: nat)
    requires ms in {1000, 60 * 1000, 60 * 60 * 1000}
    ensures ms * fp / ms == fp
  {
  }

  lemma BurstArgMeans(d: Draft, ds: string)
    ensures Absorb(d, "burst=" + ds) == if Countable(ds) then Some(d.(burstFp := Decimal(ds) * 1000)) else None
  {
    hide Countries, Decimal, RateToken;
    var a := "burst=" + ds;
    assert a[6..] == ds && a[0] == 'b';
  }

  // ---- countries ----

  /** A country as written: two characters, neither a comma. */
  predicate Code(c: string) {
    |c| == 2 && ',' !in c
  }

  function Upper(c: char): nat {
    if 'a' <= c <= 'z' then c as nat - 32 else c as nat
  }

  /** The code a verdict carries: two bytes, the first one high. */
  function CountryCode(c: string): nat
    requires Code(c)
  {
    Upper(c[0]) * 256 + Upper(c[1])
  }

  predicate Codes(cs: seq<string>) {
    forall i :: 0 <= i < |cs| ==> Code(cs[i])
  }

  function Written(cs: seq<string>): string {
    if cs == [] then "" else if |cs| == 1 then cs[0] else cs[0] + "," + Written(cs[1..])
  }

  predicate Bytewise(cs: seq<string>) {
    forall i, j :: 0 <= i < |cs| && 0 <= j < |cs[i]| ==> cs[i][j] < 256 as char
  }

  function CountryCodes(cs: seq<string>): (r: seq<nat>)
    requires Codes(cs)
    ensures |r| == |cs| && forall i :: 0 <= i < |r| ==> r[i] == CountryCode(cs[i])
  {
    seq(|cs|, i requires 0 <= i < |cs| => CountryCode(cs[i]))
  }

  /** The text is these countries, commas between them, and at most a comma after the last. */
  predicate IsList(s: string, cs: seq<string>) {
    Codes(cs) && (s == Written(cs) || (cs != [] && s == Written(cs) + ","))
  }

  lemma CommaIs(s: string, i: nat, n: nat)
    requires i <= n <= |s| && (n < |s| ==> s[n] == ',') && forall j :: i <= j < n ==> s[j] != ','
    ensures CommaAt(s, i) == n
    decreases n - i
  {
    if i < n {
      CommaIs(s, i + 1, n);
    }
  }

  lemma PackIs(c: string)
    requires Code(c) && c[0] < 256 as char && c[1] < 256 as char
    ensures Pack2(c[0], c[1]) == CountryCode(c)
  {
    assert ToUpper(c[0]) as nat == Upper(c[0]) && ToUpper(c[1]) as nat == Upper(c[1]);
  }

  /** What follows the first country of a list. */
  function Tail(s: string): string {
    if |s| > 2 then s[3..] else ""
  }

  lemma ListSplits(s: string, cs: seq<string>)
    requires IsList(s, cs) && cs != []
    ensures Codes(cs) && |s| >= 2 && s[..2] == cs[0] && (|s| > 2 ==> s[2] == ',') && IsList(Tail(s), cs[1..])
  {
    assert Code(cs[0]);
    assert |cs| > 1 ==> s == cs[0] + "," + Written(cs[1..]) || s == cs[0] + "," + Written(cs[1..]) + ",";
  }

  lemma ListGrows(s: string, rest: seq<string>)
    requires |s| >= 2 && Code(s[..2]) && (|s| > 2 ==> s[2] == ',') && IsList(Tail(s), rest)
    ensures IsList(s, [s[..2]] + rest)
  {
    var cs := [s[..2]] + rest;
    assert cs[1..] == rest;
    assert |s| > 2 ==> s == s[..2] + "," + Tail(s);
    assert |s| == 2 ==> rest == [];
  }

  /** A list of countries reads as their codes, in order. */
  lemma {:induction false} ListReads(s: string, cs: seq<string>)
    requires IsList(s, cs) && Bytewise(cs)
    ensures Countries(s) == Some(CountryCodes(cs))
    decreases |cs|
  {
    hide Pack2, CountryCode, IsList, Written;
    if cs == [] {
      EmptyList(s);
    } else {
      ListSplits(s, cs);
      assert Code(cs[0]) && s[0] == s[..2][0] == cs[0][0] && s[1] == s[..2][1] == cs[0][1];
      CommaIs(s, 0, 2);
      PackIs(cs[0]);
      ListReads(Tail(s), cs[1..]);
      assert CountryCodes(cs) == [CountryCode(cs[0])] + CountryCodes(cs[1..]);
    }
  }

  lemma EmptyList(s: string)
    ensures IsList(s, []) <==> s == ""
  {
  }

  /** Nothing but such a list is taken. */
  lemma {:induction false} OnlyListsRead(s: string) returns (cs: seq<string>)
    requires Countries(s).Some?
    ensures IsList(s, cs)
    decreases |s|
  {
    hide Pack2, IsList;
    if s == "" {
      cs := [];
      EmptyList(s);
    } else {
      assert CommaAt(s, 0) == 2;
      assert s[0..2] == s[..2];
      var rest := OnlyListsRead(Tail(s));
      cs := [s[..2]] + rest;
      ListGrows(s, rest);
    }
  }

  /** for_geo= takes exactly a non-empty list of countries and adds their codes, in order. */
  lemma GeoArgMeans(d: Draft, s: string)
    requires forall i :: 0 <= i < |s| ==> s[i] < 256 as char
    ensures Absorb(d, "for_geo=" + s).Some? <==> s != "" && exists cs :: IsList(s, cs)
    ensures forall cs :: s != "" && IsList(s, cs) ==>
              Absorb(d, "for_geo=" + s) == Some(d.(geo := Some((if d.geo.Some? then d.geo.value else []) + CountryCodes(cs))))
  {
    hide Countries, RateToken, Written, Code;
    var a := "for_geo=" + s;
    assert a[8..] == s && a[0] == 'f';
    forall cs | s != "" && IsList(s, cs) ensures Countries(s) == Some(CountryCodes(cs)) {
      WrittenBytes(s, cs);
      ListReads(s, cs);
    }
    if Countries(s).Some? {
      var cs := OnlyListsRead(s);
    }
  }

  lemma {:induction false} WrittenBytes(s: string, cs: seq<string>)
    requires IsList(s, cs) && forall i :: 0 <= i < |s| ==> s[i] < 256 as char
    ensures Bytewise(cs)
    decreases |cs|
  {
    hide IsList;
    if cs != [] {
      ListSplits(s, cs);
      assert forall j :: 0 <= j < 2 ==> cs[0][j] == s[..2][j];
      WrittenBytes(Tail(s), cs[1..]);
      assert cs == [cs[0]] + cs[1..];
    }
  }

  /** No other argument is taken. */
  lemma OtherArgs(d: Draft, a: string)
    ensures Absorb(d, a).Some? ==>
              || (exists ds, unit :: Countable(ds) && a == RateArg(ds, unit))
              || (exists ds :: Countable(ds) && a == "burst=" + ds)
              || (exists s :: s != "" && a == "for_geo=" + s)
  {
    hide Countries, Decimal;
    if Absorb(d, a).Some? {
      if |a| > 5 && "rate=" <= a {
        var ds, unit :| IsRate(a, ds, unit);
        assert Countable(ds) && a == RateArg(ds, unit);
      } else if |a| > 6 && "burst=" <= a {
        assert Countable(a[6..]) && a == "burst=" + a[6..];
      } else {
        assert a[8..] != "" && a == "for_geo=" + a[8..];
      }
    }
  }

  // ---- the directive ----

  ghost predicate IsRateArg(a: string) {
    exists ds, unit :: Countable(ds) && unit in {'s', 'm', 'h'} && a == RateArg(ds, unit)
  }

  ghost predicate IsBurstArg(a: string) {
    exists ds :: Countable(ds) && a == "burst=" + ds
  }

  ghost predicate IsGeoArg(a: string) {
    exists s, cs :: s != "" && IsList(s, cs) && a == "for_geo=" + s
  }

  predicate Narrow(a: string) {
    forall i :: 0 <= i < |a| ==> a[i] < 256 as char
  }

  ghost predicate AllTaken(args: seq<string>) {
    forall i :: 0 <= i < |args| ==> IsRateArg(args[i]) || IsBurstArg(args[i]) || IsGeoArg(args[i])
  }

  lemma RateKind(d: Draft, a: string)
    requires "rate=" <= a
    ensures Absorb(d, a).Some? <==> IsRateArg(a)
    ensures Absorb(d, a).Some? ==>
              var r := Absorb(d, a).value; r.rateFp > 0 && r == d.(rateFp := r.rateFp, periodMs := r.periodMs)
  {
    hide Absorb, Decimal;
    OtherArgs(d, a);
    assert a[0] == 'r';
    if ds, unit :| Countable(ds) && a == RateArg(ds, unit) {
      RateArgMeans(d, ds, unit);
      if ds', unit' :| Countable(ds') && unit' in {'s', 'm', 'h'} && a == RateArg(ds', unit') {
        RateArgMeans(d, ds', unit');
      }
    }
  }

  lemma BurstKind(d: Draft, a: string)
    requires "burst=" <= a
    ensures Absorb(d, a).Some? <==> IsBurstArg(a)
    ensures Absorb(d, a).Some? ==> var r := Absorb(d, a).value; r.burstFp > 0 && r == d.(burstFp := r.burstFp)
  {
    hide Absorb, Decimal;
    OtherArgs(d, a);
    assert a[0] == 'b';
    if ds :| Countable(ds) && a == "burst=" + ds {
      BurstArgMeans(d, ds);
    }
  }

  lemma GeoKind(d: Draft, a: string)
    requires "for_geo=" <= a && Narrow(a)
    ensures Absorb(d, a).Some? <==> IsGeoArg(a)
    ensures Absorb(d, a).Some? ==> var r := Absorb(d, a).value; r.geo.Some? && r == d.(geo := r.geo)
  {
    hide Absorb, Decimal, IsList;
    OtherArgs(d, a);
    assert a[0] == 'f';
    var s := a[8..];
    assert a == "for_geo=" + s;
    GeoArgMeans(d, s);
    forall t | a == "for_geo=" + t ensures t == s {
      assert t == a[8..];
    }
  }

  /** The arguments a directive takes, and which part of the rule each sets. */
  lemma ArgMeans(d: Draft, a: string)
    requires Narrow(a)
    ensures var r := Absorb(d, a);
            && (r.Some? <==> IsRateArg(a) || IsBurstArg(a) || IsGeoArg(a))
            && (r.Some? && IsRateArg(a) ==> r.value.rateFp > 0)
            && (r.Some? && !IsRateArg(a) ==> r.value.rateFp == d.rateFp && r.value.periodMs == d.periodMs)
            && (r.Some? && IsBurstArg(a) ==> r.value.burstFp > 0)
            && (r.Some? && !IsBurstArg(a) ==> r.value.burstFp == d.burstFp)
            && (r.Some? && IsGeoArg(a) ==> r.value.geo.Some?)
            && (r.Some? && !IsGeoArg(a) ==> r.value.geo == d.geo)
  {
    hide Absorb, Narrow, IsRateArg, IsBurstArg, IsGeoArg;
    Starts(a);
    OtherStarts(d, a);
    if "rate=" <= a {
      RateKind(d, a);
    } else if "burst=" <= a {
      BurstKind(d, a);
    } else if "for_geo=" <= a {
      GeoKind(d, a);
    }
  }

  lemma Starts(a: string)
    ensures IsRateArg(a) ==> "rate=" <= a
    ensures IsBurstArg(a) ==> "burst=" <= a
    ensures IsGeoArg(a) ==> "for_geo=" <= a
    ensures !("rate=" <= a && "burst=" <= a) && !("rate=" <= a && "for_geo=" <= a) && !("burst=" <= a && "for_geo=" <= a)
  {
    hide Countable, IsList;
    assert "rate=" <= a ==> a[0] == 'r';
    assert "burst=" <= a ==> a[0] == 'b';
    assert "for_geo=" <= a ==> a[0] == 'f';
  }

  lemma OtherStarts(d: Draft, a: string)
    ensures Absorb(d, a).Some? ==> "rate=" <= a || "burst=" <= a || "for_geo=" <= a
  {
    hide RateToken, Countries;
  }

  /** The draft after all arguments: taken exactly when each is, a part set exactly when some argument
      sets it. */
  lemma {:induction false} DraftMeans(d: Draft, args: seq<string>)
    requires forall i :: 0 <= i < |args| ==> Narrow(args[i])
    ensures var r := AbsorbAll(d, args);
            && (r.Some? <==> AllTaken(args))
            && (r.Some? ==> (r.value.rateFp > 0 <==> d.rateFp > 0 || exists i :: 0 <= i < |args| && IsRateArg(args[i])))
            && (r.Some? ==> (r.value.burstFp > 0 <==> d.burstFp > 0 || exists i :: 0 <= i < |args| && IsBurstArg(args[i])))
            && (r.Some? ==> (r.value.geo.Some? <==> d.geo.Some? || exists i :: 0 <= i < |args| && IsGeoArg(args[i])))
    decreases |args|
  {
    hide Absorb, Narrow, IsRateArg, IsBurstArg, IsGeoArg;
    if args != [] {
      ArgMeans(d, args[0]);
      assert args == [args[0]] + args[1..];
      if Absorb(d, args[0]).Some? {
        DraftMeans(Absorb(d, args[0]).value, args[1..]);
      }
    }
  }

  /** Arguments after which none sets the rate leave it alone; likewise the burst and the countries. */
  lemma {:induction false} UntouchedKept(d: Draft, args: seq<string>)
    requires AbsorbAll(d, args).Some? && forall i :: 0 <= i < |args| ==> Narrow(args[i])
    ensures var r := AbsorbAll(d, args).value;
            && ((forall i :: 0 <= i < |args| ==> !IsRateArg(args[i])) ==> r.rateFp == d.rateFp && r.periodMs == d.periodMs)
            && ((forall i :: 0 <= i < |args| ==> !IsBurstArg(args[i])) ==> r.burstFp == d.burstFp)
            && ((forall i :: 0 <= i < |args| ==> !IsGeoArg(args[i])) ==> r.geo == d.geo)
    decreases |args|
  {
    hide Absorb, Narrow, IsRateArg, IsBurstArg, IsGeoArg;
    if args != [] {
      ArgMeans(d, args[0]);
      UntouchedKept(Absorb(d, args[0]).value, args[1..]);
      assert args == [args[0]] + args[1..];
    }
  }

  lemma {:induction false} AbsorbConcat(d: Draft, s: seq<string>, t: seq<string>)
    ensures AbsorbAll(d, s + t) == if AbsorbAll(d, s).None? then None else AbsorbAll(AbsorbAll(d, s).value, t)
    decreases |s|
  {
    hide Absorb;
    if s == [] {
      assert s + t == t;
    } else {
      assert (s + t)[1..] == s[1..] + t;
      if Absorb(d, s[0]).Some? {
        AbsorbConcat(Absorb(d, s[0]).value, s[1..], t);
      }
    }
  }

  /** A directive is accepted exactly when each argument is one of the three kinds, one gives a rate, and it
      names countries or is the first rule that does not; it then adds one rule at the end. */
  lemma DirectiveIff(rules: seq<Rule>, args: seq<string>)
    requires forall i :: 0 <= i < |args| ==> Narrow(args[i])
    ensures var geo := exists i :: 0 <= i < |args| && IsGeoArg(args[i]);
            var r := AddDirective(rules, args);
            && (r.Some? <==> AllTaken(args) && (exists i :: 0 <= i < |args| && IsRateArg(args[i]))
                             && (geo || forall k :: 0 <= k < |rules| ==> rules[k].geo.Some?))
            && (r.Some? ==> |r.value| == |rules| + 1 && rules <= r.value && (r.value[|rules|].geo.Some? <==> geo))
  {
    hide AbsorbAll, Narrow, IsRateArg, IsBurstArg, IsGeoArg, AllTaken;
    DraftMeans(Draft(0, 0, 0, None), args);
  }

  /** The last rate given is the rule's: it earns that many tokens in that unit. */
  lemma RateIsLast(rules: seq<Rule>, before: seq<string>, ds: string, unit: char, after: seq<string>)
    requires forall i :: 0 <= i < |after| ==> Narrow(after[i]) && !IsRateArg(after[i])
    requires AddDirective(rules, before + [RateArg(ds, unit)] + after).Some?
    ensures var r := AddDirective(rules, before + [RateArg(ds, unit)] + after).value;
            && |r| == |rules| + 1 && Countable(ds) && UnitMs(unit) > 0
            && r[|rules|].params.periodMs > 0 && Refill(UnitMs(unit), r[|rules|].params) == Decimal(ds) * SCALE
  {
    hide Absorb, Narrow, IsRateArg, IsBurstArg, IsGeoArg, RateArg, Decimal;
    var d := AfterArg(before, RateArg(ds, unit), after);
    RateArgMeans(d, ds, unit);
    UntouchedKept(Absorb(d, RateArg(ds, unit)).value, after);
    EarnsAll(UnitMs(unit), Decimal(ds) * 1000);
  }

  /** The draft before one of the arguments. */
  lemma AfterArg(before: seq<string>, a: string, after: seq<string>) returns (d: Draft)
    requires AbsorbAll(Draft(0, 0, 0, None), before + [a] + after).Some?
    ensures AbsorbAll(Draft(0, 0, 0, None), before) == Some(d) && Absorb(d, a).Some?
    ensures AbsorbAll(Draft(0, 0, 0, None), before + [a] + after) == AbsorbAll(Absorb(d, a).value, after)
  {
    hide Absorb;
    var empty := Draft(0, 0, 0, None);
    assert before + [a] + after == before + ([a] + after);
    AbsorbConcat(empty, before, [a] + after);
    d := AbsorbAll(empty, before).value;
    AbsorbConcat(d, [a], after);
    assert [a][1..] == [];
  }

  /** The last burst given is the rule's; without one it is the rate. */
  lemma BurstIsLast(rules: seq<Rule>, before: seq<string>, ds: string, after: seq<string>)
    requires forall i :: 0 <= i < |after| ==> Narrow(after[i]) && !IsBurstArg(after[i])
    requires AddDirective(rules, before + ["burst=" + ds] + after).Some?
    ensures var r := AddDirective(rules, before + ["burst=" + ds] + after).value;
            |r| == |rules| + 1 && Countable(ds) && r[|rules|].params.burstFp == Decimal(ds) * SCALE
  {
    hide Absorb, Narrow, IsRateArg, IsBurstArg, IsGeoArg, Decimal;
    var d := AfterArg(before, "burst=" + ds, after);
    BurstArgMeans(d, ds);
    UntouchedKept(Absorb(d, "burst=" + ds).value, after);
  }

  lemma BurstDefaults(rules: seq<Rule>, args: seq<string>)
    requires forall i :: 0 <= i < |args| ==> Narrow(args[i]) && !IsBurstArg(args[i])
    requires AddDirective(rules, args).Some?
    ensures var r := AddDirective(rules, args).value;
            |r| == |rules| + 1 && r[|rules|].params.burstFp == r[|rules|].params.rateFp
  {
    hide AbsorbAll, Narrow, IsRateArg, IsBurstArg, IsGeoArg;
    UntouchedKept(Draft(0, 0, 0, None), args);
  }

  /** The countries of all for_geo arguments, in order. */
  lemma CountriesAddUp(rules: seq<Rule>, before: seq<string>, s: string, cs: seq<string>, after: seq<string>)
    requires forall i :: 0 <= i < |after| ==> Narrow(after[i]) && !IsGeoArg(after[i])
    requires Narrow(s) && IsList(s, cs) && AddDirective(rules, before + ["for_geo=" + s] + after).Some?
    ensures var r := AddDirective(rules, before + ["for_geo=" + s] + after).value;
            var d := AbsorbAll(Draft(0, 0, 0, None), before);
            && |r| == |rules| + 1 && d.Some?
            && r[|rules|].geo == Some((if d.value.geo.Some? then d.value.geo.value else []) + CountryCodes(cs))
  {
    hide Absorb, IsRateArg, IsBurstArg, IsGeoArg, IsList;
    var d := AfterArg(before, "for_geo=" + s, after);
    GeoArgMeans(d, s);
    if s == "" {
      OtherArgs(d, "for_geo=");
    }
    UntouchedKept(Absorb(d, "for_geo=" + s).value, after);
  }
}

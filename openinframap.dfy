/**
 * The OpenInfraMap Canada scraper: reading a plant's output in MW, guessing
 * its province and normalising its fuel from keywords, deriving the
 * `openinframap_id` slug from its name, and the loop that skips small plants
 * and upserts the rest into `canada_power_plants`.
 */
module OpenInfraMap {
  import opened Wrappers
  import opened Text

  // ---------------------------------------------------------------------
  // parseOutputMW: /([0-9,]+)\s*MW/
  // ---------------------------------------------------------------------

  predicate IsAmountChar(c: char) { IsDigit(c) || c == ',' }

  /** The length of the run of digits and commas starting at `i`. */
  function AmountRun(s: string, i: nat): nat
    requires i <= |s|
  {
    RunLength(s[i..], IsAmountChar)
  }

  /**
   * The pattern matches at `i`: a non-empty run of digits and commas, then
   * white space, then `MW`. Backtracking cannot help: a shorter run or less
   * white space leaves a digit, comma or space where `M` must be.
   */
  predicate MwAt(s: string, i: nat) {
    i < |s| && AmountRun(s, i) >= 1 && StartsWith(TrimStartBy(s[i + AmountRun(s, i)..], IsJsSpace), "MW")
  }

  /** The least position in `i..n` that satisfies `p`, scanning upwards. */
  function FirstFrom(p: nat -> bool, n: nat, i: nat): (r: Option<nat>)
    decreases n - i
    ensures r.Some? ==> i <= r.value < n
  {
    if i >= n then None else if p(i) then Some(i) else FirstFrom(p, n, i + 1)
  }

  /** The scan finds a position exactly when one satisfies `p`, and then the least. */
  lemma {:induction false} FirstFromLeast(p: nat -> bool, n: nat, i: nat)
    decreases n - i
    ensures FirstFrom(p, n, i).None? <==> forall j :: i <= j < n ==> !p(j)
    ensures FirstFrom(p, n, i).Some? ==>
              p(FirstFrom(p, n, i).value) && forall j :: i <= j < FirstFrom(p, n, i).value ==> !p(j)
  {
    if i < n && !p(i) {
      FirstFromLeast(p, n, i + 1);
    }
  }

  /** The leftmost position from `i` on where the pattern matches. */
  function FirstMwMatch(s: string, i: nat): Option<nat>
  {
    FirstFrom((j: nat) => MwAt(s, j), |s|, i)
  }

  /** The search finds a match exactly when there is one, and then the leftmost. */
  lemma FirstMwMatchLeftmost(s: string, i: nat)
    ensures FirstMwMatch(s, i).None? <==> forall j :: i <= j < |s| ==> !MwAt(s, j)
    ensures FirstMwMatch(s, i).Some? ==>
              i <= FirstMwMatch(s, i).value < |s| && MwAt(s, FirstMwMatch(s, i).value) &&
              forall j :: i <= j < FirstMwMatch(s, i).value ==> !MwAt(s, j)
  {
    var p := (j: nat) => MwAt(s, j);
    FirstFromLeast(p, |s|, i);
    var m := FirstMwMatch(s, i);
    if m.Some? {
      assert p(m.value);
      forall j | i <= j < m.value
        ensures !MwAt(s, j)
      {
        assert !p(j);
      }
    } else {
      forall j | i <= j < |s|
        ensures !MwAt(s, j)
      {
        assert !p(j);
      }
    }
  }

  /** The captured group with its commas removed. */
  function AmountDigits(s: string, i: nat): string
    requires i <= |s|
  {
    FilterChars(s[i..i + AmountRun(s, i)], IsDigit)
  }

  /** What parseFloat makes of a string of digits: NaN when empty, else its value. */
  function DigitsNumber(ds: string): JsNum
    requires AllDigits(ds)
  {
    if ds == "" then NaN else Num(DigitsValue(ds) as real)
  }

  /**
   * parseOutputMW: null when the pattern does not match, else the number the
   * digits of the first match spell (ParseOutputMWIsParseFloat shows this is
   * parseFloat of them).
   */
  function ParseOutputMW(s: string): (r: Option<JsNum>)
    ensures r.None? <==> forall j :: 0 <= j < |s| ==> !MwAt(s, j)
    ensures r.Some? && r.value.Num? ==> 0.0 <= r.value.value
  {
    FirstMwMatchLeftmost(s, 0);
    var m := FirstMwMatch(s, 0);
    if m.None? then None else Some(DigitsNumber(AmountDigits(s, m.value)))
  }

  lemma ParseFloatEmpty()
    ensures ParseFloat("") == NaN
  {
    assert UnsignedDecimal("").None? by {
      assert RunLength("", IsDigit) == 0;
      assert Fraction(""[0..]) == [];
    }
  }

  /** The captured digits with commas dropped, read by parseFloat. */
  lemma ParseOutputMWIsParseFloat(s: string)
    ensures ParseOutputMW(s) == if FirstMwMatch(s, 0).None? then None else Some(ParseFloat(AmountDigits(s, FirstMwMatch(s, 0).value)))
  {
    var m := FirstMwMatch(s, 0);
    if m.Some? {
      var ds := AmountDigits(s, m.value);
      if ds == "" {
        ParseFloatEmpty();
      } else {
        ParseFloatOfDigits(ds);
      }
    }
  }

  /**
   * parseOutputMW is null exactly when no position matches; otherwise it
   * reads the leftmost match, and is NaN when that match holds only commas.
   */
  lemma ParseOutputMWMeaning(s: string)
    ensures ParseOutputMW(s).Some? ==>
              exists i :: 0 <= i < |s| && MwAt(s, i) && (forall j :: 0 <= j < i ==> !MwAt(s, j)) &&
                ParseOutputMW(s).value == (if AmountDigits(s, i) == "" then NaN else Num(DigitsValue(AmountDigits(s, i)) as real))
  {
    FirstMwMatchLeftmost(s, 0);
  }

  // ---------------------------------------------------------------------
  // determineProvince
  // ---------------------------------------------------------------------

  /** A province and the keywords that point to it. */
  type Rule = (string, seq<string>)

  predicate MentionsAny(text: string, words: seq<string>) {
    exists i :: 0 <= i < |words| && Contains(text, words[i])
  }

  /** The Quebec keyword as the source spells it: "hydro-qu" + U+00C3 U+00A9 + "bec", the UTF-8 bytes of "é" read as Latin-1. */
  const MisspeltHydroQuebec := "hydro-qu\U{00C3}\U{00A9}bec"

  /** The same keyword spelt as evidently meant: "hydro-québec". */
  const HydroQuebec := "hydro-qu\U{00E9}bec"

  /** The provinces after Quebec, in the order they are tried. */
  const OtherProvinceRules: seq<Rule> := [
    ("British Columbia", ["bc hydro", "british columbia", "gordon", "mica", "revelstoke"]),
    ("Ontario", ["ontario", "bruce", "darlington", "pickering", "sir adam beck"]),
    ("Alberta", ["alberta", "capital power", "genesee", "shepard", "keephills"]),
    ("Manitoba", ["manitoba", "limestone", "kettle"]),
    ("Saskatchewan", ["saskatchewan", "saskpower", "boundary dam"]),
    ("Newfoundland and Labrador", ["newfoundland", "churchill falls", "nalcor"]),
    ("Nova Scotia", ["nova scotia", "lingan", "trenton"]),
    ("New Brunswick", ["new brunswick", "nb power", "coleson", "point lepreau"])
  ]

  /** The Quebec keywords after the first. */
  const OtherQuebecKeywords: seq<string> := ["quebec", "beauharnois", "manic", "la grande", "robert-bourassa"]

  function QuebecRule(hydroQuebec: string): Rule {
    ("Quebec", [hydroQuebec] + OtherQuebecKeywords)
  }

  /** The rules with the Quebec keyword as the source spells it. */
  const ProvinceRulesAsWritten: seq<Rule> := [QuebecRule(MisspeltHydroQuebec)] + OtherProvinceRules

  /** The rules with the Quebec keyword spelt as meant. */
  const ProvinceRules: seq<Rule> := [QuebecRule(HydroQuebec)] + OtherProvinceRules

  /** `${plantName} ${operator || ''}`, lower-cased. */
  function ProvinceText(plantName: string, operator: Option<string>): string
  {
    ToLower(plantName + " " + (if operator.Some? then operator.value else ""))
  }

  /** The province of the first rule one of whose keywords the text contains. */
  function FirstProvince(text: string, rules: seq<Rule>): Option<string>
  {
    var k := FirstWhere(rules, (rule: Rule) => MentionsAny(text, rule.1));
    if k.None? then None else Some(rules[k.value].0)
  }

  /**
   * A province is found exactly when some rule's keyword occurs in the
   * text, and it is the province of the first such rule.
   */
  lemma FirstProvinceMeaning(text: string, rules: seq<Rule>)
    ensures FirstProvince(text, rules).None? <==> forall j :: 0 <= j < |rules| ==> !MentionsAny(text, rules[j].1)
    ensures FirstProvince(text, rules).Some? ==>
              exists j :: 0 <= j < |rules| && FirstProvince(text, rules).value == rules[j].0 && MentionsAny(text, rules[j].1) &&
                          forall i :: 0 <= i < j ==> !MentionsAny(text, rules[i].1)
  {
  }

  /** determineProvince as written. */
  function DetermineProvinceAsWritten(plantName: string, operator: Option<string>): (r: Option<string>)
    ensures var text := ProvinceText(plantName, operator);
      r.None? <==> forall j :: 0 <= j < |ProvinceRulesAsWritten| ==> !MentionsAny(text, ProvinceRulesAsWritten[j].1)
    ensures r == Some("Quebec") <==> MentionsAny(ProvinceText(plantName, operator), QuebecRule(MisspeltHydroQuebec).1)
  {
    var text := ProvinceText(plantName, operator);
    FirstProvinceMeaning(text, ProvinceRulesAsWritten);
    QuebecOnlyFirst(text, QuebecRule(MisspeltHydroQuebec));
    FirstProvince(text, ProvinceRulesAsWritten)
  }

  /** determineProvince with the Quebec keyword spelt as meant. */
  function DetermineProvince(plantName: string, operator: Option<string>): (r: Option<string>)
    ensures var text := ProvinceText(plantName, operator);
      r.None? <==> forall j :: 0 <= j < |ProvinceRules| ==> !MentionsAny(text, ProvinceRules[j].1)
    ensures r == Some("Quebec") <==> MentionsAny(ProvinceText(plantName, operator), QuebecRule(HydroQuebec).1)
  {
    var text := ProvinceText(plantName, operator);
    FirstProvinceMeaning(text, ProvinceRules);
    QuebecOnlyFirst(text, QuebecRule(HydroQuebec));
    FirstProvince(text, ProvinceRules)
  }

  /** Quebec is tried first and no later rule names it, so it is found exactly when its keywords are. */
  lemma QuebecOnlyFirst(text: string, quebec: Rule)
    requires quebec.0 == "Quebec"
    ensures FirstProvince(text, [quebec] + OtherProvinceRules) == Some("Quebec") <==> MentionsAny(text, quebec.1)
  {
    var rules := [quebec] + OtherProvinceRules;
    FirstProvinceMeaning(text, rules);
    assert forall j :: 1 <= j < |rules| ==> rules[j].0 != "Quebec";
  }

  /**
   * Both spellings place a plant alike unless its text contains
   * "hydro-québec": the rules differ only in that keyword, and the one as
   * written never matches.
   */
  lemma ProvincesAgree(plantName: string, operator: Option<string>)
    requires !Contains(ProvinceText(plantName, operator), HydroQuebec)
    ensures DetermineProvinceAsWritten(plantName, operator) == DetermineProvince(plantName, operator)
  {
    var text := ProvinceText(plantName, operator);
    MisspeltKeywordNeverMatches(plantName + " " + (if operator.Some? then operator.value else ""));
    MentionsAnyOtherHead(text, MisspeltHydroQuebec, HydroQuebec, OtherQuebecKeywords);
    FirstProvinceOtherHead(text, QuebecRule(MisspeltHydroQuebec), QuebecRule(HydroQuebec), OtherProvinceRules);
  }

  /** Keywords that differ only in a first word the text contains in neither spelling match alike. */
  lemma MentionsAnyOtherHead(text: string, w1: string, w2: string, rest: seq<string>)
    requires !Contains(text, w1) && !Contains(text, w2)
    ensures MentionsAny(text, [w1] + rest) == MentionsAny(text, [w2] + rest)
  {
    assert forall i :: 1 <= i < |rest| + 1 ==> ([w1] + rest)[i] == ([w2] + rest)[i] == rest[i - 1];
  }

  /** Rules that differ only in a first rule for the same province matching alike give the same province. */
  lemma FirstProvinceOtherHead(text: string, r1: Rule, r2: Rule, rest: seq<Rule>)
    requires r1.0 == r2.0 && MentionsAny(text, r1.1) == MentionsAny(text, r2.1)
    ensures FirstProvince(text, [r1] + rest) == FirstProvince(text, [r2] + rest)
  {
    assert ([r1] + rest)[1..] == rest == ([r2] + rest)[1..];
  }

  lemma LowerCharNeverAtilde(c: char)
    ensures LowerChar(c) != '\U{00C3}'
  {
  }

  /** The keyword as written holds an upper-case letter, so no lower-cased text contains it. */
  lemma MisspeltKeywordNeverMatches(s: string)
    ensures !Contains(ToLower(s), MisspeltHydroQuebec)
  {
    var t := ToLower(s);
    forall i | 0 <= i <= |t| - |MisspeltHydroQuebec|
      ensures !OccursAt(t, MisspeltHydroQuebec, i)
    {
      LowerCharNeverAtilde(s[i + 8]);
      assert t[i..i + |MisspeltHydroQuebec|][8] == t[i + 8];
    }
  }

  /** Every keyword of `words` from the `j`-th on is absent from `text`, checked word by word. */
  predicate AbsentAll(text: string, words: seq<string>, j: nat)
    decreases |words| - j
  {
    j >= |words| || (AbsentFrom(text, words[j], 0) && AbsentAll(text, words, j + 1))
  }

  lemma {:induction false} AbsentAllNotMentioned(text: string, words: seq<string>, j: nat)
    requires AbsentAll(text, words, j)
    ensures forall i :: j <= i < |words| ==> !Contains(text, words[i])
    decreases |words| - j
  {
    if j < |words| {
      AbsentFromNotContains(text, words[j], 0);
      AbsentAllNotMentioned(text, words, j + 1);
    }
  }

  /** Lower-casing `s` from position `k` on gives `t` from `k` on, checked one character at a time. */
  predicate LowersTo(s: string, t: string, k: nat)
    requires |s| == |t|
    decreases |s| - k
  {
    k >= |s| || (LowerChar(s[k]) == t[k] && LowersTo(s, t, k + 1))
  }

  lemma {:induction false} LowersToToLower(s: string, t: string, k: nat)
    requires |s| == |t| && LowersTo(s, t, k)
    ensures forall i :: k <= i < |s| ==> ToLower(s)[i] == t[i]
    decreases |s| - k
  {
    if k < |s| {
      LowersToToLower(s, t, k + 1);
    }
  }

  /** The lower-cased text of a plant named "Hydro-Québec" with no operator. */
  const HydroQuebecText := "hydro-qu\U{00E9}bec "

  lemma HydroQuebecProvinceText()
    ensures ProvinceText("Hydro-Qu\U{00E9}bec", None) == HydroQuebecText
  {
    var raw := "Hydro-Qu\U{00E9}bec ";
    assert "Hydro-Qu\U{00E9}bec" + " " + "" == raw;
    assert LowersTo(raw, HydroQuebecText, 0);
    LowersToToLower(raw, HydroQuebecText, 0);
  }

  /** A plant named "Hydro-Québec" with no operator is not placed in Quebec by the rules as written. */
  lemma HydroQuebecMissed()
    ensures DetermineProvinceAsWritten("Hydro-Qu\U{00E9}bec", None) != Some("Quebec")
  {
    HydroQuebecProvinceText();
    var text := HydroQuebecText;
    assert AbsentAll(text, OtherQuebecKeywords, 0);
    AbsentAllNotMentioned(text, OtherQuebecKeywords, 0);
    MisspeltKeywordNeverMatches("Hydro-Qu\U{00E9}bec" + " " + "");
    var quebec := ProvinceRulesAsWritten[0].1;
    assert quebec == [MisspeltHydroQuebec] + OtherQuebecKeywords;
    assert !MentionsAny(text, quebec) by {
      forall i | 0 <= i < |quebec|
        ensures !Contains(text, quebec[i])
      {
        if i > 0 {
          assert quebec[i] == OtherQuebecKeywords[i - 1];
        }
      }
    }
  }

  /** With the keyword spelt as meant, the same plant is placed in Quebec. */
  lemma HydroQuebecFound()
    ensures DetermineProvince("Hydro-Qu\U{00E9}bec", None) == Some("Quebec")
  {
    HydroQuebecProvinceText();
    assert OccursAt(HydroQuebecText, HydroQuebec, 0);
    assert ProvinceRules[0].1[0] == HydroQuebec;
    assert MentionsAny(HydroQuebecText, ProvinceRules[0].1);
  }

  // ---------------------------------------------------------------------
  // normalizeFuelType
  // ---------------------------------------------------------------------

  const FuelKeywords: seq<string> := ["nuclear", "hydro", "gas", "wind", "solar", "coal", "oil", "biomass", "geothermal"]

  /** normalizeFuelType: the first keyword the lower-cased source contains, or the source unchanged. */
  function NormalizeFuelType(source: string): (r: string)
    ensures r == source || (r in FuelKeywords && Contains(ToLower(source), r))
  {
    var k := FirstWhere(FuelKeywords, (kw: string) => Contains(ToLower(source), kw));
    if k.None? then source else FuelKeywords[k.value]
  }

  /**
   * The result is the source itself when it names no keyword, and otherwise
   * the first keyword in the fixed order that it names.
   */
  lemma NormalizeFuelTypeMeaning(source: string)
    ensures (forall i :: 0 <= i < |FuelKeywords| ==> !Contains(ToLower(source), FuelKeywords[i])) ==> NormalizeFuelType(source) == source
    ensures forall j :: 0 <= j < |FuelKeywords| && Contains(ToLower(source), FuelKeywords[j]) &&
                        (forall i :: 0 <= i < j ==> !Contains(ToLower(source), FuelKeywords[i]))
                        ==> NormalizeFuelType(source) == FuelKeywords[j]
  {
    var p := (kw: string) => Contains(ToLower(source), kw);
    var k := FirstWhere(FuelKeywords, p);
    if k.None? {
      forall j | 0 <= j < |FuelKeywords|
        ensures !Contains(ToLower(source), FuelKeywords[j])
      {
        assert !p(FuelKeywords[j]);
      }
    } else {
      assert Contains(ToLower(source), FuelKeywords[k.value]) by {
        assert p(FuelKeywords[k.value]);
      }
      forall i | 0 <= i < k.value
        ensures !Contains(ToLower(source), FuelKeywords[i])
      {
        assert !p(FuelKeywords[i]);
      }
    }
  }

  /** Nuclear is tried before gas: a source naming both is nuclear. */
  lemma NuclearBeforeGas(source: string)
    requires Contains(ToLower(source), "nuclear")
    ensures NormalizeFuelType(source) == "nuclear"
  {
    NormalizeFuelTypeMeaning(source);
  }

  /** `sub[k]` occurs nowhere in `s` from position `i` on, checked one position at a time. */
  predicate CharAbsent(s: string, sub: string, k: nat, i: nat)
    requires k < |sub|
    decreases |s| - i
  {
    i >= |s| || (s[i] != sub[k] && CharAbsent(s, sub, k, i + 1))
  }

  lemma {:induction false} CharAbsentNotIn(s: string, sub: string, k: nat, i: nat)
    requires k < |sub| && CharAbsent(s, sub, k, i)
    ensures forall j :: i <= j < |s| ==> s[j] != sub[k]
    decreases |s| - i
  {
    if i < |s| {
      CharAbsentNotIn(s, sub, k, i + 1);
    }
  }

  /** `s` cannot contain `sub` when the `k`-th character of `sub` occurs nowhere in `s`. */
  lemma ExcludesNotContains(s: string, sub: string, k: nat)
    requires k < |sub| && CharAbsent(s, sub, k, 0)
    ensures !Contains(s, sub)
  {
    CharAbsentNotIn(s, sub, k, 0);
    forall i | 0 <= i <= |s| - |sub|
      ensures !OccursAt(s, sub, i)
    {
      assert s[i..i + |sub|][k] == s[i + k];
    }
  }

  // Each keyword below is lower-case and contains none of the keywords
  // before it, one lemma per keyword so that each stays small.

  lemma SettlesNuclear()
    ensures ToLower(FuelKeywords[0]) == FuelKeywords[0]
  {
    LowerFromToLower("nuclear", 0);
  }

  lemma SettlesHydro()
    ensures ToLower(FuelKeywords[1]) == FuelKeywords[1]
    ensures forall i :: 0 <= i < 1 ==> !Contains(FuelKeywords[1], FuelKeywords[i])
  {
    LowerFromToLower("hydro", 0);
    ExcludesNotContains("hydro", "nuclear", 0);
    assert FuelKeywords[..1] == ["nuclear"];
    assert forall i :: 0 <= i < 1 ==> FuelKeywords[i] == FuelKeywords[..1][i];
  }

  lemma SettlesGas()
    ensures ToLower(FuelKeywords[2]) == FuelKeywords[2]
    ensures forall i :: 0 <= i < 2 ==> !Contains(FuelKeywords[2], FuelKeywords[i])
  {
    LowerFromToLower("gas", 0);
    ExcludesNotContains("gas", "nuclear", 0);
    ExcludesNotContains("gas", "hydro", 0);
    assert FuelKeywords[..2] == ["nuclear", "hydro"];
    assert forall i :: 0 <= i < 2 ==> FuelKeywords[i] == FuelKeywords[..2][i];
  }

  lemma SettlesWind()
    ensures ToLower(FuelKeywords[3]) == FuelKeywords[3]
    ensures forall i :: 0 <= i < 3 ==> !Contains(FuelKeywords[3], FuelKeywords[i])
  {
    LowerFromToLower("wind", 0);
    ExcludesNotContains("wind", "nuclear", 1);
    ExcludesNotContains("wind", "hydro", 0);
    ExcludesNotContains("wind", "gas", 0);
    assert FuelKeywords[..3] == ["nuclear", "hydro", "gas"];
    assert forall i :: 0 <= i < 3 ==> FuelKeywords[i] == FuelKeywords[..3][i];
  }

  lemma SettlesSolar()
    ensures ToLower(FuelKeywords[4]) == FuelKeywords[4]
    ensures forall i :: 0 <= i < 4 ==> !Contains(FuelKeywords[4], FuelKeywords[i])
  {
    LowerFromToLower("solar", 0);
    ExcludesNotContains("solar", "nuclear", 0);
    ExcludesNotContains("solar", "hydro", 0);
    ExcludesNotContains("solar", "gas", 0);
    ExcludesNotContains("solar", "wind", 0);
    assert FuelKeywords[..4] == ["nuclear", "hydro", "gas", "wind"];
    assert forall i :: 0 <= i < 4 ==> FuelKeywords[i] == FuelKeywords[..4][i];
  }

  lemma SettlesCoal()
    ensures ToLower(FuelKeywords[5]) == FuelKeywords[5]
    ensures forall i :: 0 <= i < 5 ==> !Contains(FuelKeywords[5], FuelKeywords[i])
  {
    LowerFromToLower("coal", 0);
    ExcludesNotContains("coal", "nuclear", 0);
    ExcludesNotContains("coal", "hydro", 0);
    ExcludesNotContains("coal", "gas", 0);
    ExcludesNotContains("coal", "wind", 0);
    ExcludesNotContains("coal", "solar", 0);
    assert FuelKeywords[..5] == ["nuclear", "hydro", "gas", "wind", "solar"];
    assert forall i :: 0 <= i < 5 ==> FuelKeywords[i] == FuelKeywords[..5][i];
  }

  lemma SettlesOil()
    ensures ToLower(FuelKeywords[6]) == FuelKeywords[6]
    ensures forall i :: 0 <= i < 6 ==> !Contains(FuelKeywords[6], FuelKeywords[i])
  {
    LowerFromToLower("oil", 0);
    ExcludesNotContains("oil", "nuclear", 0);
    ExcludesNotContains("oil", "hydro", 0);
    ExcludesNotContains("oil", "gas", 0);
    ExcludesNotContains("oil", "wind", 0);
    ExcludesNotContains("oil", "solar", 0);
    ExcludesNotContains("oil", "coal", 0);
    assert FuelKeywords[..6] == ["nuclear", "hydro", "gas", "wind", "solar", "coal"];
    assert forall i :: 0 <= i < 6 ==> FuelKeywords[i] == FuelKeywords[..6][i];
  }

  lemma SettlesBiomass()
    ensures ToLower(FuelKeywords[7]) == FuelKeywords[7]
    ensures forall i :: 0 <= i < 7 ==> !Contains(FuelKeywords[7], FuelKeywords[i])
  {
    LowerFromToLower("biomass", 0);
    ExcludesNotContains("biomass", "nuclear", 0);
    ExcludesNotContains("biomass", "hydro", 0);
    ExcludesNotContains("biomass", "gas", 0);
    ExcludesNotContains("biomass", "wind", 0);
    ExcludesNotContains("biomass", "solar", 2);
    ExcludesNotContains("biomass", "coal", 0);
    ExcludesNotContains("biomass", "oil", 2);
    assert FuelKeywords[..7] == ["nuclear", "hydro", "gas", "wind", "solar", "coal", "oil"];
    assert forall i :: 0 <= i < 7 ==> FuelKeywords[i] == FuelKeywords[..7][i];
  }

  lemma SettlesGeothermal()
    ensures ToLower(FuelKeywords[8]) == FuelKeywords[8]
    ensures forall i :: 0 <= i < 8 ==> !Contains(FuelKeywords[8], FuelKeywords[i])
  {
    LowerFromToLower("geothermal", 0);
    ExcludesNotContains("geothermal", "nuclear", 0);
    ExcludesNotContains("geothermal", "hydro", 1);
    ExcludesNotContains("geothermal", "gas", 2);
    ExcludesNotContains("geothermal", "wind", 0);
    ExcludesNotContains("geothermal", "solar", 0);
    ExcludesNotContains("geothermal", "coal", 0);
    ExcludesNotContains("geothermal", "oil", 1);
    ExcludesNotContains("geothermal", "biomass", 0);
    assert FuelKeywords[..8] == ["nuclear", "hydro", "gas", "wind", "solar", "coal", "oil", "biomass"];
    assert forall i :: 0 <= i < 8 ==> FuelKeywords[i] == FuelKeywords[..8][i];
  }

  /** Each fuel keyword is lower-case and contains no keyword tried before it. */
  lemma KeywordSettles(k: nat)
    requires k < |FuelKeywords|
    ensures ToLower(FuelKeywords[k]) == FuelKeywords[k]
    ensures forall i :: 0 <= i < k ==> !Contains(FuelKeywords[k], FuelKeywords[i])
  {
    if k == 0 {
      SettlesNuclear();
    } else if k == 1 {
      SettlesHydro();
    } else if k == 2 {
      SettlesGas();
    } else if k == 3 {
      SettlesWind();
    } else if k == 4 {
      SettlesSolar();
    } else if k == 5 {
      SettlesCoal();
    } else if k == 6 {
      SettlesOil();
    } else if k == 7 {
      SettlesBiomass();
    } else if k == 8 {
      SettlesGeothermal();
    }
  }

  /** The characters of `s` from `i` on are left alone by lower-casing. */
  predicate LowerFrom(s: string, i: nat)
    decreases |s| - i
  {
    i >= |s| || (LowerChar(s[i]) == s[i] && LowerFrom(s, i + 1))
  }

  lemma {:induction false} LowerFromToLower(s: string, i: nat)
    requires LowerFrom(s, i)
    ensures forall k :: i <= k < |s| ==> LowerChar(s[k]) == s[k]
    decreases |s| - i
  {
    if i < |s| {
      LowerFromToLower(s, i + 1);
    }
  }

  /** A keyword contains itself. */
  lemma ContainsSelf(s: string)
    ensures Contains(s, s)
  {
    assert OccursAt(s, s, 0);
  }

  /** Normalising twice is normalising once. */
  lemma NormalizeIdempotent(source: string)
    ensures NormalizeFuelType(NormalizeFuelType(source)) == NormalizeFuelType(source)
  {
    var r := NormalizeFuelType(source);
    NormalizeFuelTypeMeaning(source);
    NormalizeFuelTypeMeaning(r);
    if r != source {
      var k :| 0 <= k < |FuelKeywords| && FuelKeywords[k] == r;
      KeywordSettles(k);
      ContainsSelf(r);
      assert Contains(ToLower(r), FuelKeywords[k]);
      assert forall i :: 0 <= i < k ==> !Contains(ToLower(r), FuelKeywords[i]);
    }
  }

  // ---------------------------------------------------------------------
  // openinframap_id
  // ---------------------------------------------------------------------

  /** What survives `.replace(/[^a-z0-9\s]/g, '')`. */
  predicate IsSlugSource(c: char) { IsLowerAlpha(c) || IsDigit(c) || IsJsSpace(c) }

  /** The characters a slug is made of. */
  predicate IsSlugChar(c: char) { IsLowerAlpha(c) || IsDigit(c) || c == '-' }

  /** `.replace(/\s+/g, '-')`: every run of white space becomes one hyphen. */
  function Hyphenate(s: string): string
    decreases |s|
  {
    if s == [] then []
    else if IsJsSpace(s[0]) then
      var rest := TrimStartBy(s, IsJsSpace);
      assert rest != s;
      "-" + Hyphenate(rest)
    else [s[0]] + Hyphenate(s[1..])
  }

  /**
   * Hyphenating keeps the text empty or not, and starts with a hyphen
   * exactly where the text starts with one or with white space.
   */
  lemma HyphenateHead(s: string)
    ensures Hyphenate(s) == [] <==> s == []
    ensures Hyphenate(s) != [] ==> (Hyphenate(s)[0] == '-' <==> s[0] == '-' || IsJsSpace(s[0]))
  {
  }

  /** On a text of `[a-z0-9\s]`, hyphenating gives a text of `[a-z0-9-]`. */
  lemma {:induction false} HyphenateSlugChars(s: string)
    requires forall i :: 0 <= i < |s| ==> IsSlugSource(s[i])
    ensures forall i :: 0 <= i < |Hyphenate(s)| ==> IsSlugChar(Hyphenate(s)[i])
    decreases |s|
  {
    if s == [] {
    } else if IsJsSpace(s[0]) {
      var rest := TrimStartBy(s, IsJsSpace);
      assert forall i :: 0 <= i < |rest| ==> rest[i] == s[|s| - |rest| + i];
      HyphenateSlugChars(rest);
    } else {
      assert forall i :: 0 <= i < |s| - 1 ==> s[1..][i] == s[i + 1];
      HyphenateSlugChars(s[1..]);
    }
  }

  /** On a text with no hyphen, hyphenating never puts two hyphens together. */
  lemma {:induction false} HyphenateNoDoubleHyphen(s: string)
    requires forall i :: 0 <= i < |s| ==> s[i] != '-'
    ensures forall i :: 0 <= i < |Hyphenate(s)| - 1 ==> !(Hyphenate(s)[i] == '-' && Hyphenate(s)[i + 1] == '-')
    decreases |s|
  {
    if s == [] {
    } else if IsJsSpace(s[0]) {
      var rest := TrimStartBy(s, IsJsSpace);
      assert forall i :: 0 <= i < |rest| ==> rest[i] == s[|s| - |rest| + i];
      HyphenateNoDoubleHyphen(rest);
      HyphenateHead(rest);
    } else {
      assert forall i :: 0 <= i < |s| - 1 ==> s[1..][i] == s[i + 1];
      HyphenateNoDoubleHyphen(s[1..]);
      HyphenateHead(s[1..]);
    }
  }

  /**
   * The `openinframap_id`: lower-cased, stripped to `[a-z0-9\s]`, spaces
   * hyphenated, cut to 100. It holds at most 100 characters, only
   * `[a-z0-9-]`, and never two hyphens in a row.
   */
  function Slug(name: string): (r: string)
    ensures |r| <= 100
    ensures forall i :: 0 <= i < |r| ==> IsSlugChar(r[i])
    ensures forall i :: 0 <= i < |r| - 1 ==> !(r[i] == '-' && r[i + 1] == '-')
  {
    var f := FilterChars(ToLower(name), IsSlugSource);
    assert forall i :: 0 <= i < |f| ==> f[i] != '-';
    HyphenateSlugChars(f);
    HyphenateNoDoubleHyphen(f);
    var h := Hyphenate(f);
    if |h| <= 100 then h else h[..100]
  }

  /** A name already made of at most 100 lower-case letters and digits is its own slug. */
  lemma SlugOfPlainName(name: string)
    requires |name| <= 100
    requires forall i :: 0 <= i < |name| ==> IsLowerAlpha(name[i]) || IsDigit(name[i])
    ensures Slug(name) == name
  {
    assert ToLower(name) == name;
    HyphenateNoSpace(name);
  }

  lemma {:induction false} HyphenateNoSpace(s: string)
    requires forall i :: 0 <= i < |s| ==> !IsJsSpace(s[i])
    ensures Hyphenate(s) == s
    decreases |s|
  {
    if s != [] {
      HyphenateNoSpace(s[1..]);
    }
  }

  // ---------------------------------------------------------------------
  // The scrape loop
  // ---------------------------------------------------------------------

  /** A row of the plants table as scraped. */
  datatype RawPlant = RawPlant(name: string, operator: Option<string>, output: string, source: string)

  /** The columns upserted into `canada_power_plants` that do not depend on the network. */
  datatype PlantRow = PlantRow(id: string, name: string, operator: Option<string>, outputMw: real,
                               fuelType: string, province: Option<string>)

  /** `!outputMW || outputMW < 10` fails: a number other than 0 and NaN, and at least 10. */
  predicate LargeEnough(output: Option<JsNum>) {
    output.Some? && output.value.Truthy() && !(output.value.value < 10.0)
  }

  /**
   * The row upserted for a plant: keyed by the slug of its name, with the
   * name and operator as scraped, the parsed output (at least 10 MW), a fuel
   * type that is the source or a keyword the source names, and the province
   * the rules as written give.
   */
  function RowOf(p: RawPlant): (r: PlantRow)
    requires LargeEnough(ParseOutputMW(p.output))
    ensures r.id == Slug(p.name) && |r.id| <= 100 && r.name == p.name && r.operator == p.operator
    ensures r.outputMw == ParseOutputMW(p.output).value.value && 10.0 <= r.outputMw
    ensures r.fuelType == NormalizeFuelType(p.source)
    ensures r.fuelType == p.source || (r.fuelType in FuelKeywords && Contains(ToLower(p.source), r.fuelType))
    ensures r.province == DetermineProvinceAsWritten(p.name, p.operator)
  {
    PlantRow(Slug(p.name), p.name, p.operator, ParseOutputMW(p.output).value.value,
             NormalizeFuelType(p.source), DetermineProvinceAsWritten(p.name, p.operator))
  }

  /** What the loop body does with one plant: skip it, or upsert its row. */
  datatype Outcome = Skipped | Upserted(row: PlantRow)

  /**
   * One plant's outcome: skipped when its output is missing or below 10 MW,
   * or when processing it throws (`failed`: the coordinate lookup or the
   * insert); upserted otherwise.
   */
  function OutcomeOf(p: RawPlant, failed: bool): (r: Outcome)
    ensures failed || ParseOutputMW(p.output).None? ==> r == Skipped
    ensures r.Upserted? <==> !failed && LargeEnough(ParseOutputMW(p.output))
    ensures r.Upserted? ==> r.row == RowOf(p) && r.row.name == p.name && 10.0 <= r.row.outputMw
  {
    if !LargeEnough(ParseOutputMW(p.output)) || failed then Skipped else Upserted(RowOf(p))
  }

  function Outcomes(plants: seq<RawPlant>, failed: seq<bool>): seq<Outcome>
    requires |failed| == |plants|
  {
    seq(|plants|, i requires 0 <= i < |plants| => OutcomeOf(plants[i], failed[i]))
  }

  /**
   * The table after the first `n` outcomes: `ON CONFLICT` makes a later row
   * with the same id replace an earlier one.
   */
  function TableAfter(table: map<string, PlantRow>, outcomes: seq<Outcome>, n: nat): map<string, PlantRow>
    requires n <= |outcomes|
  {
    if n == 0 then table
    else
      var t := TableAfter(table, outcomes, n - 1);
      if outcomes[n - 1].Upserted? then t[outcomes[n - 1].row.id := outcomes[n - 1].row] else t
  }

  /** How many of the first `n` outcomes are upserts. */
  function UpsertsUpTo(outcomes: seq<Outcome>, n: nat): (k: nat)
    requires n <= |outcomes|
    ensures k <= n
  {
    if n == 0 then 0 else UpsertsUpTo(outcomes, n - 1) + (if outcomes[n - 1].Upserted? then 1 else 0)
  }

  /** The loop over the plants, given what happens to each. */
  method ApplyOutcomes(table: map<string, PlantRow>, outcomes: seq<Outcome>)
      returns (result: map<string, PlantRow>, insertedCount: nat, skippedCount: nat)
    ensures result == TableAfter(table, outcomes, |outcomes|)
    ensures insertedCount == UpsertsUpTo(outcomes, |outcomes|)
    ensures insertedCount + skippedCount == |outcomes|
  {
    result, insertedCount, skippedCount := table, 0, 0;
    for i := 0 to |outcomes|
      invariant result == TableAfter(table, outcomes, i)
      invariant insertedCount == UpsertsUpTo(outcomes, i)
      invariant insertedCount + skippedCount == i
    {
      match outcomes[i]
      case Skipped =>
        skippedCount := skippedCount + 1;
      case Upserted(row) =>
        result := result[row.id := row];
        insertedCount := insertedCount + 1;
    }
  }

  /**
   * The loop of scrapeOpenInfraMap over the scraped plants: every plant is
   * either upserted under its slug or counted as skipped.
   */
  method ProcessPlants(table: map<string, PlantRow>, plants: seq<RawPlant>, failed: seq<bool>)
      returns (result: map<string, PlantRow>, insertedCount: nat, skippedCount: nat)
    requires |failed| == |plants|
    ensures result == TableAfter(table, Outcomes(plants, failed), |plants|)
    ensures insertedCount == UpsertsUpTo(Outcomes(plants, failed), |plants|)
    ensures insertedCount + skippedCount == |plants|
  {
    result, insertedCount, skippedCount := ApplyOutcomes(table, Outcomes(plants, failed));
  }

  predicate RowOk(row: PlantRow) {
    row.outputMw >= 10.0 && |row.id| <= 100 && forall i :: 0 <= i < |row.id| ==> IsSlugChar(row.id[i])
  }

  /**
   * Every row the loop writes is keyed by its own id, with an output of at
   * least 10 MW and a slug-shaped id; every other row is the table's old row.
   */
  lemma TableAfterRows(table: map<string, PlantRow>, plants: seq<RawPlant>, failed: seq<bool>, n: nat)
    requires n <= |plants| == |failed|
    ensures table.Keys <= TableAfter(table, Outcomes(plants, failed), n).Keys
    ensures forall k :: k in TableAfter(table, Outcomes(plants, failed), n) ==>
              (k in table && TableAfter(table, Outcomes(plants, failed), n)[k] == table[k]) ||
              (TableAfter(table, Outcomes(plants, failed), n)[k].id == k && RowOk(TableAfter(table, Outcomes(plants, failed), n)[k]))
  {
    var outcomes := Outcomes(plants, failed);
    assert forall i :: 0 <= i < n ==> outcomes[i].Upserted? ==> RowOk(outcomes[i].row);
    TableAfterKeeps(table, outcomes, n);
  }

  /** The same over any outcomes whose upserted rows are all well formed. */
  lemma {:induction false} TableAfterKeeps(table: map<string, PlantRow>, outcomes: seq<Outcome>, n: nat)
    requires n <= |outcomes|
    requires forall i :: 0 <= i < n ==> outcomes[i].Upserted? ==> RowOk(outcomes[i].row)
    ensures table.Keys <= TableAfter(table, outcomes, n).Keys
    ensures forall k :: k in TableAfter(table, outcomes, n) ==>
              (k in table && TableAfter(table, outcomes, n)[k] == table[k]) ||
              (TableAfter(table, outcomes, n)[k].id == k && RowOk(TableAfter(table, outcomes, n)[k]))
  {
    if n > 0 {
      TableAfterKeeps(table, outcomes, n - 1);
    }
  }
}

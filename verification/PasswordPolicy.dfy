/**
 * The shared password policy: its evaluator, the shortest password a policy allows, the bounds the
 * service puts on an override, and the strength meter that sits on the evaluator.
 *
 * A password is a sequence of UTF-16 code units, which is what its length counts.
 */
module PasswordPolicies {
  import opened Arithmetic
  import opened Basics

  type CodeUnit = c: int | 0 <= c < 0x1_0000
  type Password = seq<CodeUnit>

  datatype CharClass = Upper | Lower | Digit | Special

  /** The special class is ASCII punctuation without the backslash. */
  predicate InClass(c: CodeUnit, k: CharClass) {
    match k
    case Upper => 65 <= c <= 90
    case Lower => 97 <= c <= 122
    case Digit => 48 <= c <= 57
    case Special => 33 <= c <= 47 || 58 <= c <= 64 || c == 91 || 93 <= c <= 96 || 123 <= c <= 126
  }

  /** Every printable ASCII character falls in exactly one class, but for the blank and the backslash,
      which fall in none. */
  lemma ClassesPartitionPrintableAscii(c: CodeUnit)
    ensures (exists k :: InClass(c, k)) <==> 33 <= c <= 126 && c != 92
    ensures forall j, k :: InClass(c, j) && InClass(c, k) ==> j == k
  {
    if 33 <= c <= 126 && c != 92 {
      assert InClass(c, Upper) || InClass(c, Lower) || InClass(c, Digit) || InClass(c, Special);
    }
  }

  /** The classes, character by character. */
  lemma ClassAlphabets(c: char)
    requires c as int < 0x1_0000
    ensures InClass(c as int, Upper) <==> c in "ABCDEFGHIJKLMNOPQRSTUVWXYZ"
    ensures InClass(c as int, Lower) <==> c in "abcdefghijklmnopqrstuvwxyz"
    ensures InClass(c as int, Digit) <==> c in "0123456789"
    ensures InClass(c as int, Special) <==> c in "!\"#$%&'()*+,-./:;<=>?@[]^_`{|}~"
  {
  }

  function Count(p: Password, k: CharClass): nat {
    if p == [] then 0
    else Count(p[..|p| - 1], k) + if InClass(p[|p| - 1], k) then 1 else 0
  }

  /** At how many places of the password a character of the class stands. */
  ghost function Places(p: Password, k: CharClass): nat { |set i | 0 <= i < |p| && InClass(p[i], k)| }

  lemma {:induction false} CountIsNumberOfPlaces(p: Password, k: CharClass)
    ensures Count(p, k) == Places(p, k)
  {
    if p != [] {
      var n := |p| - 1;
      CountIsNumberOfPlaces(p[..n], k);
      PlacesNext(p, k);
    }
  }

  lemma PlacesNext(p: Password, k: CharClass)
    requires p != []
    ensures var n := |p| - 1; Places(p, k) == Places(p[..n], k) + if InClass(p[n], k) then 1 else 0
  {
    var n := |p| - 1;
    var before := set i | 0 <= i < n && InClass(p[..n][i], k);
    assert (set i | 0 <= i < |p| && InClass(p[i], k)) == before + if InClass(p[n], k) then {n} else {};
  }

  predicate Has(p: Password, k: CharClass) { exists c :: c in p && InClass(c, k) }

  datatype PasswordPolicy = PasswordPolicy(
    minLength: int,
    requireUppercase: bool,
    requireLowercase: bool,
    requireNumber: bool,
    requireSpecial: bool,
    minNumbers: int,
    minSpecial: int)

  datatype RuleKey =
    MinLength | RequireUppercase | RequireLowercase | RequireNumber | MinNumbers | RequireSpecial | MinSpecial

  datatype RuleResult = RuleResult(rule: RuleKey, met: bool)

  predicate Applies(rule: RuleKey, policy: PasswordPolicy) {
    match rule
    case MinLength => true
    case RequireUppercase => policy.requireUppercase
    case RequireLowercase => policy.requireLowercase
    case RequireNumber => policy.requireNumber
    case MinNumbers => policy.requireNumber && policy.minNumbers > 1
    case RequireSpecial => policy.requireSpecial
    case MinSpecial => policy.requireSpecial && policy.minSpecial > 1
  }

  predicate Met(rule: RuleKey, p: Password, policy: PasswordPolicy) {
    match rule
    case MinLength => |p| >= policy.minLength
    case RequireUppercase => Has(p, Upper)
    case RequireLowercase => Has(p, Lower)
    case RequireNumber => Count(p, Digit) >= 1
    case MinNumbers => Count(p, Digit) >= policy.minNumbers
    case RequireSpecial => Count(p, Special) >= 1
    case MinSpecial => Count(p, Special) >= policy.minSpecial
  }

  function AddRule(rules: seq<RuleKey>, rule: RuleKey, policy: PasswordPolicy): seq<RuleKey> {
    if Applies(rule, policy) then rules + [rule] else rules
  }

  /** The rules a policy evaluates, in reporting order. */
  function RulesOf(policy: PasswordPolicy): seq<RuleKey> {
    var r := AddRule([MinLength], RequireUppercase, policy);
    var r := AddRule(r, RequireLowercase, policy);
    var r := AddRule(r, RequireNumber, policy);
    var r := AddRule(r, MinNumbers, policy);
    var r := AddRule(r, RequireSpecial, policy);
    AddRule(r, MinSpecial, policy)
  }

  function Results(rules: seq<RuleKey>, p: Password, policy: PasswordPolicy): seq<RuleResult> {
    seq(|rules|, i requires 0 <= i < |rules| => RuleResult(rules[i], Met(rules[i], p, policy)))
  }

  function Report(results: seq<RuleResult>, rule: RuleKey, p: Password, policy: PasswordPolicy): seq<RuleResult> {
    if Applies(rule, policy) then results + [RuleResult(rule, Met(rule, p, policy))] else results
  }

  function Evaluate(p: Password, policy: PasswordPolicy): seq<RuleResult> {
    var r := Report([RuleResult(MinLength, Met(MinLength, p, policy))], RequireUppercase, p, policy);
    var r := Report(r, RequireLowercase, p, policy);
    var r := Report(r, RequireNumber, p, policy);
    var r := Report(r, MinNumbers, p, policy);
    var r := Report(r, RequireSpecial, p, policy);
    Report(r, MinSpecial, p, policy)
  }

  lemma ReportsAddedRule(rules: seq<RuleKey>, rule: RuleKey, p: Password, policy: PasswordPolicy)
    ensures Results(AddRule(rules, rule, policy), p, policy) == Report(Results(rules, p, policy), rule, p, policy)
    ensures |rules| <= |AddRule(rules, rule, policy)| <= |rules| + 1
  {
  }

  /** `rules` are those rules up to and including `last` that apply, each once, in the order declared. */
  ghost predicate ListsUpTo(rules: seq<RuleKey>, last: RuleKey, policy: PasswordPolicy) {
    && (forall rule :: rule in rules <==> Applies(rule, policy) && Rank(rule) <= Rank(last))
    && (forall i, j :: 0 <= i < j < |rules| ==> Rank(rules[i]) < Rank(rules[j]))
  }

  function Rank(rule: RuleKey): nat {
    match rule
    case MinLength => 0
    case RequireUppercase => 1
    case RequireLowercase => 2
    case RequireNumber => 3
    case MinNumbers => 4
    case RequireSpecial => 5
    case MinSpecial => 6
  }

  lemma AddRuleLists(rules: seq<RuleKey>, last: RuleKey, rule: RuleKey, policy: PasswordPolicy)
    requires ListsUpTo(rules, last, policy) && Rank(rule) == Rank(last) + 1
    ensures ListsUpTo(AddRule(rules, rule, policy), rule, policy)
  {
  }

  lemma RulesOfListsAll(policy: PasswordPolicy)
    ensures ListsUpTo(RulesOf(policy), MinSpecial, policy)
  {
    var r1 := AddRule([MinLength], RequireUppercase, policy);
    var r2 := AddRule(r1, RequireLowercase, policy);
    var r3 := AddRule(r2, RequireNumber, policy);
    var r4 := AddRule(r3, MinNumbers, policy);
    var r5 := AddRule(r4, RequireSpecial, policy);
    AddRuleLists([MinLength], MinLength, RequireUppercase, policy);
    AddRuleLists(r1, RequireUppercase, RequireLowercase, policy);
    AddRuleLists(r2, RequireLowercase, RequireNumber, policy);
    AddRuleLists(r3, RequireNumber, MinNumbers, policy);
    AddRuleLists(r4, MinNumbers, RequireSpecial, policy);
    AddRuleLists(r5, RequireSpecial, MinSpecial, policy);
  }

  lemma ResultsPairRulesWithOutcomes(rules: seq<RuleKey>, p: Password, policy: PasswordPolicy)
    ensures forall rule, met :: RuleResult(rule, met) in Results(rules, p, policy) <==>
      rule in rules && met == Met(rule, p, policy)
  {
    var results := Results(rules, p, policy);
    forall rule | rule in rules
      ensures RuleResult(rule, Met(rule, p, policy)) in results
    {
      var i :| 0 <= i < |rules| && rules[i] == rule;
      assert results[i] == RuleResult(rule, Met(rule, p, policy));
    }
  }

  /** The evaluator reports every rule that applies and no other, each once, in a fixed order, and with
      its outcome. */
  lemma {:induction false} EvaluateReportsEveryRule(p: Password, policy: PasswordPolicy)
    ensures Evaluate(p, policy) == Results(RulesOf(policy), p, policy)
    ensures 1 <= |RulesOf(policy)| <= 7
    ensures forall rule :: rule in RulesOf(policy) <==> Applies(rule, policy)
    ensures forall i, j :: 0 <= i < j < |RulesOf(policy)| ==> Rank(RulesOf(policy)[i]) < Rank(RulesOf(policy)[j])
    ensures forall rule, met :: RuleResult(rule, met) in Evaluate(p, policy) <==>
      Applies(rule, policy) && met == Met(rule, p, policy)
  {
    RulesOfListsAll(policy);
    ReportsItsRules(p, policy);
    ResultsPairRulesWithOutcomes(RulesOf(policy), p, policy);
  }

  lemma {:induction false} ReportsItsRules(p: Password, policy: PasswordPolicy)
    ensures Evaluate(p, policy) == Results(RulesOf(policy), p, policy)
    ensures 1 <= |RulesOf(policy)| <= 7
  {
    var r1 := AddRule([MinLength], RequireUppercase, policy);
    var r2 := AddRule(r1, RequireLowercase, policy);
    var r3 := AddRule(r2, RequireNumber, policy);
    var r4 := AddRule(r3, MinNumbers, policy);
    var r5 := AddRule(r4, RequireSpecial, policy);
    assert Results([MinLength], p, policy) == [RuleResult(MinLength, Met(MinLength, p, policy))];
    ReportsAddedRule([MinLength], RequireUppercase, p, policy);
    ReportsAddedRule(r1, RequireLowercase, p, policy);
    ReportsAddedRule(r2, RequireNumber, p, policy);
    ReportsAddedRule(r3, MinNumbers, p, policy);
    ReportsAddedRule(r4, RequireSpecial, p, policy);
    ReportsAddedRule(r5, MinSpecial, p, policy);
  }

  method CountMatches(p: Password, k: CharClass) returns (n: nat)
    ensures n == Count(p, k)
  {
    n := 0;
    for i := 0 to |p|
      invariant n == Count(p[..i], k)
    {
      assert p[..i + 1][..i] == p[..i];
      if InClass(p[i], k) {
        n := n + 1;
      }
    }
    assert p[..|p|] == p;
  }

  method EvaluatePasswordPolicy(p: Password, policy: PasswordPolicy) returns (results: seq<RuleResult>)
    ensures results == Evaluate(p, policy)
  {
    var numberCount := CountMatches(p, Digit);
    var specialCount := CountMatches(p, Special);
    results := [RuleResult(MinLength, |p| >= policy.minLength)];
    if policy.requireUppercase {
      results := results + [RuleResult(RequireUppercase, Has(p, Upper))];
    }
    if policy.requireLowercase {
      results := results + [RuleResult(RequireLowercase, Has(p, Lower))];
    }
    if policy.requireNumber {
      results := results + [RuleResult(RequireNumber, numberCount >= 1)];
      if policy.minNumbers > 1 {
        results := results + [RuleResult(MinNumbers, numberCount >= policy.minNumbers)];
      }
    }
    if policy.requireSpecial {
      results := results + [RuleResult(RequireSpecial, specialCount >= 1)];
      if policy.minSpecial > 1 {
        results := results + [RuleResult(MinSpecial, specialCount >= policy.minSpecial)];
      }
    }
  }

  // ----- The shortest password a policy allows

  predicate AllMet(p: Password, policy: PasswordPolicy) {
    forall r :: r in Evaluate(p, policy) ==> r.met
  }

  function Max(a: int, b: int): int { if a < b then b else a }

  /** How many characters of a class the policy asks for. */
  function Demand(policy: PasswordPolicy, k: CharClass): nat {
    match k
    case Upper => if policy.requireUppercase then 1 else 0
    case Lower => if policy.requireLowercase then 1 else 0
    case Digit => if policy.requireNumber then Max(1, policy.minNumbers) else 0
    case Special => if policy.requireSpecial then Max(1, policy.minSpecial) else 0
  }

  function ShortestLength(policy: PasswordPolicy): nat {
    Max(policy.minLength,
        Demand(policy, Upper) + Demand(policy, Lower) + Demand(policy, Digit) + Demand(policy, Special))
  }

  lemma {:induction false} CountIsPositive(p: Password, k: CharClass)
    ensures Count(p, k) >= 1 <==> Has(p, k)
  {
    if p != [] {
      var n := |p| - 1;
      CountIsPositive(p[..n], k);
      assert p == p[..n] + [p[n]];
      assert p[n] in p;
    }
  }

  lemma ResultsAllMet(rules: seq<RuleKey>, p: Password, policy: PasswordPolicy)
    ensures (forall r :: r in Results(rules, p, policy) ==> r.met)
      <==> (forall rule :: rule in rules ==> Met(rule, p, policy))
  {
    var results := Results(rules, p, policy);
    if forall r :: r in results ==> r.met {
      forall rule | rule in rules
        ensures Met(rule, p, policy)
      {
        var i :| 0 <= i < |rules| && rules[i] == rule;
        assert results[i] in results;
      }
    }
  }

  /** Every rule is met exactly when the length suffices and each class meets its demand. */
  lemma AllMetMeansDemandsMet(p: Password, policy: PasswordPolicy)
    ensures AllMet(p, policy) <==> |p| >= policy.minLength && forall k :: Count(p, k) >= Demand(policy, k)
  {
    EvaluateReportsEveryRule(p, policy);
    ResultsAllMet(RulesOf(policy), p, policy);
    CountIsPositive(p, Upper);
    CountIsPositive(p, Lower);
    DemandsAreRules(p, policy);
  }

  /** The same in the policy's own terms: how many places must hold a character of each class. */
  lemma AllMetInPlainTerms(p: Password, policy: PasswordPolicy)
    ensures AllMet(p, policy) <==>
      && |p| >= policy.minLength
      && (policy.requireUppercase ==> Places(p, Upper) >= 1)
      && (policy.requireLowercase ==> Places(p, Lower) >= 1)
      && (policy.requireNumber ==> Places(p, Digit) >= 1 && Places(p, Digit) >= policy.minNumbers)
      && (policy.requireSpecial ==> Places(p, Special) >= 1 && Places(p, Special) >= policy.minSpecial)
  {
    AllMetMeansDemandsMet(p, policy);
    CountIsNumberOfPlaces(p, Upper);
    CountIsNumberOfPlaces(p, Lower);
    CountIsNumberOfPlaces(p, Digit);
    CountIsNumberOfPlaces(p, Special);
    assert AllMet(p, policy) ==>
      Count(p, Upper) >= Demand(policy, Upper) && Count(p, Lower) >= Demand(policy, Lower)
      && Count(p, Digit) >= Demand(policy, Digit) && Count(p, Special) >= Demand(policy, Special);
    assert (forall k :: Count(p, k) >= Demand(policy, k)) <==>
      Count(p, Upper) >= Demand(policy, Upper) && Count(p, Lower) >= Demand(policy, Lower)
      && Count(p, Digit) >= Demand(policy, Digit) && Count(p, Special) >= Demand(policy, Special);
  }

  lemma DemandsAreRules(p: Password, policy: PasswordPolicy)
    requires forall k :: k in {Upper, Lower} ==> (Count(p, k) >= 1 <==> Has(p, k))
    ensures (forall r :: Applies(r, policy) ==> Met(r, p, policy))
      <==> |p| >= policy.minLength && forall k :: Count(p, k) >= Demand(policy, k)
  {
    if forall r :: Applies(r, policy) ==> Met(r, p, policy) {
      assert Met(MinLength, p, policy);
      forall k
        ensures Count(p, k) >= Demand(policy, k)
      {
        match k
        case Upper => assert Applies(RequireUppercase, policy) ==> Met(RequireUppercase, p, policy);
        case Lower => assert Applies(RequireLowercase, policy) ==> Met(RequireLowercase, p, policy);
        case Digit =>
          assert Applies(RequireNumber, policy) ==> Met(RequireNumber, p, policy);
          assert Applies(MinNumbers, policy) ==> Met(MinNumbers, p, policy);
        case Special =>
          assert Applies(RequireSpecial, policy) ==> Met(RequireSpecial, p, policy);
          assert Applies(MinSpecial, policy) ==> Met(MinSpecial, p, policy);
      }
    }
    if |p| >= policy.minLength && forall k :: Count(p, k) >= Demand(policy, k) {
      assert Count(p, Upper) >= Demand(policy, Upper) && Count(p, Lower) >= Demand(policy, Lower);
      assert Count(p, Digit) >= Demand(policy, Digit) && Count(p, Special) >= Demand(policy, Special);
    }
  }

  lemma {:induction false} ClassesAreDisjoint(p: Password)
    ensures Count(p, Upper) + Count(p, Lower) + Count(p, Digit) + Count(p, Special) <= |p|
  {
    if p != [] {
      ClassesAreDisjoint(p[..|p| - 1]);
    }
  }

  lemma {:induction false} CountConcat(p: Password, q: Password, k: CharClass)
    ensures Count(p + q, k) == Count(p, k) + Count(q, k)
  {
    if q == [] {
      assert p + q == p;
    } else {
      assert (p + q)[..|p + q| - 1] == p + q[..|q| - 1];
      CountConcat(p, q[..|q| - 1], k);
    }
  }

  lemma {:induction false} CountRepeat(c: CodeUnit, n: nat, k: CharClass)
    ensures Count(Repeat(c, n), k) == if InClass(c, k) then n else 0
  {
    if n > 0 {
      CountRepeat(c, n - 1, k);
      assert Repeat(c, n)[..n - 1] == Repeat(c, n - 1);
    }
  }

  /** 'A's, 'a's, '0's and '!'s as demanded, padded with 'A's to length `n`. */
  function Sample(policy: PasswordPolicy, n: nat): Password
    requires n >= ShortestLength(policy)
  {
    var (u, l, d, s) := (Demand(policy, Upper), Demand(policy, Lower), Demand(policy, Digit), Demand(policy, Special));
    Repeat(97, l) + Repeat(48, d) + Repeat(33, s) + Repeat(65, n - l - d - s)
  }

  lemma SampleMeetsPolicy(policy: PasswordPolicy, n: nat)
    requires n >= ShortestLength(policy)
    ensures |Sample(policy, n)| == n && AllMet(Sample(policy, n), policy)
  {
    var (l, d, s) := (Demand(policy, Lower), Demand(policy, Digit), Demand(policy, Special));
    forall k
      ensures Count(Sample(policy, n), k) >= Demand(policy, k)
    {
      CountRepeat(97, l, k);
      CountRepeat(48, d, k);
      CountRepeat(33, s, k);
      CountRepeat(65, n - l - d - s, k);
      CountConcat(Repeat(97, l), Repeat(48, d), k);
      CountConcat(Repeat(97, l) + Repeat(48, d), Repeat(33, s), k);
      CountConcat(Repeat(97, l) + Repeat(48, d) + Repeat(33, s), Repeat(65, n - l - d - s), k);
    }
    AllMetMeansDemandsMet(Sample(policy, n), policy);
  }

  /** The lengths of the passwords that meet a policy are exactly those from `ShortestLength` on. */
  lemma LengthsThatMeetPolicy(policy: PasswordPolicy, n: nat)
    ensures (exists p :: |p| == n && AllMet(p, policy)) <==> n >= ShortestLength(policy)
  {
    if n >= ShortestLength(policy) {
      SampleMeetsPolicy(policy, n);
    }
    forall p | |p| == n && AllMet(p, policy)
      ensures n >= ShortestLength(policy)
    {
      AllMetMeansDemandsMet(p, policy);
      ClassesAreDisjoint(p);
      assert Count(p, Upper) >= Demand(policy, Upper) && Count(p, Lower) >= Demand(policy, Lower);
      assert Count(p, Digit) >= Demand(policy, Digit) && Count(p, Special) >= Demand(policy, Special);
    }
  }

  // ----- Overrides the service accepts

  const MAX_PASSWORD_LENGTH: nat := 256

  /** No rule fails, the fixed maximum length included. */
  predicate Accepted(p: Password, policy: PasswordPolicy) {
    AllMet(p, policy) && |p| <= MAX_PASSWORD_LENGTH
  }

  predicate ValidOverride(policy: PasswordPolicy) {
    && 8 <= policy.minLength <= 128
    && 0 <= policy.minNumbers <= policy.minLength
    && 0 <= policy.minSpecial <= policy.minLength
  }

  /** An override leaves users a password to choose exactly when its demands together fit the fixed
      maximum; its own length bound never gets in the way. */
  lemma OverrideIsUsable(policy: PasswordPolicy)
    requires ValidOverride(policy)
    ensures (exists p :: Accepted(p, policy))
      <==> Demand(policy, Upper) + Demand(policy, Lower) + Demand(policy, Digit) + Demand(policy, Special)
             <= MAX_PASSWORD_LENGTH
  {
    if ShortestLength(policy) <= MAX_PASSWORD_LENGTH {
      SampleMeetsPolicy(policy, ShortestLength(policy));
      assert Accepted(Sample(policy, ShortestLength(policy)), policy);
    }
    forall p | Accepted(p, policy)
      ensures ShortestLength(policy) <= MAX_PASSWORD_LENGTH
    {
      LengthsThatMeetPolicy(policy, |p|);
    }
  }

  /** The service's bounds do not imply that: this override passes them and rejects every password. */
  lemma ValidOverrideCanRejectEverything(p: Password)
    ensures var policy := PasswordPolicy(128, true, true, true, true, 128, 128);
      ValidOverride(policy) && !Accepted(p, policy)
  {
    OverrideIsUsable(PasswordPolicy(128, true, true, true, true, 128, 128));
  }

  // ----- The strength meter

  function MetCount(results: seq<RuleResult>): nat {
    if results == [] then 0
    else MetCount(results[..|results| - 1]) + if results[|results| - 1].met then 1 else 0
  }

  /** Rounds n / d to the nearest integer, halves upwards. */
  function Round(n: nat, d: nat): nat
    requires 0 < d
  {
    (2 * n + d) / (2 * d)
  }

  function Segments(p: Password, policy: PasswordPolicy): nat {
    if |p| == 0 then 0
    else
      var results := Evaluate(p, policy);
      Max(1, Round(MetCount(results) * 5, |results|))
  }

  function LevelIndex(segments: nat): int { if segments - 1 > 4 then 4 else Max(0, segments - 1) }

  lemma {:induction false} MetCountCompares(a: seq<RuleResult>, b: seq<RuleResult>)
    requires |a| == |b| && forall i :: 0 <= i < |a| ==> a[i].met ==> b[i].met
    ensures MetCount(a) <= MetCount(b) <= |b|
    ensures MetCount(b) == |b| <==> forall r :: r in b ==> r.met
  {
    if a != [] {
      var n := |a| - 1;
      MetCountCompares(a[..n], b[..n]);
      assert b == b[..n] + [b[n]];
    }
  }

  /** At most seven rules apply, too few for rounding to hide a missing one. */
  lemma RoundingIsExact(met: nat, total: nat)
    requires met <= total && 1 <= total <= 7
    ensures Round(met * 5, total) <= 5 && (Round(met * 5, total) == 5 <==> met == total)
  {
    var r := (10 * met + total) / (2 * total);
    DivMonotone(10 * met + total, 11 * total, 2 * total);
    Quotient(11 * total, 2 * total, 5);
    if met < total {
      DivMonotone(10 * met + total, 11 * total - 10, 2 * total);
      if 11 * total - 10 < 10 * total {
        DivMonotone(11 * total - 10, 10 * total - 1, 2 * total);
        Quotient(10 * total - 1, 2 * total, 4);
      }
    }
  }

  lemma {:induction false} RuleSurvivesAppend(p: Password, q: Password, rule: RuleKey, policy: PasswordPolicy)
    ensures Met(rule, p, policy) ==> Met(rule, p + q, policy)
  {
    CountConcat(p, q, Digit);
    CountConcat(p, q, Special);
  }

  lemma AppendingKeepsRulesMet(p: Password, q: Password, policy: PasswordPolicy)
    ensures var (a, b) := (Evaluate(p, policy), Evaluate(p + q, policy));
      1 <= |a| <= 7 && |a| == |b| && forall i :: 0 <= i < |a| ==> a[i].met ==> b[i].met
  {
    EvaluateReportsEveryRule(p, policy);
    EvaluateReportsEveryRule(p + q, policy);
    forall i | 0 <= i < |RulesOf(policy)|
      ensures Evaluate(p, policy)[i].met ==> Evaluate(p + q, policy)[i].met
    {
      RuleSurvivesAppend(p, q, RulesOf(policy)[i], policy);
    }
  }

  lemma {:induction false} MetCountIsNumberOfMetRules(results: seq<RuleResult>)
    ensures MetCount(results) == |set i | 0 <= i < |results| && results[i].met|
  {
    if results != [] {
      var n := |results| - 1;
      MetCountIsNumberOfMetRules(results[..n]);
      assert forall i :: 0 <= i < n ==> results[..n][i] == results[i];
      assert (set i | 0 <= i < |results| && results[i].met)
          == (set i | 0 <= i < n && results[..n][i].met) + if results[n].met then {n} else {};
    }
  }

  /** The number of lit segments is the nearest to five times the share of the rules that are met, halves
      upwards, but at least one. */
  lemma MeterShowsTheShare(p: Password, policy: PasswordPolicy)
    requires p != []
    ensures var results := Evaluate(p, policy);
      var (total, met) := (|results|, |set i | 0 <= i < |results| && results[i].met|);
      var segments := Segments(p, policy);
      total > 0 && segments >= 1
      && 10 * met < (2 * segments + 1) * total && (segments > 1 ==> (2 * segments - 1) * total <= 10 * met)
  {
    var results := Evaluate(p, policy);
    EvaluateReportsEveryRule(p, policy);
    MetCountIsNumberOfMetRules(results);
    RoundIsNearest(MetCount(results) * 5, |results|);
    AtLeastOneIsAbove(MetCount(results) * 5, |results|);
  }

  lemma AtLeastOneIsAbove(n: nat, d: nat)
    requires 0 < d
    ensures var s := Max(1, Round(n, d)); 2 * n < (2 * s + 1) * d && (s > 1 ==> (2 * s - 1) * d <= 2 * n)
  {
    RoundIsNearest(n, d);
    var q := Round(n, d);
    if q < 1 {
      assert q == 0 && (2 * q + 1) * d == d && (2 * 1 + 1) * d == 3 * d;
    }
  }

  lemma RoundIsNearest(n: nat, d: nat)
    requires 0 < d
    ensures (2 * Round(n, d) - 1) * d <= 2 * n < (2 * Round(n, d) + 1) * d
  {
    DivisionBounds(2 * n + d, 2 * d);
    var q := Round(n, d);
    assert q * (2 * d) == 2 * q * d;
    assert (2 * q - 1) * d == 2 * q * d - d && (2 * q + 1) * d == 2 * q * d + d;
  }

  lemma SegmentsGrow(m: nat, n: nat, total: nat)
    requires m <= n && 0 < total
    ensures Round(m * 5, total) <= Round(n * 5, total)
  {
    DivMonotone(2 * (m * 5) + total, 2 * (n * 5) + total, 2 * total);
  }

  /** The meter shows one to five segments for any password, all five exactly when every rule is met,
      and typing more characters never takes a segment away. */
  lemma MeterIsHonest(p: Password, q: Password, policy: PasswordPolicy)
    ensures p != [] ==> 1 <= Segments(p, policy) <= 5 && LevelIndex(Segments(p, policy)) == Segments(p, policy) - 1
    ensures p != [] ==> (Segments(p, policy) == 5 <==> AllMet(p, policy))
    ensures Segments(p, policy) <= Segments(p + q, policy)
  {
    AppendingKeepsRulesMet(p, q, policy);
    var a, b := Evaluate(p, policy), Evaluate(p + q, policy);
    MetCountCompares(a, b);
    MetCountCompares(a, a);
    RoundingIsExact(MetCount(a), |a|);
    SegmentsGrow(MetCount(a), MetCount(b), |a|);
  }
}

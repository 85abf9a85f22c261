/** The legacy-name text rewrite of scripts/full_migration.py: five literal substitutions applied one
    after the other, shown equal to a single left-to-right pass that tries all five at each position. */
module Rewriting {

  datatype Rule = Rule(pattern: string, replacement: string)

  const MAPPING: seq<Rule> := [
    Rule("zttato-platform", "zlttbots"),
    Rule("zttato_platform", "zlttbots"),
    Rule("ZTTATO_PLATFORM", "ZLTTBOTS"),
    Rule("ZTTATO-PLATFORM", "ZLTTBOTS"),
    Rule("ZTTATO", "ZLTTBOTS")
  ]

  predicate StartsWith(s: string, p: string) {
    |p| <= |s| && s[..|p|] == p
  }

  lemma StartsWithHead(s: string, p: string, n: nat)
    requires n <= |s| && n <= |p|
    ensures StartsWith(s, p) ==> s[..n] == p[..n]
  {
    if StartsWith(s, p) {
      assert s[..|p|][..n] == s[..n];
    }
  }

  ghost predicate Contains(s: string, p: string) {
    exists i :: 0 <= i <= |s| && StartsWith(s[i..], p)
  }

  /** Index of the first rule whose pattern starts `s`, or the number of rules. */
  function FirstRule(s: string, rules: seq<Rule>): (k: nat)
    ensures k <= |rules|
    ensures k < |rules| ==> StartsWith(s, rules[k].pattern)
    ensures forall j :: 0 <= j < k ==> !StartsWith(s, rules[j].pattern)
  {
    if rules == [] || StartsWith(s, rules[0].pattern) then 0
    else 1 + FirstRule(s, rules[1..])
  }

  ghost predicate NonEmpty(rules: seq<Rule>) {
    forall k :: 0 <= k < |rules| ==> rules[k].pattern != "" && rules[k].replacement != ""
  }

  /** One left-to-right, non-overlapping pass; with a single rule it is what `re.subn` does. */
  function Rewrite(s: string, rules: seq<Rule>): string
    requires NonEmpty(rules)
  {
    if s == "" then ""
    else
      var k := FirstRule(s, rules);
      if k < |rules| then rules[k].replacement + Rewrite(s[|rules[k].pattern|..], rules)
      else [s[0]] + Rewrite(s[1..], rules)
  }

  /** How often rule `k` fires in that pass. */
  function Hits(s: string, rules: seq<Rule>, k: nat): nat
    requires NonEmpty(rules)
  {
    if s == "" then 0
    else
      var m := FirstRule(s, rules);
      if m < |rules| then (if m == k then 1 else 0) + Hits(s[|rules[m].pattern|..], rules, k)
      else Hits(s[1..], rules, k)
  }

  /** Occurrences of `p` can neither touch a replacement nor swallow the start of another pattern. */
  predicate Apart(p: string, rule: Rule) {
    && |p| >= 2 && |rule.replacement| >= 2 && rule.pattern != ""
    && p[0] !in rule.replacement[1..] && rule.replacement[0] !in p[1..]
    && p[..2] != rule.replacement[..2]
    && rule.pattern[0] !in p[1..]
  }

  ghost predicate AllApart(p: string, rules: seq<Rule>) {
    forall k :: 0 <= k < |rules| ==> Apart(p, rules[k])
  }

  /** Shape shared by the legacy and the new names: the letter Z occurs first and nowhere else. */
  predicate LeadingZ(s: string) {
    && |s| >= 2 && s[0] in {'z', 'Z'}
    && forall c :: c in s[1..] ==> c !in {'z', 'Z'}
  }

  lemma MappingShape(k: nat)
    requires k < |MAPPING|
    ensures LeadingZ(MAPPING[k].pattern) && MAPPING[k].pattern[1] in {'t', 'T'}
    ensures LeadingZ(MAPPING[k].replacement) && MAPPING[k].replacement[1] in {'l', 'L'}
  {
    hide LeadingZ;
    LowerDash();
    LowerScore();
    UpperScore();
    UpperDash();
    Upper();
    NewLower();
    NewUpper();
    assert MAPPING[k] in MAPPING[..2] + MAPPING[2..];
  }

  lemma LowerDash()
    ensures LeadingZ("zttato-platform") && "zttato-platform"[1] == 't'
  {
    assert "zttato-platform"[1..] == "ttato-platform";
  }

  lemma LowerScore()
    ensures LeadingZ("zttato_platform") && "zttato_platform"[1] == 't'
  {
    assert "zttato_platform"[1..] == "ttato_platform";
  }

  lemma UpperScore()
    ensures LeadingZ("ZTTATO_PLATFORM") && "ZTTATO_PLATFORM"[1] == 'T'
  {
    assert "ZTTATO_PLATFORM"[1..] == "TTATO_PLATFORM";
  }

  lemma UpperDash()
    ensures LeadingZ("ZTTATO-PLATFORM") && "ZTTATO-PLATFORM"[1] == 'T'
  {
    assert "ZTTATO-PLATFORM"[1..] == "TTATO-PLATFORM";
  }

  lemma Upper()
    ensures LeadingZ("ZTTATO") && "ZTTATO"[1] == 'T'
  {
    assert "ZTTATO"[1..] == "TTATO";
  }

  lemma NewLower()
    ensures LeadingZ("zlttbots") && "zlttbots"[1] == 'l'
  {
    assert "zlttbots"[1..] == "lttbots";
  }

  lemma NewUpper()
    ensures LeadingZ("ZLTTBOTS") && "ZLTTBOTS"[1] == 'L'
  {
    assert "ZLTTBOTS"[1..] == "LTTBOTS";
  }

  lemma MappingApart(i: nat, k: nat)
    requires i < |MAPPING| && k < |MAPPING|
    ensures Apart(MAPPING[i].pattern, MAPPING[k])
  {
    MappingShape(i);
    MappingShape(k);
    assert MAPPING[i].pattern[..2][1] == MAPPING[i].pattern[1];
    assert MAPPING[k].replacement[..2][1] == MAPPING[k].replacement[1];
  }

  lemma MappingDistinct(i: nat, k: nat)
    requires i < k < |MAPPING|
    ensures MAPPING[i].pattern != MAPPING[k].pattern
  {
    assert MAPPING[0].pattern[0] == MAPPING[1].pattern[0] == 'z';
    assert MAPPING[2].pattern[0] == MAPPING[3].pattern[0] == 'Z';
    assert MAPPING[0].pattern[6] == MAPPING[3].pattern[6] == '-';
    assert MAPPING[1].pattern[6] == MAPPING[2].pattern[6] == '_';
    assert |MAPPING[4].pattern| == 6;
  }

  lemma MappingFits()
    ensures NonEmpty(MAPPING)
    ensures forall i :: 0 <= i < |MAPPING| ==> AllApart(MAPPING[i].pattern, MAPPING)
    ensures forall i, k :: 0 <= i < k < |MAPPING| ==> MAPPING[i].pattern != MAPPING[k].pattern
  {
    assert NonEmpty(MAPPING) by {
      forall k | 0 <= k < |MAPPING| ensures MAPPING[k].pattern != "" && MAPPING[k].replacement != "" {
        MappingShape(k);
      }
    }
    hide MAPPING, Apart;
    forall i, k | 0 <= i < |MAPPING| && 0 <= k < |MAPPING| ensures Apart(MAPPING[i].pattern, MAPPING[k]) {
      MappingApart(i, k);
    }
    forall i, k | 0 <= i < k < |MAPPING| ensures MAPPING[i].pattern != MAPPING[k].pattern {
      MappingDistinct(i, k);
    }
  }

  // ---------- what the pass leaves in place ----------

  /** Where a rule fires, the output starts with something that neither begins `p` nor continues it. */
  lemma OutputHead(s: string, rules: seq<Rule>, p: string)
    requires NonEmpty(rules) && AllApart(p, rules) && s != ""
    ensures FirstRule(s, rules) < |rules| ==>
              Rewrite(s, rules) != "" && Rewrite(s, rules)[0] !in p[1..] && !StartsWith(Rewrite(s, rules), p)
  {
    var m, out := FirstRule(s, rules), Rewrite(s, rules);
    if m < |rules| {
      assert out[..2] == rules[m].replacement[..2];
      StartsWithHead(out, p, 2);
    }
  }

  /** A nonempty text starts with a nonempty one if the first characters and then the rests agree. */
  lemma StartsCons(s: string, q: string)
    requires q != ""
    ensures StartsWith(s, q) <==> s != "" && s[0] == q[0] && StartsWith(s[1..], q[1..])
  {
    assert q == [q[0]] + q[1..];
    if |q| <= |s| {
      assert s[..|q|] == [s[0]] + s[1..][..|q| - 1];
      assert s[1..][..|q| - 1] == s[..|q|][1..];
    }
  }

  /** Where no rule fires one character is copied. */
  lemma CopiesOne(s: string, rules: seq<Rule>)
    requires NonEmpty(rules) && s != "" && FirstRule(s, rules) == |rules|
    ensures Rewrite(s, rules) == [s[0]] + Rewrite(s[1..], rules)
    ensures Rewrite(s, rules) != "" && Rewrite(s, rules)[0] == s[0]
    ensures Rewrite(s, rules)[1..] == Rewrite(s[1..], rules)
  {
  }

  /** Text of the output that continues an occurrence of `p` was copied from the input. */
  lemma {:induction false} CopiedTail(s: string, rules: seq<Rule>, p: string, k: nat)
    requires NonEmpty(rules) && AllApart(p, rules)
    requires 1 <= k <= |p| && StartsWith(Rewrite(s, rules), p[k..])
    ensures StartsWith(s, p[k..])
    decreases |p| - k
  {
    if k == |p| {
    } else {
      assert s != "";
      hide StartsWith, Rewrite, FirstRule, NonEmpty, AllApart;
      var q := p[k..];
      assert q[0] == p[k] == p[1..][k - 1] && q[1..] == p[k+1..];
      StartsCons(Rewrite(s, rules), q);
      OutputHead(s, rules, p);
      CopiesOne(s, rules);
      CopiedTail(s[1..], rules, p, k + 1);
      StartsCons(s, q);
    }
  }

  /** The output starts with `p` only where the input does and no rule fires. */
  lemma StartOfOutput(s: string, rules: seq<Rule>, p: string)
    requires NonEmpty(rules) && AllApart(p, rules) && p != ""
    requires StartsWith(Rewrite(s, rules), p)
    ensures FirstRule(s, rules) == |rules| && StartsWith(s, p)
  {
    assert s != "";
    hide StartsWith, Rewrite, FirstRule, NonEmpty, AllApart;
    StartsCons(Rewrite(s, rules), p);
    OutputHead(s, rules, p);
    CopiesOne(s, rules);
    CopiedTail(s[1..], rules, p, 1);
    StartsCons(s, p);
  }

  lemma {:induction false} NoRules(s: string)
    ensures Rewrite(s, []) == s
  {
    if s != "" { NoRules(s[1..]); }
  }

  /** No pattern that is apart from every rule, and itself one of them, survives the pass. */
  lemma {:induction false} PatternGone(s: string, rules: seq<Rule>, k: nat, i: nat)
    requires NonEmpty(rules) && k < |rules| && AllApart(rules[k].pattern, rules)
    requires i <= |Rewrite(s, rules)|
    ensures !StartsWith(Rewrite(s, rules)[i..], rules[k].pattern)
    decreases |s|
  {
    var p := rules[k].pattern;
    var out := Rewrite(s, rules);
    if i == 0 {
      assert out[0..] == out;
      if StartsWith(out, p) { StartOfOutput(s, rules, p); }
    } else {
      var m := FirstRule(s, rules);
      var head := if m < |rules| then rules[m].replacement else [s[0]];
      var rest := if m < |rules| then s[|rules[m].pattern|..] else s[1..];
      assert out == head + Rewrite(rest, rules);
      if i < |head| {
        assert out[i..][0] == head[i] == head[1..][i - 1];
        StartsWithHead(out[i..], p, 1);
      } else {
        assert out[i..] == Rewrite(rest, rules)[i - |head|..];
        PatternGone(rest, rules, k, i - |head|);
      }
    }
  }

  /** A text without the patterns passes through untouched. */
  lemma {:induction false} CleanIsFixed(s: string, rules: seq<Rule>, k: nat)
    requires NonEmpty(rules)
    requires forall j :: 0 <= j < |rules| ==> !Contains(s, rules[j].pattern)
    ensures Rewrite(s, rules) == s && Hits(s, rules, k) == 0
  {
    if s != "" {
      assert s[0..] == s;
      forall j | 0 <= j < |rules| ensures !Contains(s[1..], rules[j].pattern) {
        forall i | 0 <= i <= |s[1..]| ensures !StartsWith(s[1..][i..], rules[j].pattern) {
          assert s[1..][i..] == s[i+1..];
        }
      }
      CleanIsFixed(s[1..], rules, k);
    }
  }

  // ---------- one more rule, one more pass ----------

  lemma NoFire(s: string, rules: seq<Rule>)
    requires NonEmpty(rules) && s != "" && forall k :: 0 <= k < |rules| ==> rules[k].pattern[0] != s[0]
    ensures FirstRule(s, rules) == |rules|
  {
  }

  lemma Unfold(s: string, rules: seq<Rule>, h: nat)
    requires NonEmpty(rules) && s != "" && FirstRule(s, rules) == |rules|
    ensures Rewrite(s, rules) == [s[0]] + Rewrite(s[1..], rules)
    ensures Hits(s, rules, h) == Hits(s[1..], rules, h)
  {
  }

  /** Copying characters that start no pattern. */
  lemma {:induction false} CopyThrough(s: string, rules: seq<Rule>, p: string, k: nat, h: nat)
    requires NonEmpty(rules) && AllApart(p, rules) && 1 <= k <= |p| && StartsWith(s, p[k..])
    ensures Rewrite(s, rules) == p[k..] + Rewrite(s[|p| - k..], rules)
    ensures Hits(s, rules, h) == Hits(s[|p| - k..], rules, h)
    decreases |p| - k
  {
    hide Apart, AllApart, FirstRule, NonEmpty, Rewrite, Hits;
    if k == |p| {
      assert s[0..] == s && p[k..] == "";
    } else {
      Unfold(s, rules, h) by { CopyOne(s, rules, p, k); }
      CopyOne(s, rules, p, k);
      CopyThrough(s[1..], rules, p, k + 1, h);
      assert s[1..][|p| - k - 1..] == s[|p| - k..];
      assert p[k..] == [p[k]] + p[k+1..];
    }
  }

  lemma CopyOne(s: string, rules: seq<Rule>, p: string, k: nat)
    requires NonEmpty(rules) && AllApart(p, rules) && 1 <= k < |p| && StartsWith(s, p[k..])
    ensures s[0] == p[k] && FirstRule(s, rules) == |rules| && StartsWith(s[1..], p[k+1..])
  {
    assert p[k..][0] == p[k] == s[0];
    assert p[1..][k - 1] == p[k];
    NoFire(s, rules);
    assert s[1..][..|p| - k - 1] == s[..|p| - k][1..] == p[k..][1..] == p[k+1..];
  }

  /** A pass with one rule does not look into a replacement written by another. */
  lemma {:induction false} SkipReplacement(r: string, j: nat, t: string, rule: Rule)
    requires NonEmpty([rule]) && 1 <= j <= |r| && rule.pattern != "" && rule.pattern[0] !in r[1..]
    ensures Rewrite(r[j..] + t, [rule]) == r[j..] + Rewrite(t, [rule])
    ensures Hits(r[j..] + t, [rule], 0) == Hits(t, [rule], 0)
    decreases |r| - j
  {
    hide Rewrite, Hits, FirstRule, NonEmpty;
    if j == |r| {
      assert r[j..] + t == t;
    } else {
      var s := r[j..] + t;
      assert s[0] == r[j] == r[1..][j - 1];
      assert s[1..] == r[j+1..] + t;
      NoFire(s, [rule]);
      Unfold(s, [rule], 0);
      SkipReplacement(r, j + 1, t, rule);
      assert r[j..] == [r[j]] + r[j+1..];
    }
  }

  lemma SkipWholeReplacement(r: string, t: string, rule: Rule)
    requires NonEmpty([rule]) && |r| >= 2 && |rule.pattern| >= 2
    requires rule.pattern[0] !in r[1..] && rule.pattern[..2] != r[..2]
    ensures Rewrite(r + t, [rule]) == r + Rewrite(t, [rule])
    ensures Hits(r + t, [rule], 0) == Hits(t, [rule], 0)
  {
    hide Rewrite, Hits, NonEmpty;
    var s := r + t;
    StartsWithHead(s, rule.pattern, 2);
    assert s[..2] == r[..2];
    assert FirstRule(s, [rule]) == |[rule]|;
    hide FirstRule;
    assert s[1..] == r[1..] + t;
    Unfold(s, [rule], 0);
    SkipReplacement(r, 1, t, rule);
    assert r == [r[0]] + r[1..];
  }

  lemma {:induction false} FirstRuleAppend(s: string, rules: seq<Rule>, rule: Rule)
    ensures FirstRule(s, rules + [rule]) ==
            if FirstRule(s, rules) < |rules| || StartsWith(s, rule.pattern) then FirstRule(s, rules) else |rules| + 1
    decreases rules
  {
    if rules != [] {
      assert (rules + [rule])[1..] == rules[1..] + [rule];
      FirstRuleAppend(s, rules[1..], rule);
    }
  }

  /** Running one more rule over the output is the same as having had it in the pass. */
  lemma {:induction false} PassExtends(s: string, rules: seq<Rule>, rule: Rule)
    requires NonEmpty(rules + [rule]) && NonEmpty(rules) && NonEmpty([rule])
    requires AllApart(rule.pattern, rules)
    ensures Rewrite(Rewrite(s, rules), [rule]) == Rewrite(s, rules + [rule])
    ensures Hits(Rewrite(s, rules), [rule], 0) == Hits(s, rules + [rule], |rules|)
    ensures forall k :: 0 <= k < |rules| ==> Hits(s, rules + [rule], k) == Hits(s, rules, k)
    decreases |s|
  {
    if s == "" {
    } else {
      var all, p, out := rules + [rule], rule.pattern, Rewrite(s, rules);
      var m := FirstRule(s, rules);
      FirstRuleAppend(s, rules, rule);
      if m < |rules| {
        var rest := s[|rules[m].pattern|..];
        assert all[m] == rules[m];
        SkipWholeReplacement(rules[m].replacement, Rewrite(rest, rules), rule);
        PassExtends(rest, rules, rule);
      } else if StartsWith(s, p) {
        PassFires(s, rules, rule);
      } else {
        if StartsWith(out, p) { StartOfOutput(s, rules, p); }
        assert out[1..] == Rewrite(s[1..], rules);
        PassExtends(s[1..], rules, rule);
      }
    }
  }

  /** The case where the new rule is the one that fires at the front. */
  lemma {:induction false} PassFires(s: string, rules: seq<Rule>, rule: Rule)
    requires NonEmpty(rules + [rule]) && NonEmpty(rules) && NonEmpty([rule])
    requires AllApart(rule.pattern, rules)
    requires FirstRule(s, rules) == |rules| && StartsWith(s, rule.pattern)
    ensures Rewrite(Rewrite(s, rules), [rule]) == Rewrite(s, rules + [rule])
    ensures Hits(Rewrite(s, rules), [rule], 0) == Hits(s, rules + [rule], |rules|)
    ensures forall k :: 0 <= k < |rules| ==> Hits(s, rules + [rule], k) == Hits(s, rules, k)
    decreases |s|, 0
  {
    hide Apart, AllApart;
    var p := rule.pattern;
    assert [rule][0] == rule;
    var rest := s[|p|..];
    FirstRuleAppend(s, rules, rule);
    CopyPattern(s, rules, p, 0);
    forall k ensures Hits(s, rules, k) == Hits(rest, rules, k) {
      CopyPattern(s, rules, p, k);
    }
    assert StartsWith(Rewrite(s, rules), p) && Rewrite(s, rules)[|p|..] == Rewrite(rest, rules);
    assert (rules + [rule])[|rules|] == rule;
    PassExtends(rest, rules, rule);
  }

  /** An occurrence where no rule fires is copied whole. */
  lemma CopyPattern(s: string, rules: seq<Rule>, p: string, k: nat)
    requires NonEmpty(rules) && AllApart(p, rules) && p != ""
    requires FirstRule(s, rules) == |rules| && StartsWith(s, p)
    ensures Rewrite(s, rules) == p + Rewrite(s[|p|..], rules)
    ensures Hits(s, rules, k) == Hits(s[|p|..], rules, k)
  {
    hide Apart, AllApart, FirstRule, NonEmpty, Rewrite, Hits;
    assert s[1..][..|p| - 1] == s[..|p|][1..] == p[1..];
    Unfold(s, rules, k);
    CopyThrough(s[1..], rules, p, 1, k);
    assert s[1..][|p| - 1..] == s[|p|..];
    assert p == [s[0]] + p[1..];
  }

  // ---------- length ----------

  ghost function Growth(s: string, rules: seq<Rule>, k: nat): int
    requires NonEmpty(rules) && k <= |rules|
  {
    if k == 0 then 0
    else Growth(s, rules, k - 1) + Hits(s, rules, k - 1) * (|rules[k-1].replacement| - |rules[k-1].pattern|)
  }

  function Rest(s: string, rules: seq<Rule>): string
    requires NonEmpty(rules) && s != ""
  {
    var m := FirstRule(s, rules);
    if m < |rules| then s[|rules[m].pattern|..] else s[1..]
  }

  lemma HitsStep(s: string, rules: seq<Rule>, k: nat)
    requires NonEmpty(rules) && s != ""
    ensures FirstRule(s, rules) < |rules| ==>
              Hits(s, rules, k) == Hits(Rest(s, rules), rules, k) + if FirstRule(s, rules) == k then 1 else 0
    ensures FirstRule(s, rules) == |rules| ==> Hits(s, rules, k) == Hits(Rest(s, rules), rules, k)
  {
  }

  lemma {:induction false} GrowthStep(s: string, rules: seq<Rule>, k: nat)
    requires NonEmpty(rules) && k <= |rules| && s != ""
    ensures var m := FirstRule(s, rules);
            Growth(s, rules, k) == Growth(Rest(s, rules), rules, k)
              + (if m < k then |rules[m].replacement| - |rules[m].pattern| else 0)
  {
    hide Hits, Rest, FirstRule, NonEmpty;
    if k > 0 {
      GrowthStep(s, rules, k - 1);
      HitsStep(s, rules, k - 1);
      var fires := if FirstRule(s, rules) == k - 1 then 1 else 0;
      Distribute(Hits(Rest(s, rules), rules, k - 1), fires, |rules[k-1].replacement| - |rules[k-1].pattern|);
    }
  }

  lemma Distribute(a: int, b: int, d: int)
    ensures (a + b) * d == a * d + b * d
  {
  }

  /** The length changes by exactly what the reported counts say. */
  lemma {:induction false} LengthFromHits(s: string, rules: seq<Rule>)
    requires NonEmpty(rules)
    ensures |Rewrite(s, rules)| == |s| + Growth(s, rules, |rules|)
    decreases |s|
  {
    if s == "" {
      GrowthEmpty(rules, |rules|);
    } else {
      var m := FirstRule(s, rules);
      GrowthStep(s, rules, |rules|);
      LengthFromHits(Rest(s, rules), rules);
    }
  }

  lemma {:induction false} GrowthEmpty(rules: seq<Rule>, k: nat)
    requires NonEmpty(rules) && k <= |rules|
    ensures Growth("", rules, k) == 0
  {
    if k > 0 { GrowthEmpty(rules, k - 1); }
  }

  // ---------- apply_mapping ----------

  lemma MappedIsClean(content: string)
    requires NonEmpty(MAPPING)
    ensures forall k :: 0 <= k < |MAPPING| ==> !Contains(Rewrite(content, MAPPING), MAPPING[k].pattern)
  {
    MappingFits();
    var updated := Rewrite(content, MAPPING);
    forall k, i | 0 <= k < |MAPPING| && 0 <= i <= |updated| ensures !StartsWith(updated[i..], MAPPING[k].pattern) {
      PatternGone(content, MAPPING, k, i);
    }
  }

  lemma MappingPrefix(i: nat)
    requires i < |MAPPING|
    ensures NonEmpty(MAPPING[..i]) && NonEmpty([MAPPING[i]]) && NonEmpty(MAPPING[..i] + [MAPPING[i]])
    ensures AllApart(MAPPING[i].pattern, MAPPING[..i])
    ensures MAPPING[..i] + [MAPPING[i]] == MAPPING[..i+1]
  {
    MappingFits();
    hide MAPPING, Apart;
    assert forall k :: 0 <= k < i ==> MAPPING[..i][k] == MAPPING[k];
    assert [MAPPING[i]][0] == MAPPING[i];
  }

  /** The counts say how often each of the first `i` patterns fired. */
  ghost predicate CountedTo(content: string, counts: map<string, nat>, i: nat)
    requires i <= |MAPPING| && NonEmpty(MAPPING[..i])
  {
    && (forall k :: 0 <= k < i ==>
          && (MAPPING[k].pattern in counts <==> Hits(content, MAPPING[..i], k) > 0)
          && (MAPPING[k].pattern in counts ==> counts[MAPPING[k].pattern] == Hits(content, MAPPING[..i], k)))
    && (forall p :: p in counts ==> exists k :: 0 <= k < i && MAPPING[k].pattern == p)
  }

  lemma CountStep(content: string, counts: map<string, nat>, i: nat, count: nat)
    requires i < |MAPPING| && NonEmpty(MAPPING[..i]) && NonEmpty(MAPPING[..i+1])
    requires CountedTo(content, counts, i) && count == Hits(content, MAPPING[..i+1], i)
    requires forall k :: 0 <= k < i ==> Hits(content, MAPPING[..i+1], k) == Hits(content, MAPPING[..i], k)
    ensures CountedTo(content, if count > 0 then counts[MAPPING[i].pattern := count] else counts, i + 1)
  {
    hide Hits, NonEmpty, MAPPING;
    forall k | 0 <= k < i ensures MAPPING[k].pattern != MAPPING[i].pattern { MappingDistinct(k, i); }
  }

  method ApplyMapping(content: string) returns (updated: string, counts: map<string, nat>)
    ensures NonEmpty(MAPPING) && updated == Rewrite(content, MAPPING)
    ensures forall k :: 0 <= k < |MAPPING| ==>
              && (MAPPING[k].pattern in counts <==> Hits(content, MAPPING, k) > 0)
              && (MAPPING[k].pattern in counts ==> counts[MAPPING[k].pattern] == Hits(content, MAPPING, k))
    ensures forall p :: p in counts ==> exists k :: 0 <= k < |MAPPING| && MAPPING[k].pattern == p
    ensures forall k :: 0 <= k < |MAPPING| ==> !Contains(updated, MAPPING[k].pattern)
    ensures |updated| == |content| + Growth(content, MAPPING, |MAPPING|)
  {
    updated, counts := content, map[];
    MappingFits();
    NoRules(content);
    MappingPrefix(0);
    assert MAPPING[..0] == [];
    hide Rewrite, Hits, Growth, NonEmpty, AllApart, Contains, MAPPING;
    for i := 0 to |MAPPING|
      invariant NonEmpty(MAPPING[..i]) && updated == Rewrite(content, MAPPING[..i])
      invariant CountedTo(content, counts, i)
    {
      hide CountedTo;
      var rule := MAPPING[i];
      MappingPrefix(i);
      PassExtends(content, MAPPING[..i], rule);
      var count := Hits(updated, [rule], 0);
      updated := Rewrite(updated, [rule]);
      CountStep(content, counts, i, count);
      if count > 0 {
        counts := counts[rule.pattern := count];  // the patterns differ, so none is counted yet
      }
    }
    assert MAPPING[..|MAPPING|] == MAPPING;
    MappedIsClean(content);
    LengthFromHits(content, MAPPING);
  }

  /** Applying the mapping to its own output changes nothing and reports no counts. */
  lemma MappingIdempotent(content: string, k: nat)
    requires NonEmpty(MAPPING)
    ensures Rewrite(Rewrite(content, MAPPING), MAPPING) == Rewrite(content, MAPPING)
    ensures Hits(Rewrite(content, MAPPING), MAPPING, k) == 0
  {
    MappedIsClean(content);
    CleanIsFixed(Rewrite(content, MAPPING), MAPPING, k);
  }

  /** A text that is just the shortest legacy name. */
  lemma OneLegacyName(s: string)
    requires NonEmpty(MAPPING) && s == "ZTTATO"
    ensures Rewrite(s, MAPPING) == "ZLTTBOTS"
  {
    assert FirstRule(s, MAPPING) == 4 by { OnlyTheLast(s); }
    assert |MAPPING[4].pattern| == |s| && s[|s|..] == "";
    assert Rewrite(s, MAPPING) == MAPPING[4].replacement + Rewrite("", MAPPING);
  }

  lemma OnlyTheLast(s: string)
    requires s == "ZTTATO"
    ensures FirstRule(s, MAPPING) == 4
  {
    assert s[..6] == s && StartsWith(s, MAPPING[4].pattern);
    hide FirstRule;
    assert forall j :: 0 <= j < 4 ==> |MAPPING[j].pattern| == 15;
    assert FirstRule(s, MAPPING) <= 4;
  }
}

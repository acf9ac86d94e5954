/** Which telemetry raises an alert (src/alerts/alert-thresholds.ts). */
module AlertThresholds {
  import opened Common
  import opened Text

  const LOG_ERROR_COUNT_THRESHOLD := 10

  /** Fifteen minutes, in milliseconds. */
  const ALERT_DEDUPE_WINDOW_MS := 15 * 60 * 1000

  datatype Severity = Info | Warning | Critical {
    function Rank(): nat {
      match this
      case Info => 0
      case Warning => 1
      case Critical => 2
    }
  }

  datatype ThresholdMatch = ThresholdMatch(title: string, severity: Severity)

  /** A rule applies to the metrics whose lower-case name contains one of the needles. */
  datatype Rule = Rule(needles: seq<string>, threshold: real, title: string) {
    predicate Applies(name: string) {
      exists n | n in needles :: Contains(name, n)
    }
  }

  const METRIC_RULES := [
    Rule(["error_rate", "error-rate"], 0.05, "Elevated error rate"),
    Rule(["latency"], 400.0, "Elevated latency"),
    Rule(["cpu"], 80.0, "High CPU utilization"),
    Rule(["memory"], 85.0, "High memory utilization")
  ]

  const LOG_TITLE := "Spike in error logs"

  function FindRule(rules: seq<Rule>, name: string): Option<Rule> {
    if rules == [] then None
    else if rules[0].Applies(name) then Some(rules[0])
    else FindRule(rules[1..], name)
  }

  function MatchAgainst(rules: seq<Rule>, name: string, value: real): Option<ThresholdMatch>
    requires forall r | r in rules :: r.threshold > 0.0
  {
    match FindRule(rules, Lower(name))
    case None => None
    case Some(rule) =>
      if value < rule.threshold then None else
      RuleIsFromTable(rules, Lower(name));
      var overRatio := value / rule.threshold;
      Some(ThresholdMatch(rule.title, if overRatio >= 1.5 then Critical else Warning))
  }

  function MatchMetricThreshold(name: string, value: real): Option<ThresholdMatch> {
    MatchAgainst(METRIC_RULES, name, value)
  }

  function LogErrorVolumeMatch(count: nat): Option<ThresholdMatch> {
    if count < LOG_ERROR_COUNT_THRESHOLD then None else
    Some(ThresholdMatch(LOG_TITLE, if count >= LOG_ERROR_COUNT_THRESHOLD * 2 then Critical else Warning))
  }

  lemma RuleIsFromTable(rules: seq<Rule>, name: string)
    ensures FindRule(rules, name).Some? ==> FindRule(rules, name).value in rules
  {
  }

  /** The i-th rule is the first of the table that applies. */
  ghost predicate FirstApplies(rules: seq<Rule>, name: string, i: nat) {
    i < |rules| && rules[i].Applies(name) && forall j: nat | j < i :: !rules[j].Applies(name)
  }

  lemma {:induction false} FindRuleIsFirst(rules: seq<Rule>, name: string)
    ensures forall i: nat | FirstApplies(rules, name, i) :: FindRule(rules, name) == Some(rules[i])
    ensures FindRule(rules, name).Some? ==> exists i: nat :: FirstApplies(rules, name, i)
  {
    if rules != [] {
      FindRuleIsFirst(rules[1..], name);
      forall i: nat | FirstApplies(rules, name, i) ensures FindRule(rules, name) == Some(rules[i]) {
        if i > 0 {
          assert !rules[0].Applies(name);
          assert FirstApplies(rules[1..], name, i - 1) by {
            forall j: nat | j < i - 1 ensures !rules[1..][j].Applies(name) { assert !rules[j + 1].Applies(name); }
          }
        }
      }
      if rules[0].Applies(name) {
        assert FirstApplies(rules, name, 0);
      } else if FindRule(rules, name).Some? {
        var i: nat :| FirstApplies(rules[1..], name, i);
        assert FirstApplies(rules, name, i + 1) by {
          forall j: nat | j < i + 1 ensures !rules[j].Applies(name) {
            if j > 0 { assert rules[j] == rules[1..][j - 1]; }
          }
        }
      }
    }
  }

  /**
    A metric raises an alert exactly when the first rule that applies to its name has a threshold it
    reaches; that rule names the alert, and one and a half times its threshold makes it critical.
   */
  lemma MetricMatchIsFirstRule(rules: seq<Rule>, name: string, value: real, i: nat)
    requires forall r | r in rules :: r.threshold > 0.0
    requires FirstApplies(rules, Lower(name), i)
    ensures MatchAgainst(rules, name, value) == AtThreshold(value, rules[i].threshold, rules[i].title)
  {
    FindRuleIsFirst(rules, Lower(name));
    RatioAtLeast(value, rules[i].threshold);
  }

  /** An alert from the threshold on, which is critical from one and a half times the threshold on. */
  function AtThreshold(value: real, threshold: real, title: string): Option<ThresholdMatch> {
    if value < threshold then None
    else Some(ThresholdMatch(title, if value >= 1.5 * threshold then Critical else Warning))
  }

  lemma RatioAtLeast(value: real, t: real)
    requires t > 0.0
    ensures value / t >= 1.5 <==> value >= 1.5 * t
  {
    var q := value / t;
    assert q * t == value;
    if q >= 1.5 { assert (q - 1.5) * t >= 0.0; } else { assert (1.5 - q) * t > 0.0; }
  }

  /** A metric that no rule applies to raises nothing. */
  lemma NoRuleNoMatch(rules: seq<Rule>, name: string, value: real)
    requires forall r | r in rules :: r.threshold > 0.0 && !r.Applies(Lower(name))
    ensures MatchAgainst(rules, name, value).None?
  {
    FindRuleIsFirst(rules, Lower(name));
  }

  lemma OneNeedle(rule: Rule, name: string, needle: string)
    requires rule.needles == [needle]
    ensures rule.Applies(name) <==> Mentions(name, needle)
  {
    ContainsIffMentions(name, needle);
    assert needle in rule.needles;
  }

  lemma TwoNeedles(rule: Rule, name: string, first: string, second: string)
    requires rule.needles == [first, second]
    ensures rule.Applies(name) <==> Mentions(name, first) || Mentions(name, second)
  {
    ContainsIffMentions(name, first);
    ContainsIffMentions(name, second);
    assert first in rule.needles && second in rule.needles;
  }

  lemma RulesApplyTo(name: string)
    ensures METRIC_RULES[0].Applies(name) <==> Mentions(name, "error_rate") || Mentions(name, "error-rate")
    ensures METRIC_RULES[1].Applies(name) <==> Mentions(name, "latency")
    ensures METRIC_RULES[2].Applies(name) <==> Mentions(name, "cpu")
    ensures METRIC_RULES[3].Applies(name) <==> Mentions(name, "memory")
  {
    TwoNeedles(METRIC_RULES[0], name, "error_rate", "error-rate");
    OneNeedle(METRIC_RULES[1], name, "latency");
    OneNeedle(METRIC_RULES[2], name, "cpu");
    OneNeedle(METRIC_RULES[3], name, "memory");
  }

  /** The first rule with a needle that the name mentions, in whatever letter case, decides. */
  lemma MetricMatchIs(name: string, value: real)
    ensures MatchMetricThreshold(name, value) ==
      var n := Lower(name);
      if Mentions(n, "error_rate") || Mentions(n, "error-rate") then AtThreshold(value, 0.05, "Elevated error rate")
      else if Mentions(n, "latency") then AtThreshold(value, 400.0, "Elevated latency")
      else if Mentions(n, "cpu") then AtThreshold(value, 80.0, "High CPU utilization")
      else if Mentions(n, "memory") then AtThreshold(value, 85.0, "High memory utilization")
      else None
  {
    RulesApplyTo(Lower(name));
    FindRuleIsFirst(METRIC_RULES, Lower(name));
    if i: nat :| FirstApplies(METRIC_RULES, Lower(name), i) {
      MetricMatchIsFirstRule(METRIC_RULES, name, value, i);
    } else {
      NoRuleFirst(METRIC_RULES, Lower(name));
    }
  }

  /** Where no rule is the first to apply, none applies. */
  lemma {:induction false} NoRuleFirst(rules: seq<Rule>, name: string)
    requires !exists i: nat :: FirstApplies(rules, name, i)
    ensures forall i | 0 <= i < |rules| :: !rules[i].Applies(name)
    decreases |rules|
  {
    if rules != [] {
      var n := |rules| - 1;
      forall i: nat | FirstApplies(rules[..n], name, i) ensures false { assert FirstApplies(rules, name, i); }
      NoRuleFirst(rules[..n], name);
      forall i | 0 <= i < n ensures !rules[i].Applies(name) { assert !rules[..n][i].Applies(name); }
      if rules[n].Applies(name) { assert FirstApplies(rules, name, n); }
    }
  }

  /** More error logs never mean a weaker alert. */
  lemma LogVolumeIsMonotone(few: nat, many: nat)
    requires few <= many && LogErrorVolumeMatch(few).Some?
    ensures LogErrorVolumeMatch(many).Some?
    ensures LogErrorVolumeMatch(few).value.title == LogErrorVolumeMatch(many).value.title
    ensures LogErrorVolumeMatch(few).value.severity.Rank() <= LogErrorVolumeMatch(many).value.severity.Rank()
  {
  }
}

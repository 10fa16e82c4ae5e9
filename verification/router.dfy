/**
 The intent router: a query is lower-cased and checked against nine keyword
 lists in a fixed priority order; the first list with a keyword occurring in
 the query names the intent, and a query matching none is "general".
 */
module Router {
  import opened Text

  datatype Intent =
    | Potency | ReportResults | SpecJust | Ppq | Module3
    | Stability | Container | Replication | Comparability | General

  /** The label the source uses for each intent. */
  function Label(i: Intent): (s: string)
    ensures |s| > 0
  {
    match i
    case Potency => "potency"
    case ReportResults => "report_results"
    case SpecJust => "spec_just"
    case Ppq => "ppq"
    case Module3 => "module3"
    case Stability => "stability"
    case Container => "container"
    case Replication => "replication"
    case Comparability => "comparability"
    case General => "general"
  }

  /** The ten labels are pairwise different. */
  lemma LabelInjective(a: Intent, b: Intent)
    ensures Label(a) == Label(b) <==> a == b
  {
  }

  const PotencyKeywords: seq<string> :=
    ["potency", "ifn", "ifng", "interferon", "cytokine", "activation", "cytotoxic"]
  const ReportResultsKeywords: seq<string> :=
    ["report result", "report-results", "reporting only", "report-only"]
  const SpecKeywords: seq<string> :=
    ["spec", "specification", "acceptance criteria", "limits", "justification"]
  const PpqKeywords: seq<string> :=
    ["ppq", "process performance qualification", "process validation", "pv", "ppq timing"]
  const Module3Keywords: seq<string> :=
    ["module 3", "3.2.s", "3.2.p", "ctd"]
  const StabilityKeywords: seq<string> :=
    ["stability", "shelf life", "hold time"]
  const ContainerKeywords: seq<string> :=
    ["container", "closure", "ccit", "shipping", "cryo", "ln2"]
  const ReplicationKeywords: seq<string> :=
    ["rcl", "rca", "replication", "rcv"]
  const ComparabilityKeywords: seq<string> :=
    ["comparab", "bridge", "change"]

  /** `any(k in ql for k in keywords)` */
  predicate AnyIn(ql: string, keywords: seq<string>) {
    exists j :: 0 <= j < |keywords| && Contains(ql, keywords[j])
  }

  /** The router, branch by branch. */
  function RouteIntent(q: string): Intent {
    var ql := Lower(q);
    if AnyIn(ql, PotencyKeywords) then Potency
    else if AnyIn(ql, ReportResultsKeywords) then ReportResults
    else if AnyIn(ql, SpecKeywords) then SpecJust
    else if AnyIn(ql, PpqKeywords) then Ppq
    else if AnyIn(ql, Module3Keywords) then Module3
    else if AnyIn(ql, StabilityKeywords) then Stability
    else if AnyIn(ql, ContainerKeywords) then Container
    else if AnyIn(ql, ReplicationKeywords) then Replication
    else if AnyIn(ql, ComparabilityKeywords) then Comparability
    else General
  }

  /** One row of the priority table: an intent and the keywords that select it. */
  datatype Rule = Rule(intent: Intent, keywords: seq<string>)

  /** The nine rules in priority order. */
  const Rules: seq<Rule> := [
    Rule(Potency, PotencyKeywords),
    Rule(ReportResults, ReportResultsKeywords),
    Rule(SpecJust, SpecKeywords),
    Rule(Ppq, PpqKeywords),
    Rule(Module3, Module3Keywords),
    Rule(Stability, StabilityKeywords),
    Rule(Container, ContainerKeywords),
    Rule(Replication, ReplicationKeywords),
    Rule(Comparability, ComparabilityKeywords)
  ]

  /** Reference router: the intent of the first rule that matches, "general" if none does. */
  function FirstMatch(rules: seq<Rule>, ql: string): Intent
    decreases |rules|
  {
    if |rules| == 0 then General
    else if AnyIn(ql, rules[0].keywords) then rules[0].intent
    else FirstMatch(rules[1..], ql)
  }

  /** The rule at position `i` wins when it matches and no earlier rule does. */
  lemma {:induction false} FirstMatchPicksFirst(rules: seq<Rule>, ql: string, i: int)
    requires 0 <= i < |rules|
    requires AnyIn(ql, rules[i].keywords)
    requires forall j :: 0 <= j < i ==> !AnyIn(ql, rules[j].keywords)
    ensures FirstMatch(rules, ql) == rules[i].intent
    decreases i
  {
    if i > 0 {
      assert !AnyIn(ql, rules[0].keywords);
      assert forall j :: 0 <= j < i - 1 ==> rules[1..][j] == rules[j + 1];
      FirstMatchPicksFirst(rules[1..], ql, i - 1);
    }
  }

  /** With no rule matching, the reference router answers "general". */
  lemma {:induction false} FirstMatchNone(rules: seq<Rule>, ql: string)
    requires forall j :: 0 <= j < |rules| ==> !AnyIn(ql, rules[j].keywords)
    ensures FirstMatch(rules, ql) == General
    decreases |rules|
  {
    if |rules| > 0 {
      assert !AnyIn(ql, rules[0].keywords);
      assert forall j :: 0 <= j < |rules| - 1 ==> rules[1..][j] == rules[j + 1];
      FirstMatchNone(rules[1..], ql);
    }
  }

  /** One step of the reference router over a suffix of the table. */
  lemma FirstMatchStep(rules: seq<Rule>, k: int, ql: string)
    requires 0 <= k < |rules|
    ensures FirstMatch(rules[k..], ql) ==
              if AnyIn(ql, rules[k].keywords) then rules[k].intent else FirstMatch(rules[k + 1..], ql)
  {
    assert rules[k..][1..] == rules[k + 1..];
  }

  /** The router's branches agree with the priority table. */
  lemma RouteIntentIsFirstMatch(q: string)
    ensures RouteIntent(q) == FirstMatch(Rules, Lower(q))
  {
    var ql := Lower(q);
    assert Rules[9..] == [];
    FirstMatchStep(Rules, 8, ql);
    FirstMatchStep(Rules, 7, ql);
    FirstMatchStep(Rules, 6, ql);
    FirstMatchStep(Rules, 5, ql);
    FirstMatchStep(Rules, 4, ql);
    FirstMatchStep(Rules, 3, ql);
    FirstMatchStep(Rules, 2, ql);
    FirstMatchStep(Rules, 1, ql);
    FirstMatchStep(Rules, 0, ql);
    assert Rules[0..] == Rules;
  }

  /** No rule of the table selects "general", and no intent has two rules. */
  lemma RulesDistinct()
    ensures forall j :: 0 <= j < |Rules| ==> Rules[j].intent != General
    ensures forall j, k :: 0 <= j < k < |Rules| ==> Rules[j].intent != Rules[k].intent
  {
  }

  /** First-match priority: the intent of rule `i` is chosen exactly when rule `i`
      matches the lower-cased query and no earlier rule does. */
  lemma RoutePriority(q: string, i: int)
    requires 0 <= i < |Rules|
    ensures RouteIntent(q) == Rules[i].intent <==>
              AnyIn(Lower(q), Rules[i].keywords) && forall j :: 0 <= j < i ==> !AnyIn(Lower(q), Rules[j].keywords)
  {
    var ql := Lower(q);
    RouteIntentIsFirstMatch(q);
    RulesDistinct();
    if AnyIn(ql, Rules[i].keywords) && forall j :: 0 <= j < i ==> !AnyIn(ql, Rules[j].keywords) {
      FirstMatchPicksFirst(Rules, ql, i);
    } else if forall j :: 0 <= j < |Rules| ==> !AnyIn(ql, Rules[j].keywords) {
      FirstMatchNone(Rules, ql);
    } else {
      var m := FirstMatchingRule(ql);
      FirstMatchPicksFirst(Rules, ql, m);
    }
  }

  /** The position of the first rule matching `ql`, when there is one. */
  lemma FirstMatchingRule(ql: string) returns (m: int)
    requires exists j :: 0 <= j < |Rules| && AnyIn(ql, Rules[j].keywords)
    ensures 0 <= m < |Rules| && AnyIn(ql, Rules[m].keywords)
    ensures forall j :: 0 <= j < m ==> !AnyIn(ql, Rules[j].keywords)
  {
    m := 0;
    while !AnyIn(ql, Rules[m].keywords)
      invariant 0 <= m < |Rules|
      invariant forall j :: 0 <= j < m ==> !AnyIn(ql, Rules[j].keywords)
      invariant exists j :: m <= j < |Rules| && AnyIn(ql, Rules[j].keywords)
      decreases |Rules| - m
    {
      m := m + 1;
    }
  }

  /** General fallback: "general" exactly when no keyword of any list occurs in the
      lower-cased query. */
  lemma RouteGeneralIff(q: string)
    ensures RouteIntent(q) == General <==>
              forall j, k :: 0 <= j < |Rules| && 0 <= k < |Rules[j].keywords| ==> !Contains(Lower(q), Rules[j].keywords[k])
  {
    var ql := Lower(q);
    RouteIntentIsFirstMatch(q);
    RulesDistinct();
    if forall j :: 0 <= j < |Rules| ==> !AnyIn(ql, Rules[j].keywords) {
      FirstMatchNone(Rules, ql);
    } else {
      var m := FirstMatchingRule(ql);
      FirstMatchPicksFirst(Rules, ql, m);
    }
  }

  /** Case-insensitivity: the route depends only on the lower-cased query. */
  lemma RouteCaseInsensitive(q1: string, q2: string)
    requires Lower(q1) == Lower(q2)
    ensures RouteIntent(q1) == RouteIntent(q2)
  {
  }

  /** Routing the lower-cased query gives the same intent as routing the query. */
  lemma RouteOfLower(q: string)
    ensures RouteIntent(Lower(q)) == RouteIntent(q)
  {
    LowerIdempotent(q);
  }

  /** A lower-case keyword occurring in a query also occurs, at the same position,
      in the lower-cased query. */
  lemma LowerKeepsOccurrence(q: string, k: string, i: int)
    requires OccursAt(q, k, i) && NoUpper(k)
    ensures OccursAt(Lower(q), k, i)
  {
    assert forall j :: 0 <= j < |k| ==> Lower(q)[i + j] == q[i + j] == k[j];
    assert Lower(q)[i..i + |k|] == k;
  }

  /** A query mentioning "potency" routes to potency whatever else it mentions. */
  lemma PotencyWins(q: string)
    requires Contains(Lower(q), "potency")
    ensures RouteIntent(q) == Potency
  {
    assert PotencyKeywords[0] == "potency";
  }

  /** Any of "ifn", "ifng" or "interferon" in the query routes it to potency. */
  lemma IfnTermRoutesToPotency(q: string, t: string)
    requires t == "ifn" || t == "ifng" || t == "interferon"
    requires Contains(Lower(q), t)
    ensures RouteIntent(q) == Potency
  {
    assert PotencyKeywords[1] == "ifn" && PotencyKeywords[2] == "ifng" && PotencyKeywords[3] == "interferon";
  }

  /** The "Module 3 mapping" quick-starter question. */
  const ModuleThreeStarter: string :=
    "Where in Module 3 do potency/specs/validation details belong?"

  /** The quick-starter question contains "potency" at index 21. */
  lemma ModuleThreeStarterMentionsPotency()
    ensures OccursAt(ModuleThreeStarter, "potency", 21)
  {
    var s := ModuleThreeStarter;
    assert s[21] == 'p' && s[22] == 'o' && s[23] == 't' && s[24] == 'e' && s[25] == 'n' && s[26] == 'c' && s[27] == 'y';
    assert s[21..28] == "potency";
  }

  /** The "Module 3 mapping" quick starter mentions potency, so it is answered as a
      potency question rather than a Module 3 one. */
  lemma ModuleThreeStarterRoutesToPotency(q: string)
    requires q == ModuleThreeStarter
    ensures RouteIntent(q) == Potency
  {
    ModuleThreeStarterMentionsPotency();
    LowerKeepsOccurrence(q, "potency", 21);
    ContainsAt(Lower(q), "potency", 21);
    PotencyWins(q);
  }
}

/** Evaluation of the effective rules of an organization on the subjects of a compilation. */
module Policy {
  import opened Wrappers
  import opened Text
  import opened Json
  import opened Sorting
  import opened Checks
  import opened EffectiveContext

  datatype PolicyOutcome = Satisfied | WaivedBy | Violated | NotApplicable | NotEvaluated

  /** What a rule constrains, and its check, absent when the rule does not apply to the subject. */
  datatype Subject = Subject(subject: string, actual: Json, check: Option<Json -> bool>)

  /** The subjects of an interpreted rule; nothing for a rule the compiler does not interpret. */
  type Catalog = string -> Option<seq<Subject>>

  datatype PolicyEvaluation = PolicyEvaluation(
    rule: string,
    category: string,
    subject: Option<string>,
    outcome: PolicyOutcome,
    expected: Json,
    actual: Json,
    waiver: Option<Waiver>
  )

  /** `waivers.find(candidate => candidate.id === id)`. */
  function FindWaiver(waivers: seq<Waiver>, id: string): (r: Option<Waiver>)
    ensures r.Some? ==> r.value in waivers && r.value.id == id
    ensures r.None? ==> forall w | w in waivers :: w.id != id
  {
    if |waivers| == 0 then None else
    if waivers[0].id == id then Some(waivers[0]) else FindWaiver(waivers[1..], id)
  }

  /** The waiver that decided a rule. */
  function DecidingWaiver(rule: EffectiveRule, waivers: seq<Waiver>): Option<Waiver> {
    if rule.working.source.FromWaiver? then FindWaiver(waivers, rule.working.source.id) else None
  }

  /** One subject of one rule. */
  function Evaluate(rule: EffectiveRule, waivers: seq<Waiver>, subject: Subject): PolicyEvaluation {
    var base := PolicyEvaluation(rule.rule, rule.working.category, Some(subject.subject), Satisfied, rule.working.value, subject.actual, None);
    match subject.check
    case None => base.(outcome := NotApplicable)
    case Some(check) =>
      if !check(rule.working.value) then base.(outcome := Violated) else
      var waiver, previous := DecidingWaiver(rule, waivers), BeforeWaiver(rule.working);
      if waiver.Some? && previous.Some? && !check(previous.value) then base.(outcome := WaivedBy, waiver := waiver) else base
  }

  /** Everything evaluated of one rule. */
  function EvaluateRule(rule: EffectiveRule, waivers: seq<Waiver>, catalog: Catalog): seq<PolicyEvaluation> {
    match catalog(rule.rule)
    case None => [PolicyEvaluation(rule.rule, rule.working.category, None, NotEvaluated, rule.working.value, Null, None)]
    case Some(subjects) => EvaluateSubjects(rule, waivers, subjects)
  }

  function EvaluateSubjects(rule: EffectiveRule, waivers: seq<Waiver>, subjects: seq<Subject>): (all: seq<PolicyEvaluation>)
    ensures |all| == |subjects| && forall i | 0 <= i < |subjects| :: all[i] == Evaluate(rule, waivers, subjects[i])
  {
    seq(|subjects|, i requires 0 <= i < |subjects| => Evaluate(rule, waivers, subjects[i]))
  }

  function EvaluateAll(rules: seq<EffectiveRule>, waivers: seq<Waiver>, catalog: Catalog): seq<PolicyEvaluation> {
    if |rules| == 0 then [] else
    EvaluateAll(rules[..|rules| - 1], waivers, catalog) + EvaluateRule(rules[|rules| - 1], waivers, catalog)
  }

  predicate ByRuleAndSubject(a: PolicyEvaluation, b: PolicyEvaluation) {
    var x, y := if a.subject.Some? then a.subject.value else "", if b.subject.Some? then b.subject.value else "";
    AtMost(a.rule, b.rule) && (a.rule == b.rule ==> AtMost(x, y))
  }

  /** The evaluations of a context, by rule and subject. */
  function ReportFor(context: Context, catalog: Catalog): seq<PolicyEvaluation> {
    Sort(EvaluateAll(context.effective, context.waivers, catalog), ByRuleAndSubject)
  }

  datatype Violation = Violation(rule: string, subject: string)

  /** Evaluates every rule, reports every violation, and sorts the report by rule and subject. */
  method EvaluatePolicies(context: Context, catalog: Catalog) returns (report: seq<PolicyEvaluation>, violations: seq<Violation>)
    ensures report == ReportFor(context, catalog) && Sorted(report, ByRuleAndSubject)
    ensures violations == [] <==> forall e | e in report :: e.outcome != Violated
  {
    hide EvaluateRule, Sort;
    var evaluations: seq<PolicyEvaluation> := [];
    violations := [];
    for i := 0 to |context.effective|
      invariant evaluations == EvaluateAll(context.effective[..i], context.waivers, catalog)
      invariant violations == [] <==> forall e | e in evaluations :: e.outcome != Violated
    {
      var more, broken := EvaluateOne(context.effective[i], context.waivers, catalog);
      assert context.effective[..i + 1][..i] == context.effective[..i];
      evaluations := evaluations + more;
      violations := violations + broken;
    }
    assert context.effective[..|context.effective|] == context.effective;
    SortPermutes(evaluations, ByRuleAndSubject);
    SameElements(Sort(evaluations, ByRuleAndSubject), evaluations);
    ReportOrder();
    SortSorts(evaluations, ByRuleAndSubject);
    report := Sort(evaluations, ByRuleAndSubject);
  }

  lemma ReportOrder()
    ensures IsOrder(ByRuleAndSubject)
  {
    hide AtMost;
    TextIsOrder();
    forall x, y | AtMost(x, y) && AtMost(y, x) ensures x == y { AtMostAntisymmetric(x, y); }
  }

  /** One rule, subject by subject. */
  method EvaluateOne(rule: EffectiveRule, waivers: seq<Waiver>, catalog: Catalog) returns (evaluations: seq<PolicyEvaluation>, violations: seq<Violation>)
    ensures evaluations == EvaluateRule(rule, waivers, catalog)
    ensures violations == [] <==> forall e | e in evaluations :: e.outcome != Violated
  {
    hide Evaluate;
    evaluations, violations := [], [];
    var subjects := catalog(rule.rule);
    if subjects.None? {
      return EvaluateRule(rule, waivers, catalog), [];
    }
    var all := subjects.value;
    for i := 0 to |all|
      invariant evaluations == EvaluateSubjects(rule, waivers, all)[..i]
      invariant violations == [] <==> forall e | e in evaluations :: e.outcome != Violated
    {
      var e := Evaluate(rule, waivers, all[i]);
      evaluations := evaluations + [e];
      if e.outcome == Violated {
        violations := violations + [Violation(rule.rule, all[i].subject)];
      }
    }
  }

  /**
   * Waiver accounting on an accepted context: a subject is WAIVED exactly when it passes
   * with the waivers and would be VIOLATED had every waiver been removed, and the waiver
   * named is one of the context, for that rule.
   */
  lemma WaivedExactly(context: Context, i: nat, subject: Subject)
    requires IsAccepted(context) && i < |context.effective| && subject.check.Some?
    ensures var rule := context.effective[i];
            var without := DeriveRules(context.layers, []);
            var e := Evaluate(rule, context.waivers, subject);
            rule.rule in without &&
            (e.outcome == Violated <==> !subject.check.value(rule.working.value)) &&
            (e.outcome == WaivedBy <==> subject.check.value(rule.working.value) && !subject.check.value(without[rule.rule].value)) &&
            (e.outcome == WaivedBy <==> e.waiver.Some?) &&
            (e.waiver.Some? ==> e.waiver.value in context.waivers && e.waiver.value.rule == rule.rule)
  {
    hide DeriveRules, IsSound, BeforeWaiver, IsGranted, ListRules;
    var rule := context.effective[i];
    AcceptedRuleIsDerived(context, i);
    BeforeWaiverIsUnwaived(context.layers, context.waivers, rule.rule);
    if rule.working.source.FromWaiver? {
      WaiverSourceIsGiven(context.layers, context.waivers, rule.rule);
      var w :| w in context.waivers && w.rule == rule.rule && FromWaiver(w.id) == rule.working.source;
      FindIsUnique(context.waivers, w);
    }
  }

  /** The verdict on one subject: the check decides on the effective value, and without a check the rule does not apply. */
  ghost predicate IsVerdict(e: PolicyEvaluation, rule: EffectiveRule, s: Subject) {
    && e.rule == rule.rule && e.category == rule.working.category && e.expected == rule.working.value
    && e.subject == Some(s.subject) && e.actual == s.actual
    && (e.outcome == NotApplicable <==> s.check.None?)
    && (e.outcome == Violated <==> s.check.Some? && !s.check.value(rule.working.value))
    && (e.outcome == WaivedBy <==> e.waiver.Some?)
    && e.outcome != NotEvaluated
  }

  /** The entry for a rule the compiler does not interpret. */
  ghost predicate IsUnread(e: PolicyEvaluation, rule: EffectiveRule) {
    e == PolicyEvaluation(rule.rule, rule.working.category, None, NotEvaluated, rule.working.value, Null, None)
  }

  lemma {:induction false} EvaluationsAreExact(rules: seq<EffectiveRule>, waivers: seq<Waiver>, catalog: Catalog, e: PolicyEvaluation)
    ensures e in EvaluateAll(rules, waivers, catalog) <==>
            exists rule :: rule in rules &&
              if catalog(rule.rule).None? then IsUnread(e, rule) else exists s :: s in catalog(rule.rule).value && e == Evaluate(rule, waivers, s)
  {
    hide Evaluate;
    if |rules| > 0 {
      var n := |rules| - 1;
      EvaluationsAreExact(rules[..n], waivers, catalog, e);
      assert rules == rules[..n] + [rules[n]];
      var here := EvaluateRule(rules[n], waivers, catalog);
      if catalog(rules[n].rule).Some? {
        var subjects := catalog(rules[n].rule).value;
        forall s | s in subjects
          ensures Evaluate(rules[n], waivers, s) in here
        {
          var k :| 0 <= k < |subjects| && subjects[k] == s;
          assert here[k] == Evaluate(rules[n], waivers, s);
        }
      }
    }
  }

  /**
   * The report holds one verdict for each subject of each rule the compiler interprets, one
   * entry for each rule it does not, and nothing else.
   */
  lemma ReportIsExact(context: Context, catalog: Catalog)
    ensures forall rule | rule in context.effective ::
              if catalog(rule.rule).None? then exists e :: e in ReportFor(context, catalog) && IsUnread(e, rule)
              else forall s | s in catalog(rule.rule).value :: exists e :: e in ReportFor(context, catalog) && IsVerdict(e, rule, s)
    ensures forall e | e in ReportFor(context, catalog) ::
              exists rule :: rule in context.effective &&
                if catalog(rule.rule).None? then IsUnread(e, rule) else exists s :: s in catalog(rule.rule).value && IsVerdict(e, rule, s)
  {
    hide Evaluate, EvaluateAll, Sort, IsVerdict;
    SortLists(EvaluateAll(context.effective, context.waivers, catalog), ByRuleAndSubject);
    forall e { EvaluationsAreExact(context.effective, context.waivers, catalog, e); }
    forall rule, s { VerdictOf(rule, context.waivers, s); }
    forall rule | rule in context.effective
      ensures if catalog(rule.rule).None? then exists e :: e in ReportFor(context, catalog) && IsUnread(e, rule)
              else forall s | s in catalog(rule.rule).value :: exists e :: e in ReportFor(context, catalog) && IsVerdict(e, rule, s)
    {
      if catalog(rule.rule).None? {
        var e := PolicyEvaluation(rule.rule, rule.working.category, None, NotEvaluated, rule.working.value, Null, None);
        assert IsUnread(e, rule);
        assert e in EvaluateAll(context.effective, context.waivers, catalog);
      } else {
        forall s | s in catalog(rule.rule).value
          ensures exists e :: e in ReportFor(context, catalog) && IsVerdict(e, rule, s)
        {
          var e := Evaluate(rule, context.waivers, s);
          assert e in EvaluateAll(context.effective, context.waivers, catalog);
        }
      }
    }
  }

  lemma VerdictOf(rule: EffectiveRule, waivers: seq<Waiver>, s: Subject)
    ensures IsVerdict(Evaluate(rule, waivers, s), rule, s)
  {
    hide DecidingWaiver, BeforeWaiver;
  }

  lemma FindIsUnique(waivers: seq<Waiver>, w: Waiver)
    requires w in waivers && forall i, j | 0 <= i < j < |waivers| :: waivers[i].id != waivers[j].id
    ensures FindWaiver(waivers, w.id) == Some(w)
  {
    var found := FindWaiver(waivers, w.id).value;
    var i :| 0 <= i < |waivers| && waivers[i] == w;
    var j :| 0 <= j < |waivers| && waivers[j] == found;
  }

  /** The evaluation relies on a waiver that has expired; an instant that cannot be read is never earlier nor later. */
  predicate IsExpired(e: PolicyEvaluation, at: Timestamp) {
    e.outcome == WaivedBy && e.waiver.Some? &&
    at.instant.Some? && e.waiver.value.expiresAt.instant.Some? && e.waiver.value.expiresAt.instant.value < at.instant.value
  }

  /** The waivers a compilation relies on that have expired. */
  function ExpiredWaivers(report: seq<PolicyEvaluation>, at: Timestamp): (expired: seq<PolicyEvaluation>)
    ensures forall e :: e in expired <==> e in report && IsExpired(e, at)
  {
    if |report| == 0 then [] else
    var rest := ExpiredWaivers(report[1..], at);
    assert forall e | e in report :: e == report[0] || e in report[1..];
    if IsExpired(report[0], at) then [report[0]] + rest else rest
  }

  /** A waived evaluation is one subject of one rule. */
  lemma {:induction false} WaivedIsEvaluated(rules: seq<EffectiveRule>, waivers: seq<Waiver>, catalog: Catalog, e: PolicyEvaluation)
    returns (i: nat, subject: Subject)
    requires e in EvaluateAll(rules, waivers, catalog) && e.outcome == WaivedBy
    ensures i < |rules| && subject.check.Some? && e == Evaluate(rules[i], waivers, subject)
  {
    hide BeforeWaiver, DecidingWaiver;
    var n := |rules| - 1;
    if e in EvaluateAll(rules[..n], waivers, catalog) {
      i, subject := WaivedIsEvaluated(rules[..n], waivers, catalog, e);
    } else {
      var subjects := catalog(rules[n].rule).value;
      var k :| 0 <= k < |subjects| && EvaluateRule(rules[n], waivers, catalog)[k] == e;
      i, subject := n, subjects[k];
    }
  }

  /** A waived evaluation of an accepted context names one of its waivers, which ends at a real instant. */
  lemma ReliedIsGranted(context: Context, catalog: Catalog, e: PolicyEvaluation)
    requires IsAccepted(context) && e in ReportFor(context, catalog) && e.outcome == WaivedBy
    ensures e.waiver.Some? && e.waiver.value in context.waivers && e.waiver.value.expiresAt.instant.Some?
  {
    hide Evaluate, EvaluateAll, DeriveRules, IsSound, Sort;
    SortLists(EvaluateAll(context.effective, context.waivers, catalog), ByRuleAndSubject);
    var i, subject := WaivedIsEvaluated(context.effective, context.waivers, catalog, e);
    WaivedExactly(context, i, subject);
    var k :| 0 <= k < |context.waivers| && context.waivers[k] == e.waiver.value;
    assert IsGranted(context.waivers[k]);
  }

  /**
   * Of the report on an accepted context, nothing has expired exactly when the instant
   * cannot be read or every waiver relied on ends at it or later.
   */
  lemma NothingExpired(context: Context, catalog: Catalog, at: Timestamp)
    requires IsAccepted(context)
    ensures ExpiredWaivers(ReportFor(context, catalog), at) == [] <==>
            at.instant.None? ||
            forall e | e in ReportFor(context, catalog) && e.outcome == WaivedBy ::
              e.waiver.Some? && e.waiver.value.expiresAt.instant.Some? && at.instant.value <= e.waiver.value.expiresAt.instant.value
  {
    hide ReportFor, IsAccepted, ExpiredWaivers;
    var report := ReportFor(context, catalog);
    var expired := ExpiredWaivers(report, at);
    forall e | e in report && e.outcome == WaivedBy { ReliedIsGranted(context, catalog, e); }
    if expired != [] { assert expired[0] in expired; }
  }
}

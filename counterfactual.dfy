/**
  The counterfactual advisor of the decision dashboard
  (decision-intelligence-live/app.py, `counterfactual`): when the policy leaves
  too few eligible actions, probe a short ladder of relaxed risk ceilings and a
  short ladder of relaxed ROI floors and suggest, on each ladder, the first
  probe that enables enough actions.
*/
module Counterfactual {
  import opened Basics
  import opened Eligibility

  /** How many eligible actions the advisor asks for: `max_actions` clamped to 3..8. */
  function Target(p: Policy): (t: int)
    ensures 3 <= t <= 8
    ensures 3 <= p.maxActions <= 8 ==> t == p.maxActions
    ensures p.maxActions < 3 ==> t == 3
    ensures 8 < p.maxActions ==> t == 8
  {
    var capped := if p.maxActions <= 8 then p.maxActions else 8;
    if capped >= 3 then capped else 3
  }

  /** The steps tried on the risk ceiling and on the ROI floor, smallest first. */
  const RiskSteps: seq<real> := [0.05, 0.10, 0.15, 0.20]
  const RoiSteps: seq<real> := [0.10, 0.20, 0.30, 0.40]

  /** The policy with its risk ceiling raised by `step`, kept within 0.05..0.95. */
  function RiskProbe(p: Policy, step: real): (q: Policy)
    ensures q == p.(maxRisk := q.maxRisk)
    ensures 0.05 <= q.maxRisk <= 0.95
  {
    p.(maxRisk := Clamp(p.maxRisk + step, 0.05, 0.95))
  }

  /** The policy with its ROI floor lowered by `step`, never below 0. */
  function RoiProbe(p: Policy, step: real): (q: Policy)
    ensures q == p.(minRoi := q.minRoi)
    ensures 0.0 <= q.minRoi
  {
    p.(minRoi := Max(0.0, p.minRoi - step))
  }

  function RiskLadder(p: Policy): (l: seq<Policy>)
    ensures |l| == |RiskSteps|
  {
    seq(|RiskSteps|, i requires 0 <= i < |RiskSteps| => RiskProbe(p, RiskSteps[i]))
  }

  function RoiLadder(p: Policy): (l: seq<Policy>)
    ensures |l| == |RoiSteps|
  {
    seq(|RoiSteps|, i requires 0 <= i < |RoiSteps| => RoiProbe(p, RoiSteps[i]))
  }

  /** The first probe of a ladder under which at least `target` actions are eligible. */
  function FirstHit(probes: seq<Policy>, actions: seq<Action>, target: int): (r: Option<nat>)
    ensures r.Some? ==> r.value < |probes| && EligibleCount(actions, probes[r.value]) >= target
    ensures r.Some? ==> forall j :: 0 <= j < r.value ==> EligibleCount(actions, probes[j]) < target
    ensures r.None? ==> forall j :: 0 <= j < |probes| ==> EligibleCount(actions, probes[j]) < target
  {
    if probes == [] then None
    else if EligibleCount(actions, probes[0]) >= target then Some(0)
    else match FirstHit(probes[1..], actions, target)
      case None => None
      case Some(i) => Some(i + 1)
  }

  /** A probe that hits with no earlier hit is the one `FirstHit` finds. */
  lemma {:induction false} FirstHitAt(probes: seq<Policy>, actions: seq<Action>, target: int, i: nat)
    requires i < |probes| && EligibleCount(actions, probes[i]) >= target
    requires forall j :: 0 <= j < i ==> EligibleCount(actions, probes[j]) < target
    ensures FirstHit(probes, actions, target) == Some(i)
  {
    if i > 0 {
      FirstHitAt(probes[1..], actions, target, i - 1);
    }
  }

  /** One suggestion: the policy field it changes (`"max_risk"` or `"min_roi"`), its current value and the proposed value. */
  datatype Suggestion = Suggestion(change: string, from: real, to: real)

  /** The advisor's verdict, `"ok"`, `"warn"` or `"fix"`, and its suggestions. */
  datatype Advice = Advice(status: string, suggestions: seq<Suggestion>)

  /** The policy a suggestion proposes. */
  function Apply(p: Policy, s: Suggestion): Policy {
    if s.change == "max_risk" then p.(maxRisk := s.to)
    else if s.change == "min_roi" then p.(minRoi := s.to)
    else p
  }

  /** The risk suggestion: present exactly when some probe of the risk ladder hits the target. */
  function RiskSuggestion(p: Policy, actions: seq<Action>): (r: seq<Suggestion>)
    ensures |r| <= 1
    ensures r == [] <==> forall j :: 0 <= j < |RiskSteps| ==> EligibleCount(actions, RiskLadder(p)[j]) < Target(p)
    ensures r != [] ==> r[0].change == "max_risk" && r[0].from == p.maxRisk && EligibleCount(actions, Apply(p, r[0])) >= Target(p)
  {
    match FirstHit(RiskLadder(p), actions, Target(p))
    case None => []
    case Some(i) => [Suggestion("max_risk", p.maxRisk, RiskLadder(p)[i].maxRisk)]
  }

  /** The ROI suggestion: present exactly when some probe of the ROI ladder hits the target. */
  function RoiSuggestion(p: Policy, actions: seq<Action>): (r: seq<Suggestion>)
    ensures |r| <= 1
    ensures r == [] <==> forall j :: 0 <= j < |RoiSteps| ==> EligibleCount(actions, RoiLadder(p)[j]) < Target(p)
    ensures r != [] ==> r[0].change == "min_roi" && r[0].from == p.minRoi && EligibleCount(actions, Apply(p, r[0])) >= Target(p)
  {
    match FirstHit(RoiLadder(p), actions, Target(p))
    case None => []
    case Some(i) => [Suggestion("min_roi", p.minRoi, RoiLadder(p)[i].minRoi)]
  }

  /**
    `counterfactual(policy, df)`. With enough eligible actions the verdict is
    "ok" with no suggestions. Otherwise each ladder is walked smallest step
    first and stops at its first hit; the verdict is "fix" with the risk
    suggestion (if any) followed by the ROI suggestion (if any), or "warn"
    when neither ladder hits.
  */
  method Advise(p: Policy, actions: seq<Action>) returns (advice: Advice)
    ensures advice.status == "ok" <==> EligibleCount(actions, p) >= Target(p)
    ensures advice.status == "ok" ==> advice.suggestions == []
    ensures advice.status != "ok" ==> advice.suggestions == RiskSuggestion(p, actions) + RoiSuggestion(p, actions)
    ensures advice.status == "warn" <==> advice.status != "ok" && advice.suggestions == []
    ensures advice.status == "fix" ==> 1 <= |advice.suggestions| <= 2
    ensures advice.status == "ok" || advice.status == "warn" || advice.status == "fix"
  {
    var target := Target(p);
    if EligibleCount(actions, p) >= target {
      return Advice("ok", []);
    }
    var suggestions: seq<Suggestion> := [];
    var risk := RiskLadder(p);
    for i := 0 to |RiskSteps|
      invariant suggestions == []
      invariant forall j :: 0 <= j < i ==> EligibleCount(actions, risk[j]) < target
    {
      var tmp := RiskProbe(p, RiskSteps[i]);
      if EligibleCount(actions, tmp) >= target {
        FirstHitAt(risk, actions, target, i);
        suggestions := suggestions + [Suggestion("max_risk", p.maxRisk, tmp.maxRisk)];
        break;
      }
    }
    assert suggestions == RiskSuggestion(p, actions);
    var roi := RoiLadder(p);
    ghost var before := suggestions;
    for i := 0 to |RoiSteps|
      invariant suggestions == before
      invariant forall j :: 0 <= j < i ==> EligibleCount(actions, roi[j]) < target
    {
      var tmp := RoiProbe(p, RoiSteps[i]);
      if EligibleCount(actions, tmp) >= target {
        FirstHitAt(roi, actions, target, i);
        suggestions := suggestions + [Suggestion("min_roi", p.minRoi, tmp.minRoi)];
        break;
      }
    }
    assert suggestions == RiskSuggestion(p, actions) + RoiSuggestion(p, actions);
    if suggestions == [] {
      return Advice("warn", []);
    }
    return Advice("fix", suggestions);
  }

  /** Probes further up the risk ladder are more relaxed, so their counts never fall. */
  lemma RiskLadderMonotone(p: Policy, actions: seq<Action>, i: nat, j: nat)
    requires i <= j < |RiskSteps|
    ensures EligibleCount(actions, RiskLadder(p)[i]) <= EligibleCount(actions, RiskLadder(p)[j])
  {
    RelaxingNeverShrinks(actions, RiskLadder(p)[i], RiskLadder(p)[j]);
  }

  /** Probes further down the ROI ladder are more relaxed, so their counts never fall. */
  lemma RoiLadderMonotone(p: Policy, actions: seq<Action>, i: nat, j: nat)
    requires i <= j < |RoiSteps|
    ensures EligibleCount(actions, RoiLadder(p)[i]) <= EligibleCount(actions, RoiLadder(p)[j])
  {
    RelaxingNeverShrinks(actions, RoiLadder(p)[i], RoiLadder(p)[j]);
  }

  /**
    The risk suggestion raises the ceiling, enables at least the target number
    of actions, and no lower ceiling on the ladder would have done so.
  */
  lemma RiskSuggestionIsMinimalFix(p: Policy, actions: seq<Action>, s: Suggestion)
    requires EligibleCount(actions, p) < Target(p)
    requires s in RiskSuggestion(p, actions)
    ensures s.change == "max_risk" && s.from == p.maxRisk < s.to
    ensures EligibleCount(actions, Apply(p, s)) >= Target(p)
    ensures forall j :: 0 <= j < |RiskSteps| && RiskLadder(p)[j].maxRisk < s.to ==>
      EligibleCount(actions, RiskLadder(p)[j]) < Target(p)
  {
    var ladder := RiskLadder(p);
    var i := FirstHit(ladder, actions, Target(p)).value;
    assert Apply(p, s) == ladder[i];
    if s.to <= p.maxRisk {
      RelaxingNeverShrinks(actions, Apply(p, s), p);
    }
    forall j | 0 <= j < |RiskSteps| && ladder[j].maxRisk < s.to
      ensures EligibleCount(actions, ladder[j]) < Target(p)
    {
      assert j < i;
    }
  }

  /**
    The ROI suggestion lowers the floor, enables at least the target number of
    actions, and no higher floor on the ladder would have done so.
  */
  lemma RoiSuggestionIsMinimalFix(p: Policy, actions: seq<Action>, s: Suggestion)
    requires EligibleCount(actions, p) < Target(p)
    requires s in RoiSuggestion(p, actions)
    ensures s.change == "min_roi" && s.to < s.from == p.minRoi
    ensures EligibleCount(actions, Apply(p, s)) >= Target(p)
    ensures forall j :: 0 <= j < |RoiSteps| && s.to < RoiLadder(p)[j].minRoi ==>
      EligibleCount(actions, RoiLadder(p)[j]) < Target(p)
  {
    var ladder := RoiLadder(p);
    var i := FirstHit(ladder, actions, Target(p)).value;
    assert Apply(p, s) == ladder[i];
    if p.minRoi <= s.to {
      RelaxingNeverShrinks(actions, Apply(p, s), p);
    }
    forall j | 0 <= j < |RoiSteps| && s.to < ladder[j].minRoi
      ensures EligibleCount(actions, ladder[j]) < Target(p)
    {
      assert j < i;
    }
  }

  /** A ladder yields a suggestion exactly when its most relaxed probe reaches the target. */
  lemma SuggestionIffTopProbeReaches(p: Policy, actions: seq<Action>)
    ensures RiskSuggestion(p, actions) != [] <==> EligibleCount(actions, RiskLadder(p)[3]) >= Target(p)
    ensures RoiSuggestion(p, actions) != [] <==> EligibleCount(actions, RoiLadder(p)[3]) >= Target(p)
  {
    var r := FirstHit(RiskLadder(p), actions, Target(p));
    if r.Some? {
      RiskLadderMonotone(p, actions, r.value, 3);
    }
    var o := FirstHit(RoiLadder(p), actions, Target(p));
    if o.Some? {
      RoiLadderMonotone(p, actions, o.value, 3);
    }
  }
}

/**
  Policy and eligibility rule of the decision dashboard
  (decision-intelligence-live/app.py). The floating-point score itself is not
  modelled: every action carries its score already scaled to an integer
  (`int(score * 1000)`), which is all the optimiser uses.
*/
module Eligibility {

  /** The what-if policy: budget in CLP, risk ceiling, ROI floor, action cap, risk penalty. */
  datatype Policy = Policy(budget: int, maxRisk: real, minRoi: real, maxActions: int, riskPenalty: real)

  /** A candidate action: its id, cost in CLP, scaled score, risk and ROI proxy. */
  datatype Action = Action(id: string, cost: nat, value: int, risk: real, roi: real)

  /** A row of `score_actions`: the action and its eligibility flag. */
  datatype Scored = Scored(action: Action, eligible: bool)

  function Max(a: real, b: real): real { if a >= b then a else b }
  function Min(a: real, b: real): real { if a <= b then a else b }

  /** `clamp(x, lo, hi) = max(lo, min(hi, x))`. */
  function Clamp(x: real, lo: real, hi: real): (r: real)
    ensures lo <= hi ==> lo <= r <= hi
    ensures lo <= x <= hi ==> r == x
    ensures x < lo ==> r == lo
    ensures lo <= hi && hi < x ==> r == hi
  {
    Max(lo, Min(hi, x))
  }

  /** The policy filter: risk within the ceiling and ROI at or above the floor. */
  predicate Eligible(a: Action, p: Policy) {
    a.risk <= p.maxRisk && a.roi >= p.minRoi
  }

  /** `score_actions` without its display reordering: each action with its eligibility flag. */
  function ScoreActions(actions: seq<Action>, p: Policy): (r: seq<Scored>)
    ensures |r| == |actions|
    ensures forall i :: 0 <= i < |r| ==> r[i].action == actions[i]
    ensures forall i :: 0 <= i < |r| ==> (r[i].eligible <==> actions[i].risk <= p.maxRisk && actions[i].roi >= p.minRoi)
  {
    seq(|actions|, i requires 0 <= i < |actions| => Scored(actions[i], Eligible(actions[i], p)))
  }

  /** Number of eligible rows, `len(df[df["eligible"]])`. */
  function EligibleCount(actions: seq<Action>, p: Policy): (n: nat)
    ensures n <= |actions|
  {
    if actions == [] then 0
    else EligibleCount(actions[..|actions| - 1], p) + (if Eligible(actions[|actions| - 1], p) then 1 else 0)
  }

  /**
    Only the risk ceiling and the ROI floor decide eligibility: two policies that
    agree on those two fields flag exactly the same rows, whatever their
    budget, action cap or risk penalty (and so whatever the score).
  */
  lemma EligibilityIgnoresScore(actions: seq<Action>, p: Policy, q: Policy)
    requires p.maxRisk == q.maxRisk && p.minRoi == q.minRoi
    ensures ScoreActions(actions, p) == ScoreActions(actions, q)
    ensures EligibleCount(actions, p) == EligibleCount(actions, q)
  {
  }

  /** Relaxing the policy (higher risk ceiling, lower ROI floor) never makes fewer actions eligible. */
  lemma {:induction false} RelaxingNeverShrinks(actions: seq<Action>, p: Policy, q: Policy)
    requires p.maxRisk <= q.maxRisk && q.minRoi <= p.minRoi
    ensures EligibleCount(actions, p) <= EligibleCount(actions, q)
  {
    if actions != [] {
      RelaxingNeverShrinks(actions[..|actions| - 1], p, q);
    }
  }

  /** The count is exactly the number of rows `ScoreActions` flags eligible. */
  lemma {:induction false} EligibleCountIsFlagCount(actions: seq<Action>, p: Policy)
    ensures EligibleCount(actions, p) == |set i | 0 <= i < |actions| && ScoreActions(actions, p)[i].eligible|
  {
    var rows := ScoreActions(actions, p);
    if actions != [] {
      var n := |actions| - 1;
      var front := actions[..n];
      EligibleCountIsFlagCount(front, p);
      var before := set i | 0 <= i < n && ScoreActions(front, p)[i].eligible;
      var all := set i | 0 <= i < |actions| && rows[i].eligible;
      assert before == set i | 0 <= i < n && rows[i].eligible;
      if rows[n].eligible {
        assert all == before + {n};
      } else {
        assert all == before;
      }
    }
  }
}

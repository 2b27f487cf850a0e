/** Consent decisions: core/consent.py, and how b2b_learner_records/queries.py
    combines the decisions of several contracts and of two views. */
module Consent {
  import opened Common
  import opened SqlLogic

  /** Recorded per learner and contract; None is no recorded answer. */
  type Decision = Option<bool>

  datatype ConsentStatus = Consented | Declined | NotRecorded

  function StatusOf(decision: Decision): ConsentStatus {
    if decision.None? then NotRecorded else if decision.value then Consented else Declined
  }

  /** `COALESCE(outcomes_decision, fail_open)`. */
  function OutcomesShared(decision: Decision, failOpen: bool): bool {
    decision.GetOr(failOpen)
  }

  /** Declined, then undecided, then consented. */
  function Level(decision: Decision): int {
    match decision
    case Some(false) => 0
    case None => 1
    case Some(true) => 2
  }

  function Meet(a: Decision, b: Decision): Decision {
    if Level(a) <= Level(b) then a else b
  }

  /** `SUM(CASE WHEN ... THEN 1 ELSE 0 END)` of `outcomes_shared = FALSE`. */
  function Declines(decisions: seq<Decision>): nat {
    if decisions == [] then 0 else (if Holds(Eq3(decisions[0], false)) then 1 else 0) + Declines(decisions[1..])
  }

  function Unanswered(decisions: seq<Decision>): nat {
    if decisions == [] then 0 else (if decisions[0].None? then 1 else 0) + Unanswered(decisions[1..])
  }

  /** _ROLLUP_DECISION over one user's rows. */
  function RollupDecision(decisions: seq<Decision>): Decision {
    if Declines(decisions) > 0 then Some(false) else if Unanswered(decisions) > 0 then None else Some(true)
  }

  /** The rollup is the least of the decisions it covers, so neither their order
      nor how they are grouped can matter. */
  lemma {:induction false} RollupIsLeast(decisions: seq<Decision>)
    requires decisions != []
    ensures RollupDecision(decisions) in decisions
    ensures forall d | d in decisions :: Level(RollupDecision(decisions)) <= Level(d)
    ensures forall rest | rest != [] ::
              RollupDecision(decisions + rest) == Meet(RollupDecision(decisions), RollupDecision(rest))
  {
    CountsFind(decisions);
    forall rest | rest != []
      ensures RollupDecision(decisions + rest) == Meet(RollupDecision(decisions), RollupDecision(rest))
    {
      CountsFind(rest);
      CountsFind(decisions + rest);
      assert forall d :: d in decisions + rest <==> d in decisions || d in rest;
    }
    var first := decisions[0];
    if first.Some? {
      assert if first.value then first == Some(true) else first == Some(false);
    }
    assert first in decisions;
  }

  lemma {:induction false} CountsFind(decisions: seq<Decision>)
    ensures Declines(decisions) > 0 <==> Some(false) in decisions
    ensures Unanswered(decisions) > 0 <==> None in decisions
  {
    if decisions != [] {
      CountsFind(decisions[1..]);
      assert forall d :: d in decisions <==> d == decisions[0] || d in decisions[1..];
    }
  }

  /** Sharing a rollup's outcomes is sharing every one of its contracts'. */
  lemma RollupSharesIffAllShare(decisions: seq<Decision>, failOpen: bool)
    requires decisions != []
    ensures OutcomesShared(RollupDecision(decisions), failOpen) <==>
            forall d | d in decisions :: OutcomesShared(d, failOpen)
  {
    CountsFind(decisions);
    RollupIsLeast(decisions);
    forall d | d in decisions
      ensures OutcomesShared(RollupDecision(decisions), failOpen) ==> OutcomesShared(d, failOpen)
    {
      SharingIsMonotone(RollupDecision(decisions), d, failOpen, failOpen);
    }
  }

  /** More consent never shares less, and a recorded answer ignores the default. */
  lemma SharingIsMonotone(a: Decision, b: Decision, failOpen: bool, failOpen': bool)
    requires Level(a) <= Level(b) && (failOpen ==> failOpen')
    ensures OutcomesShared(a, failOpen) ==> OutcomesShared(b, failOpen')
    ensures a.Some? ==> OutcomesShared(a, failOpen) == OutcomesShared(a, failOpen') == a.value
    ensures a.None? ==> OutcomesShared(a, failOpen) == failOpen
  {
  }

  /** The include_inactive CASE over a FULL OUTER JOIN. An absent side's columns
      are all NULL. */
  function MergeDecision(l: Option<Decision>, e: Option<Decision>): Decision {
    var lShared: Decision := if l.Some? then l.value else None;
    var eDecision: Decision := if e.Some? then e.value else None;
    if Holds(Or3(Eq3(eDecision, false), Eq3(lShared, false))) then Some(false)
    else if l.None? then eDecision
    else if e.None? then lShared
    else if eDecision.None? then None
    else lShared
  }

  /** Merging the two views takes the least of the sides that have the learner. */
  lemma MergeIsMeet(l: Option<Decision>, e: Option<Decision>)
    requires l.Some? || e.Some?
    ensures MergeDecision(l, e) ==
            if l.None? then e.value else if e.None? then l.value else Meet(l.value, e.value)
  {
  }
}

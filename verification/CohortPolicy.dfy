/** A row model's declaration of its cohorts, and the checks that a declaration
    passes before it can be used: core/anonymization.py, class CohortPolicy. */
module CohortPolicies {
  import opened Common

  type Column = string

  /** Python dictionaries keep insertion order, and the suppression loop walks
      `contained_in` in that order, so the order is kept beside the map. */
  datatype CohortPolicy = CohortPolicy(
    primary: Column,
    secondary: seq<Column>,
    derived: map<Column, seq<Column>>,
    containedIn: map<Column, Column>,
    containedOrder: seq<Column>,
    uncontained: seq<Column>)

  datatype PolicyError =
    | UnknownDerivedCohort
    | SubsetNotSecondary
    | UnknownContainer
    | UncontainedNotSecondary
    | ClassifiedTwice
    | Unclassified
    | ContainmentCycle

  /** `n` steps outwards from `c`. */
  function Outwards(containedIn: map<Column, Column>, c: Column, n: nat): Option<Column> {
    if n == 0 then Some(c)
    else
      match Outwards(containedIn, c, n - 1)
      case None => None
      case Some(d) => if d in containedIn then Some(containedIn[d]) else None
  }

  ghost predicate Cyclic(containedIn: map<Column, Column>) {
    exists c, n: nat :: n > 0 && Outwards(containedIn, c, n) == Some(c)
  }

  /** The containers of `c`, nearest first, or None once a container repeats. */
  function Walk(containedIn: map<Column, Column>, c: Column, seen: set<Column>): (chain: Option<seq<Column>>)
    decreases containedIn.Values - seen
  {
    if c !in containedIn then Some([])
    else
      var container := containedIn[c];
      if container in seen then None
      else
        Prepend([container], Walk(containedIn, container, seen + {container}))
  }

  function Prepend(columns: seq<Column>, rest: Option<seq<Column>>): (r: Option<seq<Column>>)
    ensures columns == [] ==> r == rest
    ensures rest == Some([]) ==> r == Some(columns)
  {
    assert columns + [] == columns && (rest.Some? && columns == [] ==> columns + rest.value == rest.value);
    if rest.None? then None else Some(columns + rest.value)
  }

  /** The generator as a loop; an exhausted generator is Ok, the ValueError is Err. */
  method Ancestors(containedIn: map<Column, Column>, subset: Column)
    returns (chain: Result<seq<Column>, PolicyError>)
    ensures chain == if Walk(containedIn, subset, {subset}).None? then Err(ContainmentCycle)
                     else Ok(Walk(containedIn, subset, {subset}).value)
  {
    var seen := {subset};
    var yielded: seq<Column> := [];
    var inner := subset;
    var container := if subset in containedIn then Some(containedIn[subset]) else None;
    while container.Some?
      invariant container == if inner in containedIn then Some(containedIn[inner]) else None
      invariant Walk(containedIn, subset, {subset}) == Prepend(yielded, Walk(containedIn, inner, seen))
      decreases container.Some?, containedIn.Values - seen
    {
      if container.value in seen {
        return Err(ContainmentCycle);
      }
      ghost var rest := Walk(containedIn, container.value, seen + {container.value});
      assert Prepend(yielded, Prepend([container.value], rest)) == Prepend(yielded + [container.value], rest) by {
        if rest.Some? {
          assert yielded + ([container.value] + rest.value) == yielded + [container.value] + rest.value;
        }
      }
      inner := container.value;
      seen := seen + {inner};
      yielded := yielded + [inner];
      container := if inner in containedIn then Some(containedIn[inner]) else None;
    }
    return Ok(yielded);
  }

  lemma {:induction false} OutwardsAdds(containedIn: map<Column, Column>, c: Column, m: nat, n: nat)
    ensures Outwards(containedIn, c, m + n) ==
            match Outwards(containedIn, c, m)
            case None => None
            case Some(d) => Outwards(containedIn, d, n)
  {
    if n > 0 {
      OutwardsAdds(containedIn, c, m, n - 1);
    }
  }

  lemma {:induction false} LoopsForever(containedIn: map<Column, Column>, c: Column, n: nat, k: nat)
    requires Outwards(containedIn, c, n) == Some(c)
    ensures Outwards(containedIn, c, k * n) == Some(c)
  {
    if k > 0 {
      LoopsForever(containedIn, c, n, k - 1);
      OutwardsAdds(containedIn, c, (k - 1) * n, n);
      assert (k - 1) * n + n == k * n;
    }
  }

  /** A finished walk lists exactly the outward steps, and then runs out. */
  lemma {:induction false} WalkFollowsSteps(containedIn: map<Column, Column>, c: Column, seen: set<Column>)
    requires Walk(containedIn, c, seen).Some?
    ensures var chain := Walk(containedIn, c, seen).value;
            && (forall i: nat | i < |chain| :: Outwards(containedIn, c, i + 1) == Some(chain[i]))
            && Outwards(containedIn, c, |chain| + 1) == None
    decreases containedIn.Values - seen
  {
    var chain := Walk(containedIn, c, seen).value;
    assert Outwards(containedIn, c, 0) == Some(c);
    if c in containedIn {
      var container := containedIn[c];
      WalkFollowsSteps(containedIn, container, seen + {container});
      assert Outwards(containedIn, c, 1) == Some(container);
      forall i: nat | i < |chain|
        ensures Outwards(containedIn, c, i + 1) == Some(chain[i])
      {
        OutwardsAdds(containedIn, c, 1, i);
        if i > 0 {
          assert Outwards(containedIn, container, (i - 1) + 1) == Some(chain[1..][i - 1]);
        }
      }
      OutwardsAdds(containedIn, c, 1, |chain|);
    }
  }

  ghost predicate IsPath(containedIn: map<Column, Column>, path: seq<Column>) {
    && path != []
    && forall i | 0 <= i < |path| - 1 :: path[i] in containedIn && containedIn[path[i]] == path[i + 1]
  }

  lemma {:induction false} PathSteps(containedIn: map<Column, Column>, path: seq<Column>, i: nat, n: nat)
    requires IsPath(containedIn, path) && i + n < |path|
    ensures Outwards(containedIn, path[i], n) == Some(path[i + n])
  {
    if n > 0 {
      PathSteps(containedIn, path, i, n - 1);
    }
  }

  /** A walk that stops early has come back to a column it left. */
  lemma {:induction false} StoppedWalkIsCyclic(containedIn: map<Column, Column>, path: seq<Column>, seen: set<Column>)
    requires IsPath(containedIn, path) && seen == set c | c in path
    requires Walk(containedIn, path[|path| - 1], seen) == None
    ensures Cyclic(containedIn)
    decreases containedIn.Values - seen
  {
    var c := path[|path| - 1];
    var container := containedIn[c];
    if container in seen {
      var i :| 0 <= i < |path| && path[i] == container;
      PathSteps(containedIn, path, i, |path| - 1 - i);
      assert Outwards(containedIn, container, |path| - i) == Some(container);
    } else {
      StoppedWalkIsCyclic(containedIn, path + [container], seen + {container});
    }
  }

  lemma {:induction false} EndsEarlier(containedIn: map<Column, Column>, c: Column, m: nat, n: nat)
    requires m <= n && Outwards(containedIn, c, m) == None
    ensures Outwards(containedIn, c, n) == None
  {
    OutwardsAdds(containedIn, c, m, n - m);
  }

  lemma FirstStep(containedIn: map<Column, Column>, c: Column, n: nat)
    requires n > 0 && Outwards(containedIn, c, n).Some?
    ensures c in containedIn
  {
    OutwardsAdds(containedIn, c, 1, n - 1);
    assert Outwards(containedIn, c, 0) == Some(c);
  }

  /** The walks from the declared subsets all finish exactly when no column
      contains itself, however many steps away. */
  lemma {:induction false} WalksFinishIffAcyclic(containedIn: map<Column, Column>)
    ensures (forall c | c in containedIn :: Walk(containedIn, c, {c}).Some?) <==> !Cyclic(containedIn)
  {
    if Cyclic(containedIn) {
      var c, n: nat :| n > 0 && Outwards(containedIn, c, n) == Some(c);
      FirstStep(containedIn, c, n);
      if Walk(containedIn, c, {c}).Some? {
        var m := |Walk(containedIn, c, {c}).value| + 1;
        WalkFollowsSteps(containedIn, c, {c});
        LoopsForever(containedIn, c, n, m);
        assert m * n >= m;
        EndsEarlier(containedIn, c, m, m * n);
        assert false;
      }
    }
    forall c | c in containedIn && Walk(containedIn, c, {c}) == None
      ensures Cyclic(containedIn)
    {
      StoppedWalkIsCyclic(containedIn, [c], {c});
    }
  }

  function Cohorts(policy: CohortPolicy): set<Column> {
    {policy.primary} + set c | c in policy.secondary
  }

  predicate DerivedCohortsKnown(policy: CohortPolicy) {
    forall d | d in policy.derived :: forall c | c in policy.derived[d] :: c in Cohorts(policy)
  }

  ghost predicate ContainmentKnown(policy: CohortPolicy) {
    forall s | s in policy.containedIn :: s in policy.secondary && policy.containedIn[s] in Cohorts(policy)
  }

  predicate UncontainedKnown(policy: CohortPolicy) {
    forall c | c in policy.uncontained :: c in policy.secondary
  }

  ghost predicate ClassifiedOnce(policy: CohortPolicy) {
    forall c | c in policy.secondary :: c in policy.containedIn <==> c !in policy.uncontained
  }

  /** What a declaration says when it can be reasoned about. */
  ghost predicate WellDeclared(policy: CohortPolicy) {
    && DerivedCohortsKnown(policy)
    && ContainmentKnown(policy)
    && UncontainedKnown(policy)
    && ClassifiedOnce(policy)
    && !Cyclic(policy.containedIn)
  }

  /** A dictionary lists each of its keys once. */
  ghost predicate OrderedKeys(policy: CohortPolicy) {
    && (forall s :: s in policy.containedIn <==> s in policy.containedOrder)
    && (forall i, j | 0 <= i < j < |policy.containedOrder| :: policy.containedOrder[i] != policy.containedOrder[j])
  }

  /** The loop over `contained_in.items()`. */
  method CheckContainment(policy: CohortPolicy) returns (error: Option<PolicyError>)
    requires OrderedKeys(policy)
    ensures error == None <==> ContainmentKnown(policy)
    ensures error != Some(ContainmentCycle)
  {
    var allowed := Cohorts(policy);
    for i := 0 to |policy.containedOrder|
      invariant forall k | 0 <= k < i :: policy.containedOrder[k] in policy.secondary
      invariant forall k | 0 <= k < i :: policy.containedIn[policy.containedOrder[k]] in allowed
    {
      var subset := policy.containedOrder[i];
      if subset !in policy.secondary {
        return Some(SubsetNotSecondary);
      }
      if policy.containedIn[subset] !in allowed {
        return Some(UnknownContainer);
      }
    }
    return None;
  }

  /** The set algebra that classifies every secondary cohort once. */
  function CheckClassification(policy: CohortPolicy): (error: Option<PolicyError>)
    requires ContainmentKnown(policy)
    ensures error == None <==> ClassifiedOnce(policy)
    ensures error != Some(ContainmentCycle)
  {
    var listed := set c | c in policy.uncontained;
    var unclassified := (set c | c in policy.secondary) - (policy.containedIn.Keys + listed);
    assert forall c :: c in policy.containedIn.Keys * listed <==> c in policy.containedIn && c in policy.uncontained;
    assert forall c :: c in unclassified <==> c in policy.secondary && c !in policy.containedIn && c !in policy.uncontained;
    if policy.containedIn.Keys * listed != {} then Some(ClassifiedTwice)
    else if unclassified != {} then Some(Unclassified)
    else None
  }

  /** Every declared subset is walked to the end, or the first cycle is raised. */
  method CheckCycles(policy: CohortPolicy) returns (error: Option<PolicyError>)
    requires OrderedKeys(policy)
    ensures error == if Cyclic(policy.containedIn) then Some(ContainmentCycle) else None
  {
    WalksFinishIffAcyclic(policy.containedIn);
    for i := 0 to |policy.containedOrder|
      invariant forall k | 0 <= k < i :: Walk(policy.containedIn, policy.containedOrder[k], {policy.containedOrder[k]}).Some?
    {
      var walked := Ancestors(policy.containedIn, policy.containedOrder[i]);
      if walked.Err? {
        return Some(ContainmentCycle);
      }
    }
    return None;
  }

  /** `__post_init__` with `_validate_containment`, in the order the checks run. */
  method Validate(policy: CohortPolicy) returns (error: Option<PolicyError>)
    requires OrderedKeys(policy)
    ensures error == None <==> WellDeclared(policy)
    ensures DerivedCohortsKnown(policy) && ContainmentKnown(policy) && UncontainedKnown(policy) && ClassifiedOnce(policy) ==>
              (error == Some(ContainmentCycle) <==> Cyclic(policy.containedIn))
  {
    if !DerivedCohortsKnown(policy) {
      return Some(UnknownDerivedCohort);
    }
    error := CheckContainment(policy);
    if error.Some? {
      return;
    }
    if !UncontainedKnown(policy) {
      return Some(UncontainedNotSecondary);
    }
    error := CheckClassification(policy);
    if error.Some? {
      return;
    }
    error := CheckCycles(policy);
  }

  /** Every (subset, container) pair, transitive ones included, in walk order. */
  function ComplementPairs(policy: CohortPolicy): seq<(Column, Column)> {
    PairsFrom(policy.containedIn, policy.containedOrder)
  }

  function PairsFrom(containedIn: map<Column, Column>, subsets: seq<Column>): seq<(Column, Column)> {
    if subsets == [] then []
    else
      var chain := Walk(containedIn, subsets[0], {subsets[0]}).GetOr([]);
      seq(|chain|, i requires 0 <= i < |chain| => (subsets[0], chain[i])) + PairsFrom(containedIn, subsets[1..])
  }

  lemma {:induction false} PairsFromAre(containedIn: map<Column, Column>, subsets: seq<Column>, s: Column, a: Column)
    requires forall c | c in subsets :: Walk(containedIn, c, {c}).Some?
    ensures (s, a) in PairsFrom(containedIn, subsets) <==>
            s in subsets && exists n: nat :: n > 0 && Outwards(containedIn, s, n) == Some(a)
  {
    if subsets != [] {
      var head := subsets[0];
      var chain := Walk(containedIn, head, {head}).value;
      var pairs := seq(|chain|, i requires 0 <= i < |chain| => (head, chain[i]));
      PairsFromAre(containedIn, subsets[1..], s, a);
      WalkFollowsSteps(containedIn, head, {head});
      if s == head {
        if n: nat :| n > 0 && Outwards(containedIn, s, n) == Some(a) {
          if n > |chain| {
            EndsEarlier(containedIn, s, |chain| + 1, n);
          }
          assert Outwards(containedIn, s, (n - 1) + 1) == Some(chain[n - 1]);
          assert pairs[n - 1] == (s, a);
        }
        if (s, a) in pairs {
          var i :| 0 <= i < |pairs| && pairs[i] == (s, a);
          assert Outwards(containedIn, s, i + 1) == Some(a);
        }
      }
      assert (s, a) in pairs ==> s == head;
      assert PairsFrom(containedIn, subsets) == pairs + PairsFrom(containedIn, subsets[1..]);
      assert s in subsets <==> s == head || s in subsets[1..];
    }
  }

  /** The complement rule pairs a declared subset with everything it sits inside. */
  lemma ComplementPairsAreTransitive(policy: CohortPolicy, s: Column, a: Column)
    requires OrderedKeys(policy) && WellDeclared(policy)
    ensures (s, a) in ComplementPairs(policy) <==>
            s in policy.containedIn && exists n: nat :: n > 0 && Outwards(policy.containedIn, s, n) == Some(a)
  {
    WalksFinishIffAcyclic(policy.containedIn);
    PairsFromAre(policy.containedIn, policy.containedOrder, s, a);
  }

  /** Both sides of a pair are cohorts of the policy, the inner one secondary. */
  lemma PairsAreCohorts(policy: CohortPolicy, s: Column, a: Column)
    requires OrderedKeys(policy) && WellDeclared(policy) && (s, a) in ComplementPairs(policy)
    ensures s in policy.secondary && a in Cohorts(policy)
  {
    ComplementPairsAreTransitive(policy, s, a);
    var n: nat :| n > 0 && Outwards(policy.containedIn, s, n) == Some(a);
    assert Outwards(policy.containedIn, s, n - 1).Some?;
  }
}

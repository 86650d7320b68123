/** Project 05, the failure-aware planner: failure classification, the base plan, and the
    plan mutation that replaces actions known to have failed. */
module FailureAwarePlanning {
  import opened Text

  /** A goal, its ordered actions and the constraints attached to it. */
  datatype Plan = Plan(goal: string, actions: seq<string>, constraints: seq<string>)

  /** The failure memory the planner consults, given as the set of actions it reports as
      having failed. */
  datatype FailureMemory = FailureMemory(failedActions: set<string>) {
    predicate HasFailed(action: string) {
      action in failedActions
    }
  }

  const MissingCredentials: string := "missing_credentials"
  const EnvironmentMismatch: string := "environment_mismatch"
  const IncompleteCoverage: string := "incomplete_coverage"
  const UnknownFailure: string := "unknown_failure"

  /** `classify_failure`: a keyword test on the action name where the first match wins.
      The label is always one of the four causes, and each is pinned down: `auth` wins
      over everything, then `deploy` over `test`, and the cause is unknown exactly when
      the action mentions none of `auth`, `deploy` and `test`. */
  function ClassifyFailure(action: string): (cause: string)
    ensures cause in {MissingCredentials, EnvironmentMismatch, IncompleteCoverage, UnknownFailure}
    ensures cause == MissingCredentials <==> Contains(action, "auth")
    ensures cause == EnvironmentMismatch <==> !Contains(action, "auth") && Contains(action, "deploy")
    ensures cause == IncompleteCoverage <==>
              !Contains(action, "auth") && !Contains(action, "deploy") && Contains(action, "test")
    ensures cause == UnknownFailure <==>
              !Contains(action, "auth") && !Contains(action, "deploy") && !Contains(action, "test")
  {
    if Contains(action, "auth") then MissingCredentials
    else if Contains(action, "deploy") then EnvironmentMismatch
    else if Contains(action, "test") then IncompleteCoverage
    else UnknownFailure
  }

  /** The actions of `actions` that the memory reports as failed, in their order. */
  function FailedActions(memory: FailureMemory, actions: seq<string>): (failed: seq<string>)
    ensures |failed| <= |actions|
  {
    if actions == [] then []
    else
      var init, last := actions[..|actions| - 1], actions[|actions| - 1];
      assert actions == init + [last];
      if memory.HasFailed(last) then FailedActions(memory, init) + [last]
      else FailedActions(memory, init)
  }

  /** An action is among the failed ones exactly when it is in the list and has failed. */
  lemma {:induction false} FailedActionsMembers(memory: FailureMemory, actions: seq<string>, a: string)
    ensures a in FailedActions(memory, actions) <==> a in actions && memory.HasFailed(a)
  {
    if actions != [] {
      var init, last := actions[..|actions| - 1], actions[|actions| - 1];
      assert actions == init + [last];
      FailedActionsMembers(memory, init, a);
    }
  }

  /** With no failed action there is nothing to avoid. */
  lemma {:induction false} FailedActionsNone(memory: FailureMemory, actions: seq<string>)
    requires forall i :: 0 <= i < |actions| ==> !memory.HasFailed(actions[i])
    ensures FailedActions(memory, actions) == []
  {
    if actions != [] {
      FailedActionsNone(memory, actions[..|actions| - 1]);
    }
  }

  /** Each failed action is kept exactly as often as it occurs, and no other action is. */
  lemma {:induction false} FailedActionsCount(memory: FailureMemory, actions: seq<string>, a: string)
    ensures multiset(FailedActions(memory, actions))[a] ==
              if memory.HasFailed(a) then multiset(actions)[a] else 0
  {
    if actions != [] {
      var init, last := actions[..|actions| - 1], actions[|actions| - 1];
      assert actions == init + [last];
      FailedActionsCount(memory, init, a);
    }
  }

  /** Taking one more action into account appends it when it has failed. */
  lemma FailedActionsStep(memory: FailureMemory, actions: seq<string>, i: nat)
    requires i < |actions|
    ensures FailedActions(memory, actions[..i + 1]) ==
              FailedActions(memory, actions[..i]) + if memory.HasFailed(actions[i]) then [actions[i]] else []
  {
    assert actions[..i + 1][..i] == actions[..i];
  }

  /** The constraint `avoid:<a>` for each action in `failed`, in order. */
  function AvoidConstraints(failed: seq<string>): (cs: seq<string>)
    ensures |cs| == |failed|
    ensures forall k :: 0 <= k < |failed| ==> cs[k] == "avoid:" + failed[k]
  {
    seq(|failed|, k requires 0 <= k < |failed| => "avoid:" + failed[k])
  }

  lemma AvoidConstraintsSnoc(failed: seq<string>, a: string)
    ensures AvoidConstraints(failed + [a]) == AvoidConstraints(failed) + ["avoid:" + a]
  {
  }

  /** The replacement action for one that has failed. */
  function Reviewed(action: string): string {
    "review_" + action
  }

  /** What `mutate_plan` puts in place of one action. */
  function Replacement(memory: FailureMemory, action: string): string {
    if memory.HasFailed(action) then Reviewed(action) else action
  }

  /** The action list `mutate_plan` builds: every action replaced by its replacement. */
  function Replacements(memory: FailureMemory, actions: seq<string>): (replaced: seq<string>)
    ensures |replaced| == |actions|
    ensures forall i :: 0 <= i < |actions| ==> replaced[i] == Replacement(memory, actions[i])
  {
    seq(|actions|, i requires 0 <= i < |actions| => Replacement(memory, actions[i]))
  }

  /** Taking one more action into account appends its replacement. */
  lemma ReplacementsStep(memory: FailureMemory, actions: seq<string>, i: nat)
    requires i < |actions|
    ensures Replacements(memory, actions[..i + 1]) ==
              Replacements(memory, actions[..i]) + [Replacement(memory, actions[i])]
  {
    assert actions[..i + 1][..i] == actions[..i];
  }

  /** Replacing actions none of which has failed changes nothing. */
  lemma ReplacementsOfNoFailure(memory: FailureMemory, actions: seq<string>)
    requires forall i :: 0 <= i < |actions| ==> !memory.HasFailed(actions[i])
    ensures Replacements(memory, actions) == actions
  {
  }

  /** The planner and the failure memory it was built with. */
  class FailureAwarePlanner {
    const failureMemory: FailureMemory

    constructor (failureMemory: FailureMemory)
      ensures this.failureMemory == failureMemory
    {
      this.failureMemory := failureMemory;
    }

    /** `generate_plan`: the naive plan for any goal, four steps and no constraints. */
    function GeneratePlan(goal: string): (p: Plan)
      ensures p.goal == goal && p.constraints == []
      ensures p.actions == ["check_logs", "fix_auth_issue", "deploy_fix", "run_tests"]
    {
      Plan(goal, ["check_logs", "fix_auth_issue", "deploy_fix", "run_tests"], [])
    }

    /** `mutate_plan`: the goal and the number of actions are kept; each action the memory
        reports as failed is replaced, in place, by its `review_` form; and the constraints
        are the original ones followed by one `avoid:` entry per failed action, in action
        order. With no failed action the plan comes back unchanged. */
    method MutatePlan(plan: Plan) returns (r: Plan)
      ensures r.goal == plan.goal
      ensures |r.actions| == |plan.actions|
      ensures r.actions == Replacements(failureMemory, plan.actions)
      ensures r.constraints == plan.constraints + AvoidConstraints(FailedActions(failureMemory, plan.actions))
      ensures (forall i :: 0 <= i < |plan.actions| ==> !failureMemory.HasFailed(plan.actions[i])) ==> r == plan
    {
      var mutated: seq<string> := [];
      var constraints := plan.constraints;
      ghost var failed: seq<string> := [];
      for i := 0 to |plan.actions|
        invariant mutated == Replacements(failureMemory, plan.actions[..i])
        invariant failed == FailedActions(failureMemory, plan.actions[..i])
        invariant constraints == plan.constraints + AvoidConstraints(failed)
      {
        var a := plan.actions[i];
        FailedActionsStep(failureMemory, plan.actions, i);
        ReplacementsStep(failureMemory, plan.actions, i);
        if failureMemory.HasFailed(a) {
          AvoidConstraintsSnoc(failed, a);
          constraints := constraints + ["avoid:" + a];
          mutated := mutated + [Reviewed(a)];
          failed := failed + [a];
        } else {
          mutated := mutated + [a];
        }
      }
      assert plan.actions[..|plan.actions|] == plan.actions;
      r := Plan(plan.goal, mutated, constraints);
      assert (forall i :: 0 <= i < |plan.actions| ==> !failureMemory.HasFailed(plan.actions[i])) ==> r == plan by {
        if forall i :: 0 <= i < |plan.actions| ==> !failureMemory.HasFailed(plan.actions[i]) {
          FailedActionsNone(failureMemory, plan.actions);
          ReplacementsOfNoFailure(failureMemory, plan.actions);
        }
      }
    }
  }

  /** The four steps of the base plan fall under the four different causes, in the order
      unknown, credentials, environment, coverage. */
  lemma BasePlanCauses(planner: FailureAwarePlanner, goal: string)
    ensures |planner.GeneratePlan(goal).actions| == 4
    ensures ClassifyFailure(planner.GeneratePlan(goal).actions[0]) == UnknownFailure
    ensures ClassifyFailure(planner.GeneratePlan(goal).actions[1]) == MissingCredentials
    ensures ClassifyFailure(planner.GeneratePlan(goal).actions[2]) == EnvironmentMismatch
    ensures ClassifyFailure(planner.GeneratePlan(goal).actions[3]) == IncompleteCoverage
  {
    CheckLogsCause();
    FixAuthIssueCause();
    DeployFixCause();
    RunTestsCause();
  }

  lemma CheckLogsCause()
    ensures ClassifyFailure("check_logs") == UnknownFailure
  {
    UnknownWithoutKeywordInitials("check_logs");
  }

  /** An action without any of the letters `a`, `d` and `t` cannot contain one of the
      three keywords, so its cause is unknown. */
  lemma UnknownWithoutKeywordInitials(action: string)
    requires forall i :: 0 <= i < |action| ==> action[i] != 'a' && action[i] != 'd' && action[i] != 't'
    ensures ClassifyFailure(action) == UnknownFailure
  {
    MissesAbsentFirstChar(action, "auth");
    MissesAbsentFirstChar(action, "deploy");
    MissesAbsentFirstChar(action, "test");
  }

  lemma FixAuthIssueCause()
    ensures ClassifyFailure("fix_auth_issue") == MissingCredentials
  {
    ContainsAt("fix_auth_issue", "auth", 4);
  }

  lemma DeployFixCause()
    ensures ClassifyFailure("deploy_fix") == EnvironmentMismatch
  {
    MissesAbsentFirstChar("deploy_fix", "auth");
    ContainsAt("deploy_fix", "deploy", 0);
  }

  lemma RunTestsCause()
    ensures ClassifyFailure("run_tests") == IncompleteCoverage
  {
    RunTestsKeywords();
  }

  lemma RunTestsKeywords()
    ensures !Contains("run_tests", "auth") && !Contains("run_tests", "deploy")
  {
    RunTestsNoAuth();
    RunTestsNoDeploy();
  }

  lemma RunTestsNoAuth()
    ensures !Contains("run_tests", "auth")
  {
    MissesAbsentFirstChar("run_tests", "auth");
  }

  lemma RunTestsNoDeploy()
    ensures !Contains("run_tests", "deploy")
  {
    MissesAbsentFirstChar("run_tests", "deploy");
  }
}

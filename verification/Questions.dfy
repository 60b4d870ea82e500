/** Check, ask, check again: how an action call gets past the engine. */
module Questions {
  import opened Base
  import opened Permissions
  import opened Engine

  datatype Verdict = Refuse | AllowOnce | AllowForever(saved: bool) {
    predicate Approves() {
      AllowOnce? || (AllowForever? && saved)
    }
  }

  /** A question, the permissions it asks for, and the load of the grants whose
      check raised it. */
  datatype Question = Question(kind: Kind, missing: set<Permission>, load: nat)

  datatype Kind = RunnerAction | MissingGrant | Confirm

  /** `tool` is the registered tool the action names, if there is one. */
  datatype Call = Call(caller: Caller, tool: Option<Tool>, action: Action) {
    predicate Valid() {
      tool.Some? ==> action.tool == Some(tool.value.name)
    }

    function Needs(): set<Permission> {
      Required(tool, action)
    }
  }

  /** What the loop cannot decide: the grants each load of the engine finds, the
      verdict on each question, and whether an approver is connected. */
  datatype World = World(loads: nat -> Grants, verdicts: nat -> Verdict, broker: bool, on: Platform)

  datatype Refusal = ByRule(decision: Decision) | ByNobody | ByVerdict(decision: Decision) | NotSaved | FourthQuestion

  datatype Outcome = Granted(effective: set<Permission>) | Refused(why: Refusal)

  datatype State = State(approved: Approved, asked: seq<Question>, loads: nat)

  const START := State(Approved({}, false, false), [], 0)

  // ---------- the loop ----------

  function DecisionAt(c: Call, w: World, approved: Approved, load: nat): Decision {
    CheckApproved(w.loads(load), c.caller, c.tool, c.action, approved, w.on)
  }

  function Held(c: Call, w: World, load: nat): set<Permission> {
    w.loads(load).ToolGrants(c.action.tool)
  }

  function Missing(c: Call, w: World, load: nat): set<Permission> {
    set r | r in c.Needs() && !Contains(Held(c, w, load), r, w.on)
  }

  /** The permissions an approved question adds. */
  function Remade(missing: set<Permission>, on: Platform): set<Permission> {
    set p | p in missing :: Made(p.slug, on)
  }

  predicate Asks(c: Call, w: World) {
    c.caller.approval != Some(Nobody) && (w.broker || c.caller.approval == Some(Classifier))
  }

  function Refusing(c: Call, d: Decision): Refusal {
    if d.Escalatable() && c.caller.approval == Some(Nobody) then ByNobody else ByRule(d)
  }

  /** The question a decision asks, and the loads of the grants it takes. */
  function Asking(c: Call, w: World, d: Decision, load: nat): (Question, nat)
    requires d.Escalatable()
  {
    match d
    case NeedsConfirmation => (Question(Confirm, {}, load), load + 1)
    case Deny(InRunner) => (Question(RunnerAction, {}, load), load + 1)
    case Deny(InTool) => (Question(MissingGrant, Missing(c, w, load + 1), load), load + 2)
  }

  function Approving(approved: Approved, q: Question, on: Platform): Approved {
    Approved(
      approved.permissions + Remade(q.missing, on),
      approved.runnerAction || q.kind == RunnerAction,
      approved.confirm || q.kind == Confirm)
  }

  /** How the loop ends from a state, and the state it ends in. */
  function Ran(c: Call, w: World, s: State): (Outcome, State)
    requires |s.asked| <= 3
    decreases 3 - |s.asked|
  {
    var d := DecisionAt(c, w, s.approved, s.loads);
    if d == Allow then
      (Granted(Held(c, w, s.loads + 1) + s.approved.permissions), s.(loads := s.loads + 2))
    else if !d.Escalatable() || !Asks(c, w) then (Refused(Refusing(c, d)), s.(loads := s.loads + 1))
    else if |s.asked| == 3 then (Refused(FourthQuestion), s.(loads := s.loads + 1))
    else
      var (q, loads) := Asking(c, w, d, s.loads);
      var verdict, asked := w.verdicts(|s.asked|), s.asked + [q];
      if verdict.Approves() then Ran(c, w, State(Approving(s.approved, q, w.on), asked, loads))
      else (Refused(if verdict.Refuse? then ByVerdict(d) else NotSaved), s.(asked := asked, loads := loads))
  }

  /** The question loop. */
  method Run(c: Call, w: World) returns (outcome: Outcome, s: State)
    requires c.Valid()
    ensures (outcome, s) == Ran(c, w, START)
  {
    hide CheckApproved, Missing, Remade;
    var approved, asked, loads := Approved({}, false, false), [], 0;
    var err: Option<Refusal> := None;
    var decision := CheckApproved(w.loads(loads), c.caller, c.tool, c.action, approved, w.on);
    loads := loads + 1;
    while decision != Allow
      invariant |asked| <= 3 && loads > 0
      invariant decision == DecisionAt(c, w, approved, loads - 1)
      invariant Ran(c, w, START) == Ran(c, w, State(approved, asked, loads - 1))
      decreases 3 - |asked|
    {
      if decision.Escalatable() && c.caller.approval == Some(Nobody) {
        return Refused(ByNobody), State(approved, asked, loads);
      } else if !decision.Escalatable() || (!w.broker && c.caller.approval != Some(Classifier)) {
        return Refused(ByRule(decision)), State(approved, asked, loads);
      } else if |asked| >= 3 {
        return Refused(FourthQuestion), State(approved, asked, loads);
      }
      var (question, next) := Asking(c, w, decision, loads - 1);
      var verdict := w.verdicts(|asked|);
      loads, asked := next, asked + [question];
      if !verdict.Approves() {
        return Refused(if verdict.Refuse? then ByVerdict(decision) else NotSaved), State(approved, asked, loads);
      }
      approved := Approved(
        approved.permissions + Remade(question.missing, w.on),
        approved.runnerAction || question.kind == RunnerAction,
        approved.confirm || question.kind == Confirm);
      decision := CheckApproved(w.loads(loads), c.caller, c.tool, c.action, approved, w.on);
      loads := loads + 1;
    }
    var base := w.loads(loads).ToolGrants(c.action.tool);
    outcome, s := Granted(base + approved.permissions), State(approved, asked, loads + 1);
  }
}

/** The permission engine: whether an action may be run, by whom, and on which
    approvals. */
module Engine {
  import opened Base
  import opened Permissions

  datatype Layer = InDenial | InTool | InRunner | InInterface | InService

  datatype Decision = Allow | NeedsConfirmation | Deny(layer: Layer) {
    /** It can be turned into a question. */
    predicate Escalatable() {
      NeedsConfirmation? || (Deny? && (layer.InTool? || layer.InRunner?))
    }
  }

  /** Where questions go. */
  datatype Setting = Nobody | Human | Classifier

  datatype Caller = Caller(
    runner: Option<string>,
    iface: Option<string>,
    service: Option<string>,
    approval: Option<Setting>)

  datatype Tool = Tool(name: string, requires_: set<Permission>)

  datatype Action = Action(name: string, tool: Option<string>, requires_: set<Permission>, confirm: bool)

  datatype Approved = Approved(permissions: set<Permission>, runnerAction: bool, confirm: bool)

  /** The grants file. Each map goes from a subject's name to its list. */
  datatype Grants = Grants(
    tools: map<string, set<Permission>>,
    runners: map<string, set<string>>,
    interfaces: map<string, set<string>>,
    services: map<string, set<string>>,
    denial: Denial,
    skip: set<string>)
  {
    function ToolGrants(name: Option<string>): set<Permission> {
      if name.Some? && name.value in tools then tools[name.value] else {}
    }

    predicate RunnerAllows(runner: string, action: string) {
      runner in runners && action in runners[runner]
    }
  }

  /** What an action requires: its own permissions and those of its tool. */
  function Required(tool: Option<Tool>, action: Action): set<Permission> {
    action.requires_ + if tool.Some? then tool.value.requires_ else {}
  }

  function ToolName(tool: Option<Tool>, action: Action): Option<string> {
    if tool.Some? then Some(tool.value.name) else action.tool
  }

  predicate Forbidden(g: Grants, tool: Option<Tool>, action: Action, on: Platform) {
    action.name in g.denial.actions || exists r | r in Required(tool, action) :: g.denial.DeniesPermission(r, on)
  }

  predicate ServiceOpen(g: Grants, caller: Caller, action: Action) {
    caller.service.Some? ==>
      && caller.service.value in g.services
      && (g.services[caller.service.value] == {} || action.name in g.services[caller.service.value])
  }

  predicate InterfaceOpen(g: Grants, caller: Caller, action: Action) {
    caller.iface.Some? && caller.iface.value in g.interfaces && g.interfaces[caller.iface.value] != {} ==>
      action.name in g.interfaces[caller.iface.value]
  }

  predicate RunnerOpen(g: Grants, caller: Caller, action: Action) {
    caller.runner.Some? ==> g.RunnerAllows(caller.runner.value, action.name)
  }

  predicate ConfirmOpen(g: Grants, action: Action) {
    action.confirm ==> action.name in g.skip
  }

  function CheckApproved(
    g: Grants, caller: Caller, tool: Option<Tool>, action: Action, approved: Approved, on: Platform): Decision
  {
    var needs := Required(tool, action);
    var held := g.ToolGrants(ToolName(tool, action)) + approved.permissions;
    if Forbidden(g, tool, action, on) then Deny(InDenial)
    else if !ServiceOpen(g, caller, action) then Deny(InService)
    else if !InterfaceOpen(g, caller, action) then Deny(InInterface)
    else if !approved.runnerAction && !RunnerOpen(g, caller, action) then Deny(InRunner)
    else if needs != {} && !CoversAll(held, needs, on) then Deny(InTool)
    else if !approved.confirm && !ConfirmOpen(g, action) then NeedsConfirmation
    else Allow
  }

  /** No denial and no service or interface list stands in the way. */
  predicate RulesAllow(g: Grants, caller: Caller, tool: Option<Tool>, action: Action, on: Platform) {
    !Forbidden(g, tool, action, on) && ServiceOpen(g, caller, action) && InterfaceOpen(g, caller, action)
  }

  /** Approving more never closes what was open: an answer cannot turn a decision
      into a denial, nor an allowed call into a question. */
  lemma ApprovalsOnlyOpen(
    g: Grants, caller: Caller, tool: Option<Tool>, action: Action, less: Approved, more: Approved, on: Platform)
    requires less.permissions <= more.permissions
    requires (less.runnerAction ==> more.runnerAction) && (less.confirm ==> more.confirm)
    ensures var was := CheckApproved(g, caller, tool, action, less, on);
            var now := CheckApproved(g, caller, tool, action, more, on);
            && (was.Allow? ==> now.Allow?)
            && (was.Escalatable() ==> now.Escalatable() || now.Allow?)
            && (!was.Escalatable() && !was.Allow? ==> now == was)
            && Rank(was) <= Rank(now)
  {
    hide Permission.Covers;
    forall held: set<Permission>, r | Contains(held + less.permissions, r, on)
      ensures Contains(held + more.permissions, r, on)
    {
      var h :| h in held + less.permissions && h.Covers(r, on);
      assert h in held + more.permissions;
    }
  }

  /** How far a check got. */
  function Rank(d: Decision): nat {
    match d
    case Deny(InDenial) => 0
    case Deny(InService) => 1
    case Deny(InInterface) => 2
    case Deny(InRunner) => 3
    case Deny(InTool) => 4
    case NeedsConfirmation => 5
    case Allow => 6
  }
}

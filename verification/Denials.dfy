/** What a check decides and what a question asks for, said from the grants and the
    permissions alone. */
module Denials {
  import opened Base
  import opened Permissions
  import opened PathMatching
  import DeniedFolders
  import opened Engine
  import opened Questions

  // ---------- the gates of a check ----------

  /** The action or its tool requires the permission. */
  predicate RequiredBy(r: Permission, tool: Option<Tool>, action: Action) {
    r in action.requires_ || (tool.Some? && r in tool.value.requires_)
  }

  /** The tool was granted the permission, or it was approved. */
  predicate HeldBy(g: Grants, tool: Option<Tool>, action: Action, approved: set<Permission>, h: Permission) {
    var name := if tool.Some? then Some(tool.value.name) else action.tool;
    h in approved || (name.Some? && name.value in g.tools && h in g.tools[name.value])
  }

  /** The action is denied by name, or something required is denied. */
  ghost predicate IsDenied(g: Grants, tool: Option<Tool>, action: Action, on: Platform) {
    || action.name in g.denial.actions
    || exists h, r :: h in g.denial.permissions && RequiredBy(r, tool, action) && Denies(h, r, on)
  }

  /** A service may run what its list names, or anything when the list is empty. */
  predicate ServiceMay(g: Grants, caller: Caller, action: Action) {
    match caller.service
    case None => true
    case Some(name) => name in g.services && (|g.services[name]| == 0 || action.name in g.services[name])
  }

  /** An interface with a list may run what the list names. */
  predicate InterfaceMay(g: Grants, caller: Caller, action: Action) {
    match caller.iface
    case None => true
    case Some(name) => name !in g.interfaces || |g.interfaces[name]| == 0 || action.name in g.interfaces[name]
  }

  /** A runner may run what its list names, and what was approved. */
  predicate RunnerMay(g: Grants, caller: Caller, action: Action, approved: bool) {
    match caller.runner
    case None => true
    case Some(name) => approved || (name in g.runners && action.name in g.runners[name])
  }

  /** Something held covers each permission required. */
  ghost predicate AllCovered(g: Grants, tool: Option<Tool>, action: Action, approved: set<Permission>, on: Platform) {
    forall r | RequiredBy(r, tool, action) :: exists h :: HeldBy(g, tool, action, approved, h) && h.Covers(r, on)
  }

  lemma DeniedIs(g: Grants, tool: Option<Tool>, action: Action, on: Platform)
    ensures Forbidden(g, tool, action, on) <==> IsDenied(g, tool, action, on)
  {
    hide Denies;
    if IsDenied(g, tool, action, on) && action.name !in g.denial.actions {
      var h, r :| h in g.denial.permissions && RequiredBy(r, tool, action) && Denies(h, r, on);
      assert r in Required(tool, action) && g.denial.DeniesPermission(r, on);
    }
    if Forbidden(g, tool, action, on) && action.name !in g.denial.actions {
      var r :| r in Required(tool, action) && g.denial.DeniesPermission(r, on);
      assert RequiredBy(r, tool, action);
    }
  }

  lemma CoveredIs(g: Grants, tool: Option<Tool>, action: Action, approved: set<Permission>, on: Platform)
    ensures var needs, held := Required(tool, action), g.ToolGrants(ToolName(tool, action)) + approved;
            needs == {} || CoversAll(held, needs, on) <==> AllCovered(g, tool, action, approved, on)
  {
    hide Permission.Covers;
    var needs, held := Required(tool, action), g.ToolGrants(ToolName(tool, action)) + approved;
    assert forall h :: h in held <==> HeldBy(g, tool, action, approved, h);
    assert forall r :: r in needs <==> RequiredBy(r, tool, action);
    hide HeldBy, RequiredBy, Grants.ToolGrants;
    if AllCovered(g, tool, action, approved, on) {
      forall r | r in needs ensures Contains(held, r, on) {
        var h :| HeldBy(g, tool, action, approved, h) && h.Covers(r, on);
        assert h in held;
      }
    }
    if CoversAll(held, needs, on) {
      forall r | RequiredBy(r, tool, action)
        ensures exists h :: HeldBy(g, tool, action, approved, h) && h.Covers(r, on)
      {
        assert Contains(held, r, on);
        var h :| h in held && h.Covers(r, on);
      }
    }
  }

  /** What a check decides: the first gate that is closed, in this order, and a call is
      allowed exactly when none is. */
  lemma DecidesExactly(
    g: Grants, caller: Caller, tool: Option<Tool>, action: Action, approved: Approved, on: Platform)
    ensures CheckApproved(g, caller, tool, action, approved, on) ==
            if IsDenied(g, tool, action, on) then Deny(InDenial)
            else if !ServiceMay(g, caller, action) then Deny(InService)
            else if !InterfaceMay(g, caller, action) then Deny(InInterface)
            else if !RunnerMay(g, caller, action, approved.runnerAction) then Deny(InRunner)
            else if !AllCovered(g, tool, action, approved.permissions, on) then Deny(InTool)
            else if action.confirm && !approved.confirm && action.name !in g.skip then NeedsConfirmation
            else Allow
  {
    DeniedIs(g, tool, action, on);
    CoveredIs(g, tool, action, approved.permissions, on);
    hide Forbidden, IsDenied, CoversAll, AllCovered;
  }

  /** A permission that is denied stops every call that requires it, whatever was granted
      or approved. */
  lemma DeniedIsRefused(
    g: Grants, caller: Caller, tool: Option<Tool>, action: Action, approved: Approved, on: Platform,
    h: Permission, r: Permission)
    requires h in g.denial.permissions && Denies(h, r, on)
    requires r in action.requires_ || (tool.Some? && r in tool.value.requires_)
    ensures CheckApproved(g, caller, tool, action, approved, on) == Deny(InDenial)
  {
    hide Denies, CheckApproved;
    DecidesExactly(g, caller, tool, action, approved, on);
    assert RequiredBy(r, tool, action);
  }

  /** From any state of the loop, a check that finds such a permission ends it: the call
      is refused by that rule, and nothing more is asked. */
  lemma DeniedNeverRuns(c: Call, w: World, s: State, h: Permission, r: Permission)
    requires |s.asked| <= 3
    requires r in c.action.requires_ || (c.tool.Some? && r in c.tool.value.requires_)
    requires h in w.loads(s.loads).denial.permissions && Denies(h, r, w.on)
    ensures Ran(c, w, s).0 == Refused(ByRule(Deny(InDenial))) && Ran(c, w, s).1.asked == s.asked
  {
    hide Denies, CheckApproved;
    DeniedIsRefused(w.loads(s.loads), c.caller, c.tool, c.action, s.approved, w.on, h, r);
  }

  /** A call that is granted was not denied at the load of its last check, the one before
      the load its effective grants are from. */
  lemma {:induction false} GrantedUndenied(c: Call, w: World, s: State)
    requires |s.asked| <= 3
    ensures var (outcome, t) := Ran(c, w, s);
            outcome.Granted? ==> t.loads >= 2 && !IsDenied(w.loads(t.loads - 2), c.tool, c.action, w.on)
    decreases 3 - |s.asked|
  {
    var d := DecisionAt(c, w, s.approved, s.loads);
    DecidesExactly(w.loads(s.loads), c.caller, c.tool, c.action, s.approved, w.on);
    hide IsDenied, CheckApproved, AllCovered, Missing, Approving;
    if d != Allow && d.Escalatable() && |s.asked| < 3 {
      var (q, loads) := Asking(c, w, d, s.loads);
      if w.verdicts(|s.asked|).Approves() {
        GrantedUndenied(c, w, State(Approving(s.approved, q, w.on), s.asked + [q], loads));
      }
    }
  }

  /** No grant and no answer opens a folder that is denied: a call that requires a path
      inside it is refused with nobody asked. */
  lemma DeniedFolderIsRefused(c: Call, w: World, domain: string, f: seq<string>, n: nat, p: seq<string>)
    requires "fs." <= domain && ':' !in domain && !w.on.ignoreCase && Components(f) && Components(p) && Normal(p)
    requires f != [] ==> !Ends(f[|f| - 1], "\\")
    requires !Ends(DeniedFolders.FolderText(f, n), "*") && f <= p
    requires For(domain, DeniedFolders.FolderText(f, n)) in w.loads(0).denial.permissions
    requires For(domain, PathOf(p)) in c.action.requires_
    ensures Ran(c, w, START) == (Refused(ByRule(Deny(InDenial))), START.(loads := 1))
  {
    var h, r := For(domain, DeniedFolders.FolderText(f, n)), For(domain, PathOf(p));
    DeniedFolders.DeniedFolder(domain, f, n, p, w.on);
    hide Denies, DeniedFolders.FolderText, PathOf;
    DeniedIsRefused(w.loads(0), c.caller, c.tool, c.action, START.approved, w.on, h, r);
    hide CheckApproved;
  }

  // ---------- what a question asks for ----------

  /** The permissions required that nothing the tool was granted covers. */
  ghost predicate Uncovered(g: Grants, c: Call, on: Platform, missing: set<Permission>) {
    forall r :: r in missing <==>
      RequiredBy(r, c.tool, c.action) && !exists h :: HeldBy(g, c.tool, c.action, {}, h) && h.Covers(r, on)
  }

  lemma MissingIs(c: Call, w: World, load: nat)
    requires c.Valid()
    ensures Uncovered(w.loads(load), c, w.on, Missing(c, w, load))
  {
    hide Permission.Covers;
    var g := w.loads(load);
    assert forall h :: h in Held(c, w, load) <==> HeldBy(g, c.tool, c.action, {}, h);
    assert forall r :: r in c.Needs() <==> RequiredBy(r, c.tool, c.action);
    hide HeldBy, RequiredBy, Held, Call.Needs;
    forall r
      ensures r in Missing(c, w, load) <==>
              RequiredBy(r, c.tool, c.action) && !exists h :: HeldBy(g, c.tool, c.action, {}, h) && h.Covers(r, w.on)
    {
      if exists h :: HeldBy(g, c.tool, c.action, {}, h) && h.Covers(r, w.on) {
        var h :| HeldBy(g, c.tool, c.action, {}, h) && h.Covers(r, w.on);
        assert h in Held(c, w, load);
      }
    }
  }

  /** A question asks for what it was raised for: grants for exactly what is uncovered at
      the load after the check, and the others for nothing. */
  ghost predicate AsksFor(c: Call, w: World, q: Question) {
    if q.kind == MissingGrant then Uncovered(w.loads(q.load + 1), c, w.on, q.missing) else q.missing == {}
  }

  ghost predicate AllAskFor(c: Call, w: World, asked: seq<Question>) {
    forall k | 0 <= k < |asked| :: AsksFor(c, w, asked[k])
  }

  /** What the first `n` questions asked for, each made again from its text. */
  ghost predicate ApprovedFrom(asked: seq<Question>, n: nat, on: Platform, p: Permission)
    requires n <= |asked|
  {
    exists k, m | 0 <= k < n && m in asked[k].missing :: p == Made(m.slug, on)
  }

  lemma ApprovedMore(asked: seq<Question>, q: Question, on: Platform)
    ensures forall p :: ApprovedFrom(asked + [q], |asked| + 1, on, p) <==>
              ApprovedFrom(asked, |asked|, on, p) || p in Remade(q.missing, on)
  {
    var more := asked + [q];
    hide Made;
    forall p
      ensures ApprovedFrom(more, |more|, on, p) <==> ApprovedFrom(asked, |asked|, on, p) || p in Remade(q.missing, on)
    {
      if ApprovedFrom(asked, |asked|, on, p) {
        var k, m :| 0 <= k < |asked| && m in asked[k].missing && p == Made(m.slug, on);
        assert more[k] == asked[k];
      }
      if p in Remade(q.missing, on) {
        var m :| m in q.missing && p == Made(m.slug, on);
        assert more[|asked|] == q && m in more[|asked|].missing;
      }
      if ApprovedFrom(more, |more|, on, p) {
        var k, m :| 0 <= k < |more| && m in more[k].missing && p == Made(m.slug, on);
        assert k < |asked| ==> more[k] == asked[k];
      }
    }
  }

  /** What was approved is what the questions asked for, and nothing else. */
  ghost predicate ApprovedIs(s: State, on: Platform) {
    forall p :: p in s.approved.permissions <==> ApprovedFrom(s.asked, |s.asked|, on, p)
  }

  lemma {:induction false} AsksForFrom(c: Call, w: World, s: State)
    requires c.Valid() && |s.asked| <= 3 && AllAskFor(c, w, s.asked) && ApprovedIs(s, w.on)
    ensures var (outcome, t) := Ran(c, w, s);
            && AllAskFor(c, w, t.asked)
            && (outcome.Granted? ==>
                  t.loads >= 2 && ApprovedIs(t, w.on)
                  && outcome.effective == Held(c, w, t.loads - 1) + t.approved.permissions)
    decreases 3 - |s.asked|
  {
    hide CheckApproved, Missing, Uncovered, ApprovedFrom, Remade, Held;
    var d := DecisionAt(c, w, s.approved, s.loads);
    if d != Allow && d.Escalatable() && Asks(c, w) && |s.asked| < 3 {
      MissingIs(c, w, s.loads + 1);
      var (q, loads) := Asking(c, w, d, s.loads);
      assert AsksFor(c, w, q);
      hide AsksFor;
      assert AllAskFor(c, w, s.asked + [q]);
      if w.verdicts(|s.asked|).Approves() {
        ApprovedMore(s.asked, q, w.on);
        AsksForFrom(c, w, State(Approving(s.approved, q, w.on), s.asked + [q], loads));
      }
    }
  }

  /** Every question asks for exactly what nothing granted covers, and a call that is
      granted runs with what its tool was granted at the last load and what those questions
      asked for, each made again from its text. */
  lemma QuestionsAskExactly(c: Call, w: World)
    requires c.Valid()
    ensures var (outcome, t) := Ran(c, w, START);
            && AllAskFor(c, w, t.asked)
            && (outcome.Granted? ==> t.loads > 0 && forall p :: p in outcome.effective <==>
                  || HeldBy(w.loads(t.loads - 1), c.tool, c.action, {}, p)
                  || ApprovedFrom(t.asked, |t.asked|, w.on, p))
  {
    hide Ran, AsksFor, ApprovedFrom;
    assert ApprovedIs(START, w.on) by { NothingApproved(w.on); }
    AsksForFrom(c, w, START);
  }

  lemma NothingApproved(on: Platform)
    ensures forall p :: !ApprovedFrom([], 0, on, p)
  {
  }

  /** Every check is made on a load of its own: a question about grants takes a second one
      for what is missing, and what runs at last takes one for the tool's grants. */
  predicate LoadsInTurn(asked: seq<Question>, loads: nat) {
    && (forall j, k | 0 <= j < |asked| && k == j + 1 < |asked| :: asked[k].load == NextLoad(asked[j]))
    && (asked != [] ==> loads == NextLoad(asked[|asked| - 1]))
  }

  function NextLoad(q: Question): nat {
    q.load + if q.kind == MissingGrant then 2 else 1
  }

  lemma NextInTurn(asked: seq<Question>, q: Question)
    requires LoadsInTurn(asked, q.load)
    ensures LoadsInTurn(asked + [q], NextLoad(q))
  {
    var all := asked + [q];
    forall j, k | 0 <= j < |all| && k == j + 1 < |all|
      ensures all[k].load == NextLoad(all[j])
    {
      if k < |asked| {
        assert all[k] == asked[k] && all[j] == asked[j];
      }
    }
  }

  lemma {:induction false} EachCheckLoads(c: Call, w: World, s: State)
    requires |s.asked| <= 3 && LoadsInTurn(s.asked, s.loads)
    ensures var (outcome, t) := Ran(c, w, s);
            var last := if outcome.Granted? then t.loads - 2 else t.loads - 1;
            && (if s.asked != [] then t.asked != [] && t.asked[0] == s.asked[0]
                else t.asked != [] ==> t.asked[0].load == s.loads)
            && ((last >= 0 && LoadsInTurn(t.asked, last)) || (outcome.Refused? && LoadsInTurn(t.asked, t.loads)))
    decreases 3 - |s.asked|
  {
    hide CheckApproved, Missing, Approving, LoadsInTurn;
    var d := DecisionAt(c, w, s.approved, s.loads);
    if d != Allow && d.Escalatable() && Asks(c, w) && |s.asked| < 3 {
      var (q, loads) := Asking(c, w, d, s.loads);
      NextInTurn(s.asked, q);
      if w.verdicts(|s.asked|).Approves() {
        EachCheckLoads(c, w, State(Approving(s.approved, q, w.on), s.asked + [q], loads));
      }
    }
  }

  // ---------- who is asked ----------

  /** A first check that allows runs the call; one that neither allows nor can be turned
      into a question refuses it. One that can refuses it too when approval is `nobody`, or
      when there is no approver and approval is not the classifier's; and otherwise a
      question of its kind is asked, and a no, or a yes that could not be saved, ends it. */
  lemma FirstCheckDecides(c: Call, w: World)
    ensures var d := CheckApproved(w.loads(0), c.caller, c.tool, c.action, START.approved, w.on);
            var (outcome, t) := Ran(c, w, START);
            var nobody, classifier := c.caller.approval == Some(Nobody), c.caller.approval == Some(Classifier);
            if d == Allow then outcome.Granted? && t.asked == []
            else if d !in {NeedsConfirmation, Deny(InRunner), Deny(InTool)} then
              outcome == Refused(ByRule(d)) && t.asked == []
            else if nobody then outcome == Refused(ByNobody) && t.asked == []
            else if !w.broker && !classifier then outcome == Refused(ByRule(d)) && t.asked == []
            else
              && |t.asked| > 0
              && t.asked[0].kind == (if d == Deny(InRunner) then RunnerAction
                                     else if d == Deny(InTool) then MissingGrant else Confirm)
              && (w.verdicts(0) == Refuse ==> outcome == Refused(ByVerdict(d)) && |t.asked| == 1)
              && (w.verdicts(0) == AllowForever(false) ==> outcome == Refused(NotSaved) && |t.asked| == 1)
  {
    hide CheckApproved, Missing, Remade;
    var d := DecisionAt(c, w, START.approved, 0);
    if d.Escalatable() && Asks(c, w) {
      var (q, loads) := Asking(c, w, d, 0);
      KeepsFirst(c, w, State(Approving(START.approved, q, w.on), START.asked + [q], loads));
    }
  }

  lemma {:induction false} KeepsFirst(c: Call, w: World, s: State)
    requires 0 < |s.asked| <= 3
    ensures |Ran(c, w, s).1.asked| > 0 && Ran(c, w, s).1.asked[0] == s.asked[0]
    decreases 3 - |s.asked|
  {
    hide CheckApproved, Missing, Approving;
    var d := DecisionAt(c, w, s.approved, s.loads);
    if d != Allow && d.Escalatable() && Asks(c, w) && |s.asked| < 3 {
      var (q, loads) := Asking(c, w, d, s.loads);
      KeepsFirst(c, w, State(Approving(s.approved, q, w.on), s.asked + [q], loads));
    }
  }
}

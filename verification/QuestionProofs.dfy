/** What the question loop promises. */
module QuestionProofs {
  import opened Base
  import opened Permissions
  import opened Engine
  import opened Questions

  // ---------- asking each question once ----------

  /** What was approved for the permissions missing at one load is enough at
      every later one. */
  ghost predicate Answerable(c: Call, w: World) {
    forall m, n | m <= n :: Enough(c, w, m, n)
  }

  predicate Enough(c: Call, w: World, m: nat, n: nat) {
    CoversAll(Held(c, w, n) + Remade(Missing(c, w, m), w.on), c.Needs(), w.on)
  }

  /** No reload takes a grant from the tool. */
  ghost predicate KeepsGrants(c: Call, w: World) {
    forall m, n | m <= n :: Held(c, w, m) <= Held(c, w, n)
  }

  /** No reload takes the action off the runner's list. */
  ghost predicate KeepsAllowlist(c: Call, w: World) {
    forall m, n | m <= n && RunnerOpen(w.loads(m), c.caller, c.action) :: RunnerOpen(w.loads(n), c.caller, c.action)
  }

  lemma HeldCovers(c: Call, w: World, m: nat, n: nat, r: Permission)
    requires KeepsGrants(c, w) && m <= n && Contains(Held(c, w, m), r, w.on)
    ensures Contains(Held(c, w, n), r, w.on)
  {
    hide Permission.Covers, Held;
    var h :| h in Held(c, w, m) && h.Covers(r, w.on);
    assert Held(c, w, m) <= Held(c, w, n);
  }

  lemma MoreCovers(held: set<Permission>, more: set<Permission>, r: Permission, on: Platform)
    requires Contains(held, r, on) && held <= more
    ensures Contains(more, r, on)
  {
    hide Permission.Covers;
    var h :| h in held && h.Covers(r, on);
  }

  lemma LessCovers(held: set<Permission>, more: set<Permission>, r: Permission, on: Platform)
    requires !Contains(more, r, on) && held <= more
    ensures !Contains(held, r, on)
  {
    hide Permission.Covers;
    forall h | h in held ensures !h.Covers(r, on) {
      assert h in more;
    }
  }

  /** Questions can be answered when reloads keep the tool's grants, no file path
      climbs, and no host changes when it is read again. */
  lemma SelfCoveringIsAnswerable(c: Call, w: World)
    requires KeepsGrants(c, w)
    requires forall r | r in c.Needs() :: !Climbs(r) && !Renamed(r, w.on)
    ensures Answerable(c, w)
  {
    hide Permission.Covers, Climbs, Renamed, Held, Call.Needs;
    forall m: nat, n: nat, r | m <= n && r in c.Needs()
      ensures Contains(Held(c, w, n) + Remade(Missing(c, w, m), w.on), r, w.on)
    {
      var all := Held(c, w, n) + Remade(Missing(c, w, m), w.on);
      if Contains(Held(c, w, m), r, w.on) {
        HeldCovers(c, w, m, n, r);
        MoreCovers(Held(c, w, n), all, r, w.on);
      } else {
        MadeAgainCovers(r, w.on);
        assert r in Missing(c, w, m);
        assert Made(r.slug, w.on) in all;
      }
    }
    assert forall m: nat, n: nat | m <= n :: Enough(c, w, m, n);
  }

  predicate Asked(asked: seq<Question>, kind: Kind) {
    exists k | 0 <= k < |asked| :: asked[k].kind == kind
  }

  predicate EachOnce(asked: seq<Question>) {
    forall i, j | 0 <= i < j < |asked| :: asked[i].kind != asked[j].kind
  }

  /** What was approved covers what is required from this load on. */
  ghost predicate Satisfied(c: Call, w: World, s: State) {
    forall n | n >= s.loads :: CoversAll(Held(c, w, n) + s.approved.permissions, c.Needs(), w.on)
  }

  ghost predicate Remembers(c: Call, w: World, s: State) {
    && (Asked(s.asked, RunnerAction) ==> s.approved.runnerAction)
    && (Asked(s.asked, Confirm) ==> s.approved.confirm)
    && (Asked(s.asked, MissingGrant) ==> Satisfied(c, w, s))
  }

  lemma SatisfiedAfter(c: Call, w: World, s: State, t: State, m: nat)
    requires Answerable(c, w) && m <= t.loads
    requires Remade(Missing(c, w, m), w.on) <= t.approved.permissions
    ensures Satisfied(c, w, t)
  {
    hide Held, Missing, Remade, Call.Needs, Permission.Covers;
    forall n, r | n >= t.loads && r in c.Needs()
      ensures Contains(Held(c, w, n) + t.approved.permissions, r, w.on)
    {
      assert Enough(c, w, m, n);
      MoreCovers(Held(c, w, n) + Remade(Missing(c, w, m), w.on), Held(c, w, n) + t.approved.permissions, r, w.on);
    }
  }

  lemma SatisfiedStays(c: Call, w: World, s: State, t: State)
    requires Satisfied(c, w, s) && s.loads <= t.loads && s.approved.permissions <= t.approved.permissions
    ensures Satisfied(c, w, t)
  {
    hide Held, Call.Needs, Permission.Covers;
    forall n, r | n >= t.loads && r in c.Needs()
      ensures Contains(Held(c, w, n) + t.approved.permissions, r, w.on)
    {
      MoreCovers(Held(c, w, n) + s.approved.permissions, Held(c, w, n) + t.approved.permissions, r, w.on);
    }
  }

  /** One more question is answered with yes. */
  lemma RemembersMore(c: Call, w: World, s: State)
    requires c.Valid() && Answerable(c, w) && Remembers(c, w, s) && EachOnce(s.asked)
    requires DecisionAt(c, w, s.approved, s.loads).Escalatable()
    ensures var (q, loads) := Asking(c, w, DecisionAt(c, w, s.approved, s.loads), s.loads);
            var t := State(Approving(s.approved, q, w.on), s.asked + [q], loads);
            !Asked(s.asked, q.kind) && EachOnce(t.asked) && Remembers(c, w, t)
  {
    hide Forbidden, ServiceOpen, InterfaceOpen, RunnerOpen, ConfirmOpen, Missing, Remade, Answerable, CoversAll;
    var d := DecisionAt(c, w, s.approved, s.loads);
    var (q, loads) := Asking(c, w, d, s.loads);
    var t := State(Approving(s.approved, q, w.on), s.asked + [q], loads);
    assert Held(c, w, s.loads) == w.loads(s.loads).ToolGrants(ToolName(c.tool, c.action));
    assert q.kind == MissingGrant ==>
      !CoversAll(Held(c, w, s.loads) + s.approved.permissions, c.Needs(), w.on);
    if q.kind == MissingGrant {
      SatisfiedAfter(c, w, s, t, s.loads + 1);
    } else if Asked(s.asked, MissingGrant) {
      SatisfiedStays(c, w, s, t);
    }
    assert forall kind :: Asked(t.asked, kind) ==> Asked(s.asked, kind) || q.kind == kind;
  }

  lemma KindsAreThree(asked: seq<Question>)
    requires EachOnce(asked)
    ensures |asked| <= 3
  {
    if |asked| > 3 {
      KindsRepeat(asked);
    }
  }

  lemma KindsRepeat(asked: seq<Question>)
    requires |asked| > 3
    ensures !EachOnce(asked)
  {
    var a, b, d, e := asked[0].kind, asked[1].kind, asked[2].kind, asked[3].kind;
    assert a == b || a == d || a == e || b == d || b == e || d == e;
  }

  lemma {:induction false} OnceEachFrom(c: Call, w: World, s: State)
    requires c.Valid() && Answerable(c, w) && Remembers(c, w, s) && EachOnce(s.asked) && |s.asked| <= 3
    ensures var (outcome, t) := Ran(c, w, s); outcome != Refused(FourthQuestion) && EachOnce(t.asked)
    decreases 3 - |s.asked|
  {
    hide CheckApproved, Answerable, Remembers, EachOnce, Asked, Missing, Approving;
    var d := DecisionAt(c, w, s.approved, s.loads);
    if d.Escalatable() && Asks(c, w) {
      RemembersMore(c, w, s);
      var (q, loads) := Asking(c, w, d, s.loads);
      KindsAreThree(s.asked);
      KindsAreThree(s.asked + [q]);
      if |s.asked| < 3 {
        var t := State(Approving(s.approved, q, w.on), s.asked + [q], loads);
        if w.verdicts(|s.asked|).Approves() {
          OnceEachFrom(c, w, t);
        }
      }
    }
  }

  /** However reloads and verdicts fall, the loop asks each kind of question at
      most once and never gets to a fourth, as long as every approval of what is
      missing is enough from then on. */
  lemma OnceEach(c: Call, w: World)
    requires c.Valid() && Answerable(c, w)
    ensures var (outcome, t) := Ran(c, w, START);
            outcome != Refused(FourthQuestion) && |t.asked| <= 3 && EachOnce(t.asked)
  {
    hide Answerable, Ran;
    OnceEachFrom(c, w, START);
    KindsAreThree(Ran(c, w, START).1.asked);
  }

  // ---------- the order of the questions ----------

  function Turn(kind: Kind): nat {
    match kind
    case RunnerAction => 0
    case MissingGrant => 1
    case Confirm => 2
  }

  predicate InOrder(asked: seq<Question>) {
    forall i, j | 0 <= i < j < |asked| :: Turn(asked[i].kind) < Turn(asked[j].kind)
  }

  /** The runner may call the action from this load on. */
  ghost predicate RunnerSettled(c: Call, w: World, s: State) {
    s.approved.runnerAction || forall n | n >= s.loads :: RunnerOpen(w.loads(n), c.caller, c.action)
  }

  /** A question asked means that the gates before its own stay open. */
  ghost predicate PastTurns(c: Call, w: World, s: State) {
    && (Asked(s.asked, MissingGrant) || Asked(s.asked, Confirm) ==> RunnerSettled(c, w, s))
    && (Asked(s.asked, Confirm) ==> Satisfied(c, w, s))
  }

  lemma SatisfiedFrom(c: Call, w: World, s: State)
    requires c.Valid() && KeepsGrants(c, w)
    requires CoversAll(Held(c, w, s.loads) + s.approved.permissions, c.Needs(), w.on)
    ensures Satisfied(c, w, s)
  {
    hide Held, Call.Needs, Permission.Covers, KeepsGrants;
    forall n, r | n >= s.loads && r in c.Needs()
      ensures Contains(Held(c, w, n) + s.approved.permissions, r, w.on)
    {
      assert Held(c, w, s.loads) <= Held(c, w, n) by { StillHeld(c, w, s.loads, n); }
      assert Contains(Held(c, w, s.loads) + s.approved.permissions, r, w.on);
      MoreCovers(Held(c, w, s.loads) + s.approved.permissions, Held(c, w, n) + s.approved.permissions, r, w.on);
    }
  }

  lemma StillHeld(c: Call, w: World, m: nat, n: nat)
    requires KeepsGrants(c, w) && m <= n
    ensures Held(c, w, m) <= Held(c, w, n)
  {
  }

  lemma RunnerStaysSettled(c: Call, w: World, s: State, t: State)
    requires RunnerSettled(c, w, s) && s.loads <= t.loads && (s.approved.runnerAction ==> t.approved.runnerAction)
    ensures RunnerSettled(c, w, t)
  {
  }

  lemma RunnerSettledFrom(c: Call, w: World, s: State)
    requires KeepsAllowlist(c, w) || s.approved.runnerAction
    requires s.approved.runnerAction || RunnerOpen(w.loads(s.loads), c.caller, c.action)
    ensures RunnerSettled(c, w, s)
  {
    hide RunnerOpen;
  }

  /** The next question comes after those asked. */
  lemma NextTurn(c: Call, w: World, s: State)
    requires c.Valid() && Answerable(c, w) && KeepsGrants(c, w) && (KeepsAllowlist(c, w) || s.approved.runnerAction)
    requires Remembers(c, w, s) && InOrder(s.asked) && PastTurns(c, w, s)
    requires DecisionAt(c, w, s.approved, s.loads).Escalatable()
    ensures var (q, loads) := Asking(c, w, DecisionAt(c, w, s.approved, s.loads), s.loads);
            var t := State(Approving(s.approved, q, w.on), s.asked + [q], loads);
            InOrder(t.asked) && PastTurns(c, w, t)
  {
    hide Forbidden, ServiceOpen, InterfaceOpen, RunnerOpen, ConfirmOpen, Missing, Remade, Answerable, CoversAll;
    hide KeepsGrants, KeepsAllowlist, Asked;
    var d := DecisionAt(c, w, s.approved, s.loads);
    var (q, loads) := Asking(c, w, d, s.loads);
    var t := State(Approving(s.approved, q, w.on), s.asked + [q], loads);
    assert Held(c, w, s.loads) == w.loads(s.loads).ToolGrants(ToolName(c.tool, c.action));
    EveryAsked(s, q, t);
    match q.kind
    case RunnerAction =>
      assert !RunnerSettled(c, w, s);
    case MissingGrant =>
      assert !CoversAll(Held(c, w, s.loads) + s.approved.permissions, c.Needs(), w.on);
      assert !Satisfied(c, w, s);
      RunnerSettledFrom(c, w, s);
      RunnerStaysSettled(c, w, s, t);
    case Confirm =>
      RunnerSettledFrom(c, w, s);
      RunnerStaysSettled(c, w, s, t);
      assert CoversAll(Held(c, w, s.loads) + s.approved.permissions, c.Needs(), w.on) by {
        if c.Needs() == {} { NothingToCover(Held(c, w, s.loads) + s.approved.permissions, w.on); }
      }
      SatisfiedFrom(c, w, s);
      SatisfiedStays(c, w, s, t);
  }

  lemma NothingToCover(held: set<Permission>, on: Platform)
    ensures CoversAll(held, {}, on)
  {
  }

  lemma EveryAsked(s: State, q: Question, t: State)
    requires t.asked == s.asked + [q]
    ensures forall k | 0 <= k < |s.asked| :: Asked(s.asked, s.asked[k].kind)
    ensures forall kind :: Asked(t.asked, kind) ==> Asked(s.asked, kind) || q.kind == kind
  {
  }

  lemma {:induction false} InOrderFrom(c: Call, w: World, s: State)
    requires c.Valid() && Answerable(c, w) && KeepsGrants(c, w) && (KeepsAllowlist(c, w) || s.approved.runnerAction)
    requires Remembers(c, w, s) && EachOnce(s.asked) && InOrder(s.asked) && PastTurns(c, w, s) && |s.asked| <= 3
    ensures InOrder(Ran(c, w, s).1.asked)
    decreases 3 - |s.asked|
  {
    hide CheckApproved, Answerable, KeepsGrants, KeepsAllowlist, Remembers, EachOnce, InOrder, PastTurns, Missing;
    var d := DecisionAt(c, w, s.approved, s.loads);
    if d.Escalatable() && Asks(c, w) {
      RemembersMore(c, w, s);
      NextTurn(c, w, s);
      var (q, loads) := Asking(c, w, d, s.loads);
      if |s.asked| < 3 && w.verdicts(|s.asked|).Approves() {
        InOrderFrom(c, w, State(Approving(s.approved, q, w.on), s.asked + [q], loads));
      }
    }
  }

  /** When reloads also keep the runner's list, the questions come in the order
      runner, grants, confirm. */
  lemma QuestionsInOrder(c: Call, w: World)
    requires c.Valid() && Answerable(c, w) && KeepsGrants(c, w) && KeepsAllowlist(c, w)
    ensures InOrder(Ran(c, w, START).1.asked)
  {
    hide Answerable, KeepsGrants, KeepsAllowlist, Ran;
    InOrderFrom(c, w, START);
  }

  /** A reload that takes the action off the runner's list while its grants are
      asked about turns the order around. */
  lemma ReloadTurnsOrderAround(c: Call, w: World)
    requires c.Valid() && Asks(c, w) && w.verdicts(0).Approves()
    requires RulesAllow(w.loads(0), c.caller, c.tool, c.action, w.on)
    requires RulesAllow(w.loads(2), c.caller, c.tool, c.action, w.on)
    requires RunnerOpen(w.loads(0), c.caller, c.action) && !RunnerOpen(w.loads(2), c.caller, c.action)
    requires !CoversAll(Held(c, w, 0), c.Needs(), w.on)
    ensures var asked := Ran(c, w, START).1.asked;
            |asked| >= 2 && asked[0].kind == MissingGrant && asked[1].kind == RunnerAction && !InOrder(asked)
  {
    hide Forbidden, ServiceOpen, InterfaceOpen, RunnerOpen, ConfirmOpen, CoversAll, Missing, Remade, Ran;
    assert Held(c, w, 0) + {} == Held(c, w, 0);
    if c.Needs() == {} { NothingToCover(Held(c, w, 0), w.on); }
    assert DecisionAt(c, w, START.approved, 0) == Deny(InTool);
    var first := Question(MissingGrant, Missing(c, w, 1), 0);
    var s1 := State(Approving(START.approved, first, w.on), [first], 2);
    OneMore(c, w, START, s1);
    assert DecisionAt(c, w, s1.approved, 2) == Deny(InRunner);
    AsksNext(c, w, s1);
  }

  /** An approved question takes the loop to the next check. */
  lemma OneMore(c: Call, w: World, s: State, t: State)
    requires |s.asked| < 3 && Asks(c, w) && w.verdicts(|s.asked|).Approves()
    requires DecisionAt(c, w, s.approved, s.loads).Escalatable()
    requires var (q, loads) := Asking(c, w, DecisionAt(c, w, s.approved, s.loads), s.loads);
             t == State(Approving(s.approved, q, w.on), s.asked + [q], loads)
    ensures Ran(c, w, s) == Ran(c, w, t)
  {
    hide CheckApproved, Missing, Remade;
  }

  /** What is asked stays asked. */
  lemma {:induction false} KeepsAsked(c: Call, w: World, s: State)
    requires |s.asked| <= 3
    ensures s.asked <= Ran(c, w, s).1.asked
    decreases 3 - |s.asked|
  {
    hide CheckApproved, Missing, Remade;
    var d := DecisionAt(c, w, s.approved, s.loads);
    if d.Escalatable() && Asks(c, w) && |s.asked| < 3 && w.verdicts(|s.asked|).Approves() {
      var (q, loads) := Asking(c, w, d, s.loads);
      KeepsAsked(c, w, State(Approving(s.approved, q, w.on), s.asked + [q], loads));
    }
  }

  lemma AsksNext(c: Call, w: World, s: State)
    requires |s.asked| < 3 && Asks(c, w) && DecisionAt(c, w, s.approved, s.loads).Escalatable()
    ensures s.asked + [Asking(c, w, DecisionAt(c, w, s.approved, s.loads), s.loads).0] <= Ran(c, w, s).1.asked
  {
    hide CheckApproved, Missing, Remade;
    var (q, loads) := Asking(c, w, DecisionAt(c, w, s.approved, s.loads), s.loads);
    KeepsAsked(c, w, State(Approving(s.approved, q, w.on), s.asked + [q], loads));
  }

  // ---------- exactly when a fourth question is reached ----------

  /** Nothing but questions stands in the way, every verdict is yes, and the
      grants stay as they are. */
  ghost predicate AllApproved(c: Call, w: World, g: Grants) {
    && c.Valid()
    && (forall n :: w.loads(n) == g)
    && (forall n :: w.verdicts(n).Approves())
    && RulesAllow(g, c.caller, c.tool, c.action, w.on)
    && Asks(c, w)
  }

  /** Nothing the loop approves covers all that is required. */
  predicate Stuck(c: Call, w: World, s: State) {
    && s.approved.permissions <= Remade(Missing(c, w, 0), w.on)
    && !Enough(c, w, 0, 0)
  }

  lemma StuckAsks(c: Call, w: World, g: Grants, s: State)
    requires AllApproved(c, w, g) && Stuck(c, w, s)
    ensures var d := DecisionAt(c, w, s.approved, s.loads);
            && d.Escalatable()
            && Stuck(c, w, State(Approving(s.approved, Asking(c, w, d, s.loads).0, w.on), s.asked, s.loads))
  {
    hide Forbidden, ServiceOpen, InterfaceOpen, RunnerOpen, ConfirmOpen, Permission.Covers;
    var d := DecisionAt(c, w, s.approved, s.loads);
    var r :| r in c.Needs() && !Contains(Held(c, w, 0) + Remade(Missing(c, w, 0), w.on), r, w.on);
    LessCovers(Held(c, w, 0) + s.approved.permissions, Held(c, w, 0) + Remade(Missing(c, w, 0), w.on), r, w.on);
    assert !Contains(Held(c, w, s.loads) + s.approved.permissions, r, w.on);
    assert Missing(c, w, s.loads + 1) == Missing(c, w, 0);
  }

  lemma {:induction false} StuckReachesFourth(c: Call, w: World, g: Grants, s: State)
    requires AllApproved(c, w, g) && Stuck(c, w, s) && |s.asked| <= 3
    ensures Ran(c, w, s).0 == Refused(FourthQuestion)
    decreases 3 - |s.asked|
  {
    hide CheckApproved, Missing, Remade, Stuck, RulesAllow, Approving;
    StuckAsks(c, w, g, s);
    var d := DecisionAt(c, w, s.approved, s.loads);
    if |s.asked| < 3 {
      var (q, loads) := Asking(c, w, d, s.loads);
      var t := State(Approving(s.approved, q, w.on), s.asked + [q], loads);
      assert Stuck(c, w, t) by { StuckStays(c, w, State(t.approved, s.asked, s.loads), t); }
      StuckReachesFourth(c, w, g, t);
    }
  }

  lemma StuckStays(c: Call, w: World, s: State, t: State)
    requires Stuck(c, w, s) && s.approved == t.approved
    ensures Stuck(c, w, t)
  {
  }

  lemma {:induction false} RulesNeverRefuse(c: Call, w: World, g: Grants, s: State)
    requires AllApproved(c, w, g) && |s.asked| <= 3
    ensures var outcome := Ran(c, w, s).0; outcome.Granted? || outcome == Refused(FourthQuestion)
    decreases 3 - |s.asked|
  {
    hide Forbidden, ServiceOpen, InterfaceOpen, RunnerOpen, ConfirmOpen, CoversAll, Missing, Remade, Approving;
    var d := DecisionAt(c, w, s.approved, s.loads);
    if d.Escalatable() && |s.asked| < 3 {
      var (q, loads) := Asking(c, w, d, s.loads);
      RulesNeverRefuse(c, w, g, State(Approving(s.approved, q, w.on), s.asked + [q], loads));
    }
  }

  /** With steady grants and every question approved, the loop grants the call
      exactly when what is missing, read again from its text, covers what is
      required. Otherwise it gets to the fourth question. */
  lemma FourthQuestionExactly(c: Call, w: World, g: Grants)
    requires AllApproved(c, w, g)
    ensures Ran(c, w, START).0.Granted? <==> Enough(c, w, 0, 0)
    ensures Ran(c, w, START).0 == Refused(FourthQuestion) <==> !Enough(c, w, 0, 0)
  {
    RulesNeverRefuse(c, w, g, START);
    if Enough(c, w, 0, 0) {
      assert Answerable(c, w) by { SteadyIsAnswerable(c, w, g); }
      hide Answerable;
      OnceEach(c, w);
    } else {
      StuckReachesFourth(c, w, g, START);
    }
  }

  lemma SteadyIsAnswerable(c: Call, w: World, g: Grants)
    requires AllApproved(c, w, g) && Enough(c, w, 0, 0)
    ensures Answerable(c, w)
  {
    hide CoversAll, Remade, RulesAllow, Permission.Covers;
    forall m: nat, n: nat | m <= n ensures Enough(c, w, m, n) {
      assert Missing(c, w, m) == Missing(c, w, 0);
    }
  }

  /** A required file path that climbs is such a case, whatever is granted. */
  lemma ClimbingPathReachesFourth(c: Call, w: World, g: Grants, p: Permission)
    requires AllApproved(c, w, g) && p in c.Needs() && Climbs(p)
    ensures Ran(c, w, START).0 == Refused(FourthQuestion)
  {
    FourthQuestionExactly(c, w, g);
    forall h: Permission ensures !h.Covers(p, w.on) {
      CoverableExactly(p, w.on);
    }
    hide Permission.Covers;
    assert !Contains(Held(c, w, 0) + Remade(Missing(c, w, 0), w.on), p, w.on);
  }

  // ---------- what a granted call means ----------

  /** Every question asked so far was asked by a check that no denial or list
      stopped, and was approved. */
  predicate FairlyAsked(c: Call, w: World, asked: seq<Question>) {
    forall k | 0 <= k < |asked| :: RulesAllow(w.loads(asked[k].load), c.caller, c.tool, c.action, w.on)
  }

  predicate AllYes(w: World, n: nat) {
    forall k | 0 <= k < n :: w.verdicts(k).Approves()
  }

  /** What was approved comes from questions, and from nothing else. */
  predicate FromQuestions(c: Call, w: World, s: State) {
    && (s.approved.runnerAction ==> Asked(s.asked, RunnerAction))
    && (s.approved.confirm ==> Asked(s.asked, Confirm))
    && s.approved.permissions <= Remade(c.Needs(), w.on)
    && (s.approved.permissions != {} ==> Asked(s.asked, MissingGrant))
    && FairlyAsked(c, w, s.asked)
    && AllYes(w, |s.asked|)
  }

  lemma FromQuestionsMore(c: Call, w: World, s: State)
    requires FromQuestions(c, w, s) && DecisionAt(c, w, s.approved, s.loads).Escalatable()
    ensures var (q, loads) := Asking(c, w, DecisionAt(c, w, s.approved, s.loads), s.loads);
            && FairlyAsked(c, w, s.asked + [q])
            && (w.verdicts(|s.asked|).Approves() ==>
                  FromQuestions(c, w, State(Approving(s.approved, q, w.on), s.asked + [q], loads)))
  {
    hide Forbidden, ServiceOpen, InterfaceOpen, RunnerOpen, ConfirmOpen, CoversAll, Asked, Permission.Covers;
    var (q, loads) := Asking(c, w, DecisionAt(c, w, s.approved, s.loads), s.loads);
    var t := State(Approving(s.approved, q, w.on), s.asked + [q], loads);
    assert Remade(q.missing, w.on) <= Remade(c.Needs(), w.on);
    assert Asked(t.asked, q.kind) && forall kind :: Asked(s.asked, kind) ==> Asked(t.asked, kind) by {
      StaysAsked(s, q, t);
    }
  }

  lemma StaysAsked(s: State, q: Question, t: State)
    requires t.asked == s.asked + [q]
    ensures Asked(t.asked, q.kind) && forall kind :: Asked(s.asked, kind) ==> Asked(t.asked, kind)
  {
    assert t.asked[|s.asked|] == q;
    forall k | 0 <= k < |s.asked| ensures Asked(t.asked, s.asked[k].kind) {
      assert t.asked[k] == s.asked[k];
    }
  }

  /** The call is open at this load, given what questions approved. */
  predicate Open(c: Call, w: World, s: State, load: nat) {
    && RulesAllow(w.loads(load), c.caller, c.tool, c.action, w.on)
    && (RunnerOpen(w.loads(load), c.caller, c.action) || Asked(s.asked, RunnerAction))
    && CoversAll(Held(c, w, load) + s.approved.permissions, c.Needs(), w.on)
    && (ConfirmOpen(w.loads(load), c.action) || Asked(s.asked, Confirm))
  }

  lemma {:induction false} GrantedFrom(c: Call, w: World, s: State)
    requires c.Valid() && FromQuestions(c, w, s) && |s.asked| <= 3
    ensures var (outcome, t) := Ran(c, w, s);
            && FairlyAsked(c, w, t.asked)
            && t.loads > 0
            && (outcome.Granted? ==>
                  && t.loads > 1
                  && FromQuestions(c, w, t)
                  && Open(c, w, t, t.loads - 2)
                  && outcome.effective == Held(c, w, t.loads - 1) + t.approved.permissions)
    decreases 3 - |s.asked|
  {
    hide Forbidden, ServiceOpen, InterfaceOpen, RunnerOpen, ConfirmOpen, CoversAll, Asked, Permission.Covers;
    hide FairlyAsked, Missing, Remade;
    var d := DecisionAt(c, w, s.approved, s.loads);
    if d == Allow {
      if c.Needs() == {} { NothingToCover(Held(c, w, s.loads) + s.approved.permissions, w.on); }
    } else if d.Escalatable() && Asks(c, w) && |s.asked| < 3 {
      FromQuestionsMore(c, w, s);
      var (q, loads) := Asking(c, w, d, s.loads);
      if w.verdicts(|s.asked|).Approves() {
        hide FromQuestions, Open, CheckApproved;
        GrantedFrom(c, w, State(Approving(s.approved, q, w.on), s.asked + [q], loads));
      }
    }
  }

  /** The handler is reached only after a check no denial stopped: each gate was
      open in the grants of that check or by an approved question, every question
      was asked only while no denial stood, and every verdict was yes. The
      effective grants are the tool's and what questions approved, which is
      nothing but requirements. */
  lemma GrantedMeans(c: Call, w: World)
    requires c.Valid()
    ensures var (outcome, t) := Ran(c, w, START);
            && FairlyAsked(c, w, t.asked)
            && t.loads > 0
            && (outcome.Granted? ==>
                  && t.loads > 1
                  && FromQuestions(c, w, t)
                  && Open(c, w, t, t.loads - 2)
                  && outcome.effective == Held(c, w, t.loads - 1) + t.approved.permissions)
  {
    hide Ran, Open, Missing;
    GrantedFrom(c, w, START);
  }

  /** When reloads keep the tool's grants, the effective grants cover all that is
      required. */
  lemma EffectiveCovers(c: Call, w: World)
    requires c.Valid() && KeepsGrants(c, w) && Ran(c, w, START).0.Granted?
    ensures CoversAll(Ran(c, w, START).0.effective, c.Needs(), w.on)
  {
    hide Ran, Missing, Held, Call.Needs, Permission.Covers, FromQuestions, FairlyAsked, KeepsGrants;
    GrantedMeans(c, w);
    var (outcome, t) := Ran(c, w, START);
    var was := Held(c, w, t.loads - 2) + t.approved.permissions;
    StillHeld(c, w, t.loads - 2, t.loads - 1);
    forall r | r in c.Needs() ensures Contains(outcome.effective, r, w.on) {
      MoreCovers(was, outcome.effective, r, w.on);
    }
  }

  /** Nobody is asked on a run whose approval is `nobody`, with no approver, or
      when denials stand at every load. */
  lemma NothingAsked(c: Call, w: World)
    requires c.Valid()
    requires !Asks(c, w) || forall n :: !RulesAllow(w.loads(n), c.caller, c.tool, c.action, w.on)
    ensures Ran(c, w, START).1.asked == []
    ensures !Asks(c, w) && Ran(c, w, START).0.Granted? ==>
            CheckApproved(w.loads(0), c.caller, c.tool, c.action, START.approved, w.on).Allow?
  {
    hide Missing, Remade, CoversAll, Forbidden;
    var d := DecisionAt(c, w, START.approved, 0);
    assert !RulesAllow(w.loads(0), c.caller, c.tool, c.action, w.on) ==> !d.Escalatable();
  }

  /** What the last check decided, and what was answered, when a call is
      refused. */
  predicate Explains(c: Call, w: World, why: Refusal, approved: Approved, load: nat, asked: nat) {
    var d := DecisionAt(c, w, approved, load);
    match why
    case ByRule(decision) =>
      && d == decision && !d.Allow?
      && (d.Escalatable() ==> !w.broker && c.caller.approval != Some(Classifier))
    case ByNobody => d.Escalatable() && c.caller.approval == Some(Nobody)
    case ByVerdict(decision) => d == decision && d.Escalatable() && asked > 0 && w.verdicts(asked - 1).Refuse?
    case NotSaved => d.Escalatable() && asked > 0 && w.verdicts(asked - 1) == AllowForever(false)
    case FourthQuestion => d.Escalatable() && asked == 3
  }

  lemma {:induction false} RefusedFrom(c: Call, w: World, s: State)
    requires |s.asked| <= 3 && AllYes(w, |s.asked|)
    ensures var (outcome, t) := Ran(c, w, s);
            outcome.Refused? ==>
              && AllYes(w, if t.asked == [] then 0 else |t.asked| - 1)
              && exists approved, load :: Explains(c, w, outcome.why, approved, load, |t.asked|)
    decreases 3 - |s.asked|
  {
    hide CheckApproved, Missing, Remade, Approving;
    var d := DecisionAt(c, w, s.approved, s.loads);
    if d == Allow {
    } else if !d.Escalatable() || !Asks(c, w) || |s.asked| == 3 {
      var why := Ran(c, w, s).0.why;
      assert Explains(c, w, why, s.approved, s.loads, |s.asked|);
    } else {
      var (q, loads) := Asking(c, w, d, s.loads);
      if w.verdicts(|s.asked|).Approves() {
        RefusedFrom(c, w, State(Approving(s.approved, q, w.on), s.asked + [q], loads));
      } else {
        var why := Ran(c, w, s).0.why;
        assert Explains(c, w, why, s.approved, s.loads, |s.asked| + 1);
      }
    }
  }

  /** A refused call had every question before the last approved, and the refusal
      says what stopped it. */
  lemma RefusedMeans(c: Call, w: World)
    ensures var (outcome, t) := Ran(c, w, START);
            outcome.Refused? ==>
              && AllYes(w, if t.asked == [] then 0 else |t.asked| - 1)
              && exists approved, load :: Explains(c, w, outcome.why, approved, load, |t.asked|)
  {
    hide Ran, Explains;
    RefusedFrom(c, w, START);
  }
}

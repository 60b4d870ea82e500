/** Exactly when the questions come in order, and exactly when there would be a
    fourth. */
module QuestionOrder {
  import opened Base
  import opened Permissions
  import opened Engine
  import opened Questions
  import opened QuestionProofs

  // ---------- one turn of the loop ----------

  /** Nothing but questions stands in the way, and every verdict is yes. */
  ghost predicate Willing(c: Call, w: World) {
    && c.Valid()
    && Asks(c, w)
    && (forall n :: RulesAllow(w.loads(n), c.caller, c.tool, c.action, w.on))
    && (forall n :: w.verdicts(n).Approves())
  }

  /** No denial and no list stops the check of this load. */
  predicate RulesOk(c: Call, w: World, n: nat) {
    RulesAllow(w.loads(n), c.caller, c.tool, c.action, w.on)
  }

  predicate RunnerOk(c: Call, w: World, n: nat) {
    RunnerOpen(w.loads(n), c.caller, c.action)
  }

  predicate ConfirmOk(c: Call, w: World, n: nat) {
    ConfirmOpen(w.loads(n), c.action)
  }

  /** The tool's grants at a load and the permissions approved are enough. */
  predicate Covered(c: Call, w: World, approved: set<Permission>, n: nat) {
    CoversAll(Held(c, w, n) + approved, c.Needs(), w.on)
  }

  /** What approving the missing permissions adds, as a load finds them missing. */
  function Given(c: Call, w: World, n: nat): set<Permission> {
    Remade(Missing(c, w, n), w.on)
  }

  /** The gate the next check stops at, if any. */
  function Gate(c: Call, w: World, s: State): Option<Kind> {
    if !s.approved.runnerAction && !RunnerOk(c, w, s.loads) then Some(RunnerAction)
    else if !Covered(c, w, s.approved.permissions, s.loads) then Some(MissingGrant)
    else if !s.approved.confirm && !ConfirmOk(c, w, s.loads) then Some(Confirm)
    else None
  }

  /** The state after a question of this kind is approved. */
  function Next(c: Call, w: World, s: State, kind: Kind): State {
    match kind
    case RunnerAction =>
      State(s.approved.(runnerAction := true), s.asked + [Question(kind, {}, s.loads)], s.loads + 1)
    case MissingGrant =>
      State(s.approved.(permissions := s.approved.permissions + Given(c, w, s.loads + 1)),
            s.asked + [Question(kind, Missing(c, w, s.loads + 1), s.loads)], s.loads + 2)
    case Confirm =>
      State(s.approved.(confirm := true), s.asked + [Question(kind, {}, s.loads)], s.loads + 1)
  }

  function StoppedAt(kind: Kind): Decision {
    match kind
    case RunnerAction => Deny(InRunner)
    case MissingGrant => Deny(InTool)
    case Confirm => NeedsConfirmation
  }

  lemma DecisionIsGate(c: Call, w: World, s: State)
    requires c.Valid() && RulesOk(c, w, s.loads)
    ensures var d := DecisionAt(c, w, s.approved, s.loads);
            d == if Gate(c, w, s).Some? then StoppedAt(Gate(c, w, s).value) else Allow
  {
    hide Forbidden, ServiceOpen, InterfaceOpen, RunnerOpen, ConfirmOpen, CoversAll;
    assert Held(c, w, s.loads) == w.loads(s.loads).ToolGrants(ToolName(c.tool, c.action));
    NothingToCover(Held(c, w, s.loads) + s.approved.permissions, w.on);
  }

  lemma NextIsApproved(c: Call, w: World, s: State, d: Decision, kind: Kind)
    requires d == StoppedAt(kind)
    ensures var (q, loads) := Asking(c, w, d, s.loads);
            Next(c, w, s, kind) == State(Approving(s.approved, q, w.on), s.asked + [q], loads)
  {
    hide Missing;
    assert Remade({}, w.on) == {};
    assert s.approved.permissions + {} == s.approved.permissions;
  }

  /** The loop asks at the first closed gate, if nothing stops the check, if it may
      ask, and if it has not asked three times; it goes on if the verdict is yes. */
  lemma AsksOrStops(c: Call, w: World, s: State)
    requires c.Valid() && |s.asked| <= 3
    ensures
      var gate := Gate(c, w, s);
      if !RulesOk(c, w, s.loads) || gate.None? || !Asks(c, w) || |s.asked| == 3
      then Ran(c, w, s).1.asked == s.asked
      else if w.verdicts(|s.asked|).Approves() then Ran(c, w, s) == Ran(c, w, Next(c, w, s, gate.value))
      else Ran(c, w, s).1.asked == Next(c, w, s, gate.value).asked
  {
    hide CheckApproved, Gate, Next, Missing, Held;
    if RulesOk(c, w, s.loads) {
      DecisionIsGate(c, w, s);
      if Gate(c, w, s).Some? {
        NextIsApproved(c, w, s, DecisionAt(c, w, s.approved, s.loads), Gate(c, w, s).value);
      }
    } else {
      RulesRefuse(c, w, s);
    }
  }

  lemma RulesRefuse(c: Call, w: World, s: State)
    requires !RulesOk(c, w, s.loads)
    ensures var d := DecisionAt(c, w, s.approved, s.loads); !d.Escalatable() && d != Allow
  {
    hide Forbidden, ServiceOpen, InterfaceOpen, RunnerOpen, ConfirmOpen, CoversAll;
  }

  /** With every verdict yes and nothing to stop a check, the loop grants the call
      where no gate is closed, asks at the first closed one, and refuses at one when
      three questions are asked. */
  lemma Turns(c: Call, w: World, s: State)
    requires Willing(c, w) && |s.asked| <= 3
    ensures match Gate(c, w, s)
            case None => Ran(c, w, s).0.Granted? && Ran(c, w, s).1.asked == s.asked
            case Some(kind) =>
              if |s.asked| == 3 then Ran(c, w, s).0 == Refused(FourthQuestion) && Ran(c, w, s).1.asked == s.asked
              else Ran(c, w, s) == Ran(c, w, Next(c, w, s, kind))
  {
    hide RulesAllow, CheckApproved, Gate, Next, Missing, Held;
    assert RulesAllow(w.loads(s.loads), c.caller, c.tool, c.action, w.on);
    DecisionIsGate(c, w, s);
    if Gate(c, w, s).Some? {
      NextIsApproved(c, w, s, DecisionAt(c, w, s.approved, s.loads), Gate(c, w, s).value);
    }
  }

  // ---------- grants that only grow ----------

  lemma CoveredMore(c: Call, w: World, less: set<Permission>, more: set<Permission>, m: nat, n: nat)
    requires KeepsGrants(c, w) && m <= n && less <= more && Covered(c, w, less, m)
    ensures Covered(c, w, more, n)
  {
    hide Held, Call.Needs, Permission.Covers;
    StillHeld(c, w, m, n);
    forall r | r in c.Needs() ensures Contains(Held(c, w, n) + more, r, w.on) {
      MoreCovers(Held(c, w, m) + less, Held(c, w, n) + more, r, w.on);
    }
  }

  lemma GivenShrinks(c: Call, w: World, m: nat, n: nat)
    requires KeepsGrants(c, w) && m <= n
    ensures Given(c, w, n) <= Given(c, w, m)
    ensures Given(c, w, m) + Given(c, w, n) == Given(c, w, m)
  {
    hide Held, Call.Needs, Permission.Covers, Made;
    StillHeld(c, w, m, n);
    forall r | r in Missing(c, w, n) ensures r in Missing(c, w, m) {
      LessCovers(Held(c, w, m), Held(c, w, n), r, w.on);
    }
  }

  // ---------- the order of the questions ----------

  /** A question about the runner comes after another question. */
  predicate OrderTurns(c: Call, w: World) {
    && Asks(c, w)
    && RulesOk(c, w, 0)
    && RunnerOk(c, w, 0)
    && w.verdicts(0).Approves()
    && if CoversAll(Held(c, w, 0), c.Needs(), w.on) then !ConfirmOk(c, w, 0) && RulesOk(c, w, 1) && !RunnerOk(c, w, 1)
       else
         && RulesOk(c, w, 2)
         && (!RunnerOk(c, w, 2)
             || (!ConfirmOk(c, w, 2) && w.verdicts(1).Approves() && RulesOk(c, w, 3) && !RunnerOk(c, w, 3)))
  }

  /** Whatever the verdicts and whatever denials come and go, the questions come in the
      order runner, grants, confirm, unless a reload between an approved question and
      the next check takes the action off the runner's list. */
  lemma InOrderExactly(c: Call, w: World)
    requires c.Valid() && Answerable(c, w) && KeepsGrants(c, w)
    ensures InOrder(Ran(c, w, START).1.asked) <==> !OrderTurns(c, w)
  {
    hide Ran, Answerable, KeepsGrants, RulesOk, RunnerOk, ConfirmOk, Covered, Given, InOrder, Missing;
    CoveredByNothing(c, w, 0);
    AsksOrStops(c, w, START);
    var gate := Gate(c, w, START);
    if !RulesOk(c, w, 0) || gate.None? || !Asks(c, w) {
      OneAtMost([]);
    } else if !w.verdicts(0).Approves() {
      OneAtMost(Next(c, w, START, gate.value).asked);
    } else {
      match gate.value
      case RunnerAction => RunnerFirst(c, w, Next(c, w, START, RunnerAction));
      case MissingGrant => GrantsFirst(c, w, Next(c, w, START, MissingGrant));
      case Confirm => ConfirmFirst(c, w, Next(c, w, START, Confirm));
    }
  }

  /** The case of approving verdicts and no denials. */
  lemma InOrderWhenWilling(c: Call, w: World)
    requires Willing(c, w) && Answerable(c, w) && KeepsGrants(c, w)
    ensures InOrder(Ran(c, w, START).1.asked) <==>
            || !RunnerOk(c, w, 0)
            || (if CoversAll(Held(c, w, 0), c.Needs(), w.on) then ConfirmOk(c, w, 0) || RunnerOk(c, w, 1)
                else RunnerOk(c, w, 2) && (ConfirmOk(c, w, 2) || RunnerOk(c, w, 3)))
  {
    hide Ran, Answerable, KeepsGrants, RunnerOk, ConfirmOk, InOrder, CoversAll, RulesAllow;
    InOrderExactly(c, w);
    assert RulesOk(c, w, 0) && RulesOk(c, w, 1) && RulesOk(c, w, 2) && RulesOk(c, w, 3);
  }

  lemma CoveredByNothing(c: Call, w: World, n: nat)
    ensures Covered(c, w, {}, n) <==> CoversAll(Held(c, w, n), c.Needs(), w.on)
  {
    assert Held(c, w, n) + {} == Held(c, w, n);
  }

  lemma OneAtMost(asked: seq<Question>)
    requires |asked| <= 1
    ensures InOrder(asked)
  {
  }

  lemma TwoInOrder(asked: seq<Question>)
    requires |asked| == 2
    ensures InOrder(asked) <==> Turn(asked[0].kind) < Turn(asked[1].kind)
  {
  }

  /** Once a question about the runner comes second or third, the order is lost. */
  lemma RunnerLate(asked: seq<Question>, all: seq<Question>)
    requires |asked| >= 2 && asked <= all && asked[|asked| - 1].kind == RunnerAction
    ensures !InOrder(all)
  {
    var last := |asked| - 1;
    assert all[last] == asked[last];
    assert Turn(all[0].kind) >= Turn(all[last].kind);
  }

  /** A question is asked, whatever the verdict. */
  lemma AsksAt(c: Call, w: World, s: State)
    requires c.Valid() && |s.asked| < 3 && Asks(c, w) && RulesOk(c, w, s.loads) && Gate(c, w, s).Some?
    ensures Next(c, w, s, Gate(c, w, s).value).asked <= Ran(c, w, s).1.asked
  {
    hide Ran, RulesOk, Gate, Next;
    AsksOrStops(c, w, s);
    var t := Next(c, w, s, Gate(c, w, s).value);
    NextAsks(c, w, s, Gate(c, w, s).value);
    if w.verdicts(|s.asked|).Approves() {
      KeepsAsked(c, w, t);
    }
  }

  lemma NextAsks(c: Call, w: World, s: State, kind: Kind)
    ensures |Next(c, w, s, kind).asked| == |s.asked| + 1
  {
  }

  /** The question at the front was about the runner. */
  lemma RunnerFirst(c: Call, w: World, s: State)
    requires c.Valid() && Answerable(c, w) && KeepsGrants(c, w)
    requires s == Next(c, w, START, RunnerAction)
    ensures InOrder(Ran(c, w, s).1.asked)
  {
    hide Ran, Answerable, KeepsAllowlist, KeepsGrants;
    assert Asked(s.asked, RunnerAction) by { assert s.asked[0].kind == RunnerAction; }
    InOrderFrom(c, w, s);
  }

  lemma ConfirmFirst(c: Call, w: World, s: State)
    requires c.Valid() && Asks(c, w) && KeepsGrants(c, w) && Covered(c, w, {}, 0)
    requires s == Next(c, w, START, Confirm)
    ensures InOrder(Ran(c, w, s).1.asked) <==> !RulesOk(c, w, 1) || RunnerOk(c, w, 1)
  {
    hide Ran, KeepsGrants, RulesOk, RunnerOk, ConfirmOk, Covered, InOrder;
    CoveredMore(c, w, {}, {}, 0, 1);
    AsksOrStops(c, w, s);
    if !RulesOk(c, w, 1) || RunnerOk(c, w, 1) {
      OneAtMost(s.asked);
    } else {
      AsksAt(c, w, s);
      RunnerLate(Next(c, w, s, RunnerAction).asked, Ran(c, w, s).1.asked);
    }
  }

  lemma GrantsFirst(c: Call, w: World, s: State)
    requires c.Valid() && Asks(c, w) && Answerable(c, w)
    requires s == Next(c, w, START, MissingGrant)
    ensures InOrder(Ran(c, w, s).1.asked) <==>
            || !RulesOk(c, w, 2)
            || (RunnerOk(c, w, 2)
                && (ConfirmOk(c, w, 2) || !w.verdicts(1).Approves() || !RulesOk(c, w, 3) || RunnerOk(c, w, 3)))
  {
    hide Ran, RulesOk, RunnerOk, ConfirmOk, InOrder, Missing, CoversAll, Held, Remade;
    assert {} + Given(c, w, 1) == Given(c, w, 1);
    assert Enough(c, w, 1, 2) && Enough(c, w, 1, 3);
    hide Answerable, Given;
    assert Covered(c, w, Given(c, w, 1), 2) && Covered(c, w, Given(c, w, 1), 3) by { GivenIsEnough(c, w); }
    hide Covered;
    AsksOrStops(c, w, s);
    if !RulesOk(c, w, 2) || (RunnerOk(c, w, 2) && ConfirmOk(c, w, 2)) {
      OneAtMost(s.asked);
    } else if !RunnerOk(c, w, 2) {
      AsksAt(c, w, s);
      RunnerLate(Next(c, w, s, RunnerAction).asked, Ran(c, w, s).1.asked);
    } else {
      var t := Next(c, w, s, Confirm);
      TwoInOrder(t.asked);
      if w.verdicts(1).Approves() {
        AsksOrStops(c, w, t);
        if RulesOk(c, w, 3) && !RunnerOk(c, w, 3) {
          AsksAt(c, w, t);
          RunnerLate(Next(c, w, t, RunnerAction).asked, Ran(c, w, t).1.asked);
        }
      }
    }
  }

  lemma GivenIsEnough(c: Call, w: World)
    ensures forall m, n :: Covered(c, w, Given(c, w, m), n) <==> Enough(c, w, m, n)
  {
  }

  // ---------- a fourth question ----------

  /** What the loads must find for a fourth question: the tool's grants and what
      the first approval of them gave are still not enough when the loop comes
      back to them, and something is still closed when three have been asked. */
  predicate AsksFour(c: Call, w: World) {
    if !RunnerOk(c, w, 0) then
      && !Covered(c, w, {}, 1)
      && !Covered(c, w, Given(c, w, 2), 3)
      && !(Covered(c, w, Given(c, w, 2), 5) && ConfirmOk(c, w, 5))
    else !Covered(c, w, {}, 0) && AsksThreeMore(c, w, Given(c, w, 1))
  }

  /** Three more questions follow one about the grants, asked first. */
  predicate AsksThreeMore(c: Call, w: World, given: set<Permission>) {
    if !RunnerOk(c, w, 2) then
      !Covered(c, w, given, 3) && !(Covered(c, w, given, 5) && ConfirmOk(c, w, 5))
    else
      && !Covered(c, w, given, 2)
      && if !RunnerOk(c, w, 4) then !(Covered(c, w, given, 5) && ConfirmOk(c, w, 5))
         else if !Covered(c, w, given, 4) then
           !(RunnerOk(c, w, 6) && Covered(c, w, given, 6) && ConfirmOk(c, w, 6))
         else !ConfirmOk(c, w, 4) && !RunnerOk(c, w, 5)
  }

  /** With every question approved and grants that only grow, the loop gets to the
      fourth question exactly when the loads find this, and otherwise grants the
      call. */
  lemma FourthQuestionWhenGrantsGrow(c: Call, w: World)
    requires Willing(c, w) && KeepsGrants(c, w)
    ensures Ran(c, w, START).0 == Refused(FourthQuestion) <==> AsksFour(c, w)
    ensures Ran(c, w, START).0.Granted? <==> !AsksFour(c, w)
  {
    hide Ran, KeepsGrants, Willing, RunnerOk, ConfirmOk, Covered, Given, Missing;
    Turns(c, w, START);
    if !RunnerOk(c, w, 0) {
      var s := Next(c, w, START, RunnerAction);
      Turns(c, w, s);
      if Covered(c, w, {}, 1) {
        CoveredEndsSoon(c, w, s);
      } else {
        forall m | m > 3 ensures Given(c, w, m) <= Given(c, w, 2) { GivenShrinks(c, w, 2, m); }
        FourAfterRunner(c, w, Next(c, w, s, MissingGrant), Given(c, w, 2), 3);
      }
    } else if Covered(c, w, {}, 0) {
      CoveredEndsSoon(c, w, START);
    } else {
      FourAfterGrants(c, w, Next(c, w, START, MissingGrant));
    }
  }

  /** Once what is required is covered, at most the runner and the confirm gate
      are still to be asked about. */
  lemma CoveredEndsSoon(c: Call, w: World, s: State)
    requires Willing(c, w) && KeepsGrants(c, w) && Covered(c, w, s.approved.permissions, s.loads)
    requires |s.asked| + (if s.approved.runnerAction then 0 else 1) + (if s.approved.confirm then 0 else 1) <= 3
    ensures Ran(c, w, s).0.Granted?
    decreases if s.approved.runnerAction then 0 else 1, if s.approved.confirm then 0 else 1
  {
    hide Ran, KeepsGrants, Willing, RunnerOk, ConfirmOk, Covered, Missing;
    Turns(c, w, s);
    CoveredMore(c, w, s.approved.permissions, s.approved.permissions, s.loads, s.loads + 1);
    if Gate(c, w, s).Some? {
      CoveredEndsSoon(c, w, Next(c, w, s, Gate(c, w, s).value));
    }
  }

  /** The runner and the grants have been asked about, and `n` is next. */
  lemma FourAfterRunner(c: Call, w: World, s: State, given: set<Permission>, n: nat)
    requires Willing(c, w) && KeepsGrants(c, w)
    requires s.loads == n && |s.asked| == 2 && s.approved == Approved(given, true, false)
    requires forall m | m > n :: Given(c, w, m) <= given
    ensures var four := !Covered(c, w, given, n) && !(Covered(c, w, given, n + 2) && ConfirmOk(c, w, n + 2));
            && (Ran(c, w, s).0 == Refused(FourthQuestion) <==> four)
            && (Ran(c, w, s).0.Granted? <==> !four)
  {
    hide Ran, KeepsGrants, Willing, RunnerOk, ConfirmOk, Covered, Given, Missing;
    Turns(c, w, s);
    if Covered(c, w, given, n) {
      CoveredEndsSoon(c, w, s);
    } else {
      assert given + Given(c, w, n + 1) == given;
      Turns(c, w, Next(c, w, s, MissingGrant));
    }
  }

  /** Only the grants have been asked about, at the first check. */
  lemma FourAfterGrants(c: Call, w: World, s: State)
    requires Willing(c, w) && KeepsGrants(c, w)
    requires s == Next(c, w, START, MissingGrant)
    ensures Ran(c, w, s).0 == Refused(FourthQuestion) <==> AsksThreeMore(c, w, Given(c, w, 1))
    ensures Ran(c, w, s).0.Granted? <==> !AsksThreeMore(c, w, Given(c, w, 1))
  {
    hide Ran, KeepsGrants, Willing, RunnerOk, ConfirmOk, Covered, Given, Missing;
    var given := Given(c, w, 1);
    assert {} + given == given;
    forall m | m > 1 ensures Given(c, w, m) <= given { GivenShrinks(c, w, 1, m); }
    Turns(c, w, s);
    if !RunnerOk(c, w, 2) {
      FourAfterRunner(c, w, Next(c, w, s, RunnerAction), given, 3);
    } else if Covered(c, w, given, 2) {
      CoveredEndsSoon(c, w, s);
    } else {
      assert given + Given(c, w, 3) == given;
      var t := Next(c, w, s, MissingGrant);
      Turns(c, w, t);
      if !RunnerOk(c, w, 4) {
        Turns(c, w, Next(c, w, t, RunnerAction));
      } else if !Covered(c, w, given, 4) {
        assert given + Given(c, w, 5) == given;
        Turns(c, w, Next(c, w, t, MissingGrant));
      } else if !ConfirmOk(c, w, 4) {
        CoveredMore(c, w, given, given, 4, 5);
        Turns(c, w, Next(c, w, t, Confirm));
      }
    }
  }

  // ---------- a host with two dots ----------

  /** A required host that is written with two dots at its end, in its canonical
      form, is such a case too when nothing held and nothing else approved covers
      it. */
  lemma TwoDotsReachFourth(c: Call, w: World, g: Grants, host: string)
    requires AllApproved(c, w, g)
    requires PlainHost(host) && w.on.ip(host + "..").None? && w.on.ip(host + ".").None?
    requires var p := Made("net:" + (host + ".."), w.on);
             && p in c.Needs()
             && !Contains(Held(c, w, 0) + Remade(Missing(c, w, 0) - {p}, w.on), p, w.on)
    ensures Ran(c, w, START).0 == Refused(FourthQuestion)
  {
    hide Ran, Held, Call.Needs, Permission.Covers, PlainHost, AllApproved, Made, Renamed, Climbs;
    var p := Made("net:" + (host + ".."), w.on);
    TwoDots(host, w.on);
    MadeAgainCovers(p, w.on);
    FourthQuestionExactly(c, w, g);
    var all := Held(c, w, 0) + Remade(Missing(c, w, 0), w.on);
    var others := Held(c, w, 0) + Remade(Missing(c, w, 0) - {p}, w.on);
    forall h | h in all ensures !h.Covers(p, w.on) {
      if h !in others {
        assert h == Made(p.slug, w.on);
      }
    }
    assert !Contains(all, p, w.on);
  }
}

/** What the rows of the actions and the answers of the handlers say about a run. */
module ActionLaws {
  import opened Words
  import opened Actions

  // ---- The stored outcome ----

  // The side effect of action `id` took place at move `n`.
  ghost predicate RanAt(moves: seq<Move>, id: int, h: nat, n: int) {
    && 0 <= n < |moves| && moves[n].Advance? && moves[n].h == h
    && var s := Run(INITIAL, moves[..n]);
      h < |s.handlers| && s.handlers[h].pc == Executing && s.handlers[h].id == id
  }

  // It took place, with this error or none.
  ghost predicate RanWith(moves: seq<Move>, id: int, h: nat, error: Option<string>) {
    exists n :: RanAt(moves, id, h, n) && moves[n].env.applyError == error
  }

  ghost predicate TellsOutcome(moves: seq<Move>, id: int, a: Action) {
    match a.status
    case Executed => a.error == None && exists h :: RanWith(moves, id, h, None)
    case Failed => a.error.Some? && exists h :: RanWith(moves, id, h, a.error)
    case _ => a.error == None
  }

  ghost predicate MarkersTell(moves: seq<Move>, s: State) {
    forall h :: 0 <= h < |s.handlers| && s.handlers[h].pc.Marking? ==>
      RanWith(moves, s.handlers[h].id, h, s.handlers[h].pc.error)
  }

  ghost predicate RowsTell(moves: seq<Move>, s: State) {
    forall id :: id in s.actions ==> TellsOutcome(moves, id, s.actions[id])
  }

  lemma RanWithMore(moves: seq<Move>, m: Move, id: int, h: nat, error: Option<string>)
    requires RanWith(moves, id, h, error)
    ensures RanWith(moves + [m], id, h, error)
  {
    var n :| RanAt(moves, id, h, n) && moves[n].env.applyError == error;
    assert (moves + [m])[..n] == moves[..n];
    assert RanAt(moves + [m], id, h, n);
  }

  lemma TellsMore(moves: seq<Move>, m: Move, id: int, a: Action)
    requires TellsOutcome(moves, id, a)
    ensures TellsOutcome(moves + [m], id, a)
  {
    hide RanWith;
    if a.status == Executed || a.status == Failed {
      var h :| RanWith(moves, id, h, a.error);
      RanWithMore(moves, m, id, h, a.error);
    }
  }

  lemma TellStep(moves: seq<Move>, m: Move, s: State)
    requires s == Run(INITIAL, moves) && Inv(s) && MarkersTell(moves, s) && RowsTell(moves, s)
    ensures MarkersTell(moves + [m], Next(s, m)) && RowsTell(moves + [m], Next(s, m))
  {
    hide Inv, RanWith, TellsOutcome, Run;
    var all, t := moves + [m], Next(s, m);
    forall h | 0 <= h < |t.handlers| && t.handlers[h].pc.Marking?
      ensures RanWith(all, t.handlers[h].id, h, t.handlers[h].pc.error)
    {
      if h < |s.handlers| && s.handlers[h].pc.Marking? {
        RanWithMore(moves, m, s.handlers[h].id, h, s.handlers[h].pc.error);
      } else {
        JustRan(moves, m, s, h);
      }
    }
    forall id | id in t.actions
      ensures TellsOutcome(all, id, t.actions[id])
    {
      RowTells(moves, m, s, id);
    }
  }

  lemma JustRan(moves: seq<Move>, m: Move, s: State, h: nat)
    requires s == Run(INITIAL, moves)
    requires var t := Next(s, m); h < |t.handlers| && t.handlers[h].pc.Marking?
    requires h < |s.handlers| ==> !s.handlers[h].pc.Marking?
    ensures RanWith(moves + [m], Next(s, m).handlers[h].id, h, Next(s, m).handlers[h].pc.error)
  {
    hide Run;
    var all := moves + [m];
    assert all[..|moves|] == moves;
    assert RanAt(all, s.handlers[h].id, h, |moves|);
  }

  lemma RowTells(moves: seq<Move>, m: Move, s: State, id: int)
    requires s == Run(INITIAL, moves) && MarkersTell(moves, s) && RowsTell(moves, s) && Inv(s)
    requires id in Next(s, m).actions
    ensures TellsOutcome(moves + [m], id, Next(s, m).actions[id])
  {
    hide RanWith, Run, RowValid, ExecutionValid;
    var t := Next(s, m);
    if id in s.actions {
      TellsMore(moves, m, id, s.actions[id]);
      if t.actions[id] != s.actions[id] && m.Advance? && m.h < |s.handlers| && s.handlers[m.h].pc.Marking? {
        var x := s.handlers[m.h];
        RanWithMore(moves, m, id, m.h, x.pc.error);
      }
    }
  }

  lemma {:induction false} RunTells(moves: seq<Move>)
    ensures MarkersTell(moves, Run(INITIAL, moves)) && RowsTell(moves, Run(INITIAL, moves))
  {
    hide Inv, Next, MarkersTell, RowsTell;
    if moves == [] {
      NothingTold();
    } else {
      var front := moves[..|moves| - 1];
      assert moves == front + [moves[|moves| - 1]];
      RunTells(front);
      InvRun(front);
      TellStep(front, moves[|moves| - 1], Run(INITIAL, front));
    }
  }

  lemma NothingTold()
    ensures MarkersTell([], INITIAL) && RowsTell([], INITIAL)
  {
  }

  /**
   In every run a row is `executed` only without an error and `failed` only with one, the error is the
   one the side effect ended with when it took place, and other rows have none.
   */
  lemma OutcomeIsStored(moves: seq<Move>, id: int)
    requires id in Run(INITIAL, moves).actions
    ensures TellsOutcome(moves, id, Run(INITIAL, moves).actions[id])
  {
    hide Run, TellsOutcome;
    RunTells(moves);
  }

  // ---- The answers ----

  ghost predicate Performed(s: State, h: nat)
    requires h < |s.handlers|
  {
    (s.handlers[h].id, h) in s.executions
  }

  // What the answer of a handler, or its place in the code, says about its action.
  ghost predicate AnswerIsTrue(s: State, h: nat)
    requires h < |s.handlers|
  {
    var x := s.handlers[h];
    match x.decision
    case Approve =>
      (match x.pc
       case Marking(_) => Performed(s, h)
       case Auditing => ApprovedBy(s, x) && Performed(s, h)
       case Finished(code) =>
         if code == 200 then ApprovedBy(s, x) && Performed(s, h)
         else if code == 500 then Performed(s, h)
         else code == 400 && !Performed(s, h)
       case Lost => true
       case _ => !Performed(s, h))
    case Reject =>
      !Performed(s, h) &&
      (match x.pc
       case ReadingBack => RejectedBy(s, x)
       case Auditing => RejectedBy(s, x)
       case Finished(code) => if code == 200 then RejectedBy(s, x) else code == 400
       case _ => true)
  }

  ghost predicate ApprovedBy(s: State, x: Handler) {
    && x.id in s.actions && s.actions[x.id].status in {Executed, Failed}
    && s.actions[x.id].approvedBy == Some(x.user)
  }

  ghost predicate RejectedBy(s: State, x: Handler) {
    && x.id in s.actions && s.actions[x.id].status == Rejected && s.actions[x.id].rejectedBy == Some(x.user)
  }

  ghost predicate AnswersTrue(s: State) {
    && (forall h :: 0 <= h < |s.handlers| ==> AnswerIsTrue(s, h))
    && (forall k :: 0 <= k < |s.executions| ==> s.executions[k].1 < |s.handlers|)
  }

  predicate Moves(m: Move, h: nat) {
    (m.Advance? && m.h == h) || (m.Crash? && m.h == h)
  }

  // Another handler's move changes neither a settled row nor what this handler has performed.
  lemma OthersKeep(s: State, m: Move, h: nat)
    requires Inv(s) && AnswersTrue(s) && h < |s.handlers| && !Moves(m, h)
    ensures AnswerIsTrue(Next(s, m), h)
  {
    hide Inv;
    var x, t := s.handlers[h], Next(s, m);
    assert AnswerIsTrue(s, h);
    assert t.handlers[h] == x;
    assert Performed(t, h) <==> Performed(s, h);
    if x.id in s.actions {
      StatusFollows(s, m, x.id);
    }
  }

  lemma OwnAdvance(s: State, h: nat, env: Env)
    requires Inv(s) && AnswersTrue(s) && h < |s.handlers|
    ensures AnswerIsTrue(Advanced(s, h, env), h)
  {
    hide RowValid, ExecutionValid, Ran;
    var x, t := s.handlers[h], Advanced(s, h, env);
    assert AnswerIsTrue(s, h);
    if x.pc == Executing {
      assert x.decision == Approve;
      assert t.executions[|s.executions|] == (x.id, h);
    } else {
      assert Performed(t, h) <==> Performed(s, h);
    }
    assert x.pc.Marking? ==> Holds(x);
  }

  lemma AnswersStep(s: State, m: Move)
    requires Inv(s) && AnswersTrue(s)
    ensures AnswersTrue(Next(s, m))
  {
    hide Inv, AnswerIsTrue;
    var t := Next(s, m);
    forall h | 0 <= h < |t.handlers|
      ensures AnswerIsTrue(t, h)
    {
      if h == |s.handlers| {
        FreshAnswer(s, m);
      } else if !Moves(m, h) {
        OthersKeep(s, m, h);
      } else if m.Advance? {
        OwnAdvance(s, h, m.env);
      } else {
        OwnCrash(s, h);
      }
    }
  }

  lemma FreshAnswer(s: State, m: Move)
    requires AnswersTrue(s) && m.Receive?
    ensures AnswerIsTrue(Next(s, m), |s.handlers|)
  {
  }

  lemma OwnCrash(s: State, h: nat)
    requires AnswersTrue(s) && h < |s.handlers|
    ensures AnswerIsTrue(Crashed(s, h), h)
  {
    assert AnswerIsTrue(s, h);
  }

  lemma {:induction false} AnswersOfRun(moves: seq<Move>)
    ensures AnswersTrue(Run(INITIAL, moves))
  {
    hide Inv, Next, AnswersTrue;
    if moves == [] {
      NoAnswers();
    } else {
      var front := moves[..|moves| - 1];
      AnswersOfRun(front);
      InvRun(front);
      AnswersStep(Run(INITIAL, front), moves[|moves| - 1]);
    }
  }

  lemma NoAnswers()
    ensures AnswersTrue(INITIAL)
  {
  }

  /**
   Every answer is true of its action: 200 to an approval means that this handler performed the side
   effect and the row tells so under its user, 500 that it performed it, 400 that it did not; 200 to a
   rejection means that the row is rejected under its user.
   */
  lemma AnswersHold(moves: seq<Move>, h: nat)
    requires h < |Run(INITIAL, moves).handlers|
    ensures var s := Run(INITIAL, moves);
      var x := s.handlers[h];
      && (x.decision == Approve && x.pc == Finished(200) ==> Performed(s, h) && ApprovedBy(s, x))
      && (x.decision == Approve && x.pc == Finished(500) ==> Performed(s, h))
      && (x.pc == Finished(400) ==> !Performed(s, h))
      && (x.decision == Reject && x.pc == Finished(200) ==> RejectedBy(s, x))
      && (x.pc.Finished? ==> x.pc.code in {200, 400, 500})
  {
    hide Run;
    AnswersOfRun(moves);
    assert AnswerIsTrue(Run(INITIAL, moves), h);
  }

  // ---- A handler that is not disturbed ----

  lemma OneMoreMove(s: State, m: Move, n: nat)
    ensures Run(s, seq(n + 1, _ => m)) == Next(Run(s, seq(n, _ => m)), m)
    ensures Run(s, seq(0, _ => m)) == s
  {
    assert seq(n + 1, _ => m)[..n] == seq(n, _ => m);
  }

  ghost predicate OnlyRow(before: map<int, Action>, after: map<int, Action>, id: int) {
    after.Keys == before.Keys && forall k :: k in before && k != id ==> after[k] == before[k]
  }

  /**
   Without database errors an approval of a pending action takes five steps: the action is approved
   under the user, its side effect performed once, the outcome stored, and the answer is 200.
   */
  lemma ApprovalCompletes(s: State, h: nat, env: Env)
    requires h < |s.handlers| && s.handlers[h].decision == Approve && s.handlers[h].pc == Deciding && !env.dbError
    requires s.handlers[h].id in s.actions && s.actions[s.handlers[h].id].status == Pending
    ensures var t, x := Run(s, seq(5, _ => Move.Advance(h, env))), s.handlers[h];
      && t.handlers == s.handlers[h := x.(pc := Finished(200))] && t.executions == s.executions + [(x.id, h)]
      && OnlyRow(s.actions, t.actions, x.id)
      && t.actions[x.id] == Action(if env.applyError == None then Executed else Failed, Some(x.user),
                                   s.actions[x.id].rejectedBy, env.applyError)
  {
    hide Run;
    var m := Move.Advance(h, env);
    OneMoreMove(s, m, 0);
    OneMoreMove(s, m, 1);
    OneMoreMove(s, m, 2);
    OneMoreMove(s, m, 3);
    OneMoreMove(s, m, 4);
  }

  /** A rejection takes three: the action is rejected under the user, and nothing else is done. */
  lemma RejectionCompletes(s: State, h: nat, env: Env)
    requires h < |s.handlers| && s.handlers[h].decision == Reject && s.handlers[h].pc == Deciding && !env.dbError
    requires s.handlers[h].id in s.actions && s.actions[s.handlers[h].id].status == Pending
    ensures var t, x := Run(s, seq(3, _ => Move.Advance(h, env))), s.handlers[h];
      && t.handlers == s.handlers[h := x.(pc := Finished(200))] && t.executions == s.executions
      && OnlyRow(s.actions, t.actions, x.id)
      && t.actions[x.id] == s.actions[x.id].(status := Rejected, rejectedBy := Some(x.user))
  {
    hide Run;
    var m := Move.Advance(h, env);
    OneMoreMove(s, m, 0);
    OneMoreMove(s, m, 1);
    OneMoreMove(s, m, 2);
  }

  /** A decision on an action that is missing or no longer pending is answered with 400 and changes nothing. */
  lemma LateDecision(s: State, h: nat, env: Env)
    requires h < |s.handlers| && s.handlers[h].pc == Deciding
    requires s.handlers[h].id in s.actions ==> s.actions[s.handlers[h].id].status != Pending
    ensures Next(s, Move.Advance(h, env)) == s.(handlers := s.handlers[h := s.handlers[h].(pc := Finished(400))])
  {
  }
}

/**
 Response actions under concurrent approvals and rejections: every statement on the database is one
 atomic step, and any number of request handlers take their steps in any order.
 */
module Actions {
  import opened Words

  datatype Status = Pending | Approved | Rejected | Executed | Failed

  datatype Action = Action(
    status: Status, approvedBy: Option<string>, rejectedBy: Option<string>, error: Option<string>)

  datatype Decision = Approve | Reject

  // Where a handler is: before the guarded update, before reading the row back, before the side
  // effect, before storing its outcome, before the audit entry, done with an HTTP status, or lost
  // with its process.
  datatype Pc =
    | Deciding
    | ReadingBack
    | Executing
    | Marking(error: Option<string>)
    | Auditing
    | Finished(code: nat)
    | Lost

  datatype Handler = Handler(decision: Decision, id: int, user: string, pc: Pc)

  // What can happen in a step: the database may report an error, with the statement in effect or
  // not, and the side effect may fail.
  datatype Env = Env(dbError: bool, inEffect: bool, applyError: Option<string>)

  datatype Move =
    | Create(id: int)
    | Receive(decision: Decision, id: int, user: string)
    | Advance(h: nat, env: Env)
    | Crash(h: nat)

  type Actions = map<int, Action>

  // The rows, the handlers, and the side effects so far as pairs of action and handler.
  datatype State = State(actions: Actions, handlers: seq<Handler>, executions: seq<(int, nat)>)

  const INITIAL: State := State(map[], [], [])

  // ---- The statements ----

  predicate IsPending(m: Actions, id: int) {
    id in m && m[id].status == Pending
  }

  function Decided(a: Action, d: Decision, user: string): Action {
    match d
    case Approve => a.(status := Approved, approvedBy := Some(user))
    case Reject => a.(status := Rejected, rejectedBy := Some(user))
  }

  // `UPDATE ... WHERE id = $1 AND status = 'pending'`.
  function DecideRow(m: Actions, id: int, d: Decision, user: string): Actions {
    if IsPending(m, id) then m[id := Decided(m[id], d, user)] else m
  }

  // `UPDATE ... WHERE id = $1`, with no condition on the status.
  function MarkRow(m: Actions, id: int, error: Option<string>): Actions {
    if id in m then m[id := m[id].(status := if error == None then Executed else Failed, error := error)] else m
  }

  // ---- One step of the system ----

  function At(s: State, h: nat, pc: Pc): State
    requires h < |s.handlers|
  {
    s.(handlers := s.handlers[h := s.handlers[h].(pc := pc)])
  }

  function Advanced(s: State, h: nat, env: Env): State
    requires h < |s.handlers|
  {
    var x := s.handlers[h];
    match x.pc
    case Deciding =>
      var ok := IsPending(s.actions, x.id) && !env.dbError;
      var rows := if env.dbError && !env.inEffect then s.actions else DecideRow(s.actions, x.id, x.decision, x.user);
      At(s, h, if ok then ReadingBack else Finished(400)).(actions := rows)
    case ReadingBack =>
      if env.dbError || x.id !in s.actions then At(s, h, Finished(400))
      else At(s, h, if x.decision == Approve then Executing else Auditing)
    case Executing =>
      At(s, h, Marking(env.applyError)).(executions := s.executions + [(x.id, h)])
    case Marking(error) =>
      var rows := if env.dbError && !env.inEffect then s.actions else MarkRow(s.actions, x.id, error);
      At(s, h, if env.dbError then Finished(500) else Auditing).(actions := rows)
    case Auditing => At(s, h, Finished(200))
    case Finished(_) => s
    case Lost => s
  }

  // A handler ends without another step; when a process dies, all of its handlers do.
  function Crashed(s: State, h: nat): State
    requires h < |s.handlers|
  {
    if s.handlers[h].pc.Finished? then s else At(s, h, Lost)
  }

  function Next(s: State, m: Move): State {
    match m
    case Create(id) =>
      if id in s.actions then s else s.(actions := s.actions[id := Action(Pending, None, None, None)])
    case Receive(d, id, user) => s.(handlers := s.handlers + [Handler(d, id, user, Deciding)])
    case Advance(h, env) => if h < |s.handlers| then Advanced(s, h, env) else s
    case Crash(h) => if h < |s.handlers| then Crashed(s, h) else s
  }

  function Run(s: State, moves: seq<Move>): State {
    if moves == [] then s else Next(Run(s, moves[..|moves| - 1]), moves[|moves| - 1])
  }

  // ---- The database and the server ----

  class Store {
    var actions: Actions

    constructor ()
      ensures actions == map[]
    {
      actions := map[];
    }

    method CreateAction(id: int)
      requires id !in actions
      modifies this
      ensures actions == old(actions)[id := Action(Pending, None, None, None)]
    {
      actions := actions[id := Action(Pending, None, None, None)];
    }

    // The update of `DecideAction`.
    method DecideAction(id: int, d: Decision, actor: string) returns (rowsAffected: nat)
      modifies this
      ensures actions == DecideRow(old(actions), id, d, actor)
      ensures rowsAffected == if IsPending(old(actions), id) then 1 else 0
    {
      if id !in actions || actions[id].status != Pending { return 0; }
      var a := actions[id];
      match d {
        case Approve => a := a.(status := Approved, approvedBy := Some(actor));
        case Reject => a := a.(status := Rejected, rejectedBy := Some(actor));
      }
      actions := actions[id := a];
      rowsAffected := 1;
    }

    method MarkActionExecuted(id: int, errMsg: Option<string>)
      modifies this
      ensures actions == MarkRow(old(actions), id, errMsg)
    {
      var status := Executed;
      if errMsg != None { status := Failed; }
      if id in actions {
        actions := actions[id := actions[id].(status := status, error := errMsg)];
      }
    }
  }

  class Server {
    const store: Store
    var handlers: seq<Handler>
    ghost var executions: seq<(int, nat)>

    ghost function Now(): State
      reads this, store
    {
      State(store.actions, handlers, executions)
    }

    constructor ()
      ensures Now() == INITIAL && fresh(store)
    {
      store := new Store();
      handlers, executions := [], [];
    }

    method Receive(d: Decision, id: int, user: string)
      modifies this
      ensures Now() == Next(old(Now()), Move.Receive(d, id, user))
    {
      handlers := handlers + [Handler(d, id, user, Deciding)];
    }

    // The next step of `approveAction` or `rejectAction` in handler `h`.
    method Advance(h: nat, env: Env)
      requires h < |handlers|
      modifies this, store
      ensures Now() == Next(old(Now()), Move.Advance(h, env))
    {
      var x := handlers[h];
      match x.pc {
        case Deciding =>
          var rows := 0;
          if !env.dbError || env.inEffect {
            rows := store.DecideAction(x.id, x.decision, x.user);
          }
          Goto(h, if env.dbError || rows == 0 then Finished(400) else ReadingBack);
        case ReadingBack =>
          if env.dbError || x.id !in store.actions {
            Goto(h, Finished(400));
          } else if x.decision == Approve {
            Goto(h, Executing);
          } else {
            Goto(h, Auditing);
          }
        case Executing =>
          executions := executions + [(x.id, h)];
          Goto(h, Marking(env.applyError));
        case Marking(error) =>
          if !env.dbError || env.inEffect {
            store.MarkActionExecuted(x.id, error);
          }
          Goto(h, if env.dbError then Finished(500) else Auditing);
        case Auditing =>
          Goto(h, Finished(200));
        case Finished(_) =>
        case Lost =>
      }
    }

    method Crash(h: nat)
      requires h < |handlers|
      modifies this`handlers
      ensures Now() == Next(old(Now()), Move.Crash(h))
    {
      if !handlers[h].pc.Finished? {
        Goto(h, Lost);
      }
    }

    method Goto(h: nat, pc: Pc)
      requires h < |handlers|
      modifies this`handlers
      ensures handlers == old(handlers)[h := old(handlers)[h].(pc := pc)]
    {
      handlers := handlers[h := handlers[h].(pc := pc)];
    }

    // Any moves, one after the other.
    method Perform(moves: seq<Move>)
      requires Now() == INITIAL
      modifies this, store
      ensures Now() == Run(INITIAL, moves)
    {
      for i := 0 to |moves|
        invariant Now() == Run(INITIAL, moves[..i])
      {
        assert moves[..i + 1][..i] == moves[..i];
        match moves[i] {
          case Create(id) =>
            if id !in store.actions { store.CreateAction(id); }
          case Receive(d, id, user) =>
            Receive(d, id, user);
          case Advance(h, env) =>
            if h < |handlers| { Advance(h, env); }
          case Crash(h) =>
            if h < |handlers| { Crash(h); }
        }
      }
      assert moves[..|moves|] == moves;
    }
  }

  // ---- What every run keeps ----

  // The handler has approved its action and not yet stored the outcome.
  predicate Holds(x: Handler) {
    x.decision == Approve && (x.pc == ReadingBack || x.pc == Executing || x.pc.Marking?)
  }

  ghost predicate Ran(executions: seq<(int, nat)>, id: int) {
    exists k :: 0 <= k < |executions| && executions[k].0 == id
  }

  ghost predicate HoldersValid(s: State) {
    && (forall h :: 0 <= h < |s.handlers| && Holds(s.handlers[h]) ==>
        var x := s.handlers[h];
        x.id in s.actions && s.actions[x.id].status == Approved && s.actions[x.id].approvedBy == Some(x.user))
    && (forall g, h :: 0 <= g < h < |s.handlers| && Holds(s.handlers[g]) && Holds(s.handlers[h]) ==>
        s.handlers[g].id != s.handlers[h].id)
    && (forall h :: 0 <= h < |s.handlers| && Holds(s.handlers[h]) ==>
        (Ran(s.executions, s.handlers[h].id) <==> s.handlers[h].pc.Marking?))
    && (forall h :: 0 <= h < |s.handlers| && (s.handlers[h].pc == Executing || s.handlers[h].pc.Marking?) ==>
        s.handlers[h].decision == Approve)
  }

  // A side effect was the approver's, of an action that was never rejected.
  ghost predicate ExecutionValid(s: State, id: int, h: nat) {
    && h < |s.handlers| && s.handlers[h].id == id && s.handlers[h].decision == Approve
    && id in s.actions && s.actions[id].status in {Approved, Executed, Failed}
    && s.actions[id].approvedBy == Some(s.handlers[h].user) && s.actions[id].rejectedBy == None
  }

  ghost predicate RowValid(s: State, id: int)
    requires id in s.actions
  {
    var a := s.actions[id];
    && (a.status == Pending ==> a.approvedBy == None && a.rejectedBy == None)
    && (a.rejectedBy == None <==> a.status != Rejected)
    && (a.approvedBy == None <==> a.status == Pending || a.status == Rejected)
    && (a.status == Executed || a.status == Failed ==> Ran(s.executions, id))
  }

  ghost predicate Inv(s: State) {
    && HoldersValid(s)
    && (forall k :: 0 <= k < |s.executions| ==> ExecutionValid(s, s.executions[k].0, s.executions[k].1))
    && (forall j, k :: 0 <= j < k < |s.executions| ==> s.executions[j].0 != s.executions[k].0)
    && (forall id :: id in s.actions ==> RowValid(s, id))
  }

  lemma RanSnoc(executions: seq<(int, nat)>, e: (int, nat), id: int)
    ensures Ran(executions + [e], id) <==> Ran(executions, id) || e.0 == id
  {
    var all := executions + [e];
    if Ran(executions, id) {
      var k :| 0 <= k < |executions| && executions[k].0 == id;
      assert all[k].0 == id;
    }
    if e.0 == id {
      assert all[|executions|].0 == id;
    }
  }

  lemma CreateKeeps(s: State, id: int)
    requires Inv(s)
    ensures Inv(Next(s, Create(id)))
  {
    hide Ran;
  }

  lemma ReceiveKeeps(s: State, d: Decision, id: int, user: string)
    requires Inv(s)
    ensures Inv(Next(s, Receive(d, id, user)))
  {
    hide Ran;
  }

  lemma DecideKeeps(s: State, h: nat, env: Env)
    requires Inv(s) && h < |s.handlers| && s.handlers[h].pc == Deciding
    ensures Inv(Advanced(s, h, env))
  {
    hide Ran;
    var t, id := Advanced(s, h, env), s.handlers[h].id;
    if IsPending(s.actions, id) {
      NotRanWhilePending(s, id);
    }
  }

  lemma NotRanWhilePending(s: State, id: int)
    requires Inv(s) && IsPending(s.actions, id)
    ensures !Ran(s.executions, id)
    ensures forall g :: 0 <= g < |s.handlers| && Holds(s.handlers[g]) ==> s.handlers[g].id != id
  {
  }

  lemma ReadBackKeeps(s: State, h: nat, env: Env)
    requires Inv(s) && h < |s.handlers| && s.handlers[h].pc == ReadingBack
    ensures Inv(Advanced(s, h, env))
  {
    hide Ran;
  }

  lemma ExecuteKeeps(s: State, h: nat, env: Env)
    requires Inv(s) && h < |s.handlers| && s.handlers[h].pc == Executing
    ensures Inv(Advanced(s, h, env))
  {
    var x, t := s.handlers[h], Advanced(s, h, env);
    assert Holds(x);
    forall k | 0 <= k < |s.executions|
      ensures s.executions[k].0 != x.id
    {
    }
    forall id
      ensures Ran(t.executions, id) <==> Ran(s.executions, id) || id == x.id
    {
      RanSnoc(s.executions, (x.id, h), id);
    }
    hide Ran;
  }

  lemma MarkKeeps(s: State, h: nat, env: Env)
    requires Inv(s) && h < |s.handlers| && s.handlers[h].pc.Marking?
    ensures Inv(Advanced(s, h, env))
  {
    hide Ran;
    assert Holds(s.handlers[h]);
  }

  lemma FinishKeeps(s: State, h: nat, env: Env)
    requires Inv(s) && h < |s.handlers|
    requires s.handlers[h].pc == Auditing || s.handlers[h].pc.Finished? || s.handlers[h].pc == Lost
    ensures Inv(Advanced(s, h, env))
  {
    hide Ran;
  }

  lemma CrashKeeps(s: State, h: nat)
    requires Inv(s) && h < |s.handlers|
    ensures Inv(Crashed(s, h))
  {
    hide Ran;
  }

  /** Every step of every handler keeps the invariant. */
  lemma InvNext(s: State, m: Move)
    requires Inv(s)
    ensures Inv(Next(s, m))
  {
    hide Inv, Advanced, Crashed;
    match m
    case Create(id) => CreateKeeps(s, id);
    case Receive(d, id, user) => ReceiveKeeps(s, d, id, user);
    case Advance(h, env) =>
      if h < |s.handlers| {
        match s.handlers[h].pc
        case Deciding => DecideKeeps(s, h, env);
        case ReadingBack => ReadBackKeeps(s, h, env);
        case Executing => ExecuteKeeps(s, h, env);
        case Marking(_) => MarkKeeps(s, h, env);
        case Auditing => FinishKeeps(s, h, env);
        case Finished(_) => FinishKeeps(s, h, env);
        case Lost => FinishKeeps(s, h, env);
      }
    case Crash(h) =>
      if h < |s.handlers| {
        CrashKeeps(s, h);
      }
  }

  lemma {:induction false} InvRun(moves: seq<Move>)
    ensures Inv(Run(INITIAL, moves))
  {
    hide Inv, Next;
    if moves == [] {
      InvInitial();
    } else {
      InvRun(moves[..|moves| - 1]);
      InvNext(Run(INITIAL, moves[..|moves| - 1]), moves[|moves| - 1]);
    }
  }

  lemma InvInitial()
    ensures Inv(INITIAL)
  {
  }

  // ---- Consequences ----

  /** In every run the side effect of an action happens at most once, by the user who approved it. */
  lemma ExecutedAtMostOnce(moves: seq<Move>, j: nat, k: nat)
    ensures var s := Run(INITIAL, moves);
      && (j < k < |s.executions| ==> s.executions[j].0 != s.executions[k].0)
      && (k < |s.executions| ==> ExecutionValid(s, s.executions[k].0, s.executions[k].1))
  {
    InvRun(moves);
  }

  // The statuses an action can take on in one step.
  predicate Follows(before: Status, after: Status) {
    || after == before
    || (before == Pending && (after == Approved || after == Rejected))
    || (before == Approved && (after == Executed || after == Failed))
  }

  /**
   Although the second update does not look at the status, it only ever overwrites approved
   actions: no step leaves the intended life cycle, and finished or rejected rows never change.
   */
  lemma StatusFollows(s: State, m: Move, id: int)
    requires Inv(s) && id in s.actions
    ensures var t := Next(s, m);
      && id in t.actions && Follows(s.actions[id].status, t.actions[id].status)
      && (s.actions[id].status in {Rejected, Executed, Failed} ==> t.actions[id] == s.actions[id])
  {
    hide Ran, RowValid, ExecutionValid;
    if m.Advance? && m.h < |s.handlers| && s.handlers[m.h].pc.Marking? {
      assert Holds(s.handlers[m.h]);
    }
  }

  lemma {:induction false} SettledForGood(s: State, moves: seq<Move>, id: int)
    requires Inv(s) && id in s.actions && s.actions[id].status in {Rejected, Executed, Failed}
    ensures var t := Run(s, moves); Inv(t) && id in t.actions && t.actions[id] == s.actions[id]
  {
    hide Inv, Next;
    if moves != [] {
      var front := moves[..|moves| - 1];
      SettledForGood(s, front, id);
      InvNext(Run(s, front), moves[|moves| - 1]);
      StatusFollows(Run(s, front), moves[|moves| - 1], id);
    }
  }

  /** An action that is rejected at any point of a run has not been executed and never will be. */
  lemma NeverAfterReject(before: seq<Move>, moves: seq<Move>, id: int)
    requires var s := Run(INITIAL, before); id in s.actions && s.actions[id].status == Rejected
    ensures var t := Run(Run(INITIAL, before), moves);
      id in t.actions && t.actions[id].status == Rejected && !Ran(t.executions, id)
  {
    hide Run;
    InvRun(before);
    SettledForGood(Run(INITIAL, before), moves, id);
    RejectedNotRan(Run(Run(INITIAL, before), moves), id);
  }

  lemma RejectedNotRan(s: State, id: int)
    requires Inv(s) && id in s.actions && s.actions[id].status == Rejected
    ensures !Ran(s.executions, id)
  {
  }

  // Some handler has approved the action and is still working on it.
  ghost predicate Held(s: State, id: int) {
    exists h :: 0 <= h < |s.handlers| && Holds(s.handlers[h]) && s.handlers[h].id == id
  }

  // Approved, but no handler is left to execute it.
  ghost predicate Orphaned(s: State, id: int) {
    id in s.actions && s.actions[id].status == Approved && !Held(s, id)
  }

  lemma OrphanStays(s: State, m: Move, id: int)
    requires Inv(s) && Orphaned(s, id)
    ensures Orphaned(Next(s, m), id)
    ensures Ran(Next(s, m).executions, id) <==> Ran(s.executions, id)
  {
    hide Ran, RowValid, ExecutionValid;
    if m.Advance? && m.h < |s.handlers| {
      var x := s.handlers[m.h];
      if x.pc == Executing || x.pc.Marking? {
        assert Holds(x);
        assert x.id != id;
      }
      RanSnoc(s.executions, (x.id, m.h), id);
    }
    var t := Next(s, m);
    forall h | 0 <= h < |t.handlers| && t.handlers[h].id == id
      ensures !Holds(t.handlers[h])
    {
      assert h < |s.handlers| ==> s.handlers[h].id == t.handlers[h].id;
    }
  }

  lemma {:induction false} OrphanForGood(s: State, moves: seq<Move>, id: int)
    requires Inv(s) && Orphaned(s, id)
    ensures Inv(Run(s, moves)) && Orphaned(Run(s, moves), id)
    ensures Ran(Run(s, moves).executions, id) <==> Ran(s.executions, id)
  {
    hide Inv, Next, Orphaned, Ran;
    if moves != [] {
      var front := moves[..|moves| - 1];
      OrphanForGood(s, front, id);
      InvNext(Run(s, front), moves[|moves| - 1]);
      OrphanStays(Run(s, front), moves[|moves| - 1], id);
    }
  }

  /**
   An approved action that has not run can still run exactly when its handler is still at work: an
   approval whose handler stopped early, or was lost with its process, is lost for good.
   */
  lemma CanStillRun(s: State, id: int)
    requires Inv(s) && id in s.actions && s.actions[id].status == Approved && !Ran(s.executions, id)
    ensures (exists moves :: Ran(Run(s, moves).executions, id)) <==> Held(s, id)
  {
    if Held(s, id) {
      var h :| 0 <= h < |s.handlers| && Holds(s.handlers[h]) && s.handlers[h].id == id;
      HolderRuns(s, h);
    } else {
      forall moves
        ensures !Ran(Run(s, moves).executions, id)
      {
        OrphanForGood(s, moves, id);
      }
    }
  }

  lemma HolderRuns(s: State, h: nat)
    requires Inv(s) && h < |s.handlers| && Holds(s.handlers[h]) && !Ran(s.executions, s.handlers[h].id)
    ensures exists moves :: Ran(Run(s, moves).executions, s.handlers[h].id)
  {
    var id, env := s.handlers[h].id, Env(false, true, None);
    var step := Move.Advance(h, env);
    assert Run(s, []) == s;
    assert [step][..0] == [] && [step, step][..1] == [step];
    assert Run(s, [step]) == Next(s, step);
    assert Run(s, [step, step]) == Next(Next(s, step), step);
    if s.handlers[h].pc == Executing {
      RanSnoc(s.executions, (id, h), id);
      assert Ran(Run(s, [step]).executions, id);
    } else {
      assert Next(s, step).handlers[h].pc == Executing;
      RanSnoc(s.executions, (id, h), id);
      assert Ran(Run(s, [step, step]).executions, id);
    }
  }

  /** A handler that is lost before the side effect loses its approval. */
  lemma CrashLosesApproval(s: State, h: nat, moves: seq<Move>)
    requires Inv(s) && h < |s.handlers| && Holds(s.handlers[h]) && !Ran(s.executions, s.handlers[h].id)
    ensures !Ran(Run(Next(s, Crash(h)), moves).executions, s.handlers[h].id)
  {
    var t, id := Next(s, Crash(h)), s.handlers[h].id;
    assert Orphaned(t, id);
    InvNext(s, Crash(h));
    OrphanForGood(t, moves, id);
  }

  /** Such a loss can happen: the row cannot be read back right after the approval. */
  lemma ApprovalCanBeLost(id: int, user: string)
    ensures var ok, down := Env(false, true, None), Env(true, false, None);
      var s := Run(INITIAL, [Create(id), Receive(Approve, id, user), Move.Advance(0, ok), Move.Advance(0, down)]);
      Orphaned(s, id) && !Ran(s.executions, id)
  {
    var ok, down := Env(false, true, None), Env(true, false, None);
    var m1, m2, m3, m4 := Create(id), Receive(Approve, id, user), Move.Advance(0, ok), Move.Advance(0, down);
    assert [m1][..0] == [] && [m1, m2][..1] == [m1] && [m1, m2, m3][..2] == [m1, m2];
    assert [m1, m2, m3, m4][..3] == [m1, m2, m3];
    var s1 := Next(INITIAL, m1);
    var s2 := Next(s1, m2);
    var s3 := Next(s2, m3);
    assert Run(INITIAL, []) == INITIAL;
    assert Run(INITIAL, [m1]) == s1;
    assert Run(INITIAL, [m1, m2]) == s2;
    assert Run(INITIAL, [m1, m2, m3]) == s3;
    assert s3.handlers == [Handler(Approve, id, user, ReadingBack)];
  }
}

/** Tasks over the queue, as a transition system. Each event is the code between two awaits:
    registering, executing (enqueue plus the status update after it) and cancelling a task, the
    last segment of a task's run, and the drain's continuation after it. They interleave freely. */
module TaskRuns {
  import opened Text
  import opened TaskQueue

  datatype Kind = Batch | Playbook

  datatype Status = Pending | Queued | Running | Succeeded | Failed | Cancelled

  datatype Task = Task(conn: Conn, kind: Kind, status: Status)

  /** A suspended `drain(conn)`, awaiting the run of `task`; `done` once that run has returned. */
  datatype Drain = Drain(conn: Conn, task: TaskId, done: bool)

  /** How a run ends: the engine reports success, reports a failure, or throws. */
  datatype Outcome = Fine | Faulty | Threw

  /** Program state, and per connection the history of enqueued, started and retired tasks. A task
      is retired when its drain has moved on from it. `gone` are the tasks cancelled while queued. */
  datatype State = State(
    vars: Vars,
    drains: seq<Drain>,
    tasks: map<TaskId, Task>,
    flags: set<TaskId>,
    enqueued: map<Conn, seq<TaskId>>,
    started: map<Conn, seq<TaskId>>,
    retired: map<Conn, seq<TaskId>>,
    gone: set<TaskId>)

  const INIT := State(EMPTY, [], map[], {}, map[], map[], map[], {})

  function At(m: map<Conn, seq<TaskId>>, c: Conn): seq<TaskId> { if c in m then m[c] else [] }

  function Add(m: map<Conn, seq<TaskId>>, c: Conn, id: TaskId): map<Conn, seq<TaskId>> { m[c := At(m, c) + [id]] }

  function Waiting(s: State, c: Conn): seq<TaskId> { ListOf(s.vars, c) }

  predicate Terminal(st: Status) { st.Succeeded? || st.Failed? || st.Cancelled? }

  datatype Event =
    | Register(id: TaskId, conn: Conn, kind: Kind)
    | Execute(id: TaskId)
    | Cancel(id: TaskId)
    | Finish(i: nat, outcome: Outcome)
    | Resume(i: nat)

  /** Task ids are fresh and each task is executed once. */
  predicate Enabled(s: State, e: Event)
  {
    match e
    case Register(id, _, _) => id !in s.tasks
    case Execute(id) => id in s.tasks && s.tasks[id].status == Pending
    case Cancel(_) => true
    case Finish(i, _) => i < |s.drains| && !s.drains[i].done && s.drains[i].task in s.tasks
    case Resume(i) => i < |s.drains| && s.drains[i].done
  }

  function SetStatus(s: State, id: TaskId, st: Status): State
  {
    if id in s.tasks then s.(tasks := s.tasks[id := s.tasks[id].(status := st)]) else s
  }

  /** `onStart` and the synchronous beginning of `run`. */
  function Begin(s: State, c: Conn, x: TaskId): State
  {
    SetStatus(s, x, Running).(started := Add(s.started, c, x))
  }

  function ExecuteTask(s: State, id: TaskId): State
    requires id in s.tasks
  {
    var c := s.tasks[id].conn;
    var position := Position(s.vars, c);
    var (vars, next) := Enqueued(s.vars, c, id);
    var s1 := s.(vars := vars, enqueued := Add(s.enqueued, c, id));
    var s2 := if next.Some? then Begin(s1, c, next.value).(drains := s.drains + [Drain(c, next.value, false)]) else s1;
    if position > 0 then SetStatus(s2, id, Queued) else s2
  }

  function CancelTask(s: State, id: TaskId): State
  {
    if id in s.tasks && s.tasks[id].status == Queued && CancelQueued(s.vars, s.tasks[id].conn, id).1
    then SetStatus(s.(vars := CancelQueued(s.vars, s.tasks[id].conn, id).0, gone := s.gone + {id}), id, Cancelled)
    else s.(flags := s.flags + {id})
  }

  /** The status a run leaves: a batch looks at its cancel flag, a playbook never does. */
  function EndStatus(kind: Kind, flagged: bool, outcome: Outcome): Status
  {
    match outcome
    case Threw => Failed
    case Fine => if kind.Batch? && flagged then Cancelled else Succeeded
    case Faulty => if kind.Batch? && flagged then Cancelled else Failed
  }

  function FinishRun(s: State, i: nat, outcome: Outcome): State
    requires i < |s.drains| && s.drains[i].task in s.tasks
  {
    var id := s.drains[i].task;
    var kind := s.tasks[id].kind;
    SetStatus(s, id, EndStatus(kind, id in s.flags, outcome))
      .(drains := s.drains[i := s.drains[i].(done := true)],
        flags := if kind.Batch? then s.flags - {id} else s.flags)
  }

  function ResumeDrain(s: State, i: nat): State
    requires i < |s.drains|
  {
    var c := s.drains[i].conn;
    var (vars, next) := DrainOn(s.vars, c);
    var s1 := s.(vars := vars, retired := Add(s.retired, c, s.drains[i].task));
    if next.Some? then Begin(s1, c, next.value).(drains := s.drains[i := Drain(c, next.value, false)])
    else s1.(drains := s.drains[..i] + s.drains[i + 1..])
  }

  function Apply(s: State, e: Event): State
    requires Enabled(s, e)
  {
    match e
    case Register(id, c, kind) => s.(tasks := s.tasks[id := Task(c, kind, Pending)])
    case Execute(id) => ExecuteTask(s, id)
    case Cancel(id) => CancelTask(s, id)
    case Finish(i, outcome) => FinishRun(s, i, outcome)
    case Resume(i) => ResumeDrain(s, i)
  }

  ghost predicate IsRun(states: seq<State>, events: seq<Event>)
  {
    && |states| == |events| + 1
    && states[0] == INIT
    && forall i :: 0 <= i < |events| ==> Enabled(states[i], events[i]) && states[i + 1] == Apply(states[i], events[i])
  }

  // Sequences of ids -----------------------------------------------------------------------------

  /** The ids of a list that are not in a set, in order. */
  function Minus(list: seq<TaskId>, out: set<TaskId>): seq<TaskId>
  {
    if list == [] then [] else if list[0] in out then Minus(list[1..], out) else [list[0]] + Minus(list[1..], out)
  }

  ghost predicate Distinct(list: seq<TaskId>)
  {
    forall i, j :: 0 <= i < j < |list| ==> list[i] != list[j]
  }

  lemma {:induction false} MinusConcat(a: seq<TaskId>, b: seq<TaskId>, out: set<TaskId>)
    ensures Minus(a + b, out) == Minus(a, out) + Minus(b, out)
    decreases |a|
  {
    if a == [] {
      assert a + b == b;
    } else {
      assert (a + b)[1..] == a[1..] + b;
      MinusConcat(a[1..], b, out);
    }
  }

  lemma {:induction false} MinusMembers(list: seq<TaskId>, out: set<TaskId>)
    ensures forall x :: x in Minus(list, out) <==> x in list && x !in out
    decreases |list|
  {
    if list != [] {
      MinusMembers(list[1..], out);
      assert list == [list[0]] + list[1..];
    }
  }

  lemma {:induction false} MinusNone(list: seq<TaskId>, out: set<TaskId>)
    requires forall x :: x in list ==> x !in out
    ensures Minus(list, out) == list
    decreases |list|
  {
    if list != [] {
      MinusNone(list[1..], out);
    }
  }

  lemma {:induction false} MinusTwice(list: seq<TaskId>, a: set<TaskId>, b: set<TaskId>)
    requires a <= b
    ensures Minus(list, b) == Minus(Minus(list, a), b)
    decreases |list|
  {
    if list != [] {
      MinusTwice(list[1..], a, b);
      if list[0] !in a {
        assert Minus(list, a)[1..] == Minus(list[1..], a);
      }
    }
  }

  /** Cancelling one waiting id takes it out of the live sequence. */
  lemma {:induction false} MinusOneMore(list: seq<TaskId>, out: set<TaskId>, id: TaskId)
    requires Distinct(list)
    ensures Minus(list, out + {id}) == Without(Minus(list, out), id)
    decreases |list|
  {
    if list != [] {
      MinusOneMore(list[1..], out, id);
      if list[0] == id {
        MinusMembers(list[1..], out);
        if list[0] in out {
          WithoutAbsent(Minus(list[1..], out), id);
        } else {
          MinusSame(list[1..], out, id);
          assert Minus(list, out)[1..] == Minus(list[1..], out);
        }
      } else if list[0] !in out {
        assert Minus(list, out)[1..] == Minus(list[1..], out);
      }
    }
  }

  lemma {:induction false} MinusSame(list: seq<TaskId>, out: set<TaskId>, id: TaskId)
    requires id !in list
    ensures Minus(list, out + {id}) == Minus(list, out)
    decreases |list|
  {
    if list != [] {
      MinusSame(list[1..], out, id);
    }
  }

  lemma {:induction false} WithoutAbsent(list: seq<TaskId>, id: TaskId)
    requires id !in list
    ensures Without(list, id) == list
    decreases |list|
  {
    if list != [] {
      WithoutAbsent(list[1..], id);
    }
  }

  lemma {:induction false} WithoutConcat(a: seq<TaskId>, b: seq<TaskId>, id: TaskId)
    requires id !in a
    ensures Without(a + b, id) == a + Without(b, id)
    decreases |a|
  {
    if a == [] {
      assert a + b == b;
    } else {
      assert (a + b)[1..] == a[1..] + b;
      WithoutConcat(a[1..], b, id);
    }
  }

  lemma {:induction false} WithoutMembers(list: seq<TaskId>, id: TaskId)
    requires Distinct(list)
    ensures forall x :: x in Without(list, id) <==> x in list && x != id
    decreases |list|
  {
    if list != [] {
      WithoutMembers(list[1..], id);
      assert list == [list[0]] + list[1..];
    }
  }

  lemma {:induction false} MinusDistinct(list: seq<TaskId>, out: set<TaskId>)
    requires Distinct(list)
    ensures Distinct(Minus(list, out))
    decreases |list|
  {
    if list != [] {
      MinusDistinct(list[1..], out);
      MinusMembers(list[1..], out);
    }
  }

  // Drains per connection -------------------------------------------------------------------------

  /** The tasks that suspended drains of `c` are awaiting. */
  function Awaited(drains: seq<Drain>, c: Conn): seq<TaskId>
  {
    if drains == [] then []
    else (if drains[0].conn == c then [drains[0].task] else []) + Awaited(drains[1..], c)
  }

  lemma {:induction false} AwaitedConcat(a: seq<Drain>, b: seq<Drain>, c: Conn)
    ensures Awaited(a + b, c) == Awaited(a, c) + Awaited(b, c)
    decreases |a|
  {
    if a == [] {
      assert a + b == b;
    } else {
      assert (a + b)[1..] == a[1..] + b;
      AwaitedConcat(a[1..], b, c);
    }
  }

  lemma AwaitedSplit(drains: seq<Drain>, i: nat, c: Conn)
    requires i < |drains|
    ensures Awaited(drains, c) == Awaited(drains[..i], c) + Awaited([drains[i]], c) + Awaited(drains[i + 1..], c)
  {
    assert drains == drains[..i] + [drains[i]] + drains[i + 1..];
    AwaitedConcat(drains[..i] + [drains[i]], drains[i + 1..], c);
    AwaitedConcat(drains[..i], [drains[i]], c);
  }

  /** A connection awaiting one task has one drain. */
  lemma SoleDrain(drains: seq<Drain>, i: nat)
    requires i < |drains| && |Awaited(drains, drains[i].conn)| <= 1
    ensures Awaited(drains, drains[i].conn) == [drains[i].task]
    ensures Awaited(drains[..i] + drains[i + 1..], drains[i].conn) == []
  {
    var c := drains[i].conn;
    AwaitedSplit(drains, i, c);
    assert Awaited([drains[i]], c) == [drains[i].task] + Awaited([], c);
    AwaitedConcat(drains[..i], drains[i + 1..], c);
  }

  lemma ReplaceDrain(drains: seq<Drain>, i: nat, d: Drain, c: Conn)
    requires i < |drains| && d.conn == drains[i].conn
    ensures c != d.conn ==> Awaited(drains[i := d], c) == Awaited(drains, c)
    ensures c == d.conn && |Awaited(drains, c)| <= 1 ==> Awaited(drains[i := d], c) == [d.task]
    ensures d.task == drains[i].task ==> Awaited(drains[i := d], c) == Awaited(drains, c)
  {
    AwaitedSplit(drains, i, c);
    AwaitedSplit(drains[i := d], i, c);
    assert drains[i := d][..i] == drains[..i] && drains[i := d][i + 1..] == drains[i + 1..];
    assert [drains[i]][1..] == [] && [d][1..] == [];
  }

  lemma RemoveDrain(drains: seq<Drain>, i: nat, c: Conn)
    requires i < |drains| && c != drains[i].conn
    ensures Awaited(drains[..i] + drains[i + 1..], c) == Awaited(drains, c)
  {
    AwaitedSplit(drains, i, c);
    AwaitedConcat(drains[..i], drains[i + 1..], c);
    assert [drains[i]][1..] == [];
  }

  lemma {:induction false} AwaitedMember(drains: seq<Drain>, c: Conn, x: TaskId)
    ensures x in Awaited(drains, c) <==> exists i :: 0 <= i < |drains| && drains[i].conn == c && drains[i].task == x
    decreases |drains|
  {
    if drains != [] {
      AwaitedMember(drains[1..], c, x);
      assert drains == [drains[0]] + drains[1..];
      if i :| 0 <= i < |drains| && drains[i].conn == c && drains[i].task == x {
        if i > 0 {
          assert drains[1..][i - 1] == drains[i];
        }
      }
      if x in Awaited(drains[1..], c) {
        var i :| 0 <= i < |drains[1..]| && drains[1..][i].conn == c && drains[1..][i].task == x;
        assert drains[i + 1] == drains[1..][i];
      }
    }
  }

  // The invariant -----------------------------------------------------------------------------------

  /** The queue of one connection: started tasks followed by waiting ones are the enqueued ones in
      order, less those cancelled while waiting; all started tasks but at most one are retired, and
      that one is what the connection's only drain awaits; a drain is active whenever anything
      waits. */
  ghost predicate FlowOk(s: State, c: Conn)
  {
    && Minus(At(s.enqueued, c), s.gone) == At(s.started, c) + Waiting(s, c)
    && At(s.started, c) == At(s.retired, c) + Awaited(s.drains, c)
    && |Awaited(s.drains, c)| <= 1
    && (Draining(s.vars, c) <==> Awaited(s.drains, c) != [])
    && (Waiting(s, c) != [] ==> Draining(s.vars, c))
    && Distinct(At(s.enqueued, c))
  }

  /** Everything enqueued on a connection is a task of that connection, and what waits is queued. */
  ghost predicate MembersOk(s: State, c: Conn)
  {
    && (forall x :: x in At(s.enqueued, c) ==> x in s.tasks && s.tasks[x].conn == c && s.tasks[x].status != Pending)
    && (forall x :: x in Waiting(s, c) ==> x in s.tasks && s.tasks[x].status == Queued)
  }

  ghost predicate ConnOk(s: State, c: Conn) { FlowOk(s, c) && MembersOk(s, c) }

  ghost predicate Runs(s: State, x: TaskId)
  {
    exists i :: 0 <= i < |s.drains| && s.drains[i].task == x && !s.drains[i].done
  }

  ghost predicate TasksOk(s: State)
  {
    && (forall x :: x in s.tasks && s.tasks[x].status == Queued ==> x in Waiting(s, s.tasks[x].conn))
    && (forall x :: x in s.tasks && s.tasks[x].status == Running ==> Runs(s, x))
    && (forall i :: 0 <= i < |s.drains| ==>
          var d := s.drains[i];
          d.task in s.tasks && s.tasks[d.task].conn == d.conn
          && (if d.done then Terminal(s.tasks[d.task].status) else s.tasks[d.task].status == Running))
    && s.vars.cancelled == s.gone
    && (forall x :: x in s.gone ==> x in s.tasks && s.tasks[x].status == Cancelled)
  }

  ghost predicate Inv(s: State) { TasksOk(s) && forall c: Conn :: ConnOk(s, c) }

  /** With no flagged entry waiting, the drain takes the front of the list or ends. */
  lemma DrainOnEffect(v: Vars, c: Conn)
    requires forall x :: x in ListOf(v, c) ==> x !in v.cancelled
    ensures var (v', next) := DrainOn(v, c);
            var list := ListOf(v, c);
            && v'.cancelled == v.cancelled
            && next == (if list == [] then None else Some(list[0]))
            && ListOf(v', c) == (if list == [] then [] else list[1..])
            && (Draining(v', c) <==> list != [] && Draining(v, c))
            && forall k :: k != c ==> ListOf(v', k) == ListOf(v, k) && (Draining(v', k) <==> Draining(v, k))
  {}

  lemma EnqueuedEffect(v: Vars, c: Conn, id: TaskId)
    requires id !in v.cancelled && (ListOf(v, c) != [] ==> Draining(v, c))
    ensures var (v', next) := Enqueued(v, c, id);
            && v'.cancelled == v.cancelled && Draining(v', c)
            && next == (if Draining(v, c) then None else Some(id))
            && ListOf(v', c) == (if Draining(v, c) then ListOf(v, c) + [id] else [])
            && forall k :: k != c ==> ListOf(v', k) == ListOf(v, k) && (Draining(v', k) <==> Draining(v, k))
  {
    if !Draining(v, c) {
      var v1 := v.(queues := v.queues[c := [id]], draining := v.draining[c := true]);
      assert ListOf(v, c) + [id] == [id];
      DrainOnEffect(v1, c);
    }
  }

  lemma PendingIsNowhere(s: State, id: TaskId)
    requires Inv(s) && id in s.tasks && s.tasks[id].status == Pending
    ensures id !in s.gone && forall c: Conn :: id !in At(s.enqueued, c)
  {
    forall c: Conn
      ensures id !in At(s.enqueued, c)
    {
      assert ConnOk(s, c);
    }
  }

  lemma RegisterKeeps(s: State, e: Event)
    requires Inv(s) && e.Register? && Enabled(s, e)
    ensures Inv(Apply(s, e))
  {
    hide Minus, Awaited, Distinct, ListOf, Draining;
    forall c: Conn
      ensures ConnOk(Apply(s, e), c)
    {
      assert ConnOk(s, c);
    }
  }

  /** `ExecuteTask` in one piece: an idle connection starts the task at once, a busy one queues it. */
  lemma ExecuteShape(s: State, id: TaskId)
    requires id in s.tasks && id !in s.vars.cancelled
    requires Waiting(s, s.tasks[id].conn) != [] ==> Draining(s.vars, s.tasks[id].conn)
    ensures var c, s' := s.tasks[id].conn, ExecuteTask(s, id);
            var busy := Draining(s.vars, c);
            && s'.enqueued == Add(s.enqueued, c, id) && s'.retired == s.retired
            && s'.gone == s.gone && s'.vars.cancelled == s.vars.cancelled
            && s'.tasks == s.tasks[id := s.tasks[id].(status := if busy then Queued else Running)]
            && s'.drains == (if busy then s.drains else s.drains + [Drain(c, id, false)])
            && s'.started == (if busy then s.started else Add(s.started, c, id))
            && Waiting(s', c) == (if busy then Waiting(s, c) + [id] else []) && Draining(s'.vars, c)
            && forall k :: k != c ==> Waiting(s', k) == Waiting(s, k) && (Draining(s'.vars, k) <==> Draining(s.vars, k))
  {
    hide Enqueued;
    EnqueuedEffect(s.vars, s.tasks[id].conn, id);
  }

  lemma AtAdd(m: map<Conn, seq<TaskId>>, c: Conn, id: TaskId, k: Conn)
    ensures At(Add(m, c, id), k) == if k == c then At(m, c) + [id] else At(m, k)
  {}

  lemma ExecuteKeepsFlow(s: State, id: TaskId, c: Conn)
    requires id in s.tasks && s.tasks[id].status == Pending && ConnOk(s, c) && ConnOk(s, s.tasks[id].conn)
    requires s.vars.cancelled == s.gone && id !in s.gone && id !in At(s.enqueued, c)
    ensures FlowOk(ExecuteTask(s, id), c)
  {
    hide Minus, Awaited, ListOf, Draining, ExecuteTask, At, Add, MembersOk, Distinct;
    var k := s.tasks[id].conn;
    ExecuteShape(s, id);
    AtAdd(s.enqueued, k, id, c);
    AtAdd(s.started, k, id, c);
    AwaitedConcat(s.drains, [Drain(k, id, false)], c);
    AwaitedOne(Drain(k, id, false), c);
    if c == k {
      MinusConcat(At(s.enqueued, k), [id], s.gone);
      MinusNone([id], s.gone);
      DistinctAppend(At(s.enqueued, k), id);
      assert At(s.started, k) + Waiting(s, k) + [id] == At(s.started, k) + (Waiting(s, k) + [id]);
    }
  }

  lemma DistinctAppend(list: seq<TaskId>, id: TaskId)
    requires Distinct(list) && id !in list
    ensures Distinct(list + [id])
  {}

  lemma ExecuteKeepsConn(s: State, id: TaskId, c: Conn)
    requires id in s.tasks && s.tasks[id].status == Pending && ConnOk(s, c) && ConnOk(s, s.tasks[id].conn)
    requires s.vars.cancelled == s.gone && id !in s.gone && id !in At(s.enqueued, c)
    ensures ConnOk(ExecuteTask(s, id), c)
  {
    hide FlowOk, MembersOk, ExecuteTask, At, Add;
    ExecuteKeepsFlow(s, id, c);
    assert Waiting(s, s.tasks[id].conn) != [] ==> Draining(s.vars, s.tasks[id].conn) by {
      ConnBusy(s, s.tasks[id].conn);
    }
    ExecuteKeepsMembers(s, id, c);
  }

  lemma ExecuteKeepsMembers(s: State, id: TaskId, c: Conn)
    requires id in s.tasks && s.tasks[id].status == Pending && MembersOk(s, c) && id !in s.vars.cancelled
    requires Waiting(s, s.tasks[id].conn) != [] ==> Draining(s.vars, s.tasks[id].conn)
    ensures MembersOk(ExecuteTask(s, id), c)
  {
    hide Waiting, Draining, ExecuteTask, At, Add;
    ExecuteShape(s, id);
    AtAdd(s.enqueued, s.tasks[id].conn, id, c);
  }

  lemma TasksOkGone(s: State)
    requires TasksOk(s)
    ensures s.vars.cancelled == s.gone
    ensures forall x :: x in s.gone ==> x in s.tasks && s.tasks[x].status == Cancelled
  {}

  lemma AwaitedOne(d: Drain, c: Conn)
    ensures Awaited([d], c) == if d.conn == c then [d.task] else []
  {}

  lemma ExecuteKeeps(s: State, e: Event)
    requires Inv(s) && e.Execute? && Enabled(s, e)
    ensures Inv(Apply(s, e))
  {
    hide ConnOk, ListOf, Draining, ExecuteTask, At, Add;
    var id := e.id;
    var c := s.tasks[id].conn;
    PendingIsNowhere(s, id);
    ConnBusy(s, c);
    ExecuteShape(s, id);
    forall k: Conn
      ensures ConnOk(Apply(s, e), k)
    {
      ExecuteKeepsConn(s, id, k);
    }
    ExecuteKeepsTasks(s, id);
  }

  lemma ConnBusy(s: State, c: Conn)
    requires ConnOk(s, c)
    ensures Waiting(s, c) != [] ==> Draining(s.vars, c)
  {
    hide Minus, Awaited, Distinct;
  }

  lemma ExecuteKeepsTasks(s: State, id: TaskId)
    requires TasksOk(s) && id in s.tasks && s.tasks[id].status == Pending && id !in s.gone
    requires Waiting(s, s.tasks[id].conn) != [] ==> Draining(s.vars, s.tasks[id].conn)
    ensures TasksOk(ExecuteTask(s, id))
  {
    hide ListOf, Draining, ExecuteTask, At, Add, Waiting;
    var s' := ExecuteTask(s, id);
    ExecuteShape(s, id);
    forall x | x in s'.tasks && s'.tasks[x].status == Queued
      ensures x in Waiting(s', s'.tasks[x].conn)
    {
      if x != id {
        assert x in Waiting(s, s.tasks[x].conn);
      }
    }
    if !Draining(s.vars, s.tasks[id].conn) {
      assert s'.drains[|s.drains|].task == id;
      assert Runs(s', id);
    }
    forall x | x in s.tasks && Runs(s, x)
      ensures Runs(s', x)
    {
      var i :| 0 <= i < |s.drains| && s.drains[i].task == x && !s.drains[i].done;
      assert s'.drains[i] == s.drains[i];
    }
  }

  /** `CancelTask` on a queued task, in one piece. */
  lemma CancelShape(s: State, id: TaskId)
    requires id in s.tasks && s.tasks[id].status == Queued && id in Waiting(s, s.tasks[id].conn)
    ensures var c, s' := s.tasks[id].conn, CancelTask(s, id);
            && s' == s.(vars := s'.vars, gone := s.gone + {id}, tasks := s.tasks[id := s.tasks[id].(status := Cancelled)])
            && s'.vars.cancelled == s.vars.cancelled + {id}
            && Waiting(s', c) == Without(Waiting(s, c), id)
            && (forall k :: k != c ==> Waiting(s', k) == Waiting(s, k))
            && forall k :: Draining(s'.vars, k) <==> Draining(s.vars, k)
  {}

  /** What waits on a connection was enqueued there. */
  lemma WaitingIsEnqueued(s: State, c: Conn)
    requires FlowOk(s, c)
    ensures forall x :: x in Waiting(s, c) ==> x in At(s.enqueued, c) && x !in s.gone
  {
    hide Minus, Awaited, ListOf, Draining, Distinct;
    MinusMembers(At(s.enqueued, c), s.gone);
    assert forall x :: x in Waiting(s, c) ==> x in At(s.started, c) + Waiting(s, c);
  }

  lemma CancelKeepsConn(s: State, id: TaskId, c: Conn)
    requires ConnOk(s, c) && TasksOk(s) && id in s.tasks && s.tasks[id].status == Queued
    ensures ConnOk(CancelTask(s, id), c)
  {
    hide Minus, Awaited, Draining, TasksOk, ListOf, CancelTask;
    var k := s.tasks[id].conn;
    QueuedIsWaiting(s, id);
    CancelShape(s, id);
    WaitingIsEnqueued(s, c);
    if c == k {
      MinusOneMore(At(s.enqueued, c), s.gone, id);
      MinusDistinct(At(s.enqueued, c), s.gone);
      NotStarted(At(s.started, c), Waiting(s, c), id);
      WithoutConcat(At(s.started, c), Waiting(s, c), id);
      WithoutMembers(Waiting(s, c), id);
    } else {
      MinusSame(At(s.enqueued, c), s.gone, id);
    }
  }

  lemma QueuedIsWaiting(s: State, id: TaskId)
    requires TasksOk(s) && id in s.tasks && s.tasks[id].status == Queued
    ensures id in Waiting(s, s.tasks[id].conn)
  {}

  lemma NotStarted(a: seq<TaskId>, b: seq<TaskId>, id: TaskId)
    requires Distinct(a + b) && id in b
    ensures id !in a && Distinct(b)
  {
    var j :| 0 <= j < |b| && b[j] == id;
    forall i | 0 <= i < |a|
      ensures a[i] != id
    {
      assert (a + b)[i] == a[i] && (a + b)[|a| + j] == id;
    }
    forall i, k | 0 <= i < k < |b|
      ensures b[i] != b[k]
    {
      assert (a + b)[|a| + i] == b[i] && (a + b)[|a| + k] == b[k];
    }
  }

  lemma CancelKeepsTasks(s: State, id: TaskId)
    requires Inv(s) && id in s.tasks && s.tasks[id].status == Queued
    ensures TasksOk(CancelTask(s, id))
  {
    hide Minus, Awaited, Draining, ListOf, CancelTask;
    var c := s.tasks[id].conn;
    var s' := CancelTask(s, id);
    assert ConnOk(s, c);
    QueuedIsWaiting(s, id);
    CancelShape(s, id);
    MinusDistinct(At(s.enqueued, c), s.gone);
    NotStarted(At(s.started, c), Waiting(s, c), id);
    WithoutMembers(Waiting(s, c), id);
    forall x | x in s.tasks && Runs(s, x)
      ensures Runs(s', x)
    {
      var i :| 0 <= i < |s.drains| && s.drains[i].task == x && !s.drains[i].done;
      assert s'.drains[i] == s.drains[i];
    }
  }

  lemma CancelKeeps(s: State, e: Event)
    requires Inv(s) && e.Cancel? && Enabled(s, e)
    ensures Inv(Apply(s, e))
  {
    hide ConnOk, TasksOk, ListOf;
    var id := e.id;
    if id in s.tasks && s.tasks[id].status == Queued {
      QueuedIsWaiting(s, id);
      CancelKeepsTasks(s, id);
      forall c: Conn
        ensures ConnOk(Apply(s, e), c)
      {
        CancelKeepsConn(s, id, c);
      }
    } else {
      FlagsDoNotMatter(s, Apply(s, e));
    }
  }

  lemma FlagsDoNotMatter(s: State, s': State)
    requires Inv(s) && s' == s.(flags := s'.flags)
    ensures Inv(s')
  {
    hide Minus, Awaited, ListOf, Draining, Distinct;
    forall c: Conn
      ensures ConnOk(s', c)
    {
      assert ConnOk(s, c);
    }
    forall x | x in s.tasks && Runs(s, x)
      ensures Runs(s', x)
    {
      var i :| 0 <= i < |s.drains| && s.drains[i].task == x && !s.drains[i].done;
      assert s'.drains[i] == s.drains[i];
    }
  }

  lemma FinishKeepsTasks(s: State, i: nat, outcome: Outcome)
    requires Inv(s) && i < |s.drains| && !s.drains[i].done
    ensures s.drains[i].task in s.tasks && TasksOk(FinishRun(s, i, outcome))
  {
    hide ConnOk, ListOf;
    var d, s' := s.drains[i], FinishRun(s, i, outcome);
    DrainsDiffer(s, i);
    forall x | x in s.tasks && x != d.task && Runs(s, x)
      ensures Runs(s', x)
    {
      var j :| 0 <= j < |s.drains| && s.drains[j].task == x && !s.drains[j].done;
      assert s'.drains[j] == s.drains[j];
    }
  }

  lemma FinishKeeps(s: State, e: Event)
    requires Inv(s) && e.Finish? && Enabled(s, e)
    ensures Inv(Apply(s, e))
  {
    hide Minus, Awaited, ListOf, Draining, Distinct, TasksOk;
    var i, s' := e.i, Apply(s, e);
    var d := s.drains[i];
    forall c: Conn
      ensures ConnOk(s', c)
    {
      assert ConnOk(s, c);
      ReplaceDrain(s.drains, i, d.(done := true), c);
      RunningIsNotQueued(s, i);
    }
    FinishKeepsTasks(s, i, e.outcome);
  }

  lemma RunningIsNotQueued(s: State, i: nat)
    requires TasksOk(s) && i < |s.drains| && s.drains[i].task in s.tasks
    ensures s.tasks[s.drains[i].task].status != Queued
  {}

  lemma TwoAwaited(drains: seq<Drain>, lo: nat, hi: nat, c: Conn)
    requires lo < hi < |drains| && drains[lo].conn == c && drains[hi].conn == c
    ensures |Awaited(drains, c)| >= 2
  {
    AwaitedSplit(drains, lo, c);
    AwaitedSplit(drains[lo + 1..], hi - lo - 1, c);
    assert drains[lo + 1..][hi - lo - 1] == drains[hi];
    AwaitedOne(drains[lo], c);
    AwaitedOne(drains[hi], c);
  }

  /** Mutual exclusion, on drains: no two await tasks of one connection, or the same task. */
  lemma DrainsDiffer(s: State, i: nat)
    requires Inv(s) && i < |s.drains|
    ensures forall j :: 0 <= j < |s.drains| && j != i ==>
              s.drains[j].conn != s.drains[i].conn && s.drains[j].task != s.drains[i].task
  {
    hide Minus, ListOf, Draining, Distinct, Awaited, At, Waiting;
    forall j | 0 <= j < |s.drains| && j != i
      ensures s.drains[j].conn != s.drains[i].conn
    {
      var c := s.drains[i].conn;
      assert ConnOk(s, c);
      if s.drains[j].conn == c {
        TwoAwaited(s.drains, if i < j then i else j, if i < j then j else i, c);
      }
    }
  }

  /** `ResumeDrain` in one piece. */
  lemma ResumeShape(s: State, i: nat)
    requires i < |s.drains|
    requires forall x :: x in Waiting(s, s.drains[i].conn) ==> x !in s.vars.cancelled && x in s.tasks
    ensures var c, s' := s.drains[i].conn, ResumeDrain(s, i);
            var list := Waiting(s, c);
            && s'.enqueued == s.enqueued && s'.retired == Add(s.retired, c, s.drains[i].task)
            && s'.gone == s.gone && s'.vars.cancelled == s.vars.cancelled
            && s'.tasks == (if list == [] then s.tasks else s.tasks[list[0] := s.tasks[list[0]].(status := Running)])
            && s'.drains == (if list == [] then s.drains[..i] + s.drains[i + 1..]
                             else s.drains[i := Drain(c, list[0], false)])
            && s'.started == (if list == [] then s.started else Add(s.started, c, list[0]))
            && Waiting(s', c) == (if list == [] then [] else list[1..])
            && (Draining(s'.vars, c) <==> list != [] && Draining(s.vars, c))
            && forall k :: k != c ==> Waiting(s', k) == Waiting(s, k) && (Draining(s'.vars, k) <==> Draining(s.vars, k))
  {
    hide DrainOn;
    DrainOnEffect(s.vars, s.drains[i].conn);
  }

  lemma ResumeKeepsOther(s: State, i: nat, c: Conn)
    requires i < |s.drains| && c != s.drains[i].conn && ConnOk(s, c) && ConnOk(s, s.drains[i].conn)
    requires s.vars.cancelled == s.gone
    ensures ConnOk(ResumeDrain(s, i), c)
  {
    hide Minus, Awaited, ListOf, Draining, ResumeDrain, At, Add, Distinct;
    var k := s.drains[i].conn;
    var list := Waiting(s, k);
    WaitingIsEnqueued(s, k);
    WaitingIsEnqueued(s, c);
    ResumeShape(s, i);
    AtAdd(s.retired, k, s.drains[i].task, c);
    if list == [] {
      RemoveDrain(s.drains, i, c);
    } else {
      assert list[0] in list;
      AtAdd(s.started, k, list[0], c);
      ReplaceDrain(s.drains, i, Drain(k, list[0], false), c);
    }
  }

  lemma ResumeKeepsFlow(s: State, i: nat)
    requires i < |s.drains| && ConnOk(s, s.drains[i].conn) && s.vars.cancelled == s.gone
    ensures FlowOk(ResumeDrain(s, i), s.drains[i].conn)
  {
    hide Minus, Awaited, ListOf, Draining, ResumeDrain, At, Add, Distinct;
    var k := s.drains[i].conn;
    var list := Waiting(s, k);
    WaitingIsEnqueued(s, k);
    ResumeShape(s, i);
    AtAdd(s.retired, k, s.drains[i].task, k);
    SoleDrain(s.drains, i);
    if list != [] {
      assert list == [list[0]] + list[1..];
      assert At(s.started, k) + list == At(s.started, k) + [list[0]] + list[1..];
      AtAdd(s.started, k, list[0], k);
      ReplaceDrain(s.drains, i, Drain(k, list[0], false), k);
    }
  }

  lemma ResumeKeepsMembers(s: State, i: nat)
    requires i < |s.drains| && ConnOk(s, s.drains[i].conn) && s.vars.cancelled == s.gone
    ensures MembersOk(ResumeDrain(s, i), s.drains[i].conn)
  {
    hide Minus, Awaited, ListOf, Draining, ResumeDrain, Add;
    var k := s.drains[i].conn;
    var list := Waiting(s, k);
    WaitingIsEnqueued(s, k);
    ResumeShape(s, i);
    if list != [] {
      HeadOnce(At(s.started, k), list, At(s.enqueued, k), s.gone);
      assert list[0] in list;
    }
  }

  lemma HeadOnce(a: seq<TaskId>, list: seq<TaskId>, all: seq<TaskId>, out: set<TaskId>)
    requires list != [] && Minus(all, out) == a + list && Distinct(all)
    ensures list[0] !in list[1..]
  {
    hide Minus;
    MinusDistinct(all, out);
    forall j | 0 <= j < |list| - 1
      ensures list[1..][j] != list[0]
    {
      assert (a + list)[|a|] == list[0] && (a + list)[|a| + 1 + j] == list[1..][j];
    }
  }

  lemma ResumeKeepsTasks(s: State, i: nat)
    requires Inv(s) && i < |s.drains| && s.drains[i].done
    ensures TasksOk(ResumeDrain(s, i))
  {
    hide FlowOk, ListOf, Draining, ResumeDrain, Add, At;
    var k := s.drains[i].conn;
    var list := Waiting(s, k);
    assert ConnOk(s, k);
    WaitingIsEnqueued(s, k);
    ResumeShape(s, i);
    var s' := ResumeDrain(s, i);
    DrainsDiffer(s, i);
    if list != [] {
      assert list[0] in list && s'.drains[i] == Drain(k, list[0], false);
      assert Runs(s', list[0]);
    }
    forall x | x in s.tasks && s.tasks[x].status == Running && Runs(s, x)
      ensures Runs(s', x)
    {
      var j :| 0 <= j < |s.drains| && s.drains[j].task == x && !s.drains[j].done;
      assert s'.drains[if list != [] || j < i then j else j - 1] == s.drains[j];
    }
    forall x | x in s.tasks && s.tasks[x].status == Queued
      ensures x in Waiting(s, s.tasks[x].conn)
    {}
  }

  lemma ResumeKeeps(s: State, e: Event)
    requires Inv(s) && e.Resume? && Enabled(s, e)
    ensures Inv(Apply(s, e))
  {
    hide FlowOk, MembersOk, TasksOk, ResumeDrain;
    TasksOkGone(s);
    var k := s.drains[e.i].conn;
    assert ConnOk(s, k);
    ResumeKeepsFlow(s, e.i);
    ResumeKeepsMembers(s, e.i);
    ResumeKeepsTasks(s, e.i);
    forall c: Conn
      ensures ConnOk(Apply(s, e), c)
    {
      assert ConnOk(s, c);
      if c != k {
        ResumeKeepsOther(s, e.i, c);
      }
    }
  }

  lemma StepKeepsInv(s: State, e: Event)
    requires Inv(s) && Enabled(s, e)
    ensures Inv(Apply(s, e))
  {
    hide Inv, Apply, Enabled;
    match e
    case Register(_, _, _) => RegisterKeeps(s, e);
    case Execute(_) => ExecuteKeeps(s, e);
    case Cancel(_) => CancelKeeps(s, e);
    case Finish(_, _) => FinishKeeps(s, e);
    case Resume(_) => ResumeKeeps(s, e);
  }

  lemma InitInv()
    ensures Inv(INIT)
  {}

  lemma {:induction false} RunKeepsInv(states: seq<State>, events: seq<Event>, i: nat)
    requires IsRun(states, events) && i < |states|
    ensures Inv(states[i])
  {
    hide Inv, Apply;
    if i == 0 {
      InitInv();
    } else {
      RunKeepsInv(states, events, i - 1);
      StepKeepsInv(states[i - 1], events[i - 1]);
    }
  }

  // What every run guarantees ------------------------------------------------------------------------

  /** Mutual exclusion: at most one task of a connection is between its start and its end. */
  lemma OneRunningPerConnection(states: seq<State>, events: seq<Event>, n: nat, x: TaskId, y: TaskId)
    requires IsRun(states, events) && n < |states|
    requires x in states[n].tasks && y in states[n].tasks && states[n].tasks[x].conn == states[n].tasks[y].conn
    requires states[n].tasks[x].status == Running && states[n].tasks[y].status == Running
    ensures x == y
  {
    hide ConnOk, Apply;
    RunKeepsInv(states, events, n);
    var s := states[n];
    assert Runs(s, x) && Runs(s, y);
    var i :| 0 <= i < |s.drains| && s.drains[i].task == x && !s.drains[i].done;
    var j :| 0 <= j < |s.drains| && s.drains[j].task == y && !s.drains[j].done;
    DrainsDiffer(s, i);
  }

  /** No lost wake-up: whenever something waits on a connection, its drain is suspended on a task
      and will look at the queue again. */
  lemma NoLostWakeUp(states: seq<State>, events: seq<Event>, n: nat, c: Conn)
    requires IsRun(states, events) && n < |states| && Waiting(states[n], c) != []
    ensures Draining(states[n].vars, c)
    ensures exists i :: 0 <= i < |states[n].drains| && states[n].drains[i].conn == c
  {
    hide Minus, ListOf, Draining, Distinct, Apply, TasksOk, MembersOk, Awaited;
    RunKeepsInv(states, events, n);
    assert ConnOk(states[n], c);
    var x := Awaited(states[n].drains, c)[0];
    AwaitedMember(states[n].drains, c, x);
  }

  /** First in, first out: on every connection the started tasks, then the waiting ones, are the
      enqueued ones in order without those cancelled while waiting. All counts follow. */
  lemma StartOrderIsEnqueueOrder(states: seq<State>, events: seq<Event>, n: nat, c: Conn)
    requires IsRun(states, events) && n < |states|
    ensures var s := states[n];
            Minus(At(s.enqueued, c), s.gone) == At(s.started, c) + Waiting(s, c)
            && Distinct(At(s.enqueued, c))
            && |At(s.enqueued, c)| == |Waiting(s, c)| + |At(s.started, c)|
                                      + |set x | x in At(s.enqueued, c) && x in s.gone|
  {
    hide ListOf, Draining, Apply, TasksOk, MembersOk, Awaited;
    RunKeepsInv(states, events, n);
    assert ConnOk(states[n], c);
    CountGone(At(states[n].enqueued, c), states[n].gone);
  }

  lemma {:induction false} CountGone(list: seq<TaskId>, out: set<TaskId>)
    requires Distinct(list)
    ensures |list| == |Minus(list, out)| + |set x | x in list && x in out|
    decreases |list|
  {
    var all := set x | x in list && x in out;
    if list == [] {
      assert all == {};
    } else {
      CountGone(list[1..], out);
      var rest := set x | x in list[1..] && x in out;
      assert list == [list[0]] + list[1..];
      if list[0] in out {
        assert all == rest + {list[0]} && list[0] !in rest;
      } else {
        assert all == rest;
      }
    }
  }

  /** With fresh ids the skip branch of the drain is never taken: nothing that waits is flagged. */
  lemma SkipNeverTaken(states: seq<State>, events: seq<Event>, n: nat, c: Conn)
    requires IsRun(states, events) && n < |states|
    ensures forall x :: x in Waiting(states[n], c) ==> x !in states[n].vars.cancelled
  {
    hide ListOf, Draining, Apply, Awaited, Minus, Distinct;
    RunKeepsInv(states, events, n);
    assert ConnOk(states[n], c);
    WaitingIsEnqueued(states[n], c);
  }

  /** Status and queue agree in every state: queued exactly while waiting, running only while some
      drain awaits the unfinished task, and a task cancelled while queued never started. */
  lemma StatusAgreesWithQueue(states: seq<State>, events: seq<Event>, n: nat, x: TaskId)
    requires IsRun(states, events) && n < |states| && x in states[n].tasks
    ensures var s, t := states[n], states[n].tasks[x];
            && (t.status == Queued <==> x in Waiting(s, t.conn))
            && (t.status == Running <==> Runs(s, x))
            && (x in s.gone ==> t.status == Cancelled && forall c: Conn :: x !in At(s.started, c))
  {
    hide ListOf, Draining, Apply, Awaited, Minus, Distinct, At;
    RunKeepsInv(states, events, n);
    var s := states[n];
    assert ConnOk(s, s.tasks[x].conn);
    if x in s.gone {
      forall c: Conn
        ensures x !in At(s.started, c)
      {
        assert ConnOk(s, c);
        MinusMembers(At(s.enqueued, c), s.gone);
        assert x in At(s.started, c) ==> x in At(s.started, c) + Waiting(s, c);
      }
    }
  }

  // Runs only grow -------------------------------------------------------------------------------------

  /** What one step, and so any stretch of a run, leaves in place. */
  ghost predicate Extends(s: State, s': State)
  {
    && (forall c: Conn :: At(s.enqueued, c) <= At(s'.enqueued, c))
    && (forall c: Conn :: At(s.retired, c) <= At(s'.retired, c))
    && s.gone <= s'.gone
    && (forall x :: x in s.tasks ==> x in s'.tasks && s.tasks[x].conn == s'.tasks[x].conn)
    && (forall x :: x in s.tasks && Terminal(s.tasks[x].status) ==> s'.tasks[x].status == s.tasks[x].status)
  }

  lemma ExecuteExtends(s: State, id: TaskId)
    requires Inv(s) && id in s.tasks && s.tasks[id].status == Pending
    ensures Extends(s, ExecuteTask(s, id))
  {
    hide ExecuteTask, ConnOk, At, Add;
    PendingIsNowhere(s, id);
    var k := s.tasks[id].conn;
    ConnBusy(s, k);
    ExecuteShape(s, id);
    forall c: Conn
      ensures At(s.enqueued, c) <= At(ExecuteTask(s, id).enqueued, c)
    {
      AtAdd(s.enqueued, k, id, c);
    }
  }

  lemma ResumeExtends(s: State, i: nat)
    requires Inv(s) && i < |s.drains|
    ensures Extends(s, ResumeDrain(s, i))
  {
    hide ListOf, Draining, Awaited, FlowOk, ResumeDrain, At, Add;
    var k := s.drains[i].conn;
    assert ConnOk(s, k);
    WaitingIsEnqueued(s, k);
    ResumeShape(s, i);
    forall c: Conn
      ensures At(s.retired, c) <= At(ResumeDrain(s, i).retired, c)
    {
      AtAdd(s.retired, k, s.drains[i].task, c);
    }
    assert Waiting(s, k) != [] ==> Waiting(s, k)[0] in Waiting(s, k);
  }

  lemma FinishExtends(s: State, i: nat, outcome: Outcome)
    requires TasksOk(s) && i < |s.drains| && !s.drains[i].done && s.drains[i].task in s.tasks
    ensures Extends(s, FinishRun(s, i, outcome))
  {
    hide At;
  }

  lemma CancelExtends(s: State, id: TaskId)
    ensures Extends(s, CancelTask(s, id))
  {
    hide At, CancelQueued;
  }

  lemma StepExtends(s: State, e: Event)
    requires Inv(s) && Enabled(s, e)
    ensures Extends(s, Apply(s, e))
  {
    hide ConnOk, TasksOk, ExecuteTask, CancelTask, FinishRun, ResumeDrain, At;
    match e
    case Register(_, _, _) =>
    case Execute(id) => ExecuteExtends(s, id);
    case Cancel(id) => CancelExtends(s, id);
    case Finish(i, outcome) => FinishExtends(s, i, outcome);
    case Resume(i) => ResumeExtends(s, i);
  }

  lemma {:induction false} RunExtends(states: seq<State>, events: seq<Event>, m: nat, n: nat)
    requires IsRun(states, events) && m <= n < |states|
    ensures Extends(states[m], states[n])
    decreases n - m
  {
    hide Inv, Apply, At;
    if m < n {
      RunExtends(states, events, m, n - 1);
      RunKeepsInv(states, events, n - 1);
      StepExtends(states[n - 1], events[n - 1]);
    }
  }

  /** A task that has succeeded, failed or been cancelled keeps that status for ever. */
  lemma TerminalStatusIsFinal(states: seq<State>, events: seq<Event>, m: nat, n: nat, x: TaskId)
    requires IsRun(states, events) && m <= n < |states|
    requires x in states[m].tasks && Terminal(states[m].tasks[x].status)
    ensures x in states[n].tasks && states[n].tasks[x].status == states[m].tasks[x].status
  {
    hide IsRun, At;
    RunExtends(states, events, m, n);
  }

  // How tasks end -------------------------------------------------------------------------------------

  /** Step `m` is the last segment of this task's run, with this outcome. */
  predicate FinishesAt(states: seq<State>, events: seq<Event>, m: nat, x: TaskId, outcome: Outcome)
    requires m < |states| && m < |events|
  {
    && events[m].Finish? && events[m].outcome == outcome
    && events[m].i < |states[m].drains| && states[m].drains[events[m].i].task == x
  }

  /** A batch whose cancel flag is up. */
  predicate FlaggedBatch(s: State, x: TaskId)
  {
    x in s.tasks && s.tasks[x].kind == Batch && x in s.flags
  }

  predicate SucceedsAt(states: seq<State>, events: seq<Event>, m: nat, x: TaskId)
    requires m < |states| && m < |events|
  {
    FinishesAt(states, events, m, x, Fine) && !FlaggedBatch(states[m], x)
  }

  predicate FailsAt(states: seq<State>, events: seq<Event>, m: nat, x: TaskId)
    requires m < |states| && m < |events|
  {
    FinishesAt(states, events, m, x, Threw) || (FinishesAt(states, events, m, x, Faulty) && !FlaggedBatch(states[m], x))
  }

  predicate CancelledAt(states: seq<State>, events: seq<Event>, m: nat, x: TaskId)
    requires m < |states| && m < |events|
  {
    || (events[m] == Cancel(x) && x in states[m].tasks && states[m].tasks[x].status == Queued)
    || ((FinishesAt(states, events, m, x, Fine) || FinishesAt(states, events, m, x, Faulty)) && FlaggedBatch(states[m], x))
  }

  /** What one step does to one task's status, end by end. */
  lemma StepEnds(s: State, e: Event, x: TaskId)
    requires Inv(s) && Enabled(s, e)
    ensures var s', run := Apply(s, e), [s];
            && (x in s.tasks ==> x in s'.tasks && s'.tasks[x].kind == s.tasks[x].kind)
            && (x in s'.tasks && s'.tasks[x].status == Succeeded <==>
                  (x in s.tasks && s.tasks[x].status == Succeeded) || SucceedsAt(run, [e], 0, x))
            && (x in s'.tasks && s'.tasks[x].status == Failed <==>
                  (x in s.tasks && s.tasks[x].status == Failed) || FailsAt(run, [e], 0, x))
            && (x in s'.tasks && s'.tasks[x].status == Cancelled <==>
                  (x in s.tasks && s.tasks[x].status == Cancelled) || CancelledAt(run, [e], 0, x))
  {
    hide ConnOk, ExecuteTask, ResumeDrain, Minus, At, Add, Awaited, CancelQueued, DrainOn, Waiting;
    StepExtends(s, e);
    match e
    case Register(_, _, _) =>
    case Execute(id) => ExecuteEndsNothing(s, id, x);
    case Cancel(id) => CancelEnds(s, id, x);
    case Finish(_, _) =>
    case Resume(i) => ResumeEndsNothing(s, i, x);
  }

  lemma ExecuteEndsNothing(s: State, id: TaskId, x: TaskId)
    requires Inv(s) && id in s.tasks && s.tasks[id].status == Pending
    ensures x in s.tasks <==> x in ExecuteTask(s, id).tasks
    ensures x in s.tasks ==> ExecuteTask(s, id).tasks[x].kind == s.tasks[x].kind
    ensures x in s.tasks ==>
              ExecuteTask(s, id).tasks[x].status == s.tasks[x].status
              || (!Terminal(s.tasks[x].status) && !Terminal(ExecuteTask(s, id).tasks[x].status))
  {
    hide ExecuteTask, ConnOk, At, Add;
    PendingIsNowhere(s, id);
    ConnBusy(s, s.tasks[id].conn);
    ExecuteShape(s, id);
  }

  lemma CancelEnds(s: State, id: TaskId, x: TaskId)
    requires Inv(s)
    ensures var s' := CancelTask(s, id);
            && s'.tasks.Keys == s.tasks.Keys
            && (x in s.tasks ==> s'.tasks[x].kind == s.tasks[x].kind)
            && (x in s.tasks ==> s'.tasks[x].status ==
                                 if x == id && s.tasks[x].status == Queued then Cancelled else s.tasks[x].status)
  {
    hide ConnOk, Minus, At, Awaited;
    if id in s.tasks && s.tasks[id].status == Queued {
      QueuedIsWaiting(s, id);
    }
  }

  lemma ResumeEndsNothing(s: State, i: nat, x: TaskId)
    requires Inv(s) && i < |s.drains|
    ensures x in s.tasks <==> x in ResumeDrain(s, i).tasks
    ensures x in s.tasks ==> ResumeDrain(s, i).tasks[x].kind == s.tasks[x].kind
    ensures x in s.tasks ==>
              ResumeDrain(s, i).tasks[x].status == s.tasks[x].status
              || (!Terminal(s.tasks[x].status) && !Terminal(ResumeDrain(s, i).tasks[x].status))
  {
    hide ResumeDrain, Minus, At, Add, Awaited, FlowOk, DrainOn, Waiting;
    var c := s.drains[i].conn;
    assert ConnOk(s, c);
    WaitingIsEnqueued(s, c);
    ResumeShape(s, i);
  }

  /** How every task of every run ends. It has succeeded iff its run went fine and it was no flagged
      batch when it finished; failed iff its run threw, or went wrong without a flagged batch;
      cancelled iff it was cancelled while waiting, or is a flagged batch whose run did not throw. */
  lemma {:induction false} EndsAsItsRunSays(states: seq<State>, events: seq<Event>, n: nat, x: TaskId)
    requires IsRun(states, events) && n < |states|
    ensures x in states[n].tasks && states[n].tasks[x].status == Succeeded <==>
              exists m :: 0 <= m < n && SucceedsAt(states, events, m, x)
    ensures x in states[n].tasks && states[n].tasks[x].status == Failed <==>
              exists m :: 0 <= m < n && FailsAt(states, events, m, x)
    ensures x in states[n].tasks && states[n].tasks[x].status == Cancelled <==>
              exists m :: 0 <= m < n && CancelledAt(states, events, m, x)
    decreases n
  {
    hide Inv, Apply, Enabled, SucceedsAt, FailsAt, CancelledAt;
    if n > 0 {
      EndsAsItsRunSays(states, events, n - 1, x);
      RunKeepsInv(states, events, n - 1);
      StepEnds(states[n - 1], events[n - 1], x);
      OneStepEnds(states, events, n - 1, x);
    }
  }

  lemma OneStepEnds(states: seq<State>, events: seq<Event>, m: nat, x: TaskId)
    requires m < |states| && m < |events|
    ensures SucceedsAt(states, events, m, x) == SucceedsAt([states[m]], [events[m]], 0, x)
    ensures FailsAt(states, events, m, x) == FailsAt([states[m]], [events[m]], 0, x)
    ensures CancelledAt(states, events, m, x) == CancelledAt([states[m]], [events[m]], 0, x)
  {}

  /** A task keeps the connection and the kind it was registered with. */
  lemma {:induction false} RegisteredAs(states: seq<State>, events: seq<Event>, n: nat, x: TaskId)
    requires IsRun(states, events) && n < |states| && x in states[n].tasks
    ensures exists m :: 0 <= m < n && events[m] == Register(x, states[n].tasks[x].conn, states[n].tasks[x].kind)
    decreases n
  {
    hide Inv, Apply, Enabled;
    if n == 0 {
      InitHasNoTask(states, events, x);
      assert false;
    } else {
      RunKeepsInv(states, events, n - 1);
      if x in states[n - 1].tasks {
        RegisteredAs(states, events, n - 1, x);
        StepExtends(states[n - 1], events[n - 1]);
        StepEnds(states[n - 1], events[n - 1], x);
      } else {
        OnlyRegisterAdds(states[n - 1], events[n - 1], x);
      }
    }
  }

  lemma InitHasNoTask(states: seq<State>, events: seq<Event>, x: TaskId)
    requires IsRun(states, events)
    ensures x !in states[0].tasks
  {}

  lemma OnlyRegisterAdds(s: State, e: Event, x: TaskId)
    requires Inv(s) && Enabled(s, e) && x !in s.tasks && x in Apply(s, e).tasks
    ensures e == Register(x, Apply(s, e).tasks[x].conn, Apply(s, e).tasks[x].kind)
  {
    hide ConnOk, ExecuteTask, ResumeDrain, Minus, At, Add, Awaited, CancelQueued, DrainOn, Waiting;
    match e
    case Register(_, _, _) =>
    case Execute(id) => ExecuteEndsNothing(s, id, x);
    case Cancel(id) => CancelEnds(s, id, x);
    case Finish(_, _) =>
    case Resume(i) => ResumeEndsNothing(s, i, x);
  }

  /** This step puts the cancel flag of `x` up: a cancellation that finds it not waiting. */
  predicate Raises(s: State, e: Event, x: TaskId)
  {
    e == Cancel(x) && !(x in s.tasks && s.tasks[x].status == Queued)
  }

  /** This step takes it down: the end of a batch's run. */
  predicate Lowers(s: State, e: Event, x: TaskId)
  {
    e.Finish? && e.i < |s.drains| && s.drains[e.i].task == x && x in s.tasks && s.tasks[x].kind == Batch
  }

  /** The flag is up iff some cancellation raised it and no end of a batch's run has lowered it since. */
  lemma {:induction false} FlagMeaning(states: seq<State>, events: seq<Event>, n: nat, x: TaskId)
    requires IsRun(states, events) && n < |states|
    ensures x in states[n].flags <==> exists m :: 0 <= m < n && RaisedBy(states, events, n, m, x)
    decreases n
  {
    hide Inv, Apply, Enabled, Raises, Lowers;
    if n > 0 {
      FlagMeaning(states, events, n - 1, x);
      RunKeepsInv(states, events, n - 1);
      StepFlags(states[n - 1], events[n - 1], x);
      RaisedStep(states, events, n, x);
    }
  }

  predicate RaisedBy(states: seq<State>, events: seq<Event>, n: nat, m: nat, x: TaskId)
    requires n <= |states| && n <= |events|
  {
    m < n && Raises(states[m], events[m], x) && forall k :: m < k < n ==> !Lowers(states[k], events[k], x)
  }

  lemma RaisedStep(states: seq<State>, events: seq<Event>, n: nat, x: TaskId)
    requires 0 < n <= |states| && n <= |events|
    ensures var p := n - 1;
            (exists m :: 0 <= m < n && RaisedBy(states, events, n, m, x)) <==>
              Raises(states[p], events[p], x)
              || ((exists m :: 0 <= m < p && RaisedBy(states, events, p, m, x)) && !Lowers(states[p], events[p], x))
  {
    hide Raises, Lowers;
    var p := n - 1;
    if m :| 0 <= m < n && RaisedBy(states, events, n, m, x) {
      assert m < p ==> RaisedBy(states, events, p, m, x);
    }
    if Raises(states[p], events[p], x) {
      assert RaisedBy(states, events, n, p, x);
    }
    if m :| 0 <= m < p && RaisedBy(states, events, p, m, x) {
      assert !Lowers(states[p], events[p], x) ==> RaisedBy(states, events, n, m, x);
    }
  }

  lemma StepFlags(s: State, e: Event, x: TaskId)
    requires Inv(s) && Enabled(s, e)
    ensures x in Apply(s, e).flags <==> Raises(s, e, x) || (x in s.flags && !Lowers(s, e, x))
  {
    hide ConnOk, Minus, At, Add, Awaited, DrainOn, Enqueued;
    if e.Cancel? && e.id in s.tasks && s.tasks[e.id].status == Queued {
      QueuedIsWaiting(s, e.id);
    }
  }

  // Positions ----------------------------------------------------------------------------------------

  /** The tasks ahead of a new entry: the one the drain awaits, then those waiting. */
  function Ahead(s: State, c: Conn): seq<TaskId> { Awaited(s.drains, c) + Waiting(s, c) }

  /** The position `enqueueTask` returns counts the tasks ahead. */
  lemma PositionCountsAhead(states: seq<State>, events: seq<Event>, n: nat, c: Conn)
    requires IsRun(states, events) && n < |states|
    ensures Position(states[n].vars, c) == |Ahead(states[n], c)|
  {
    hide Minus, Distinct, Apply, TasksOk, MembersOk, Awaited;
    RunKeepsInv(states, events, n);
    assert ConnOk(states[n], c);
  }

  lemma ExecuteAppends(s: State, id: TaskId)
    requires Inv(s) && id in s.tasks && s.tasks[id].status == Pending
    ensures At(ExecuteTask(s, id).enqueued, s.tasks[id].conn) == At(s.enqueued, s.tasks[id].conn) + [id]
  {
    hide ExecuteTask, ConnOk;
    PendingIsNowhere(s, id);
    ConnBusy(s, s.tasks[id].conn);
    ExecuteShape(s, id);
  }

  /** Sequence reasoning behind the position theorem: all that was ahead and is not cancelled comes
      first in the line of started and waiting tasks, and the new entry comes right after it. */
  lemma LineAfterEnqueue(was: State, now: State, c: Conn, id: TaskId)
    requires ConnOk(was, c) && ConnOk(now, c) && was.gone <= now.gone && id !in now.gone
    requires At(was.enqueued, c) + [id] <= At(now.enqueued, c) && At(was.retired, c) <= At(now.retired, c)
    ensures var line := At(now.started, c) + Waiting(now, c);
            var ahead := Minus(Ahead(was, c), now.gone);
            At(was.retired, c) + ahead + [id] <= line
  {
    hide ListOf, Draining, MembersOk, Minus, Distinct;
    var e, e' := At(was.enqueued, c), At(now.enqueued, c);
    var tail := e'[|e| + 1..];
    assert e' == e + [id] + tail;
    MinusConcat(e + [id], tail, now.gone);
    MinusConcat(e, [id], now.gone);
    MinusNone([id], now.gone);
    MinusTwice(e, was.gone, now.gone);
    assert Minus(e, was.gone) == At(was.retired, c) + Ahead(was, c);
    MinusConcat(At(was.retired, c), Ahead(was, c), now.gone);
    MinusMembers(e', now.gone);
    forall x | x in At(was.retired, c)
      ensures x !in now.gone
    {
      assert x in At(now.retired, c);
      assert x in At(now.started, c) + Waiting(now, c);
    }
    MinusNone(At(was.retired, c), now.gone);
  }

  /** A prefix of the line that ends in a waiting task covers what is awaited and what waits before it. */
  lemma PrefixOfWaiting(now: State, c: Conn, k: nat)
    requires ConnOk(now, c) && |At(now.started, c)| <= k < |At(now.started, c)| + |Waiting(now, c)|
    ensures (At(now.started, c) + Waiting(now, c))[..k]
            == At(now.retired, c) + Awaited(now.drains, c) + Waiting(now, c)[..k - |At(now.started, c)|]
  {
    hide ListOf, Draining, MembersOk, Minus, Distinct, Awaited;
  }

  /** The position is exact. At any later moment, while the entry waits, the tasks that were ahead
      and were not cancelled are exactly those retired since, the one being awaited and those
      waiting in front of it, in this order; once it has started, all of them have been retired,
      and it stands right behind them in the start order, so nothing enqueued later came first. */
  lemma PositionIsExact(states: seq<State>, events: seq<Event>, m: nat, n: nat, id: TaskId)
    requires IsRun(states, events) && m < n < |states| && m < |events| && events[m] == Execute(id)
    requires id !in states[n].gone
    ensures var c := states[m].tasks[id].conn;
            var was, now := states[m], states[n];
            var ahead := Minus(Ahead(was, c), now.gone);
            var r := |At(was.retired, c)|;
            && (id in Waiting(now, c) ==>
                  exists p :: 0 <= p < |Waiting(now, c)| && Waiting(now, c)[p] == id
                    && At(was.retired, c) + ahead == At(now.retired, c) + Awaited(now.drains, c) + Waiting(now, c)[..p])
            && (id in At(now.started, c) ==>
                  At(was.retired, c) + ahead <= At(now.retired, c)
                  && r + |ahead| < |At(now.started, c)| && At(now.started, c)[r + |ahead|] == id)
            && (id in Waiting(now, c) || id in At(now.started, c))
  {
    hide Inv, Apply, Minus, Distinct, ListOf, Draining, Awaited, At;
    var c := states[m].tasks[id].conn;
    RunKeepsInv(states, events, m);
    RunKeepsInv(states, events, n);
    PositionFromStates(states, events, m, n, id, c);
  }

  lemma PositionFromStates(states: seq<State>, events: seq<Event>, m: nat, n: nat, id: TaskId, c: Conn)
    requires IsRun(states, events) && m < n < |states| && m < |events| && events[m] == Execute(id)
    requires Inv(states[m]) && Inv(states[n]) && id in states[m].tasks && states[m].tasks[id].conn == c
    requires id !in states[n].gone
    ensures var was, now := states[m], states[n];
            var ahead := Minus(Ahead(was, c), now.gone);
            var r := |At(was.retired, c)|;
            && (id in Waiting(now, c) ==>
                  exists p :: 0 <= p < |Waiting(now, c)| && Waiting(now, c)[p] == id
                    && At(was.retired, c) + ahead == At(now.retired, c) + Awaited(now.drains, c) + Waiting(now, c)[..p])
            && (id in At(now.started, c) ==>
                  At(was.retired, c) + ahead <= At(now.retired, c)
                  && r + |ahead| < |At(now.started, c)| && At(now.started, c)[r + |ahead|] == id)
            && (id in Waiting(now, c) || id in At(now.started, c))
  {
    hide Minus, ListOf, Draining, Awaited, TasksOk, MembersOk, ExecuteTask;
    var was, now := states[m], states[n];
    assert ConnOk(was, c) && ConnOk(now, c);
    RunExtends(states, events, m, n);
    RunExtends(states, events, m + 1, n);
    ExecuteAppends(was, id);
    LineAfterEnqueue(was, now, c, id);
    var ahead := Minus(Ahead(was, c), now.gone);
    var line := At(now.started, c) + Waiting(now, c);
    var k := |At(was.retired, c)| + |ahead|;
    assert line[k] == id && line[..k] == At(was.retired, c) + ahead;
    MinusDistinct(At(now.enqueued, c), now.gone);
    if k < |At(now.started, c)| {
      assert At(now.started, c)[k] == id;
      forall p | 0 <= p < |Waiting(now, c)|
        ensures Waiting(now, c)[p] != id
      {
        assert line[|At(now.started, c)| + p] == Waiting(now, c)[p];
      }
      assert At(now.started, c)[..k] == line[..k];
    } else {
      var p := k - |At(now.started, c)|;
      assert Waiting(now, c)[p] == id;
      PrefixOfWaiting(now, c, k);
      forall q | 0 <= q < |At(now.started, c)|
        ensures At(now.started, c)[q] != id
      {
        assert line[q] == At(now.started, c)[q];
      }
    }
  }
}

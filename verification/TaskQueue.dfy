/** The per-connection task queue: module-level variables changed by enqueue, cancel and the drain
    loop. `drain` is cut at its await: `EnqueueTask` runs it up to the first started task, `Resume`
    runs it on from a finished one. */
module TaskQueue {
  import opened Text

  type Conn = string
  type TaskId = string

  datatype Vars = Vars(queues: map<Conn, seq<TaskId>>, draining: map<Conn, bool>, cancelled: set<TaskId>)

  const EMPTY := Vars(map[], map[], {})

  function ListOf(v: Vars, c: Conn): seq<TaskId> { if c in v.queues then v.queues[c] else [] }

  predicate Draining(v: Vars, c: Conn) { c in v.draining && v.draining[c] }

  /** What the drain loop takes from a list: it drops flagged entries, clearing their flags, up to
      the first entry it can start. */
  datatype Taken = Taken(rest: seq<TaskId>, cancelled: set<TaskId>, next: Option<TaskId>)

  function Take(list: seq<TaskId>, cancelled: set<TaskId>): Taken
  {
    if list == [] then Taken([], cancelled, None)
    else if list[0] in cancelled then Take(list[1..], cancelled - {list[0]})
    else Taken(list[1..], cancelled, Some(list[0]))
  }

  /** The drain loop from its head to the next await or to its end. */
  function DrainOn(v: Vars, c: Conn): (Vars, Option<TaskId>)
  {
    var t := Take(ListOf(v, c), v.cancelled);
    if t.next.Some? then (v.(queues := v.queues[c := t.rest], cancelled := t.cancelled), t.next)
    else (v.(queues := v.queues - {c}, draining := v.draining[c := false], cancelled := t.cancelled), None)
  }

  function Position(v: Vars, c: Conn): nat { |ListOf(v, c)| + if Draining(v, c) then 1 else 0 }

  function Enqueued(v: Vars, c: Conn, id: TaskId): (Vars, Option<TaskId>)
  {
    var v1 := v.(queues := v.queues[c := ListOf(v, c) + [id]]);
    if Draining(v, c) then (v1, None) else DrainOn(v1.(draining := v1.draining[c := true]), c)
  }

  function Without(list: seq<TaskId>, id: TaskId): seq<TaskId>
  {
    if list == [] then [] else if list[0] == id then list[1..] else [list[0]] + Without(list[1..], id)
  }

  function CancelQueued(v: Vars, c: Conn, id: TaskId): (Vars, bool)
  {
    if id in ListOf(v, c)
    then (v.(queues := v.queues[c := Without(ListOf(v, c), id)], cancelled := v.cancelled + {id}), true)
    else (v, false)
  }

  /** The first index of `id`, or -1. */
  function FindIndex(list: seq<TaskId>, id: TaskId): (i: int)
    ensures i == -1 <==> id !in list
    ensures i != -1 ==> 0 <= i < |list| && list[i] == id && forall k :: 0 <= k < i ==> list[k] != id
  {
    if list == [] then -1
    else if list[0] == id then 0
    else
      var i := FindIndex(list[1..], id);
      if i == -1 then -1 else
        assert forall k :: 0 < k < i + 1 ==> list[k] == list[1..][k - 1];
        i + 1
  }

  lemma {:induction false} SpliceIsWithout(list: seq<TaskId>, id: TaskId, i: nat)
    requires i < |list| && list[i] == id && forall k :: 0 <= k < i ==> list[k] != id
    ensures Without(list, id) == list[..i] + list[i + 1..]
    decreases |list|
  {
    if i > 0 {
      SpliceIsWithout(list[1..], id, i - 1);
      assert list == [list[0]] + list[1..];
    }
  }

  class Queue {
    var queues: map<Conn, seq<TaskId>>
    var draining: map<Conn, bool>
    var cancelledQueued: set<TaskId>

    ghost function View(): Vars reads this { Vars(queues, draining, cancelledQueued) }

    constructor ()
      ensures View() == EMPTY
    {
      queues, draining, cancelledQueued := map[], map[], {};
    }

    /** The drain loop up to the next start or its end; `next` is the task whose `onStart` and
        `run` are called. */
    method DrainLoop(c: Conn) returns (next: Option<TaskId>)
      modifies this
      ensures (View(), next) == DrainOn(old(View()), c)
    {
      var list := if c in queues then queues[c] else [];
      ghost var all := Take(list, cancelledQueued);
      while list != []
        invariant Take(list, cancelledQueued) == all
        invariant draining == old(draining)
        invariant queues.Keys + {c} == old(queues).Keys + {c}
        invariant forall k :: k in queues && k != c ==> queues[k] == old(queues)[k]
        decreases |list|
      {
        next := Some(list[0]);
        list := list[1..];
        queues := queues[c := list];
        if next.value in cancelledQueued {
          cancelledQueued := cancelledQueued - {next.value};
        } else {
          assert queues == old(queues)[c := list];
          return;
        }
      }
      queues := queues - {c};
      assert queues == old(queues) - {c};
      draining := draining[c := false];
      next := None;
    }

    method EnqueueTask(c: Conn, id: TaskId) returns (positionAhead: nat, started: Option<TaskId>)
      modifies this
      ensures (View(), started) == Enqueued(old(View()), c, id)
      ensures positionAhead == Position(old(View()), c)
    {
      var list := if c in queues then queues[c] else [];
      var busy := c in draining && draining[c];
      positionAhead := |list| + if busy then 1 else 0;
      queues := queues[c := list + [id]];
      started := None;
      if !busy {
        draining := draining[c := true];
        started := DrainLoop(c);
      }
    }

    /** The drain's continuation after `await next.run()`. */
    method Resume(c: Conn) returns (started: Option<TaskId>)
      modifies this
      ensures (View(), started) == DrainOn(old(View()), c)
    {
      started := DrainLoop(c);
    }

    method CancelQueuedTask(c: Conn, id: TaskId) returns (removed: bool)
      modifies this
      ensures (View(), removed) == CancelQueued(old(View()), c, id)
    {
      var list := if c in queues then queues[c] else [];
      var i := FindIndex(list, id);
      removed := i >= 0;
      if removed {
        SpliceIsWithout(list, id, i);
        queues := queues[c := list[..i] + list[i + 1..]];
        cancelledQueued := cancelledQueued + {id};
      }
    }
  }

  /** The skip branch, in any state: a flagged head is dropped with its flag, and the drain does what it
      would have done without it. */
  lemma FlaggedHeadIsDropped(v: Vars, c: Conn)
    requires ListOf(v, c) != [] && ListOf(v, c)[0] in v.cancelled
    ensures var head := ListOf(v, c)[0];
            var rest := v.(queues := v.queues[c := ListOf(v, c)[1..]], cancelled := v.cancelled - {head});
            var (after, next) := DrainOn(v, c);
            var (after', next') := DrainOn(rest, c);
            next == next' && after.cancelled == after'.cancelled && after.draining == after'.draining
            && forall k :: ListOf(after, k) == ListOf(after', k)
  {}

  /** What the drain starts was not flagged, and everything in front of it was. */
  lemma {:induction false} StartsFirstUnflagged(list: seq<TaskId>, cancelled: set<TaskId>)
    ensures var t := Take(list, cancelled);
            && (t.next.Some? ==> exists k :: 0 <= k < |list| && list[k] == t.next.value && t.rest == list[k + 1..]
                                             && forall j :: 0 <= j < k ==> list[j] in cancelled)
            && (t.next == None ==> t.rest == [] && forall j :: 0 <= j < |list| ==> list[j] in cancelled)
    decreases |list|
  {
    if list != [] && list[0] in cancelled {
      StartsFirstUnflagged(list[1..], cancelled - {list[0]});
      var t := Take(list[1..], cancelled - {list[0]});
      if t.next.Some? {
        var k :| 0 <= k < |list[1..]| && list[1..][k] == t.next.value && t.rest == list[1..][k + 1..]
                 && forall j :: 0 <= j < k ==> list[1..][j] in cancelled - {list[0]};
        assert list[k + 1] == t.next.value && t.rest == list[k + 2..];
        assert forall j :: 0 < j < k + 1 ==> list[j] == list[1..][j - 1];
      } else {
        assert forall j :: 0 < j < |list| ==> list[j] == list[1..][j - 1];
      }
    } else if list != [] {
      assert list[0] == Take(list, cancelled).next.value;
    }
  }
}

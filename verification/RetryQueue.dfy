/** The durable retry queue behind search-index sync and notifications: attempts, exponential
    backoff and the dead-letter threshold, run by a single worker. Each event is one transaction. */
module RetryQueue {
  import opened Text

  type Id = string

  datatype Status = Pending | Retry | Done | DeadLetter

  datatype Item = Item(status: Status, attempts: nat, nextRetryAt: int)

  const MAX_ATTEMPTS := 5

  function Power5(n: nat): nat { if n == 0 then 1 else 5 * Power5(n - 1) }

  function NewItem(now: int): Item { Item(Pending, 0, now) }

  predicate Live(it: Item) { it.status == Pending || it.status == Retry }

  predicate Due(it: Item, now: int) { Live(it) && it.nextRetryAt <= now }

  function Succeeded(it: Item): Item { it.(status := Done) }

  /** A failed attempt, counted from the attempts the batch read. */
  function Failed(it: Item, seen: nat, t: int): Item
  {
    var attempts := seen + 1;
    if attempts >= MAX_ATTEMPTS then it.(status := DeadLetter, attempts := attempts)
    else it.(status := Retry, attempts := attempts, nextRetryAt := t + Power5(attempts) * 1000)
  }

  function Processed(it: Item, seen: nat, ok: bool, t: int): Item
  {
    if ok then Succeeded(it) else Failed(it, seen, t)
  }

  /** A failure, by fields: the k-th one puts the item off by exactly 5^k seconds from that moment, the
      fifth gives it up; a success ends it. */
  lemma ProcessedByFields(it: Item, ok: bool, t: int)
    ensures var after := Processed(it, it.attempts, ok, t);
            && (ok ==> after == Item(Done, it.attempts, it.nextRetryAt))
            && (!ok && it.attempts == 0 ==> after == Item(Retry, 1, t + 5_000))
            && (!ok && it.attempts == 1 ==> after == Item(Retry, 2, t + 25_000))
            && (!ok && it.attempts == 2 ==> after == Item(Retry, 3, t + 125_000))
            && (!ok && it.attempts == 3 ==> after == Item(Retry, 4, t + 625_000))
            && (!ok && it.attempts >= 4 ==> after == Item(DeadLetter, it.attempts + 1, it.nextRetryAt))
  {
    assert Power5(0) == 1 && Power5(1) == 5 && Power5(2) == 25 && Power5(3) == 125 && Power5(4) == 625;
  }

  // The batch loop -------------------------------------------------------------------------------

  datatype Seen = Seen(id: Id, attempts: nat)

  function ProcessAll(rows: map<Id, Item>, batch: seq<Seen>, ok: seq<bool>, times: seq<int>)
    : (after: map<Id, Item>)
    requires |ok| == |times| == |batch| && forall k :: 0 <= k < |batch| ==> batch[k].id in rows
    ensures after.Keys == rows.Keys
    decreases |batch|
  {
    if batch == [] then rows
    else
      var n := |batch| - 1;
      var before := ProcessAll(rows, batch[..n], ok[..n], times[..n]);
      var b := batch[n];
      before[b.id := Processed(before[b.id], b.attempts, ok[n], times[n])]
  }

  /** In a batch of distinct items each row is updated from exactly its own result; the rest stay. */
  lemma {:induction false} ProcessAllMeaning(rows: map<Id, Item>, batch: seq<Seen>, ok: seq<bool>, times: seq<int>)
    requires |ok| == |times| == |batch| && forall k :: 0 <= k < |batch| ==> batch[k].id in rows
    requires forall i, j :: 0 <= i < j < |batch| ==> batch[i].id != batch[j].id
    ensures var after := ProcessAll(rows, batch, ok, times);
            after.Keys == rows.Keys
            && (forall k :: 0 <= k < |batch| ==>
                  after[batch[k].id] == Processed(rows[batch[k].id], batch[k].attempts, ok[k], times[k]))
            && forall id :: id in rows && (forall k :: 0 <= k < |batch| ==> batch[k].id != id) ==> after[id] == rows[id]
    decreases |batch|
  {
    hide Processed;
    if batch != [] {
      var n := |batch| - 1;
      ProcessAllMeaning(rows, batch[..n], ok[..n], times[..n]);
      var before := ProcessAll(rows, batch[..n], ok[..n], times[..n]);
      assert before[batch[n].id] == rows[batch[n].id] by {
        assert forall k :: 0 <= k < n ==> batch[..n][k].id != batch[n].id;
      }
      forall k | 0 <= k < n
        ensures before[batch[k].id] == Processed(rows[batch[k].id], batch[k].attempts, ok[k], times[k])
      {
        assert batch[..n][k] == batch[k] && ok[..n][k] == ok[k] && times[..n][k] == times[k];
      }
    }
  }

  class NotificationQueue {
    var rows: map<Id, Item>

    constructor ()
      ensures rows == map[]
    {
      rows := map[];
    }

    method Enqueue(id: Id, now: int)
      requires id !in rows
      modifies this
      ensures rows == old(rows)[id := NewItem(now)]
    {
      rows := rows[id := NewItem(now)];
    }

    /** `SELECT ... WHERE status IN ('pending', 'retry') AND next_retry_at <= ? LIMIT ?`. */
    method SelectDue(now: int, limit: nat) returns (batch: seq<Seen>)
      ensures IsDueBatch(rows, now, limit, batch)
      ensures forall k :: 0 <= k < |batch| ==>
                batch[k].id in rows && rows[batch[k].id].status in {Pending, Retry} && rows[batch[k].id].nextRetryAt <= now
      ensures |batch| < limit ==>
                forall id :: id in rows && rows[id].status in {Pending, Retry} && rows[id].nextRetryAt <= now ==>
                  Seen(id, rows[id].attempts) in batch
    {
      batch := [];
      var todo := rows.Keys;
      while todo != {} && |batch| < limit
        invariant todo <= rows.Keys && |batch| <= limit
        invariant forall k :: 0 <= k < |batch| ==>
                    batch[k].id in rows && batch[k].id !in todo && Due(rows[batch[k].id], now)
                    && batch[k].attempts == rows[batch[k].id].attempts
        invariant forall i, j :: 0 <= i < j < |batch| ==> batch[i].id != batch[j].id
        invariant forall id :: id in rows && id !in todo && Due(rows[id], now) ==> Seen(id, rows[id].attempts) in batch
        decreases |todo|
      {
        var id :| id in todo;
        todo := todo - {id};
        if Due(rows[id], now) {
          batch := batch + [Seen(id, rows[id].attempts)];
        }
      }
    }

    /** The loop of `processNextBatch`; `ok` and `times` are what the sender and the clock say. */
    method ProcessBatch(batch: seq<Seen>, ok: seq<bool>, times: seq<int>)
      requires |ok| == |times| == |batch| && forall k :: 0 <= k < |batch| ==> batch[k].id in rows
      modifies this
      ensures rows == ProcessAll(old(rows), batch, ok, times)
    {
      for k := 0 to |batch|
        invariant rows == ProcessAll(old(rows), batch[..k], ok[..k], times[..k])
      {
        assert batch[..k + 1][..k] == batch[..k] && ok[..k + 1][..k] == ok[..k] && times[..k + 1][..k] == times[..k];
        var item := batch[k];
        var row := rows[item.id];
        if ok[k] {
          rows := rows[item.id := row.(status := Done)];
        } else {
          var attempts := item.attempts + 1;
          if attempts >= 5 {
            rows := rows[item.id := row.(status := DeadLetter, attempts := attempts)];
          } else {
            rows := rows[item.id := row.(status := Retry, attempts := attempts,
                                         nextRetryAt := times[k] + Power5(attempts) * 1000)];
          }
        }
      }
      assert batch[..|batch|] == batch && ok[..|batch|] == ok && times[..|batch|] == times;
    }
  }

  /** Distinct due rows with the attempts they had; all of them unless the limit cuts off. */
  ghost predicate IsDueBatch(rows: map<Id, Item>, now: int, limit: nat, batch: seq<Seen>)
  {
    && |batch| <= limit
    && (forall k :: 0 <= k < |batch| ==>
          batch[k].id in rows && Due(rows[batch[k].id], now) && batch[k].attempts == rows[batch[k].id].attempts)
    && (forall i, j :: 0 <= i < j < |batch| ==> batch[i].id != batch[j].id)
    && (|batch| < limit ==> forall id :: id in rows && Due(rows[id], now) ==> Seen(id, rows[id].attempts) in batch)
  }

  // Runs of one worker ---------------------------------------------------------------------------

  /** What happened to one item: how often it was tried, its first failure, its dead-lettering. */
  datatype History = History(calls: nat, firstFailure: Option<int>, deadAt: Option<int>)

  datatype State = State(now: int, rows: map<Id, Item>, batch: seq<Seen>, history: map<Id, History>)

  const INIT := State(0, map[], [], map[])

  datatype Event =
    | Enqueue(t: int, id: Id)
    | BeginBatch(t: int, limit: nat, batch: seq<Seen>)
    | ProcessOne(t: int, ok: bool)

  ghost predicate Enabled(s: State, e: Event)
  {
    && s.now <= e.t
    && match e
       case Enqueue(_, id) => id !in s.rows
       case BeginBatch(t, limit, batch) => s.batch == [] && IsDueBatch(s.rows, t, limit, batch)
       case ProcessOne(_, _) => s.batch != [] && s.batch[0].id in s.rows && s.batch[0].id in s.history
  }

  function Recorded(h: History, it: Item, ok: bool, t: int): History
  {
    History(h.calls + 1,
            if !ok && h.firstFailure.None? then Some(t) else h.firstFailure,
            if it.status == DeadLetter then Some(t) else h.deadAt)
  }

  function Apply(s: State, e: Event): State
    requires Enabled(s, e)
  {
    match e
    case Enqueue(t, id) =>
      s.(now := t, rows := s.rows[id := NewItem(t)], history := s.history[id := History(0, None, None)])
    case BeginBatch(t, _, batch) => s.(now := t, batch := batch)
    case ProcessOne(t, ok) =>
      var b := s.batch[0];
      var it := Processed(s.rows[b.id], b.attempts, ok, t);
      s.(now := t, rows := s.rows[b.id := it], batch := s.batch[1..],
         history := s.history[b.id := Recorded(s.history[b.id], it, ok, t)])
  }

  ghost predicate IsRun(states: seq<State>, events: seq<Event>)
  {
    && |states| == |events| + 1
    && states[0] == INIT
    && forall i :: 0 <= i < |events| ==> Enabled(states[i], events[i]) && states[i + 1] == Apply(states[i], events[i])
  }

  /** Least time, in milliseconds, between the first failure and the end of the k-th backoff. */
  function Waited(k: nat): nat { if k == 0 then 0 else Waited(k - 1) + Power5(k) * 1000 }

  ghost predicate ItemOk(it: Item, h: History, now: int)
  {
    match it.status
    case Pending => it.attempts == 0 && h == History(0, None, None)
    case Retry =>
      1 <= it.attempts <= 4 && h.calls == it.attempts && h.deadAt == None
      && h.firstFailure.Some? && it.nextRetryAt >= h.firstFailure.value + Waited(it.attempts)
    case Done => it.attempts <= 4 && h.calls == it.attempts + 1 && h.deadAt == None
    case DeadLetter =>
      it.attempts == 5 && h.calls == 5 && h.firstFailure.Some? && h.deadAt.Some?
      && h.deadAt.value >= h.firstFailure.value + Waited(4)
  }

  ghost predicate BatchOk(s: State)
  {
    && (forall i, j :: 0 <= i < j < |s.batch| ==> s.batch[i].id != s.batch[j].id)
    && (forall k :: 0 <= k < |s.batch| ==>
          s.batch[k].id in s.rows && Due(s.rows[s.batch[k].id], s.now)
          && s.batch[k].attempts == s.rows[s.batch[k].id].attempts)
  }

  ghost predicate Inv(s: State)
  {
    && s.history.Keys == s.rows.Keys && BatchOk(s)
    && forall id :: id in s.rows ==> ItemOk(s.rows[id], s.history[id], s.now)
  }

  lemma ProcessKeepsItem(it: Item, h: History, now: int, t: int, ok: bool)
    requires ItemOk(it, h, now) && Due(it, now) && now <= t
    ensures var it' := Processed(it, it.attempts, ok, t); ItemOk(it', Recorded(h, it', ok, t), t)
  {
    if !ok && it.attempts == 0 {
      assert Waited(1) == Power5(1) * 1000;
    }
  }

  lemma StepKeepsInv(s: State, e: Event)
    requires Inv(s) && Enabled(s, e)
    ensures Inv(Apply(s, e))
  {
    hide Processed, Recorded;
    match e
    case Enqueue(_, _) =>
    case BeginBatch(_, _, _) =>
    case ProcessOne(t, ok) =>
      hide ItemOk;
      ProcessKeepsItem(s.rows[s.batch[0].id], s.history[s.batch[0].id], s.now, t, ok);
      forall id | id in s.rows && id != s.batch[0].id
        ensures ItemOk(s.rows[id], s.history[id], t)
      {
        ItemOkLater(s.rows[id], s.history[id], s.now, t);
      }
  }

  lemma ItemOkLater(it: Item, h: History, now: int, t: int)
    requires ItemOk(it, h, now)
    ensures ItemOk(it, h, t)
  {}

  lemma {:induction false} RunKeepsInv(states: seq<State>, events: seq<Event>, n: nat)
    requires IsRun(states, events) && n < |states|
    ensures Inv(states[n])
  {
    hide Inv, Apply;
    if n == 0 {
      InitInv();
    } else {
      RunKeepsInv(states, events, n - 1);
      StepKeepsInv(states[n - 1], events[n - 1]);
    }
  }

  lemma InitInv()
    ensures Inv(INIT)
  {}

  /** In every run: a new item is due at once; each processing in a run follows the schedule of
      `ProcessedByFields` from the attempts made so far, and touches that item alone. */
  lemma StepByFields(states: seq<State>, events: seq<Event>, n: nat, id: Id)
    requires IsRun(states, events) && n < |events|
    ensures var s, s', e := states[n], states[n + 1], events[n];
            s'.now == e.t
            && match e
            case Enqueue(t, k) =>
              if id == k then id !in s.rows && id in s'.rows && s'.rows[id] == Item(Pending, 0, t)
              else id in s.rows <==> id in s'.rows && (id in s.rows && id in s'.rows ==> s'.rows[id] == s.rows[id])
            case BeginBatch(_, _, batch) => s'.rows == s.rows && s'.batch == batch
            case ProcessOne(t, ok) =>
              s.batch != [] && s.batch[0].id in s.rows
              && (s.rows[s.batch[0].id].status in {Pending, Retry} && s.rows[s.batch[0].id].nextRetryAt <= t)
              && s'.batch == s.batch[1..]
              && s'.rows == s.rows[s.batch[0].id := Processed(s.rows[s.batch[0].id], s.rows[s.batch[0].id].attempts, ok, t)]
  {
    hide Processed;
    RunKeepsInv(states, events, n);
  }

  /** In every reachable state: pending means no attempt, retry means one to four, dead-letter means
      exactly five, and no item has ever been handed to the sender more than five times. */
  lemma StatusTellsAttempts(states: seq<State>, events: seq<Event>, n: nat, id: Id)
    requires IsRun(states, events) && n < |states| && id in states[n].rows
    ensures var it := states[n].rows[id];
            (it.status == Pending ==> it.attempts == 0) && (it.status == Retry ==> 1 <= it.attempts <= 4)
            && (it.status == DeadLetter ==> it.attempts == 5) && (it.status == Done ==> it.attempts <= 4)
    ensures id in states[n].history && states[n].history[id].calls <= 5
  {
    hide Apply;
    RunKeepsInv(states, events, n);
  }

  /** Dead-lettering comes at least 5 + 25 + 125 + 625 = 780 seconds after the first failure. */
  lemma DeadLetterTakesTime(states: seq<State>, events: seq<Event>, n: nat, id: Id)
    requires IsRun(states, events) && n < |states| && id in states[n].rows && states[n].rows[id].status == DeadLetter
    ensures id in states[n].history && states[n].history[id].firstFailure.Some? && states[n].history[id].deadAt.Some?
    ensures states[n].history[id].deadAt.value >= states[n].history[id].firstFailure.value + 780_000
  {
    hide Apply;
    RunKeepsInv(states, events, n);
    WaitedFour();
  }

  lemma WaitedFour()
    ensures Waited(4) == 780_000
  {
    assert Power5(1) == 5 && Power5(2) == 25 && Power5(3) == 125 && Power5(4) == 625;
    assert Waited(1) == 5000 && Waited(2) == 30_000 && Waited(3) == 155_000;
  }
}

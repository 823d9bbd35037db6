/** The cron scheduler as a transition system. Each event is the code one await separates from
    the next: a tick takes a snapshot of the due schedules, launches them one by one, and after
    each launch writes the next slot back; routes create, edit and delete schedules at any moment
    in between, and the process may stop at any moment. Only ticks themselves do not overlap. */
module Scheduler {
  import opened Text
  import opened Calendar
  import opened CronSyntax
  import opened CronSearch

  type Id = string

  datatype Status = NeverRun | Succeeded | Skipped | Failed

  datatype Schedule = Schedule(cron: string, enabled: bool, nextRunAt: Option<int>,
                               lastRunAt: Option<int>, lastStatus: Status)

  /** The slot that the code computes for an accepted expression. */
  function Next(cron: string, t: int): Option<int>
  {
    match NextRun(cron, t)
    case Ok(n) => n
    case Err(_) => None
  }

  ghost predicate EarliestSlot(r: Option<int>, cron: string, from: int)
    requires ParseCron(cron).Ok?
  {
    Earliest(r, ParseCron(cron).value, from, WindowEnd(from))
  }

  lemma NextIsEarliest(cron: string, t: int)
    requires ParseCron(cron).Ok?
    ensures EarliestSlot(Next(cron, t), cron, t)
  {
    hide ParseCron, MinuteScan, Earliest, NextMinute;
    ScanIsEarliest(ParseCron(cron).value, t, WindowEnd(t));
  }

  lemma NextIsLater(cron: string, t: int)
    ensures Next(cron, t).Some? ==> t < Next(cron, t).value && WholeMinute(Next(cron, t).value)
  {
    hide ParseCron, MinuteScan, NextMinute, Matches, WholeMinute;
    if ParseCron(cron).Ok? {
      NextIsEarliest(cron, t);
    }
  }

  // The store's updates --------------------------------------------------------------------------

  predicate IsDue(s: Schedule, now: int) { s.enabled && s.nextRunAt.Some? && s.nextRunAt.value <= now }

  function Rescheduled(s: Schedule, t: int): Schedule { s.(nextRunAt := Next(s.cron, t)) }

  predicate NeedsInit(s: Schedule, now: int)
  {
    s.enabled && !(s.nextRunAt.Some? && s.nextRunAt.value > now)
  }

  function Initialised(db: map<Id, Schedule>, now: int): map<Id, Schedule>
  {
    map id | id in db :: if NeedsInit(db[id], now) then Rescheduled(db[id], now) else db[id]
  }

  function Settled(db: map<Id, Schedule>, id: Id, t: int, status: Status): map<Id, Schedule>
  {
    if id in db then db[id := Rescheduled(db[id], t).(lastRunAt := Some(t), lastStatus := status)] else db
  }

  function Patched(s: Schedule, t: int, cron: Option<string>, enabled: Option<bool>): Schedule
  {
    var s1 := if cron.Some? then Rescheduled(s.(cron := cron.value), t) else s;
    if enabled.Some? then s1.(enabled := enabled.value) else s1
  }

  /** The mutable schedule table and the loops that update it. */
  class ScheduleStore {
    var schedules: map<Id, Schedule>

    constructor ()
      ensures schedules == map[]
    {
      schedules := map[];
    }

    method NextSlot(cron: string, t: int) returns (slot: Option<int>)
      ensures slot == Next(cron, t)
    {
      hide ParseCron, NextRun;
      var r := NextRunAfter(cron, t);
      slot := match r case Ok(n) => n case Err(_) => None;
    }

    method InitializeNextRunTimes(now: int)
      modifies this
      ensures schedules == Initialised(old(schedules), now)
    {
      hide Next;
      var todo := schedules.Keys;
      while todo != {}
        invariant todo <= old(schedules).Keys == schedules.Keys
        invariant forall id :: id in schedules ==>
                    schedules[id] == if id in todo then old(schedules)[id] else Initialised(old(schedules), now)[id]
        decreases |todo|
      {
        var id :| id in todo;
        todo := todo - {id};
        if NeedsInit(schedules[id], now) {
          var next := NextSlot(schedules[id].cron, now);
          schedules := schedules[id := schedules[id].(nextRunAt := next)];
        }
      }
    }

    /** The snapshot a tick works through; the visiting order is not fixed. */
    method DueAt(now: int) returns (due: seq<(Id, Schedule)>)
      ensures DueSnapshot(schedules, now, due)
      ensures forall i :: 0 <= i < |due| ==>
                due[i].0 in schedules && due[i].1 == schedules[due[i].0]
                && due[i].1.enabled && due[i].1.nextRunAt.Some? && due[i].1.nextRunAt.value <= now
      ensures forall id :: id in schedules && schedules[id].enabled ==>
                (schedules[id].nextRunAt.Some? && schedules[id].nextRunAt.value <= now ==> (id, schedules[id]) in due)
    {
      due := [];
      var todo := schedules.Keys;
      while todo != {}
        invariant todo <= schedules.Keys
        invariant forall i :: 0 <= i < |due| ==>
                    due[i].0 in schedules && due[i].0 !in todo && due[i].1 == schedules[due[i].0] && IsDue(due[i].1, now)
        invariant forall i, j :: 0 <= i < j < |due| ==> due[i].0 != due[j].0
        invariant forall id :: id in schedules && id !in todo && IsDue(schedules[id], now) ==>
                    (id, schedules[id]) in due
        decreases |todo|
      {
        var id :| id in todo;
        todo := todo - {id};
        if IsDue(schedules[id], now) {
          due := due + [(id, schedules[id])];
        }
      }
    }

    method Settle(id: Id, t: int, status: Status)
      modifies this
      ensures schedules == Settled(old(schedules), id, t, status)
    {
      hide Next;
      if id in schedules {
        var s := schedules[id];
        var next := NextSlot(s.cron, t);
        schedules := schedules[id := s.(nextRunAt := next, lastRunAt := Some(t), lastStatus := status)];
      }
    }
  }

  /** Exactly the due schedules, each once, as they stand in the table. */
  ghost predicate DueSnapshot(db: map<Id, Schedule>, now: int, due: seq<(Id, Schedule)>)
  {
    && (forall i :: 0 <= i < |due| ==> due[i].0 in db && due[i].1 == db[due[i].0] && IsDue(due[i].1, now))
    && (forall i, j :: 0 <= i < j < |due| ==> due[i].0 != due[j].0)
    && (forall id :: id in db && IsDue(db[id], now) ==> (id, db[id]) in due)
  }

  // The run ------------------------------------------------------------------------------------------

  /** Who wrote `nextRunAt`, when, and as which write of the run; a settling write names its fire. */
  datatype Writer = Route | Startup | Settlement(fire: int)
  datatype Write = Write(no: nat, at: int, writer: Writer)

  /** One fire: its slot, the expression and the write the slot came from, the step and moment of the
      snapshot that found it due, and the moment of the fire. */
  datatype Fire = Fire(id: Id, slot: int, cron: string, write: Write, snapshot: nat, seen: int, at: int)

  /** A due schedule as the tick remembers it. */
  datatype Pending = Pending(id: Id, slot: int, cron: string, write: Write, snapshot: nat, seen: int)

  /** `writes`, `written`, `used`, `steps` and `log` are history. */
  datatype State = State(
    now: int,
    db: map<Id, Schedule>,
    writes: map<Id, Write>,
    written: nat,
    used: set<Id>,
    due: seq<Pending>,
    launched: bool,
    steps: nat,
    log: seq<Fire>)

  const INIT := State(0, map[], map[], 0, {}, [], false, 0, [])

  datatype Event =
    | Create(t: int, id: Id, captured: int, cron: string, enabled: bool)
    | Patch(t: int, id: Id, newCron: Option<string>, toggle: Option<bool>)
    | Delete(t: int, id: Id)
    | Initialise(t: int)
    | BeginTick(t: int, snapshot: seq<(Id, Schedule)>)
    | Launch(t: int)
    | Settle(t: int, status: Status, last: bool)
    | Restart(t: int)

  function WriteOf(s: State, id: Id): Write { if id in s.writes then s.writes[id] else Write(0, 0, Route) }

  function Remember(s: State, snapshot: seq<(Id, Schedule)>, t: int): seq<Pending>
  {
    seq(|snapshot|, i requires 0 <= i < |snapshot| =>
      Pending(snapshot[i].0, if snapshot[i].1.nextRunAt.Some? then snapshot[i].1.nextRunAt.value else 0,
              snapshot[i].1.cron, WriteOf(s, snapshot[i].0), s.steps, t))
  }

  /** Time never runs backwards; ids are fresh; only accepted expressions are stored; a tick starts
      only when the previous one is through or was lost with its process. */
  ghost predicate Enabled(s: State, e: Event)
  {
    && s.now <= e.t
    && match e
       case Create(t, id, captured, cron, _) => id !in s.used && captured <= t && ParseCron(cron).Ok?
       case Patch(_, _, cron, _) => cron.Some? ==> ParseCron(cron.value).Ok?
       case Delete(_, _) => true
       case Initialise(_) => true
       case BeginTick(t, snapshot) => s.due == [] && DueSnapshot(s.db, t, snapshot)
       case Launch(_) => s.due != [] && !s.launched
       case Settle(_, _, _) => s.due != [] && s.launched
       case Restart(_) => true
  }

  function Apply(s: State, e: Event): State
    requires Enabled(s, e)
  {
    Changed(s, e).(now := e.t, steps := s.steps + 1)
  }

  function Changed(s: State, e: Event): State
    requires Enabled(s, e)
  {
    match e
    case Create(t, id, captured, cron, enabled) =>
      s.(used := s.used + {id}, writes := s.writes[id := Write(s.written, captured, Route)], written := s.written + 1,
         db := s.db[id := Schedule(cron, enabled, Next(cron, captured), None, NeverRun)])
    case Patch(t, id, cron, toggle) =>
      if id !in s.db then s
      else s.(db := s.db[id := Patched(s.db[id], t, cron, toggle)],
              writes := if cron.Some? then s.writes[id := Write(s.written, t, Route)] else s.writes, written := s.written + 1)
    case Delete(t, id) => s.(db := s.db - {id}, writes := s.writes - {id})
    case Initialise(t) =>
      s.(db := Initialised(s.db, t), written := s.written + 1,
         writes := map id | id in s.writes ::
           if id in s.db && NeedsInit(s.db[id], t) then Write(s.written, t, Startup) else s.writes[id])
    case BeginTick(t, snapshot) => s.(due := Remember(s, snapshot, t))
    case Launch(t) =>
      var p := s.due[0];
      s.(launched := true, log := s.log + [Fire(p.id, p.slot, p.cron, p.write, p.snapshot, p.seen, t)])
    case Settle(t, status, last) =>
      var id := s.due[0].id;
      var s1 := s.(db := Settled(s.db, id, t, status), written := s.written + 1,
                   writes := if id in s.db then s.writes[id := Write(s.written, t, Settlement(|s.log| - 1))] else s.writes);
      if last then s1.(due := s.due[1..], launched := false) else s1
    case Restart(t) => s.(due := [], launched := false)
  }

  ghost predicate IsRun(states: seq<State>, events: seq<Event>)
  {
    && |states| == |events| + 1
    && states[0] == INIT
    && forall i :: 0 <= i < |events| ==> Enabled(states[i], events[i]) && states[i + 1] == Apply(states[i], events[i])
  }

  // What holds in every run, also across process stops -------------------------------------------------

  /** A slot is what the code computes for an accepted expression at the moment of the write. */
  ghost predicate FromWrite(slot: Option<int>, cron: string, w: Write, s: State)
  {
    ParseCron(cron).Ok? && slot == Next(cron, w.at) && w.at <= s.now && w.no < s.written
  }

  /** Where a slot stands to one found due by an earlier snapshot: it is the same write's slot, or a
      later write's, made at that snapshot or after it. */
  predicate Follows(seen: int, slot: int, cron: string, w: Write, slot': Option<int>, cron': string, w': Write)
  {
    && w.no <= w'.no
    && (w.no == w'.no ==> w == w' && slot' == Some(slot) && cron' == cron)
    && (w.no < w'.no ==> seen <= w'.at)
  }

  predicate FollowsFire(f: Fire, slot: Option<int>, cron: string, w: Write)
  {
    Follows(f.seen, f.slot, f.cron, f.write, slot, cron, w)
  }

  ghost predicate FireOk(f: Fire, s: State)
  {
    && f.id in s.used && f.slot <= f.seen <= f.at <= s.now && f.snapshot < s.steps
    && FromWrite(Some(f.slot), f.cron, f.write, s)
  }

  ghost predicate LogOk(s: State)
  {
    && (forall k :: 0 <= k < |s.log| ==> FireOk(s.log[k], s))
    && (forall a, b :: 0 <= a < b < |s.log| && s.log[a].id == s.log[b].id ==>
          s.log[a].snapshot < s.log[b].snapshot
          && FollowsFire(s.log[a], Some(s.log[b].slot), s.log[b].cron, s.log[b].write))
  }

  ghost predicate TableOk(s: State)
  {
    && s.writes.Keys == s.db.Keys <= s.used
    && (forall id :: id in s.db ==> FromWrite(s.db[id].nextRunAt, s.db[id].cron, s.writes[id], s))
    && (forall id, k :: id in s.db && 0 <= k < |s.log| && s.log[k].id == id ==>
          FollowsFire(s.log[k], s.db[id].nextRunAt, s.db[id].cron, s.writes[id]))
  }

  ghost predicate PendingOk(p: Pending, s: State)
  {
    && p.id in s.used && p.slot <= p.seen <= s.now && p.snapshot < s.steps
    && FromWrite(Some(p.slot), p.cron, p.write, s)
    && (p.id in s.db && p.id in s.writes ==>
          Follows(p.seen, p.slot, p.cron, p.write, s.db[p.id].nextRunAt, s.db[p.id].cron, s.writes[p.id]))
  }

  ghost predicate DueOk(s: State)
  {
    && (forall i, j :: 0 <= i < j < |s.due| ==> s.due[i].id != s.due[j].id)
    && (forall i :: 0 <= i < |s.due| ==> PendingOk(s.due[i], s))
    && (forall i, k :: 0 <= i < |s.due| && 0 <= k < |s.log| && s.log[k].id == s.due[i].id ==>
          (s.log[k].snapshot < s.due[i].snapshot || (s.launched && i == 0 && k == |s.log| - 1))
          && FollowsFire(s.log[k], Some(s.due[i].slot), s.due[i].cron, s.due[i].write))
    && (s.launched ==> s.due != [] && s.log != [] && s.log[|s.log| - 1].id == s.due[0].id)
  }

  ghost predicate Inv(s: State) { LogOk(s) && TableOk(s) && DueOk(s) }

  /** Two states whose log, snapshot and clock only moved on. */
  ghost predicate Later(s: State, s': State)
  {
    s.now <= s'.now && s.written <= s'.written && s.steps <= s'.steps && s.used <= s'.used && s'.log == s.log
  }

  lemma LogLater(s: State, s': State)
    requires LogOk(s) && Later(s, s')
    ensures LogOk(s')
  {
    hide ParseCron, Next, Follows;
    assert forall k :: 0 <= k < |s.log| ==> FireOk(s.log[k], s);
  }

  /** A write made now follows every fire and every remembered slot of its schedule. */
  lemma WriteFollows(s: State, id: Id, t: int, cron: string, writer: Writer)
    requires LogOk(s) && DueOk(s) && s.now <= t && ParseCron(cron).Ok?
    ensures forall k :: 0 <= k < |s.log| ==>
              FollowsFire(s.log[k], Next(cron, t), cron, Write(s.written, t, writer))
    ensures forall i :: 0 <= i < |s.due| ==>
              Follows(s.due[i].seen, s.due[i].slot, s.due[i].cron, s.due[i].write, Next(cron, t), cron, Write(s.written, t, writer))
  {
    hide ParseCron, Next;
    assert forall k :: 0 <= k < |s.log| ==> FireOk(s.log[k], s);
    assert forall i :: 0 <= i < |s.due| ==> PendingOk(s.due[i], s);
  }

  /** Steps that rewrite no slot, and leave fires and snapshot alone or shrink the snapshot. */
  lemma QuietKeeps(s: State, e: Event)
    requires Inv(s) && Enabled(s, e) && (e.Delete? || e.Restart?)
    ensures Inv(Apply(s, e))
  {
    hide ParseCron, Next, Follows;
    LogLater(s, Apply(s, e));
    assert forall i :: 0 <= i < |s.due| ==> PendingOk(s.due[i], s);
  }

  lemma CreateKeeps(s: State, e: Event)
    requires Inv(s) && e.Create? && Enabled(s, e)
    ensures Inv(Apply(s, e))
  {
    hide ParseCron, Next, Follows;
    LogLater(s, Apply(s, e));
    assert forall i :: 0 <= i < |s.due| ==> PendingOk(s.due[i], s);
    assert forall k :: 0 <= k < |s.log| ==> FireOk(s.log[k], s);
  }

  /** Writing one schedule's slot now. */
  lemma WriteKeeps(s: State, s': State, id: Id, writer: Writer)
    requires Inv(s) && Later(s, s') && s'.written == s.written + 1 && s'.due == s.due && s'.launched == s.launched
    requires id in s.db && s'.db.Keys == s.db.Keys && s'.writes.Keys == s.writes.Keys
    requires s'.writes == s.writes[id := Write(s.written, s'.now, writer)]
    requires forall k :: k in s.db && k != id ==> s'.db[k] == s.db[k]
    requires ParseCron(s'.db[id].cron).Ok? && s'.db[id].nextRunAt == Next(s'.db[id].cron, s'.now)
    ensures Inv(s')
  {
    hide ParseCron, Next, Follows;
    LogLater(s, s');
    WriteFollows(s, id, s'.now, s'.db[id].cron, writer);
    assert forall i :: 0 <= i < |s.due| ==> PendingOk(s.due[i], s);
  }

  lemma PatchKeeps(s: State, e: Event)
    requires Inv(s) && e.Patch? && Enabled(s, e)
    ensures Inv(Apply(s, e))
  {
    hide ParseCron, Next, Follows;
    if e.id in s.db && e.newCron.Some? {
      hide Inv;
      InvParts(s);
      WriteKeeps(s, Apply(s, e), e.id, Route);
    } else {
      LogLater(s, Apply(s, e));
      assert forall i :: 0 <= i < |s.due| ==> PendingOk(s.due[i], s);
    }
  }

  lemma InvParts(s: State)
    requires Inv(s)
    ensures s.writes.Keys == s.db.Keys
    ensures forall id :: id in s.db ==> ParseCron(s.db[id].cron).Ok?
  {}

  lemma SettleKeeps(s: State, e: Event)
    requires Inv(s) && e.Settle? && Enabled(s, e)
    ensures Inv(Apply(s, e))
  {
    hide ParseCron, Next, Follows, Inv;
    InvParts(s);
    var id := s.due[0].id;
    var written := Apply(s, e).(due := s.due, launched := s.launched);
    if id in s.db {
      WriteKeeps(s, written, id, Settlement(|s.log| - 1));
    } else {
      IdleWrite(s, written);
    }
    if e.last {
      DropHead(written);
    }
  }

  lemma IdleWrite(s: State, s': State)
    requires Inv(s) && Later(s, s') && s'.db == s.db && s'.writes == s.writes && s'.due == s.due && s'.launched == s.launched
    ensures Inv(s')
  {
    hide ParseCron, Next, Follows;
    LogLater(s, s');
    assert forall i :: 0 <= i < |s.due| ==> PendingOk(s.due[i], s);
  }

  lemma DropHead(s: State)
    requires Inv(s) && s.launched
    ensures Inv(s.(due := s.due[1..], launched := false))
  {
    hide ParseCron, Next, Follows;
    var s' := s.(due := s.due[1..], launched := false);
    assert forall i :: 0 <= i < |s'.due| ==> s'.due[i] == s.due[i + 1] && PendingOk(s.due[i + 1], s);
    assert LogOk(s') by { LogLater(s, s'); }
  }

  lemma InitialiseKeeps(s: State, e: Event)
    requires Inv(s) && e.Initialise? && Enabled(s, e)
    ensures Inv(Apply(s, e))
  {
    hide ParseCron, Next, Follows;
    var s' := Apply(s, e);
    LogLater(s, s');
    forall id | id in s.db && NeedsInit(s.db[id], e.t)
      ensures ParseCron(s.db[id].cron).Ok?
      ensures forall k :: 0 <= k < |s.log| && s.log[k].id == id ==>
                FollowsFire(s.log[k], s'.db[id].nextRunAt, s'.db[id].cron, s'.writes[id])
      ensures forall i :: 0 <= i < |s.due| && s.due[i].id == id ==>
                Follows(s.due[i].seen, s.due[i].slot, s.due[i].cron, s.due[i].write,
                        s'.db[id].nextRunAt, s'.db[id].cron, s'.writes[id])
    {
      WriteFollows(s, id, e.t, s.db[id].cron, Startup);
    }
    assert forall i :: 0 <= i < |s.due| ==> PendingOk(s.due[i], s);
  }

  lemma BeginTickKeeps(s: State, e: Event)
    requires Inv(s) && e.BeginTick? && Enabled(s, e)
    ensures Inv(Apply(s, e))
  {
    hide ParseCron, Next;
    var s' := Apply(s, e);
    LogLater(s, s');
    forall i | 0 <= i < |s'.due|
      ensures PendingOk(s'.due[i], s')
    {
      assert e.snapshot[i].0 in s.db;
    }
    assert forall k :: 0 <= k < |s.log| ==> FireOk(s.log[k], s);
  }

  lemma LaunchKeeps(s: State, e: Event)
    requires Inv(s) && e.Launch? && Enabled(s, e)
    ensures Inv(Apply(s, e))
  {
    hide ParseCron, Next, Follows;
    var s' := Apply(s, e);
    var n, p := |s.log|, s.due[0];
    assert PendingOk(p, s);
    assert forall k :: 0 <= k < n ==> s'.log[k] == s.log[k] && FireOk(s.log[k], s);
    assert forall i :: 0 <= i < |s.due| ==> PendingOk(s.due[i], s);
    SelfFollows(p);
  }

  lemma SelfFollows(p: Pending)
    ensures Follows(p.seen, p.slot, p.cron, p.write, Some(p.slot), p.cron, p.write)
  {}

  lemma StepKeepsInv(s: State, e: Event)
    requires Inv(s) && Enabled(s, e)
    ensures Inv(Apply(s, e))
  {
    hide Inv, Enabled, Apply;
    match e
    case Create(_, _, _, _, _) => CreateKeeps(s, e);
    case Patch(_, _, _, _) => PatchKeeps(s, e);
    case Delete(_, _) => QuietKeeps(s, e);
    case Initialise(_) => InitialiseKeeps(s, e);
    case BeginTick(_, _) => BeginTickKeeps(s, e);
    case Launch(_) => LaunchKeeps(s, e);
    case Settle(_, _, _) => SettleKeeps(s, e);
    case Restart(_) => QuietKeeps(s, e);
  }

  lemma {:induction false} RunKeepsInv(states: seq<State>, events: seq<Event>, i: nat)
    requires IsRun(states, events) && i < |states|
    ensures Inv(states[i]) && states[i].steps == i
  {
    hide Inv, Changed;
    if i == 0 {
      InitInv();
    } else {
      RunKeepsInv(states, events, i - 1);
      StepKeepsInv(states[i - 1], events[i - 1]);
    }
  }

  lemma InitInv()
    ensures Inv(INIT)
  {}

  // Which events rewrite a slot --------------------------------------------------------------------------

  /** This step writes or removes the stored slot of an existing schedule. */
  predicate Rewrites(s: State, e: Event, id: Id)
  {
    id in s.db
    && match e
       case Patch(_, k, cron, _) => k == id && cron.Some?
       case Delete(_, k) => k == id
       case Initialise(t) => NeedsInit(s.db[id], t)
       case Settle(_, _, _) => s.due != [] && s.due[0].id == id
       case _ => false
  }

  /** A rewriting step removes the schedule or gives it a new write; any other leaves its write. */
  lemma WriteChangesIff(s: State, e: Event, id: Id)
    requires Inv(s) && Enabled(s, e) && id in s.db
    ensures var s' := Apply(s, e);
            if Rewrites(s, e, id) then id !in s'.db || (id in s'.writes && s'.writes[id].no > s.writes[id].no)
            else id in s'.db && id in s'.writes && s'.writes[id] == s.writes[id]
  {
    hide ParseCron, Next, Follows;
    assert FromWrite(s.db[id].nextRunAt, s.db[id].cron, s.writes[id], s);
  }

  lemma GoneIsGone(s: State, e: Event, id: Id)
    requires Enabled(s, e) && id in s.used && id !in s.db
    ensures id in Apply(s, e).used && id !in Apply(s, e).db
  {
    hide ParseCron, Next;
  }

  /** Along a run a schedule's write only grows, and stays exactly as long as nothing rewrites it. */
  lemma {:induction false} WriteStaysIff(states: seq<State>, events: seq<Event>, m: nat, n: nat, id: Id)
    requires IsRun(states, events) && m <= n < |states| && id in states[m].db
    ensures id in states[m].writes && id in states[n].used
    ensures id in states[n].db ==> id in states[n].writes && states[m].writes[id].no <= states[n].writes[id].no
    ensures id in states[n].db && states[m].writes[id].no == states[n].writes[id].no <==> Untouched(states, events, m, n, id)
    decreases n - m
  {
    hide Inv, Apply, Rewrites, Enabled;
    RunKeepsInv(states, events, m);
    InvKeys(states[m]);
    if m < n {
      WriteStaysIff(states, events, m, n - 1, id);
      RunKeepsInv(states, events, n - 1);
      InvKeys(states[n - 1]);
      if id in states[n - 1].db {
        WriteChangesIff(states[n - 1], events[n - 1], id);
        RunKeepsInv(states, events, n);
        InvKeys(states[n]);
        UsedGrows(states[n - 1], events[n - 1], id);
      } else {
        GoneIsGone(states[n - 1], events[n - 1], id);
      }
      UntouchedStep(states, events, m, n, id);
    } else {
      assert Untouched(states, events, m, n, id);
    }
  }

  lemma UsedGrows(s: State, e: Event, id: Id)
    requires Enabled(s, e) && id in s.used
    ensures id in Apply(s, e).used
  {}

  lemma InvKeys(s: State)
    requires Inv(s)
    ensures s.writes.Keys == s.db.Keys <= s.used
  {}

  /** Nothing rewrites the schedule's slot from step `m` up to step `n`. */
  predicate Untouched(states: seq<State>, events: seq<Event>, m: nat, n: nat, id: Id)
    requires m <= n < |states| && n <= |events|
  {
    forall k :: m <= k < n ==> !Rewrites(states[k], events[k], id)
  }

  lemma UntouchedStep(states: seq<State>, events: seq<Event>, m: nat, n: nat, id: Id)
    requires m < n < |states| && n <= |events|
    ensures Untouched(states, events, m, n, id) <==>
              Untouched(states, events, m, n - 1, id) && !Rewrites(states[n - 1], events[n - 1], id)
  {}

  /** Every remembered slot was found by a tick's snapshot, as the table stood there. */
  predicate FoundAt(states: seq<State>, events: seq<Event>, i: nat, id: Id, k: nat, slot: int, w: Write, cron: string, seen: int)
    requires i <= |events| && |states| == |events| + 1
  {
    && k < i && events[k].BeginTick? && events[k].t == seen
    && id in states[k].db && id in states[k].writes && states[k].writes[id] == w
    && states[k].db[id].nextRunAt == Some(slot) && slot <= seen
    && states[k].db[id].enabled && states[k].db[id].cron == cron
  }

  lemma {:induction false} FiresAreFound(states: seq<State>, events: seq<Event>, i: nat)
    requires IsRun(states, events) && i < |states|
    ensures forall k :: 0 <= k < |states[i].log| ==>
              var f := states[i].log[k]; FoundAt(states, events, i, f.id, f.snapshot, f.slot, f.write, f.cron, f.seen)
    ensures forall j :: 0 <= j < |states[i].due| ==>
              var p := states[i].due[j]; FoundAt(states, events, i, p.id, p.snapshot, p.slot, p.write, p.cron, p.seen)
  {
    hide ParseCron, Next, Inv, Initialised, Settled, Patched;
    if i > 0 {
      FiresAreFound(states, events, i - 1);
      RunKeepsInv(states, events, i - 1);
      InvKeys(states[i - 1]);
      var s, e := states[i - 1], events[i - 1];
      assert states[i] == Apply(s, e);
      forall j | 0 <= j < |states[i].due|
        ensures var p := states[i].due[j]; FoundAt(states, events, i, p.id, p.snapshot, p.slot, p.write, p.cron, p.seen)
      {
        if e.BeginTick? {
          assert e.snapshot[j].0 in s.db;
        } else if e.Settle? && e.last {
          assert states[i].due[j] == s.due[j + 1];
        } else {
          assert states[i].due[j] == s.due[j];
        }
      }
    }
  }

  // What every run guarantees ------------------------------------------------------------------------

  /** Process stops included: the slots a schedule fires never decrease, and a later fire repeats an
      earlier one's slot if and only if nothing rewrote the schedule between the two snapshots that
      found it due. Rewriting is a settlement, a new expression, the initialisation at a start when
      the slot has passed, or deletion. */
  lemma SlotRepeatsIffNotRewritten(states: seq<State>, events: seq<Event>, i: nat, a: nat, b: nat)
    requires IsRun(states, events) && i < |states|
    requires a < b < |states[i].log| && states[i].log[a].id == states[i].log[b].id
    ensures var f, g := states[i].log[a], states[i].log[b];
            && f.snapshot < g.snapshot < i && events[f.snapshot].BeginTick? && events[g.snapshot].BeginTick?
            && f.slot <= g.slot && WholeMinute(f.slot) && WholeMinute(g.slot)
            && (f.slot == g.slot <==> Untouched(states, events, f.snapshot, g.snapshot, f.id))
  {
    hide ParseCron, Next, Apply, Rewrites, Untouched;
    RunKeepsInv(states, events, i);
    FiresAreFound(states, events, i);
    var f, g := states[i].log[a], states[i].log[b];
    assert FireOk(f, states[i]) && FireOk(g, states[i]);
    NextIsLater(f.cron, f.write.at);
    NextIsLater(g.cron, g.write.at);
    assert FoundAt(states, events, i, f.id, f.snapshot, f.slot, f.write, f.cron, f.seen);
    assert FoundAt(states, events, i, g.id, g.snapshot, g.slot, g.write, g.cron, g.seen);
    WriteStaysIff(states, events, f.snapshot, g.snapshot, f.id);
  }

  /** Every fired slot is the earliest match of its expression after the write that produced it, and
      it is never fired early. */
  lemma FiredSlotIsEarliest(states: seq<State>, events: seq<Event>, i: nat, b: nat)
    requires IsRun(states, events) && i < |states| && b < |states[i].log|
    ensures var f := states[i].log[b];
            f.slot <= f.at && ParseCron(f.cron).Ok? && EarliestSlot(Some(f.slot), f.cron, f.write.at)
  {
    hide ParseCron, Next, Apply, EarliestSlot;
    RunKeepsInv(states, events, i);
    var f := states[i].log[b];
    assert FireOk(f, states[i]);
    NextIsEarliest(f.cron, f.write.at);
  }

  /** Whatever happened in between, settling a fire leaves the schedule's next slot at the earliest
      match of its current expression strictly after the settling moment. */
  lemma SettleLeavesEarliest(states: seq<State>, events: seq<Event>, i: nat)
    requires IsRun(states, events) && i < |events| && events[i].Settle?
    requires states[i].due[0].id in states[i].db
    ensures var s := states[i + 1].db[states[i].due[0].id];
            ParseCron(s.cron).Ok? && EarliestSlot(s.nextRunAt, s.cron, events[i].t)
  {
    hide ParseCron, Next, EarliestSlot, Inv;
    RunKeepsInv(states, events, i);
    InvParts(states[i]);
    NextIsEarliest(states[i].db[states[i].due[0].id].cron, events[i].t);
  }

  /** The table always holds a slot some write computed as the earliest after itself, so an enabled
      schedule with no slot has no match in the whole window. */
  lemma StoredSlotIsEarliest(states: seq<State>, events: seq<Event>, i: nat, id: Id)
    requires IsRun(states, events) && i < |states| && id in states[i].db
    ensures id in states[i].writes && ParseCron(states[i].db[id].cron).Ok?
    ensures EarliestSlot(states[i].db[id].nextRunAt, states[i].db[id].cron, states[i].writes[id].at)
  {
    hide ParseCron, Next, EarliestSlot, Apply;
    RunKeepsInv(states, events, i);
    NextIsEarliest(states[i].db[id].cron, states[i].writes[id].at);
  }

  // Ticks, by the fields of what is stored ---------------------------------------------------------------

  /** In every run a tick's snapshot holds exactly the stored schedules that are enabled and have a slot
      no later than the tick, each once. */
  lemma SnapshotIsExact(states: seq<State>, events: seq<Event>, k: nat)
    requires IsRun(states, events) && k < |events| && events[k].BeginTick?
    ensures var db, due, now := states[k].db, events[k].snapshot, events[k].t;
            && (forall i :: 0 <= i < |due| ==>
                  due[i].0 in db && due[i].1 == db[due[i].0]
                  && due[i].1.enabled && due[i].1.nextRunAt.Some? && due[i].1.nextRunAt.value <= now)
            && (forall i, j :: 0 <= i < j < |due| ==> due[i].0 != due[j].0)
            && (forall id :: id in db && db[id].enabled && db[id].nextRunAt.Some? && db[id].nextRunAt.value <= now ==>
                  (id, db[id]) in due)
  {
    hide Apply;
  }

  /** Every fire belongs to a schedule that its tick found enabled, with that slot and expression, the
      slot being due. */
  lemma FiredWasEnabled(states: seq<State>, events: seq<Event>, i: nat, b: nat)
    requires IsRun(states, events) && i < |states| && b < |states[i].log|
    ensures var f := states[i].log[b];
            && f.snapshot < i && events[f.snapshot].BeginTick? && f.id in states[f.snapshot].db
            && var sch := states[f.snapshot].db[f.id];
               sch.enabled && sch.nextRunAt == Some(f.slot) && sch.cron == f.cron && f.slot <= events[f.snapshot].t == f.seen
  {
    hide Apply;
    FiresAreFound(states, events, i);
    var f := states[i].log[b];
    assert FoundAt(states, events, i, f.id, f.snapshot, f.slot, f.write, f.cron, f.seen);
  }

  function FiredIds(log: seq<Fire>): (ids: seq<Id>)
    ensures |ids| == |log|
  {
    seq(|log|, i requires 0 <= i < |log| => log[i].id)
  }

  function DueIds(due: seq<Pending>): (ids: seq<Id>)
    ensures |ids| == |due|
  {
    seq(|due|, i requires 0 <= i < |due| => due[i].id)
  }

  /** The schedules of the snapshot not fired yet. */
  function Remaining(s: State): seq<Id>
  {
    DueIds(if s.launched && s.due != [] then s.due[1..] else s.due)
  }

  lemma TickStep(s: State, e: Event, m: nat)
    requires Enabled(s, e) && !e.Restart? && !e.BeginTick? && m <= |s.log| && (s.launched ==> s.due != [])
    ensures var s' := Apply(s, e);
            s.log <= s'.log && FiredIds(s'.log[m..]) + Remaining(s') == FiredIds(s.log[m..]) + Remaining(s)
  {
    hide ParseCron, Next, Initialised, Settled, Patched, DueSnapshot;
    var s' := Apply(s, e);
    if e.Launch? {
      assert s'.log[m..] == s.log[m..] + [s'.log[|s.log|]];
      assert FiredIds(s'.log[m..]) == FiredIds(s.log[m..]) + [s.due[0].id];
      assert DueIds(s.due) == [s.due[0].id] + DueIds(s.due[1..]);
    } else {
      assert s'.log == s.log && Remaining(s') == Remaining(s);
    }
  }

  /** A tick that neither a process stop nor another tick interrupts works through its snapshot: what it
      has fired, then what it has yet to fire, is the snapshot, in order. When nothing is left, every
      schedule of it has been fired exactly once. */
  lemma {:induction false} TickFiresItsSnapshot(states: seq<State>, events: seq<Event>, k: nat, n: nat)
    requires IsRun(states, events) && k < n < |states| && events[k].BeginTick?
    requires forall j :: k < j < n ==> !events[j].Restart? && !events[j].BeginTick?
    ensures states[k].log <= states[n].log
    ensures FiredIds(states[n].log[|states[k].log|..]) + Remaining(states[n])
            == seq(|events[k].snapshot|, i requires 0 <= i < |events[k].snapshot| => events[k].snapshot[i].0)
    decreases n
  {
    hide Inv, FiredIds, Remaining, Apply, Enabled;
    if n == k + 1 {
      RunKeepsInv(states, events, k);
      SnapshotTaken(states[k], events[k]);
    } else {
      TickFiresItsSnapshot(states, events, k, n - 1);
      RunKeepsInv(states, events, n - 1);
      LaunchedHasDue(states[n - 1]);
      TickStep(states[n - 1], events[n - 1], |states[k].log|);
    }
  }

  lemma SnapshotTaken(s: State, e: Event)
    requires Inv(s) && Enabled(s, e) && e.BeginTick?
    ensures var s' := Apply(s, e);
            s'.log == s.log && FiredIds(s'.log[|s.log|..]) + Remaining(s')
            == seq(|e.snapshot|, i requires 0 <= i < |e.snapshot| => e.snapshot[i].0)
  {
    hide ParseCron, Next, DueSnapshot;
    LaunchedHasDue(s);
  }

  lemma LaunchedHasDue(s: State)
    requires Inv(s)
    ensures s.launched ==> s.due != []
  {}

  // The other writers, by fields --------------------------------------------------------------------------

  /** Initialising gives exactly the enabled schedules without a slot in the future the earliest match
      after now, and changes nothing else. */
  lemma InitialiseMeaning(s: State, t: int, id: Id)
    requires Inv(s) && s.now <= t
    ensures var s' := Apply(s, Initialise(t));
            && s'.db.Keys == s.db.Keys
            && (id in s.db ==>
                  var before, after := s.db[id], s'.db[id];
                  && after.cron == before.cron && after.enabled == before.enabled
                  && after.lastRunAt == before.lastRunAt && after.lastStatus == before.lastStatus
                  && ParseCron(before.cron).Ok?
                  && (if before.enabled && (before.nextRunAt.None? || before.nextRunAt.value <= t)
                      then EarliestSlot(after.nextRunAt, before.cron, t) else after.nextRunAt == before.nextRunAt))
  {
    hide ParseCron, Next, EarliestSlot;
    InvParts(s);
    if id in s.db {
      NextIsEarliest(s.db[id].cron, t);
    }
  }

  /** Settling writes the run time, the status and the earliest match after now into that schedule, and
      leaves its expression and switch and all other schedules alone. */
  lemma SettleMeaning(s: State, t: int, status: Status, last: bool, id: Id)
    requires Inv(s) && Enabled(s, Settle(t, status, last))
    ensures var s' := Apply(s, Settle(t, status, last));
            && s'.db.Keys == s.db.Keys
            && (id in s.db && id != s.due[0].id ==> s'.db[id] == s.db[id])
            && (id in s.db && id == s.due[0].id ==>
                  && ParseCron(s.db[id].cron).Ok?
                  && s'.db[id].cron == s.db[id].cron && s'.db[id].enabled == s.db[id].enabled
                  && s'.db[id].lastRunAt == Some(t) && s'.db[id].lastStatus == status
                  && EarliestSlot(s'.db[id].nextRunAt, s.db[id].cron, t))
  {
    hide ParseCron, Next, EarliestSlot;
    InvParts(s);
    if id in s.db {
      NextIsEarliest(s.db[id].cron, t);
    }
  }

  /** Editing changes what the request names: a new expression also brings its earliest slot after now,
      a switch alone keeps the slot. Creating stores the expression with its earliest slot. */
  lemma EditMeaning(s: State, t: int, id: Id, cron: Option<string>, toggle: Option<bool>)
    requires Inv(s) && Enabled(s, Patch(t, id, cron, toggle)) && id in s.db
    ensures var s' := Apply(s, Patch(t, id, cron, toggle));
            && s'.db.Keys == s.db.Keys && (forall k :: k in s.db && k != id ==> s'.db[k] == s.db[k])
            && s'.db[id].enabled == (if toggle.Some? then toggle.value else s.db[id].enabled)
            && s'.db[id].lastRunAt == s.db[id].lastRunAt && s'.db[id].lastStatus == s.db[id].lastStatus
            && (cron.None? ==> s'.db[id].cron == s.db[id].cron && s'.db[id].nextRunAt == s.db[id].nextRunAt)
            && (cron.Some? ==> s'.db[id].cron == cron.value && ParseCron(cron.value).Ok?
                               && EarliestSlot(s'.db[id].nextRunAt, cron.value, t))
  {
    hide ParseCron, Next, EarliestSlot;
    if cron.Some? {
      NextIsEarliest(cron.value, t);
    }
  }

  lemma CreateMeaning(s: State, e: Event)
    requires Inv(s) && e.Create? && Enabled(s, e)
    ensures var s' := Apply(s, e);
            && e.id !in s.db && s'.db.Keys == s.db.Keys + {e.id} && (forall k :: k in s.db ==> s'.db[k] == s.db[k])
            && s'.db[e.id].cron == e.cron && s'.db[e.id].enabled == e.enabled
            && s'.db[e.id].lastRunAt == None && s'.db[e.id].lastStatus == NeverRun
            && ParseCron(e.cron).Ok? && EarliestSlot(s'.db[e.id].nextRunAt, e.cron, e.captured)
  {
    hide ParseCron, Next, EarliestSlot;
    InvKeys(s);
    NextIsEarliest(e.cron, e.captured);
  }

  // Schedules whose fires all get settled -----------------------------------------------------------------

  /** The schedule being fired right now: launched, not yet settled for the last time. */
  predicate Head(s: State, id: Id) { s.launched && s.due != [] && s.due[0].id == id }

  /** No process stop falls between a launch of this schedule and its settlement. */
  predicate NeverCut(states: seq<State>, events: seq<Event>, i: nat, id: Id)
    requires i < |states| && i <= |events|
  {
    forall k :: 0 <= k < i && events[k].Restart? ==> !Head(states[k], id)
  }

  /** `k` is the last fire of `id` in the log. */
  ghost predicate IsLastFire(log: seq<Fire>, id: Id, k: int)
  {
    0 <= k < |log| && log[k].id == id && forall j :: k < j < |log| ==> log[j].id != id
  }

  /** A write made after every fire of `id`, for a slot later than all of theirs. */
  ghost predicate After(log: seq<Fire>, id: Id, slot: Option<int>, w: Write)
  {
    && (forall k :: 0 <= k < |log| && log[k].id == id ==> log[k].at <= w.at && (slot.Some? ==> log[k].slot < slot.value))
    && (w.writer.Settlement? ==> IsLastFire(log, id, w.writer.fire))
  }

  ghost predicate SettledOk(s: State, id: Id)
  {
    && (forall b :: 0 <= b < |s.log| && s.log[b].id == id ==> After(s.log[..b], id, Some(s.log[b].slot), s.log[b].write))
    && (id in s.db && id in s.writes && !Head(s, id) ==> After(s.log, id, s.db[id].nextRunAt, s.writes[id]))
    && (forall j :: 0 <= j < |s.due| && s.due[j].id == id && !(s.launched && j == 0) ==>
          After(s.log, id, Some(s.due[j].slot), s.due[j].write))
  }

  /** A slot computed now lies beyond every slot fired so far. */
  lemma NewSlotIsAfter(s: State, id: Id, cron: string, t: int, w: Write)
    requires Inv(s) && s.now <= t && w.at == t
    requires w.writer.Settlement? ==> IsLastFire(s.log, id, w.writer.fire)
    ensures After(s.log, id, Next(cron, t), w)
  {
    hide ParseCron, Next, Follows;
    NextIsLater(cron, t);
    assert forall k :: 0 <= k < |s.log| ==> FireOk(s.log[k], s);
  }

  lemma NoFiresYet(s: State, id: Id, slot: Option<int>, w: Write)
    requires Inv(s) && id !in s.used && !w.writer.Settlement?
    ensures After(s.log, id, slot, w)
  {
    hide ParseCron, Next, Follows;
    assert forall k :: 0 <= k < |s.log| ==> FireOk(s.log[k], s);
  }

  lemma LaunchKeepsSettled(s: State, e: Event, id: Id)
    requires Inv(s) && SettledOk(s, id) && e.Launch? && Enabled(s, e)
    ensures SettledOk(Apply(s, e), id)
  {
    hide ParseCron, Next, Inv;
    var s' := Apply(s, e);
    var n := |s.log|;
    assert s'.log[..n] == s.log;
    assert forall b :: 0 <= b < n ==> s'.log[..b] == s.log[..b] && s'.log[b] == s.log[b];
    DueDistinct(s);
    hide After;
    if s.due[0].id != id {
      forall slot: Option<int>, w: Write | After(s.log, id, slot, w)
        ensures After(s'.log, id, slot, w)
      {
        AppendKeepsAfter(s.log, s'.log[n], id, slot, w);
      }
    }
  }

  lemma DueDistinct(s: State)
    requires Inv(s)
    ensures forall i, j :: 0 <= i < j < |s.due| ==> s.due[i].id != s.due[j].id
    ensures s.launched ==> s.due != [] && s.log != [] && s.log[|s.log| - 1].id == s.due[0].id
    ensures forall j :: 0 <= j < |s.due| ==> s.due[j].id in s.used
  {
    assert forall i :: 0 <= i < |s.due| ==> PendingOk(s.due[i], s);
  }

  lemma AppendKeepsAfter(log: seq<Fire>, f: Fire, id: Id, slot: Option<int>, w: Write)
    requires After(log, id, slot, w) && f.id != id
    ensures After(log + [f], id, slot, w)
  {}

  lemma StepKeepsSettled(s: State, e: Event, id: Id)
    requires Inv(s) && Enabled(s, e) && SettledOk(s, id) && !(e.Restart? && Head(s, id))
    ensures SettledOk(Apply(s, e), id)
  {
    hide ParseCron, Next, Inv, After;
    InvKeys(s);
    DueDistinct(s);
    match e
    case Create(t, k, captured, cron, _) =>
      if k == id {
        NoFiresYet(s, id, Next(cron, captured), Write(s.written, captured, Route));
      }
    case Patch(t, k, cron, _) =>
      if k == id && cron.Some? {
        NewSlotIsAfter(s, id, cron.value, t, Write(s.written, t, Route));
      }
    case Delete(_, _) =>
    case Initialise(t) =>
      if id in s.db {
        NewSlotIsAfter(s, id, s.db[id].cron, t, Write(s.written, t, Startup));
      }
    case BeginTick(t, snapshot) =>
    case Launch(_) => LaunchKeepsSettled(s, e, id);
    case Settle(t, _, last) =>
      if s.due[0].id == id && id in s.db {
        assert IsLastFire(s.log, id, |s.log| - 1);
        NewSlotIsAfter(s, id, s.db[id].cron, t, Write(s.written, t, Settlement(|s.log| - 1)));
      }
    case Restart(_) =>
  }

  lemma {:induction false} RunKeepsSettled(states: seq<State>, events: seq<Event>, i: nat, id: Id)
    requires IsRun(states, events) && i < |states| && NeverCut(states, events, i, id)
    ensures SettledOk(states[i], id)
  {
    hide Inv, Apply, SettledOk, Head, Enabled;
    if i == 0 {
      assert SettledOk(INIT, id) by { InitSettled(id); }
    } else {
      RunKeepsSettled(states, events, i - 1, id);
      RunKeepsInv(states, events, i - 1);
      StepKeepsSettled(states[i - 1], events[i - 1], id);
    }
  }

  lemma InitSettled(id: Id)
    ensures SettledOk(INIT, id)
  {}

  /** Some step from the snapshot of the first fire up to that of the second rewrites the schedule. */
  predicate RewrittenBetween(states: seq<State>, events: seq<Event>, f: Fire, g: Fire)
  {
    exists k :: f.snapshot <= k < g.snapshot && k < |events| && k < |states| && Rewrites(states[k], events[k], f.id)
  }

  /** Two fires of a schedule have strictly increasing slots, whole minutes fired at or after their
      time, if something rewrote the schedule between their snapshots; and if no process stop ever
      cuts one of its fires off, something always has. */
  lemma SlotsStrictlyIncrease(states: seq<State>, events: seq<Event>, i: nat, a: nat, b: nat)
    requires IsRun(states, events) && i < |states|
    requires a < b < |states[i].log| && states[i].log[a].id == states[i].log[b].id
    requires NeverCut(states, events, i, states[i].log[a].id)
             || RewrittenBetween(states, events, states[i].log[a], states[i].log[b])
    ensures states[i].log[a].slot < states[i].log[b].slot
    ensures WholeMinute(states[i].log[a].slot) && WholeMinute(states[i].log[b].slot)
    ensures states[i].log[a].slot <= states[i].log[a].at && states[i].log[b].slot <= states[i].log[b].at
    ensures RewrittenBetween(states, events, states[i].log[a], states[i].log[b])
  {
    hide ParseCron, Next, Apply, NeverCut, Inv, EarliestSlot, Rewrites;
    SlotRepeatsIffNotRewritten(states, events, i, a, b);
    FiredSlotIsEarliest(states, events, i, a);
    FiredSlotIsEarliest(states, events, i, b);
    if NeverCut(states, events, i, states[i].log[a].id) {
      RunKeepsSettled(states, events, i, states[i].log[a].id);
      assert states[i].log[..b][a] == states[i].log[a];
    }
  }

  /** For a schedule whose fires are never cut off each fired slot is the earliest match after a write that came after all earlier fires of
      the schedule, and when a settlement made it, it settled the fire just before. So no match after
      the write was skipped. */
  lemma NoMatchIsSkipped(states: seq<State>, events: seq<Event>, i: nat, b: nat)
    requires IsRun(states, events) && i < |states| && b < |states[i].log|
    requires NeverCut(states, events, i, states[i].log[b].id)
    ensures var f := states[i].log[b];
            ParseCron(f.cron).Ok? && EarliestSlot(Some(f.slot), f.cron, f.write.at)
            && (forall a :: 0 <= a < b && states[i].log[a].id == f.id ==> states[i].log[a].at <= f.write.at)
            && (f.write.writer.Settlement? ==> IsLastFire(states[i].log[..b], f.id, f.write.writer.fire))
  {
    hide ParseCron, Next, Apply, EarliestSlot, NeverCut, Inv;
    FiredSlotIsEarliest(states, events, i, b);
    RunKeepsSettled(states, events, i, states[i].log[b].id);
    var log := states[i].log;
    var f := log[b];
    forall a | 0 <= a < b && log[a].id == f.id
      ensures log[a].at <= f.write.at
    {
      assert log[..b][a] == log[a];
    }
  }

  // A process stop between launch and settlement -----------------------------------------------------------

  /** After such a stop the initialisation at the next start moves an enabled schedule's slot beyond
      the one just fired, if it runs before the schedule is found due again. */
  lemma InitialiseMovesOn(s: State, stop: int, start: int, id: Id)
    requires Inv(s) && Head(s, id) && id in s.db && s.db[id].enabled && s.now <= stop <= start
    ensures Enabled(s, Restart(stop)) && Enabled(Apply(s, Restart(stop)), Initialise(start))
    ensures var s' := Apply(Apply(s, Restart(stop)), Initialise(start));
            id in s'.db && (s'.db[id].nextRunAt.Some? ==> s.due[0].slot < s'.db[id].nextRunAt.value)
  {
    hide ParseCron, Next, Follows;
    assert PendingOk(s.due[0], s);
    NextIsLater(s.db[id].cron, start);
  }

  /** Runs of given events, for instances. */
  ghost predicate Leads(s: State, events: seq<Event>, s': State)
    decreases |events|
  {
    if events == [] then s' == s else Enabled(s, events[0]) && Leads(Apply(s, events[0]), events[1..], s')
  }

  lemma TickAndLaunch(s: State, id: Id, sch: Schedule, slot: int)
    requires s.db == map[id := sch] && s.due == [] && !s.launched && s.now <= slot
    requires IsDue(sch, slot) && sch.nextRunAt == Some(slot)
    ensures var tick := BeginTick(slot, [(id, sch)]);
            Enabled(s, tick) && Enabled(Apply(s, tick), Launch(slot))
            && var s' := Apply(Apply(s, tick), Launch(slot));
            s'.db == s.db && s'.now == slot
            && |s'.log| == |s.log| + 1 && s'.log[..|s.log|] == s.log
            && s'.log[|s.log|].id == id && s'.log[|s.log|].slot == slot
  {
    var snapshot := [(id, sch)];
    assert forall k :: k in s.db ==> k == id;
    assert (id, sch) == snapshot[0] && (id, sch) in snapshot;
    assert |Remember(s, snapshot, slot)| == 1;
  }

  /** An instance of the repetition: create, tick, launch, stop, tick, launch. */
  lemma CrashRefires(id: Id, cron: string, slot: int)
    requires ParseCron(cron).Ok? && Next(cron, 0) == Some(slot)
    ensures exists s' :: Leads(INIT, CrashEvents(id, cron, slot), s')
                         && |s'.log| == 2 && s'.log[0].id == s'.log[1].id == id && s'.log[0].slot == s'.log[1].slot == slot
  {
    hide ParseCron, Next, Initialised, Patched, Settled, DueSnapshot, Remember;
    NextIsLater(cron, 0);
    var s0 := Apply(INIT, Create(0, id, 0, cron, true));
    var sch := s0.db[id];
    TickAndLaunch(s0, id, sch, slot);
    var tick := BeginTick(slot, [(id, sch)]);
    var s2 := Apply(Apply(s0, tick), Launch(slot));
    var s3 := Apply(s2, Restart(slot));
    TickAndLaunch(s3, id, sch, slot);
    var s5 := Apply(Apply(s3, tick), Launch(slot));
    assert s5.log[..1] == s3.log;
    assert s3.log[0].id == id && s3.log[0].slot == slot;
    var es := CrashEvents(id, cron, slot);
    assert Leads(s5, [], s5);
    LeadsBack(Apply(s3, tick), Launch(slot), [], s5);
    LeadsBack(s3, tick, [Launch(slot)], s5);
    LeadsBack(s2, Restart(slot), [tick, Launch(slot)], s5);
    LeadsBack(Apply(s0, tick), Launch(slot), [Restart(slot), tick, Launch(slot)], s5);
    LeadsBack(s0, tick, [Launch(slot), Restart(slot), tick, Launch(slot)], s5);
    LeadsBack(INIT, Create(0, id, 0, cron, true), [tick, Launch(slot), Restart(slot), tick, Launch(slot)], s5);
    assert es == [Create(0, id, 0, cron, true)] + [tick, Launch(slot), Restart(slot), tick, Launch(slot)];
  }

  lemma LeadsBack(s: State, e: Event, rest: seq<Event>, s': State)
    requires Enabled(s, e) && Leads(Apply(s, e), rest, s')
    ensures Leads(s, [e] + rest, s')
  {
    assert ([e] + rest)[1..] == rest;
  }

  function CrashEvents(id: Id, cron: string, slot: int): seq<Event>
  {
    var tick := BeginTick(slot, [(id, Schedule(cron, true, Some(slot), None, NeverRun))]);
    [Create(0, id, 0, cron, true), tick, Launch(slot), Restart(slot), tick, Launch(slot)]
  }
}

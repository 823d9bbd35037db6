/** Updates of the runtime database: a promise-chain mutex around read, mutate and write, with a
    time-limited cache that plain readers share. Events are the code between two awaits. The
    document type is arbitrary; a callback that throws does so before changing anything. */
module Store {
  import opened Text

  // The mutex --------------------------------------------------------------------------------------

  /** The promises the mutex builds: settled, or `before.then(() => gate)`. */
  datatype Promise = Settled | Then(before: Promise, gate: nat)

  predicate Resolved(p: Promise, open: seq<bool>)
  {
    match p
    case Settled => true
    case Then(before, gate) => Resolved(before, open) && gate < |open| && open[gate]
  }

  /** The tail of the queue after `n` calls of `acquire`. */
  function Chain(n: nat): Promise { if n == 0 then Settled else Then(Chain(n - 1), n - 1) }

  lemma {:induction false} ChainResolved(n: nat, open: seq<bool>)
    requires n <= |open|
    ensures Resolved(Chain(n), open) <==> forall i :: 0 <= i < n ==> open[i]
  {
    if n > 0 {
      ChainResolved(n - 1, open);
    }
  }

  class Mutex {
    var queue: Promise
    var open: seq<bool>

    ghost predicate Valid() reads this { queue == Chain(|open|) }

    constructor ()
      ensures Valid() && open == []
    {
      queue, open := Settled, [];
    }

    /** The synchronous part of `acquire`: the caller then awaits `current` and holds `gate`. */
    method Acquire() returns (current: Promise, gate: nat)
      requires Valid()
      modifies this
      ensures Valid() && gate == |old(open)| && open == old(open) + [false] && current == Chain(gate)
    {
      current, gate := queue, |open|;
      open := open + [false];
      queue := Then(current, gate);
    }

    /** From now on a caller may go on exactly when every earlier holder but this one has released. */
    method Release(gate: nat)
      requires Valid() && gate < |open|
      modifies this
      ensures Valid() && open == old(open)[gate := true]
      ensures forall n: nat :: n <= |open| ==> (Resolved(Chain(n), open) <==> forall i :: 0 <= i < n && i != gate ==> old(open)[i])
    {
      open := open[gate := true];
      forall n: nat | n <= |open|
        ensures Resolved(Chain(n), open) <==> forall i :: 0 <= i < n && i != gate ==> old(open)[i]
      {
        ChainResolved(n, open);
        assert forall i :: 0 <= i < n ==> open[i] == (i == gate || old(open)[i]);
      }
    }

    /** A caller may go on exactly when every earlier holder has released. */
    lemma EntersAfterAllEarlier(gate: nat)
      requires Valid() && gate < |open|
      ensures Resolved(Chain(gate), open) <==> forall i :: 0 <= i < gate ==> open[i]
    {
      ChainResolved(gate, open);
    }
  }

  // The cached store -------------------------------------------------------------------------------

  /** One row of `system_kv` behind a cache. Serialising and parsing are taken to be inverse, so the
      row is shown as the document it holds. */
  class SafeJsonStore<D> {
    var row: D
    var cache: Option<D>
    var cacheTime: int
    const ttl: int

    constructor (row: D, ttl: int)
      ensures this.row == row && this.ttl == ttl && Coherent()
    {
      this.row, this.ttl, cache, cacheTime := row, ttl, None, 0;
    }

    ghost predicate Coherent() reads this { cache.Some? ==> cache.value == row }

    /** What a reader at `now` is given. */
    function Answer(now: int): D
      reads this
    {
      if cache.Some? && now - cacheTime < ttl then cache.value else row
    }

    /** A coherent store reads its row, cached or not, and stays coherent. */
    method Read(now: int) returns (data: D)
      modifies this`cache, this`cacheTime
      ensures data == old(Answer(now)) == Answer(now)
      ensures data == if old(cache).Some? && now - old(cacheTime) < ttl then old(cache).value else row
      ensures cache == Some(data)
      ensures cacheTime == if old(cache).Some? && now - old(cacheTime) < ttl then old(cacheTime) else now
      ensures old(Coherent()) ==> data == row && Coherent()
    {
      if cache.Some? && now - cacheTime < ttl {
        return cache.value;
      }
      cache := Some(row);
      cacheTime := now;
      data := row;
    }

    /** Whatever was cached before, every later reader is given what was written. */
    method Write(data: D, now: int)
      modifies this
      ensures row == data && cache == Some(data) && cacheTime == now && Coherent()
      ensures forall later: int :: Answer(later) == data
    {
      row := data;
      cache := Some(data);
      cacheTime := now;
    }

    /** Whatever was cached before, every later reader is given the stored row. */
    method Invalidate()
      modifies this`cache, this`cacheTime
      ensures cache == None && cacheTime == 0 && Coherent()
      ensures forall later: int :: Answer(later) == row
    {
      cache := None;
      cacheTime := 0;
    }
  }

  // Updates and readers ----------------------------------------------------------------------------

  /** Where an update stands. `Inserted` is the moment between the database statement and the cache
      refresh; `Done` and `Threw` have released the lock once their gate is open. */
  datatype Phase<D> = Waiting | Entered | Loaded(doc: D) | Mutated(doc: D) | Inserted(doc: D) | Done | Threw

  datatype Update<!D> = Update(mutate: D -> Option<D>, wait: Promise, phase: Phase<D>)

  datatype State<!D> = State(
    now: int,
    ttl: int,
    row: D,
    cache: Option<D>,
    cacheTime: int,
    queue: Promise,
    open: seq<bool>,
    updates: seq<Update<D>>,
    fetched: seq<D>)

  function Start<D>(row: D, ttl: int): State<D>
  {
    State(0, ttl, row, None, 0, Settled, [], [], [])
  }

  predicate Fresh<D>(s: State<D>) { s.cache.Some? && s.now - s.cacheTime < s.ttl }

  datatype Event<!D> =
    | Acquire(mutate: D -> Option<D>)
    | Enter(i: nat)
    | Load(i: nat)
    | Mutate(i: nat)
    | Insert(i: nat)
    | Refresh(i: nat)
    | Release(i: nat)
    | Fetch
    | Fill(k: nat)
    | Invalidate
    | Tick(now: int)

  /** A plain reader's `Fill` may come any time after its `Fetch`, whatever the row is by then. */
  ghost predicate Enabled<D(!new)>(s: State<D>, e: Event<D>)
  {
    match e
    case Acquire(_) => true
    case Enter(i) => i < |s.updates| && s.updates[i].phase.Waiting? && Resolved(s.updates[i].wait, s.open)
    case Load(i) => i < |s.updates| && s.updates[i].phase.Entered?
    case Mutate(i) => i < |s.updates| && s.updates[i].phase.Loaded?
    case Insert(i) => i < |s.updates| && s.updates[i].phase.Mutated?
    case Refresh(i) => i < |s.updates| && s.updates[i].phase.Inserted?
    case Release(i) => i < |s.updates| && i < |s.open| && (s.updates[i].phase.Done? || s.updates[i].phase.Threw?)
    case Fetch => !Fresh(s)
    case Fill(k) => k < |s.fetched|
    case Invalidate => true
    case Tick(now) => s.now <= now
  }

  /** Whether the event's indices make sense at all; `Enabled` adds the protocol. */
  predicate InRange<D>(s: State<D>, e: Event<D>)
  {
    match e
    case Enter(i) => i < |s.updates|
    case Load(i) => i < |s.updates|
    case Mutate(i) => i < |s.updates| && s.updates[i].phase.Loaded?
    case Insert(i) => i < |s.updates| && s.updates[i].phase.Mutated?
    case Refresh(i) => i < |s.updates| && s.updates[i].phase.Inserted?
    case Release(i) => i < |s.open|
    case Fill(k) => k < |s.fetched|
    case _ => true
  }

  function SetPhase<D>(s: State<D>, i: nat, p: Phase<D>): State<D>
    requires i < |s.updates|
  {
    s.(updates := s.updates[i := s.updates[i].(phase := p)])
  }

  function Apply<D>(s: State<D>, e: Event<D>): State<D>
    requires InRange(s, e)
  {
    match e
    case Acquire(m) =>
      s.(updates := s.updates + [Update(m, s.queue, Waiting)], open := s.open + [false],
         queue := Then(s.queue, |s.open|))
    case Enter(i) => SetPhase(s, i, Entered)
    case Load(i) =>
      if Fresh(s) then SetPhase(s, i, Loaded(s.cache.value))
      else SetPhase(s, i, Loaded(s.row)).(cache := Some(s.row), cacheTime := s.now)
    case Mutate(i) =>
      (match s.updates[i].mutate(s.updates[i].phase.doc)
       case None => SetPhase(s, i, Threw)
       case Some(d) => SetPhase(s, i, Mutated(d)))
    case Insert(i) => SetPhase(s, i, Inserted(s.updates[i].phase.doc)).(row := s.updates[i].phase.doc)
    case Refresh(i) => SetPhase(s, i, Done).(cache := Some(s.updates[i].phase.doc), cacheTime := s.now)
    case Release(i) => s.(open := s.open[i := true])
    case Fetch => s.(fetched := s.fetched + [s.row])
    case Fill(k) => s.(cache := Some(s.fetched[k]), cacheTime := s.now)
    case Invalidate => s.(cache := None, cacheTime := 0)
    case Tick(now) => s.(now := now)
  }

  ghost predicate IsRun<D(!new)>(states: seq<State<D>>, events: seq<Event<D>>, init: D, ttl: int)
  {
    && |states| == |events| + 1
    && states[0] == Start(init, ttl)
    && forall i :: 0 <= i < |events| ==>
         Enabled(states[i], events[i]) && InRange(states[i], events[i]) && states[i + 1] == Apply(states[i], events[i])
  }

  // Serial composition -----------------------------------------------------------------------------

  /** An update has had its effect on the row, or has thrown. */
  predicate Decided<D>(p: Phase<D>) { p.Inserted? || p.Done? || p.Threw? }

  predicate Inside<D>(p: Phase<D>) { p.Entered? || p.Loaded? || p.Mutated? || p.Inserted? }

  function After<D>(doc: D, mutate: D -> Option<D>): D
  {
    match mutate(doc) case Some(d) => d case None => doc
  }

  /** The decided updates run one after the other in acquire order. */
  function Serial<D>(doc: D, updates: seq<Update<D>>): D
    decreases |updates|
  {
    if updates == [] then doc
    else
      var last := updates[|updates| - 1];
      var before := Serial(doc, updates[..|updates| - 1]);
      if Decided(last.phase) then After(before, last.mutate) else before
  }

  lemma {:induction false} SerialUndecidedTail<D>(doc: D, updates: seq<Update<D>>, i: nat)
    requires i <= |updates| && forall k :: i <= k < |updates| ==> !Decided(updates[k].phase)
    ensures Serial(doc, updates) == Serial(doc, updates[..i])
    decreases |updates|
  {
    if i < |updates| {
      SerialUndecidedTail(doc, updates[..|updates| - 1], i);
      assert updates[..|updates| - 1][..i] == updates[..i];
    } else {
      assert updates[..i] == updates;
    }
  }

  /** Only phases decide: same callbacks and same decisions, same result. */
  lemma {:induction false} SerialSame<D>(doc: D, a: seq<Update<D>>, b: seq<Update<D>>)
    requires |a| == |b|
    requires forall k :: 0 <= k < |a| ==> a[k].mutate == b[k].mutate && (Decided(a[k].phase) <==> Decided(b[k].phase))
    ensures Serial(doc, a) == Serial(doc, b)
    decreases |a|
  {
    if a != [] {
      SerialSame(doc, a[..|a| - 1], b[..|b| - 1]);
    }
  }

  /** Deciding update `i`, when all later ones are undecided, applies its callback once more. */
  lemma SerialDecide<D>(doc: D, a: seq<Update<D>>, i: nat, p: Phase<D>)
    requires i < |a| && !Decided(a[i].phase) && Decided(p)
    requires forall k :: i < k < |a| ==> !Decided(a[k].phase)
    ensures Serial(doc, a[i := a[i].(phase := p)]) == After(Serial(doc, a), a[i].mutate)
  {
    var b := a[i := a[i].(phase := p)];
    SerialUndecidedTail(doc, a, i);
    SerialUndecidedTail(doc, b, i + 1);
    assert b[..i + 1][..i] == a[..i];
  }

  // The invariant ----------------------------------------------------------------------------------

  ghost predicate LockOk<D(!new)>(s: State<D>)
  {
    && |s.open| == |s.updates| && s.queue == Chain(|s.open|)
    && (forall i :: 0 <= i < |s.updates| ==> s.updates[i].wait == Chain(i))
    && (forall i :: 0 <= i < |s.updates| && s.open[i] ==> s.updates[i].phase.Done? || s.updates[i].phase.Threw?)
    && (forall i, j :: 0 <= i < j < |s.updates| && !s.updates[j].phase.Waiting? ==> s.open[i])
  }

  /** An update that loads now is given a cached document that is not the stored one. */
  predicate Stale<D(==)>(s: State<D>) { Fresh(s) && s.cache.value != s.row }

  ghost predicate DataOk<D(!new)>(s: State<D>, init: D)
  {
    && s.row == Serial(init, s.updates)
    && (forall i :: 0 <= i < |s.updates| && s.updates[i].phase.Loaded? ==> s.updates[i].phase.doc == s.row)
    && (forall i :: 0 <= i < |s.updates| && s.updates[i].phase.Mutated? ==>
          s.updates[i].mutate(s.row) == Some(s.updates[i].phase.doc))
    && (forall i :: 0 <= i < |s.updates| && s.updates[i].phase.Inserted? ==> s.updates[i].phase.doc == s.row)
  }

  lemma LockStep<D(!new)>(s: State<D>, e: Event<D>)
    requires LockOk(s) && Enabled(s, e)
    ensures InRange(s, e) && LockOk(Apply(s, e))
  {
    hide Chain, Resolved;
    match e
    case Acquire(_) => ChainStep(|s.open|);
    case Enter(i) => ChainResolved(i, s.open);
    case _ =>
  }

  lemma ChainStep(n: nat)
    ensures Chain(n + 1) == Then(Chain(n), n)
  {}

  /** The lock is exclusive, so while an update holds it every later one is undecided. */
  lemma LaterUndecided<D(!new)>(s: State<D>, i: nat)
    requires LockOk(s) && i < |s.updates| && Inside(s.updates[i].phase)
    ensures forall k :: i < k < |s.updates| ==> s.updates[k].phase.Waiting?
    ensures forall k :: 0 <= k < i ==> s.open[k]
  {
    forall k | i < k < |s.updates|
      ensures s.updates[k].phase.Waiting?
    {
      assert !s.open[i];
    }
  }

  lemma MutateKeeps<D(!new)>(s: State<D>, e: Event<D>, init: D)
    requires LockOk(s) && DataOk(s, init) && e.Mutate? && Enabled(s, e)
    ensures DataOk(Apply(s, e), init)
  {
    hide Serial, Chain, Resolved;
    var u := s.updates[e.i];
    LaterUndecided(s, e.i);
    if u.mutate(u.phase.doc).None? {
      SerialDecide(init, s.updates, e.i, Threw);
    } else {
      SerialSame(init, s.updates, Apply(s, e).updates);
    }
  }

  lemma InsertKeeps<D(!new)>(s: State<D>, e: Event<D>, init: D)
    requires LockOk(s) && DataOk(s, init) && e.Insert? && Enabled(s, e)
    ensures DataOk(Apply(s, e), init)
  {
    hide Serial, Chain, Resolved;
    LaterUndecided(s, e.i);
    SerialDecide(init, s.updates, e.i, Inserted(s.updates[e.i].phase.doc));
  }

  /** Every step but a stale load keeps the documents in step. */
  lemma DataStep<D(!new)>(s: State<D>, e: Event<D>, init: D)
    requires LockOk(s) && DataOk(s, init) && Enabled(s, e) && InRange(s, e)
    requires !(e.Load? && Stale(s))
    ensures DataOk(Apply(s, e), init)
  {
    hide Serial, Chain, Resolved, LockOk;
    match e
    case Acquire(_) =>
      SerialUndecidedTail(init, Apply(s, e).updates, |s.updates|);
      assert Apply(s, e).updates[..|s.updates|] == s.updates;
    case Enter(_) => SerialSame(init, s.updates, Apply(s, e).updates);
    case Load(_) => SerialSame(init, s.updates, Apply(s, e).updates);
    case Mutate(_) => MutateKeeps(s, e, init);
    case Insert(_) => InsertKeeps(s, e, init);
    case Refresh(_) => SerialSame(init, s.updates, Apply(s, e).updates);
    case _ =>
  }

  lemma {:induction false} RunKeepsLock<D(!new)>(states: seq<State<D>>, events: seq<Event<D>>, init: D, ttl: int, n: nat)
    requires IsRun(states, events, init, ttl) && n < |states|
    ensures LockOk(states[n])
  {
    hide LockOk, Apply, Enabled;
    if n == 0 {
      StartInv(init, ttl);
    } else {
      RunKeepsLock(states, events, init, ttl, n - 1);
      LockStep(states[n - 1], events[n - 1]);
    }
  }

  /** No update has loaded a stale document in the first `n` steps. */
  ghost predicate NoStaleLoad<D(!new)>(states: seq<State<D>>, events: seq<Event<D>>, n: nat)
    requires n <= |events| && |states| == |events| + 1
  {
    forall k :: 0 <= k < n && events[k].Load? ==> !Stale(states[k])
  }

  lemma {:induction false} RunKeepsData<D(!new)>(states: seq<State<D>>, events: seq<Event<D>>, init: D, ttl: int, n: nat)
    requires IsRun(states, events, init, ttl) && n < |states| && NoStaleLoad(states, events, n)
    ensures LockOk(states[n]) && DataOk(states[n], init)
  {
    hide LockOk, DataOk, Apply, Enabled, Stale, InRange;
    RunKeepsLock(states, events, init, ttl, n);
    if n == 0 {
      StartInv(init, ttl);
    } else {
      RunKeepsData(states, events, init, ttl, n - 1);
      DataStep(states[n - 1], events[n - 1], init);
    }
  }

  lemma StartInv<D(!new)>(init: D, ttl: int)
    ensures LockOk(Start(init, ttl)) && DataOk(Start(init, ttl), init)
  {}

  // What every run guarantees ----------------------------------------------------------------------

  /** No two updates are between entering and releasing the lock; they enter in acquire order. */
  lemma MutualExclusion<D(!new)>(states: seq<State<D>>, events: seq<Event<D>>, init: D, ttl: int, n: nat, i: nat, j: nat)
    requires IsRun(states, events, init, ttl) && n < |states| && i < j < |states[n].updates|
    requires !states[n].updates[j].phase.Waiting?
    ensures !Inside(states[n].updates[i].phase) && !states[n].updates[i].phase.Waiting?
  {
    hide Serial, Apply, Enabled;
    RunKeepsLock(states, events, init, ttl, n);
  }

  /** The document step `n`, a load, gives to its update. */
  function Given<D>(s: State<D>, e: Event<D>): D
    requires e.Load? && InRange(s, e)
  {
    Apply(s, e).updates[e.i].phase.doc
  }

  /** Every update so far has loaded the decided callbacks' serial result. */
  ghost predicate LoadsAreSerial<D(!new)>(states: seq<State<D>>, events: seq<Event<D>>, init: D, n: nat)
    requires n <= |events| && |states| == |events| + 1
  {
    forall k :: 0 <= k < n && events[k].Load? && InRange(states[k], events[k]) ==>
      Given(states[k], events[k]) == Serial(init, states[k].updates)
  }

  /** One load gives the stored row exactly when no fresh cache entry contradicts it. */
  lemma GivenIsRow<D(!new)>(s: State<D>, e: Event<D>)
    requires e.Load? && InRange(s, e)
    ensures Given(s, e) == s.row <==> !Stale(s)
  {}

  /** A load gives, and leaves in the cache, exactly what a read of the cached store gives and leaves on
      the same row, cache and clock: the cached document while it is younger than the time limit, else
      the stored one, which is then cached with the time of the load. */
  lemma LoadIsRead<D(!new)>(s: State<D>, e: Event<D>, store: SafeJsonStore<D>)
    requires e.Load? && InRange(s, e)
    requires store.row == s.row && store.cache == s.cache && store.cacheTime == s.cacheTime && store.ttl == s.ttl
    ensures Given(s, e) == store.Answer(s.now)
    ensures var young := s.cache.Some? && s.now - s.cacheTime < s.ttl;
            && Given(s, e) == (if young then s.cache.value else s.row)
            && Apply(s, e).cache == Some(Given(s, e)) && Apply(s, e).cacheTime == (if young then s.cacheTime else s.now)
            && Apply(s, e).row == s.row
  {}

  /** A reader goes to the database exactly when no young enough document is cached, takes the row as it
      is, and later caches that with the time of the fill. */
  lemma FetchAndFill<D(!new)>(s: State<D>, k: nat)
    ensures Enabled(s, Fetch) <==> !(s.cache.Some? && s.now - s.cacheTime < s.ttl)
    ensures Apply(s, Fetch) == s.(fetched := s.fetched + [s.row])
    ensures k < |s.fetched| ==> Apply(s, Fill(k)) == s.(cache := Some(s.fetched[k]), cacheTime := s.now)
  {}

  /** The other steps touch the stored row and the cache as the store's own methods do: only the insert of
      an update changes the row, its refresh caches the same document with the current time, and
      invalidating empties the cache. */
  lemma StoredAndCached<D(!new)>(s: State<D>, e: Event<D>)
    requires InRange(s, e) && !e.Load? && !e.Fill?
    ensures var next := Apply(s, e);
            && next.now == (if e.Tick? then e.now else s.now)
            && next.row == (if e.Insert? then s.updates[e.i].phase.doc else s.row)
            && (if e.Refresh? then next.cache == Some(s.updates[e.i].phase.doc) && next.cacheTime == s.now
                else if e.Invalidate? then next.cache == None && next.cacheTime == 0
                else next.cache == s.cache && next.cacheTime == s.cacheTime)
  {}

  /** The exact condition, over every run with readers filling the cache at any time: all updates load
      the serial result so far if and only if none loads while the cache is fresh and differs from
      the stored row. */
  lemma {:induction false} SerialIffNoStaleLoad<D(!new)>(states: seq<State<D>>, events: seq<Event<D>>, init: D, ttl: int, n: nat)
    requires IsRun(states, events, init, ttl) && n <= |events|
    ensures LoadsAreSerial(states, events, init, n) <==> NoStaleLoad(states, events, n)
    decreases n
  {
    hide LockOk, Apply, Enabled, Stale, Serial, Given;
    if n > 0 {
      SerialIffNoStaleLoad(states, events, init, ttl, n - 1);
      if NoStaleLoad(states, events, n - 1) {
        RunKeepsData(states, events, init, ttl, n - 1);
        if events[n - 1].Load? {
          GivenIsRow(states[n - 1], events[n - 1]);
        }
      }
    }
  }

  /** Without stale loads updates are serialisable: the stored document is always the decided
      callbacks applied one after the other, in the order the lock was acquired, each to its
      predecessor's result. */
  lemma UpdatesAreSerial<D(!new)>(states: seq<State<D>>, events: seq<Event<D>>, init: D, ttl: int, n: nat)
    requires IsRun(states, events, init, ttl) && n < |states| && NoStaleLoad(states, events, n)
    ensures states[n].row == Serial(init, states[n].updates)
    ensures forall i, j :: 0 <= i < j < |states[n].updates| && Decided(states[n].updates[j].phase) ==>
              Decided(states[n].updates[i].phase)
  {
    hide Serial, Apply, Enabled;
    RunKeepsData(states, events, init, ttl, n);
  }

  /** Then a callback is always given the current document, still current when it runs. */
  lemma CallbackSeesLatest<D(!new)>(states: seq<State<D>>, events: seq<Event<D>>, init: D, ttl: int, n: nat)
    requires IsRun(states, events, init, ttl) && n < |events| && events[n].Mutate? && NoStaleLoad(states, events, n)
    ensures var i := events[n].i;
            i < |states[n].updates| && states[n].updates[i].phase.Loaded?
            && states[n].updates[i].phase.doc == Serial(init, states[n].updates)
  {
    hide Serial, Apply;
    RunKeepsData(states, events, init, ttl, n);
  }

  // Readers that fill in time -------------------------------------------------------------------------

  /** Every reader so far has filled the cache with the row as it then was. */
  ghost predicate FillsAreCurrent<D(!new)>(states: seq<State<D>>, events: seq<Event<D>>, n: nat)
    requires n <= |events| && |states| == |events| + 1
  {
    forall k :: 0 <= k < n && events[k].Fill? ==> InRange(states[k], events[k]) && states[k].fetched[events[k].k] == states[k].row
  }

  ghost predicate Inserting<D(!new)>(s: State<D>) { exists i :: 0 <= i < |s.updates| && s.updates[i].phase.Inserted? }

  /** The cache agrees with the row except between an update's statement and its refresh. */
  ghost predicate CacheOk<D(!new)>(s: State<D>) { s.cache.Some? ==> s.cache.value == s.row || Inserting(s) }

  lemma LoadIsCurrent<D(!new)>(s: State<D>, e: Event<D>)
    requires LockOk(s) && CacheOk(s) && e.Load? && Enabled(s, e)
    ensures !Stale(s)
  {
    LaterUndecided(s, e.i);
  }

  lemma CacheStep<D(!new)>(s: State<D>, e: Event<D>, init: D)
    requires LockOk(s) && DataOk(s, init) && CacheOk(s) && Enabled(s, e) && InRange(s, e)
    requires e.Fill? ==> s.fetched[e.k] == s.row
    ensures CacheOk(Apply(s, e))
  {
    hide Serial, Chain, Resolved;
    var s' := Apply(s, e);
    if e.Insert? {
      assert s'.updates[e.i].phase.Inserted?;
    } else if Inserting(s) && !e.Refresh? {
      var k :| 0 <= k < |s.updates| && s.updates[k].phase.Inserted?;
      assert s'.updates[k].phase.Inserted?;
    }
  }

  /** It is enough that readers fill in time: then no update ever loads a stale document. */
  lemma {:induction false} CurrentFillsSuffice<D(!new)>(states: seq<State<D>>, events: seq<Event<D>>, init: D, ttl: int, n: nat)
    requires IsRun(states, events, init, ttl) && n < |states| && FillsAreCurrent(states, events, n)
    ensures NoStaleLoad(states, events, n) && CacheOk(states[n])
  {
    hide LockOk, DataOk, CacheOk, Apply, Stale, Enabled, InRange;
    if n == 0 {
      assert CacheOk(states[0]) by { StartCache(init, ttl); }
    } else {
      CurrentFillsSuffice(states, events, init, ttl, n - 1);
      RunKeepsData(states, events, init, ttl, n - 1);
      CacheStep(states[n - 1], events[n - 1], init);
      if events[n - 1].Load? {
        LoadIsCurrent(states[n - 1], events[n - 1]);
      }
    }
  }

  lemma StartCache<D(!new)>(init: D, ttl: int)
    ensures CacheOk(Start(init, ttl))
  {}

  // A stale load, and what it costs -------------------------------------------------------------------

  /** The given steps, all enabled, lead from one state to the other. */
  ghost predicate Leads<D(!new)>(s: State<D>, events: seq<Event<D>>, s': State<D>)
    decreases |events|
  {
    if events == [] then s' == s
    else Enabled(s, events[0]) && InRange(s, events[0]) && Leads(Apply(s, events[0]), events[1..], s')
  }

  lemma {:induction false} LeadsOn<D(!new)>(s: State<D>, a: seq<Event<D>>, m: State<D>, b: seq<Event<D>>, s': State<D>)
    requires Leads(s, a, m) && Leads(m, b, s')
    ensures Leads(s, a + b, s')
    decreases |a|
  {
    hide Enabled, Apply, InRange;
    if a == [] {
      assert a + b == b;
    } else {
      LeadsOn(Apply(s, a[0]), a[1..], m, b, s');
      assert (a + b)[1..] == a[1..] + b;
    }
  }

  function UpdateEvents<D>(i: nat): seq<Event<D>>
  {
    [Enter(i), Load(i), Mutate(i), Insert(i), Refresh(i), Release(i)]
  }

  /** One whole update that does not throw: it applies its callback to what it was given. */
  lemma UpdateRuns<D(!new)>(s: State<D>, i: nat) returns (s': State<D>)
    requires i < |s.updates| == |s.open| && s.updates[i].phase.Waiting? && Resolved(s.updates[i].wait, s.open)
    requires s.updates[i].mutate(if Fresh(s) then s.cache.value else s.row).Some?
    ensures Leads(s, UpdateEvents(i), s')
    ensures Some(s'.row) == s.updates[i].mutate(if Fresh(s) then s.cache.value else s.row)
    ensures s'.updates == s.updates[i := s.updates[i].(phase := Done)] && s'.open == s.open[i := true]
    ensures s'.fetched == s.fetched && s'.now == s.now && s'.ttl == s.ttl && s'.queue == s.queue
  {
    var s1 := Apply(s, Enter(i));
    var s2 := Apply(s1, Load(i));
    var s3 := Apply(s2, Mutate(i));
    var s4 := Apply(s3, Insert(i));
    var s5 := Apply(s4, Refresh(i));
    s' := Apply(s5, Release(i));
    assert Leads(s', [], s');
    var e5: seq<Event<D>> := [Release(i)];
    assert e5[1..] == [] && Leads(s5, e5, s');
    var e4: seq<Event<D>> := [Refresh(i)] + e5;
    assert e4[1..] == e5 && Leads(s4, e4, s');
    var e3: seq<Event<D>> := [Insert(i)] + e4;
    assert e3[1..] == e4 && Leads(s3, e3, s');
    var e2: seq<Event<D>> := [Mutate(i)] + e3;
    assert e2[1..] == e3 && Leads(s2, e2, s');
    var e1: seq<Event<D>> := [Load(i)] + e2;
    assert e1[1..] == e2 && Leads(s1, e1, s');
    var e0: seq<Event<D>> := [Enter(i)] + e1;
    assert e0[1..] == e1 && Leads(s, e0, s');
    assert e0 == UpdateEvents<D>(i);
  }

  /** A reader fetches, an update runs, the reader fills, a second update runs. */
  function StaleEvents<D>(f: D -> Option<D>, g: D -> Option<D>): seq<Event<D>>
  {
    [Fetch, Acquire(f), Acquire(g)] + UpdateEvents(0) + [Fill(0)] + UpdateEvents(1)
  }

  lemma FetchAndQueue<D(!new)>(init: D, ttl: int, f: D -> Option<D>, g: D -> Option<D>) returns (s': State<D>)
    ensures Leads(Start(init, ttl), [Fetch, Acquire(f), Acquire(g)], s')
    ensures s'.row == init && s'.cache == None && s'.now == 0 && s'.ttl == ttl && s'.fetched == [init]
    ensures s'.open == [false, false]
    ensures s'.updates == [Update(f, Settled, Waiting), Update(g, Then(Settled, 0), Waiting)]
  {
    var a1 := Apply(Start(init, ttl), Fetch);
    var a2 := Apply(a1, Acquire(f));
    s' := Apply(a2, Acquire(g));
    assert Leads(s', [], s');
    var e2: seq<Event<D>> := [Acquire(g)];
    assert e2[1..] == [] && Leads(a2, e2, s');
    var e1: seq<Event<D>> := [Acquire(f)] + e2;
    assert e1[1..] == e2 && Leads(a1, e1, s');
    var e0: seq<Event<D>> := [Fetch] + e1;
    assert e0[1..] == e1 && Leads(Start(init, ttl), e0, s');
    assert e0 == [Fetch, Acquire(f), Acquire(g)];
  }

  lemma FillRuns<D(!new)>(s: State<D>)
    requires s.fetched != [] && s.ttl > 0
    ensures InRange(s, Fill(0)) && Leads(s, [Fill(0)], Apply(s, Fill(0))) && Fresh(Apply(s, Fill(0)))
  {
    var e: seq<Event<D>> := [Fill(0)];
    var s' := Apply(s, Fill(0));
    assert Leads(s', [], s') && e[1..] == [];
  }

  /** An instance, each of whose steps is enabled: the second update starts from the old document and
      the first one is lost. */
  lemma StaleFillLosesUpdate<D(!new)>(init: D, ttl: int, f: D -> Option<D>, g: D -> Option<D>)
    requires ttl > 0 && f(init).Some? && g(init).Some?
    ensures exists s' :: Leads(Start(init, ttl), StaleEvents(f, g), s') && s'.row == g(init).value
  {
    var s1 := FetchAndQueue(init, ttl, f, g);
    var s2 := UpdateRuns(s1, 0);
    FillRuns(s2);
    var s3 := Apply(s2, Fill(0));
    var s4 := UpdateRuns(s3, 1);
    hide *;
    StalePath(Start(init, ttl), s1, s2, s3, s4, f, g);
  }

  lemma StalePath<D(!new)>(s0: State<D>, s1: State<D>, s2: State<D>, s3: State<D>, s4: State<D>, f: D -> Option<D>, g: D -> Option<D>)
    requires Leads(s0, [Fetch, Acquire(f), Acquire(g)], s1) && Leads(s1, UpdateEvents(0), s2)
    requires Leads(s2, [Fill(0)], s3) && Leads(s3, UpdateEvents(1), s4)
    ensures Leads(s0, StaleEvents(f, g), s4)
  {
    hide Leads, UpdateEvents;
    var e0: seq<Event<D>> := [Fetch, Acquire(f), Acquire(g)];
    LeadsOn(s0, e0, s1, UpdateEvents(0), s2);
    LeadsOn(s0, e0 + UpdateEvents(0), s2, [Fill(0)], s3);
    LeadsOn(s0, e0 + UpdateEvents(0) + [Fill(0)], s3, UpdateEvents(1), s4);
  }
}

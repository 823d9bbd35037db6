/** The in-memory email queue: one drain at a time empties it, each item is sent up to three times
    and leaves one entry in a bounded log. Events are the code between awaits; log writes are
    taken to succeed. */
module EmailQueue {
  type Mail = string

  const MAX_ATTEMPTS := 3

  datatype Entry = Entry(mail: Mail, success: bool, attempts: nat)

  /** Where a suspended `deliverItem` stands: sending, sleeping before a retry, or in the
      stdout fallback used without SMTP. */
  datatype Phase = Sending | Sleeping | Printing

  datatype Delivery = Delivery(mail: Mail, attempts: nat, phase: Phase)

  /** `accepted` and `closed` are history: mails taken in, and mails with their one log entry. */
  datatype State = State(
    queue: seq<Mail>,
    draining: bool,
    timer: bool,
    immediates: nat,
    drains: seq<Delivery>,
    log: seq<Entry>,
    accepted: seq<Mail>,
    closed: seq<Entry>)

  const INIT := State([], false, false, 0, [], [], [], [])

  datatype Event =
    | Enqueue(mail: Mail)
    | TimerTick(smtp: bool)
    | Immediate(smtp: bool)
    | Sent(i: nat, ok: bool, smtp: bool)
    | Wake(i: nat)
    | Printed(i: nat, ok: bool, smtp: bool)
    | StartTimer
    | StopTimer

  /** `db.emailLog.slice(-200)` after the push. */
  function Bounded(log: seq<Entry>): seq<Entry> { if |log| > 200 then log[|log| - 200..] else log }

  function Logged(s: State, e: Entry): State { s.(log := Bounded(s.log + [e]), closed := s.closed + [e]) }

  /** The start of `deliverItem`. */
  function Open(mail: Mail, smtp: bool): Delivery
  {
    if smtp then Delivery(mail, 1, Sending) else Delivery(mail, 0, Printing)
  }

  /** `drainOnce` called: nothing when a drain is active, else the first item or the end at once. */
  function DrainOnce(s: State, smtp: bool): State
  {
    if s.draining then s
    else if s.queue == [] then s
    else s.(draining := true, queue := s.queue[1..], drains := s.drains + [Open(s.queue[0], smtp)])
  }

  /** The drain loop after one item is through. */
  function NextItem(s: State, i: nat, smtp: bool): State
    requires i < |s.drains|
  {
    if s.queue == [] then s.(draining := false, drains := s.drains[..i] + s.drains[i + 1..])
    else s.(queue := s.queue[1..], drains := s.drains[i := Open(s.queue[0], smtp)])
  }

  predicate Enabled(s: State, e: Event)
  {
    match e
    case Enqueue(_) => true
    case TimerTick(_) => s.timer
    case Immediate(_) => s.immediates > 0
    case Sent(i, _, _) => i < |s.drains| && s.drains[i].phase == Sending
    case Wake(i) => i < |s.drains| && s.drains[i].phase == Sleeping
    case Printed(i, _, _) => i < |s.drains| && s.drains[i].phase == Printing
    case StartTimer => true
    case StopTimer => true
  }

  function Apply(s: State, e: Event): State
    requires Enabled(s, e)
  {
    match e
    case Enqueue(m) =>
      s.(queue := s.queue + [m], accepted := s.accepted + [m],
         immediates := if s.timer then s.immediates else s.immediates + 1)
    case TimerTick(smtp) => DrainOnce(s, smtp)
    case Immediate(smtp) => DrainOnce(s.(immediates := s.immediates - 1), smtp)
    case Sent(i, ok, smtp) =>
      var d := s.drains[i];
      if ok then NextItem(Logged(s, Entry(d.mail, true, d.attempts)), i, smtp)
      else if d.attempts >= MAX_ATTEMPTS then NextItem(Logged(s, Entry(d.mail, false, d.attempts)), i, smtp)
      else s.(drains := s.drains[i := d.(phase := Sleeping)])
    case Wake(i) =>
      var d := s.drains[i];
      s.(drains := s.drains[i := d.(attempts := d.attempts + 1, phase := Sending)])
    case Printed(i, ok, smtp) =>
      NextItem(Logged(s, Entry(s.drains[i].mail, ok, 0)), i, smtp)
    case StartTimer => s.(timer := true)
    case StopTimer => s.(timer := false)
  }

  ghost predicate IsRun(states: seq<State>, events: seq<Event>)
  {
    && |states| == |events| + 1
    && states[0] == INIT
    && forall i :: 0 <= i < |events| ==> Enabled(states[i], events[i]) && states[i + 1] == Apply(states[i], events[i])
  }

  function Mails(entries: seq<Entry>): seq<Mail>
  {
    seq(|entries|, i requires 0 <= i < |entries| => entries[i].mail)
  }

  function InDelivery(s: State): seq<Mail> { if s.drains == [] then [] else [s.drains[0].mail] }

  ghost predicate DeliveryOk(d: Delivery)
  {
    match d.phase
    case Sending => 1 <= d.attempts <= 3
    case Sleeping => 1 <= d.attempts <= 2
    case Printing => d.attempts == 0
  }

  ghost predicate Inv(s: State)
  {
    && (s.draining <==> |s.drains| == 1) && |s.drains| <= 1
    && (forall i :: 0 <= i < |s.drains| ==> DeliveryOk(s.drains[i]))
    && s.accepted == Mails(s.closed) + InDelivery(s) + s.queue
    && (forall k :: 0 <= k < |s.closed| ==>
          s.closed[k].attempts <= 3 && (!s.closed[k].success ==> s.closed[k].attempts == 3 || s.closed[k].attempts == 0))
    && s.log == Bounded(s.closed)
  }

  lemma MailsAppend(a: seq<Entry>, e: Entry)
    ensures Mails(a + [e]) == Mails(a) + [e.mail]
  {}

  /** Trimming as one goes keeps the same entries as trimming the whole history once. */
  lemma BoundedAppend(all: seq<Entry>, e: Entry)
    ensures Bounded(Bounded(all) + [e]) == Bounded(all + [e])
  {}

  lemma CloseKeeps(s: State, e: Entry, smtp: bool)
    requires Inv(s) && s.drains != [] && e.mail == s.drains[0].mail
    requires e.attempts <= 3 && (!e.success ==> e.attempts == 3 || e.attempts == 0)
    ensures Inv(NextItem(Logged(s, e), 0, smtp))
  {
    hide Bounded, Mails;
    MailsAppend(s.closed, e);
    BoundedAppend(s.closed, e);
    var s' := NextItem(Logged(s, e), 0, smtp);
    if s.queue != [] {
      assert s.queue == [s.queue[0]] + s.queue[1..];
      assert s.accepted == Mails(s'.closed) + [s.queue[0]] + s.queue[1..];
    } else {
      assert s'.drains == [];
      assert s.accepted == Mails(s'.closed) + [] + [];
    }
  }

  lemma DrainOnceKeeps(s: State, smtp: bool)
    requires Inv(s.(immediates := s.immediates + 1))
    ensures Inv(DrainOnce(s, smtp))
  {
    hide Bounded, Mails;
    if !s.draining && s.queue != [] {
      assert s.queue == [s.queue[0]] + s.queue[1..];
      assert s.accepted == Mails(s.closed) + [] + s.queue;
    }
  }

  lemma StepKeepsInv(s: State, e: Event)
    requires Inv(s) && Enabled(s, e)
    ensures Inv(Apply(s, e))
  {
    hide Bounded, Mails;
    match e
    case Enqueue(m) =>
      assert s.accepted + [m] == Mails(s.closed) + InDelivery(s) + (s.queue + [m]);
    case TimerTick(smtp) => DrainOnceKeeps(s, smtp);
    case Immediate(smtp) => DrainOnceKeeps(s.(immediates := s.immediates - 1), smtp);
    case Sent(i, ok, smtp) =>
      var d := s.drains[i];
      if ok || d.attempts >= MAX_ATTEMPTS {
        CloseKeeps(s, Entry(d.mail, ok, d.attempts), smtp);
      }
    case Wake(_) =>
    case Printed(i, ok, smtp) => CloseKeeps(s, Entry(s.drains[i].mail, ok, 0), smtp);
    case StartTimer =>
    case StopTimer =>
  }

  lemma {:induction false} RunKeepsInv(states: seq<State>, events: seq<Event>, i: nat)
    requires IsRun(states, events) && i < |states|
    ensures Inv(states[i])
  {
    hide Inv, Apply;
    if i == 0 {
      assert Inv(INIT) by { InitInv(); }
    } else {
      RunKeepsInv(states, events, i - 1);
      StepKeepsInv(states[i - 1], events[i - 1]);
    }
  }

  lemma InitInv()
    ensures Inv(INIT)
  {}

  /** Mails are closed in the order they were accepted, one log entry each, and none is lost:
      accepted = closed, then the one in delivery, then those still queued. */
  lemma MailsAreConserved(states: seq<State>, events: seq<Event>, n: nat)
    requires IsRun(states, events) && n < |states|
    ensures var s := states[n];
            s.accepted == Mails(s.closed) + InDelivery(s) + s.queue && |s.drains| <= 1
  {
    hide Apply;
    RunKeepsInv(states, events, n);
  }

  // Transport calls ------------------------------------------------------------------------------

  /** What the transport answered, in order, while mail number `k` of the accepted ones was being
      delivered. The mail in delivery is the one numbered by the closed ones. */
  function Answers(states: seq<State>, events: seq<Event>, n: nat, k: nat): seq<bool>
    requires n <= |events| && |states| == |events| + 1
  {
    if n == 0 then []
    else
      var before := Answers(states, events, n - 1, k);
      if events[n - 1].Sent? && |states[n - 1].closed| == k then before + [events[n - 1].ok] else before
  }

  /** Three attempts at most: all but the last failed, and the mail failed only after the third. */
  predicate RetryOutcome(answers: seq<bool>, attempts: nat, success: bool)
  {
    && 1 <= attempts <= 3 && attempts <= |answers| && success == answers[attempts - 1]
    && (forall k :: 0 <= k < attempts - 1 ==> !answers[k])
    && (!success ==> attempts == 3)
  }

  /** What the answers say about a mail by where it stands. */
  ghost predicate AnswersFit(s: State, answers: seq<bool>, k: nat)
  {
    if k < |s.closed| then
      if s.closed[k].attempts == 0 then answers == []
      else |answers| == s.closed[k].attempts && RetryOutcome(answers, s.closed[k].attempts, s.closed[k].success)
    else if k == |s.closed| && s.drains != [] then
      && (forall i :: 0 <= i < |answers| ==> !answers[i])
      && |answers| == (if s.drains[0].phase == Sending then s.drains[0].attempts - 1 else s.drains[0].attempts)
    else answers == []
  }

  lemma StepFits(s: State, e: Event, answers: seq<bool>, k: nat)
    requires Inv(s) && Enabled(s, e) && AnswersFit(s, answers, k)
    ensures AnswersFit(Apply(s, e), if e.Sent? && |s.closed| == k then answers + [e.ok] else answers, k)
  {
    hide Bounded, Mails;
  }

  lemma {:induction false} AnswersAlwaysFit(states: seq<State>, events: seq<Event>, n: nat, k: nat)
    requires IsRun(states, events) && n < |states|
    ensures AnswersFit(states[n], Answers(states, events, n, k), k)
    decreases n
  {
    hide Inv, Apply, AnswersFit, Enabled;
    if n == 0 {
      InitFits(k);
    } else {
      AnswersAlwaysFit(states, events, n - 1, k);
      RunKeepsInv(states, events, n - 1);
      StepFits(states[n - 1], events[n - 1], Answers(states, events, n - 1, k), k);
    }
  }

  lemma InitFits(k: nat)
    ensures AnswersFit(INIT, [], k)
  {}

  /** In every run a mail is handed to the transport at most three times, its entry counts exactly
      those calls, and it is closed as the retry loop prescribes; without SMTP there is no call. The
      stored log is the last 200 closings. */
  lemma AttemptsAreBounded(states: seq<State>, events: seq<Event>, n: nat, k: nat)
    requires IsRun(states, events) && n < |states|
    ensures |Answers(states, events, n, k)| <= 3
    ensures k < |states[n].closed| ==>
              var e := states[n].closed[k];
              |Answers(states, events, n, k)| == e.attempts
              && (e.attempts > 0 ==> RetryOutcome(Answers(states, events, n, k), e.attempts, e.success))
    ensures states[n].log == Bounded(states[n].closed)
  {
    hide Apply, Answers;
    RunKeepsInv(states, events, n);
    AnswersAlwaysFit(states, events, n, k);
  }

  /** The stored log is always the most recent closings: all of them, or the last two hundred. */
  lemma LogIsRecent(states: seq<State>, events: seq<Event>, n: nat)
    requires IsRun(states, events) && n < |states|
    ensures var s := states[n];
            var d := |s.closed| - |s.log|;
            d >= 0 && s.log == s.closed[d..] && (d > 0 ==> |s.log| == 200) && |s.log| <= 200
  {
    hide Apply;
    RunKeepsInv(states, events, n);
  }

  /** Each step by fields: one entry per mail, with the transport's last word and the number of calls,
      written when it says yes or has said no three times; a failed call otherwise only leads to a pause. */
  lemma StepCloses(s: State, e: Event)
    requires Enabled(s, e)
    ensures var next := Apply(s, e);
            match e
            case Sent(i, ok, _) =>
              var d := s.drains[i];
              if ok || d.attempts >= 3 then next.closed == s.closed + [Entry(d.mail, ok, d.attempts)]
              else next.closed == s.closed && next.drains == s.drains[i := Delivery(d.mail, d.attempts, Sleeping)]
            case Printed(i, ok, _) => next.closed == s.closed + [Entry(s.drains[i].mail, ok, 0)]
            case Wake(i) =>
              next.closed == s.closed && next.drains == s.drains[i := Delivery(s.drains[i].mail, s.drains[i].attempts + 1, Sending)]
            case _ => next.closed == s.closed
  {}

  /** What happens to the next mail in line: it is handed to the transport once, or printed where there
      is none. */
  predicate Starts(d: Delivery, mail: Mail, smtp: bool)
  {
    d.mail == mail && if smtp then d.attempts == 1 && d.phase == Sending else d.attempts == 0 && d.phase == Printing
  }

  /** Queueing asks for one drain unless the timer is on; a timer tick or that request takes the first
      mail unless a drain is active; a drain that is through with a mail takes the next one or ends. */
  lemma StepTakes(s: State, e: Event)
    requires Inv(s) && Enabled(s, e)
    ensures var next := Apply(s, e);
            var through := e.Printed? || (e.Sent? && (e.ok || s.drains[e.i].attempts >= 3));
            && next.timer == (if e.StartTimer? then true else if e.StopTimer? then false else s.timer)
            && next.immediates == s.immediates + (if e.Enqueue? && !s.timer then 1 else if e.Immediate? then -1 else 0)
            && (e.Enqueue? ==> next.queue == s.queue + [e.mail])
            && (if through || ((e.TimerTick? || e.Immediate?) && s.drains == []) then
                  if s.queue == [] then next.queue == [] && next.drains == []
                  else next.queue == s.queue[1..] && |next.drains| == 1 && Starts(next.drains[0], s.queue[0], e.smtp)
                else
                  (!e.Enqueue? ==> next.queue == s.queue) && |next.drains| == |s.drains|
                  && (!e.Sent? && !e.Wake? ==> next.drains == s.drains))
  {
    hide Mails, Bounded;
  }

  // Wake-ups ---------------------------------------------------------------------------------------

  /** Mail is queued and nothing is due to send it. */
  predicate Stranded(s: State) { s.queue != [] && !s.draining && !s.timer && s.immediates == 0 }

  /** Stopping the timer now would strand mail. */
  predicate StopWouldStrand(s: State) { s.queue != [] && !s.draining && s.immediates == 0 }

  /** One step: a stop strands exactly under its guard, queueing and starting the timer rescue, and
      nothing else makes a difference. */
  lemma StrandedStep(s: State, e: Event)
    requires Inv(s) && Enabled(s, e)
    ensures Stranded(Apply(s, e)) <==>
              match e
              case StopTimer => StopWouldStrand(s)
              case Enqueue(_) => false
              case StartTimer => false
              case _ => Stranded(s)
  {
    hide Bounded, Mails;
  }

  /** A stop that met its guard, not followed by queueing or a start of the timer. */
  predicate StrandedBy(states: seq<State>, events: seq<Event>, n: nat, m: nat)
    requires n <= |events| && n < |states|
  {
    && m < n && events[m] == StopTimer && StopWouldStrand(states[m])
    && forall k :: m < k < n ==> !events[k].Enqueue? && events[k] != StartTimer
  }

  predicate WasStranded(states: seq<State>, events: seq<Event>, n: nat)
    requires n <= |events| && n < |states|
  {
    exists m :: 0 <= m < n && StrandedBy(states, events, n, m)
  }

  /** In every run, queued mail has no wake-up coming if and only if the timer was stopped while mail
      was queued with no drain active and no one-shot drain scheduled, and since then neither another
      mail was queued nor the timer started. */
  lemma {:induction false} StrandedIff(states: seq<State>, events: seq<Event>, n: nat)
    requires IsRun(states, events) && n < |states|
    ensures Stranded(states[n]) <==> WasStranded(states, events, n)
    decreases n
  {
    hide Inv, Apply, Enabled, WasStranded, StopWouldStrand, Stranded;
    if n == 0 {
      InitIsLive(states, events);
    } else {
      StrandedIff(states, events, n - 1);
      RunKeepsInv(states, events, n - 1);
      StrandedStep(states[n - 1], events[n - 1]);
      WasStrandedStep(states, events, n);
      StrandedMeetsGuard(states[n - 1]);
    }
  }

  lemma StrandedMeetsGuard(s: State)
    ensures Stranded(s) ==> StopWouldStrand(s)
  {}

  lemma WasStrandedStep(states: seq<State>, events: seq<Event>, n: nat)
    requires 0 < n < |states| && n <= |events|
    ensures WasStranded(states, events, n) <==>
              || (events[n - 1] == StopTimer && StopWouldStrand(states[n - 1]))
              || (WasStranded(states, events, n - 1) && !events[n - 1].Enqueue? && events[n - 1] != StartTimer)
  {
    hide StopWouldStrand;
    var p := n - 1;
    if m :| 0 <= m < p && StrandedBy(states, events, p, m) {
      assert !events[p].Enqueue? && events[p] != StartTimer ==> StrandedBy(states, events, n, m);
    }
    if events[p] == StopTimer && StopWouldStrand(states[p]) {
      assert StrandedBy(states, events, n, p);
    }
    if m :| 0 <= m < n && StrandedBy(states, events, n, m) {
      assert m < p ==> StrandedBy(states, events, p, m);
    }
  }

  lemma InitIsLive(states: seq<State>, events: seq<Event>)
    requires IsRun(states, events)
    ensures !Stranded(states[0]) && !WasStranded(states, events, 0)
  {}

  /** So no wake-up is lost in any run whose stops miss that guard, or are made good afterwards. */
  lemma NoLostWakeUp(states: seq<State>, events: seq<Event>, n: nat)
    requires IsRun(states, events) && n < |states| && states[n].queue != []
    requires forall m :: 0 <= m < n && events[m] == StopTimer ==>
               !StopWouldStrand(states[m]) || MadeGood(events, m, n)
    ensures states[n].draining || states[n].timer || states[n].immediates > 0
  {
    hide Apply, StopWouldStrand, Inv;
    StrandedIff(states, events, n);
  }

  predicate MadeGood(events: seq<Event>, m: nat, n: nat)
    requires n <= |events|
  {
    exists k :: m < k < n && (events[k].Enqueue? || events[k] == StartTimer)
  }

  /** Such a run: mail queued under the timer, then the timer stopped before its next tick. */
  lemma StopStrands(m: Mail)
    ensures var s1 := Apply(INIT, StartTimer);
            var s2 := Apply(s1, Enqueue(m));
            Stranded(Apply(s2, StopTimer))
  {}

  // The retry loop as written ---------------------------------------------------------------------

  /** `deliverItem` over SMTP: it stops at the first success, else after three attempts. */
  method DeliverItem(results: seq<bool>) returns (attempts: nat, success: bool, slept: nat)
    requires |results| >= 3
    ensures RetryOutcome(results, attempts, success)
    ensures slept == if attempts == 1 then 0 else if attempts == 2 then 5000 else 35000
  {
    attempts, slept, success := 0, 0, false;
    while attempts < MAX_ATTEMPTS
      invariant attempts <= 3 && !success
      invariant forall k :: 0 <= k < attempts ==> !results[k]
      invariant attempts < 3
      invariant slept == if attempts == 0 then 0 else if attempts == 1 then 5000 else 35000
    {
      attempts := attempts + 1;
      if results[attempts - 1] {
        success := true;
        return;
      }
      if attempts >= MAX_ATTEMPTS {
        return;
      }
      slept := slept + if attempts == 1 then 5000 else 30_000;
    }
  }
}

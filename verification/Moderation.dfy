/** Comments, reports and the search index. Every event is one SQL transaction; the index is kept in
    step by the retry queue, whose worker turns one queue entry at a time into an index change. */
module Moderation {
  import opened Text
  import RetryQueue

  type Id = string

  datatype Visibility = Public | HiddenPendingReview | DeletedMark
  datatype CommentStatus = Active | Flagged | Hidden

  datatype Comment = Comment(content: string, visibility: Visibility, isDeleted: bool, status: CommentStatus)

  datatype ReportStatus = PendingReview | ResolvedKeep | ResolvedDeleted
  datatype Report = Report(commentId: Id, userId: Id, status: ReportStatus)

  datatype SyncEntry = SyncEntry(commentId: Id, item: RetryQueue.Item)

  /** The full-text table has no key on `comment_id`, so a comment may own several index rows. */
  datatype IndexRow = IndexRow(commentId: Id, content: string)

  /** `history` records, per sync entry, what its attempts amounted to. */
  datatype State = State(
    now: int,
    comments: map<Id, Comment>,
    reports: map<Id, Report>,
    index: seq<IndexRow>,
    sync: map<Id, SyncEntry>,
    history: map<Id, RetryQueue.History>)

  const INIT := State(0, map[], map[], [], map[], map[])

  datatype Action = Keep | Delete

  datatype Event =
    | Add(t: int, id: Id, syncId: Id, content: string)
    | ReportComment(t: int, reportId: Id, commentId: Id, userId: Id)
    | Resolve(t: int, reportId: Id, action: Action, syncId: Id)
    | Sync(t: int, syncId: Id, ok: bool)

  // HTML escaping of comment text --------------------------------------------------------------------

  function EscapeChar(c: char): string
  {
    if c == '&' then "&amp;" else if c == '<' then "&lt;" else if c == '>' then "&gt;"
    else if c == '"' then "&quot;" else if c == '\'' then "&#39;" else [c]
  }

  /** `escapeHtml`: the ampersand is replaced first, so the replacements act character by character. */
  function EscapeHtml(s: string): string
  {
    if s == "" then "" else EscapeChar(s[0]) + EscapeHtml(s[1..])
  }

  /** What a browser shows for escaped text. */
  function Unescape(s: string): string
  {
    if s == "" then ""
    else if "&amp;" <= s then "&" + Unescape(s[5..])
    else if "&lt;" <= s then "<" + Unescape(s[4..])
    else if "&gt;" <= s then ">" + Unescape(s[4..])
    else if "&quot;" <= s then "\"" + Unescape(s[6..])
    else if "&#39;" <= s then "'" + Unescape(s[5..])
    else [s[0]] + Unescape(s[1..])
  }

  lemma UnescapeOne(c: char, rest: string)
    ensures Unescape(EscapeChar(c) + rest) == [c] + Unescape(rest)
  {
    var e := EscapeChar(c);
    var s := e + rest;
    assert s[|e|..] == rest && e <= s;
    if c == '&' {
    } else if c == '<' {
      NotPrefix(e, "&amp;", s);
    } else if c == '>' {
      NotPrefix(e, "&amp;", s);
      NotPrefix(e, "&lt;", s);
    } else if c == '"' {
      NotPrefix(e, "&amp;", s);
      NotPrefix(e, "&lt;", s);
      NotPrefix(e, "&gt;", s);
    } else if c == '\'' {
      NotPrefix(e, "&amp;", s);
      NotPrefix(e, "&lt;", s);
      NotPrefix(e, "&gt;", s);
      NotPrefix(e, "&quot;", s);
    } else {
      assert s[0] == c;
    }
  }

  lemma NotPrefix(a: string, b: string, s: string)
    requires a <= s && |a| > 1 && |b| > 1 && a[1] != b[1]
    ensures !(b <= s)
  {}

  /** Escaping leaves no character that could open markup or close an attribute, and loses nothing. */
  lemma {:induction false} EscapeIsSafeAndLossless(s: string)
    ensures forall c :: c in EscapeHtml(s) ==> c != '<' && c != '>' && c != '"' && c != '\''
    ensures Unescape(EscapeHtml(s)) == s
    decreases |s|
  {
    hide Unescape;
    if s == "" {
      UnescapeEmpty();
    } else {
      EscapeIsSafeAndLossless(s[1..]);
      UnescapeOne(s[0], EscapeHtml(s[1..]));
    }
  }

  lemma UnescapeEmpty()
    ensures Unescape("") == ""
  {}

  // Transactions -----------------------------------------------------------------------------------

  function WithoutComment(index: seq<IndexRow>, id: Id): seq<IndexRow>
  {
    if index == [] then []
    else if index[0].commentId == id then WithoutComment(index[1..], id)
    else [index[0]] + WithoutComment(index[1..], id)
  }

  lemma {:induction false} WithoutCommentMembers(index: seq<IndexRow>, id: Id)
    ensures forall r :: r in WithoutComment(index, id) <==> r in index && r.commentId != id
    decreases |index|
  {
    if index != [] {
      WithoutCommentMembers(index[1..], id);
      assert index == [index[0]] + index[1..];
    }
  }

  function PendingReports(reports: map<Id, Report>, commentId: Id): set<Id>
  {
    set r | r in reports && reports[r].commentId == commentId && reports[r].status == PendingReview
  }

  predicate Duplicate(reports: map<Id, Report>, commentId: Id, userId: Id)
  {
    exists r :: r in reports && reports[r].commentId == commentId && reports[r].userId == userId
  }

  function Shown(c: Comment): bool { c.visibility == Public && !c.isDeleted }

  /** Ids are fresh. The check that a reported comment still exists precedes its transaction, so the
      comment may have been deleted by then. */
  predicate Enabled(s: State, e: Event)
  {
    && s.now <= e.t
    && match e
       case Add(_, id, syncId, _) => id !in s.comments && syncId !in s.sync
       case ReportComment(_, reportId, commentId, _) => reportId !in s.reports && commentId in s.comments
       case Resolve(_, reportId, _, syncId) =>
         reportId in s.reports && s.reports[reportId].commentId in s.comments && syncId !in s.sync
       case Sync(t, syncId, _) => syncId in s.sync && RetryQueue.Due(s.sync[syncId].item, t)
  }

  function NewSync(commentId: Id, t: int): SyncEntry { SyncEntry(commentId, RetryQueue.NewItem(t)) }

  const NEW_HISTORY := RetryQueue.History(0, None, None)

  /** The insert, unless the user has already reported this comment, then the escalation check. */
  function ReportTx(s: State, t: int, reportId: Id, commentId: Id, userId: Id): State
    requires commentId in s.comments
  {
    var reports := if Duplicate(s.reports, commentId, userId) then s.reports
                   else s.reports[reportId := Report(commentId, userId, PendingReview)];
    var s1 := s.(now := t, reports := reports);
    if |PendingReports(reports, commentId)| > 5
    then s1.(comments := s.comments[commentId := s.comments[commentId].(visibility := HiddenPendingReview, status := Flagged)])
    else s1
  }

  function ResolveTx(s: State, t: int, reportId: Id, action: Action, syncId: Id): State
    requires reportId in s.reports && s.reports[reportId].commentId in s.comments
  {
    var r := s.reports[reportId];
    var c := s.comments[r.commentId];
    match action
    case Delete =>
      s.(now := t, reports := s.reports[reportId := r.(status := ResolvedDeleted)],
         comments := s.comments[r.commentId := c.(visibility := DeletedMark, isDeleted := true, status := Hidden)],
         index := WithoutComment(s.index, r.commentId))
    case Keep =>
      s.(now := t, reports := s.reports[reportId := r.(status := ResolvedKeep)],
         comments := s.comments[r.commentId := c.(visibility := Public, status := Active)],
         sync := s.sync[syncId := NewSync(r.commentId, t)], history := s.history[syncId := NEW_HISTORY])
  }

  /** The index change of one entry, from the comment as it is inside the transaction. */
  function SyncIndex(s: State, id: Id): seq<IndexRow>
  {
    if id !in s.comments || !Shown(s.comments[id]) then WithoutComment(s.index, id)
    else s.index + [IndexRow(id, s.comments[id].content)]
  }

  function SyncTx(s: State, t: int, syncId: Id, ok: bool): State
    requires syncId in s.sync
  {
    var e := s.sync[syncId];
    var item := RetryQueue.Processed(e.item, e.item.attempts, ok, t);
    var s1 := s.(now := t, sync := s.sync[syncId := e.(item := item)],
                 history := if syncId in s.history then s.history[syncId := RetryQueue.Recorded(s.history[syncId], item, ok, t)]
                            else s.history);
    if ok then s1.(index := SyncIndex(s, e.commentId)) else s1
  }

  function Apply(s: State, e: Event): State
    requires Enabled(s, e)
  {
    match e
    case Add(t, id, syncId, content) =>
      s.(now := t, comments := s.comments[id := Comment(EscapeHtml(Trim(content)), Public, false, Active)],
         sync := s.sync[syncId := NewSync(id, t)], history := s.history[syncId := NEW_HISTORY])
    case ReportComment(t, reportId, commentId, userId) => ReportTx(s, t, reportId, commentId, userId)
    case Resolve(t, reportId, action, syncId) => ResolveTx(s, t, reportId, action, syncId)
    case Sync(t, syncId, ok) => SyncTx(s, t, syncId, ok)
  }

  ghost predicate IsRun(states: seq<State>, events: seq<Event>)
  {
    && |states| == |events| + 1
    && states[0] == INIT
    && forall i :: 0 <= i < |events| ==> Enabled(states[i], events[i]) && states[i + 1] == Apply(states[i], events[i])
  }

  // Transactions, by columns -------------------------------------------------------------------------

  /** A report is stored unless the same user has reported the same comment before. If then more than
      five reports of the comment are pending, the comment is hidden and flagged; nothing else changes. */
  lemma ReportByColumns(s: State, t: int, reportId: Id, commentId: Id, userId: Id)
    requires commentId in s.comments && reportId !in s.reports
    ensures var s' := ReportTx(s, t, reportId, commentId, userId);
            var again := exists r :: r in s.reports && s.reports[r].commentId == commentId && s.reports[r].userId == userId;
            var pending := set r | r in s'.reports && s'.reports[r].commentId == commentId && s'.reports[r].status == PendingReview;
            var before := s.comments[commentId];
            && s'.reports == (if again then s.reports else s.reports[reportId := Report(commentId, userId, PendingReview)])
            && s'.comments == (if |pending| > 5
                               then s.comments[commentId := Comment(before.content, HiddenPendingReview, before.isDeleted, Flagged)]
                               else s.comments)
            && s'.index == s.index && s'.sync == s.sync && s'.now == t
  {
    var s' := ReportTx(s, t, reportId, commentId, userId);
    assert PendingReports(s'.reports, commentId)
           == set r | r in s'.reports && s'.reports[r].commentId == commentId && s'.reports[r].status == PendingReview;
  }

  /** Deleting marks report and comment, and takes the comment's rows out of the index; keeping makes the
      comment public again and queues one sync that is due at once. Neither touches other comments. */
  lemma ResolveByColumns(s: State, t: int, reportId: Id, action: Action, syncId: Id)
    requires reportId in s.reports && s.reports[reportId].commentId in s.comments
    ensures var s' := ResolveTx(s, t, reportId, action, syncId);
            var r := s.reports[reportId];
            var c := s.comments[r.commentId];
            s'.now == t
            && match action
            case Delete =>
              && s'.reports == s.reports[reportId := Report(r.commentId, r.userId, ResolvedDeleted)]
              && s'.comments == s.comments[r.commentId := Comment(c.content, DeletedMark, true, Hidden)]
              && (forall x :: x in s'.index <==> x in s.index && x.commentId != r.commentId)
              && s'.sync == s.sync
            case Keep =>
              && s'.reports == s.reports[reportId := Report(r.commentId, r.userId, ResolvedKeep)]
              && s'.comments == s.comments[r.commentId := Comment(c.content, Public, c.isDeleted, Active)]
              && s'.index == s.index
              && s'.sync == s.sync[syncId := SyncEntry(r.commentId, RetryQueue.Item(RetryQueue.Pending, 0, t))]
  {
    WithoutCommentMembers(s.index, s.reports[reportId].commentId);
  }

  /** A successful sync adds a row with the comment's text if the comment is public and not deleted, and
      removes all its rows otherwise; a failed one leaves the index alone. */
  lemma SyncByColumns(s: State, t: int, syncId: Id, ok: bool)
    requires syncId in s.sync
    ensures var s' := SyncTx(s, t, syncId, ok);
            var id := s.sync[syncId].commentId;
            var listed := id in s.comments && s.comments[id].visibility == Public && !s.comments[id].isDeleted;
            && s'.comments == s.comments && s'.reports == s.reports && s'.now == t
            && (!ok ==> s'.index == s.index)
            && (ok && listed ==> s'.index == s.index + [IndexRow(id, s.comments[id].content)])
            && (ok && !listed ==> forall x :: x in s'.index <==> x in s.index && x.commentId != id)
            && (forall k :: k in s.sync && k != syncId ==> k in s'.sync && s'.sync[k] == s.sync[k])
            && syncId in s'.sync && s'.sync[syncId].commentId == id && s'.sync[syncId].item == RetryQueue.Processed(s.sync[syncId].item, s.sync[syncId].item.attempts, ok, t)
  {
    WithoutCommentMembers(s.index, s.sync[syncId].commentId);
  }

  // The invariant ----------------------------------------------------------------------------------

  ghost predicate Indexed(s: State, id: Id) { exists r :: r in s.index && r.commentId == id }

  /** A queue entry for the comment that has not been carried out. */
  ghost predicate Unsynced(s: State, id: Id)
  {
    exists k :: k in s.sync && s.sync[k].commentId == id && s.sync[k].item.status != RetryQueue.Done
  }

  ghost predicate Covered(s: State, id: Id) { Indexed(s, id) || Unsynced(s, id) }

  ghost predicate SyncOk(s: State)
  {
    && s.history.Keys == s.sync.Keys
    && forall k :: k in s.sync ==> s.sync[k].commentId in s.comments && RetryQueue.ItemOk(s.sync[k].item, s.history[k], s.now)
  }

  ghost predicate Inv(s: State)
  {
    && (forall id :: id in s.comments && Shown(s.comments[id]) ==> Covered(s, id))
    && (forall r :: r in s.index ==>
          r.commentId in s.comments && !s.comments[r.commentId].isDeleted && r.content == s.comments[r.commentId].content)
    && SyncOk(s)
  }

  /** Coverage survives when index and queue only grow. */
  lemma CoveredGrows(s: State, s': State, id: Id)
    requires Covered(s, id)
    requires forall r :: r in s.index && r.commentId == id ==> r in s'.index
    requires forall k :: k in s.sync && s.sync[k].commentId == id ==>
               k in s'.sync && s'.sync[k].commentId == id
               && (s.sync[k].item.status != RetryQueue.Done ==> s'.sync[k].item.status != RetryQueue.Done)
    ensures Covered(s', id)
  {
    if Indexed(s, id) {
      var r :| r in s.index && r.commentId == id;
      assert r in s'.index;
    } else {
      var k :| k in s.sync && s.sync[k].commentId == id && s.sync[k].item.status != RetryQueue.Done;
      assert k in s'.sync;
    }
  }

  lemma SyncOkStep(s: State, e: Event)
    requires SyncOk(s) && Enabled(s, e)
    ensures SyncOk(Apply(s, e))
  {
    hide RetryQueue.ItemOk, RetryQueue.Processed, RetryQueue.Recorded, WithoutComment, Duplicate, PendingReports, EscapeHtml, Trim, SyncIndex;
    var s' := Apply(s, e);
    forall k | k in s.sync
      ensures RetryQueue.ItemOk(s.sync[k].item, s.history[k], e.t)
    {
      RetryQueue.ItemOkLater(s.sync[k].item, s.history[k], s.now, e.t);
    }
    match e
    case Add(t, _, _, _) => NewItemOk(t);
    case Resolve(t, _, _, _) => NewItemOk(t);
    case Sync(t, k, ok) => RetryQueue.ProcessKeepsItem(s.sync[k].item, s.history[k], t, t, ok);
    case ReportComment(_, _, _, _) =>
  }

  lemma SyncKnown(s: State)
    requires SyncOk(s)
    ensures forall k :: k in s.sync ==> s.sync[k].commentId in s.comments
  {}

  lemma NewItemOk(t: int)
    ensures RetryQueue.ItemOk(RetryQueue.NewItem(t), NEW_HISTORY, t)
  {}

  lemma AddKeeps(s: State, e: Event)
    requires Inv(s) && e.Add? && Enabled(s, e)
    ensures Inv(Apply(s, e))
  {
    hide SyncOk, Covered, EscapeHtml, Trim;
    SyncOkStep(s, e);
    SyncKnown(s);
    var s' := Apply(s, e);
    forall id | id in s'.comments && Shown(s'.comments[id])
      ensures Covered(s', id)
    {
      if id == e.id {
        FreshSyncCovers(s', e.syncId, id);
      } else {
        CoveredGrows(s, s', id);
      }
    }
  }

  lemma FreshSyncCovers(s: State, k: Id, id: Id)
    requires k in s.sync && s.sync[k].commentId == id && s.sync[k].item.status != RetryQueue.Done
    ensures Covered(s, id)
  {
    assert Unsynced(s, id);
  }

  lemma ReportKeeps(s: State, e: Event)
    requires Inv(s) && e.ReportComment? && Enabled(s, e)
    ensures Inv(Apply(s, e))
  {
    hide SyncOk, Covered, Duplicate, PendingReports;
    SyncOkStep(s, e);
    SyncKnown(s);
    var s' := Apply(s, e);
    forall id | id in s'.comments && Shown(s'.comments[id])
      ensures Covered(s', id)
    {
      CoveredGrows(s, s', id);
    }
  }

  lemma ResolveKeeps(s: State, e: Event)
    requires Inv(s) && e.Resolve? && Enabled(s, e)
    ensures Inv(Apply(s, e))
  {
    hide SyncOk, Covered, WithoutComment;
    SyncOkStep(s, e);
    SyncKnown(s);
    var s' := Apply(s, e);
    var cid := s.reports[e.reportId].commentId;
    WithoutCommentMembers(s.index, cid);
    forall id | id in s'.comments && Shown(s'.comments[id])
      ensures Covered(s', id)
    {
      if id == cid {
        FreshSyncCovers(s', e.syncId, id);
      } else {
        CoveredGrows(s, s', id);
      }
    }
  }

  lemma SyncKeeps(s: State, e: Event)
    requires Inv(s) && e.Sync? && Enabled(s, e)
    ensures Inv(Apply(s, e))
  {
    hide SyncOk, Covered, WithoutComment;
    SyncOkStep(s, e);
    SyncKnown(s);
    var s' := Apply(s, e);
    var cid := s.sync[e.syncId].commentId;
    WithoutCommentMembers(s.index, cid);
    forall id | id in s'.comments && Shown(s'.comments[id])
      ensures Covered(s', id)
    {
      if id == cid && e.ok {
        IndexedCovers(s', IndexRow(id, s.comments[id].content));
      } else {
        CoveredGrows(s, s', id);
      }
    }
  }

  lemma IndexedCovers(s: State, r: IndexRow)
    requires r in s.index
    ensures Covered(s, r.commentId)
  {
    assert Indexed(s, r.commentId);
  }

  lemma StepKeepsInv(s: State, e: Event)
    requires Inv(s) && Enabled(s, e)
    ensures Inv(Apply(s, e))
  {
    hide Inv, Enabled, Apply;
    match e
    case Add(_, _, _, _) => AddKeeps(s, e);
    case ReportComment(_, _, _, _) => ReportKeeps(s, e);
    case Resolve(_, _, _, _) => ResolveKeeps(s, e);
    case Sync(_, _, _) => SyncKeeps(s, e);
  }

  lemma {:induction false} RunKeepsInv(states: seq<State>, events: seq<Event>, n: nat)
    requires IsRun(states, events) && n < |states|
    ensures Inv(states[n])
  {
    hide Inv, Apply, Enabled;
    if n == 0 {
      InitInv();
    } else {
      RunKeepsInv(states, events, n - 1);
      StepKeepsInv(states[n - 1], events[n - 1]);
    }
  }

  lemma InitInv()
    ensures Inv(INIT)
  {}

  // What every run guarantees ------------------------------------------------------------------------

  /** What is stored for a submitted text: no character that opens markup, and unescaping gives the
      trimmed text back. */
  predicate SafelyStores(content: string, submitted: string)
  {
    (forall c :: c in content ==> c != '<' && c != '>' && c != '"' && c != '\'') && Unescape(content) == Trim(submitted)
  }

  predicate AddedAt(events: seq<Event>, m: nat, id: Id, content: string)
    requires m < |events|
  {
    events[m].Add? && events[m].id == id && SafelyStores(content, events[m].content)
  }

  lemma ContentStep(s: State, e: Event, id: Id)
    requires Enabled(s, e) && id in Apply(s, e).comments
    ensures id in s.comments ==> Apply(s, e).comments[id].content == s.comments[id].content
    ensures id !in s.comments ==> e.Add? && e.id == id && SafelyStores(Apply(s, e).comments[id].content, e.content)
  {
    hide Duplicate, PendingReports, EscapeHtml, Unescape, Trim, WithoutComment;
    if e.Add? {
      EscapeIsSafeAndLossless(Trim(e.content));
    }
  }

  /** In every run every stored comment, and with it every index row, is the safely stored form of the
      text some `addComment` submitted for it. */
  lemma {:induction false} StoredTextIsSafe(states: seq<State>, events: seq<Event>, n: nat, id: Id)
    requires IsRun(states, events) && n < |states| && id in states[n].comments
    ensures exists m :: 0 <= m < n && AddedAt(events, m, id, states[n].comments[id].content)
    ensures forall r :: r in states[n].index && r.commentId == id ==> r.content == states[n].comments[id].content
    decreases n
  {
    hide Apply, Enabled, SafelyStores;
    RunKeepsInv(states, events, n);
    if n > 0 {
      ContentStep(states[n - 1], events[n - 1], id);
      if id in states[n - 1].comments {
        StoredTextIsSafe(states, events, n - 1, id);
      } else {
        assert AddedAt(events, n - 1, id, states[n].comments[id].content);
      }
    }
  }

  /** An entry the worker will still take up, at the latest when its backoff has passed. */
  ghost predicate WorkDue(s: State, id: Id)
  {
    exists k :: k in s.sync && s.sync[k].commentId == id && RetryQueue.Live(s.sync[k].item)
  }

  /** An entry given up after exactly five attempts; no worker will ever take it up again. */
  ghost predicate GivenUp(s: State, id: Id)
  {
    exists k :: k in s.sync && s.sync[k].commentId == id && DeadAfterFive(s.sync[k].item)
  }

  predicate DeadAfterFive(it: RetryQueue.Item) { it.status == RetryQueue.DeadLetter && it.attempts == 5 }

  /** Every public undeleted comment is in the search index, or has an entry the worker will still
      take up, or has one that was given up after exactly five attempts. */
  lemma PublicCommentsAreCovered(states: seq<State>, events: seq<Event>, n: nat, id: Id)
    requires IsRun(states, events) && n < |states|
    requires id in states[n].comments && states[n].comments[id].visibility == Public && !states[n].comments[id].isDeleted
    ensures Indexed(states[n], id) || WorkDue(states[n], id) || GivenUp(states[n], id)
  {
    hide Apply, Indexed;
    RunKeepsInv(states, events, n);
    var s := states[n];
    if !Indexed(s, id) {
      var k :| k in s.sync && s.sync[k].commentId == id && s.sync[k].item.status != RetryQueue.Done;
      assert RetryQueue.ItemOk(s.sync[k].item, s.history[k], s.now);
      assert RetryQueue.Live(s.sync[k].item) || DeadAfterFive(s.sync[k].item);
    }
  }

  /** What is given up stays given up: no step takes such an entry up again. */
  lemma GivenUpIsNeverDue(s: State, e: Event, k: Id)
    requires Enabled(s, e) && k in s.sync && DeadAfterFive(s.sync[k].item)
    ensures k in Apply(s, e).sync && Apply(s, e).sync[k] == s.sync[k]
  {
    hide RetryQueue.Processed, WithoutComment, Duplicate, PendingReports, EscapeHtml, Trim, SyncIndex;
  }

  /** The search-index queue keeps the retry discipline in every run: pending means no attempt, retry
      one to four, dead-letter exactly five; at most five calls, and dead-lettering no sooner than 780
      seconds after the first failure. */
  lemma SyncQueueKeepsDiscipline(states: seq<State>, events: seq<Event>, n: nat, k: Id)
    requires IsRun(states, events) && n < |states| && k in states[n].sync
    ensures k in states[n].history
    ensures var it, h := states[n].sync[k].item, states[n].history[k];
            && (it.status == RetryQueue.Pending ==> it.attempts == 0)
            && (it.status == RetryQueue.Retry ==> 1 <= it.attempts <= 4)
            && (it.status == RetryQueue.DeadLetter ==> it.attempts == 5 && h.firstFailure.Some? && h.deadAt.Some?
                                                       && h.deadAt.value >= h.firstFailure.value + 780_000)
            && h.calls <= 5
  {
    hide Apply;
    RunKeepsInv(states, events, n);
    var s := states[n];
    assert RetryQueue.ItemOk(s.sync[k].item, s.history[k], s.now);
    RetryQueue.WaitedFour();
  }

  /** Every index row shows the current text of an existing, undeleted comment. */
  lemma IndexIsFaithful(states: seq<State>, events: seq<Event>, n: nat, r: IndexRow)
    requires IsRun(states, events) && n < |states| && r in states[n].index
    ensures r.commentId in states[n].comments && !states[n].comments[r.commentId].isDeleted
    ensures r.content == states[n].comments[r.commentId].content
  {
    hide Apply;
    RunKeepsInv(states, events, n);
  }

  lemma StepKeepsDeleted(s: State, e: Event, id: Id)
    requires Enabled(s, e) && id in s.comments && s.comments[id].isDeleted
    ensures id in Apply(s, e).comments && Apply(s, e).comments[id].isDeleted
  {
    hide WithoutComment, Duplicate, PendingReports, EscapeHtml, Trim;
  }

  /** A deleted comment stays deleted, is never listed and never in the index again, whatever
      happens to other reports about it, later "keep" decisions included. */
  lemma {:induction false} DeletedIsForEver(states: seq<State>, events: seq<Event>, m: nat, n: nat, id: Id)
    requires IsRun(states, events) && m <= n < |states|
    requires id in states[m].comments && states[m].comments[id].isDeleted
    ensures id in states[n].comments && states[n].comments[id].isDeleted
    ensures forall r :: r in states[n].index ==> r.commentId != id
    decreases n - m
  {
    hide Apply, Enabled;
    RunKeepsInv(states, events, n);
    if m < n {
      DeletedIsForEver(states, events, m, n - 1, id);
      StepKeepsDeleted(states[n - 1], events[n - 1], id);
    }
  }

  /** Six pending reports by six users hide a comment, and five do not. */
  lemma SixReportsHide(s: State, t: int, reportId: Id, commentId: Id, userId: Id)
    requires commentId in s.comments && reportId !in s.reports
    ensures var s' := ReportTx(s, t, reportId, commentId, userId);
            if Counted(s, commentId, userId) > 5 then s'.comments[commentId].visibility == HiddenPendingReview
            else s'.comments == s.comments
  {
    if !Duplicate(s.reports, commentId, userId) {
      var reports := s.reports[reportId := Report(commentId, userId, PendingReview)];
      assert PendingReports(reports, commentId) == PendingReports(s.reports, commentId) + {reportId};
    }
  }

  // Hidden comments in the index -------------------------------------------------------------------------

  /** The pending reports a report of this user leaves the comment with. */
  function Counted(s: State, commentId: Id, userId: Id): nat
  {
    |PendingReports(s.reports, commentId)| + if Duplicate(s.reports, commentId, userId) then 0 else 1
  }

  /** A report leaves a listed comment hidden yet still indexed exactly when it brings the pending reports
      above five and the comment was indexed. */
  lemma ReportHidesIndexedIff(s: State, t: int, reportId: Id, commentId: Id, userId: Id)
    requires commentId in s.comments && reportId !in s.reports && s.comments[commentId].visibility == Public
    ensures var s' := ReportTx(s, t, reportId, commentId, userId);
            Indexed(s', commentId) && s'.comments[commentId].visibility != Public <==> Indexed(s, commentId) && Counted(s, commentId, userId) > 5
  {
    hide PendingReports, Duplicate;
    SixReportsHide(s, t, reportId, commentId, userId);
    assert ReportTx(s, t, reportId, commentId, userId).index == s.index;
  }

  /** A step that removes the rows of a hidden comment: a successful sync of one of its entries, or
      its deletion. */
  predicate Clears(s: State, e: Event, id: Id)
  {
    match e
    case Sync(_, k, ok) => ok && k in s.sync && s.sync[k].commentId == id
    case Resolve(_, r, action, _) => action == Delete && r in s.reports && s.reports[r].commentId == id
    case _ => false
  }

  lemma HiddenStep(s: State, e: Event, id: Id)
    requires Enabled(s, e) && id in s.comments && !Shown(s.comments[id])
    ensures id in Apply(s, e).comments
    ensures !Shown(Apply(s, e).comments[id]) ==> (Indexed(Apply(s, e), id) <==> Indexed(s, id) && !Clears(s, e, id))
  {
    hide WithoutComment, Duplicate, PendingReports, EscapeHtml, Trim, RetryQueue.Processed, RetryQueue.Recorded;
    var s' := Apply(s, e);
    match e
    case Sync(_, k, ok) =>
      var cid := s.sync[k].commentId;
      WithoutCommentMembers(s.index, cid);
      if ok && cid != id && cid in s.comments && Shown(s.comments[cid]) {
        AppendIndexed(s, s', id, IndexRow(cid, s.comments[cid].content));
      }
    case Resolve(_, r, _, _) => WithoutCommentMembers(s.index, s.reports[r].commentId);
    case _ => assert s'.index == s.index;
  }

  lemma AppendIndexed(s: State, s': State, id: Id, r: IndexRow)
    requires s'.index == s.index + [r] && r.commentId != id
    ensures Indexed(s', id) <==> Indexed(s, id)
  {
    if Indexed(s, id) {
      var x :| x in s.index && x.commentId == id;
      assert x in s'.index;
    }
  }

  /** While a comment is hidden, its index rows stay until the first step that clears them, and no row
      comes back. */
  lemma {:induction false} HiddenRowsStayUntilCleared(states: seq<State>, events: seq<Event>, m: nat, n: nat, id: Id)
    requires IsRun(states, events) && m <= n < |states|
    requires forall k :: m <= k <= n ==>
               id in states[k].comments && (states[k].comments[id].visibility != Public || states[k].comments[id].isDeleted)
    ensures Indexed(states[n], id) <==> Indexed(states[m], id) && forall k :: m <= k < n ==> !Clears(states[k], events[k], id)
    decreases n - m
  {
    hide Apply, Indexed, Clears, Enabled;
    if m < n {
      HiddenRowsStayUntilCleared(states, events, m, n - 1, id);
      HiddenStep(states[n - 1], events[n - 1], id);
    }
  }

  // Such a run -------------------------------------------------------------------------------------------

  ghost predicate Leads(s: State, events: seq<Event>, s': State)
    decreases |events|
  {
    if events == [] then s' == s else Enabled(s, events[0]) && Leads(Apply(s, events[0]), events[1..], s')
  }

  lemma {:induction false} LeadsOn(s: State, a: seq<Event>, m: State, b: seq<Event>, s': State)
    requires Leads(s, a, m) && Leads(m, b, s')
    ensures Leads(s, a + b, s')
    decreases |a|
  {
    hide Enabled, Apply;
    if a == [] {
      assert a + b == b;
    } else {
      LeadsOn(Apply(s, a[0]), a[1..], m, b, s');
      assert (a + b)[1..] == a[1..] + b;
    }
  }

  ghost predicate Distinct(ids: seq<Id>) { forall i, j :: 0 <= i < j < |ids| ==> ids[i] != ids[j] }

  function ReportEvents(id: Id, reportIds: seq<Id>, users: seq<Id>, n: nat): seq<Event>
    requires n <= |reportIds| && n <= |users|
  {
    seq(n, k requires 0 <= k < n => ReportComment(0, reportIds[k], id, users[k]))
  }

  /** Exactly the first `n` reports are there, all pending. */
  ghost predicate AllPending(reports: map<Id, Report>, id: Id, reportIds: seq<Id>, users: seq<Id>, n: nat)
    requires n <= |reportIds| && n <= |users|
  {
    && (forall r :: r in reports <==> r in reportIds[..n])
    && (forall k :: 0 <= k < n ==> reportIds[k] in reports && reports[reportIds[k]] == Report(id, users[k], PendingReview))
  }

  /** After `n` reports by different users exactly those are pending, and the comment is listed while
      there are at most five. */
  ghost predicate ReportedBy(s: State, id: Id, reportIds: seq<Id>, users: seq<Id>, n: nat)
    requires n <= |reportIds| && n <= |users|
  {
    && s.now == 0 && id in s.comments && Indexed(s, id)
    && AllPending(s.reports, id, reportIds, users, n) && |PendingReports(s.reports, id)| == n
    && s.comments[id].visibility == if n <= 5 then Public else HiddenPendingReview
  }

  lemma PendingGrows(reports: map<Id, Report>, id: Id, reportIds: seq<Id>, users: seq<Id>, n: nat)
    requires 0 < n <= |reportIds| == |users| && Distinct(reportIds) && Distinct(users)
    requires AllPending(reports, id, reportIds, users, n - 1)
    ensures reportIds[n - 1] !in reports && !Duplicate(reports, id, users[n - 1])
    ensures var after := reports[reportIds[n - 1] := Report(id, users[n - 1], PendingReview)];
            AllPending(after, id, reportIds, users, n)
            && |PendingReports(after, id)| == |PendingReports(reports, id)| + 1
  {
    var r := reportIds[n - 1];
    var after := reports[r := Report(id, users[n - 1], PendingReview)];
    assert reportIds[..n] == reportIds[..n - 1] + [r];
    assert PendingReports(after, id) == PendingReports(reports, id) + {r};
  }

  lemma OneMoreReport(m: State, id: Id, reportIds: seq<Id>, users: seq<Id>, n: nat)
    requires |reportIds| == |users| == 6 && Distinct(reportIds) && Distinct(users) && 0 < n <= 6
    requires ReportedBy(m, id, reportIds, users, n - 1)
    ensures var e := ReportComment(0, reportIds[n - 1], id, users[n - 1]);
            Enabled(m, e) && ReportedBy(Apply(m, e), id, reportIds, users, n)
  {
    PendingGrows(m.reports, id, reportIds, users, n);
    hide AllPending, Duplicate, PendingReports, Distinct;
    assert Apply(m, ReportComment(0, reportIds[n - 1], id, users[n - 1])).index == m.index;
  }

  lemma {:induction false} ReportsAddUp(s: State, id: Id, reportIds: seq<Id>, users: seq<Id>, n: nat) returns (s': State)
    requires |reportIds| == |users| == 6 && Distinct(reportIds) && Distinct(users) && n <= 6
    requires ReportedBy(s, id, reportIds, users, 0)
    ensures Leads(s, ReportEvents(id, reportIds, users, n), s') && ReportedBy(s', id, reportIds, users, n)
    decreases n
  {
    hide ReportedBy, Distinct, Enabled, Apply;
    if n == 0 {
      s' := s;
    } else {
      var m := ReportsAddUp(s, id, reportIds, users, n - 1);
      var e := ReportComment(0, reportIds[n - 1], id, users[n - 1]);
      OneMoreReport(m, id, reportIds, users, n);
      s' := Apply(m, e);
      assert Leads(s', [], s');
      assert [e][1..] == [] && Leads(m, [e], s');
      LeadsOn(s, ReportEvents(id, reportIds, users, n - 1), m, [e], s');
      assert ReportEvents(id, reportIds, users, n - 1) + [e] == ReportEvents(id, reportIds, users, n);
    }
  }

  /** Reachable: add, sync, then six reports by six users leave a hidden comment in the index. */
  lemma HiddenYetIndexed(id: Id, syncId: Id, content: string, reportIds: seq<Id>, users: seq<Id>)
    requires |reportIds| == |users| == 6 && Distinct(reportIds) && Distinct(users)
    ensures exists s :: Leads(INIT, [Add(0, id, syncId, content), Sync(0, syncId, true)] + ReportEvents(id, reportIds, users, 6), s)
                        && id in s.comments && s.comments[id].visibility == HiddenPendingReview && Indexed(s, id)
  {
    hide EscapeHtml, Trim;
    var add, sync := Add(0, id, syncId, content), Sync(0, syncId, true);
    var s1 := Apply(INIT, add);
    var s2 := Apply(s1, sync);
    assert IndexRow(id, s1.comments[id].content) in s2.index;
    assert PendingReports(s2.reports, id) == {};
    assert Leads(s2, [], s2) && [sync][1..] == [] && Leads(s1, [sync], s2);
    assert [add, sync][1..] == [sync] && Leads(INIT, [add, sync], s2);
    var s := ReportsAddUp(s2, id, reportIds, users, 6);
    LeadsOn(INIT, [add, sync], s2, ReportEvents(id, reportIds, users, 6), s);
  }
}

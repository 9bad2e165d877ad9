/**
 * The orchestrator's in-memory record of executor sessions: an entry per
 * session id, replaced wholesale on re-adding, with status updates, the
 * latest completed session, lookup by id and the most recently started
 * sessions. Timestamps are integers (seconds); the clock is a parameter.
 */
module SessionRecords {
  import opened StrUtil

  datatype SessionStatus = Active | Completed | Failed | Cancelled

  datatype SessionEntry = SessionEntry(
    sessionId: string,
    startedAt: int,
    completedAt: Option<int>,
    prompt: string,
    summary: Option<string>,
    status: SessionStatus,
    isResumed: bool,
    resumedFrom: Option<string>,
    executorType: string)

  /** No two entries share a session id. */
  predicate UniqueIds(s: seq<SessionEntry>)
  {
    forall i, j :: 0 <= i < j < |s| ==> s[i].sessionId != s[j].sessionId
  }

  // ---------------------------------------------------------------------------
  // Adding and updating
  // ---------------------------------------------------------------------------

  /** `retain(|e| e.session_id != id)`: the entries of another id, in order. */
  function WithoutId(s: seq<SessionEntry>, id: string): (r: seq<SessionEntry>)
    ensures |r| <= |s|
    ensures forall k :: 0 <= k < |r| ==> r[k].sessionId != id && r[k] in s
    ensures forall k :: 0 <= k < |s| && s[k].sessionId != id ==> s[k] in r
  {
    if s == [] then []
    else if s[0].sessionId == id then WithoutId(s[1..], id)
    else [s[0]] + WithoutId(s[1..], id)
  }

  /** Dropping one id keeps the others unique. */
  lemma {:induction false} WithoutIdUnique(s: seq<SessionEntry>, id: string)
    requires UniqueIds(s)
    ensures UniqueIds(WithoutId(s, id))
  {
    if s != [] {
      WithoutIdUnique(s[1..], id);
      var rest := WithoutId(s[1..], id);
      if s[0].sessionId != id {
        assert forall k :: 0 <= k < |rest| ==> rest[k] in s[1..];
        assert forall k :: 0 <= k < |rest| ==> rest[k].sessionId != s[0].sessionId;
      }
    }
  }

  /** `add_session`: any entry with the new entry's id goes, and the new entry is appended. */
  function Added(s: seq<SessionEntry>, e: SessionEntry): (r: seq<SessionEntry>)
    ensures r != [] && r[|r| - 1] == e
    ensures forall k :: 0 <= k < |r| - 1 ==> r[k].sessionId != e.sessionId && r[k] in s
    ensures forall k :: 0 <= k < |s| && s[k].sessionId != e.sessionId ==> s[k] in r
  {
    WithoutId(s, e.sessionId) + [e]
  }

  /** Adding keeps ids unique, whatever the new entry's id. */
  lemma AddedUnique(s: seq<SessionEntry>, e: SessionEntry)
    requires UniqueIds(s)
    ensures UniqueIds(Added(s, e))
  {
    WithoutIdUnique(s, e.sessionId);
  }

  /** `iter().find`: the first entry with the id. */
  function FindIndex(s: seq<SessionEntry>, id: string): (r: Option<nat>)
    ensures r.Some? ==> r.value < |s| && s[r.value].sessionId == id
    ensures r.Some? ==> forall k :: 0 <= k < r.value ==> s[k].sessionId != id
    ensures r.None? ==> forall k :: 0 <= k < |s| ==> s[k].sessionId != id
  {
    if s == [] then None
    else if s[0].sessionId == id then Some(0)
    else match FindIndex(s[1..], id)
      case None => None
      case Some(i) => Some(i + 1)
  }

  /** `get_session`. */
  function Lookup(s: seq<SessionEntry>, id: string): Option<SessionEntry>
  {
    match FindIndex(s, id)
    case None => None
    case Some(i) => Some(s[i])
  }

  /** After adding, looking the id up finds exactly the added entry. */
  lemma LookupAfterAdd(s: seq<SessionEntry>, e: SessionEntry)
    ensures Lookup(Added(s, e), e.sessionId) == Some(e)
  {
    var r := Added(s, e);
    assert FindIndex(r, e.sessionId) == Some(|r| - 1);
  }

  /** Adding an entry leaves the lookup of every other id unchanged, when ids are unique. */
  lemma LookupOtherAfterAdd(s: seq<SessionEntry>, e: SessionEntry, id: string)
    requires UniqueIds(s) && id != e.sessionId
    ensures Lookup(Added(s, e), id) == Lookup(s, id)
  {
    var r := Added(s, e);
    AddedUnique(s, e);
    match FindIndex(s, id)
    case None =>
      assert forall k :: 0 <= k < |r| ==> r[k].sessionId != id;
    case Some(i) =>
      assert s[i] in r;
      var j :| 0 <= j < |r| && r[j] == s[i];
      assert forall k :: 0 <= k < j ==> r[k].sessionId != r[j].sessionId;
      assert FindIndex(r, id) == Some(j);
  }

  /** The entry as `update_session_status` leaves it: a summary replaces the old one only when given. */
  function WithStatus(e: SessionEntry, status: SessionStatus, summary: Option<string>, now: int): SessionEntry
  {
    e.(status := status, completedAt := Some(now), summary := if summary.Some? then summary else e.summary)
  }

  /** `update_session_status`: the first entry with the id is updated; no entry, no change. */
  function Updated(s: seq<SessionEntry>, id: string, status: SessionStatus, summary: Option<string>, now: int): (r: seq<SessionEntry>)
    ensures |r| == |s|
    ensures FindIndex(s, id).None? ==> r == s
    ensures FindIndex(s, id).Some? ==> r == s[FindIndex(s, id).value := WithStatus(s[FindIndex(s, id).value], status, summary, now)]
  {
    match FindIndex(s, id)
    case None => s
    case Some(i) => s[i := WithStatus(s[i], status, summary, now)]
  }

  /** An update changes no id, so it keeps ids unique, and the updated entry is what the lookup finds. */
  lemma UpdatedLookup(s: seq<SessionEntry>, id: string, status: SessionStatus, summary: Option<string>, now: int)
    ensures forall k :: 0 <= k < |s| ==> Updated(s, id, status, summary, now)[k].sessionId == s[k].sessionId
    ensures UniqueIds(s) ==> UniqueIds(Updated(s, id, status, summary, now))
    ensures Lookup(s, id).None? ==> Lookup(Updated(s, id, status, summary, now), id).None?
    ensures Lookup(s, id).Some? ==>
      Lookup(Updated(s, id, status, summary, now), id) == Some(WithStatus(Lookup(s, id).value, status, summary, now))
  {
    var r := Updated(s, id, status, summary, now);
    assert forall k :: 0 <= k < |s| ==> r[k].sessionId == s[k].sessionId;
    if FindIndex(s, id).Some? {
      assert FindIndex(r, id) == FindIndex(s, id);
    } else {
      assert r == s;
    }
  }

  /** An update keeps the summary when none is given, and sets the status and completion time. */
  lemma UpdatedFields(s: seq<SessionEntry>, id: string, status: SessionStatus, summary: Option<string>, now: int)
    requires Lookup(s, id).Some?
    ensures Lookup(Updated(s, id, status, summary, now), id).Some?
    ensures var e := Lookup(Updated(s, id, status, summary, now), id).value;
      e.status == status && e.completedAt == Some(now)
      && e.summary == (if summary.Some? then summary else Lookup(s, id).value.summary)
      && e.prompt == Lookup(s, id).value.prompt && e.startedAt == Lookup(s, id).value.startedAt
  {
    UpdatedLookup(s, id, status, summary, now);
  }

  // ---------------------------------------------------------------------------
  // The latest completed session
  // ---------------------------------------------------------------------------

  /** The ordering of `Option<DateTime>`: no time comes before every time. */
  predicate TimeLe(a: Option<int>, b: Option<int>)
  {
    a.None? || (b.Some? && a.value <= b.value)
  }

  /**
   * `get_last_completed`: `max_by_key` over the completed entries, which on
   * a tie keeps the later entry.
   */
  function LastCompletedIndex(s: seq<SessionEntry>): (r: Option<nat>)
    ensures r.Some? ==> r.value < |s| && s[r.value].status == Completed
    decreases |s|
  {
    if s == [] then None
    else
      var best := LastCompletedIndex(s[..|s| - 1]);
      var e := s[|s| - 1];
      if e.status != Completed then best
      else if best.None? || TimeLe(s[best.value].completedAt, e.completedAt) then Some(|s| - 1)
      else best
  }

  /** `i` holds a completed entry no other completed entry is later than, and no later-placed one ties. */
  predicate LatestCompletedAt(s: seq<SessionEntry>, i: nat)
  {
    i < |s| && s[i].status == Completed
    && (forall j :: 0 <= j < |s| && s[j].status == Completed ==> TimeLe(s[j].completedAt, s[i].completedAt))
    && (forall j :: i < j < |s| && s[j].status == Completed ==> !TimeLe(s[i].completedAt, s[j].completedAt))
  }

  /** The result is the latest completion, the last of equals, and None only without a completed entry. */
  lemma {:induction false} LastCompletedIsLatest(s: seq<SessionEntry>)
    ensures LastCompletedIndex(s).None? <==> forall j :: 0 <= j < |s| ==> s[j].status != Completed
    ensures LastCompletedIndex(s).Some? ==> LatestCompletedAt(s, LastCompletedIndex(s).value)
    decreases |s|
  {
    if s != [] {
      var init := s[..|s| - 1];
      LastCompletedIsLatest(init);
      assert forall j :: 0 <= j < |init| ==> init[j] == s[j];
    }
  }

  /** At most one index fits: the latest completed entry is well defined. */
  lemma LatestCompletedUnique(s: seq<SessionEntry>, i: nat, i': nat)
    requires LatestCompletedAt(s, i) && LatestCompletedAt(s, i')
    ensures i == i'
  {
  }

  // ---------------------------------------------------------------------------
  // The most recently started sessions
  // ---------------------------------------------------------------------------

  /** Start times never increase along `t`. */
  predicate NewestFirst(t: seq<SessionEntry>)
  {
    forall i, j :: 0 <= i < j < |t| ==> t[j].startedAt <= t[i].startedAt
  }

  /** Places `x` ahead of the first entry started no later than it. */
  function InsertNewestFirst(x: SessionEntry, t: seq<SessionEntry>): (r: seq<SessionEntry>)
    ensures |r| == |t| + 1 && multiset(r) == multiset(t) + multiset{x}
  {
    if t == [] || t[0].startedAt <= x.startedAt then [x] + t
    else
      assert t == [t[0]] + t[1..];
      [t[0]] + InsertNewestFirst(x, t[1..])
  }

  /** Every entry of `t` started no later than `bound`. */
  predicate StartedBy(t: seq<SessionEntry>, bound: int)
  {
    forall k :: 0 <= k < |t| ==> t[k].startedAt <= bound
  }

  lemma {:induction false} InsertStartedBy(x: SessionEntry, t: seq<SessionEntry>, bound: int)
    requires StartedBy(t, bound) && x.startedAt <= bound
    ensures StartedBy(InsertNewestFirst(x, t), bound)
  {
    if t != [] && t[0].startedAt > x.startedAt {
      InsertStartedBy(x, t[1..], bound);
      assert InsertNewestFirst(x, t) == [t[0]] + InsertNewestFirst(x, t[1..]);
    }
  }

  lemma {:induction false} InsertKeepsOrder(x: SessionEntry, t: seq<SessionEntry>)
    requires NewestFirst(t)
    ensures NewestFirst(InsertNewestFirst(x, t))
  {
    if t != [] && t[0].startedAt > x.startedAt {
      InsertKeepsOrder(x, t[1..]);
      var r := InsertNewestFirst(x, t[1..]);
      assert StartedBy(t[1..], t[0].startedAt);
      InsertStartedBy(x, t[1..], t[0].startedAt);
      assert InsertNewestFirst(x, t) == [t[0]] + r;
    }
  }

  /**
   * `sort_by_key(|e| Reverse(e.started_at))`: a stable sort, newest start
   * first, written as an insertion sort.
   */
  function SortNewestFirst(s: seq<SessionEntry>): (r: seq<SessionEntry>)
    ensures |r| == |s| && multiset(r) == multiset(s)
  {
    if s == [] then []
    else
      assert s == [s[0]] + s[1..];
      InsertNewestFirst(s[0], SortNewestFirst(s[1..]))
  }

  lemma {:induction false} SortIsNewestFirst(s: seq<SessionEntry>)
    ensures NewestFirst(SortNewestFirst(s))
  {
    if s != [] {
      SortIsNewestFirst(s[1..]);
      InsertKeepsOrder(s[0], SortNewestFirst(s[1..]));
    }
  }

  /** The entries started at `time`, in order. */
  function StartedAt(s: seq<SessionEntry>, time: int): (r: seq<SessionEntry>)
    ensures |r| <= |s|
    ensures forall k :: 0 <= k < |r| ==> r[k].startedAt == time
  {
    if s == [] then []
    else (if s[0].startedAt == time then [s[0]] else []) + StartedAt(s[1..], time)
  }

  lemma StartedAtCons(y: SessionEntry, u: seq<SessionEntry>, time: int)
    ensures StartedAt([y] + u, time) == (if y.startedAt == time then [y] else []) + StartedAt(u, time)
  {
    assert ([y] + u)[1..] == u;
  }

  /** Inserting puts `x` ahead of every entry it shares a start time with. */
  lemma {:induction false} StartedAtInsert(x: SessionEntry, t: seq<SessionEntry>, time: int)
    ensures StartedAt(InsertNewestFirst(x, t), time) == (if x.startedAt == time then [x] else []) + StartedAt(t, time)
  {
    if t != [] && t[0].startedAt > x.startedAt {
      var rest := InsertNewestFirst(x, t[1..]);
      StartedAtInsert(x, t[1..], time);
      assert InsertNewestFirst(x, t) == [t[0]] + rest;
      StartedAtCons(t[0], rest, time);
      assert t == [t[0]] + t[1..];
      StartedAtCons(t[0], t[1..], time);
      if x.startedAt == time {
        assert StartedAt(t, time) == StartedAt(t[1..], time);
      } else {
        assert StartedAt(rest, time) == StartedAt(t[1..], time);
      }
    } else {
      StartedAtCons(x, t, time);
    }
  }

  /** Stability: entries with the same start time keep their original order. */
  lemma {:induction false} SortIsStable(s: seq<SessionEntry>, time: int)
    ensures StartedAt(SortNewestFirst(s), time) == StartedAt(s, time)
  {
    if s != [] {
      var rest := SortNewestFirst(s[1..]);
      assert SortNewestFirst(s) == InsertNewestFirst(s[0], rest);
      SortIsStable(s[1..], time);
      StartedAtInsert(s[0], rest, time);
    }
  }

  /** `get_recent(limit)`: the first `limit` entries of the sorted list. */
  function Recent(s: seq<SessionEntry>, limit: nat): (r: seq<SessionEntry>)
    ensures |r| == if |s| <= limit then |s| else limit
    ensures r == SortNewestFirst(s)[..|r|]
  {
    var sorted := SortNewestFirst(s);
    if |sorted| <= limit then sorted else sorted[..limit]
  }

  /**
   * The recent list is newest first, drawn from the history, and no entry
   * left out started later than one kept.
   */
  lemma RecentAreNewest(s: seq<SessionEntry>, limit: nat)
    ensures NewestFirst(Recent(s, limit))
    ensures multiset(Recent(s, limit)) <= multiset(s)
    ensures forall i, j :: 0 <= i < |Recent(s, limit)| <= j < |s| ==>
      SortNewestFirst(s)[j].startedAt <= Recent(s, limit)[i].startedAt
  {
    var sorted := SortNewestFirst(s);
    var r := Recent(s, limit);
    SortIsNewestFirst(s);
    assert sorted == r + sorted[|r|..];
    assert multiset(sorted) == multiset(r) + multiset(sorted[|r|..]);
    forall i, j | 0 <= i < j < |r| ensures r[j].startedAt <= r[i].startedAt {
      assert r[i] == sorted[i] && r[j] == sorted[j];
    }
    forall i, j | 0 <= i < |r| <= j < |s| ensures sorted[j].startedAt <= r[i].startedAt {
      assert r[i] == sorted[i];
    }
  }

  // ---------------------------------------------------------------------------
  // The history object
  // ---------------------------------------------------------------------------

  class SessionHistory {
    var entries: seq<SessionEntry>

    /**
     * `new`: the entries stored in the history file, or none when the file
     * is missing or unreadable (reading it is not modelled).
     */
    constructor (stored: Option<seq<SessionEntry>>)
      ensures entries == if stored.Some? then stored.value else []
    {
      entries := if stored.Some? then stored.value else [];
    }

    method AddSession(e: SessionEntry)
      modifies this
      ensures entries == Added(old(entries), e)
      ensures UniqueIds(old(entries)) ==> UniqueIds(entries)
    {
      if UniqueIds(entries) {
        AddedUnique(entries, e);
      }
      entries := Added(entries, e);
    }

    method UpdateSessionStatus(id: string, status: SessionStatus, summary: Option<string>, now: int)
      modifies this
      ensures entries == Updated(old(entries), id, status, summary, now)
      ensures UniqueIds(old(entries)) ==> UniqueIds(entries)
    {
      UpdatedLookup(entries, id, status, summary, now);
      entries := Updated(entries, id, status, summary, now);
    }

    function GetLastCompleted(): Option<SessionEntry>
      reads this
    {
      match LastCompletedIndex(entries)
      case None => None
      case Some(i) => Some(entries[i])
    }

    function GetSession(id: string): Option<SessionEntry>
      reads this
    {
      Lookup(entries, id)
    }

    function GetRecent(limit: nat): seq<SessionEntry>
      reads this
    {
      Recent(entries, limit)
    }
  }
}

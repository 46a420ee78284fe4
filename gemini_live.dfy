/** The persistence layer of Gemini Live: the `gemini_session` and
    `gemini_transcript` tables and the operations of `GeminiSessionsTable`
    and `GeminiTranscriptsTable`, over an in-memory store. The clock and
    the id generator are parameters: every reading of the clock in the
    source is its own argument here. */
module GeminiLive {
  import opened Wrappers
  import opened Seqs
  import opened Strings

  /** A row of `gemini_session`. `messageCount` is a nullable column. */
  datatype Session = Session(
    id: string,
    userId: string,
    title: Option<string>,
    summary: Option<string>,
    status: string,
    model: Option<string>,
    voice: Option<string>,
    messageCount: Option<int>,
    lastSummaryAt: Option<int>,
    updatedAt: int,
    createdAt: int)

  /** A row of `gemini_transcript`; `role` is free text ("user", "assistant", "system"). */
  datatype Transcript = Transcript(
    id: string,
    sessionId: string,
    role: string,
    content: string,
    audioDuration: Option<int>,
    timestamp: int)

  // ---------------------------------------------------------------------
  // Session rules
  // ---------------------------------------------------------------------

  /** `get_session_by_id`: the stored row, or None for an unknown id. */
  function GetSessionById(sessions: map<string, Session>, id: string): (r: Option<Session>)
    ensures r.Some? <==> id in sessions
    ensures r.Some? ==> r.value == sessions[id]
  {
    if id in sessions then Some(sessions[id]) else None
  }

  /** The ownership check of `update_session` and `delete_session`. */
  predicate OwnedBy(sessions: map<string, Session>, id: string, userId: string) {
    id in sessions && sessions[id].userId == userId
  }

  /** The field assignments of an authorized `update_session`. The source reads
      the clock once for `last_summary_at` and once more for `updated_at`. */
  function ApplyUpdate(s: Session, title: Option<string>, summary: Option<string>,
                       status: Option<string>, summaryClock: int, updateClock: int): (r: Session)
    ensures r.title == (if title.Some? then title else s.title)
    ensures r.summary == (if summary.Some? then summary else s.summary)
    ensures r.lastSummaryAt == (if summary.Some? then Some(summaryClock) else s.lastSummaryAt)
    ensures r.status == (if status.Some? then status.value else s.status)
    ensures r.updatedAt == updateClock
    // every other field keeps its value
    ensures r.(title := s.title, summary := s.summary, lastSummaryAt := s.lastSummaryAt,
               status := s.status, updatedAt := s.updatedAt) == s
  {
    var s1 := if title.Some? then s.(title := title) else s;
    var s2 := if summary.Some? then s1.(summary := summary, lastSummaryAt := Some(summaryClock)) else s1;
    var s3 := if status.Some? then s2.(status := status.value) else s2;
    s3.(updatedAt := updateClock)
  }

  /** The assignments of `increment_message_count`: a null count counts as 0. */
  function Incremented(s: Session, clock: int): (r: Session)
    ensures r.messageCount.Some? && r.messageCount.value == s.messageCount.GetOr(0) + 1
    ensures r.updatedAt == clock
    ensures r.(messageCount := s.messageCount, updatedAt := s.updatedAt) == s
  {
    s.(messageCount := Some(s.messageCount.GetOr(0) + 1), updatedAt := clock)
  }

  /** The session rows in some order (a map has none of its own). */
  ghost function Rows(m: map<string, Session>): (r: seq<Session>)
    ensures forall s :: s in r <==> s in m.Values
    decreases |m|
  {
    if m == map[] then []
    else
      var k :| k in m;
      var rest := m - {k};
      assert |rest| < |m| by { assert rest.Keys == m.Keys - {k}; }
      assert forall s :: s in rest.Values ==> s in m.Values;
      assert forall s :: s in m.Values ==> s == m[k] || s in rest.Values by {
        forall s | s in m.Values
          ensures s == m[k] || s in rest.Values
        {
          var j :| j in m && m[j] == s;
          if j != k {
            assert j in rest && rest[j] == s;
          }
        }
      }
      [m[k]] + Rows(rest)
  }

  function UpdatedAtDesc(s: Session): int { -s.updatedAt }

  function OfUser(userId: string): Session -> bool {
    (s: Session) => s.userId == userId
  }

  function ActiveOfUser(userId: string): Session -> bool {
    (s: Session) => s.userId == userId && s.status == "active"
  }

  /** `get_sessions_by_user_id`: the user's sessions, most recently updated first,
      after skipping `offset` of them and keeping at most `limit`. */
  ghost function GetSessionsByUserId(m: map<string, Session>, userId: string, limit: nat := 50, offset: nat := 0): seq<Session> {
    Take(Drop(SortBy(Filter(Rows(m), OfUser(userId)), UpdatedAtDesc), offset), limit)
  }

  /** `get_active_session_by_user_id`: the most recently updated active session of the user. */
  ghost function GetActiveSessionByUserId(m: map<string, Session>, userId: string): Option<Session> {
    var c := SortBy(Filter(Rows(m), ActiveOfUser(userId)), UpdatedAtDesc);
    if c == [] then None else Some(c[0])
  }

  /** The keys of the sessions that belong to `userId`. */
  ghost function UserKeys(m: map<string, Session>, userId: string): set<string> {
    set k | k in m && m[k].userId == userId
  }

  /** One step of the enumeration: some key's row comes first, then the rest of the map. */
  lemma RowsUnfold(m: map<string, Session>)
    requires m != map[]
    ensures exists k :: k in m && Rows(m) == [m[k]] + Rows(m - {k})
  {
  }

  /** Removing key `k` removes exactly `k` from the keys whose row satisfies `p`. */
  lemma KeysWithout(m: map<string, Session>, k: string, p: Session -> bool)
    requires k in m
    ensures |set j | j in m && p(m[j])|
         == |set j | j in m - {k} && p((m - {k})[j])| + (if p(m[k]) then 1 else 0)
  {
    var rest := m - {k};
    var all := set j | j in m && p(m[j]);
    var others := set j | j in rest && p(rest[j]);
    if p(m[k]) {
      assert all == others + {k};
    } else {
      assert all == others;
    }
  }

  /** The enumeration lists one row per key: as many rows satisfy `p` as keys whose row does. */
  lemma {:induction false} RowsFilterCount(m: map<string, Session>, p: Session -> bool)
    ensures |Filter(Rows(m), p)| == |set k | k in m && p(m[k])|
    decreases |m|
  {
    if m == map[] {
      assert forall k :: k !in m;
    } else {
      RowsUnfold(m);
      var k :| k in m && Rows(m) == [m[k]] + Rows(m - {k});
      var rest := m - {k};
      assert |rest| < |m| by { assert rest.Keys == m.Keys - {k}; }
      RowsFilterCount(rest, p);
      FilterAppend([m[k]], Rows(rest), p);
      assert [m[k]][1..] == [];
      KeysWithout(m, k, p);
    }
  }

  /** The listing's rows of a user are as many as the user's keys. */
  lemma UserRowCount(m: map<string, Session>, userId: string)
    ensures |Filter(Rows(m), OfUser(userId))| == |UserKeys(m, userId)|
  {
    RowsFilterCount(m, OfUser(userId));
    assert (set k | k in m && OfUser(userId)(m[k])) == UserKeys(m, userId);
  }

  lemma {:induction false} SessionsByUserIdSpec(m: map<string, Session>, userId: string, limit: nat, offset: nat)
    ensures var n := |UserKeys(m, userId)|;
      var r := GetSessionsByUserId(m, userId, limit, offset);
      && |r| == (if offset >= n then 0 else if limit < n - offset then limit else n - offset)
      && multiset(r) <= multiset(Filter(Rows(m), OfUser(userId)))
      && (forall i :: 0 <= i < |r| ==> r[i] in m.Values && r[i].userId == userId)
      && (forall i, j :: 0 <= i < j < |r| ==> r[i].updatedAt >= r[j].updatedAt)
  {
    var f := Filter(Rows(m), OfUser(userId));
    var srt := SortBy(f, UpdatedAtDesc);
    var r := Take(Drop(srt, offset), limit);
    UserRowCount(m, userId);
    FilterMembers(Rows(m), OfUser(userId));
    SortByMembers(f, UpdatedAtDesc);
    WindowOfSorted(srt, UpdatedAtDesc, offset, limit);
    forall i | 0 <= i < |r|
      ensures r[i] in m.Values && r[i].userId == userId
    {
      assert r[i] in srt;
    }
    forall i, j | 0 <= i < j < |r|
      ensures r[i].updatedAt >= r[j].updatedAt
    {
      assert UpdatedAtDesc(r[i]) <= UpdatedAtDesc(r[j]);
    }
  }

  /** The first page of a user's listing holds that user's most recently updated
      sessions, and all of them when the limit covers them. */
  lemma {:induction false} SessionsFirstPageSpec(m: map<string, Session>, userId: string, limit: nat)
    ensures var r := GetSessionsByUserId(m, userId, limit);
      && (forall k :: k in m && m[k].userId == userId && m[k] !in r ==>
            forall i :: 0 <= i < |r| ==> m[k].updatedAt <= r[i].updatedAt)
      && (limit >= |UserKeys(m, userId)| ==>
            forall k :: k in m && m[k].userId == userId ==> m[k] in r)
  {
    var f := Filter(Rows(m), OfUser(userId));
    var r := GetSessionsByUserId(m, userId, limit);
    UserRowCount(m, userId);
    assert r == Take(Drop(SortBy(f, UpdatedAtDesc), 0), limit);
    FilterMembers(Rows(m), OfUser(userId));
    FirstSessionPageIsLatest(f, limit);
    forall k | k in m && m[k].userId == userId
      ensures m[k] in f
    {
      assert m[k] in m.Values;
    }
    if limit >= |f| {
      WindowOfSorted(SortBy(f, UpdatedAtDesc), UpdatedAtDesc, 0, limit);
      SortByMembers(f, UpdatedAtDesc);
    }
  }

  /** The first page of a newest-updated-first order leaves out no later update. */
  lemma FirstSessionPageIsLatest(f: seq<Session>, limit: nat)
    ensures var r := Take(Drop(SortBy(f, UpdatedAtDesc), 0), limit);
      forall s :: s in f && s !in r ==> forall i :: 0 <= i < |r| ==> s.updatedAt <= r[i].updatedAt
  {
    var srt := SortBy(f, UpdatedAtDesc);
    var r := Take(Drop(srt, 0), limit);
    assert Drop(srt, 0) == srt;
    SortByMembers(f, UpdatedAtDesc);
    forall s | s in f && s !in r
      ensures forall i :: 0 <= i < |r| ==> s.updatedAt <= r[i].updatedAt
    {
      assert s in multiset(srt);
      TakeOfSortedIsLeast(srt, UpdatedAtDesc, limit, s);
      forall i | 0 <= i < |r|
        ensures s.updatedAt <= r[i].updatedAt
      {
        assert r[i] in r;
        assert UpdatedAtDesc(r[i]) <= UpdatedAtDesc(s);
      }
    }
  }

  lemma {:induction false} ActiveSessionSpec(m: map<string, Session>, userId: string)
    ensures var r := GetActiveSessionByUserId(m, userId);
      && (r.None? <==> forall k :: k in m ==> !(m[k].userId == userId && m[k].status == "active"))
      && (r.Some? ==> r.value in m.Values && r.value.userId == userId && r.value.status == "active")
      && (r.Some? ==> forall k :: k in m && m[k].userId == userId && m[k].status == "active" ==>
                        m[k].updatedAt <= r.value.updatedAt)
  {
    var f := Filter(Rows(m), ActiveOfUser(userId));
    var c := SortBy(f, UpdatedAtDesc);
    FilterMembers(Rows(m), ActiveOfUser(userId));
    assert forall x :: x in c <==> x in f by {
      assert forall x :: x in c <==> x in multiset(c);
    }
    forall k | k in m && m[k].userId == userId && m[k].status == "active"
      ensures m[k] in c
    {
      assert m[k] in m.Values;
    }
    if c != [] {
      assert c[0] in c;
      forall k | k in m && m[k].userId == userId && m[k].status == "active"
        ensures m[k].updatedAt <= c[0].updatedAt
      {
        var j :| 0 <= j < |c| && c[j] == m[k];
        if j > 0 {
          assert UpdatedAtDesc(c[0]) <= UpdatedAtDesc(c[j]);
        }
      }
    }
  }

  // ---------------------------------------------------------------------
  // Transcript queries
  // ---------------------------------------------------------------------

  function TimestampOf(t: Transcript): int { t.timestamp }

  function NewestFirst(t: Transcript): int { -t.timestamp }

  function InSession(sessionId: string): Transcript -> bool {
    (t: Transcript) => t.sessionId == sessionId
  }

  function NotInSession(sessionId: string): Transcript -> bool {
    (t: Transcript) => t.sessionId != sessionId
  }

  function InSessionAfter(sessionId: string, since: int): Transcript -> bool {
    (t: Transcript) => t.sessionId == sessionId && t.timestamp > since
  }

  /** The transcripts of one session, in store order. */
  function OfSession(ts: seq<Transcript>, sessionId: string): seq<Transcript> {
    Filter(ts, InSession(sessionId))
  }

  /** `get_transcripts_by_session_id`: ordered by timestamp ascending, then `offset`, then `limit`. */
  function GetTranscriptsBySessionId(ts: seq<Transcript>, sessionId: string, limit: nat := 100, offset: nat := 0): seq<Transcript> {
    Take(Drop(SortBy(OfSession(ts, sessionId), TimestampOf), offset), limit)
  }

  /** `get_recent_transcripts`: newest first, the first `limit`, then reversed. */
  function GetRecentTranscripts(ts: seq<Transcript>, sessionId: string, limit: nat := 50): seq<Transcript> {
    Reverse(Take(SortBy(OfSession(ts, sessionId), NewestFirst), limit))
  }

  /** `get_transcript_count`. */
  function GetTranscriptCount(ts: seq<Transcript>, sessionId: string): nat {
    |OfSession(ts, sessionId)|
  }

  /** `get_transcripts_since`: the session's transcripts strictly after `since`, ascending. */
  function GetTranscriptsSince(ts: seq<Transcript>, sessionId: string, since: int): seq<Transcript> {
    SortBy(Filter(ts, InSessionAfter(sessionId, since)), TimestampOf)
  }

  /** What `delete_transcripts_by_session_id` leaves in the table. */
  function WithoutSession(ts: seq<Transcript>, sessionId: string): seq<Transcript> {
    Filter(ts, NotInSession(sessionId))
  }

  lemma {:induction false} TranscriptsBySessionIdSpec(ts: seq<Transcript>, sessionId: string, limit: nat, offset: nat)
    ensures var n := GetTranscriptCount(ts, sessionId);
      var r := GetTranscriptsBySessionId(ts, sessionId, limit, offset);
      && |r| == (if offset >= n then 0 else if limit < n - offset then limit else n - offset)
      && (forall i :: 0 <= i < |r| ==> r[i] in ts && r[i].sessionId == sessionId)
      && SortedBy(r, TimestampOf)
      && multiset(r) <= multiset(OfSession(ts, sessionId))
  {
    var f := OfSession(ts, sessionId);
    var srt := SortBy(f, TimestampOf);
    var r := Take(Drop(srt, offset), limit);
    FilterMembers(ts, InSession(sessionId));
    SortByMembers(f, TimestampOf);
    WindowOfSorted(srt, TimestampOf, offset, limit);
    forall i | 0 <= i < |r|
      ensures r[i] in ts && r[i].sessionId == sessionId
    {
      assert r[i] in srt;
    }
  }

  /** The first page of a session's transcripts holds its earliest rows (a row left
      out, stored more often than returned, is no older than any returned), and all
      of them when the limit covers them. */
  lemma {:induction false} TranscriptsFirstPageSpec(ts: seq<Transcript>, sessionId: string, limit: nat)
    ensures var r := GetTranscriptsBySessionId(ts, sessionId, limit);
      && (forall t :: multiset(r)[t] < multiset(OfSession(ts, sessionId))[t] ==>
            forall i :: 0 <= i < |r| ==> r[i].timestamp <= t.timestamp)
      && (limit >= GetTranscriptCount(ts, sessionId) ==> multiset(r) == multiset(OfSession(ts, sessionId)))
  {
    var f := OfSession(ts, sessionId);
    FirstTranscriptPageIsEarliest(f, limit);
    WindowOfSorted(SortBy(f, TimestampOf), TimestampOf, 0, limit);
  }

  /** The first page of an ascending order leaves out no earlier row. */
  lemma FirstTranscriptPageIsEarliest(f: seq<Transcript>, limit: nat)
    ensures var r := Take(Drop(SortBy(f, TimestampOf), 0), limit);
      forall t :: multiset(r)[t] < multiset(f)[t] ==> forall i :: 0 <= i < |r| ==> r[i].timestamp <= t.timestamp
  {
    var srt := SortBy(f, TimestampOf);
    var r := Take(Drop(srt, 0), limit);
    assert Drop(srt, 0) == srt;
    forall t | multiset(r)[t] < multiset(f)[t]
      ensures forall i :: 0 <= i < |r| ==> r[i].timestamp <= t.timestamp
    {
      TakeOfSortedIsLeast(srt, TimestampOf, limit, t);
      forall i | 0 <= i < |r|
        ensures r[i].timestamp <= t.timestamp
      {
        assert r[i] in r;
      }
    }
  }

  /** Reversing the first `n` rows of a newest-first list gives them oldest first. */
  lemma ReversedNewestFirstIsAscending(d: seq<Transcript>, n: nat)
    requires SortedBy(d, NewestFirst)
    ensures SortedBy(Reverse(Take(d, n)), TimestampOf)
  {
    var k := Take(d, n);
    var r := Reverse(k);
    forall i, j | 0 <= i < j < |r|
      ensures TimestampOf(r[i]) <= TimestampOf(r[j])
    {
      assert r[i] == d[|k| - 1 - i] && r[j] == d[|k| - 1 - j];
      assert NewestFirst(d[|k| - 1 - j]) <= NewestFirst(d[|k| - 1 - i]);
    }
  }

  lemma {:induction false} RecentTranscriptsSpec(ts: seq<Transcript>, sessionId: string, limit: nat)
    ensures var n := GetTranscriptCount(ts, sessionId);
      var r := GetRecentTranscripts(ts, sessionId, limit);
      && |r| == (if limit < n then limit else n)
      && (forall i :: 0 <= i < |r| ==> r[i] in ts && r[i].sessionId == sessionId)
      && SortedBy(r, TimestampOf)
      && multiset(r) <= multiset(OfSession(ts, sessionId))
      // a row left out (stored more often than returned) is no newer than any returned
      && (forall t :: multiset(r)[t] < multiset(OfSession(ts, sessionId))[t] ==>
            forall i :: 0 <= i < |r| ==> t.timestamp <= r[i].timestamp)
  {
    var f := OfSession(ts, sessionId);
    var d := SortBy(f, NewestFirst);
    var k := Take(d, limit);
    var r := Reverse(k);
    FilterMembers(ts, InSession(sessionId));
    SortByMembers(f, NewestFirst);
    ReverseMembers(k);
    TakeMultiset(d, limit);
    forall i | 0 <= i < |r|
      ensures r[i] in ts && r[i].sessionId == sessionId
    {
      assert r[i] in k;
    }
    ReversedNewestFirstIsAscending(d, limit);
    NewestPageIsLatest(f, limit);
  }

  /** The reversed first `n` rows of a newest-first order leave out nothing newer. */
  lemma NewestPageIsLatest(f: seq<Transcript>, n: nat)
    ensures var r := Reverse(Take(SortBy(f, NewestFirst), n));
      forall t :: multiset(r)[t] < multiset(f)[t] ==>
        forall i :: 0 <= i < |r| ==> t.timestamp <= r[i].timestamp
  {
    var d := SortBy(f, NewestFirst);
    var k := Take(d, n);
    var r := Reverse(k);
    ReverseMembers(k);
    forall t | multiset(r)[t] < multiset(f)[t]
      ensures forall i :: 0 <= i < |r| ==> t.timestamp <= r[i].timestamp
    {
      TakeOfSortedIsLeast(d, NewestFirst, n, t);
      forall i | 0 <= i < |r|
        ensures t.timestamp <= r[i].timestamp
      {
        assert r[i] in k;
        assert NewestFirst(r[i]) <= NewestFirst(t);
      }
    }
  }

  lemma {:induction false} TranscriptsSinceSpec(ts: seq<Transcript>, sessionId: string, since: int)
    ensures var r := GetTranscriptsSince(ts, sessionId, since);
      && (forall t :: t in r <==> t in ts && t.sessionId == sessionId && t.timestamp > since)
      && (forall t :: multiset(r)[t] ==
            if t.sessionId == sessionId && t.timestamp > since then multiset(ts)[t] else 0)
      && SortedBy(r, TimestampOf)
  {
    SortedFilterCounts(ts, InSessionAfter(sessionId, since), TimestampOf);
  }

  /** Appending a transcript raises the count of its own session by one and no other. */
  lemma CountAfterAppend(ts: seq<Transcript>, t: Transcript, sessionId: string)
    ensures GetTranscriptCount(ts + [t], sessionId)
         == GetTranscriptCount(ts, sessionId) + (if t.sessionId == sessionId then 1 else 0)
  {
    FilterAppend(ts, [t], InSession(sessionId));
    assert [t][1..] == [];
  }

  /** Removing one session's transcripts leaves every other session's rows, in order,
      and none of its own. */
  lemma WithoutSessionIsolates(ts: seq<Transcript>, deleted: string, other: string, since: int)
    requires other != deleted
    ensures OfSession(WithoutSession(ts, deleted), other) == OfSession(ts, other)
    ensures GetTranscriptsSince(WithoutSession(ts, deleted), other, since) == GetTranscriptsSince(ts, other, since)
    ensures OfSession(WithoutSession(ts, deleted), deleted) == []
    ensures GetTranscriptsSince(WithoutSession(ts, deleted), deleted, since) == []
  {
    FilterFilterWeaker(ts, NotInSession(deleted), InSession(other));
    FilterFilterWeaker(ts, NotInSession(deleted), InSessionAfter(other, since));
    FilterFilterDisjoint(ts, NotInSession(deleted), InSession(deleted));
    FilterFilterDisjoint(ts, NotInSession(deleted), InSessionAfter(deleted, since));
  }

  /** A transcript just appended is among its session's rows, and among the rows
      since any earlier time. */
  lemma AppendedIsFound(ts: seq<Transcript>, t: Transcript, since: int)
    ensures t in OfSession(ts + [t], t.sessionId)
    ensures t.timestamp > since ==> t in GetTranscriptsSince(ts + [t], t.sessionId, since)
  {
    FilterMembers(ts + [t], InSession(t.sessionId));
    TranscriptsSinceSpec(ts + [t], t.sessionId, since);
  }

  /** No transcript id occurs twice (the primary key). */
  ghost predicate DistinctIds(ts: seq<Transcript>) {
    forall i, j :: 0 <= i < j < |ts| ==> ts[i].id != ts[j].id
  }

  lemma {:induction false} FilterKeepsDistinctIds(ts: seq<Transcript>, p: Transcript -> bool)
    requires DistinctIds(ts)
    ensures DistinctIds(Filter(ts, p))
  {
    if ts != [] {
      var tail := ts[1..];
      assert DistinctIds(tail) by {
        assert forall i :: 0 <= i < |tail| ==> tail[i] == ts[i + 1];
      }
      FilterKeepsDistinctIds(tail, p);
      FilterMembers(tail, p);
      if p(ts[0]) {
        var r := Filter(ts, p);
        assert r == [ts[0]] + Filter(tail, p);
        forall j | 0 < j < |r|
          ensures r[0].id != r[j].id
        {
          assert r[j] in tail;
        }
      } else {
        assert Filter(ts, p) == Filter(tail, p);
      }
    }
  }

  // ---------------------------------------------------------------------
  // Formatting for context restoration
  // ---------------------------------------------------------------------

  /** The label of a role: "USER" for "user", "GEMINI" for any other role. */
  function RoleLabel(role: string): string {
    if role == "user" then "USER" else "GEMINI"
  }

  /** One line of restored context: `[LABEL]: content`. */
  function Line(t: Transcript): string {
    "[" + RoleLabel(t.role) + "]: " + t.content
  }

  /** The lines of a transcript list, one per transcript, in input order. */
  function Lines(ts: seq<Transcript>): (r: seq<string>)
    ensures |r| == |ts|
    ensures forall i :: 0 <= i < |ts| ==> r[i] == Line(ts[i])
  {
    seq(|ts|, i requires 0 <= i < |ts| => Line(ts[i]))
  }

  /** The text that `format_transcript_for_context` returns. */
  function FormattedContext(ts: seq<Transcript>): string {
    Join(Lines(ts), "\n")
  }

  /** `format_transcript_for_context`: builds the line list in a loop, then joins it. */
  method FormatTranscriptForContext(ts: seq<Transcript>) returns (text: string)
    ensures text == FormattedContext(ts)
  {
    var lines: seq<string> := [];
    var i := 0;
    while i < |ts|
      invariant 0 <= i <= |ts|
      invariant |lines| == i
      invariant forall k :: 0 <= k < i ==> lines[k] == Line(ts[k])
    {
      var roleLabel := if ts[i].role == "user" then "USER" else "GEMINI";
      lines := lines + ["[" + roleLabel + "]: " + ts[i].content];
      i := i + 1;
    }
    assert lines == Lines(ts);
    text := Join(lines, "\n");
  }

  /** The exact text for a two-turn exchange. */
  lemma FormattedContextExample()
    ensures FormattedContext([Transcript("a", "s", "user", "hi", None, 1),
                              Transcript("b", "s", "assistant", "hello", None, 2)])
         == "[USER]: hi\n[GEMINI]: hello"
  {
    var t1, t2 := Transcript("a", "s", "user", "hi", None, 1), Transcript("b", "s", "assistant", "hello", None, 2);
    assert Line(t1) == "[USER]: hi";
    assert Line(t2) == "[GEMINI]: hello";
    var lines := Lines([t1, t2]);
    assert lines == [Line(t1), Line(t2)];
    assert lines[1..] == [Line(t2)];
  }

  /** A line starts with "[USER]: " exactly when the role is "user". */
  lemma LineLabel(t: Transcript)
    ensures (|Line(t)| >= 8 && Line(t)[..8] == "[USER]: ") <==> t.role == "user"
    ensures t.role != "user" ==> Line(t)[..10] == "[GEMINI]: "
  {
    if t.role != "user" {
      assert Line(t)[..10] == "[GEMINI]: ";
      assert Line(t)[1] == 'G';
    }
  }

  /** Formatting one more transcript appends a newline and its line. */
  lemma FormattedContextAppend(ts: seq<Transcript>, t: Transcript)
    ensures FormattedContext([]) == ""
    ensures FormattedContext([t]) == Line(t)
    ensures ts != [] ==> FormattedContext(ts + [t]) == FormattedContext(ts) + "\n" + Line(t)
  {
    if ts != [] {
      assert Lines(ts + [t]) == Lines(ts) + [Line(t)];
      JoinAppend(Lines(ts), "\n", Line(t));
    }
  }

  // ---------------------------------------------------------------------
  // The store
  // ---------------------------------------------------------------------

  /** Both tables of the database, as `GeminiSessionsTable` and
      `GeminiTranscriptsTable` see them. */
  class Store {
    var sessions: map<string, Session>
    var transcripts: seq<Transcript>

    /** Sessions are keyed by their id and carry a count; transcript ids are unique. */
    ghost predicate Valid()
      reads this
    {
      && (forall k :: k in sessions ==> sessions[k].id == k && sessions[k].messageCount.Some?)
      && DistinctIds(transcripts)
    }

    constructor ()
      ensures Valid() && sessions == map[] && transcripts == []
    {
      sessions := map[];
      transcripts := [];
    }

    /** `create_session`: `id` is the fresh uuid and `now` the clock reading. */
    method CreateSession(id: string, userId: string, model: Option<string>, voice: Option<string>, now: int)
      returns (s: Session)
      requires Valid() && id !in sessions
      modifies this
      ensures Valid()
      ensures s.id == id && s.userId == userId && s.model == model && s.voice == voice
      ensures s.status == "active" && s.messageCount == Some(0)
      ensures s.title == None && s.summary == None && s.lastSummaryAt == None
      ensures s.createdAt == now && s.updatedAt == now
      ensures sessions == old(sessions)[id := s]
      ensures GetSessionById(sessions, id) == Some(s)
      ensures transcripts == old(transcripts)
    {
      s := Session(id, userId, None, None, "active", model, voice, Some(0), None, now, now);
      sessions := sessions[id := s];
    }

    /** `update_session`: None, and no change, for an unknown id or another user's session. */
    method UpdateSession(id: string, userId: string, title: Option<string>, summary: Option<string>,
                         status: Option<string>, summaryClock: int, updateClock: int)
      returns (r: Option<Session>)
      requires Valid()
      modifies this
      ensures Valid()
      ensures !OwnedBy(old(sessions), id, userId) ==> r == None && sessions == old(sessions)
      ensures OwnedBy(old(sessions), id, userId) ==>
        && r == Some(ApplyUpdate(old(sessions)[id], title, summary, status, summaryClock, updateClock))
        && sessions == old(sessions)[id := r.value]
        && GetSessionById(sessions, id) == r
      ensures transcripts == old(transcripts)
    {
      if id !in sessions || sessions[id].userId != userId {
        return None;
      }
      var s := sessions[id];
      if title.Some? {
        s := s.(title := title);
      }
      if summary.Some? {
        s := s.(summary := summary, lastSummaryAt := Some(summaryClock));
      }
      if status.Some? {
        s := s.(status := status.value);
      }
      s := s.(updatedAt := updateClock);
      sessions := sessions[id := s];
      r := Some(s);
    }

    /** `increment_message_count`: None, and no change, for an unknown id. */
    method IncrementMessageCount(id: string, clock: int) returns (r: Option<Session>)
      requires Valid()
      modifies this
      ensures Valid()
      ensures id !in old(sessions) ==> r == None && sessions == old(sessions)
      ensures id in old(sessions) ==>
        && r == Some(Incremented(old(sessions)[id], clock))
        && sessions == old(sessions)[id := r.value]
      ensures transcripts == old(transcripts)
    {
      if id !in sessions {
        return None;
      }
      var s := sessions[id];
      s := s.(messageCount := Some(s.messageCount.GetOr(0) + 1));
      s := s.(updatedAt := clock);
      sessions := sessions[id := s];
      r := Some(s);
    }

    /** `delete_session`: for the owner, removes the session and all its transcripts. */
    method DeleteSession(id: string, userId: string) returns (deleted: bool)
      requires Valid()
      modifies this
      ensures Valid()
      ensures deleted == OwnedBy(old(sessions), id, userId)
      ensures deleted ==> sessions == old(sessions) - {id} && transcripts == WithoutSession(old(transcripts), id)
      ensures deleted ==> GetSessionById(sessions, id) == None
      ensures !deleted ==> sessions == old(sessions) && transcripts == old(transcripts)
    {
      if id !in sessions || sessions[id].userId != userId {
        return false;
      }
      FilterKeepsDistinctIds(transcripts, NotInSession(id));
      transcripts := WithoutSession(transcripts, id);
      sessions := sessions - {id};
      deleted := true;
    }

    /** `add_transcript`: stores the new row (`id` fresh, `now` the clock reading), then
        increments the count of its session, which reads the clock again. */
    method AddTranscript(id: string, sessionId: string, role: string, content: string,
                         audioDuration: Option<int>, now: int, incrementClock: int)
      returns (t: Transcript)
      requires Valid()
      requires forall u :: u in transcripts ==> u.id != id
      modifies this
      ensures Valid()
      ensures t.id == id && t.sessionId == sessionId && t.role == role && t.content == content
      ensures t.audioDuration == audioDuration && t.timestamp == now
      ensures transcripts == old(transcripts) + [t]
      ensures sessionId !in old(sessions) ==> sessions == old(sessions)
      ensures sessionId in old(sessions) ==>
        sessions == old(sessions)[sessionId := Incremented(old(sessions)[sessionId], incrementClock)]
    {
      t := Transcript(id, sessionId, role, content, audioDuration, now);
      assert forall i :: 0 <= i < |transcripts| ==> transcripts[i] in transcripts;
      transcripts := transcripts + [t];
      var _ := IncrementMessageCount(sessionId, incrementClock);
    }

    /** `delete_transcripts_by_session_id`: always reports success. */
    method DeleteTranscriptsBySessionId(sessionId: string) returns (ok: bool)
      requires Valid()
      modifies this
      ensures Valid()
      ensures ok
      ensures transcripts == WithoutSession(old(transcripts), sessionId)
      ensures sessions == old(sessions)
    {
      FilterKeepsDistinctIds(transcripts, NotInSession(sessionId));
      transcripts := WithoutSession(transcripts, sessionId);
      ok := true;
    }
  }
}

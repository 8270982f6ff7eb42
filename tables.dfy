/** The contents of the chat-history store, as values: the rows of the
    `session` and `conversations` tables, the column list of
    `conversations`, and the queries the store runs over them. Rows are kept
    in insertion (rowid) order. */
module Tables {
  import opened Optional
  import opened Seqs

  /** A row of `session`: `id` is AUTOINCREMENT, `name` is UNIQUE and
      `timestamp` is the CURRENT_TIMESTAMP of the insert, in seconds. */
  datatype SessionRow = SessionRow(id: nat, name: string, timestamp: nat)

  /** A row of `conversations`; `responseTime` is NULL for rows written before
      the `response_time` column existed. */
  datatype ConversationRow = ConversationRow(
    id: nat,
    sessionId: int,
    modelName: string,
    userInput: string,
    botResponse: string,
    timestamp: nat,
    responseTime: Option<real>)

  /** One row of the history query:
      `SELECT user_input, bot_response, model_name, timestamp, response_time`. */
  datatype HistoryEntry = HistoryEntry(
    userInput: string,
    botResponse: string,
    modelName: string,
    timestamp: nat,
    responseTime: Option<real>)

  const ResponseTimeColumn: string := "response_time"

  /** The columns `CREATE TABLE IF NOT EXISTS conversations` creates; the
      statement itself does not declare `response_time`. */
  const BaseColumns: seq<string> :=
    ["id", "session_id", "model_name", "user_input", "bot_response", "timestamp"]

  predicate NoDuplicates<T(==)>(s: seq<T>)
  {
    forall i, j :: 0 <= i < j < |s| ==> s[i] != s[j]
  }

  // ---------------------------------------------------------------------------
  // Schema migration

  /** The column list of `conversations` after the CREATE TABLE IF NOT EXISTS
      and the conditional ALTER TABLE; `columns` is None when the table does
      not exist yet. */
  function MigratedColumns(columns: Option<seq<string>>): (r: seq<string>)
    ensures ResponseTimeColumn in r
    ensures columns.None? ==> r == BaseColumns + [ResponseTimeColumn]
    ensures columns.Some? ==>
      && |columns.value| <= |r| <= |columns.value| + 1
      && r[..|columns.value|] == columns.value
      && (ResponseTimeColumn in columns.value ==> r == columns.value)
    ensures columns.Some? && NoDuplicates(columns.value) ==> NoDuplicates(r)
  {
    var existing := if columns.Some? then columns.value else BaseColumns;
    if ResponseTimeColumn in existing then existing else existing + [ResponseTimeColumn]
  }

  /** Running the migration on an already migrated table changes nothing. */
  lemma MigrationIdempotent(columns: Option<seq<string>>)
    ensures MigratedColumns(Some(MigratedColumns(columns))) == MigratedColumns(columns)
  {
  }

  // ---------------------------------------------------------------------------
  // Well-formed tables

  /** Sessions are appended with growing ids under a clock that never goes back. */
  predicate SessionBefore(a: SessionRow, b: SessionRow)
  {
    a.id < b.id && a.timestamp <= b.timestamp
  }

  /** The UNIQUE constraint on `session.name`, for one pair of rows. */
  predicate DistinctNames(a: SessionRow, b: SessionRow)
  {
    a.name != b.name
  }

  predicate ConversationBefore(a: ConversationRow, b: ConversationRow)
  {
    a.id < b.id && a.timestamp <= b.timestamp
  }

  /** What a database file written by this program looks like: a missing table
      has no rows and no AUTOINCREMENT counter yet (its first id is 1), an
      existing `conversations` table starts with the six declared columns, ids
      are below the counters and grow in rowid order, session names are unique,
      no timestamp is later than `clock`, and rows of a table without
      `response_time` have no response time. */
  ghost predicate WellFormed(
    hasSessionTable: bool, sessions: seq<SessionRow>,
    columns: Option<seq<string>>, conversations: seq<ConversationRow>,
    sessionSeq: nat, conversationSeq: nat, clock: nat)
  {
    && (!hasSessionTable ==> sessions == [] && sessionSeq == 0)
    && (columns.None? ==> conversations == [] && conversationSeq == 0)
    && (columns.Some? ==>
          && NoDuplicates(columns.value)
          && |BaseColumns| <= |columns.value|
          && columns.value[..|BaseColumns|] == BaseColumns)
    && (columns.Some? && ResponseTimeColumn !in columns.value ==>
          forall i :: 0 <= i < |conversations| ==> conversations[i].responseTime.None?)
    && Ordered(sessions, SessionBefore)
    && Ordered(sessions, DistinctNames)
    && Ordered(conversations, ConversationBefore)
    && (forall i :: 0 <= i < |sessions| ==>
          0 < sessions[i].id <= sessionSeq && sessions[i].timestamp <= clock)
    && (forall i :: 0 <= i < |conversations| ==>
          0 < conversations[i].id <= conversationSeq && conversations[i].timestamp <= clock)
  }

  // ---------------------------------------------------------------------------
  // Queries

  /** Some session already has this name (the UNIQUE constraint would fail). */
  predicate HasName(sessions: seq<SessionRow>, name: string)
  {
    exists i :: 0 <= i < |sessions| && sessions[i].name == name
  }

  /** `WHERE session_id = s` on the conversations table. */
  function ConversationsOf(cs: seq<ConversationRow>, s: int): (r: seq<ConversationRow>)
    ensures forall i :: 0 <= i < |r| ==> r[i].sessionId == s && r[i] in cs
    ensures forall i :: 0 <= i < |cs| && cs[i].sessionId == s ==> cs[i] in r
  {
    Filter(cs, (c: ConversationRow) => c.sessionId == s)
  }

  /** What `DELETE FROM conversations WHERE session_id = s` leaves. */
  function ConversationsExcept(cs: seq<ConversationRow>, s: int): (r: seq<ConversationRow>)
    ensures forall i :: 0 <= i < |r| ==> r[i].sessionId != s && r[i] in cs
    ensures forall i :: 0 <= i < |cs| && cs[i].sessionId != s ==> cs[i] in r
  {
    Filter(cs, (c: ConversationRow) => c.sessionId != s)
  }

  /** What `DELETE FROM session WHERE id = s` leaves. */
  function SessionsExcept(ss: seq<SessionRow>, s: int): (r: seq<SessionRow>)
    ensures forall i :: 0 <= i < |r| ==> r[i].id != s && r[i] in ss
    ensures forall i :: 0 <= i < |ss| && ss[i].id != s ==> ss[i] in r
  {
    Filter(ss, (row: SessionRow) => row.id != s)
  }

  /** The delete removes exactly the rows of `s`: together with them it gives
      back the whole table. */
  lemma {:induction false} DeletePartition(cs: seq<ConversationRow>, s: int)
    ensures multiset(cs) == multiset(ConversationsOf(cs, s)) + multiset(ConversationsExcept(cs, s))
  {
    if cs != [] {
      var init, last := cs[..|cs| - 1], cs[|cs| - 1];
      assert cs == init + [last];
      DeletePartition(init, s);
      FilterAppend(init, [last], (c: ConversationRow) => c.sessionId == s);
      FilterAppend(init, [last], (c: ConversationRow) => c.sessionId != s);
      FilterSingle(last, (c: ConversationRow) => c.sessionId == s);
      FilterSingle(last, (c: ConversationRow) => c.sessionId != s);
    }
  }

  /** After the delete, `s` has no history and every other session's history
      is what it was, row for row and in the same order. */
  lemma {:induction false} DeleteKeepsOtherHistories(cs: seq<ConversationRow>, s: int, t: int)
    ensures ConversationsOf(ConversationsExcept(cs, s), s) == []
    ensures t != s ==> ConversationsOf(ConversationsExcept(cs, s), t) == ConversationsOf(cs, t)
  {
    if cs != [] {
      var init, last := cs[..|cs| - 1], cs[|cs| - 1];
      assert cs == init + [last];
      DeleteKeepsOtherHistories(init, s, t);
      var keep := (c: ConversationRow) => c.sessionId != s;
      FilterAppend(init, [last], keep);
      FilterSingle(last, keep);
      FilterAppend(ConversationsExcept(init, s), Filter([last], keep), (c: ConversationRow) => c.sessionId == s);
      FilterAppend(ConversationsExcept(init, s), Filter([last], keep), (c: ConversationRow) => c.sessionId == t);
      FilterAppend(init, [last], (c: ConversationRow) => c.sessionId == t);
      FilterSingle(last, (c: ConversationRow) => c.sessionId == s);
      FilterSingle(last, (c: ConversationRow) => c.sessionId == t);
    }
  }

  /** The `(id, name)` pair `SELECT id, name FROM session` yields for a row. */
  function IdName(row: SessionRow): (nat, string)
  {
    (row.id, row.name)
  }

  function IdNames(ss: seq<SessionRow>): (r: seq<(nat, string)>)
    ensures |r| == |ss|
    ensures forall i :: 0 <= i < |ss| ==> r[i] == IdName(ss[i])
  {
    seq(|ss|, i requires 0 <= i < |ss| => IdName(ss[i]))
  }

  /** Listing the rows back to front lists their `(id, name)` pairs back to front. */
  lemma IdNamesReverse(ss: seq<SessionRow>)
    ensures IdNames(Reverse(ss)) == Reverse(IdNames(ss))
  {
    forall k | 0 <= k < |ss| ensures IdNames(Reverse(ss))[k] == Reverse(IdNames(ss))[k] {
      ReverseAt(ss, k);
      ReverseAt(IdNames(ss), k);
    }
  }

  /** The session rows in `ORDER BY timestamp DESC` order: a permutation of
      the table, newest first. Rows with equal timestamps come out in reverse
      insertion order, one of the orders SQL allows. */
  function NewestFirst(ss: seq<SessionRow>): (r: seq<SessionRow>)
    requires Ordered(ss, SessionBefore)
    ensures multiset(r) == multiset(ss)
    ensures forall i, j :: 0 <= i < j < |r| ==> r[j].timestamp <= r[i].timestamp
  {
    ReverseMultiset(ss);
    ReverseOrdered(ss, SessionBefore);
    Reverse(ss)
  }

  /** `SELECT id, name FROM session ORDER BY timestamp DESC`: every session's
      `(id, name)` exactly once, in the order of `NewestFirst`. */
  function SessionList(ss: seq<SessionRow>): (rows: seq<(nat, string)>)
    requires Ordered(ss, SessionBefore)
    ensures |rows| == |ss|
    ensures multiset(rows) == multiset(IdNames(ss))
    ensures forall i :: 0 <= i < |ss| ==> IdName(ss[i]) in rows
    ensures forall i :: 0 <= i < |rows| ==> rows[i] == IdName(NewestFirst(ss)[i])
  {
    IdNamesReverse(ss);
    ReverseMultiset(IdNames(ss));
    assert forall i :: 0 <= i < |ss| ==> IdName(ss[i]) in multiset(Reverse(IdNames(ss))) by {
      forall i | 0 <= i < |ss| ensures IdName(ss[i]) in multiset(Reverse(IdNames(ss))) {
        assert IdNames(ss)[i] in multiset(IdNames(ss));
      }
    }
    IdNames(NewestFirst(ss))
  }

  /** The history columns of one conversation row. */
  function Entry(c: ConversationRow): HistoryEntry
  {
    HistoryEntry(c.userInput, c.botResponse, c.modelName, c.timestamp, c.responseTime)
  }

  function Entries(cs: seq<ConversationRow>): (r: seq<HistoryEntry>)
    ensures |r| == |cs|
    ensures forall i :: 0 <= i < |cs| ==> r[i] == Entry(cs[i])
  {
    seq(|cs|, i requires 0 <= i < |cs| => Entry(cs[i]))
  }

  predicate NotLater(a: HistoryEntry, b: HistoryEntry)
  {
    a.timestamp <= b.timestamp
  }

  /** `SELECT ... FROM conversations WHERE session_id = s ORDER BY timestamp
      DESC`: a permutation of exactly the rows of `s`, newest first. */
  function History(cs: seq<ConversationRow>, s: int): (rows: seq<HistoryEntry>)
    requires Ordered(cs, ConversationBefore)
    ensures |rows| == |ConversationsOf(cs, s)|
    ensures multiset(rows) == multiset(Entries(ConversationsOf(cs, s)))
    ensures forall i, j :: 0 <= i < j < |rows| ==> rows[j].timestamp <= rows[i].timestamp
  {
    var mine := ConversationsOf(cs, s);
    FilterOrdered(cs, (c: ConversationRow) => c.sessionId == s, ConversationBefore);
    assert Ordered(Entries(mine), NotLater) by {
      forall i, j | 0 <= i < j < |mine| ensures NotLater(Entries(mine)[i], Entries(mine)[j]) {
        assert ConversationBefore(mine[i], mine[j]);
      }
    }
    ReverseOrdered(Entries(mine), NotLater);
    ReverseMultiset(Entries(mine));
    Reverse(Entries(mine))
  }

  /** Appending rows of session `s` to a table that has none gives `s` a
      history of exactly that many rows. */
  lemma HistoryOfFreshSession(cs: seq<ConversationRow>, added: seq<ConversationRow>, s: int)
    requires Ordered(cs + added, ConversationBefore)
    requires ConversationsOf(cs, s) == []
    requires forall i :: 0 <= i < |added| ==> added[i].sessionId == s
    ensures |History(cs + added, s)| == |added|
  {
    FilterAppend(cs, added, (c: ConversationRow) => c.sessionId == s);
    FilterAll(added, (c: ConversationRow) => c.sessionId == s);
  }
}

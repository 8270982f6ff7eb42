/** The `DatabaseManager`: the chat-history database, held in memory as the
    two tables, their AUTOINCREMENT counters and the column list of
    `conversations`. Each method is one SQL statement (or, for the delete,
    two statements committed together). `CURRENT_TIMESTAMP` is the argument
    `now`, which the caller supplies from a clock that never goes back. */
module Store {
  import opened Optional
  import opened Seqs
  import opened Tables

  class DatabaseManager {
    /** `CREATE TABLE session` has run. */
    var hasSessionTable: bool
    var sessions: seq<SessionRow>
    /** The columns of `conversations`, None while the table does not exist. */
    var conversationColumns: Option<seq<string>>
    var conversations: seq<ConversationRow>
    /** The AUTOINCREMENT counters: the largest id each table has ever issued. */
    var sessionSeq: nat
    var conversationSeq: nat
    /** The latest CURRENT_TIMESTAMP the store has seen. */
    ghost var clock: nat

    /** The database file is one this program could have written. */
    ghost predicate Stored()
      reads this
    {
      WellFormed(hasSessionTable, sessions, conversationColumns, conversations,
                 sessionSeq, conversationSeq, clock)
    }

    /** Stored, and the schema is complete, as after `initialize_database`. */
    ghost predicate Valid()
      reads this
    {
      && Stored()
      && hasSessionTable
      && conversationColumns.Some?
      && ResponseTimeColumn in conversationColumns.value
    }

    /** Opens a database file with the given contents (possibly empty, possibly
        from a version without `response_time`) and initializes it. */
    constructor (
      hasSessionTable: bool, sessions: seq<SessionRow>,
      conversationColumns: Option<seq<string>>, conversations: seq<ConversationRow>,
      sessionSeq: nat, conversationSeq: nat, ghost clock: nat)
      requires WellFormed(hasSessionTable, sessions, conversationColumns, conversations,
                          sessionSeq, conversationSeq, clock)
      ensures Valid()
      ensures this.sessions == sessions && this.conversations == conversations
      ensures this.conversationColumns == Some(MigratedColumns(conversationColumns))
      ensures this.sessionSeq == sessionSeq && this.conversationSeq == conversationSeq
      ensures this.clock == clock
    {
      this.hasSessionTable := hasSessionTable;
      this.sessions := sessions;
      this.conversationColumns := conversationColumns;
      this.conversations := conversations;
      this.sessionSeq := sessionSeq;
      this.conversationSeq := conversationSeq;
      this.clock := clock;
      new;
      InitializeDatabase();
    }

    /** `initialize_database`: creates the missing tables and adds
        `response_time` when it is missing. No row changes; a second run
        changes nothing at all. */
    method InitializeDatabase()
      requires Stored()
      modifies this
      ensures Valid()
      ensures conversationColumns == Some(MigratedColumns(old(conversationColumns)))
      ensures old(Valid()) ==> conversationColumns == old(conversationColumns)
      ensures sessions == old(sessions) && conversations == old(conversations)
      ensures sessionSeq == old(sessionSeq) && conversationSeq == old(conversationSeq)
      ensures clock == old(clock)
    {
      hasSessionTable := true;
      if conversationColumns.None? {
        conversationColumns := Some(BaseColumns);
      }
      var columns := conversationColumns.value;
      if ResponseTimeColumn !in columns {
        conversationColumns := Some(columns + [ResponseTimeColumn]);
      }
    }

    /** `save_conversation`: appends one row to `conversations`; no other row
        and no session changes. The session id is not checked against the
        `session` table (SQLite does not enforce the foreign key by default). */
    method SaveConversation(
      sessionId: int, modelName: string, userInput: string, botResponse: string,
      responseTime: real, now: nat)
      requires Valid() && clock <= now
      modifies this
      ensures Valid()
      ensures conversationSeq == old(conversationSeq) + 1
      ensures conversations == old(conversations) +
        [ConversationRow(conversationSeq, sessionId, modelName, userInput, botResponse,
                         now, Some(responseTime))]
      ensures sessions == old(sessions) && sessionSeq == old(sessionSeq)
      ensures hasSessionTable == old(hasSessionTable)
      ensures conversationColumns == old(conversationColumns)
      ensures clock == now
    {
      conversationSeq := conversationSeq + 1;
      var row := ConversationRow(conversationSeq, sessionId, modelName, userInput, botResponse,
                                 now, Some(responseTime));
      assert forall i :: 0 <= i < |conversations| ==> ConversationBefore(conversations[i], row);
      conversations := conversations + [row];
      clock := now;
    }

    /** `create_new_session`: under the UNIQUE constraint on `name`, either
        inserts one session with a fresh id and returns that id, or returns
        None and changes nothing. */
    method CreateNewSession(name: string, now: nat) returns (id: Option<nat>)
      requires Valid() && clock <= now
      modifies this
      ensures Valid()
      ensures HasName(old(sessions), name) ==>
        && id == None
        && sessions == old(sessions) && sessionSeq == old(sessionSeq) && clock == old(clock)
      ensures !HasName(old(sessions), name) ==>
        && id == Some(old(sessionSeq) + 1)
        && sessions == old(sessions) + [SessionRow(id.value, name, now)]
        && sessionSeq == id.value && clock == now
      ensures id.Some? ==> forall i :: 0 <= i < |old(sessions)| ==> old(sessions)[i].id != id.value
      ensures conversations == old(conversations) && conversationSeq == old(conversationSeq)
      ensures hasSessionTable == old(hasSessionTable)
      ensures conversationColumns == old(conversationColumns)
    {
      if HasName(sessions, name) {
        return None;
      }
      sessionSeq := sessionSeq + 1;
      var row := SessionRow(sessionSeq, name, now);
      assert forall i :: 0 <= i < |sessions| ==> SessionBefore(sessions[i], row);
      assert forall i :: 0 <= i < |sessions| ==> DistinctNames(sessions[i], row);
      sessions := sessions + [row];
      clock := now;
      id := Some(sessionSeq);
    }

    /** `load_sessions`: every session's `(id, name)` exactly once, newest
        first. */
    method LoadSessions() returns (rows: seq<(nat, string)>)
      requires Valid()
      ensures |rows| == |sessions|
      ensures multiset(rows) == multiset(IdNames(sessions))
      ensures forall i :: 0 <= i < |sessions| ==> IdName(sessions[i]) in rows
      ensures forall i :: 0 <= i < |rows| ==> rows[i] == IdName(NewestFirst(sessions)[i])
    {
      rows := SessionList(sessions);
    }

    /** `load_conversation_history`: exactly the rows of `sessionId`, newest
        first. */
    method LoadConversationHistory(sessionId: int) returns (rows: seq<HistoryEntry>)
      requires Valid()
      ensures |rows| == |ConversationsOf(conversations, sessionId)|
      ensures multiset(rows) == multiset(Entries(ConversationsOf(conversations, sessionId)))
      ensures forall i, j :: 0 <= i < j < |rows| ==> rows[j].timestamp <= rows[i].timestamp
    {
      rows := History(conversations, sessionId);
    }

    /** `delete_session`: removes the session's conversations and then the
        session row, as one commit; every other row stays, in order. */
    method DeleteSession(sessionId: int)
      requires Valid()
      modifies this
      ensures Valid()
      ensures conversations == ConversationsExcept(old(conversations), sessionId)
      ensures sessions == SessionsExcept(old(sessions), sessionId)
      ensures forall i :: 0 <= i < |conversations| ==> conversations[i].sessionId != sessionId
      ensures forall i :: 0 <= i < |sessions| ==> sessions[i].id != sessionId
      ensures sessionSeq == old(sessionSeq) && conversationSeq == old(conversationSeq)
      ensures hasSessionTable == old(hasSessionTable)
      ensures conversationColumns == old(conversationColumns)
      ensures clock == old(clock)
    {
      FilterOrdered(conversations, (c: ConversationRow) => c.sessionId != sessionId, ConversationBefore);
      FilterOrdered(sessions, (row: SessionRow) => row.id != sessionId, SessionBefore);
      FilterOrdered(sessions, (row: SessionRow) => row.id != sessionId, DistinctNames);
      conversations := ConversationsExcept(conversations, sessionId);
      sessions := SessionsExcept(sessions, sessionId);
    }
  }
}

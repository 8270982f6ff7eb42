/** The rules the chat page applies around the store: the history search,
    the code-fence wrapping of replies that look like code, the save loop of
    `send_message`, and the comparison table. The calls to the model server
    are not modelled: their results arrive as `Reply` values, one per
    selected model, in selection order. */
module Chat {
  import opened Optional
  import opened Seqs
  import opened Text
  import opened Tables
  import opened Store

  // ---------------------------------------------------------------------------
  // History search

  /** The search condition: the lower-cased query occurs in the lower-cased
      user input or in the lower-cased bot response. */
  predicate Matches(e: HistoryEntry, query: string)
  {
    Contains(Lower(e.userInput), Lower(query)) || Contains(Lower(e.botResponse), Lower(query))
  }

  /** The search filter over a loaded history. */
  function SearchHistory(rows: seq<HistoryEntry>, query: string): (r: seq<HistoryEntry>)
    ensures |r| <= |rows|
    ensures forall i :: 0 <= i < |r| ==> r[i] in rows && Matches(r[i], query)
    ensures forall i :: 0 <= i < |rows| && Matches(rows[i], query) ==> rows[i] in r
  {
    Filter(rows, (e: HistoryEntry) => Matches(e, query))
  }

  /** A row matches exactly when the query, lower-cased, is a substring of the
      lower-cased input or response. */
  lemma MatchesIff(e: HistoryEntry, query: string)
    ensures Matches(e, query) <==>
      (exists i :: OccursAt(Lower(e.userInput), Lower(query), i)) ||
      (exists i :: OccursAt(Lower(e.botResponse), Lower(query), i))
  {
    ContainsIff(Lower(e.userInput), Lower(query));
    ContainsIff(Lower(e.botResponse), Lower(query));
  }

  /** The search keeps rows in their original order: it works piecewise. */
  lemma SearchKeepsOrder(a: seq<HistoryEntry>, b: seq<HistoryEntry>, query: string)
    ensures SearchHistory(a + b, query) == SearchHistory(a, query) + SearchHistory(b, query)
  {
    FilterAppend(a, b, (e: HistoryEntry) => Matches(e, query));
  }

  /** The empty query keeps every row. */
  lemma EmptyQueryKeepsAll(rows: seq<HistoryEntry>)
    ensures SearchHistory(rows, "") == rows
  {
    forall i | 0 <= i < |rows| ensures Matches(rows[i], "") {
      ContainsEmpty(Lower(rows[i].userInput));
    }
    FilterAll(rows, (e: HistoryEntry) => Matches(e, ""));
  }

  /** The search ignores the case of the query. */
  lemma SearchIgnoresQueryCase(rows: seq<HistoryEntry>, query: string)
    ensures SearchHistory(rows, Lower(query)) == SearchHistory(rows, query)
  {
    LowerIdempotent(query);
    FilterCongruent(rows, (e: HistoryEntry) => Matches(e, Lower(query)),
                    (e: HistoryEntry) => Matches(e, query));
  }

  /** Searching the result again with the same query changes nothing. */
  lemma SearchIdempotent(rows: seq<HistoryEntry>, query: string)
    ensures SearchHistory(SearchHistory(rows, query), query) == SearchHistory(rows, query)
  {
    FilterIdempotent(rows, (e: HistoryEntry) => Matches(e, query));
  }

  /** The history panel: load the current session's history and keep the
      rows that match the search; nothing is shown without a session. The
      shown rows are newest first. */
  method ShowHistory(db: DatabaseManager, currentSession: Option<int>, query: string)
    returns (shown: seq<HistoryEntry>)
    requires db.Valid()
    ensures currentSession.None? || currentSession.value == 0 ==> shown == []
    ensures currentSession.Some? && currentSession.value != 0 ==>
      var mine := Entries(ConversationsOf(db.conversations, currentSession.value));
      && (forall i :: 0 <= i < |shown| ==> shown[i] in mine && Matches(shown[i], query))
      && (forall i :: 0 <= i < |mine| && Matches(mine[i], query) ==> mine[i] in shown)
      && multiset(shown) == multiset(SearchHistory(mine, query))
    ensures forall i, j :: 0 <= i < j < |shown| ==> shown[j].timestamp <= shown[i].timestamp
  {
    if currentSession.None? || currentSession.value == 0 {
      return [];
    }
    var full := db.LoadConversationHistory(currentSession.value);
    shown := SearchHistory(full, query);
    ghost var mine := Entries(ConversationsOf(db.conversations, currentSession.value));
    forall i | 0 <= i < |shown| ensures shown[i] in mine {
      assert shown[i] in multiset(full);
    }
    forall i | 0 <= i < |mine| && Matches(mine[i], query) ensures mine[i] in shown {
      assert mine[i] in multiset(mine);
    }
    FilterPermutation(full, mine, (e: HistoryEntry) => Matches(e, query));
    assert Ordered(full, (a: HistoryEntry, b: HistoryEntry) => b.timestamp <= a.timestamp);
    FilterOrdered(full, (e: HistoryEntry) => Matches(e, query),
                  (a: HistoryEntry, b: HistoryEntry) => b.timestamp <= a.timestamp);
  }

  // ---------------------------------------------------------------------------
  // Code fence

  const FenceOpen: string := "```python\n"
  const FenceClose: string := "\n```"

  /** A reply that contains `def ` or `class ` is taken to be Python code. */
  predicate LooksLikeCode(response: string)
  {
    Contains(response, "def ") || Contains(response, "class ")
  }

  /** The response as it is saved: code is wrapped in a Python fence, anything
      else is saved as it is. Either way the original text is kept inside. */
  function Fenced(response: string): (f: string)
    ensures !LooksLikeCode(response) ==> f == response
    ensures LooksLikeCode(response) ==>
      && |f| == |FenceOpen| + |response| + |FenceClose|
      && f[..|FenceOpen|] == FenceOpen && f[|f| - |FenceClose|..] == FenceClose
    ensures Contains(f, response)
    ensures |response| <= |f|
  {
    if LooksLikeCode(response) then
      ContainsInfix(FenceOpen, response, FenceClose);
      FenceOpen + response + FenceClose
    else
      ContainsInfix("", response, "");
      assert "" + response + "" == response;
      response
  }

  /** Removes a Python fence around a text, if there is one. */
  function Unfenced(f: string): string
  {
    if |FenceOpen| + |FenceClose| <= |f|
       && f[..|FenceOpen|] == FenceOpen && f[|f| - |FenceClose|..] == FenceClose
    then f[|FenceOpen|..|f| - |FenceClose|]
    else f
  }

  /** Wrapping loses nothing: the fence comes off again. */
  lemma FenceRoundTrip(response: string)
    requires LooksLikeCode(response)
    ensures Unfenced(Fenced(response)) == response
  {
  }

  // ---------------------------------------------------------------------------
  // The save loop of send_message

  /** One model's answer: the model, its response text (empty when the call
      failed) and the measured response time in seconds. */
  datatype Reply = Reply(model: string, response: string, time: real)

  /** The reply as it is saved, with its response fenced when it is code. */
  function Saved(reply: Reply): Reply
  {
    Reply(reply.model, Fenced(reply.response), reply.time)
  }

  predicate Answered(reply: Reply)
  {
    reply.response != ""
  }

  /** The replies `send_message` saves, in selection order: the answered ones,
      fenced. An empty response is never saved. */
  function Persisted(replies: seq<Reply>): (r: seq<Reply>)
    ensures |r| <= |replies|
    ensures forall i :: 0 <= i < |r| ==> r[i].response != ""
  {
    if replies == [] then []
    else
      var last := replies[|replies| - 1];
      Persisted(replies[..|replies| - 1]) + (if Answered(last) then [Saved(last)] else [])
  }

  /** The saves of a longer selection are those of its parts, in order. */
  lemma {:induction false} PersistedAppend(a: seq<Reply>, b: seq<Reply>)
    ensures Persisted(a + b) == Persisted(a) + Persisted(b)
  {
    if b == [] {
      assert a + b == a;
    } else {
      assert (a + b)[..|a + b| - 1] == a + b[..|b| - 1];
      PersistedAppend(a, b[..|b| - 1]);
    }
  }

  /** The saves are exactly the answered replies, in selection order, each
      fenced: one saved row per model that answered. */
  lemma {:induction false} PersistedIsAnsweredFenced(replies: seq<Reply>)
    ensures var answered := Filter(replies, Answered);
      && |Persisted(replies)| == |answered|
      && forall i :: 0 <= i < |answered| ==> Persisted(replies)[i] == Saved(answered[i])
  {
    if replies != [] {
      var init := replies[..|replies| - 1];
      assert replies == init + [replies[|replies| - 1]];
      PersistedIsAnsweredFenced(init);
    }
  }

  /** One more reply adds its saved form exactly when it was answered. */
  lemma PersistedStep(replies: seq<Reply>, i: nat)
    requires i < |replies|
    ensures Persisted(replies[..i + 1]) ==
      Persisted(replies[..i]) + (if Answered(replies[i]) then [Saved(replies[i])] else [])
  {
    assert replies[..i + 1][..i] == replies[..i];
  }

  /** When every selected model answered, one row per model is saved, in
      selection order. */
  lemma AllAnsweredAllSaved(replies: seq<Reply>)
    requires forall i :: 0 <= i < |replies| ==> replies[i].response != ""
    ensures |Persisted(replies)| == |replies|
    ensures forall i :: 0 <= i < |replies| ==> Persisted(replies)[i].model == replies[i].model
  {
    PersistedIsAnsweredFenced(replies);
    FilterAll(replies, Answered);
  }

  /** The conversation rows the save loop writes, with consecutive ids from
      `firstId`. */
  function Turns(firstId: nat, sessionId: int, userInput: string, saved: seq<Reply>, now: nat)
    : seq<ConversationRow>
  {
    seq(|saved|, k requires 0 <= k < |saved| =>
      ConversationRow(firstId + k, sessionId, saved[k].model, userInput, saved[k].response,
                      now, Some(saved[k].time)))
  }

  lemma TurnsStep(firstId: nat, sessionId: int, userInput: string, saved: seq<Reply>, x: Reply, now: nat)
    ensures Turns(firstId, sessionId, userInput, saved + [x], now) ==
      Turns(firstId, sessionId, userInput, saved, now) +
      [ConversationRow(firstId + |saved|, sessionId, x.model, userInput, x.response, now, Some(x.time))]
  {
  }

  /** One pass of the save loop: an answered reply is fenced if it is code
      and saved as one row; an unanswered one saves nothing. */
  method SaveReply(db: DatabaseManager, sessionId: int, userInput: string, reply: Reply, now: nat)
    requires db.Valid() && db.clock <= now
    modifies db
    ensures db.Valid() && db.clock <= now
    ensures Answered(reply) ==>
      && db.conversationSeq == old(db.conversationSeq) + 1
      && db.conversations == old(db.conversations) +
           [ConversationRow(db.conversationSeq, sessionId, reply.model, userInput,
                            Fenced(reply.response), now, Some(reply.time))]
    ensures !Answered(reply) ==>
      db.conversationSeq == old(db.conversationSeq) && db.conversations == old(db.conversations)
    ensures db.sessions == old(db.sessions) && db.sessionSeq == old(db.sessionSeq)
    ensures db.conversationColumns == old(db.conversationColumns)
  {
    if reply.response != "" {
      var response := reply.response;
      if Contains(response, "def ") || Contains(response, "class ") {
        response := FenceOpen + response + FenceClose;
      }
      db.SaveConversation(sessionId, reply.model, userInput, response, reply.time, now);
    }
  }

  /** The save loop of `send_message`: saves every answered reply, fenced,
      one row each in selection order, with consecutive ids, and nothing
      else. All saves carry the same CURRENT_TIMESTAMP `now`. */
  method SaveReplies(db: DatabaseManager, sessionId: int, userInput: string, replies: seq<Reply>, now: nat)
    requires db.Valid() && db.clock <= now
    modifies db
    ensures db.Valid() && db.clock <= now
    ensures db.conversationSeq == old(db.conversationSeq) + |Persisted(replies)|
    ensures db.conversations == old(db.conversations) +
      Turns(old(db.conversationSeq) + 1, sessionId, userInput, Persisted(replies), now)
    ensures db.sessions == old(db.sessions) && db.sessionSeq == old(db.sessionSeq)
    ensures db.conversationColumns == old(db.conversationColumns)
  {
    ghost var firstId := old(db.conversationSeq) + 1;
    var i := 0;
    while i < |replies|
      invariant 0 <= i <= |replies|
      invariant db.Valid() && db.clock <= now
      invariant db.conversationSeq == old(db.conversationSeq) + |Persisted(replies[..i])|
      invariant db.conversations ==
        old(db.conversations) + Turns(firstId, sessionId, userInput, Persisted(replies[..i]), now)
      invariant db.sessions == old(db.sessions) && db.sessionSeq == old(db.sessionSeq)
      invariant db.conversationColumns == old(db.conversationColumns)
    {
      var reply := replies[i];
      PersistedStep(replies, i);
      TurnsStep(firstId, sessionId, userInput, Persisted(replies[..i]), Saved(reply), now);
      SaveReply(db, sessionId, userInput, reply, now);
      i := i + 1;
    }
    assert replies[..i] == replies;
  }

  /** `send_message` from the point where the replies are in: with a message
      and a current session it runs the save loop; otherwise it saves
      nothing. */
  method SendMessage(
    db: DatabaseManager, currentSession: Option<int>, userInput: string,
    replies: seq<Reply>, now: nat)
    returns (sent: bool)
    requires db.Valid() && db.clock <= now
    modifies db
    ensures db.Valid() && db.clock <= now
    ensures sent == (userInput != "" && currentSession.Some? && currentSession.value != 0)
    ensures !sent ==>
      && db.conversations == old(db.conversations)
      && db.conversationSeq == old(db.conversationSeq)
      && db.clock == old(db.clock)
    ensures sent ==> db.conversationSeq == old(db.conversationSeq) + |Persisted(replies)|
    ensures sent ==> (db.conversations == old(db.conversations) +
      Turns(old(db.conversationSeq) + 1, currentSession.value, userInput, Persisted(replies), now))
    ensures db.sessions == old(db.sessions) && db.sessionSeq == old(db.sessionSeq)
    ensures db.conversationColumns == old(db.conversationColumns)
  {
    sent := userInput != "" && currentSession.Some? && currentSession.value != 0;
    if sent {
      SaveReplies(db, currentSession.value, userInput, replies, now);
    }
  }

  /** After a send into a session that had no rows, its history holds exactly
      the saved replies: as many rows as models that answered. */
  lemma HistoryAfterSend(
    cs: seq<ConversationRow>, firstId: nat, sessionId: int, userInput: string,
    replies: seq<Reply>, now: nat)
    requires Ordered(cs + Turns(firstId, sessionId, userInput, Persisted(replies), now),
                     ConversationBefore)
    requires ConversationsOf(cs, sessionId) == []
    ensures var after := cs + Turns(firstId, sessionId, userInput, Persisted(replies), now);
      |History(after, sessionId)| == |Filter(replies, Answered)|
  {
    HistoryOfFreshSession(cs, Turns(firstId, sessionId, userInput, Persisted(replies), now), sessionId);
    PersistedIsAnsweredFenced(replies);
  }

  // ---------------------------------------------------------------------------
  // Comparison table

  /** The three columns of the comparison report. */
  datatype ComparisonTable = ComparisonTable(
    models: seq<string>, responses: seq<string>, times: seq<string>)

  /** `prepare_comparison_data`: one row per reply, in order, with the
      response time rendered by `format`. A model whose call failed still has
      its row, with an empty response. The prompt is not used. */
  method PrepareComparisonData(prompt: string, replies: seq<Reply>, format: real -> string)
    returns (table: ComparisonTable)
    ensures |table.models| == |table.responses| == |table.times| == |replies|
    ensures forall i :: 0 <= i < |replies| ==>
      && table.models[i] == replies[i].model
      && table.responses[i] == replies[i].response
      && table.times[i] == format(replies[i].time)
  {
    var models, responses, times := [], [], [];
    for i := 0 to |replies|
      invariant |models| == |responses| == |times| == i
      invariant forall k :: 0 <= k < i ==>
        && models[k] == replies[k].model
        && responses[k] == replies[k].response
        && times[k] == format(replies[k].time)
    {
      models := models + [replies[i].model];
      responses := responses + [replies[i].response];
      times := times + [format(replies[i].time)];
    }
    table := ComparisonTable(models, responses, times);
  }
}

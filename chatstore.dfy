/**
 * The conversation store of the chat server (server.py, `DatabaseManager`):
 * the `users`, `conversations` and `messages` tables as sequences of rows in
 * insertion order, each row carrying its AUTOINCREMENT id. `CURRENT_TIMESTAMP`
 * is the `now` parameter of each writing operation.
 */
module ChatStore {
  import opened Wrappers
  import opened Ordering

  datatype UserRow = UserRow(rowId: int, userId: string, username: string, createdAt: int, lastActive: int)

  /** A `conversations` row; the `title` column is never written and is not modelled. */
  datatype ConversationRow = ConversationRow(rowId: int, owner: string, conversationId: string, model: string, createdAt: int, updatedAt: int)

  datatype MessageRow = MessageRow(rowId: int, conversationId: string, role: string, content: string, model: Option<string>, timestamp: int)

  function MessageKey(m: MessageRow): Key {
    Key(m.timestamp, m.rowId)
  }

  function ConversationKey(c: ConversationRow): Key {
    Key(c.updatedAt, c.rowId)
  }

  // ---------------------------------------------------------------------------
  // Row filters (the WHERE clauses)
  // ---------------------------------------------------------------------------

  /** `WHERE conversation_id = c` on `messages`, in table order. */
  function MessagesIn(ms: seq<MessageRow>, c: string): (r: seq<MessageRow>)
    ensures |r| <= |ms|
    ensures forall m :: m in r <==> m in ms && m.conversationId == c
    decreases |ms|
  {
    if ms == [] then []
    else MessagesIn(ms[..|ms| - 1], c) + (if ms[|ms| - 1].conversationId == c then [ms[|ms| - 1]] else [])
  }

  /** `DELETE FROM messages WHERE conversation_id IN ids`: the surviving rows, in table order. */
  function DropMessagesOf(ms: seq<MessageRow>, ids: set<string>): (r: seq<MessageRow>)
    ensures |r| <= |ms|
    ensures forall m :: m in r <==> m in ms && m.conversationId !in ids
    decreases |ms|
  {
    if ms == [] then []
    else DropMessagesOf(ms[..|ms| - 1], ids) + (if ms[|ms| - 1].conversationId !in ids then [ms[|ms| - 1]] else [])
  }

  /** `WHERE user_id = u` on `conversations`, in table order. */
  function RowsOwnedBy(cs: seq<ConversationRow>, u: string): (r: seq<ConversationRow>)
    ensures |r| <= |cs|
    ensures forall x :: x in r <==> x in cs && x.owner == u
    decreases |cs|
  {
    if cs == [] then []
    else RowsOwnedBy(cs[..|cs| - 1], u) + (if cs[|cs| - 1].owner == u then [cs[|cs| - 1]] else [])
  }

  /** `DELETE FROM conversations WHERE user_id = u`: the surviving rows. */
  function DropRowsOwnedBy(cs: seq<ConversationRow>, u: string): (r: seq<ConversationRow>)
    ensures |r| <= |cs|
    ensures forall x :: x in r <==> x in cs && x.owner != u
    decreases |cs|
  {
    if cs == [] then []
    else DropRowsOwnedBy(cs[..|cs| - 1], u) + (if cs[|cs| - 1].owner != u then [cs[|cs| - 1]] else [])
  }

  /** `DELETE FROM conversations WHERE conversation_id = c`: the surviving rows. */
  function DropRowsWithId(cs: seq<ConversationRow>, c: string): (r: seq<ConversationRow>)
    ensures |r| <= |cs|
    ensures forall x :: x in r <==> x in cs && x.conversationId != c
    decreases |cs|
  {
    if cs == [] then []
    else DropRowsWithId(cs[..|cs| - 1], c) + (if cs[|cs| - 1].conversationId != c then [cs[|cs| - 1]] else [])
  }

  /** Regrouping `(p + q) + tail` as `p + (q + tail)`, with each side named by what it equals. */
  lemma SnocRegroup<T>(whole: seq<T>, front: seq<T>, right: seq<T>, p: seq<T>, q: seq<T>, tail: seq<T>)
    requires whole == front + tail && front == p + q && right == q + tail
    ensures whole == p + right
  {
  }

  /** `MessagesIn` keeps table order: filtering a concatenation filters each part in turn. */
  lemma {:induction false} MessagesInConcat(a: seq<MessageRow>, b: seq<MessageRow>, c: string)
    ensures MessagesIn(a + b, c) == MessagesIn(a, c) + MessagesIn(b, c)
    decreases |b|
  {
    if b == [] {
      assert a + b == a;
    } else {
      var init, last := b[..|b| - 1], b[|b| - 1];
      var tail := if last.conversationId == c then [last] else [];
      assert MessagesIn(a + b, c) == MessagesIn(a + init, c) + tail by {
        assert a + b == (a + init) + [last];
        assert ((a + init) + [last])[..|a + init|] == a + init;
      }
      assert MessagesIn(b, c) == MessagesIn(init, c) + tail;
      MessagesInConcat(a, init, c);
      SnocRegroup(MessagesIn(a + b, c), MessagesIn(a + init, c), MessagesIn(b, c), MessagesIn(a, c), MessagesIn(init, c), tail);
    }
  }

  /** `DropMessagesOf` keeps survivors of a concatenation are each part's survivors, in turn. */
  lemma {:induction false} DropMessagesOfConcat(a: seq<MessageRow>, b: seq<MessageRow>, ids: set<string>)
    ensures DropMessagesOf(a + b, ids) == DropMessagesOf(a, ids) + DropMessagesOf(b, ids)
    decreases |b|
  {
    if b == [] {
      assert a + b == a;
    } else {
      var init, last := b[..|b| - 1], b[|b| - 1];
      var tail := if last.conversationId !in ids then [last] else [];
      assert DropMessagesOf(a + b, ids) == DropMessagesOf(a + init, ids) + tail by {
        assert a + b == (a + init) + [last];
        assert ((a + init) + [last])[..|a + init|] == a + init;
      }
      assert DropMessagesOf(b, ids) == DropMessagesOf(init, ids) + tail;
      DropMessagesOfConcat(a, init, ids);
      SnocRegroup(DropMessagesOf(a + b, ids), DropMessagesOf(a + init, ids), DropMessagesOf(b, ids), DropMessagesOf(a, ids), DropMessagesOf(init, ids), tail);
    }
  }

  /** `RowsOwnedBy` keeps table order: filtering a concatenation filters each part in turn. */
  lemma {:induction false} RowsOwnedByConcat(a: seq<ConversationRow>, b: seq<ConversationRow>, u: string)
    ensures RowsOwnedBy(a + b, u) == RowsOwnedBy(a, u) + RowsOwnedBy(b, u)
    decreases |b|
  {
    if b == [] {
      assert a + b == a;
    } else {
      var init, last := b[..|b| - 1], b[|b| - 1];
      var tail := if last.owner == u then [last] else [];
      assert RowsOwnedBy(a + b, u) == RowsOwnedBy(a + init, u) + tail by {
        assert a + b == (a + init) + [last];
        assert ((a + init) + [last])[..|a + init|] == a + init;
      }
      assert RowsOwnedBy(b, u) == RowsOwnedBy(init, u) + tail;
      RowsOwnedByConcat(a, init, u);
      SnocRegroup(RowsOwnedBy(a + b, u), RowsOwnedBy(a + init, u), RowsOwnedBy(b, u), RowsOwnedBy(a, u), RowsOwnedBy(init, u), tail);
    }
  }

  /** `DropRowsOwnedBy` keeps survivors of a concatenation are each part's survivors, in turn. */
  lemma {:induction false} DropRowsOwnedByConcat(a: seq<ConversationRow>, b: seq<ConversationRow>, u: string)
    ensures DropRowsOwnedBy(a + b, u) == DropRowsOwnedBy(a, u) + DropRowsOwnedBy(b, u)
    decreases |b|
  {
    if b == [] {
      assert a + b == a;
    } else {
      var init, last := b[..|b| - 1], b[|b| - 1];
      var tail := if last.owner != u then [last] else [];
      assert DropRowsOwnedBy(a + b, u) == DropRowsOwnedBy(a + init, u) + tail by {
        assert a + b == (a + init) + [last];
        assert ((a + init) + [last])[..|a + init|] == a + init;
      }
      assert DropRowsOwnedBy(b, u) == DropRowsOwnedBy(init, u) + tail;
      DropRowsOwnedByConcat(a, init, u);
      SnocRegroup(DropRowsOwnedBy(a + b, u), DropRowsOwnedBy(a + init, u), DropRowsOwnedBy(b, u), DropRowsOwnedBy(a, u), DropRowsOwnedBy(init, u), tail);
    }
  }

  /** `DropRowsWithId` keeps survivors of a concatenation are each part's survivors, in turn. */
  lemma {:induction false} DropRowsWithIdConcat(a: seq<ConversationRow>, b: seq<ConversationRow>, c: string)
    ensures DropRowsWithId(a + b, c) == DropRowsWithId(a, c) + DropRowsWithId(b, c)
    decreases |b|
  {
    if b == [] {
      assert a + b == a;
    } else {
      var init, last := b[..|b| - 1], b[|b| - 1];
      var tail := if last.conversationId != c then [last] else [];
      assert DropRowsWithId(a + b, c) == DropRowsWithId(a + init, c) + tail by {
        assert a + b == (a + init) + [last];
        assert ((a + init) + [last])[..|a + init|] == a + init;
      }
      assert DropRowsWithId(b, c) == DropRowsWithId(init, c) + tail;
      DropRowsWithIdConcat(a, init, c);
      SnocRegroup(DropRowsWithId(a + b, c), DropRowsWithId(a + init, c), DropRowsWithId(b, c), DropRowsWithId(a, c), DropRowsWithId(init, c), tail);
    }
  }

  /** `SELECT conversation_id FROM conversations WHERE user_id = u`, in table order. */
  function ConversationIdsOf(cs: seq<ConversationRow>, u: string): (r: seq<string>)
    ensures |r| <= |cs|
    ensures forall c :: c in r <==> exists x :: x in cs && x.owner == u && x.conversationId == c
    decreases |cs|
  {
    if cs == [] then []
    else
      var init := cs[..|cs| - 1];
      var last := cs[|cs| - 1];
      assert forall x :: x in cs <==> x in init || x == last;
      ConversationIdsOf(init, u) + (if last.owner == u then [last.conversationId] else [])
  }

  /** `SELECT COUNT(*) FROM conversations WHERE conversation_id = c AND user_id = u`. */
  function CountOwned(cs: seq<ConversationRow>, c: string, u: string): (n: nat)
    ensures n <= |cs|
    ensures n > 0 <==> exists i :: 0 <= i < |cs| && cs[i].conversationId == c && cs[i].owner == u
    decreases |cs|
  {
    if cs == [] then 0
    else
      var init := cs[..|cs| - 1];
      assert forall i :: 0 <= i < |init| ==> init[i] == cs[i];
      CountOwned(init, c, u) + (if cs[|cs| - 1].conversationId == c && cs[|cs| - 1].owner == u then 1 else 0)
  }

  /** The ids of a list, as a set. */
  function Elements(s: seq<string>): (r: set<string>)
    ensures forall x :: x in r <==> x in s
    decreases |s|
  {
    if s == [] then {}
    else
      assert forall x :: x in s <==> x in s[..|s| - 1] || x == s[|s| - 1];
      Elements(s[..|s| - 1]) + {s[|s| - 1]}
  }

  /** `UPDATE conversations SET updated_at = now WHERE conversation_id = c`. */
  function Touch(cs: seq<ConversationRow>, c: string, now: int): (r: seq<ConversationRow>)
    ensures |r| == |cs|
    ensures forall i :: 0 <= i < |cs| ==> r[i] == if cs[i].conversationId == c then cs[i].(updatedAt := now) else cs[i]
  {
    seq(|cs|, i requires 0 <= i < |cs| => if cs[i].conversationId == c then cs[i].(updatedAt := now) else cs[i])
  }

  /** `UPDATE users SET last_active = now WHERE user_id = u`. */
  function TouchUser(us: seq<UserRow>, u: string, now: int): (r: seq<UserRow>)
    ensures |r| == |us|
    ensures forall i :: 0 <= i < |us| ==> r[i] == if us[i].userId == u then us[i].(lastActive := now) else us[i]
  {
    seq(|us|, i requires 0 <= i < |us| => if us[i].userId == u then us[i].(lastActive := now) else us[i])
  }

  predicate HasUser(us: seq<UserRow>, u: string) {
    exists i :: 0 <= i < |us| && us[i].userId == u
  }

  /**
   * The name stored for a new user: `username or f"User_{user_id[:8]}"`, so a
   * missing or empty name falls back to `User_` and the first eight characters
   * of the id.
   */
  function NameFor(userId: string, username: Option<string>): (r: string)
    ensures username.Some? && username.value != "" ==> r == username.value
    ensures username.None? || username.value == "" ==>
              && 5 <= |r| <= 13 && |r| - 5 <= |userId| && r == "User_" + userId[..|r| - 5]
              && (|userId| >= 8 ==> |r| == 13) && (|userId| < 8 ==> |r| == 5 + |userId|)
  {
    if username.Some? && username.value != "" then username.value
    else "User_" + userId[..if |userId| < 8 then |userId| else 8]
  }

  // ---------------------------------------------------------------------------
  // Chronological history
  // ---------------------------------------------------------------------------

  /** The whole history of conversation `c`, oldest first. */
  function History(ms: seq<MessageRow>, c: string): (r: seq<MessageRow>)
    ensures OldestFirst(r, MessageKey)
    ensures multiset(r) == multiset(MessagesIn(ms, c))
  {
    var sorted := SortNewestFirst(MessagesIn(ms, c), MessageKey);
    ReverseNewestFirst(sorted, MessageKey);
    assert multiset(Reverse(sorted)) == multiset(sorted) by {
      ReverseMultiset(sorted);
    }
    Reverse(sorted)
  }

  lemma {:induction false} ReverseMultiset<T>(s: seq<T>)
    ensures multiset(Reverse(s)) == multiset(s)
    decreases |s|
  {
    if s != [] {
      ReverseMultiset(s[1..]);
      assert Reverse(s) == Reverse(s[1..]) + [s[0]];
      assert s == [s[0]] + s[1..];
    }
  }

  /** A filter of a strictly ascending table is strictly ascending. */
  lemma {:induction false} MessagesInAscending(ms: seq<MessageRow>, c: string)
    requires StrictlyAscending(ms, MessageKey)
    ensures StrictlyAscending(MessagesIn(ms, c), MessageKey)
    decreases |ms|
  {
    if ms != [] {
      var init := ms[..|ms| - 1];
      assert StrictlyAscending(init, MessageKey);
      MessagesInAscending(init, c);
      var last := ms[|ms| - 1];
      forall m | m in MessagesIn(init, c) ensures Before(MessageKey(m), MessageKey(last)) {
        var k :| 0 <= k < |init| && init[k] == m;
        assert ms[k] == m;
      }
    }
  }

  lemma ReverseReverse<T>(s: seq<T>)
    ensures Reverse(Reverse(s)) == s
  {
  }

  /**
   * When the table's keys ascend in insertion order (the clock never goes
   * back), the sorted history of a conversation is exactly its messages in
   * insertion order.
   */
  lemma HistoryInInsertionOrder(ms: seq<MessageRow>, c: string)
    requires StrictlyAscending(ms, MessageKey)
    ensures History(ms, c) == MessagesIn(ms, c)
  {
    MessagesInAscending(ms, c);
    SortOfAscending(MessagesIn(ms, c), MessageKey);
    ReverseReverse(MessagesIn(ms, c));
  }

  lemma DropMessagesAppend(ms: seq<MessageRow>, m: MessageRow, ids: set<string>)
    ensures DropMessagesOf(ms + [m], ids) == DropMessagesOf(ms, ids) + (if m.conversationId !in ids then [m] else [])
  {
    assert (ms + [m])[..|ms|] == ms;
  }

  lemma {:induction false} DropMessagesNone(ms: seq<MessageRow>)
    ensures DropMessagesOf(ms, {}) == ms
    decreases |ms|
  {
    if ms != [] {
      DropMessagesNone(ms[..|ms| - 1]);
      assert ms == ms[..|ms| - 1] + [ms[|ms| - 1]];
    }
  }

  /** The composition of two deletions is one deletion of the union. */
  lemma {:induction false} DropMessagesTwice(ms: seq<MessageRow>, a: set<string>, b: set<string>)
    ensures DropMessagesOf(DropMessagesOf(ms, a), b) == DropMessagesOf(ms, a + b)
    decreases |ms|
  {
    if ms != [] {
      var init, last := ms[..|ms| - 1], ms[|ms| - 1];
      DropMessagesTwice(init, a, b);
      var p := DropMessagesOf(init, a);
      if last.conversationId !in a {
        assert DropMessagesOf(ms, a) == p + [last];
        DropMessagesAppend(p, last, b);
      } else {
        assert DropMessagesOf(ms, a) == p;
      }
    }
  }

  lemma DropRowsWithIdAppend(cs: seq<ConversationRow>, x: ConversationRow, c: string)
    ensures DropRowsWithId(cs + [x], c) == DropRowsWithId(cs, c) + (if x.conversationId != c then [x] else [])
  {
    assert (cs + [x])[..|cs|] == cs;
  }

  lemma {:induction false} DropRowsWithIdTwice(cs: seq<ConversationRow>, c: string)
    ensures DropRowsWithId(DropRowsWithId(cs, c), c) == DropRowsWithId(cs, c)
    decreases |cs|
  {
    if cs != [] {
      var init, last := cs[..|cs| - 1], cs[|cs| - 1];
      DropRowsWithIdTwice(init, c);
      var p := DropRowsWithId(init, c);
      if last.conversationId != c {
        assert DropRowsWithId(cs, c) == p + [last];
        DropRowsWithIdAppend(p, last, c);
      } else {
        assert DropRowsWithId(cs, c) == p;
      }
    }
  }

  /**
   * The newest `limit` messages of `c`, reversed, are the last entries of its
   * chronological history.
   */
  lemma NewestAreHistorySuffix(ms: seq<MessageRow>, c: string, limit: int)
    ensures var sorted := SortNewestFirst(MessagesIn(ms, c), MessageKey);
            var h := History(ms, c);
            var r := Reverse(Limit(sorted, limit));
            |r| <= |h| && r == h[|h| - |r|..] && OldestFirst(r, MessageKey)
  {
    var sorted := SortNewestFirst(MessagesIn(ms, c), MessageKey);
    var newest := Limit(sorted, limit);
    ReverseOfPrefix(sorted, |newest|);
    ReverseNewestFirst(newest, MessageKey);
  }

  lemma NewestBelong(ms: seq<MessageRow>, c: string, limit: int)
    ensures forall m :: m in Reverse(Limit(SortNewestFirst(MessagesIn(ms, c), MessageKey), limit)) ==> m in ms && m.conversationId == c
  {
    var filtered := MessagesIn(ms, c);
    var sorted := SortNewestFirst(filtered, MessageKey);
    var newest := Limit(sorted, limit);
    ReverseMultiset(newest);
    forall m | m in Reverse(newest) ensures m in ms && m.conversationId == c {
      assert m in multiset(Reverse(newest));
      assert m in newest;
      assert m in sorted;
      assert m in multiset(sorted);
      assert m in multiset(filtered);
    }
  }

  class DatabaseManager {
    var users: seq<UserRow>
    var conversations: seq<ConversationRow>
    var messages: seq<MessageRow>
    /** The next AUTOINCREMENT id of each table: above every id ever handed out. */
    var nextUserRowId: int
    var nextConversationRowId: int
    var nextMessageRowId: int

    /** `users.user_id` is UNIQUE, and every row id lies below its table's counter. */
    ghost predicate Valid()
      reads this
    {
      && (forall i, j :: 0 <= i < j < |users| ==> users[i].userId != users[j].userId)
      && (forall i :: 0 <= i < |users| ==> users[i].rowId < nextUserRowId)
      && (forall i :: 0 <= i < |conversations| ==> conversations[i].rowId < nextConversationRowId)
      && (forall i :: 0 <= i < |messages| ==> messages[i].rowId < nextMessageRowId)
    }

    /** `init_database`: three empty tables. */
    constructor ()
      ensures Valid()
      ensures users == [] && conversations == [] && messages == []
    {
      users, conversations, messages := [], [], [];
      nextUserRowId, nextConversationRowId, nextMessageRowId := 1, 1, 1;
    }

    /**
     * `get_or_create_user(user_id, username)`: an existing user has its
     * `last_active` refreshed; an unknown one is inserted under `NameFor`.
     * Either way the given id is returned.
     */
    method GetOrCreateUser(userId: string, username: Option<string>, now: int) returns (r: string)
      requires Valid()
      modifies this
      ensures Valid()
      ensures r == userId
      ensures HasUser(users, userId)
      ensures HasUser(old(users), userId) ==>
                users == TouchUser(old(users), userId, now) && nextUserRowId == old(nextUserRowId)
      ensures !HasUser(old(users), userId) ==>
                && users == old(users) + [UserRow(old(nextUserRowId), userId, NameFor(userId, username), now, now)]
                && nextUserRowId == old(nextUserRowId) + 1
      ensures conversations == old(conversations) && messages == old(messages)
      ensures nextConversationRowId == old(nextConversationRowId) && nextMessageRowId == old(nextMessageRowId)
    {
      if HasUser(users, userId) {
        users := TouchUser(users, userId, now);
      } else {
        users := users + [UserRow(nextUserRowId, userId, NameFor(userId, username), now, now)];
        nextUserRowId := nextUserRowId + 1;
        assert users[|users| - 1].userId == userId;
      }
      return userId;
    }

    /**
     * `create_conversation(user_id, conversation_id, model)`: inserts one row;
     * nothing makes the id unique or checks the owner. `fails` stands for a
     * database error, reported as `False` with nothing written.
     */
    method CreateConversation(owner: string, conversationId: string, model: string, now: int, fails: bool) returns (ok: bool)
      requires Valid()
      modifies this
      ensures Valid()
      ensures ok == !fails
      ensures ok ==> conversations == old(conversations) + [ConversationRow(old(nextConversationRowId), owner, conversationId, model, now, now)]
                     && nextConversationRowId == old(nextConversationRowId) + 1
      ensures !ok ==> conversations == old(conversations) && nextConversationRowId == old(nextConversationRowId)
      ensures users == old(users) && messages == old(messages)
      ensures nextUserRowId == old(nextUserRowId) && nextMessageRowId == old(nextMessageRowId)
    {
      if fails {
        return false;
      }
      conversations := conversations + [ConversationRow(nextConversationRowId, owner, conversationId, model, now, now)];
      nextConversationRowId := nextConversationRowId + 1;
      return true;
    }

    /**
     * `add_message(conversation_id, role, content, model)`: appends exactly one
     * message and sets `updated_at` on every conversation row with that id, in
     * one commit. Whether such a row exists is not checked.
     */
    method AddMessage(conversationId: string, role: string, content: string, model: Option<string>, now: int) returns (ok: bool)
      requires Valid()
      modifies this
      ensures Valid()
      ensures ok
      ensures messages == old(messages) + [MessageRow(old(nextMessageRowId), conversationId, role, content, model, now)]
      ensures nextMessageRowId == old(nextMessageRowId) + 1
      ensures conversations == Touch(old(conversations), conversationId, now)
      ensures users == old(users)
      ensures nextUserRowId == old(nextUserRowId) && nextConversationRowId == old(nextConversationRowId)
    {
      messages := messages + [MessageRow(nextMessageRowId, conversationId, role, content, model, now)];
      nextMessageRowId := nextMessageRowId + 1;
      conversations := Touch(conversations, conversationId, now);
      return true;
    }

    /**
     * `get_conversation_messages(conversation_id, limit)`: the newest `limit`
     * messages of the conversation, put back in chronological order. They are
     * the last `limit` entries of its full history.
     */
    function GetConversationMessages(conversationId: string, limit: int): (r: seq<MessageRow>)
      reads this
      ensures var n := |MessagesIn(messages, conversationId)|;
              |r| == if 0 <= limit < n then limit else n
      ensures forall m :: m in r ==> m in messages && m.conversationId == conversationId
      ensures OldestFirst(r, MessageKey)
      ensures var h := History(messages, conversationId);
              |r| <= |h| && r == h[|h| - |r|..]
    {
      NewestAreHistorySuffix(messages, conversationId, limit);
      NewestBelong(messages, conversationId, limit);
      Reverse(Limit(SortNewestFirst(MessagesIn(messages, conversationId), MessageKey), limit))
    }

    /** `get_user_conversations(user_id)`: exactly the user's rows, most recently updated first. */
    function GetUserConversations(u: string): (r: seq<ConversationRow>)
      reads this
      ensures NewestFirst(r, ConversationKey)
      ensures multiset(r) == multiset(RowsOwnedBy(conversations, u))
      ensures forall x :: x in r <==> x in conversations && x.owner == u
    {
      var r := SortNewestFirst(RowsOwnedBy(conversations, u), ConversationKey);
      assert forall x :: x in r <==> x in multiset(RowsOwnedBy(conversations, u));
      r
    }

    /** `conversation_belongs_to_user(conversation_id, user_id)`: some row pairs the id with the user. */
    function ConversationBelongsToUser(conversationId: string, u: string): (b: bool)
      reads this
      ensures b <==> exists i :: 0 <= i < |conversations| && conversations[i].conversationId == conversationId && conversations[i].owner == u
    {
      CountOwned(conversations, conversationId, u) > 0
    }

    /**
     * `delete_conversation(conversation_id)`: the messages go first, then every
     * conversation row with that id, whoever owns it. It reports success even
     * when nothing matched.
     */
    method DeleteConversation(conversationId: string) returns (ok: bool)
      requires Valid()
      modifies this
      ensures Valid()
      ensures ok
      ensures messages == DropMessagesOf(old(messages), {conversationId})
      ensures conversations == DropRowsWithId(old(conversations), conversationId)
      ensures users == old(users)
      ensures nextUserRowId == old(nextUserRowId) && nextConversationRowId == old(nextConversationRowId)
      ensures nextMessageRowId == old(nextMessageRowId)
    {
      DropMessagesKeepsIdsBelow(messages, {conversationId}, nextMessageRowId);
      ConversationRowsKeepIdsBelow(conversations, DropRowsWithId(conversations, conversationId), nextConversationRowId);
      messages := DropMessagesOf(messages, {conversationId});
      conversations := DropRowsWithId(conversations, conversationId);
      return true;
    }

    /**
     * `clear_user_conversations(user_id)`: the ids of the user's conversations
     * are read first, the messages of each id are deleted in turn, then the
     * user's conversation rows. Messages of another owner's conversation that
     * shares one of those ids go too; that owner's rows stay.
     */
    method ClearUserConversations(u: string) returns (ok: bool)
      requires Valid()
      modifies this
      ensures Valid()
      ensures ok
      ensures messages == DropMessagesOf(old(messages), Elements(ConversationIdsOf(old(conversations), u)))
      ensures conversations == DropRowsOwnedBy(old(conversations), u)
      ensures forall x :: x in conversations ==> x.owner != u
      ensures forall x :: x in old(conversations) && x.owner != u ==> x in conversations
      ensures users == old(users)
      ensures nextUserRowId == old(nextUserRowId) && nextConversationRowId == old(nextConversationRowId)
      ensures nextMessageRowId == old(nextMessageRowId)
    {
      var ids := ConversationIdsOf(conversations, u);
      var k := 0;
      DropMessagesNone(messages);
      assert Elements(ids[..0]) == {};
      while k < |ids|
        invariant 0 <= k <= |ids|
        invariant messages == DropMessagesOf(old(messages), Elements(ids[..k]))
        invariant users == old(users) && conversations == old(conversations)
        invariant nextUserRowId == old(nextUserRowId) && nextConversationRowId == old(nextConversationRowId)
        invariant nextMessageRowId == old(nextMessageRowId)
      {
        ClearStep(old(messages), ids, k);
        messages := DropMessagesOf(messages, {ids[k]});
        k := k + 1;
      }
      assert ids[..k] == ids;
      DropMessagesKeepsIdsBelow(old(messages), Elements(ids), nextMessageRowId);
      ConversationRowsKeepIdsBelow(conversations, DropRowsOwnedBy(conversations, u), nextConversationRowId);
      conversations := DropRowsOwnedBy(conversations, u);
      return true;
    }
  }

  lemma DropMessagesKeepsIdsBelow(ms: seq<MessageRow>, ids: set<string>, next: int)
    requires forall i :: 0 <= i < |ms| ==> ms[i].rowId < next
    ensures forall i :: 0 <= i < |DropMessagesOf(ms, ids)| ==> DropMessagesOf(ms, ids)[i].rowId < next
  {
    var r := DropMessagesOf(ms, ids);
    forall i | 0 <= i < |r| ensures r[i].rowId < next {
      assert r[i] in ms;
    }
  }

  lemma ConversationRowsKeepIdsBelow(cs: seq<ConversationRow>, r: seq<ConversationRow>, next: int)
    requires forall i :: 0 <= i < |cs| ==> cs[i].rowId < next
    requires forall x :: x in r ==> x in cs
    ensures forall i :: 0 <= i < |r| ==> r[i].rowId < next
  {
    forall i | 0 <= i < |r| ensures r[i].rowId < next {
      assert r[i] in cs;
    }
  }

  /** One turn of the deletion loop of `ClearUserConversations`. */
  lemma ClearStep(ms: seq<MessageRow>, ids: seq<string>, k: nat)
    requires k < |ids|
    ensures DropMessagesOf(DropMessagesOf(ms, Elements(ids[..k])), {ids[k]}) == DropMessagesOf(ms, Elements(ids[..k + 1]))
  {
    DropMessagesTwice(ms, Elements(ids[..k]), {ids[k]});
    assert ids[..k + 1][..k] == ids[..k];
  }

  /** Deleting a conversation twice leaves the store as deleting it once. */
  lemma DeleteIdempotent(ms: seq<MessageRow>, cs: seq<ConversationRow>, c: string)
    ensures DropMessagesOf(DropMessagesOf(ms, {c}), {c}) == DropMessagesOf(ms, {c})
    ensures DropRowsWithId(DropRowsWithId(cs, c), c) == DropRowsWithId(cs, c)
  {
    DropMessagesTwice(ms, {c}, {c});
    assert {c} + {c} == {c};
    DropRowsWithIdTwice(cs, c);
  }
}

/**
 * The request handlers of the chat server that decide what the store sees
 * (server.py): `get_user_id`, which resolves the session to a user id, and the
 * decision flow of the `chat` and `index` routes. The HTTP layer is reduced to
 * its inputs (the form and query fields, each absent or present) and to an
 * outcome naming the redirect or page; the clock, the process id, the model
 * backend and the code-block formatter are parameters.
 */
module Server {
  import opened Wrappers
  import opened Text
  import opened Sessions
  import opened Validation
  import opened RateLimit
  import opened ChatStore
  import opened Inference
  import opened Auth

  const ANON_PREFIX: string := "anon_user_"

  /** `f"anon_user_{int(time.time())}_{os.getpid()}"`. */
  function AnonymousId(now: nat, pid: nat): (r: string)
    ensures StartsWith(r, ANON_PREFIX)
  {
    ANON_PREFIX + NatToString(now) + "_" + NatToString(pid)
  }

  /** A minted anonymous id can never be mistaken for a logged-in user's id. */
  lemma AnonymousIdIsNotAuthenticated(now: nat, pid: nat)
    ensures !StartsWith(AnonymousId(now, pid), AUTH_PREFIX)
  {
    var r := AnonymousId(now, pid);
    assert r[1] == 'n';
  }

  /** The session entry holds a logged-in user's id in its current form. */
  predicate IsAuthenticated(v: Option<SessionValue>) {
    v.Some? && v.value.Text? && StartsWith(v.value.s, AUTH_PREFIX)
  }

  /** The id `get_user_id` answers for a session entry. */
  function ResolvedUserId(v: Option<SessionValue>, now: nat, pid: nat): (r: string)
    ensures IsAuthenticated(v) ==> r == v.value.s
    ensures v.Some? && v.value.Integer? ==> r == AUTH_PREFIX + IntToString(v.value.n)
    ensures StartsWith(r, AUTH_PREFIX) || r == AnonymousId(now, pid)
  {
    if IsAuthenticated(v) then v.value.s
    else if v.Some? && v.value.Integer? then AUTH_PREFIX + IntToString(v.value.n)
    else AnonymousId(now, pid)
  }

  /** The session entry `get_user_id` leaves behind. */
  function SessionAfter(v: Option<SessionValue>): (r: Option<SessionValue>)
    ensures IsAuthenticated(v) ==> r == v
    ensures v.Some? && v.value.Integer? ==> r == Some(Text(AUTH_PREFIX + IntToString(v.value.n)))
    ensures !IsAuthenticated(v) && !(v.Some? && v.value.Integer?) ==> r.None?
  {
    if IsAuthenticated(v) then v
    else if v.Some? && v.value.Integer? then Some(Text(AUTH_PREFIX + IntToString(v.value.n)))
    else None
  }

  /**
   * After `get_user_id` the session holds either nothing or a logged-in id,
   * and a second call finds it in that form and changes nothing more.
   */
  lemma SessionAfterIsSettled(v: Option<SessionValue>, now: nat, pid: nat, later: nat, otherPid: nat)
    ensures SessionAfter(v).None? || IsAuthenticated(SessionAfter(v))
    ensures SessionAfter(SessionAfter(v)) == SessionAfter(v)
    ensures SessionAfter(v).Some? ==> ResolvedUserId(SessionAfter(v), later, otherPid) == ResolvedUserId(v, now, pid)
  {
    if v.Some? && v.value.Integer? {
      var s := AUTH_PREFIX + IntToString(v.value.n);
      assert s[..|AUTH_PREFIX|] == AUTH_PREFIX;
    }
  }

  /**
   * The `users` table after `get_user_id`: unchanged for a logged-in id or an
   * integer; otherwise the fresh anonymous id is registered, or its
   * `last_active` refreshed when it is already there.
   */
  function UsersAfterResolve(us: seq<UserRow>, nextRowId: int, v: Option<SessionValue>, now: nat, pid: nat): seq<UserRow> {
    if IsAuthenticated(v) || (v.Some? && v.value.Integer?) then us
    else
      var u := AnonymousId(now, pid);
      if HasUser(us, u) then TouchUser(us, u, now) else us + [UserRow(nextRowId, u, NameFor(u, None), now, now)]
  }

  /**
   * `get_user_id`: a logged-in id is returned as it is, with no check against
   * the credential store and nothing written; an integer is rewritten in the
   * session to its `auth_user_<n>` form; anything else is removed from the
   * session, and a fresh anonymous id is registered in `users` but not stored
   * in the session.
   */
  method GetUserId(session: Session, db: DatabaseManager, now: nat, pid: nat) returns (userId: string)
    requires db.Valid()
    modifies session, db
    ensures db.Valid()
    ensures userId == ResolvedUserId(old(session.userId), now, pid)
    ensures session.userId == SessionAfter(old(session.userId))
    ensures IsAuthenticated(old(session.userId)) || (old(session.userId).Some? && old(session.userId).value.Integer?) ==>
              db.users == old(db.users) && db.nextUserRowId == old(db.nextUserRowId)
    ensures !IsAuthenticated(old(session.userId)) && !(old(session.userId).Some? && old(session.userId).value.Integer?) ==>
              && HasUser(db.users, userId)
              && (HasUser(old(db.users), userId) ==> db.users == TouchUser(old(db.users), userId, now))
              && (!HasUser(old(db.users), userId) ==>
                    db.users == old(db.users) + [UserRow(old(db.nextUserRowId), userId, NameFor(userId, None), now, now)])
    ensures db.users == UsersAfterResolve(old(db.users), old(db.nextUserRowId), old(session.userId), now, pid)
    ensures db.conversations == old(db.conversations) && db.messages == old(db.messages)
    ensures db.nextConversationRowId == old(db.nextConversationRowId) && db.nextMessageRowId == old(db.nextMessageRowId)
  {
    var v := session.userId;
    if v.Some? {
      match v.value {
        case Text(s) =>
          if StartsWith(s, AUTH_PREFIX) {
            return s;
          }
        case Integer(n) =>
          userId := AUTH_PREFIX + IntToString(n);
          session.userId := Some(Text(userId));
          return;
        case OtherValue =>
      }
      session.userId := None;
    }
    userId := AnonymousId(now, pid);
    userId := db.GetOrCreateUser(userId, None, now);
  }

  // ---------------------------------------------------------------------------
  // chat
  // ---------------------------------------------------------------------------

  /** `chat` admits 5 requests per client in any 60-second window. */
  const CHAT_MAX_REQUESTS: int := 5
  const CHAT_WINDOW: int := 60

  /** The sentinel conversation id the forms send when no conversation is open. */
  const DEFAULT_CONVERSATION: string := "default"

  /** The redirect `chat` answers with. */
  datatype ChatOutcome =
    | RateLimited
    | InvalidMessage(conversationId: string, model: string)
    | BackendDown(conversationId: string, model: string)
    | Posted(conversationId: string, model: string, message: string, createdNew: bool)

  /** `chat`'s fallback for the model field: absent or not allowed gives the default model. */
  function ModelOrDefault(field: Option<string>): (m: string)
    ensures ValidateModel(m)
    ensures field.Some? && ValidateModel(field.value) ==> m == field.value
  {
    DefaultModelIsAllowed();
    var raw := field.GetOr(DEFAULT_MODEL);
    if ValidateModel(raw) then raw else DEFAULT_MODEL
  }

  /** The fallback for a conversation id: absent or invalid gives the sentinel. */
  function ConversationOrDefault(field: Option<string>): (c: string)
    ensures c == DEFAULT_CONVERSATION || (field.Some? && c == field.value && ValidateConversationId(c))
    ensures field.Some? && ValidateConversationId(field.value) ==> c == field.value
  {
    var raw := field.GetOr(DEFAULT_CONVERSATION);
    if ValidateConversationId(raw) then raw else DEFAULT_CONVERSATION
  }

  /** The id `chat` gives a new conversation: `'chat_' + str(int(time.time()))`. */
  function NewConversationId(now: nat): (c: string)
    ensures ValidateConversationId(c)
    ensures c != DEFAULT_CONVERSATION
  {
    GeneratedIdIsValid(now);
    var c := "chat_" + NatToString(now);
    assert c[0] == 'c';
    c
  }

  /**
   * The decision `chat` makes once the rate limit has admitted the request:
   * the message is validated first (the invalid-message redirect carries the
   * raw fields), then the model and conversation fall back to their defaults,
   * then the backend is checked, and the sentinel id is replaced by a new one.
   */
  function ChatDecision(messageField: Option<string>, modelField: Option<string>, conversationField: Option<string>,
                        now: nat, backendUp: bool): (o: ChatOutcome)
    ensures o != RateLimited
    ensures o.InvalidMessage? <==> ValidateInput(messageField.GetOr(""), MAX_MESSAGE_LENGTH).GetOr("") == ""
    ensures o.InvalidMessage? ==> o.conversationId == conversationField.GetOr(DEFAULT_CONVERSATION)
                                  && o.model == modelField.GetOr(DEFAULT_MODEL)
    ensures o.BackendDown? <==> !backendUp && !o.InvalidMessage?
    ensures o.BackendDown? ==> o == BackendDown(ConversationOrDefault(conversationField), ModelOrDefault(modelField))
    ensures o.Posted? ==> o.model == ModelOrDefault(modelField)
    ensures o.Posted? && o.createdNew ==> o.conversationId == NewConversationId(now)
    ensures o.Posted? ==> && backendUp
                          && ValidateInput(messageField.GetOr(""), MAX_MESSAGE_LENGTH) == Some(o.message)
                          && o.message != ""
                          && ValidateModel(o.model)
                          && ValidateConversationId(o.conversationId)
                          && (o.createdNew <==> ConversationOrDefault(conversationField) == DEFAULT_CONVERSATION)
                          && (!o.createdNew ==> o.conversationId == conversationField.value)
  {
    var rawModel := modelField.GetOr(DEFAULT_MODEL);
    var rawConversation := conversationField.GetOr(DEFAULT_CONVERSATION);
    var message := ValidateInput(messageField.GetOr(""), MAX_MESSAGE_LENGTH);
    if message.None? || message.value == "" then InvalidMessage(rawConversation, rawModel)
    else
      var model := ModelOrDefault(modelField);
      var conversation := ConversationOrDefault(conversationField);
      if !backendUp then BackendDown(conversation, model)
      else if conversation == DEFAULT_CONVERSATION then Posted(NewConversationId(now), model, message.value, true)
      else Posted(conversation, model, message.value, false)
  }

  /** The conversations table after `chat` has posted. */
  function ConversationsAfterPost(cs: seq<ConversationRow>, o: ChatOutcome, owner: string, nextRowId: int,
                                  now: int, createFails: bool): (r: seq<ConversationRow>)
    requires o.Posted?
  {
    var created := if o.createdNew && !createFails
                   then cs + [ConversationRow(nextRowId, owner, o.conversationId, o.model, now, now)]
                   else cs;
    Touch(created, o.conversationId, now)
  }

  /**
   * `chat`: the rate limit is checked first and a refused request touches
   * nothing else. Otherwise the user is resolved, and only a posted message
   * writes conversations and messages: a new conversation (owned by the
   * resolved user) when the sentinel id was sent, then the user's message.
   * `createFails` stands for a database error in `create_conversation`, whose
   * result `chat` ignores.
   */
  method Chat(limiter: RateLimiter, session: Session, db: DatabaseManager, clientIp: string,
              messageField: Option<string>, modelField: Option<string>, conversationField: Option<string>,
              now: nat, pid: nat, backendUp: bool, createFails: bool) returns (outcome: ChatOutcome)
    requires db.Valid()
    modifies limiter, session, db
    ensures db.Valid()
    ensures var allowed := |Recent(old(limiter.TimesOf(clientIp)), now, CHAT_WINDOW)| < CHAT_MAX_REQUESTS;
            && limiter.requestTimes == old(limiter.requestTimes)[clientIp :=
                 Recent(old(limiter.TimesOf(clientIp)), now, CHAT_WINDOW) + (if allowed then [now] else [])]
            && (!allowed ==> outcome == RateLimited && session.userId == old(session.userId)
                             && db.users == old(db.users) && db.conversations == old(db.conversations)
                             && db.messages == old(db.messages))
            && (allowed ==> outcome == ChatDecision(messageField, modelField, conversationField, now, backendUp)
                            && session.userId == SessionAfter(old(session.userId))
                            && db.users == UsersAfterResolve(old(db.users), old(db.nextUserRowId),
                                                             old(session.userId), now, pid))
    ensures !outcome.Posted? ==> db.conversations == old(db.conversations) && db.messages == old(db.messages)
    ensures outcome.Posted? ==>
              && db.messages == old(db.messages) + [MessageRow(old(db.nextMessageRowId), outcome.conversationId, "user",
                                                               outcome.message, None, now)]
              && db.conversations == ConversationsAfterPost(old(db.conversations), outcome,
                                                            ResolvedUserId(old(session.userId), now, pid),
                                                            old(db.nextConversationRowId), now, createFails)
  {
    var allowed := limiter.CheckRateLimit(clientIp, now, CHAT_MAX_REQUESTS, CHAT_WINDOW);
    if !allowed {
      return RateLimited;
    }
    var userId := GetUserId(session, db, now, pid);
    outcome := ChatDecision(messageField, modelField, conversationField, now, backendUp);
    if outcome.Posted? {
      if outcome.createdNew {
        var created := db.CreateConversation(userId, outcome.conversationId, outcome.model, now, createFails);
      }
      var added := db.AddMessage(outcome.conversationId, "user", outcome.message, None, now);
    }
  }

  // ---------------------------------------------------------------------------
  // index
  // ---------------------------------------------------------------------------

  /** The number of messages the display path shows (the default `limit`). */
  const PAGE_LIMIT: int := 50
  /** The number of recent messages the prompt carries. */
  const CONTEXT_LIMIT: int := 2

  /** The redirect or page `index` answers with. */
  datatype IndexOutcome =
    | Generated(conversationId: string, model: string)
    | RedirectToDefault(model: string)
    | Page(conversationId: string, model: string, messages: seq<MessageRow>)

  /** The `(role, content)` pairs the prompt is built from. */
  function TurnsOf(ms: seq<MessageRow>): (r: seq<(string, string)>)
    ensures |r| == |ms|
    ensures forall i :: 0 <= i < |ms| ==> r[i] == (ms[i].role, ms[i].content)
  {
    seq(|ms|, i requires 0 <= i < |ms| => (ms[i].role, ms[i].content))
  }

  /** `index` takes the generate path when asked to and the user message passes validation. */
  predicate GeneratePath(generateField: Option<string>, messageField: Option<string>) {
    generateField.GetOr("0") == "1" && ValidateInput(messageField.GetOr(""), MAX_MESSAGE_LENGTH).GetOr("") != ""
  }

  /**
   * `index`. On the generate path the prompt is built from the two most
   * recent messages of the conversation and the user message, the backend's
   * answer (an `Error: ...` text included) is formatted and stored as the
   * assistant's message, with no ownership check. On the display path a named
   * conversation is shown only to a user who owns it, and the sentinel id
   * shows the user's most recently updated conversation, or nothing.
   */
  method Index(session: Session, db: DatabaseManager, conversationField: Option<string>, modelField: Option<string>,
               generateField: Option<string>, messageField: Option<string>, now: nat, pid: nat,
               backend: (string, string) -> Reply, formatCodeBlocks: string -> string)
    returns (outcome: IndexOutcome)
    requires db.Valid()
    modifies session, db
    ensures db.Valid()
    ensures session.userId == SessionAfter(old(session.userId))
    ensures db.users == UsersAfterResolve(old(db.users), old(db.nextUserRowId), old(session.userId), now, pid)
    ensures var conversation := ConversationOrDefault(conversationField);
            var model := ModelOrDefault(modelField);
            GeneratePath(generateField, messageField) ==>
              var message := ValidateInput(messageField.GetOr(""), MAX_MESSAGE_LENGTH).value;
              var prompt := BuildPrompt(TurnsOf(old(db.GetConversationMessages(conversation, CONTEXT_LIMIT))), message);
              && outcome == Generated(conversation, model)
              && db.messages == old(db.messages) + [MessageRow(old(db.nextMessageRowId), conversation, "assistant",
                                                               formatCodeBlocks(ReplyText(backend(prompt, model))),
                                                               Some(model), now)]
              && db.conversations == Touch(old(db.conversations), conversation, now)
    ensures !GeneratePath(generateField, messageField) ==>
              && db.messages == old(db.messages) && db.conversations == old(db.conversations)
              && !outcome.Generated?
    ensures var conversation := ConversationOrDefault(conversationField);
            var userId := ResolvedUserId(old(session.userId), now, pid);
            !GeneratePath(generateField, messageField) && conversation != DEFAULT_CONVERSATION ==>
              && (outcome.Page? <==> db.ConversationBelongsToUser(conversation, userId))
              && (outcome.Page? ==> outcome.conversationId == conversation)
              && (!outcome.Page? ==> outcome == RedirectToDefault(ModelOrDefault(modelField)))
    ensures outcome.Page? ==> outcome.model == ModelOrDefault(modelField)
    ensures var userId := ResolvedUserId(old(session.userId), now, pid);
            outcome.Page? ==>
              || (outcome.conversationId == DEFAULT_CONVERSATION && outcome.messages == []
                  && db.GetUserConversations(userId) == [])
              || (outcome.messages == db.GetConversationMessages(outcome.conversationId, PAGE_LIMIT)
                  && db.ConversationBelongsToUser(outcome.conversationId, userId))
    ensures var userId := ResolvedUserId(old(session.userId), now, pid);
            !GeneratePath(generateField, messageField) && ConversationOrDefault(conversationField) == DEFAULT_CONVERSATION ==>
              && outcome.Page?
              && (db.GetUserConversations(userId) == [] ==> outcome.conversationId == DEFAULT_CONVERSATION && outcome.messages == [])
              && (db.GetUserConversations(userId) != [] ==>
                    outcome.conversationId == db.GetUserConversations(userId)[0].conversationId)
  {
    var userId := GetUserId(session, db, now, pid);
    var conversation := ConversationOrDefault(conversationField);
    var model := ModelOrDefault(modelField);
    if GeneratePath(generateField, messageField) {
      var message := ValidateInput(messageField.GetOr(""), MAX_MESSAGE_LENGTH).value;
      outcome := GenerateTurn(db, conversation, model, message, now, backend, formatCodeBlocks);
      return;
    }
    outcome := DisplayPage(db, userId, conversation, model);
  }

  /**
   * The generate path of `index`: the prompt carries the two most recent
   * messages of the conversation and the user message; the backend's answer
   * (an `Error: ...` text included) is formatted and stored as the
   * assistant's message, with no ownership check.
   */
  method GenerateTurn(db: DatabaseManager, conversation: string, model: string, message: string, now: nat,
                      backend: (string, string) -> Reply, formatCodeBlocks: string -> string)
    returns (outcome: IndexOutcome)
    requires db.Valid()
    modifies db
    ensures db.Valid()
    ensures outcome == Generated(conversation, model)
    ensures var prompt := BuildPrompt(TurnsOf(old(db.GetConversationMessages(conversation, CONTEXT_LIMIT))), message);
            && db.messages == old(db.messages) + [MessageRow(old(db.nextMessageRowId), conversation, "assistant",
                                                             formatCodeBlocks(ReplyText(backend(prompt, model))),
                                                             Some(model), now)]
            && db.conversations == Touch(old(db.conversations), conversation, now)
    ensures db.users == old(db.users)
  {
    var recent := db.GetConversationMessages(conversation, CONTEXT_LIMIT);
    var prompt := BuildPrompt(TurnsOf(recent), message);
    var response := GenerateResponse(backend(prompt, model));
    var formatted := formatCodeBlocks(response);
    var added := db.AddMessage(conversation, "assistant", formatted, Some(model), now);
    return Generated(conversation, model);
  }

  /**
   * The display path of `index`: a named conversation is shown only to a
   * user who owns it (otherwise a redirect to the sentinel), and the sentinel
   * shows the user's most recently updated conversation, or an empty page.
   */
  method DisplayPage(db: DatabaseManager, userId: string, conversation: string, model: string) returns (outcome: IndexOutcome)
    ensures !outcome.Generated?
    ensures conversation != DEFAULT_CONVERSATION ==>
              && (outcome.Page? <==> db.ConversationBelongsToUser(conversation, userId))
              && (outcome.Page? ==> outcome == Page(conversation, model, db.GetConversationMessages(conversation, PAGE_LIMIT)))
              && (!outcome.Page? ==> outcome == RedirectToDefault(model))
    ensures conversation == DEFAULT_CONVERSATION ==>
              && outcome.Page? && outcome.model == model
              && (db.GetUserConversations(userId) == [] ==> outcome.conversationId == DEFAULT_CONVERSATION && outcome.messages == [])
              && (db.GetUserConversations(userId) != [] ==>
                    && outcome.conversationId == db.GetUserConversations(userId)[0].conversationId
                    && outcome.messages == db.GetConversationMessages(outcome.conversationId, PAGE_LIMIT)
                    && db.ConversationBelongsToUser(outcome.conversationId, userId))
  {
    if conversation != DEFAULT_CONVERSATION {
      if db.ConversationBelongsToUser(conversation, userId) {
        return Page(conversation, model, db.GetConversationMessages(conversation, PAGE_LIMIT));
      }
      return RedirectToDefault(model);
    }
    var owned := db.GetUserConversations(userId);
    if owned != [] {
      var latest := owned[0];
      assert latest in db.conversations && latest.owner == userId;
      return Page(latest.conversationId, model, db.GetConversationMessages(latest.conversationId, PAGE_LIMIT));
    }
    return Page(DEFAULT_CONVERSATION, model, []);
  }
}

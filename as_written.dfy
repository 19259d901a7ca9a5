/** The code as it stands, where it departs from what it evidently intends.
    Each definition here sits beside the corrected one the rest of the
    model uses, and a lemma or a contract shows where the two part. Python's
    failures are modelled explicitly: calling a keyword-only function with a
    keyword it does not declare, and looking up an attribute an object does
    not have. */
module AsWritten {
  import opened Wrappers
  import opened Values
  import opened ChatModel
  import opened ChatStore
  import opened Sockets
  import BaseDao
  import CrudRouter
  import ChatRouter
  import ChatList

  /** The exceptions the code as written raises. */
  datatype PyError = TypeError | AttributeError | IntegrityError | ResourceClosedError

  /** A call with keyword arguments: one the callee does not declare is a
      TypeError. */
  function Call(params: set<string>, kwargs: set<string>): Option<PyError> {
    if kwargs <= params then None else Some(TypeError)
  }

  /** An attribute lookup: a name the object lacks is an AttributeError. */
  function GetAttr(attributes: set<string>, name: string): Option<PyError> {
    if name in attributes then None else Some(AttributeError)
  }

  // ---------------------------------------------------------------------
  // app/chat/ws_router.py: the message constructor is given `attachments`.

  /** What the declarative constructor of `Message` accepts: its columns
      and its relationships. */
  const MessageAttributes: set<string> := {"id", "content", "timestamp", "chat_id", "chat", "sender_id", "sender", "is_read"}

  /** The keywords `add_message_to_database` passes. */
  const WsMessageKeywords: set<string> := {"chat_id", "sender_id", "content", "timestamp", "is_read", "attachments"}

  /** `broadcast` of the ws manager as written: what it raises and what it
      did, in order. */
  function WsBroadcast(conns: seq<SocketId>, content: string, addToDb: bool): (r: (Option<PyError>, seq<Effect>))
    ensures r.0.None? ==> r.1 == SendAll(conns, content)
  {
    if addToDb && Call(MessageAttributes, WsMessageKeywords).Some? then
      (Call(MessageAttributes, WsMessageKeywords), [])
    else (None, SendAll(conns, content))
  }

  /** As written, a broadcast that is to store the message stores nothing
      and sends nothing: the constructor refuses `attachments`, and without
      that keyword it would accept the rest. */
  lemma WsBroadcastNeverStores(conns: seq<SocketId>, content: string)
    ensures WsBroadcast(conns, content, true) == (Some(TypeError), [])
    ensures Call(MessageAttributes, WsMessageKeywords - {"attachments"}).None?
  {
    assert "attachments" in WsMessageKeywords && "attachments" !in MessageAttributes;
  }

  // ---------------------------------------------------------------------
  // app/chat/router.py:129: `.scalar()` is applied before the `await`.

  /** What a coroutine object offers; `scalar` is not among them. */
  const CoroutineAttributes: set<string> := {"send", "throw", "close", "cr_await", "cr_code", "cr_frame", "cr_running", "cr_origin"}

  /** `broadcast` of the chat router as written: a non-empty text reaches
      the chat lookup, which asks the un-awaited coroutine for `scalar`. */
  function ChatBroadcast(conns: seq<SocketId>, message: string): (r: (Option<PyError>, seq<Effect>))
    ensures r.0.None? ==> r.1 == SendAll(conns, message)
  {
    if message != "" && GetAttr(CoroutineAttributes, "scalar").Some? then
      (GetAttr(CoroutineAttributes, "scalar"), [])
    else (None, SendAll(conns, message))
  }

  /** How a websocket session ends as written: the exception that escaped,
      the listed sockets, and what was done. */
  datatype SessionEnd = SessionEnd(raised: Option<PyError>, active: seq<SocketId>, effects: seq<Effect>)

  /** The receive loop as written, from a listed socket: each frame is
      broadcast until a broadcast raises; when the socket closes it is
      removed and the notice broadcast. Only a disconnect reaches the
      `except` clause, so any other exception leaves the socket listed. */
  function ChatSession(listed: seq<SocketId>, ws: SocketId, clientId: int, frames: seq<string>): SessionEnd
    decreases |frames|
  {
    if frames == [] then
      var active := RemoveFirst(listed, ws);
      var b := ChatBroadcast(active, ChatRouter.LeftNotice(clientId));
      SessionEnd(b.0, active, b.1)
    else
      var b := ChatBroadcast(listed, ChatRouter.Said(clientId, frames[0]));
      if b.0.Some? then SessionEnd(b.0, listed, b.1)
      else
        var rest := ChatSession(listed, ws, clientId, frames[1..]);
        SessionEnd(rest.raised, rest.active, b.1 + rest.effects)
  }

  /** As written, the first frame of a session raises: nothing is stored or
      sent, and the socket stays listed after the handler has died. With no
      frame the notice raises the same way. */
  lemma ChatSessionDiesAtFirstFrame(conns: seq<SocketId>, ws: SocketId, clientId: int, frames: seq<string>)
    ensures ChatSession(conns + [ws], ws, clientId, frames).raised == Some(AttributeError)
    ensures ChatSession(conns + [ws], ws, clientId, frames).effects == []
    ensures frames != [] ==> ws in ChatSession(conns + [ws], ws, clientId, frames).active
  {
    assert "scalar" !in CoroutineAttributes;
    if frames != [] {
      assert |ChatRouter.Said(clientId, frames[0])| > 0;
      assert ChatSession(conns + [ws], ws, clientId, frames).active == conns + [ws];
      assert (conns + [ws])[|conns|] == ws;
    } else {
      assert |ChatRouter.LeftNotice(clientId)| > 0;
    }
  }

  // ---------------------------------------------------------------------
  // app/chat/router.py:135: the message row leaves `is_read` unset.

  /** The NOT NULL columns of `message` without a default. */
  const MessageRequired: set<string> := {"content", "sender_id", "is_read"}

  /** The keywords line 135 passes; `chat` fills `chat_id` through the
      relationship. */
  const RouterMessageKeywords: set<string> := {"content", "sender_id", "chat"}

  /** The columns an object built from these keywords gives a value. */
  function ColumnsGiven(kwargs: set<string>): (r: set<string>)
    ensures forall c :: c in kwargs && c != "chat" ==> c in r
    ensures "chat" in kwargs ==> "chat_id" in r
  {
    (kwargs - {"chat"}) + (if "chat" in kwargs then {"chat_id"} else {})
  }

  /** Flushing such an object: a NOT NULL column without a value is an
      integrity error. */
  function InsertRow(kwargs: set<string>): Option<PyError> {
    if MessageRequired <= ColumnsGiven(kwargs) then None else Some(IntegrityError)
  }

  /** As written, the row is refused for its missing `is_read`; passing it
      is all the row needs. */
  lemma IsReadLeftUnset()
    ensures InsertRow(RouterMessageKeywords) == Some(IntegrityError)
    ensures InsertRow(RouterMessageKeywords + {"is_read"}) == None
  {
    assert "is_read" !in ColumnsGiven(RouterMessageKeywords);
    assert ColumnsGiven(RouterMessageKeywords + {"is_read"}) == {"content", "sender_id", "is_read", "chat_id"};
  }

  /** `add_message_to_database` of the chat router with the lookup awaited
      but `is_read` still unset: the commit fails, and the rollback takes
      back the chat it may have created in the same transaction. Nothing is
      stored, whatever the pair. */
  method AddMessageIsReadUnset(db: ChatDatabase, message: string, senderId: int, recipientId: int)
    returns (r: Result<Message, DbError>)
    requires db.Valid()
    modifies db`chats, db`nextChatId, db`messages, db`nextMessageId
    ensures db.Valid()
    ensures r == Err(NotNullViolation)
    ensures db.chats == old(db.chats) && db.messages == old(db.messages)
  {
    var saved := db.chats;
    var chatId: int;
    if db.HasChatFor(senderId, recipientId) {
      chatId :| chatId in db.chats && db.IsChatFor(chatId, senderId, recipientId);
    } else {
      chatId := db.InsertChat(senderId, recipientId);
    }
    r := db.InsertMessage(chatId, senderId, message, None);
    db.chats := saved;
  }

  // ---------------------------------------------------------------------
  // app/chat/dao.py:34: the chat columns are looked up by wrong names.

  /** What the mapped `Chat` class offers. */
  const ChatAttributes: set<string> := {"id", "doctor_id", "doctor", "patient_id", "patient", "messages"}

  /** `get_chats_by_user` as written: building the filter looks up
      `Chat.doctor_user_id`. */
  function GetChatsByUser(chats: map<int, Chat>, messages: map<int, Message>, userId: int): (r: Result<seq<ChatList.ChatEntry>, PyError>)
    requires KeyedById(messages)
    requires forall k :: k in chats ==> chats[k].id == k
  {
    match GetAttr(ChatAttributes, "doctor_user_id")
    case Some(e) => Err(e)
    case None => Ok(ChatList.GetChatsByUser(chats, messages, userId))
  }

  /** As written, the chat list raises for every user, even one whose
      corrected list is not empty. */
  lemma GetChatsByUserAlwaysRaises(chats: map<int, Chat>, messages: map<int, Message>, userId: int)
    requires KeyedById(messages)
    requires forall k :: k in chats ==> chats[k].id == k
    ensures GetChatsByUser(chats, messages, userId) == Err(AttributeError)
    ensures GetAttr(ChatAttributes, "doctor_id").None? && GetAttr(ChatAttributes, "patient_id").None?
  {
    assert "doctor_user_id" !in ChatAttributes;
  }

  // ---------------------------------------------------------------------
  // app/chat/router.py:52: `find_one_or_none` is not a DAO method.

  /** The class methods `ChatDAO` has: those of `BaseDAO` and its own. */
  const ChatDaoMethods: set<string> := {
    "get_one_or_none", "get_by_ids", "get_count", "get_multi", "get_multi_paginated",
    "get_multi_paginated_ordered", "get_multi_ordered", "create", "update", "delete",
    "delete_all", "add", "get_chats_by_user"}

  /** `create_chat` as written, up to the duplicate check. */
  function CreateChat(doctorIds: set<int>, patientIds: set<int>, doctorId: int, patientId: int): (r: Result<ChatRouter.Response, PyError>)
  {
    if doctorId !in doctorIds || patientId !in patientIds then Ok(ChatRouter.Refused(404, "Doctor or Patient not found"))
    else match GetAttr(ChatDaoMethods, "find_one_or_none")
      case Some(e) => Err(e)
      case None => Ok(ChatRouter.Refused(409, "Chat already exists"))
  }

  /** As written, a chat is never created: an existing pair gets past the
      404 check only to raise. */
  lemma CreateChatNeverCreates(doctorIds: set<int>, patientIds: set<int>, doctorId: int, patientId: int)
    ensures doctorId in doctorIds && patientId in patientIds ==> CreateChat(doctorIds, patientIds, doctorId, patientId) == Err(AttributeError)
    ensures !(CreateChat(doctorIds, patientIds, doctorId, patientId).Ok? && CreateChat(doctorIds, patientIds, doctorId, patientId).value.Created?)
  {
    assert "find_one_or_none" !in ChatDaoMethods;
  }

  // ---------------------------------------------------------------------
  // app/chat/router.py:72 and :76: keywords the DAO does not declare.

  const GetMultiParams: set<string> := {"skip", "limit", "query"}
  const UpdateParams: set<string> := {"obj_current", "obj_new"}

  /** `read_chat` as written: what it raises and the messages afterwards. */
  function ReadChat(messages: map<int, Message>, chatId: int): (r: (Option<PyError>, map<int, Message>))
    ensures r.0.None? ==> r.1 == ChatRouter.MarkRead(messages, chatId)
  {
    match Call(GetMultiParams, {"chat_id"})
    case Some(e) => (Some(e), messages)
    case None =>
      match Call(UpdateParams, {"obj_current", "obj_in"})
      case Some(e) => (Some(e), messages)
      case None => (None, ChatRouter.MarkRead(messages, chatId))
  }

  /** As written, reading a chat raises and marks nothing, so an unread
      message of the chat stays unread. */
  lemma ReadChatMarksNothing(messages: map<int, Message>, chatId: int, k: int)
    requires k in messages && messages[k].chatId == chatId && !messages[k].isRead
    ensures ReadChat(messages, chatId) == (Some(TypeError), messages)
    ensures ReadChat(messages, chatId).1 != ChatRouter.MarkRead(messages, chatId)
  {
    assert "chat_id" !in GetMultiParams;
    assert ChatRouter.MarkRead(messages, chatId)[k].isRead;
  }

  // ---------------------------------------------------------------------
  // app/crud_sqlalchemy/sqlalchemy.py:158: the delete is never awaited.

  /** Running `session.delete(row)`: when the coroutine is not awaited it
      never runs, and the commit that follows has nothing to write. */
  function SessionDelete(rows: map<int, BaseDao.Row>, itemId: int, awaited: bool): map<int, BaseDao.Row> {
    if awaited then rows - {itemId} else rows
  }

  /** `DELETE /{item_id}` as written: the answer and the rows afterwards. */
  function DeleteOne(rows: map<int, BaseDao.Row>, itemId: int): (r: (Result<BaseDao.Record, CrudRouter.RouteError>, map<int, BaseDao.Row>))
    ensures r.0.Ok? <==> itemId in rows
  {
    if itemId !in rows then (Err(CrudRouter.NotFound), rows)
    else (Ok(BaseDao.Record(itemId, rows[itemId])), SessionDelete(rows, itemId, false))
  }

  /** As written, the route answers with the row as if deleted, and the row
      is still there. */
  lemma DeletedRowRemains(rows: map<int, BaseDao.Row>, itemId: int)
    requires itemId in rows
    ensures DeleteOne(rows, itemId).0 == Ok(BaseDao.Record(itemId, rows[itemId]))
    ensures itemId in DeleteOne(rows, itemId).1 && DeleteOne(rows, itemId).1 == rows
    ensures itemId !in SessionDelete(rows, itemId, true)
  {
  }

  // ---------------------------------------------------------------------
  // app/base/dao.py:136: `from_orm` is not a method of a mapped class.

  /** What a mapped class offers for building itself: its constructor and
      the declarative machinery; `from_orm` belongs to pydantic models. */
  const MappedClassAttributes: set<string> := {"__init__", "__table__", "__tablename__", "__mapper__", "metadata", "registry"}

  /** `BaseDAO.create` as written: the object is built before any session
      is opened. */
  function Create(rows: map<int, BaseDao.Row>): (r: (Option<PyError>, map<int, BaseDao.Row>))
  {
    match GetAttr(MappedClassAttributes, "from_orm")
    case Some(e) => (Some(e), rows)
    case None => (None, rows)
  }

  /** As written, `create` raises for every input and inserts nothing. */
  lemma CreateAlwaysRaises(rows: map<int, BaseDao.Row>)
    ensures Create(rows) == (Some(AttributeError), rows)
  {
    assert "from_orm" !in MappedClassAttributes;
  }

  // ---------------------------------------------------------------------
  // app/base/dao.py:196: rows asked of an INSERT without RETURNING.

  /** `BaseDAO.add` as written: the INSERT is committed, then reading a row
      from its result raises "does not return rows", which the blanket
      handler turns into None. The caller cannot tell a stored row from a
      refused one. */
  method Add(t: BaseDao.Table, key: Option<int>, fields: BaseDao.Row) returns (r: Option<int>, ghost stored: Option<int>)
    requires t.Valid()
    modifies t
    ensures t.Valid()
    ensures r == None
    ensures stored.Some? ==> (stored.value !in old(t.rows) &&
      t.rows == old(t.rows)[stored.value := BaseDao.Complete(t.columns, fields)])
    ensures stored.None? ==> t.rows == old(t.rows)
  {
    var res := t.Insert(key, fields);
    stored := if res.Ok? then Some(res.value) else None;
    r := None;
  }
}

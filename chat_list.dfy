/** `ChatDAO.get_chats_by_user` (app/chat/dao.py): the chats a user takes
    part in, each paired with its latest message, newest first. Written as
    the query evidently intends: the participant columns are named as the
    model declares them (`doctor_id`, `patient_id`) in the filter and in
    the entries, each result row carries the chat together with its whole
    latest message (the source keeps only the chat column with `scalars()`
    and selects three message columns, yet reads the message's `id` and
    `sender_id` and unpacks pairs). */
module ChatList {
  import opened Values
  import opened RowOrder
  import opened ChatModel

  /** The last message as the entry reports it. */
  datatype LastMessage = LastMessage(id: int, content: string, timestamp: nat, senderId: int, isRead: bool)

  /** One row of the chat list. */
  datatype ChatEntry = ChatEntry(chatId: int, doctorId: int, patientId: int, lastMessage: LastMessage)

  predicate Involves(c: Chat, userId: int) {
    c.doctorId == userId || c.patientId == userId
  }

  /** Message k carries the greatest timestamp of its chat (the per-chat
      `max(timestamp)` of the subquery). */
  predicate IsLatestInChat(messages: map<int, Message>, k: int)
    requires k in messages
  {
    forall k2 :: k2 in messages && messages[k2].chatId == messages[k].chatId ==>
      messages[k2].timestamp <= messages[k].timestamp
  }

  /** The messages that produce a row: in a stored chat of the user, and at
      that chat's latest timestamp. A chat with no message has none. */
  function LatestKeys(chats: map<int, Chat>, messages: map<int, Message>, userId: int): (r: set<int>)
    ensures forall k :: k in r <==>
      k in messages && messages[k].chatId in chats &&
      Involves(chats[messages[k].chatId], userId) && IsLatestInChat(messages, k)
  {
    set k | k in messages && messages[k].chatId in chats &&
      Involves(chats[messages[k].chatId], userId) && IsLatestInChat(messages, k)
  }

  /** The `timestamp` column of the message table. */
  function TimestampColumn(messages: map<int, Message>): (col: map<int, Value>)
    ensures col.Keys == messages.Keys
    ensures forall k :: k in col ==> col[k] == TimeVal(messages[k].timestamp)
  {
    map k | k in messages :: TimeVal(messages[k].timestamp)
  }

  function Entry(chats: map<int, Chat>, m: Message): ChatEntry
    requires m.chatId in chats
  {
    var c := chats[m.chatId];
    ChatEntry(c.id, c.doctorId, c.patientId,
              LastMessage(m.id, m.content, m.timestamp, m.senderId, m.isRead))
  }

  /** The message keys of the rows, in row order. */
  function RowKeys(chats: map<int, Chat>, messages: map<int, Message>, userId: int): (r: seq<int>)
    ensures |r| == |LatestKeys(chats, messages, userId)|
    ensures forall k :: k in r <==> k in LatestKeys(chats, messages, userId)
    ensures forall i :: 0 <= i < |r| ==> r[i] in LatestKeys(chats, messages, userId)
    ensures forall i, j :: 0 <= i < j < |r| ==>
      messages[r[j]].timestamp <= messages[r[i]].timestamp && r[i] != r[j]
  {
    var col := TimestampColumn(messages);
    var d := Descending(col, LatestKeys(chats, messages, userId));
    forall i, j | 0 <= i < j < |d| ensures messages[d[j]].timestamp <= messages[d[i]].timestamp && d[i] != d[j] {
      assert Before(col, d[j], d[i]);
      BeforeIrreflexive(col, d[i]);
    }
    d
  }

  /** The user's chats with their latest messages, ordered by that
      message's timestamp, newest first. Every entry is a chat of the user
      with the message at its latest timestamp; no two entries come from
      the same message. */
  function GetChatsByUser(chats: map<int, Chat>, messages: map<int, Message>, userId: int): (r: seq<ChatEntry>)
    requires KeyedById(messages)
    requires forall k :: k in chats ==> chats[k].id == k
    ensures |r| == |LatestKeys(chats, messages, userId)|
    ensures forall i :: 0 <= i < |r| ==>
      r[i].chatId in chats && Involves(chats[r[i].chatId], userId) &&
      r[i].doctorId == chats[r[i].chatId].doctorId && r[i].patientId == chats[r[i].chatId].patientId &&
      r[i].lastMessage.id in messages &&
      messages[r[i].lastMessage.id].chatId == r[i].chatId &&
      IsLatestInChat(messages, r[i].lastMessage.id)
    ensures forall i, j :: 0 <= i < j < |r| ==>
      r[j].lastMessage.timestamp <= r[i].lastMessage.timestamp && r[i].lastMessage.id != r[j].lastMessage.id
  {
    var ks := RowKeys(chats, messages, userId);
    var r := seq(|ks|, i requires 0 <= i < |ks| => Entry(chats, messages[ks[i]]));
    assert forall i :: 0 <= i < |r| ==> r[i].lastMessage.id == ks[i] && messages[ks[i]].chatId == r[i].chatId;
    r
  }

  /** Every latest message of every chat of the user has its row: a chat
      whose latest timestamp is shared by several messages appears once per
      such message. */
  lemma GetChatsByUserComplete(chats: map<int, Chat>, messages: map<int, Message>, userId: int, k: int)
    requires KeyedById(messages)
    requires forall c :: c in chats ==> chats[c].id == c
    requires k in messages && messages[k].chatId in chats
    requires Involves(chats[messages[k].chatId], userId) && IsLatestInChat(messages, k)
    ensures exists i :: (0 <= i < |GetChatsByUser(chats, messages, userId)| &&
      GetChatsByUser(chats, messages, userId)[i].chatId == messages[k].chatId &&
      GetChatsByUser(chats, messages, userId)[i].lastMessage ==
        LastMessage(k, messages[k].content, messages[k].timestamp, messages[k].senderId, messages[k].isRead))
  {
    var ks := RowKeys(chats, messages, userId);
    assert k in LatestKeys(chats, messages, userId);
    var i :| 0 <= i < |ks| && ks[i] == k;
    var r := GetChatsByUser(chats, messages, userId);
    assert r[i] == Entry(chats, messages[k]);
  }

  /** A user none of whose chats has a message gets the empty list. */
  lemma GetChatsByUserEmpty(chats: map<int, Chat>, messages: map<int, Message>, userId: int)
    requires KeyedById(messages)
    requires forall c :: c in chats ==> chats[c].id == c
    requires forall k :: k in messages && messages[k].chatId in chats ==> !Involves(chats[messages[k].chatId], userId)
    ensures GetChatsByUser(chats, messages, userId) == []
  {
    assert LatestKeys(chats, messages, userId) == {};
  }
}

/** The rows the chat code reads and writes: the keys of the doctor and
    patient tables, the chat and message tables, their key sequences, and
    the clock that `datetime.now()` / `datetime.utcnow()` read. Only the
    message-to-chat foreign key is enforced. */
module ChatStore {
  import opened Wrappers
  import opened ChatModel

  /** Why the database refuses a message row. */
  datatype DbError =
    | ForeignKeyViolation   // chat_id names no chat
    | NotNullViolation      // a NOT NULL column was left unset

  class ChatDatabase {
    var doctorIds: set<int>
    var patientIds: set<int>
    var chats: map<int, Chat>
    var messages: map<int, Message>
    var nextChatId: int
    var nextMessageId: int
    var clock: nat

    /** Keys agree with the rows' ids and lie below their sequence, every
        message belongs to a stored chat, and no message is from the future. */
    ghost predicate Valid()
      reads this
    {
      (forall k :: k in chats ==> chats[k].id == k && k < nextChatId) &&
      (forall k :: k in messages ==>
        messages[k].id == k && k < nextMessageId &&
        messages[k].chatId in chats && messages[k].timestamp <= clock)
    }

    /** A chat is identified by its doctor and its patient: at most one chat
        per pair. */
    ghost predicate UniquePairs()
      reads this
    {
      forall a, b ::
        a in chats && b in chats &&
        chats[a].doctorId == chats[b].doctorId && chats[a].patientId == chats[b].patientId
        ==> a == b
    }

    predicate IsChatFor(k: int, doctorId: int, patientId: int)
      reads this
    {
      k in chats && chats[k].doctorId == doctorId && chats[k].patientId == patientId
    }

    predicate HasChatFor(doctorId: int, patientId: int)
      reads this
    {
      exists k :: k in chats && IsChatFor(k, doctorId, patientId)
    }

    constructor(doctors: set<int>, patients: set<int>)
      ensures Valid() && UniquePairs()
      ensures doctorIds == doctors && patientIds == patients
      ensures chats == map[] && messages == map[] && clock == 0
    {
      doctorIds, patientIds := doctors, patients;
      chats, messages := map[], map[];
      nextChatId, nextMessageId := 1, 1;
      clock := 0;
    }

    /** Time passes; it never runs backwards. */
    method AdvanceClock(t: nat)
      requires Valid()
      modifies this`clock
      ensures Valid()
      ensures clock == if t > old(clock) then t else old(clock)
    {
      if t > clock { clock := t; }
    }

    /** `INSERT INTO chat` with the next key of the sequence. */
    method InsertChat(doctorId: int, patientId: int) returns (id: int)
      requires Valid()
      modifies this`chats, this`nextChatId
      ensures Valid()
      ensures id == old(nextChatId) && nextChatId == id + 1
      ensures id !in old(chats) && chats == old(chats)[id := Chat(id, doctorId, patientId)]
      ensures old(!HasChatFor(doctorId, patientId)) && old(UniquePairs()) ==> UniquePairs()
    {
      id := nextChatId;
      nextChatId := nextChatId + 1;
      chats := chats[id := Chat(id, doctorId, patientId)];
    }

    /** `INSERT INTO message`, stamped with the current time. The key is
        drawn from the sequence even when the row is then refused, as a
        PostgreSQL sequence is. `isRead` is None when the caller left the
        column unset. */
    method InsertMessage(chatId: int, senderId: int, content: string, isRead: Option<bool>)
      returns (r: Result<Message, DbError>)
      requires Valid()
      modifies this`messages, this`nextMessageId
      ensures Valid()
      ensures nextMessageId == old(nextMessageId) + 1
      ensures r.Ok? ==> r.value.id == old(nextMessageId)
      ensures isRead.None? ==> r == Err(NotNullViolation)
      ensures isRead.Some? && chatId !in chats ==> r == Err(ForeignKeyViolation)
      ensures r.Ok? <==> isRead.Some? && chatId in chats
      ensures r.Ok? ==> r.value == Message(r.value.id, content, clock, chatId, senderId, isRead.value)
      ensures r.Ok? ==> r.value.id !in old(messages) && messages == old(messages)[r.value.id := r.value]
      ensures r.Err? ==> messages == old(messages)
    {
      var id := nextMessageId;
      nextMessageId := nextMessageId + 1;
      if isRead.None? {
        r := Err(NotNullViolation);
      } else if chatId !in chats {
        r := Err(ForeignKeyViolation);
      } else {
        var m := Message(id, content, clock, chatId, senderId, isRead.value);
        messages := messages[id := m];
        r := Ok(m);
      }
    }

    /** `UPDATE message SET is_read = true WHERE id = k`. */
    method SetRead(k: int)
      requires Valid() && k in messages
      modifies this`messages
      ensures Valid()
      ensures messages == old(messages)[k := old(messages)[k].(isRead := true)]
    {
      messages := messages[k := messages[k].(isRead := true)];
    }
  }
}

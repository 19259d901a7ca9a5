/** The chat routes of app/chat/router.py: its own connection manager, which
    finds or creates the chat of a (doctor, patient) pair before storing a
    message, the websocket session loop, and the create, read-all and
    last-messages routes. */
module ChatRouter {
  import opened Wrappers
  import opened Values
  import opened Text
  import opened RowOrder
  import opened ChatModel
  import opened ChatStore
  import opened Sockets

  /** The text broadcast for one frame received from a client. */
  function Said(clientId: int, data: string): string {
    "User #" + IntToString(clientId) + " says: " + data
  }

  /** The text broadcast when a client's socket closes. */
  function LeftNotice(clientId: int): string {
    "User #" + IntToString(clientId) + " left the chat"
  }

  /** Reads the client and the frame back from a broadcast text; None for
      any text that is not of the form Said produces. */
  function ParseSaid(t: string): Option<(int, string)> {
    if |t| < 6 || t[..6] != "User #" then None
    else
      var rest := t[6..];
      match IndexOf(rest, ' ')
      case None => None
      case Some(k) =>
        var tail := rest[k..];
        if |tail| < 7 || tail[..7] != " says: " then None
        else match ParseInt(rest[..k])
          case None => None
          case Some(c) => Some((c, tail[7..]))
  }

  /** The sender and the frame can be read back from every "says" text. */
  lemma ParseSaidOfSaid(clientId: int, data: string)
    ensures ParseSaid(Said(clientId, data)) == Some((clientId, data))
  {
    var id := IntToString(clientId);
    var t := Said(clientId, data);
    assert t[..6] == "User #";
    var rest := t[6..];
    assert rest == id + [' '] + ("says: " + data);
    IntToStringHasNo(clientId, ' ');
    IndexOfJoin(id, ' ', "says: " + data);
    assert rest[..|id|] == id;
    assert rest[|id|..] == " says: " + data;
    ParseIntToString(clientId);
  }

  /** A "left" notice is never mistaken for a frame a client sent. */
  lemma ParseSaidOfLeftNotice(clientId: int)
    ensures ParseSaid(LeftNotice(clientId)) == None
  {
    var id := IntToString(clientId);
    var t := LeftNotice(clientId);
    assert t[..6] == "User #";
    var rest := t[6..];
    assert rest == id + [' '] + "left the chat";
    IntToStringHasNo(clientId, ' ');
    IndexOfJoin(id, ' ', "left the chat");
    var tail := rest[|id|..];
    assert tail == " left the chat";
    assert tail[..7] != " says: " by { assert tail[1] == 'l'; }
  }

  /** For each stored message in turn: the row, then its content sent to
      every listed socket. */
  function Rounds(ms: seq<Message>, conns: seq<SocketId>): seq<Effect> {
    if ms == [] then []
    else Rounds(ms[..|ms| - 1], conns) + [Stored(ms[|ms| - 1])] + SendAll(conns, ms[|ms| - 1].content)
  }

  class ConnectionManager {
    var activeConnections: seq<SocketId>
    var effects: seq<Effect>

    constructor()
      ensures activeConnections == [] && effects == []
    {
      activeConnections := [];
      effects := [];
    }

    /** The socket joins the end of the list. */
    method Connect(ws: SocketId)
      modifies this
      ensures activeConnections == old(activeConnections) + [ws]
      ensures effects == old(effects)
    {
      activeConnections := activeConnections + [ws];
    }

    /** `list.remove`: the socket must be listed; its first occurrence goes. */
    method Disconnect(ws: SocketId)
      requires ws in activeConnections
      modifies this
      ensures activeConnections == RemoveFirst(old(activeConnections), ws)
      ensures |activeConnections| == |old(activeConnections)| - 1
      ensures effects == old(effects)
    {
      activeConnections := RemoveFirst(activeConnections, ws);
      assert |multiset(activeConnections)| == |multiset(old(activeConnections))| - 1;
    }

    /** Exactly one send, to the given socket only. */
    method SendPersonalMessage(message: string, ws: SocketId)
      modifies this
      ensures effects == old(effects) + [Sent(ws, message)]
      ensures activeConnections == old(activeConnections)
    {
      effects := effects + [Sent(ws, message)];
    }

    /** Sends the text to each listed socket in list order. */
    method SendToAll(text: string)
      modifies this`effects
      ensures effects == old(effects) + SendAll(activeConnections, text)
    {
      var i := 0;
      while i < |activeConnections|
        invariant 0 <= i <= |activeConnections|
        invariant effects == old(effects) + SendAll(activeConnections[..i], text)
      {
        SendAllAppend(activeConnections[..i], [activeConnections[i]], text);
        assert activeConnections[..i + 1] == activeConnections[..i] + [activeConnections[i]];
        effects := effects + [Sent(activeConnections[i], text)];
        i := i + 1;
      }
      assert activeConnections[..i] == activeConnections;
    }

    /** A non-empty text is stored in the chat of (sender, recipient) before
        anything is sent; an empty one is only sent. Either way the text goes
        to every listed socket, the recipient's or not. */
    method Broadcast(db: ChatDatabase, message: string, senderId: int, recipientId: int)
      returns (stored: Option<Message>)
      requires db.Valid()
      modifies this, db`chats, db`nextChatId, db`messages, db`nextMessageId
      ensures db.Valid() && activeConnections == old(activeConnections)
      ensures stored.Some? <==> message != ""
      ensures message == "" ==> db.chats == old(db.chats) && db.messages == old(db.messages)
      ensures stored.Some? ==>
        var m := stored.value;
        m.content == message && m.senderId == senderId && !m.isRead && m.timestamp == db.clock &&
        db.IsChatFor(m.chatId, senderId, recipientId) &&
        m.id !in old(db.messages) && db.messages == old(db.messages)[m.id := m]
      ensures old(db.HasChatFor(senderId, recipientId)) ==> db.chats == old(db.chats)
      ensures stored.Some? && !old(db.HasChatFor(senderId, recipientId)) ==>
        db.chats == old(db.chats)[stored.value.chatId := Chat(stored.value.chatId, senderId, recipientId)]
      ensures forall k :: k in old(db.chats) ==> k in db.chats && db.chats[k] == old(db.chats)[k]
      ensures old(db.UniquePairs()) ==> db.UniquePairs()
      ensures effects == old(effects) + StoredPart(stored) + SendAll(activeConnections, message)
    {
      stored := None;
      if message != "" {
        var m := AddMessageToDatabase(db, message, senderId, recipientId);
        stored := Some(m);
        effects := effects + [Stored(m)];
      }
      SendToAll(message);
    }

    /** Finds the chat whose doctor is the sender and whose patient is the
        recipient, creating it only when there is none, and stores one
        unread message in it stamped with the current time. */
    static method AddMessageToDatabase(db: ChatDatabase, message: string, senderId: int, recipientId: int)
      returns (m: Message)
      requires db.Valid()
      modifies db`chats, db`nextChatId, db`messages, db`nextMessageId
      ensures db.Valid()
      ensures m.content == message && m.senderId == senderId && !m.isRead && m.timestamp == db.clock
      ensures db.IsChatFor(m.chatId, senderId, recipientId)
      ensures m.id !in old(db.messages) && db.messages == old(db.messages)[m.id := m]
      ensures old(db.HasChatFor(senderId, recipientId)) ==> db.chats == old(db.chats)
      ensures !old(db.HasChatFor(senderId, recipientId)) ==>
        db.chats == old(db.chats)[m.chatId := Chat(m.chatId, senderId, recipientId)]
      ensures forall k :: k in old(db.chats) ==> k in db.chats && db.chats[k] == old(db.chats)[k]
      ensures old(db.UniquePairs()) ==> db.UniquePairs()
    {
      var chatId: int;
      if db.HasChatFor(senderId, recipientId) {
        chatId :| chatId in db.chats && db.IsChatFor(chatId, senderId, recipientId);
      } else {
        chatId := db.InsertChat(senderId, recipientId);
      }
      var r := db.InsertMessage(chatId, senderId, message, Some(false));
      m := r.value;
    }
  }

  /** One frame received on the socket, with the time it arrived. */
  datatype Frame = Frame(data: string, arrivedAt: nat)

  /** One broadcast of the session at time `at`: the clock moves to `at`
      and the non-empty text is stored in the pair's chat and sent to every
      listed socket. */
  method SessionStep(mgr: ConnectionManager, db: ChatDatabase, clientId: int, recipientId: int, text: string, at: nat)
    returns (m: Message)
    requires db.Valid() && text != ""
    modifies mgr, db`chats, db`nextChatId, db`messages, db`nextMessageId, db`clock
    ensures db.Valid()
    ensures old(db.UniquePairs()) ==> db.UniquePairs()
    ensures mgr.activeConnections == old(mgr.activeConnections)
    ensures m.content == text && m.senderId == clientId && !m.isRead
    ensures old(db.clock) <= m.timestamp == db.clock
    ensures db.IsChatFor(m.chatId, clientId, recipientId)
    ensures forall k :: k in old(db.chats) ==> k in db.chats && db.chats[k] == old(db.chats)[k]
    ensures m.id !in old(db.messages) && db.messages == old(db.messages)[m.id := m]
    ensures mgr.effects == old(mgr.effects) + [Stored(m)] + SendAll(mgr.activeConnections, text)
  {
    db.AdvanceClock(at);
    var stored := mgr.Broadcast(db, text, clientId, recipientId);
    m := stored.value;
  }

  /** The messages of one session, all stored, all from the client, all
      unread and all in the chat of (client, recipient), oldest first. */
  ghost predicate SessionStored(chats: map<int, Chat>, messages: map<int, Message>,
                                ms: seq<Message>, clientId: int, recipientId: int)
  {
    (forall j :: 0 <= j < |ms| ==>
      ms[j].senderId == clientId && !ms[j].isRead &&
      ms[j].chatId in chats && chats[ms[j].chatId].doctorId == clientId &&
      chats[ms[j].chatId].patientId == recipientId &&
      ms[j].id in messages && messages[ms[j].id] == ms[j]) &&
    forall a, b :: 0 <= a < b < |ms| ==> ms[a].timestamp <= ms[b].timestamp
  }

  /** One more stored message, no older than the others, keeps a session's
      record valid as long as no chat and no message was overwritten. */
  lemma SessionStoredExtend(chats: map<int, Chat>, messages: map<int, Message>,
                            chats': map<int, Chat>, ms: seq<Message>, m: Message,
                            clientId: int, recipientId: int)
    requires SessionStored(chats, messages, ms, clientId, recipientId)
    requires forall k :: k in chats ==> k in chats' && chats'[k] == chats[k]
    requires m.id !in messages
    requires m.senderId == clientId && !m.isRead
    requires m.chatId in chats' && chats'[m.chatId].doctorId == clientId && chats'[m.chatId].patientId == recipientId
    requires forall j :: 0 <= j < |ms| ==> ms[j].timestamp <= m.timestamp
    ensures SessionStored(chats', messages[m.id := m], ms + [m], clientId, recipientId)
  {
    var ms' := ms + [m];
    forall j | 0 <= j < |ms| ensures ms'[j] == ms[j] && ms[j].id != m.id {
      assert ms[j].id in messages;
    }
  }

  lemma RoundsSnoc(ms: seq<Message>, m: Message, conns: seq<SocketId>)
    ensures Rounds(ms + [m], conns) == Rounds(ms, conns) + [Stored(m)] + SendAll(conns, m.content)
  {
    assert (ms + [m])[..|ms|] == ms;
  }

  /** One more round appended to the effects of a session so far. */
  lemma RoundsStep(start: seq<Effect>, e0: seq<Effect>, e1: seq<Effect>, ms: seq<Message>, m: Message, conns: seq<SocketId>)
    requires e0 == start + Rounds(ms, conns)
    requires e1 == e0 + [Stored(m)] + SendAll(conns, m.content)
    ensures e1 == start + Rounds(ms + [m], conns)
  {
    RoundsSnoc(ms, m, conns);
  }

  lemma MapAddOne(messages: map<int, Message>, k: int, m: Message)
    requires k !in messages
    ensures |messages[k := m]| == |messages| + 1
  {
    assert messages[k := m].Keys == messages.Keys + {k};
  }

  /** The receive loop: every frame, in order, is broadcast as a "says"
      text to the sockets listed while the session is open. */
  method ReceiveFrames(mgr: ConnectionManager, db: ChatDatabase, clientId: int, recipientId: int, frames: seq<Frame>)
    returns (ghost persisted: seq<Message>)
    requires db.Valid()
    modifies mgr, db`chats, db`nextChatId, db`messages, db`nextMessageId, db`clock
    ensures db.Valid()
    ensures old(db.UniquePairs()) ==> db.UniquePairs()
    ensures mgr.activeConnections == old(mgr.activeConnections)
    ensures |persisted| == |frames|
    ensures forall j :: 0 <= j < |frames| ==> persisted[j].content == Said(clientId, frames[j].data)
    ensures SessionStored(db.chats, db.messages, persisted, clientId, recipientId)
    ensures forall j :: 0 <= j < |persisted| ==> persisted[j].timestamp <= db.clock
    ensures forall k :: k in old(db.chats) ==> k in db.chats && db.chats[k] == old(db.chats)[k]
    ensures forall k :: k in old(db.messages) ==> k in db.messages && db.messages[k] == old(db.messages)[k]
    ensures |db.messages| == |old(db.messages)| + |frames|
    ensures mgr.effects == old(mgr.effects) + Rounds(persisted, mgr.activeConnections)
  {
    persisted := [];
    var i := 0;
    while i < |frames|
      invariant 0 <= i <= |frames| && |persisted| == i
      invariant db.Valid()
      invariant old(db.UniquePairs()) ==> db.UniquePairs()
      invariant mgr.activeConnections == old(mgr.activeConnections)
      invariant forall j :: 0 <= j < i ==> persisted[j].content == Said(clientId, frames[j].data)
      invariant SessionStored(db.chats, db.messages, persisted, clientId, recipientId)
      invariant forall j :: 0 <= j < i ==> persisted[j].timestamp <= db.clock
      invariant forall k :: k in old(db.chats) ==> k in db.chats && db.chats[k] == old(db.chats)[k]
      invariant forall k :: k in old(db.messages) ==> k in db.messages && db.messages[k] == old(db.messages)[k]
      invariant |db.messages| == |old(db.messages)| + i
      invariant mgr.effects == old(mgr.effects) + Rounds(persisted, mgr.activeConnections)
    {
      ghost var chats0, messages0, effects0 := db.chats, db.messages, mgr.effects;
      var m := SessionStep(mgr, db, clientId, recipientId, Said(clientId, frames[i].data), frames[i].arrivedAt);
      SessionStoredExtend(chats0, messages0, db.chats, persisted, m, clientId, recipientId);
      MapAddOne(messages0, m.id, m);
      RoundsStep(old(mgr.effects), effects0, mgr.effects, persisted, m, mgr.activeConnections);
      ghost var before := persisted;
      persisted := persisted + [m];
      assert forall j :: 0 <= j < i ==> persisted[j] == before[j];
      i := i + 1;
    }
  }

  /** A whole websocket session of `client_id` talking to `recipient_id`:
      connect, broadcast every received frame as a "says" text, and when the
      socket closes remove it and broadcast the "left" notice. Every text
      is non-empty, so each is stored; the leaving socket does not get the
      notice unless it was listed twice. `persisted` lists the stored
      messages in order. */
  method WebsocketEndpoint(mgr: ConnectionManager, db: ChatDatabase, ws: SocketId,
                           clientId: int, recipientId: int, frames: seq<Frame>, closedAt: nat)
    returns (ghost persisted: seq<Message>)
    requires db.Valid()
    modifies mgr, db`chats, db`nextChatId, db`messages, db`nextMessageId, db`clock
    ensures db.Valid()
    ensures old(db.UniquePairs()) ==> db.UniquePairs()
    ensures mgr.activeConnections == RemoveFirst(old(mgr.activeConnections) + [ws], ws)
    ensures |persisted| == |frames| + 1
    ensures forall j :: 0 <= j < |frames| ==> persisted[j].content == Said(clientId, frames[j].data)
    ensures persisted[|frames|].content == LeftNotice(clientId)
    ensures SessionStored(db.chats, db.messages, persisted, clientId, recipientId)
    ensures forall k :: k in old(db.chats) ==> k in db.chats && db.chats[k] == old(db.chats)[k]
    ensures forall k :: k in old(db.messages) ==> k in db.messages && db.messages[k] == old(db.messages)[k]
    ensures |db.messages| == |old(db.messages)| + |frames| + 1
    ensures mgr.effects == old(mgr.effects)
      + Rounds(persisted[..|frames|], old(mgr.activeConnections) + [ws])
      + Rounds(persisted[|frames|..], mgr.activeConnections)
  {
    mgr.Connect(ws);
    persisted := ReceiveFrames(mgr, db, clientId, recipientId, frames);
    ghost var before := persisted;
    mgr.Disconnect(ws);
    ghost var chats0, messages0 := db.chats, db.messages;
    ghost var effects0 := mgr.effects;
    var m := SessionStep(mgr, db, clientId, recipientId, LeftNotice(clientId), closedAt);
    SessionStoredExtend(chats0, messages0, db.chats, persisted, m, clientId, recipientId);
    MapAddOne(messages0, m.id, m);
    OneRound(effects0, mgr.effects, m, mgr.activeConnections);
    persisted := persisted + [m];
    assert persisted[..|frames|] == before;
    assert persisted[|frames|..] == [m];
  }

  lemma OneRound(e0: seq<Effect>, e1: seq<Effect>, m: Message, conns: seq<SocketId>)
    requires e1 == e0 + [Stored(m)] + SendAll(conns, m.content)
    ensures e1 == e0 + Rounds([m], conns)
  {
    assert e0 == e0 + Rounds([], conns);
    RoundsStep(e0, e0, e1, [], m, conns);
    assert [] + [m] == [m];
  }

  /** The socket that leaves is not sent its own "left" notice, provided it
      was connected once. */
  lemma LeaverMissesNotice(conns: seq<SocketId>, ws: SocketId, notice: string)
    requires ws !in conns
    ensures ws !in Receivers(SendAll(RemoveFirst(conns + [ws], ws), notice))
  {
    ConnectThenDisconnect(conns, ws);
    SendAllReachesList(conns, notice);
  }

  /** What a route answers: a new chat's id, or an HTTP error. The source
      returns (rather than raises) its HTTPException objects. */
  datatype Response = Created(id: int) | Refused(status: int, detail: string)

  /** `POST /chat`: 404 when the doctor or the patient does not exist, 409
      when the pair already has a chat, and otherwise exactly one new chat. */
  method CreateChat(db: ChatDatabase, doctorId: int, patientId: int) returns (r: Response)
    requires db.Valid()
    modifies db`chats, db`nextChatId
    ensures db.Valid()
    ensures doctorId !in db.doctorIds || patientId !in db.patientIds ==>
      r == Refused(404, "Doctor or Patient not found") && db.chats == old(db.chats)
    ensures doctorId in db.doctorIds && patientId in db.patientIds && old(db.HasChatFor(doctorId, patientId)) ==>
      r == Refused(409, "Chat already exists") && db.chats == old(db.chats)
    ensures r.Created? <==> doctorId in db.doctorIds && patientId in db.patientIds && !old(db.HasChatFor(doctorId, patientId))
    ensures r.Created? ==> r.id !in old(db.chats) && db.chats == old(db.chats)[r.id := Chat(r.id, doctorId, patientId)]
    ensures old(db.UniquePairs()) ==> db.UniquePairs()
  {
    if doctorId !in db.doctorIds || patientId !in db.patientIds {
      return Refused(404, "Doctor or Patient not found");
    }
    if db.HasChatFor(doctorId, patientId) {
      return Refused(409, "Chat already exists");
    }
    var id := db.InsertChat(doctorId, patientId);
    r := Created(id);
  }

  /** The keys of the messages of one chat. */
  function ChatMessageKeys(messages: map<int, Message>, chatId: int): (r: set<int>)
    ensures forall k :: k in r <==> k in messages && messages[k].chatId == chatId
  {
    set k | k in messages && messages[k].chatId == chatId
  }

  /** The `id` column of the message table. */
  function IdColumn(messages: map<int, Message>): (col: map<int, Value>)
    ensures col.Keys == messages.Keys
    ensures forall k :: k in col ==> col[k] == IntVal(k)
  {
    map k | k in messages :: IntVal(k)
  }

  /** Every message of the chat read; every other message, and every other
      field, as it was. */
  function MarkRead(messages: map<int, Message>, chatId: int): (r: map<int, Message>)
    ensures r.Keys == messages.Keys
    ensures forall k :: k in r && messages[k].chatId == chatId ==> r[k].isRead && r[k].(isRead := messages[k].isRead) == messages[k]
    ensures forall k :: k in r && messages[k].chatId != chatId ==> r[k] == messages[k]
  {
    map k | k in messages :: if messages[k].chatId == chatId then messages[k].(isRead := true) else messages[k]
  }

  /** Reading a chat twice is reading it once. */
  lemma MarkReadIdempotent(messages: map<int, Message>, chatId: int)
    ensures MarkRead(MarkRead(messages, chatId), chatId) == MarkRead(messages, chatId)
  {
    var once := MarkRead(messages, chatId);
    var twice := MarkRead(once, chatId);
    forall k | k in once ensures twice[k] == once[k] {
      if messages[k].chatId == chatId {
        assert once[k] == messages[k].(isRead := true);
      }
    }
  }

  /** `POST /chat/{chat_id}/read`: marks every message of the chat read,
      one message at a time. */
  method ReadChat(db: ChatDatabase, chatId: int)
    requires db.Valid()
    modifies db`messages
    ensures db.Valid()
    ensures db.messages == MarkRead(old(db.messages), chatId)
  {
    var keys := ChatMessageKeys(db.messages, chatId);
    var todo := keys;
    ghost var start := db.messages;
    while todo != {}
      invariant todo <= keys
      invariant db.Valid()
      invariant db.messages.Keys == start.Keys
      invariant forall k :: k in start ==>
        db.messages[k] == if k in keys && k !in todo then start[k].(isRead := true) else start[k]
      decreases |todo|
    {
      PickOne(todo);
      var k :| k in todo;
      db.SetRead(k);
      todo := todo - {k};
    }
    var target := MarkRead(start, chatId);
    assert forall k :: k in start ==> db.messages[k] == target[k];
    assert db.messages == target;
  }

  /** In descending order of the `id` column, keys strictly decrease. */
  lemma DescendingById(messages: map<int, Message>, keys: set<int>)
    requires keys <= messages.Keys
    ensures forall i, j :: 0 <= i < j < |Descending(IdColumn(messages), keys)| ==>
      Descending(IdColumn(messages), keys)[i] > Descending(IdColumn(messages), keys)[j]
  {
    var col := IdColumn(messages);
    var d := Descending(col, keys);
    forall i, j | 0 <= i < j < |d| ensures d[i] > d[j] {
      assert Before(col, d[j], d[i]);
    }
  }

  /** The keys of the chat's 25 newest messages, newest first. */
  function LastKeys(messages: map<int, Message>, chatId: int): (r: seq<int>)
    ensures |r| == if |ChatMessageKeys(messages, chatId)| < 25 then |ChatMessageKeys(messages, chatId)| else 25
    ensures forall i :: 0 <= i < |r| ==> r[i] in ChatMessageKeys(messages, chatId)
    ensures forall i, j :: 0 <= i < j < |r| ==> r[i] > r[j]
  {
    var keys := ChatMessageKeys(messages, chatId);
    var d := Descending(IdColumn(messages), keys);
    DescendingById(messages, keys);
    if |d| < 25 then d else d[..25]
  }

  /** `GET /chat/{chat_id}/last_messages`: the chat's 25 newest messages by
      key, newest first. */
  function GetLastMessages(messages: map<int, Message>, chatId: int): (r: seq<Message>)
    requires KeyedById(messages)
    ensures |r| == if |ChatMessageKeys(messages, chatId)| < 25 then |ChatMessageKeys(messages, chatId)| else 25
    ensures forall i :: 0 <= i < |r| ==> r[i].id in messages && messages[r[i].id] == r[i] && r[i].chatId == chatId
    ensures forall i, j :: 0 <= i < j < |r| ==> r[i].id > r[j].id
  {
    var ks := LastKeys(messages, chatId);
    seq(|ks|, i requires 0 <= i < |ks| => messages[ks[i]])
  }

  /** A message of the chat that is left out is older than every message
      returned, and is only left out when 25 were returned. */
  lemma GetLastMessagesNewest(messages: map<int, Message>, chatId: int, k: int)
    requires KeyedById(messages) && k in messages && messages[k].chatId == chatId
    requires forall i :: 0 <= i < |GetLastMessages(messages, chatId)| ==> GetLastMessages(messages, chatId)[i].id != k
    ensures |GetLastMessages(messages, chatId)| == 25
    ensures forall i :: 0 <= i < 25 ==> GetLastMessages(messages, chatId)[i].id > k
  {
    var keys := ChatMessageKeys(messages, chatId);
    var col := IdColumn(messages);
    var d := Descending(col, keys);
    DescendingById(messages, keys);
    var r := GetLastMessages(messages, chatId);
    var ks := LastKeys(messages, chatId);
    assert forall i :: 0 <= i < |r| ==> r[i].id == ks[i] == d[i];
    assert k in d;
    var j :| 0 <= j < |d| && d[j] == k;
    assert j >= |r|;
  }
}

/** The connection manager of app/chat/ws_router.py: a list of open
    sockets, a broadcast that may first store the message under a given
    chat, and a log of what it has done. Every send goes to every listed
    socket; nothing is addressed to one recipient. */
module WsRouter {
  import opened Wrappers
  import opened ChatModel
  import opened ChatStore
  import opened Sockets

  class ConnectionManager {
    var activeConnections: seq<SocketId>
    var effects: seq<Effect>

    /** A new manager knows no socket and has done nothing. */
    constructor()
      ensures activeConnections == [] && effects == []
    {
      activeConnections := [];
      effects := [];
    }

    /** The socket joins the end of the list. */
    method Connect(ws: SocketId)
      modifies this
      ensures activeConnections == old(activeConnections) + [ws]
      ensures effects == old(effects)
    {
      activeConnections := activeConnections + [ws];
    }

    /** `list.remove`: the socket must be listed; its first occurrence goes. */
    method Disconnect(ws: SocketId)
      requires ws in activeConnections
      modifies this
      ensures activeConnections == RemoveFirst(old(activeConnections), ws)
      ensures |activeConnections| == |old(activeConnections)| - 1
      ensures effects == old(effects)
    {
      activeConnections := RemoveFirst(activeConnections, ws);
      assert |multiset(activeConnections)| == |multiset(old(activeConnections))| - 1;
    }

    /** Exactly one send, to the given socket only. */
    method SendPersonalMessage(message: string, ws: SocketId)
      modifies this
      ensures effects == old(effects) + [Sent(ws, message)]
      ensures activeConnections == old(activeConnections)
    {
      effects := effects + [Sent(ws, message)];
    }

    /** Sends the text to each listed socket in list order. */
    method SendToAll(text: string)
      modifies this`effects
      ensures effects == old(effects) + SendAll(activeConnections, text)
    {
      var i := 0;
      while i < |activeConnections|
        invariant 0 <= i <= |activeConnections|
        invariant effects == old(effects) + SendAll(activeConnections[..i], text)
      {
        SendAllAppend(activeConnections[..i], [activeConnections[i]], text);
        assert activeConnections[..i + 1] == activeConnections[..i] + [activeConnections[i]];
        effects := effects + [Sent(activeConnections[i], text)];
        i := i + 1;
      }
      assert activeConnections[..i] == activeConnections;
    }

    /** Stores the message (when asked to) and then sends its content to
        every listed socket, whatever the chat. A refused row aborts the
        broadcast before any send. */
    method Broadcast(db: ChatDatabase, chatId: int, senderId: int, content: string, addToDb: bool)
      returns (raised: Option<DbError>, stored: Option<Message>)
      requires db.Valid()
      modifies this, db`messages, db`nextMessageId
      ensures db.Valid() && activeConnections == old(activeConnections)
      ensures !addToDb ==> raised.None? && stored.None? && db.messages == old(db.messages)
      ensures addToDb ==> (raised.None? <==> chatId in db.chats)
      ensures raised.Some? ==> raised.value == ForeignKeyViolation && stored.None?
      ensures raised.Some? ==> db.messages == old(db.messages) && effects == old(effects)
      ensures stored.Some? <==> addToDb && raised.None?
      ensures stored.Some? ==>
        stored.value == Message(stored.value.id, content, db.clock, chatId, senderId, false) &&
        stored.value.id !in old(db.messages) &&
        db.messages == old(db.messages)[stored.value.id := stored.value]
      ensures raised.None? ==> effects == old(effects) + StoredPart(stored) + SendAll(activeConnections, content)
    {
      raised, stored := None, None;
      if addToDb {
        var r := AddMessageToDatabase(db, chatId, senderId, content);
        if r.Err? {
          raised := Some(r.error);
          return;
        }
        stored := Some(r.value);
        effects := effects + [Stored(r.value)];
      }
      SendToAll(content);
    }

    /** Stores one unread message of the chat, stamped with the current
        time. The row is refused when the chat does not exist. */
    static method AddMessageToDatabase(db: ChatDatabase, chatId: int, senderId: int, content: string)
      returns (r: Result<Message, DbError>)
      requires db.Valid()
      modifies db`messages, db`nextMessageId
      ensures db.Valid()
      ensures r.Ok? <==> chatId in db.chats
      ensures r.Err? ==> r.error == ForeignKeyViolation && db.messages == old(db.messages)
      ensures r.Ok? ==>
        r.value == Message(r.value.id, content, db.clock, chatId, senderId, false) &&
        r.value.id !in old(db.messages) &&
        db.messages == old(db.messages)[r.value.id := r.value]
    {
      r := db.InsertMessage(chatId, senderId, content, Some(false));
    }
  }
}

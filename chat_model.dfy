/** The `chat` and `message` tables (app/chat/model.py). Both tables carry
    the integer primary key `id` that every table of the schema has; the
    declarative base that should add it has the line commented out, so the
    model takes the key as given. */
module ChatModel {
  import opened Wrappers
  import opened Values

  /** One conversation between a doctor and a patient. */
  datatype Chat = Chat(id: int, doctorId: int, patientId: int)

  /** One message. `content`, `sender_id` and `is_read` are NOT NULL; the
      timestamp is filled in when the row is created. */
  datatype Message = Message(
    id: int,
    content: string,
    timestamp: nat,
    chatId: int,
    senderId: int,
    isRead: bool)

  /** The columns of the message table, in table order. */
  const MessageColumns: seq<string> := ["content", "timestamp", "chat_id", "sender_id", "is_read", "id"]

  /** The value stored under the first entry named `name`. */
  function Lookup(d: seq<(string, Value)>, name: string): (r: Option<Value>)
    ensures r.Some? <==> exists i :: 0 <= i < |d| && d[i].0 == name
    ensures r.Some? ==> exists i :: 0 <= i < |d| && d[i] == (name, r.value)
  {
    if d == [] then None
    else if d[0].0 == name then Some(d[0].1)
    else
      var r := Lookup(d[1..], name);
      assert forall i :: 0 <= i < |d| - 1 ==> d[1..][i] == d[i + 1];
      assert forall i :: 1 <= i < |d| ==> d[i] == d[1..][i - 1];
      r
  }

  /** The first entry carrying a name is the one Lookup answers with. */
  lemma {:induction false} LookupFirst(d: seq<(string, Value)>, i: nat, name: string)
    requires i < |d| && d[i].0 == name
    requires forall j :: 0 <= j < i ==> d[j].0 != name
    ensures Lookup(d, name) == Some(d[i].1)
    decreases i
  {
    if i > 0 { LookupFirst(d[1..], i - 1, name); }
  }

  /** `Message.as_dict`: one entry per column, mapping the column name to the
      message's current value. */
  function AsDict(m: Message): (d: seq<(string, Value)>)
    ensures |d| == |MessageColumns|
    ensures forall i :: 0 <= i < |d| ==> d[i].0 == MessageColumns[i]
  {
    [ ("content", StrVal(m.content)),
      ("timestamp", TimeVal(m.timestamp)),
      ("chat_id", IntVal(m.chatId)),
      ("sender_id", IntVal(m.senderId)),
      ("is_read", BoolVal(m.isRead)),
      ("id", IntVal(m.id)) ]
  }

  /** Reads a message back from a column dictionary. A NULL (or missing)
      content, sender, read flag, chat or key gives None, as does a value of
      the wrong type. */
  function FromDict(d: seq<(string, Value)>): (r: Option<Message>)
    ensures r.Some? ==> Lookup(d, "content") == Some(StrVal(r.value.content))
    ensures r.Some? ==> Lookup(d, "sender_id") == Some(IntVal(r.value.senderId))
    ensures r.Some? ==> Lookup(d, "is_read") == Some(BoolVal(r.value.isRead))
    ensures Lookup(d, "content") == Some(Null) ==> r.None?
  {
    match (Lookup(d, "content"), Lookup(d, "timestamp"), Lookup(d, "chat_id"),
           Lookup(d, "sender_id"), Lookup(d, "is_read"), Lookup(d, "id"))
    case (Some(StrVal(c)), Some(TimeVal(t)), Some(IntVal(chat)),
          Some(IntVal(sender)), Some(BoolVal(read)), Some(IntVal(id))) =>
      Some(Message(id, c, t, chat, sender, read))
    case _ => None
  }

  /** `as_dict` loses nothing: the message can be read back from it. */
  lemma AsDictRoundTrip(m: Message)
    ensures FromDict(AsDict(m)) == Some(m)
  {
    var d := AsDict(m);
    AsDictColumnsDistinct(m);
    LookupFirst(d, 0, "content");
    LookupFirst(d, 1, "timestamp");
    LookupFirst(d, 2, "chat_id");
    LookupFirst(d, 3, "sender_id");
    LookupFirst(d, 4, "is_read");
    LookupFirst(d, 5, "id");
  }

  /** Each column name occurs exactly once in `as_dict`, so no column value
      shadows another. */
  lemma AsDictColumnsDistinct(m: Message)
    ensures forall i, j :: 0 <= i < j < |AsDict(m)| ==> AsDict(m)[i].0 != AsDict(m)[j].0
  {
  }

  /** Every message is stored under its own id. */
  predicate KeyedById(messages: map<int, Message>) {
    forall k :: k in messages ==> messages[k].id == k
  }
}

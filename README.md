# Patient–doctor chat backend: a verified model of its core

This project models the core of a FastAPI/SQLAlchemy backend in which
patients and doctors chat. The model covers:

- the chat and message tables;
- the two websocket connection managers, which keep a list of open sockets, store a message and broadcast it;
- the websocket session loop;
- the chat routes (create a chat, mark a chat read, the last 25 messages);
- the per-user chat list;
- the generic DAO (`BaseDAO`) over one table;
- the generated CRUD routes;
- the doctor display names;
- the CSV row converter of the importer;
- the connection URLs of the settings.

The database is an in-memory class, `ChatStore.ChatDatabase` for the chat
tables and `BaseDao.Table` for any table of the generic DAO. Its fields are
the tables as maps from key to row, the key sequences, and a clock that
stands for `datetime.now()`.

The connection managers are classes over the list of open sockets. A socket
is an opaque identity, and everything a manager does to the outside world
(a row stored, a text sent on a socket) goes into an `effects` log. Their
contracts say what the log grows by.

Where the code fails at run time (a keyword the callee does not declare, an
attribute that does not exist, a coroutine that is never awaited), the main
model implements the evidently intended behaviour. Module `AsWritten`
models the code as it stands, and "## Findings" sets each as-written member
beside its corrected one.

Orders and ties:
- Ordering by a column follows PostgreSQL: NULL sorts last ascending and first descending.
- Ties, which SQL leaves unspecified, are broken by key. Descending order is therefore exactly ascending order reversed.
- All integers are unbounded.

## Model

| member | source | states |
|---|---|---|
| ChatModel.AsDict | app/chat/model.py:35-36 | one entry per column of `message`, in column order, each holding that column's value |
| ChatModel.AsDictRoundTrip | app/chat/model.py:35-36 | reading the dictionary back gives the same message: `as_dict` loses nothing |
| ChatModel.AsDictColumnsDistinct | app/chat/model.py:35-36 | the dictionary names each column once |
| ChatModel.LookupFirst | app/chat/model.py:35-36 | looking a column up in the dictionary finds the first entry with that name |
| ChatStore.ChatDatabase.constructor | app/chat/model.py:8-33 | empty chat and message tables over the given doctor and patient keys; the invariant and the one-chat-per-pair property hold |
| ChatStore.ChatDatabase.InsertChat | app/chat/model.py:8-17 | the next sequence key, a new chat under it, nothing else changed; a pair that had no chat keeps pairs unique |
| ChatStore.ChatDatabase.InsertMessage | app/chat/model.py:20-33 | refused with NOT NULL when `is_read` is unset and with a foreign-key error when the chat does not exist; otherwise one new row stamped with the clock; the key is drawn either way |
| ChatStore.ChatDatabase.SetRead | app/chat/router.py:73-79 | one message becomes read and nothing else changes |
| ChatStore.ChatDatabase.AdvanceClock | app/chat/model.py:24 | the clock never runs backwards, so stored timestamps stay in the past |
| Sockets.SendAllReachesList | app/chat/ws_router.py:29-30 | a broadcast sends to exactly the listed sockets, in list order, all with the same text |
| Sockets.SendAllAppend | app/chat/ws_router.py:29-30 | sending to a + b is sending to a, then to b |
| Sockets.ReceiversAppend | app/chat/ws_router.py:29-30 | the receivers of two logs one after the other are the two lists of receivers one after the other |
| Sockets.RemoveFirst | app/chat/ws_router.py:18-19 | `list.remove` of a listed socket: the multiset of sockets loses exactly one occurrence of it. The helper is total (an unlisted socket leaves the list as it was), whereas Python's `list.remove` raises ValueError there; both `Disconnect` methods therefore require the socket to be listed |
| Sockets.RemoveFirstAt | app/chat/ws_router.py:18-19 | the occurrence removed is the first one, and the others keep their order |
| Sockets.ConnectThenDisconnect | app/chat/ws_router.py:14-19 | connecting a new socket and then disconnecting it restores the list |
| WsRouter.ConnectionManager.constructor | app/chat/ws_router.py:11-12 | no open socket, nothing done |
| WsRouter.ConnectionManager.Connect | app/chat/ws_router.py:14-16 | the socket is appended to the list |
| WsRouter.ConnectionManager.Disconnect | app/chat/ws_router.py:18-19 | the first occurrence of the socket is removed and the list shrinks by one |
| WsRouter.ConnectionManager.SendPersonalMessage | app/chat/ws_router.py:21-22 | one send of the text to that socket, the list unchanged |
| WsRouter.ConnectionManager.SendToAll | app/chat/ws_router.py:29-30 | the loop sends the text once to every listed socket, in order |
| WsRouter.ConnectionManager.Broadcast | app/chat/ws_router.py:24-30 | with `add_to_db`, one unread message of the chat is stored before any send, and a missing chat raises before any send; then the content goes to every listed socket, whatever its chat |
| WsRouter.ConnectionManager.AddMessageToDatabase | app/chat/ws_router.py:32-44 | one unread message of the given chat and sender stamped with the clock, or a foreign-key error and nothing stored |
| ChatRouter.ParseSaidOfSaid | app/chat/router.py:157 | the sender and the frame can be read back from every "User #id says: data" text |
| ChatRouter.ParseSaidOfLeftNotice | app/chat/router.py:164 | a "left the chat" notice never reads as a frame a client sent |
| ChatRouter.ConnectionManager.constructor | app/chat/router.py:106-107 | no open socket, nothing done |
| ChatRouter.ConnectionManager.Connect | app/chat/router.py:109-111 | the socket is appended to the list |
| ChatRouter.ConnectionManager.Disconnect | app/chat/router.py:113-114 | the first occurrence of the socket is removed |
| ChatRouter.ConnectionManager.SendPersonalMessage | app/chat/router.py:116-117 | one send to that socket |
| ChatRouter.ConnectionManager.SendToAll | app/chat/router.py:123-124 | the text goes once to every listed socket, in order |
| ChatRouter.ConnectionManager.Broadcast | app/chat/router.py:119-124 | a message is stored exactly when the text is non-empty, in the pair's chat, before any send; the text then goes to every listed socket; existing chats are untouched and pairs stay unique |
| ChatRouter.ConnectionManager.AddMessageToDatabase | app/chat/router.py:126-137 | find-or-create: the pair's existing chat is reused, and a chat is created only when the pair has none; one unread message stamped with the clock; existing chats are unchanged and pairs stay unique |
| ChatRouter.SessionStep | app/chat/router.py:156-160 | at the frame's arrival time, one broadcast of the text: the row is stored, then the text is sent to the listed sockets |
| ChatRouter.SessionStoredExtend | app/chat/router.py:154-160 | a further stored message of the pair keeps every earlier message of the session stored |
| ChatRouter.MapAddOne | app/chat/router.py:136-137 | adding a new key grows the message table by one |
| ChatRouter.ReceiveFrames | app/chat/router.py:154-160 | the receive loop stores one "says" message per frame, in order, and sends each to the listed sockets |
| ChatRouter.WebsocketEndpoint | app/chat/router.py:150-167 | connect; one stored and broadcast "says" text per frame; on close the socket is removed and the "left" notice stored and sent to the remaining sockets; the table grows by frames + 1 and older rows are untouched |
| ChatRouter.LeaverMissesNotice | app/chat/router.py:161-167 | the socket that leaves does not receive its own "left" notice |
| ChatRouter.CreateChat | app/chat/router.py:44-57 | 404 "Doctor or Patient not found" when either is missing; 409 "Chat already exists" when the pair has a chat; otherwise exactly one new chat, with pairs kept unique |
| ChatRouter.ChatMessageKeys | app/chat/router.py:72 | exactly the keys of the chat's messages |
| ChatRouter.MarkRead | app/chat/router.py:73-79 | every message of the chat is read; every other message, and every other field, is unchanged |
| ChatRouter.MarkReadIdempotent | app/chat/router.py:70-79 | reading a chat twice is reading it once |
| ChatRouter.ReadChat | app/chat/router.py:70-79 | the loop leaves the table equal to MarkRead of the old table |
| ChatRouter.DescendingById | app/chat/router.py:146 | ordered by `id` descending, keys strictly decrease |
| ChatRouter.LastKeys | app/chat/router.py:146 | keys of the chat's messages only, strictly decreasing, at most 25 |
| ChatRouter.GetLastMessages | app/chat/router.py:141-148 | min(25, count) messages, all of the chat, newest (greatest id) first |
| ChatRouter.GetLastMessagesNewest | app/chat/router.py:146 | a message of the chat left out means 25 were returned, all newer than it |
| ChatList.LatestKeys | app/chat/dao.py:23-34 | exactly the messages of the user's chats that carry their chat's greatest timestamp |
| ChatList.RowKeys | app/chat/dao.py:30-36 | one key per latest message, timestamps non-increasing, no key twice |
| ChatList.GetChatsByUser | app/chat/dao.py:21-59 | one entry per latest message; each entry's chat involves the user and carries that chat's doctor, patient and latest message; entries newest first; no message twice |
| ChatList.GetChatsByUserComplete | app/chat/dao.py:30-36 | every latest message of every chat of the user has its entry |
| ChatList.GetChatsByUserEmpty | app/chat/dao.py:59 | a user none of whose chats has a message gets the empty list |
| Values.ValueLtTransitive | app/base/dao.py:111-124 | the column order is transitive |
| Values.ValueLtTotal | app/base/dao.py:111-124 | any two different values are ordered one way or the other |
| Values.ValueLtIrreflexive | app/base/dao.py:111-124 | no value sorts before itself |
| RowOrder.Ascending | app/base/dao.py:112-117 | the keys in ascending order of the column, each key once |
| RowOrder.Descending | app/base/dao.py:119-124 | the keys in descending order of the column, each key once |
| RowOrder.DescendingIsReverse | app/base/dao.py:111-124 | descending order is ascending order reversed |
| RowOrder.AscendingRank | app/base/dao.py:114-116 | the key at position n of ascending order has exactly n keys before it |
| RowOrder.DescendingRank | app/base/dao.py:121-123 | the key at position n of descending order has exactly n keys after it |
| RowOrder.IncreasingUnique | app/base/dao.py:112-117 | there is only one ordering of a key set by a column |
| RowOrder.Page | app/base/dao.py:61 | OFFSET then LIMIT: the slice of the ordering after `skip` rows, at most `limit` long |
| BaseDao.PatchEffect | app/base/dao.py:164-165 | after the setattr loop every column holds the last value assigned to it, or its old value; no column appears or disappears |
| BaseDao.Table.constructor | app/base/dao.py:25-26 | an empty table over the given columns |
| BaseDao.Table.GetOneOrNone | app/base/dao.py:29-33 | the row with that key exactly when there is one |
| BaseDao.Table.GetByIds | app/base/dao.py:36-41 | exactly the rows whose key is listed; a listed key without a row is skipped |
| BaseDao.Table.GetCount | app/base/dao.py:44-49 | the number of rows |
| BaseDao.Table.KeyPage | app/base/dao.py:52-63 | the keys of the page: existing rows, strictly increasing, key i being position skip + i of the table in key order, as many as `OFFSET skip LIMIT limit` leaves |
| BaseDao.Table.KeyPageNoLimit | app/crud_sqlalchemy/sqlalchemy.py:65-70 | no limit gives the same page as a limit equal to the row count |
| BaseDao.Table.GetMulti | app/base/dao.py:52-63 | min(limit, rows − skip) rows, in increasing key order |
| BaseDao.Table.KeyPageIsSlice | app/base/dao.py:61 | for any limit, key i of the page has exactly skip + i rows of the table before it: the page is the slice that starts after the first `skip` rows in key order |
| BaseDao.Table.GetMultiIsSlice | app/base/dao.py:61 | the i-th row returned has exactly skip + i rows of the table before it |
| BaseDao.Table.OrderColumn | app/base/dao.py:108-110 | `order_by` when it names a column, the key otherwise |
| BaseDao.Table.OrderedPage | app/base/dao.py:99-127 | the page's keys: ascending by the chosen column for `ascendent` and descending otherwise (also for None), key i being position skip + i of that order, min(limit, rows − skip) of them |
| BaseDao.Table.GetMultiOrdered | app/base/dao.py:99-127 | the rows of exactly the `OrderedPage` keys, in that order, each with its fields |
| BaseDao.Table.OrderedFallback | app/base/dao.py:109-110 | an `order_by` that names no column sorts exactly as `id` does |
| BaseDao.Table.OrderedReverse | app/base/dao.py:111-124 | over the whole table, `descendent` lists the rows of `ascendent` back to front |
| BaseDao.Table.Insert | app/base/dao.py:136-142 | an unknown column is refused, as are a NOT NULL column left empty and a taken key; otherwise exactly one row (NULL where nothing was given) under the chosen or the next key |
| BaseDao.Table.Create | app/base/dao.py:130-150 | an integrity failure answers 409 "Resource already exists" and leaves the table unchanged; otherwise the new row is returned |
| BaseDao.Table.ApplyFields | app/base/dao.py:164-165 | the setattr loop leaves the row equal to Patch of the old row |
| BaseDao.Table.Update | app/base/dao.py:153-170 | the patched row is stored and returned; a NOT NULL column left NULL rolls back and raises |
| BaseDao.Table.Delete | app/base/dao.py:173-181 | the row is removed and returned; a missing key raises and nothing changes |
| BaseDao.Table.DeleteAll | app/base/dao.py:184-187 | the table is empty |
| BaseDao.Table.Add | app/base/dao.py:190-200 | the key of the inserted row, or None with the table unchanged |
| CrudRouter.GetAll | app/crud_sqlalchemy/sqlalchemy.py:58-76 | rows by key after `skip`, at most `limit`; with a limit, the DAO's `get_multi` page, and with none, the `get_multi` page whose limit is the row count, so `GetMultiIsSlice` pins which rows come back in both cases |
| CrudRouter.GetAllListsEveryRow | app/crud_sqlalchemy/sqlalchemy.py:58-76 | with no limit and no skip, every row is listed |
| CrudRouter.GetOne | app/crud_sqlalchemy/sqlalchemy.py:79-92 | the row exactly when it exists, NOT_FOUND otherwise |
| CrudRouter.Create | app/crud_sqlalchemy/sqlalchemy.py:95-110 | any integrity failure answers 422 "Key already exists" with the table unchanged; otherwise the new row |
| CrudRouter.Assignable | app/crud_sqlalchemy/sqlalchemy.py:125-127 | exactly the payload fields that are not the key and name a column of the row (see "## Left out" for other attributes) |
| CrudRouter.Update | app/crud_sqlalchemy/sqlalchemy.py:113-136 | NOT_FOUND for a missing row; otherwise the assignable fields patched in, or 422 with the table unchanged when a NOT NULL column is left NULL |
| CrudRouter.UpdateFrame | app/crud_sqlalchemy/sqlalchemy.py:125-127 | a column the payload does not assign keeps its value |
| CrudRouter.DeleteOne | app/crud_sqlalchemy/sqlalchemy.py:150-162 | NOT_FOUND for a missing row; otherwise the row is removed and returned |
| DoctorNames.FullName | app/doctor/model.py:20-25 | with last and first names, the last name comes first and the length is theirs plus the middle name plus 3; otherwise the fixed fallback |
| DoctorNames.FullNameParts | app/doctor/model.py:23 | two spaces, the first name, one space, then the middle name or nothing |
| DoctorNames.FullNameTrailingSpace | app/doctor/model.py:23 | without a middle name the full name ends in a space |
| DoctorNames.ShortName | app/doctor/model.py:27-32 | with all three names, last name + 7 characters ending in '.'; otherwise the fixed fallback |
| DoctorNames.ShortNameInitials | app/doctor/model.py:30 | "  F. M." after the last name, from the first letters of the first and middle names |
| DoctorNames.ShortNameNeedsMiddle | app/doctor/model.py:22-32 | without a middle name the short name falls back while the full name does not |
| DoctorNames.NamedIsNotFallback | app/doctor/model.py:22-32 | a formatted name is never the fallback text |
| DoctorNames.FallbackSameForAll | app/doctor/model.py:25 | every unnamed doctor gets the same fallback, whatever its key |
| DoctorNames.Str | app/doctor/model.py:43-44 | "D#" first and the short name last |
| DoctorNames.ParseTagOfStr | app/doctor/model.py:43-44 | the key and the short name can be read back from `__str__` |
| DoctorNames.FullNameById | app/doctor/model.py:24-25 | the intended fallback names the doctor's own key |
| DoctorNames.FullNameByIdDistinguishes | app/doctor/model.py:24-25 | with the intended fallback, unnamed doctors with different keys get different names |
| CsvImport.ConvertCell | app/importer/utils.py:20-25 | digits become their integer under any column; other values under a date column fail; any other value is kept |
| CsvImport.ConvertRow | app/importer/utils.py:19-25 | every value of the row converted, columns and order kept |
| CsvImport.Convert | app/importer/utils.py:15-29 | a result exactly when every row converts, with one converted row per input row, in order |
| CsvImport.ConvertCsv | app/importer/utils.py:15-29 | the nested loops give exactly Convert of the input |
| CsvImport.DigitsBecomeNumbers | app/importer/utils.py:20-21 | a digit string becomes its integer whatever its column |
| CsvImport.DigitCellRoundTrip | app/importer/utils.py:20-21 | a number written in decimal converts back to itself |
| CsvImport.ServicesDecoded | app/importer/utils.py:22-23 | "services" is decoded after single quotes become double quotes, and a value the decoder refuses sinks the conversion |
| CsvImport.DateColumnFails | app/importer/utils.py:24-25 | a non-digit value under a column named with "date" always makes the conversion fail |
| CsvImport.AllOrNothing | app/importer/utils.py:26-29 | a failing row leaves no result at all, never a partial list |
| CsvImport.ConvertAppend | app/importer/utils.py:17-27 | converting two inputs in a row is converting each and joining the results |
| CsvImport.UntouchedAndEmpty | app/importer/utils.py:17-27 | ordinary values come out unchanged, and an empty input gives the empty list |
| Settings.ParseModeName | app/config.py:9 | `MODE` accepts exactly DEV, TEST and PROD |
| Settings.ParseLogLevelName | app/config.py:10 | `LOG_LEVEL` accepts exactly DEBUG, INFO, WARNING, ERROR and FATAL |
| Settings.PostgresUrl | app/config.py:19-21 | the URL starts with the asyncpg scheme |
| Settings.ParsePostgresUrlOf | app/config.py:19-21 | user, password, host, port and name can be read back when the user and host hold no ':' and the password no '@' |
| Settings.UrlsSeparateDatabases | app/config.py:19-32 | the main and test URLs coincide exactly when the two field groups are equal |
| Settings.ParseRedisUrlOf | app/config.py:44-46 | host and port can be read back from the Redis URL |
| AsWritten.WsBroadcast | app/chat/ws_router.py:24-44 | as written, with the constructor check in front of the store: when nothing is raised the content goes to every listed socket |
| AsWritten.WsBroadcastNeverStores | app/chat/ws_router.py:35-42 | `attachments` makes the constructor raise TypeError, and it is the only keyword that does |
| AsWritten.ChatBroadcast | app/chat/router.py:119-129 | as written, with the lookup in front of the store: when nothing is raised the text goes to every listed socket |
| AsWritten.ChatSessionDiesAtFirstFrame | app/chat/router.py:129 | the first frame raises AttributeError, nothing is stored or sent, and the socket stays listed |
| AsWritten.IsReadLeftUnset | app/chat/router.py:135 | the row built at line 135 fails NOT NULL, and adding `is_read` is all it needs |
| AsWritten.AddMessageIsReadUnset | app/chat/router.py:127-137 | with the lookup fixed, nothing is stored and the chat created in the same transaction is rolled back |
| AsWritten.GetChatsByUserAlwaysRaises | app/chat/dao.py:34 | the chat list raises AttributeError for every user |
| AsWritten.CreateChatNeverCreates | app/chat/router.py:52 | no chat is ever created; two existing participants make the route raise |
| AsWritten.ReadChatMarksNothing | app/chat/router.py:72 | the route raises TypeError, and an unread message stays unread |
| AsWritten.DeletedRowRemains | app/crud_sqlalchemy/sqlalchemy.py:158 | the route answers with the row, and the row is still in the table |
| AsWritten.CreateAlwaysRaises | app/base/dao.py:136 | `create` raises AttributeError for every input and inserts nothing |
| AsWritten.Add | app/base/dao.py:190-200 | `add` answers None even when the row was committed |

## Left out

- Network, websocket framing and `accept`: sockets are identities and sends are entries of an effects log. A send that fails on a closed socket is not modelled.
- Concurrency: several sessions running against one manager, and interleaved awaits, are not modelled. Each operation runs to completion.
- Timestamps: `datetime.now()` and `datetime.utcnow()` are both read from one natural-number clock. Time zones and dates are not modelled.
- Integer widths: keys and ports are unbounded integers. PostgreSQL's 32-bit `Integer` overflow is not modelled.
- Foreign keys other than `message.chat_id`: the keys of chats to doctors and patients, and of messages to users, are not enforced. Column defaults other than the message timestamp are not modelled.
- `delete_chat` (app/chat/router.py:96-101), `create_message` (59-67), `read_message` (82-93) and the `get_user_chats` wrapper (26-41) are routes outside this model.
- `get_multi_paginated`, `get_multi_paginated_ordered` and the `paginate` option of the CRUD routes are not modelled; they delegate to a pagination library.
- `created_by_id` of `BaseDAO.create` is not modelled; no caller passes it.
- Logging, `print(settings.DATABASE_URL)` and the reading of the settings from the environment and the `.env` file are not modelled. The SMTP, Sentry and secret-key fields are carried but not used.
- JSON decoding is a function given as a parameter. `str.isdigit` is taken over ASCII digits only.
- Dates in the importer: a date column always fails, as the code behaves. No corrected date parsing is modelled.
- The `id` key: the declarative base (app/database.py:29) has its `id` column commented out, and no model declares one. Every table is taken to carry an integer primary key `id`, as the migrations and every query assume.
- `delete_chat` passes the key positionally (app/chat/router.py:101) to `BaseDAO.delete`, whose `id` is keyword-only (app/base/dao.py:173), so it raises TypeError. The route is outside this model.
- Nullable columns: `message.chat_id` and `message.timestamp` are nullable in the source (app/chat/model.py:24-26). The model types them as a key and a time that are always present, so a message with no chat or no timestamp (which `max()` in `get_chats_by_user` would skip) cannot occur.
- Text order: the model sorts text by code point. PostgreSQL sorts by the database collation (under en_US 'a' comes before 'B', by code point 'B' comes first), so `get_multi_ordered` on a text column can differ from the model under a non-C collation.
- CrudRouter.Assignable: keeps only payload fields that are columns. The source's `hasattr` test (app/crud_sqlalchemy/sqlalchemy.py:125) also passes relationships (`Chat.messages`, `Message.chat`) and properties (`Doctor.full_name`); what `setattr` does with them (a relationship collection replaced, a read-only property raising) is not modelled.
- BaseDao.Table.Update: requires a payload without the `id` key. A key change through `update` is not modelled.
- ChatRouter.ReadChat: marks every message of the chat. The `get_multi` default limit of 100 that a working call would bring is not modelled.
- Authentication, the admin views, the pages, the tasks and the image and media routes are not part of this model. `main.py` is not part of this model either.

## Findings

| source | as written | input that shows it | evidently intended | confidence | as-written member | corrected member |
|---|---|---|---|---|---|---|
| app/chat/ws_router.py:35-42 | `Message(..., attachments=[])`; `Message` has no `attachments` attribute, so the constructor raises TypeError | `broadcast(chat_id=1, sender_id=2, content="hi", add_to_db=True)` | store the message, then send it | high, not executed | AsWritten.WsBroadcastNeverStores | WsRouter.ConnectionManager.AddMessageToDatabase |
| app/chat/router.py:129 | `.scalar()` is called on the coroutine from `session.execute(...)` before it is awaited, so AttributeError; the handler catches only disconnects, so the socket stays listed | any frame on `/ws/1/2` | look the chat up, then store and broadcast | high, not executed | AsWritten.ChatSessionDiesAtFirstFrame | ChatRouter.WebsocketEndpoint |
| app/chat/router.py:135 | `Message(content=..., sender_id=..., chat=chat)` leaves NOT NULL `is_read` unset; the commit fails and rolls back the new chat | `add_message_to_database("hi", 1, 2)` with the lookup awaited | store an unread message | high, not executed | AsWritten.IsReadLeftUnset | ChatRouter.ConnectionManager.AddMessageToDatabase |
| app/chat/dao.py:34 | `Chat.doctor_user_id` / `Chat.patient_user_id` do not exist (the columns are `doctor_id` and `patient_id`), so AttributeError. Past that line the function is broken in more ways, which the corrected member also repairs: `result.scalars().all()` (dao.py:40) keeps only the Chat column, so `for chat, message in …` (dao.py:56) cannot unpack; the query selects `Message.content`, `timestamp` and `is_read` as bare columns, so `message.id` and `message.sender_id` (dao.py:49, 52) have no source; and `chat.doctor_user_id` / `chat.patient_user_id` appear again at dao.py:46-47. The correction reads the whole latest message row and the `doctor_id` / `patient_id` columns | `get_chats_by_user(1)` | the user's chats, each with its whole latest message | high, not executed | AsWritten.GetChatsByUserAlwaysRaises | ChatList.GetChatsByUser |
| app/chat/router.py:52 | `ChatDAO.find_one_or_none` is not defined, so AttributeError once both participants exist | `POST /chat` with an existing doctor and patient | 409 for an existing pair, else create | high, not executed | AsWritten.CreateChatNeverCreates | ChatRouter.CreateChat |
| app/chat/router.py:72 | `get_multi(chat_id=...)` passes a keyword `get_multi` does not declare, so TypeError; `update(obj_in=...)` at 76 would fail the same way | `POST /chat/1/read` | mark every message of the chat read | high, not executed | AsWritten.ReadChatMarksNothing | ChatRouter.ReadChat |
| app/crud_sqlalchemy/sqlalchemy.py:158 | `session.delete(db_model)` on an async session is never awaited, so the delete never runs, yet the row is returned | `DELETE /{id}` of an existing row | remove the row and return it | high, not executed | AsWritten.DeletedRowRemains | CrudRouter.DeleteOne |
| app/base/dao.py:136 | `cls.model.from_orm` does not exist on a mapped class, so AttributeError | `ChatDAO.create(obj_in=...)` | insert the row, with 409 on an integrity failure | high, not executed | AsWritten.CreateAlwaysRaises | BaseDao.Table.Create |
| app/base/dao.py:196 | `result.mappings().first()` on an INSERT without RETURNING raises after the commit; the handler returns None | `add(...)` of a valid row | the new row's key | medium, not executed | AsWritten.Add | BaseDao.Table.Add |
| app/doctor/model.py:25 | `f"Doctor {id}"` formats Python's builtin `id`, so every unnamed doctor gets the same text | two doctors without names, keys 1 and 2 | "Doctor 1" and "Doctor 2" | high, not executed | DoctorNames.FallbackSameForAll | DoctorNames.FullNameById |

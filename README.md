# A verified model of the chat server's session and moderation core

This project is a Dafny model of the stateful core of a small real-time chat
application. It has a Python/FastAPI back end and a React front end.

- **Connection manager** (`ConnectionManager`). The server keeps one WebSocket
  per user. A new login ends the previous session: the old socket gets a
  `session_expired` notice and is closed. A broadcast from a sender first goes
  through the spam guard. That guard keeps a window of the sender's last four
  messages. Four identical messages within five seconds ban the sender for
  twenty seconds. A banned sender only gets a `chat_banned` notice. Every
  other message is sent to all connections. Connections whose send failed are
  dropped afterwards.
- **Background sweeps** (`BackgroundTasks`). One pass each of the user-count
  broadcast, the hourly cleanup of idle windows and bans, and the ping
  heartbeat. Also the start and stop of the set of tasks that run them.
- **User table** (`KafkaUser`). It is rebuilt by replaying the `user` topic,
  where the last record for a username wins. Registration refuses a taken
  username and commits only after the producer's send succeeded. Login
  compares password hashes.
- **Front-end validators.** The login/registration dialog's error map
  (`AuthModal`) and the 30-character chat box with its submit guard
  (`ChatInput`).

How things are modelled:

- Time is a whole number of seconds, passed in as `now`.
- A socket is an abstract handle (`Wire.Socket`). Whether a send on it fails
  is an input: the set `dead` of failing handles.
- Every accept, send and close is appended to a ghost log `outbox`, so that
  contracts can say what was sent, to whom and in which order.
- The connection dictionary keeps Python's insertion order. It is a sequence
  of key/value pairs (`Dict`), and `AsMap` is its meaning as a map.
- The sender path of `broadcast` is specified by the pure function
  `SpamGuard.Moderate`. `Manager.Broadcast` is proved to update the state
  exactly as `Moderate` says. The lemmas about the spam rules are proved
  about `Moderate`.
- The system path of `broadcast` takes the outcome of `json.loads` as an
  input, `payload`. `None` stands for a decode error, which becomes a
  `system` notice.
- SHA-256 is an uninterpreted function `hash` fixed when the user table is
  built. The fresh `uuid4` id and the success of the producer's send are
  inputs of `RegisterUser`.
- The dialog's Korean error messages are replaced by English glosses.
- The cleanup sweep deletes the ban of every user that had a window,
  whether or not the ban has elapsed (`back/background_tasks.py:24-25`). The
  comment on line 23 speaks of deleting expired bans only; the model follows
  the code.
- The message that triggers a ban is appended to the window. It is not
  broadcast: the sender alone is sent `chat_banned`, and `broadcast` returns
  (`back/connection_manager.py:53-60`).

## Model

| member | source | states |
|---|---|---|
| `Dict.Put` | back/connection_manager.py:26 | After `d[k] = v` the key is present. An existing key keeps the length (its entry is overwritten); a new key adds one entry. |
| `Dict.Delete` | back/connection_manager.py:39 | After `del d[k]` the key is absent. The dictionary shrinks iff the key was present, and never grows. |
| `Dict.PutMeaning` | back/connection_manager.py:26 | `d[k] = v` updates the map view at `k`. An absent key is appended last. Keys stay distinct. |
| `Dict.DeleteMeaning` | back/connection_manager.py:39 | `del d[k]` removes exactly `k` from the map view. An absent key leaves the dictionary unchanged. Keys stay distinct. |
| `Dict.WithoutSnoc` | back/connection_manager.py:82-83 | Deleting a list of keys one after another is the same as filtering the dictionary by that list. |
| `Dict.SizeOfMap` | back/background_tasks.py:10 | With distinct keys, `len(d)` equals the number of entries of the map view. |
| `SpamGuard.Push` | back/connection_manager.py:16 | Appending to a `deque(maxlen=4)` gives at most four entries. The new entry is last; a full window drops its oldest entry and keeps the order of the rest. |
| `SpamGuard.IsSpam` | back/connection_manager.py:85-92 | A window is spam iff it holds at least 4 entries, its oldest is at most 5 s old, and every pair of its entries carries the same text. |
| `SpamGuard.Moderate` | back/connection_manager.py:44-60 | The sender path of a message. It is rejected iff a ban exists and `now` is before its end; then nothing changes and `time_left` is the positive remainder. Otherwise the sender's window becomes `Push` of the old window (an emptied one if the ban had elapsed) with the new entry: older entries are kept in order, and a full window drops only its oldest. The verdict is spam iff the window then satisfies `is_spam`, and then the ban is set to `now + 20`. An allowed message deletes any elapsed ban. Other users' windows are never touched. |
| `SpamGuard.SpamIffThreeEqualBefore` | back/connection_manager.py:85-92 | A new message completes a spam run iff the three entries before it carry the same text and the oldest of them is at most 5 s old. |
| `SpamGuard.DistinctTextNoBan` | back/connection_manager.py:85-92 | A message whose text differs from one of the three entries before it never starts a ban. |
| `SpamGuard.FourIdenticalStartABan` | back/connection_manager.py:44-60 | From a sender with no history, four identical messages spanning at most 5 s: the first three are allowed, the fourth starts a ban ending at its time plus 20, and the window holds the four. |
| `SpamGuard.BanLastsTwentySeconds` | back/connection_manager.py:94-104 | After a ban starts, every message for the next 20 s is rejected with the seconds left and changes nothing. Afterwards the next message is allowed, the ban is gone, and the window holds that message alone. |
| `ConnectionManager.Live` | back/connection_manager.py:74-83 | The connections left after a fan-out: exactly those users whose handle did not fail, each with its handle unchanged. |
| `ConnectionManager.Sends` | back/connection_manager.py:75-77 | One send of the envelope to each connection, in dictionary order. |
| `ConnectionManager.PruneLeavesLive` | back/connection_manager.py:74-83 | Collecting the users whose send failed and then disconnecting them one by one leaves exactly the live connections. |
| `ConnectionManager.DeleteAtSnapshot` | back/background_tasks.py:31-37 | In a sweep over a snapshot, disconnecting the user of a failed entry keeps the state equal to "pruned prefix plus untouched suffix". |
| `ConnectionManager.Manager.constructor` | back/connection_manager.py:14-20 | No connections, windows, bans or tasks. |
| `ConnectionManager.Manager.SendJson` | back/connection_manager.py:32 | Logs the send; it succeeds iff the handle is not dead. |
| `ConnectionManager.Manager.Disconnect` | back/connection_manager.py:37-40 | Removes only the user's entry. If the user is absent, nothing changes. |
| `ConnectionManager.Manager.DisconnectPreviousSession` | back/connection_manager.py:29-35 | If the user has a socket, it is sent `session_expired`, then closed, then forgotten, in that order. A failing send stops the operation before the close. |
| `ConnectionManager.Manager.Connect` | back/connection_manager.py:22-27 | The new socket is accepted first. A previous session is ended as above. Then the user maps to the new socket and every other entry is unchanged. If the old socket's send fails, the new socket is not stored. |
| `ConnectionManager.Manager.IsUserBanned` | back/connection_manager.py:97-104 | True iff a ban exists and `now` is before its end. An elapsed ban is deleted and the user's window emptied. Otherwise nothing changes. |
| `ConnectionManager.Manager.BanUser` | back/connection_manager.py:94-95 | The ban of the user ends at `now + 20`; other bans are unchanged. |
| `ConnectionManager.Manager.SendToAll` | back/connection_manager.py:74-80 | Every connection is sent the envelope, in dictionary order. The users collected are exactly those whose send failed, in that order. |
| `ConnectionManager.Manager.DisconnectAll` | back/connection_manager.py:82-83 | Disconnecting the listed users in turn removes exactly their entries and keeps the order of the rest. |
| `ConnectionManager.Manager.Deliver` | back/connection_manager.py:74-83 | Every connection is sent the envelope, in order. Afterwards exactly the connections whose send failed are gone. |
| `ConnectionManager.Manager.Broadcast` | back/connection_manager.py:42-83 | From a sender, the spam-guard state becomes what `Moderate` says. A rejected or spam message sends `chat_banned` to the sender only and changes no connection. An allowed message goes to every connection, the sender included, with timestamp `now * 1000`. On the system path the state is untouched and the parsed object, or a `system` notice, goes to every connection. Both fan-outs drop exactly the failed connections. "Every ban has a window" is preserved. |
| `BackgroundTasks.PeriodicUserCountUpdate` | back/background_tasks.py:10-12 | Every connection is sent `user_count` with the number of users connected before the send. It uses the system path: windows and bans are unchanged. Failed connections are dropped. |
| `BackgroundTasks.CleanupOldData` | back/background_tasks.py:18-25 | Over a snapshot of the window keys, each visited once: exactly the empty windows and those idle for more than 3600 s are deleted. The ban of every visited user is deleted, elapsed or not; other bans stay. When every ban has a window, no ban survives. |
| `BackgroundTasks.CheckConnections` | back/background_tasks.py:31-37 | Every connection of the snapshot is pinged, in order. Exactly the connections whose ping failed are removed. |
| `ConnectionManager.Task.Cancel` | back/background_tasks.py:50 | `task.cancel()` marks the task cancelled. |
| `BackgroundTasks.StartBackgroundTasks` | back/background_tasks.py:41-45 | Three new, uncancelled tasks join the set, one per loop. |
| `BackgroundTasks.StopBackgroundTasks` | back/background_tasks.py:47-51 | Every task that was in the set is cancelled, and the set is empty. |
| `KafkaUser.Replay` | back/kafka_user.py:34-36 | Replaying records only adds or replaces entries: every username in the table before stays, and every applied record's username ends up in the table. |
| `KafkaUser.Readable` | back/kafka_user.py:32-38 | Replay applies the records before the first message whose decoding or `username` lookup raises. |
| `KafkaUser.ReplayKeepsOthers` | back/kafka_user.py:34-36 | A username that no applied record carries keeps its entry, or stays absent. |
| `KafkaUser.ReplayLastWins` | back/kafka_user.py:34-36 | After replay, a username maps to the last applied record that carries it. |
| `KafkaUser.UserManager.constructor` | back/kafka_user.py:16-19 | The table starts empty. |
| `KafkaUser.UserManager.Login` | back/kafka_user.py:61-64 | Succeeds iff the user exists and the stored hash equals the hash of the given password. On success it returns the stored id; otherwise the credentials message. |
| `KafkaUser.UserManager.RegisterUser` | back/kafka_user.py:43-59 | A taken name is refused and nothing changes. A failed send reports an error and nothing changes. A successful send adds exactly the new record with the hashed password and the given id. A login with the same password then succeeds and returns that id. |
| `KafkaUser.UserManager.LoadUsers` | back/kafka_user.py:32-38 | The table becomes the replay of the consumed records, stopping at the first message whose decoding or `username` lookup raises. |
| `JsText.Trim` | front/src/components/ChatInput.js:9 | `trim()` is the middle of the string: the part left after a white-space prefix and a white-space suffix. It is empty iff the string is all white space; otherwise it starts and ends with a visible character. |
| `AuthModal.HasEmailPattern` | front/src/components/AuthModal.js:15 | The test is true iff some substring matches `\S+@\S+\.\S+`. |
| `AuthModal.AuthModal.constructor` | front/src/components/AuthModal.js:3-9 | All fields start empty and there are no errors. |
| `AuthModal.AuthModal.ValidateForm` | front/src/components/AuthModal.js:11-35 | Username error iff shorter than 4; password error iff shorter than 8. For registration only: email error iff no substring matches the pattern, nickname error iff shorter than 2, confirmation error iff the passwords differ. Each error carries its field's message. The result is true iff there are no errors. |
| `AuthModal.AuthModal.HandleSubmit` | front/src/components/AuthModal.js:37-44 | `onClose` is called iff validation leaves no error. |
| `AuthModal.AcceptedIffRulesHold` | front/src/components/AuthModal.js:11-35 | After validation, the form is accepted iff every rule of its kind holds. |
| `ChatInput.CanSend` | front/src/components/ChatInput.js:9 | A message may be sent iff the user is logged in, it has at most 30 characters, and at least one of them is not white space. |
| `ChatInput.ChatInput.constructor` | front/src/components/ChatInput.js:4-5 | The box starts empty, with the button enabled. |
| `ChatInput.ChatInput.HandleChange` | front/src/components/ChatInput.js:17-22 | An input of at most 30 characters replaces the text; a longer one is ignored. So the text never exceeds 30 characters. |
| `ChatInput.ChatInput.HandleSubmit` | front/src/components/ChatInput.js:7-15 | The text is handed on iff `CanSend` holds. Then the box is cleared and the button disabled (`disabled` is `isButtonDisabled || !isLoggedIn`, line 34). Otherwise nothing changes. |

## Left out

- The `while True` loops, `asyncio.sleep`, task scheduling and interleaving at `await` points are not modelled. Each sweep is one iteration run alone, and a `Task` records only its loop and whether it was cancelled.
- `time.time()` is a float; the model uses whole seconds. So the `int(...)` truncation of `time_left` has nothing to do. The second clock reading inside `is_spam` and the one for the timestamp are the same `now`.
- `ConnectionManager.Manager.Broadcast`: when a banned or spamming sender has no connection, the source raises `KeyError`. The model states this as a precondition instead.
- `ConnectionManager.Manager.Broadcast`: a failing `chat_banned` send raises out of `broadcast`. The model logs the attempt only; the state is the same either way.
- Closing a socket is assumed to succeed.
- JSON encoding and decoding are abstract. The system path receives the decoded object, or `None` for a decode error.
- `KafkaUser.LoadUsers`: every consumed record is assumed to be a complete user object. A decoded object with a `username` but no `password` or `id` is stored by the source as it is (`back/kafka_user.py:35-36`), and a later `login_user` for that name raises `KeyError` (`back/kafka_user.py:62-64`). The model's records always have all three fields, so it cannot express this.
- SHA-256 (`hash_password`) and `uuid4` are abstract inputs. Kafka producer and consumer start and stop are I/O and are not modelled; the consumed records are an input sequence.
- `AuthModal` and `ChatInput`: JavaScript counts string length in UTF-16 code units; the model counts Unicode scalar values. The white-space set is ECMAScript's; the joined Unicode class `Zs` is listed explicitly.
- The 500 ms timer that enables the chat button again is not modelled. Nor is the browser's refusal to submit a form whose submit button is disabled. `handleSubmit` itself does not look at the button.
- `console.log`, `e.preventDefault()` and all rendering are not modelled.
- The database, Redis and web layers, the WebSocket client hook and the other UI components are not part of this model.
- Durable-sync buffering, retries, dead-lettering, a pub/sub relay and a user count sent on connect do not occur in these files, so they are not modelled.

# Presence registry and message relay of the lanchat server

lanchat is a small browser chat. Its server keeps one process-wide table,
`CONNECTED_USERS`, which maps each Socket.IO session id to the display name
that session last announced. It also relays every chat message to all
clients. Four socket handlers use the table:

- `connect` does nothing.
- `disconnect` removes the caller's entry if there is one.
- `register` inserts or overwrites the caller's entry.
- `message` overwrites the caller's entry with the payload's `username`,
  stamps the payload with the receive time as `HH:MM`, broadcasts it, and
  then broadcasts a presence snapshot.

Every handler except `connect` ends by broadcasting a presence snapshot:
`{count: len(table), users: list(set(table.values()))}`.

The production (`cprod.py`) and pre-production (`cpreprod.py`) variants
have the same handler code, line for line. It sits at `cprod.py:692-716`
and at `cpreprod.py:552-576`, 140 lines lower. One model covers both. Each
row below cites one of the two files, and the matching lines of the other
file are those 140 lines lower (or higher).

The project is split into five modules:

- `Wrappers` (`wrappers.dfy`) holds `Option`.
- `Timestamp` (`timestamp.dfy`) formats a clock reading the way
  `strftime('%H:%M')` does. It also has a parser that reads a stamp back,
  and the two are proved inverse to each other.
- `Registry` (`registry.dfy`) gives the table's meaning as pure functions.
  `Next` is the effect of one socket event and `Run` the effect of a
  sequence of events. Its lemmas state the per-session state machine
  (absent, then registered, then removed), last-write-wins, and locality:
  no other session's event ever changes a session's entry. They also state
  the bound between the distinct names and the sessions.
- `Events` (`events.dfy`) holds the broadcast events. It has the stamping
  of a relayed payload, and the presence snapshot computed by a loop over
  the set of names. The loop picks names in an order the model leaves open.
- `Server` (`server.dfy`) holds the class `ChatServer`. Its field
  `connectedUsers` is `CONNECTED_USERS`, and `outbox` is the sequence of
  broadcast events. It has one method per handler. A ghost log of the
  handled events ties the table to `Registry.Run`, and two lemmas use that
  link to state the per-session state machine for a live server. Two client
  methods replay whole exchanges. In the first, two sessions register and
  one of them sends a text and the other disconnects. In the second, a
  session sends an image without ever registering.

Three behaviours of the handlers matter for the model:

- The message handler stores `data['username']` for every `type` and never
  substitutes a default name (`cprod.py:709`). Empty names and names
  shared by several sessions go into the table as they are. The `"Anon"`
  default exists only in the browser script (`cprod.py:580`,
  `cprod.py:642`, `cprod.py:661`).
- The message handler emits the relayed message before the user list
  (`cprod.py:711-712`), and `outbox` records that order.
- A payload without `username` makes the handler's first statement raise
  `KeyError` (`cprod.py:709`), so nothing is stored, stamped or sent. The
  model returns `KeyError("username")` and leaves the state unchanged.

## Model

| member | source | states |
|---|---|---|
| `Server.ChatServer.constructor` | cprod.py:20 | The process starts with an empty `CONNECTED_USERS` and nothing broadcast, and the server invariant holds (same line in cpreprod.py:20). |
| `Server.ChatServer.HandleConnect` | cprod.py:692-694 | Connecting creates no entry and emits nothing: table and outbox are unchanged (cpreprod.py:552-554). |
| `Server.ChatServer.HandleDisconnect` | cprod.py:696-700 | The caller's entry is removed if present; if absent the table is unchanged; other entries keep their names; exactly one user list of the new table is always appended; a name is in that list iff a session other than the caller held it before (cpreprod.py:556-560). |
| `Server.ChatServer.HandleRegister` | cprod.py:702-705 | The caller's entry is set to the given name (insert or overwrite), every other entry is unchanged, and exactly one user list of the new table is appended (cpreprod.py:562-565). |
| `Server.ChatServer.HandleMessage` | cprod.py:707-712 | With a `username` key: the caller's entry becomes `data['username']` whatever the `type`, and the outbox gains the stamped payload and then a user list of the new table. Without it: outcome `KeyError("username")`, table and outbox unchanged (cpreprod.py:567-572). |
| `Server.ChatServer.BroadcastUserList` | cprod.py:714-716 | Appends exactly one event, a snapshot of the current table, and changes nothing else (cpreprod.py:574-576). |
| `Events.DistinctNames` | cprod.py:715 | `list(set(values))`: the result has no duplicates and contains exactly the names in the table, in an unspecified order. |
| `Events.SnapshotBound` | cpreprod.py:574-576 | In a user list, the number of names is at most `count`, with equality iff no two sessions share a name. |
| `Events.DistinctCardinality` | cpreprod.py:575 | A duplicate-free list of names has as many distinct names as entries, so the list built from a set has the set's size. |
| `Events.Stamp` | cprod.py:710 | The relayed payload has the incoming keys plus `timestamp`. Every other key keeps its value, and `timestamp` is a well-formed `HH:MM` that reads back as the receive hour and minute, overwriting any client-supplied value. |
| `Events.StampSameMinute` | cpreprod.py:570 | The same payload received at two times is relayed identically iff the two times agree on hour and minute: two messages in the same minute get identical stamps, and different minutes never collide. |
| `Timestamp.FormatHHMM` | cprod.py:710 | `strftime('%H:%M')`: a 5-character string of two digits, a colon and two digits, with hour below 24 and minute below 60. |
| `Timestamp.ParseFormat` | cpreprod.py:570 | Reading a stamp back gives the hour and minute it was formatted from. |
| `Timestamp.FormatParse` | cprod.py:710 | Every well-formed `HH:MM` string is the stamp of the time it reads as. Formatting is therefore onto the well-formed stamps. |
| `Timestamp.FormatInjective` | cpreprod.py:570 | Two times format to the same stamp iff they have the same hour and minute. |
| `Registry.Next` | cprod.py:696-709 | One handler's effect on the table: a disconnect removes the caller's entry, and a register or message with a `username` sets it. A connect or a message without `username` leaves the table as it was. No other session's entry ever changes. |
| `Registry.UntouchedSessionKeepsEntry` | cpreprod.py:556-569 | A session none of whose events disconnect, register or message with a username keeps its entry, or its absence, whatever other sessions do. |
| `Registry.LastTouchDecides` | cprod.py:696-709 | After a session's last disconnect, register or message with a username, its entry is what that event left behind: none after a disconnect, otherwise the announced name. Later events of other sessions do not change it. This is last-write-wins and "no entry outlives its disconnect". |
| `Registry.MessageIdempotent` | cpreprod.py:569 | Handling the same message twice from one session leaves the table as handling it once. |
| `Registry.NamesBound` | cprod.py:715-716 | The distinct names number at most the sessions, with equality iff no two sessions share a name. |
| `Registry.NameAfterDisconnect` | cprod.py:698-700 | After a session is removed, a name is still in the table iff some other session holds it. |
| `Server.SingleNameList` | cprod.py:715-716 | A snapshot of a one-session table is exactly `{count: 1, users: [that session's name]}`. |
| `Server.TwoUsersScenario` | cpreprod.py:552-576 | A fresh server where A registers as Alice, B as Bob, A sends a text and B disconnects. The table ends as {A: Alice}, and the outbox holds exactly five events, in order: `{count: 1, users: ["Alice"]}`; `{count: 2}` listing both names in either order; the text stamped with the receive `HH:MM`; a user list of {A: Alice, B: Bob}; and `{count: 1, users: ["Alice"]}`. |
| `Server.PairNameList` | cprod.py:715-716 | A snapshot of a two-session table with different names has count 2 and lists both names, in either order. |
| `Server.EntryIsLastTouch` | cprod.py:696-709 | On a live server, a session's entry is what its last disconnect, register or message with a username left: absent after a disconnect, otherwise the announced name, whatever other sessions did afterwards (cpreprod.py:556-569). |
| `Server.NeverTouchedIsAbsent` | cpreprod.py:552-569 | On a live server, a session that has only connected, or has sent only messages without a username, has no entry (cprod.py:692-709). |
| `Server.ImageWithoutRegisterScenario` | cprod.py:707-712 | On a fresh server, an image message from a session that never registered is relayed and creates an entry for its sender, {A: Alice}. The outbox holds exactly the stamped image and then `{count: 1, users: ["Alice"]}`. |

## Left out

- The HTML, CSS and browser script served by `index()` (themes, local storage, notifications, sound, image paste and drop) are client UI, not server logic.
- `cstaging.py` and `webonly1.py` are not part of this model. Their only server logic is a stateless re-broadcast of each message.
- The Flask, Flask-SocketIO and eventlet setup is left out: monkey patching, the 10 MB buffer, the ping timeout, the bind port and the startup print. These are transport configuration.
- The transport itself is left out: framing, delivery to each client, reconnection and the assignment of `request.sid`. The session id is a parameter, and `emit(..., broadcast=True)` appends to `outbox`.
- Concurrency between green threads is left out. Each handler is one atomic step.
- The wall clock is a parameter. The handler receives an `Instant` (hour, minute, second) in place of calling `datetime.now()`, and the date and sub-second fields, which the stamp never shows, are not modelled.
- Server.ChatServer.HandleMessage: payload values are strings only, and the payload is always a key-value object. A non-string `username` (a list, say) is not modelled. In the code it would be stored, the message would go out, and then building the set of names would raise.
- Server.ChatServer.HandleMessage: `data['timestamp'] = ...` updates the decoded payload dictionary in place. The model builds the stamped payload as a new map value. Nothing else holds a reference to that dictionary, so no aliasing is lost.
- Server.ChatServer.HandleRegister: the registered name is a string. The code stores whatever JSON value the client sends.

# School chat: the client's synchronisation layer

A Dafny model of the logic inside the single-page school chat client
(`complete-school-chat.jsx`) that talks to its shared key/value storage
service. The model covers the account directory (sign-up and sign-in), the
shared presence list, the per-channel message logs, channel creation, logout,
and the rule that groups messages by author on screen.

The storage service is a `map<string, Value>`. Its three key families are:

- `user:<name>` holds an account record;
- `messages:<channel>` holds the channel's whole message list;
- `online-users` holds the presence list.

Which `get` and `set` calls throw is an explicit input (`Gateway.Faults`). A
`set` that throws leaves the stored value as it was. Each handler is a pure
function of the client state, the store, the faults and any clock readings.
A handler that can change both the client and the store returns the pair
(`Session.Step`); one that only reads returns the new client state
(`Accounts.SignIn`, `MessageLog.LoadMessages`, `Presence.LoadOnlineUsers`),
`Presence.MarkOffline` returns only the store, and `Channels.CreateChannel`
only the chat view.

The files follow the program's parts:

- `text.dfy`: `trim`, `toLowerCase` and `replace(/\s+/g, '-')`, with the
  ECMAScript white-space set.
- `records.dfy`: the stored record types and the key families.
- `gateway.dfy`: `get`/`set` with faults, and the well-typed store invariant.
- `session.dfy`: the client state, the built-in channels and the initial state.
- `accounts.dfy`: `handleContinue`, `handleSurveySubmit`, `handleSignIn` and
  `handleCreatePassword`.
- `presence.dfy`: `markUserOnline`, `markUserOffline` and `loadOnlineUsers`.
- `message_log.dfy`: `loadMessages` and `sendMessage`.
- `channels.dfy`: `createChannel`.
- `grouping.dfy`: the `showUser` and `showDate` rules of the message list.
- `lifecycle.dfy`: `handleLogout` with the chat effect's clean-up, and the
  store-shape invariant across handlers.

Two things the proofs make explicit that are easy to miss in the source:

- The client has no concurrency control. Two clients that read the same
  presence list or the same cached channel log and then write lose one
  update (`Presence.ConcurrentJoinsLoseFirst`,
  `MessageLog.StaleCacheLosesMessage`).
- Re-creating a channel whose id already has a history resets the local log.
  The next message sent there then overwrites the shared history
  (`Channels.RecreatedChannelOverwritesHistory`).

## Model

| member | source | states |
|---|---|---|
| Text.Trim | complete-school-chat.jsx:266 | the trimmed string is empty exactly when the input is all white space, and otherwise starts and ends with a non-space character |
| Text.BlankIsEmptyTrim | complete-school-chat.jsx:266 | a string is blank for the `!s.trim()` tests exactly when trimming it leaves nothing, i.e. when every character is white space |
| Text.TrimIgnoresPadding | complete-school-chat.jsx:132 | white space added before or after a string does not change what `trim` returns |
| Text.NormalizeIgnoresCaseAndPadding | complete-school-chat.jsx:95 | the account name `toLowerCase().trim()` ignores surrounding white space and ASCII letter case |
| Text.NormalizeIdempotent | complete-school-chat.jsx:156 | normalizing an already normalized name changes nothing |
| Text.ToLower | complete-school-chat.jsx:95 | the lower-cased string has the same length, each character lower-cased in place |
| Text.Normalize | complete-school-chat.jsx:95 | the account name is empty exactly for a blank name, is no longer than the name, and otherwise has no white space at either end |
| Text.DashRuns | complete-school-chat.jsx:296 | the slug has no white space, is no longer than the name, and is non-empty when the name is |
| Text.DashRunsKeepsWords | complete-school-chat.jsx:296 | a string without white space passes the replacement unchanged |
| Text.DashRunsCollapsesRun | complete-school-chat.jsx:296 | a whole run of white space, of any length, becomes a single hyphen |
| Text.DashRunsCopiesWordChar | complete-school-chat.jsx:296 | a non-space character is copied to the slug as it is |
| Text.DashRunsIdempotent | complete-school-chat.jsx:296 | slugging a slug changes nothing |
| Text.DashRunsKeepsLower | complete-school-chat.jsx:296 | the replacement keeps a lower-case string lower-case |
| Records.UserKey | complete-school-chat.jsx:95 | an account key is `user:` followed by the normalized name, so it always carries the account prefix |
| Records.MessagesKey | complete-school-chat.jsx:196 | a channel's log key is `messages:` followed by the channel id, so it always carries the messages prefix |
| Records.UserKeyInjective | complete-school-chat.jsx:95 | two names share an account key exactly when they normalize to the same string |
| Records.KeyFamiliesDisjoint | complete-school-chat.jsx:95-96 | account keys, message keys and the presence key never coincide |
| Session.InitialState | complete-school-chat.jsx:4-45 | the client mounts signed out with no notice, no cached logs and no online users, on `general`, the id of the first of the five built-in channels it lists, whose ids are distinct and equal to their names |
| Gateway.Get | complete-school-chat.jsx:96 | a read throws exactly for a faulty key; it returns nothing exactly for an absent key, and otherwise returns the stored value |
| Gateway.Set | complete-school-chat.jsx:177 | a write goes through exactly for a key whose write does not fail; it then stores the value, and it otherwise leaves the store unchanged |
| Gateway.SetKeepsWellTyped | complete-school-chat.jsx:177 | writing a record of the shape its key family holds keeps every key of the store holding its own shape |
| Accounts.Continue | complete-school-chat.jsx:118-129 | alerts exactly when a form field is empty; otherwise opens the school survey for "other" and the password step for any other school, and changes nothing else |
| Accounts.SurveySubmit | complete-school-chat.jsx:131-137 | alerts exactly when the typed school is blank, and otherwise moves on to the password step |
| Accounts.SignIn | complete-school-chat.jsx:86-116 | succeeds exactly when a non-empty name and password find a readable record holding that password, and then signs in as the stored account. An empty field is reported before any read; a read that throws, a missing record and a wrong password each map to their own notice. The forms and chat are never touched |
| Accounts.PasswordProblem | complete-school-chat.jsx:142-153 | the first broken rule, in order: empty field, fewer than 6 characters, mismatch; none exactly when all three hold |
| Accounts.CreateAccount | complete-school-chat.jsx:139-185 | a password problem is reported without touching the store. A readable existing record gives the duplicate notice. Creation succeeds exactly when the passwords pass, the existence check finds nothing or throws, and the write goes through. Success stores exactly one record, with the survey's school for "other", and signs that account in. A write that throws gives the "error creating account" notice. Every failure leaves the store and session as they were |
| Accounts.ShortPasswordNeverWrites | complete-school-chat.jsx:146-149 | a password under six characters never reaches the store |
| Accounts.SignInAfterCreate | complete-school-chat.jsx:95-113 | signing in after a successful sign-up, with any name that normalizes alike and the same password, returns the record sign-up wrote |
| Accounts.CreateTwiceIsDuplicate | complete-school-chat.jsx:156-163 | a second sign-up under a name that normalizes alike reports a duplicate and writes nothing |
| Accounts.FailedCheckOverwrites | complete-school-chat.jsx:158-166 | when the existence check throws, sign-up overwrites an existing account |
| Accounts.SignUpFlowRecordsSchool | complete-school-chat.jsx:118-175 | going through the sign-up screens in order stores a profile with every field filled, and a survey school is never blank |
| Presence.Without | complete-school-chat.jsx:257 | a name is kept exactly when it was listed and differs from the removed one |
| Presence.JoinList | complete-school-chat.jsx:240-243 | plans a write exactly when the read returned nothing or a list without the name; the plan is the read list with the name appended |
| Presence.CommitJoin | complete-school-chat.jsx:244-245 | stores the planned list and shows it locally only when the write goes through |
| Presence.MarkOnline | complete-school-chat.jsx:238-250 | the only write appends the user's name to the list read; a read or write that throws changes neither the store nor the local list; a write that goes through is shown locally as the written list; a listed name causes no write; a list without duplicates keeps none; with a readable, writable list the name ends up listed |
| Presence.MarkOffline | complete-school-chat.jsx:252-263 | when a list is stored, readable and writable, every occurrence of the name is removed and nothing else changes; otherwise the store is unchanged |
| Presence.LoadOnlineUsers | complete-school-chat.jsx:214-225 | a readable stored list is shown exactly as stored; a missing record or a read that throws shows only the user's own name, so the viewer is missing only from a readable list that leaves them out |
| Presence.NoDuplicatesSnoc | complete-school-chat.jsx:241-242 | appending a name that is not yet listed keeps the list free of duplicates |
| Presence.WithoutAppend | complete-school-chat.jsx:257 | filtering keeps the other names in their order |
| Presence.WithoutAbsent | complete-school-chat.jsx:257 | removing a name that is not listed changes nothing |
| Presence.WithoutKeepsNoDuplicates | complete-school-chat.jsx:257 | filtering keeps a list free of duplicates |
| Presence.JoinThenLeaveRestores | complete-school-chat.jsx:238-263 | going online then offline with no faults gives back the list as it was, for a user who was not listed |
| Presence.JoinThenLeaveAbsent | complete-school-chat.jsx:238-263 | going online then offline with no faults leaves the name absent |
| Presence.ConcurrentJoinsLoseFirst | complete-school-chat.jsx:239-245 | two users who read the same list and then write in turn: the first name is lost |
| Presence.ConcurrentSameJoinListsOnce | complete-school-chat.jsx:239-245 | two sessions of one user racing the same way list the name once |
| Presence.LoadAfterJoinShowsViewer | complete-school-chat.jsx:214-250 | after going online with no faults, loading the presence list shows the viewer |
| MessageLog.LoadAll | complete-school-chat.jsx:194-202 | yields logs exactly when every channel's read succeeds; the logs then cover exactly the known channels, each one the stored log, and empty for a missing record |
| MessageLog.EmptyLogs | complete-school-chat.jsx:205-209 | every known channel, each with an empty log |
| MessageLog.LoadMessages | complete-school-chat.jsx:192-212 | replaces the cached logs with the logs of exactly the known channels: each one's stored log, or all empty once one read fails |
| MessageLog.SendMessage | complete-school-chat.jsx:265-291 | blank input does nothing. Otherwise the active channel's cached log gains the message and the input is cleared. The channel's stored record becomes the cached log, unless the write throws |
| MessageLog.SendTouchesOneChannel | complete-school-chat.jsx:275-284 | no other channel's cached log and no other stored record changes |
| MessageLog.SendDraftAppends | complete-school-chat.jsx:265-291 | sending appends exactly that message to the cached log; the stored record becomes that log when the write goes through and is kept when it throws |
| MessageLog.SendAllAppends | complete-school-chat.jsx:265-291 | after N sends the cached log is the old one followed by the N messages in sending order |
| MessageLog.SendAllStores | complete-school-chat.jsx:275-286 | when the channel's writes go through, the stored record after a run of sends is the sender's whole cached log: the old log followed by every message sent, in order |
| MessageLog.SentLogLoadsBack | complete-school-chat.jsx:192-202 | a log written by sending is loaded back by another client exactly as the sender's cached log |
| MessageLog.FailedWriteDiverges | complete-school-chat.jsx:279-290 | a failed write leaves the store as it was while the sender sees the message and an empty input |
| MessageLog.NextSendHeals | complete-school-chat.jsx:275-286 | the next successful write also stores the message whose write had failed |
| MessageLog.StaleCacheLosesMessage | complete-school-chat.jsx:275-286 | two clients sending on the same cached log: the first message is lost from the store though its sender sees it |
| Channels.ChannelId | complete-school-chat.jsx:296 | the channel id has no white space and is non-empty for a non-empty name |
| Channels.CreateChannel | complete-school-chat.jsx:293-311 | a blank name does nothing. Otherwise the channel is appended, its cached log reset to empty, the form closed and the channel made active; messages input and presence are kept |
| Channels.CreateChannelAddsOne | complete-school-chat.jsx:298-305 | the list grows by exactly one entry, the ids gain the new id, and its log is empty |
| Channels.ChannelIdIdempotent | complete-school-chat.jsx:296 | naming a channel after an existing id gives that id back |
| Channels.ChannelIdOfSlug | complete-school-chat.jsx:296 | a lower-case name without white space is its own id |
| Channels.CreateTwiceListsTwice | complete-school-chat.jsx:303 | creating the same name twice lists the channel twice |
| Channels.SendIntoEmptyLog | complete-school-chat.jsx:275-286 | sending into a channel with an empty cached log stores a log holding just that message |
| Channels.RecreatedChannelOverwritesHistory | complete-school-chat.jsx:304-307 | after re-creating a channel, the next message replaces its whole stored history |
| Grouping.Groups | complete-school-chat.jsx:703-708 | the author blocks concatenate back to the log; they are non-empty, each is one author's burst with gaps of at most 300000 ms, and no two neighbouring blocks could be merged |
| Grouping.CutIsUnique | complete-school-chat.jsx:706-708 | any cut of the log with those properties is exactly the blocks on screen |
| Grouping.StartsGroup | complete-school-chat.jsx:706-708 | the `showUser` rule: the first message, a change of author, or a gap of more than 300000 ms opens an author line |
| Grouping.StartsDay | complete-school-chat.jsx:704-705 | the `showDate` rule: the first message, or a date label different from the previous message's, opens a date marker |
| Grouping.StartsGroupIffBreak | complete-school-chat.jsx:706-708 | the `showUser` rule holds exactly where a message does not continue the one before it, the rule the blocks are cut by |
| Grouping.GapThreshold | complete-school-chat.jsx:708 | the same author exactly 300000 ms later stays in the block; 300001 ms later starts a new one |
| Grouping.OutOfOrderStaysGrouped | complete-school-chat.jsx:706-708 | a same-author message timestamped earlier than the one before it never starts a block |
| Grouping.DayBreakInsideGroup | complete-school-chat.jsx:704-708 | a message can open a new day without opening a new author block |
| Grouping.BurstIsOneGroup | complete-school-chat.jsx:706-708 | a same-author burst with small gaps forms one block |
| Grouping.GroupsSnocBreak | complete-school-chat.jsx:706-708 | a message that does not continue the previous one opens its own block |
| Grouping.GroupsSnocJoin | complete-school-chat.jsx:706-708 | a message that continues the previous one joins the last block |
| Lifecycle.Logout | complete-school-chat.jsx:333-344 | signs out and clears the forms except the typed school, keeps the chat view, and changes no record except the presence list. A list that cannot be read or rewritten stays exactly as it was; otherwise the filtered list, empty or not, is written back in place, so the signed-in user's name is gone and the other names keep their order |
| Lifecycle.OnlineThenLogoutAbsent | complete-school-chat.jsx:61-72 | going online and then logging out with no faults leaves the user off the list and everyone else on it |
| Lifecycle.LogoutTwiceWritesOnce | complete-school-chat.jsx:333-344 | a second logout changes nothing |
| Lifecycle.CreateAccountKeepsWellTyped | complete-school-chat.jsx:177 | account creation keeps every key family holding its own record shape |
| Lifecycle.MarkOnlineKeepsWellTyped | complete-school-chat.jsx:244 | going online keeps every key family holding its own record shape |
| Lifecycle.LogoutKeepsWellTyped | complete-school-chat.jsx:258 | logging out keeps every key family holding its own record shape |
| Lifecycle.SendMessageKeepsWellTyped | complete-school-chat.jsx:285 | sending keeps every key family holding its own record shape |
| Lifecycle.WellTypedLogoutThenLoad | complete-school-chat.jsx:214-225 | in a well-typed store, after a logout no other viewer loading the list sees the user who left |

## Left out

- The JSX markup, inline styles, hover handlers, `scrollToBottom` and the CSS animations: presentation only.
- The returning-user slide timers (lines 48-58): presentational timing only.
- `formatTime` and `formatDate`: they depend on locale and time zone. The day marker takes the date label as an abstract `dayOf` function.
- JSON encoding: records are stored as datatypes, so `JSON.stringify` and `JSON.parse` are taken to round-trip.
- `Date.now()` and `new Date().toISOString()`: the message id, the message time and the account creation time are parameters. Message times are milliseconds, so the ISO string and its `new Date` parse are not modelled.
- The storage service itself: it is a foreign API, so only the results of its `get` and `set` calls are modelled, through `Gateway.Faults`.
- Interleavings of concurrent handlers: each handler runs to completion. Races between clients are shown by running one client's read and write around another's. The session-start effect fires `loadMessages`, `loadOnlineUsers`, `loadDMs` and `markUserOnline` without waiting, and each of these is modelled on its own.
- `loadDMs` and the direct-message view: a read-only fetch with no logic.
- `handleInputChange` and the other setters bound to input fields: each one sets a single field.
- Text.LowerChar: lower-cases the ASCII letters only. JavaScript's `toLowerCase` also maps other Unicode letters.
- Accounts.PasswordProblem: counts the password's length in characters (code points). JavaScript counts UTF-16 code units, so passwords with characters outside the Basic Multilingual Plane differ.
- Presence.LoadOnlineUsers: a presence record that is not a list shows only the user's own name. JavaScript would show whatever the record holds. Only another program can write such a record, and `Lifecycle` proves the handlers keep every record in its shape.
- Presence.MarkOnline: a presence record that is not a list is left alone. In JavaScript a stored message array would get the name pushed onto it and be written back, and an account object would make `includes` throw. Only another program can write such a record.
- MessageLog.LoadAll: a channel record that is not a message list counts as a failed read, for the same reason.
- The `shared` flag of `get` and `set`: one map holds every key. Each key family always uses the same flag (messages and presence are shared at lines 196, 216, 240, 244, 254, 258 and 285; accounts are not at lines 96, 159 and 177), so no key is ever read or written under both scopes.

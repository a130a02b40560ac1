# RapidChat chat state, in Dafny

RapidChat is a small chat server: a REST API for accounts (register, login,
profile, logout) and a socket.io channel over which clients authenticate,
send messages, rename themselves and signal typing. All of its state lives
in memory: the registry of connected sockets (`users`), the credential store
(`registeredUsers`), in one variant a token table (`loginUsers`), and the
message log (`messages`), which starts with a welcome entry and keeps the
latest 100 messages.

The repository holds two drafts of that server, and both are modelled:

- `SrcChat` (src/index.ts). Sockets get a registry entry only once they
  authenticate with a token issued by `/login`. A rename is pushed into the
  store and login records. The register guards and the login wrong-password
  guard send their 400 but do not stop the handler.
- `DistChat` (dist/index.js). Every socket gets an anonymous entry on
  connect. Authenticating with a JSON web token overwrites that entry in
  place. The REST guards return. The module also holds the
  `authenticateToken` middleware.

Each variant is a `ChatState` class whose fields are the server's maps and
log. The maps become Dafny `map`s, and the array the handlers `push` and
`shift` becomes a `seq` field that the methods reassign. Each socket or REST
handler is one method. A socket is named by a `ConnId` that `Connect`
allocates. Registry entries are objects (`class User`) in both variants, and
a logged message holds its author object itself. In src the store records are
objects too (`class RegisteredUser`), because the handlers write to them after
registration. In dist nothing writes a record after registration, so records
there are `Account` values. So the aliasing in the source is in the model too:

- renaming a socket's entry, or authenticating over it, changes the author
  shown on its earlier messages;
- in src, a store record and its login record are the same object.

A handler's output is the list of events it emits (`ToSender` for the
socket, `ToAll` for every socket) or the HTTP response it sends. Where a
handler sends nothing, the response is `None`.

Shared pieces:

- `Text`: JavaScript `trim` and one-character `split` over `seq<char>`.
- `Validation`: the message and name checks on trimmed text.
- `MessageLog`: the 100-entry window.
- `Http`: request fields that may be `undefined`, and response bodies.
- `SrcScenarios` and `DistScenarios`: runs of the handlers from a fresh state.
  Their contracts show the behaviours above end to end.

Choices that follow the code:

- src register and login. Express throws when a second response is sent on
  a request that already has one, so that ends the handler. `bcrypt` with an
  absent password rejects, which also ends it. So a duplicate registration
  is answered with 'User already exists' and still replaces the stored
  record. A wrong password is answered with 'Invalid email or password' and
  still records the minted token, which is never sent to the caller.
- src client-auth with an unknown token calls `socket.disconnect()`. On the
  server that runs the socket's 'disconnect' handler at once, so the model's
  `ClientAuth` calls `Disconnect`: the socket is closed and any entry it had
  is removed.
- `trim` removes the full ECMAScript whitespace and line-terminator set.

## Model

| member | source | states |
|---|---|---|
| Text.Trim | src/index.ts:154 | the result has no whitespace at either end and is `s` minus a run of whitespace before and a run after |
| Text.TrimOfTrimmed | src/index.ts:172 | a string with no surrounding whitespace trims to itself |
| Text.TrimAllSpace | src/index.ts:154 | a string trims to empty exactly when it is all whitespace |
| Text.TrimIdempotent | src/index.ts:172 | trimming twice is trimming once |
| Text.Split | dist/index.js:38 | `split(' ')` gives at least one piece, no piece contains the separator, and joining the pieces gives the input back |
| Text.SplitJoin | dist/index.js:38 | splitting pieces joined with the separator gives those pieces back, one for one |
| Text.SplitWithout | dist/index.js:38 | a string without the separator splits into itself alone |
| Text.SplitPrefix | dist/index.js:38 | a separator-free prefix followed by the separator becomes the first piece |
| Validation.CheckMessage | src/index.ts:154-162 | a message is accepted iff its trimmed length is 1..100; a whitespace-only body gets the 'empty' error, any other rejected body the 'longer than 100' error |
| Validation.CheckName | src/index.ts:186-194 | a name is accepted iff its trimmed length is 1..10, with the 'empty' / 'longer than 10' errors likewise |
| Http.RegisterReply | src/index.ts:71-89 | 201 echoing the name iff email, password and name are all non-empty and the email is new; otherwise 400: 'Email, password, and name are required' when any field is missing, and 'User already exists' exactly when all are present and the email is taken |
| MessageLog.Window | src/index.ts:177-180 | the window holds the latest min(n, 100) entries of the history, in order |
| MessageLog.Append | src/index.ts:177-180 | one push and shift: the log grows by one entry until it holds 100, then stays at 100 |
| MessageLog.AppendEvictsOldest | src/index.ts:177-180 | one push and shift keeps a log of at most 100 within 1..100 and removes exactly the oldest entry when it was full |
| MessageLog.WindowOfWindow | src/index.ts:177-180 | trimming the history to the window before a send changes nothing |
| MessageLog.AppendAllWindow | src/index.ts:177-180 | after any sequence of sends the log is the latest 100 messages of everything that arrived, in arrival order |
| MessageLog.OverflowByOne | src/index.ts:177-180 | the welcome entry plus 101 sends leaves 100 entries, the first being the second message sent |
| SrcChat.ChatState.constructor | src/index.ts:33-36 | empty maps and a log holding only the welcome entry 'Welcome to RapidChat' with id '666' by 'RapidChat' |
| SrcChat.ChatState.Connect | src/index.ts:232 | a new open socket with no registry entry, sent the whole log; nothing else changes |
| SrcChat.ChatState.Disconnect | src/index.ts:234-238 | exactly that socket and its entry go (none is a no-op); the stores and log are unchanged |
| SrcChat.ChatState.ClientAuth | src/index.ts:137-151 | a known token gives the socket a fresh entry copying the login record's id, name and email, plus 'auth-success'; an unknown token gets 'auth-error' and the socket is disconnected, removing its entry |
| SrcChat.ChatState.ClientMessageSent | src/index.ts:153-183 | a rejected body gets its error and changes nothing; no entry gets 'User not found.'; otherwise the log becomes `Append(old log, (trimmed body, id, the sender's entry))` and that item is broadcast |
| SrcChat.ChatState.SyncStoreName | src/index.ts:204-212 | the store record for the email and the login record under its token take the name; every other field and every entry is unchanged |
| SrcChat.ChatState.ClientNameSent | src/index.ts:185-216 | a rejected name or missing entry changes no object; otherwise the entry, its store record and login record take the untrimmed name, the name is broadcast, other entries are unchanged, and exactly the messages that entry authored show the new name |
| SrcChat.ChatState.UserTyped | src/index.ts:218-223 | broadcasts the sender's entry if it has one, otherwise nothing |
| SrcChat.ChatState.UserStopTyped | src/index.ts:225-230 | likewise for 'user-stop-typing' |
| SrcChat.ChatState.Register | src/index.ts:68-90 | the response is `RegisterReply`; the store gets a fresh record under the email exactly when the password is present and the request is not both incomplete and a duplicate, replacing any previous record; otherwise the store is unchanged |
| SrcChat.ChatState.Login | src/index.ts:92-115 | an unknown email gets the generic error and changes nothing; an absent password ends with no response; otherwise the record's token is set and mapped in `loginUsers` whatever the password, and only a valid password gets 200 with the token and name |
| SrcChat.ChatState.Profile | src/index.ts:117-125 | a known token gets the login record's current name; an unknown one gets no response |
| SrcChat.ChatState.Logout | src/index.ts:127-131 | removes exactly that token from `loginUsers`; nothing else changes, and no response is sent |
| SrcScenarios.DuplicateRegistration | src/index.ts:71-86 | the second registration of an email is answered 'User already exists' yet its record replaces the first |
| SrcScenarios.WrongPasswordToken | src/index.ts:102-123 | a login with a wrong password is refused and its token is never delivered, but the token it minted is recorded, so /profile answers for that string |
| SrcScenarios.SignedInSocket | src/index.ts:137-145 | register, login and client-auth leave the socket with an entry holding the account's name and email |
| SrcScenarios.SentMessage | src/index.ts:171-177 | the logged message's author is the socket's entry object itself |
| SrcScenarios.RenameAfterSend | src/index.ts:202-212 | after a rename, the earlier message shows the new name and /profile reports it |
| SrcScenarios.AnonymousSend | src/index.ts:164-169 | a socket that never authenticated cannot post: 'User not found.' and the log keeps one entry |
| SrcScenarios.BadTokenCloses | src/index.ts:146-150 | an unknown token closes the socket and removes the entry an earlier good token gave it |
| DistChat.BearerToken | dist/index.js:37-38 | the token taken from the header is non-empty and contains no space |
| DistChat.BearerTokenOfFields | dist/index.js:38 | for any header, the token is its second space-separated field when that exists and is non-empty, otherwise there is none |
| DistChat.BearerTokenOfScheme | dist/index.js:38 | `"<scheme> <token>"` yields the token |
| DistChat.BearerTokenWithoutSpace | dist/index.js:38-39 | a header without a space yields no token |
| DistChat.AuthenticateToken | dist/index.js:36-51 | `next` is called iff there is a token and it verifies, with the verified claims; no token gives exactly 401 'Access Denied', a token that does not verify exactly 403 'Invalid Token' |
| DistChat.ChatState.constructor | dist/index.js:14-16 | empty maps and a log holding only the welcome entry |
| DistChat.ChatState.Connect | dist/index.js:88-163 | the new socket gets a fresh entry named 'anonym' (:91) and is sent the whole log (:163); no other entry changes |
| DistChat.ChatState.Disconnect | dist/index.js:164-168 | exactly that socket and its entry go; nothing else changes |
| DistChat.ChatState.ClientAuth | dist/index.js:92-106 | a verified token overwrites id and name of the existing entry in place (no-op without one), so messages by that entry show them; a rejected token gets 'Authentication failed', changes nothing, and the socket stays open |
| DistChat.ChatState.ClientMessageSent | dist/index.js:107-132 | as in src: errors change nothing; an accepted body is logged trimmed with the sender's entry through `Append` and broadcast, and since every open socket has an entry, an accepted body from any open socket, authenticated or not, is broadcast |
| DistChat.ChatState.ClientNameSent | dist/index.js:133-150 | a rejected name or missing entry changes nothing; otherwise only the sender's entry takes the untrimmed name, the store is untouched, and exactly the messages that entry authored show it |
| DistChat.ChatState.UserTyped | dist/index.js:151-156 | broadcasts the sender's entry if it has one |
| DistChat.ChatState.UserStopTyped | dist/index.js:157-162 | likewise for 'user-stop-typing' |
| DistChat.ChatState.Register | dist/index.js:52-71 | the response is `RegisterReply`; a 201 inserts exactly one record under the email, and any other answer leaves the store unchanged |
| DistChat.ChatState.Login | dist/index.js:72-87 | 200 with the token and stored name iff the email is known and the password present and valid; every other answer is the same 'Invalid email or password', except an absent password, which gets no response |
| DistScenarios.AnonymousSend | dist/index.js:116-130 | a never-authenticated socket posts as 'anonym' |
| DistScenarios.AuthRewritesHistory | dist/index.js:99-102 | authenticating after posting rewrites the author of the earlier message; the welcome entry is untouched |
| DistScenarios.RejectedTokenKeepsSocket | dist/index.js:93-97 | a token that does not verify gets 'Authentication failed' and the socket stays open and anonymous |
| DistScenarios.DuplicateRegistration | dist/index.js:58-61 | a second registration of an email is refused and the first record stays |
| DistScenarios.LoginAnswers | dist/index.js:74-86 | unknown email and wrong password get identical answers; the right password gets the token and name |
| DistScenarios.BearerHeaders | dist/index.js:36-50 | `Bearer <valid>` passes with its claims, `Bearer <invalid>` gets 403, a header without a space gets 401 |

## Findings

| source | as written | input that shows it | evidently intended | confidence | as-written member | corrected member |
|---|---|---|---|---|---|---|
| src/index.ts:75-81 | the 'User already exists' guard sends a 400 but does not return, so the record is still written | register a@x.com as Ann, then again as Bob: the second reply is 400, yet the stored record is Bob's | return after the 400, leaving the first record, as dist/index.js:58-61 does | high; not executed | SrcScenarios.DuplicateRegistration | DistChat.ChatState.Register |
| src/index.ts:103-111 | the wrong-password guard sends a 400 but does not return, so a token is minted and recorded in `loginUsers`, though never delivered (the later `res.json` throws) | register Ann, log in with a wrong password: the reply is 400, yet /profile answers 200 for the minted token to anyone who holds that string | return after the 400 and issue no token, as dist/index.js:80-83 does | high; not executed | SrcScenarios.WrongPasswordToken | DistChat.ChatState.Login |

## Left out

- src/app.ts is not part of this model: it only starts the server and echoes messages to the console.
- Transport: Express routing, CORS, socket.io delivery and `server.listen` are left out. Emits are returned as event lists, responses as values.
- Logging through winston and the console, and the `process.on` fault handlers.
- `uuid` v1 ids are parameters (`userId`, `messageId`, `welcomeUserId`) and are not required to be unique.
- bcrypt is left out. `Register` takes the hash as a parameter and `Login` takes the comparison result (`passwordValid`).
- jwt is left out. `Login` takes the signed token as a parameter, and the dist handlers take `verify` as a function from token to claims. So the model does not connect the tokens `Login` signs to the ones `verify` accepts, nor model the one-hour expiry, which depends on the clock.
- `async` handlers are taken as one atomic step each, with no interleaving of events.
- Payloads that are not strings are not modelled: a non-string socket message or name, which the handlers reject as empty, and non-string JSON body fields.
- String length is the number of Unicode scalar values, where JavaScript counts UTF-16 code units. A character outside the Basic Multilingual Plane counts 1 here and 2 there.
- Uncaught errors after a response has been sent are modelled only as the handler stopping. What Express and Node do with the error is not.
- SrcChat.ChatState.Login: when the password is absent the handler's promise rejects and no response is sent. The model returns `None` and does not model the client's request being left pending.

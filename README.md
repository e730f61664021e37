# Chat server socket core, modelled in Dafny

This project models the real-time part of the chat server in
`backend/server.js`. That part has three pieces:

- **The handshake gate** is the `io.use` callback. A handshake token is
  either admitted, and the decoded JWT payload becomes the socket's user, or
  refused with one of four reason strings.
- **The connection handler** drops a socket that arrives without a user. For
  every other socket it registers the `msg:post` and `msg:load` handlers.
- **The two event handlers.** `msg:post` stores the message, then emits
  `msg:get { message: [m] }` to the receiver's first live socket and then to
  the sender. `msg:load` emits the loaded history to the requester only.

Modules:

- `Wrappers` (`wrappers.dfy`): `Option`. It stands for a JavaScript value
  that may be `undefined`, or for a promise that may reject.
- `Fields` (`fields.dfy`): `String.prototype.split` on a one-character
  separator, and `Join`, its inverse.
- `Gate` (`gate.dfy`): the admission decision as a pure function,
  `Authenticate`.
- `Chat` (`chat.dfy`): the class `Server`. Its state is
  - `sockets`: the live sockets in iteration order, which is connection order;
  - `listening`: the sockets that have handlers attached;
  - `outbox`: every emit so far.

  The module also holds the pure receiver search `FirstMatch` and the
  specification function `PostEmits`.
- `Scenario` (`scenario.dfy`): a client that reasons only from the
  contracts. Two users exchange a message, one leaves, and an expired token
  is refused.

The four library calls are parameters of the model:

- `jwt.verify` under the server secret is a function `string -> Verdict`.
  It returns a payload, returns a falsy value, or throws an error with a
  given name.
- `sendMessage` and `getMessages` are functions that return
  `Option<M>` / `Option<seq<M>>`. `None` means the awaited promise rejected.
- `Date.now()` is the parameter `now`, in milliseconds.

Points about the code that the model makes explicit:

- The code has no username-keyed registry, so there is no last-writer-wins
  rule. The receiver is the first socket of that user in iteration order. `OldestSessionReceives`
  shows that this is the user's oldest live session, and `FirstMatchStable`
  shows that a later session does not take over.
- The code does not guard persistence failure explicitly, but the `await`
  on `sendMessage` gives the same result: a rejection aborts the handler
  before either emit.
- There is no error reply when loading history fails: a rejected
  `getMessages` emits nothing, and so does `Load`.
- A payload without `exp` is admitted. In JavaScript `undefined * 1000` is
  `NaN`, and `now >= NaN` is false. `Payload.exp` is therefore an `Option`.

## Model

| member | source | states |
|---|---|---|
| `Fields.Split` | backend/server.js:63 | `split(" ")` always yields at least one field; no field contains the separator; the first field is the longest separator-free prefix |
| `Fields.JoinSplit` | backend/server.js:63 | joining the fields of a split with the separator gives the original token back |
| `Fields.SplitJoin` | backend/server.js:63 | splitting a join of separator-free fields gives the fields back (the other half of the round trip) |
| `Gate.Credential` | backend/server.js:63 | the string handed to the verifier is the text after the `"Bearer "` space, up to the next space or the end of the token |
| `Gate.CredentialOfWord` | backend/server.js:63 | for any space-free word followed by a space or by nothing, the verifier is given exactly that word, whatever follows |
| `Gate.CredentialStopsAtSpace` | backend/server.js:63 | `"Bearer abc def"` is verified as `"abc"` |
| `Gate.CredentialOfBareScheme` | backend/server.js:63 | `"Bearer "` is verified as `""` |
| `Gate.CredentialOfDoubleSpace` | backend/server.js:63 | `"Bearer  abc"` (two spaces) is verified as `""` |
| `Gate.Authenticate` | backend/server.js:56-83 | admission iff the token is a truthy `"Bearer "` string, the verifier returns a payload and `now < exp*1000` (or `exp` is absent), with that payload as the user; `"Authentication required"` iff there is no bearer token or the payload is falsy; `"Token expired"` iff the verifier throws `TokenExpiredError`; `"Invalid or expired token"` iff it throws anything else; `"Token expired. Please log in again."` iff the payload's `exp*1000 <= now` |
| `Gate.VerifierNotConsulted` | backend/server.js:57-60 | without a bearer token the result is `"Authentication required"` whatever the verifier would say |
| `Gate.OnlyCredentialConsulted` | backend/server.js:62-63 | two verifiers that agree on the credential field yield the same decision |
| `Gate.ExplicitExpiryRedundant` | backend/server.js:62-75 | if the verifier's own expiry rule (`floor(now/1000) < exp`) held on the same clock reading, the explicit `exp*1000` test never refuses the payload |
| `Chat.FirstMatch` | backend/server.js:115-117 | the receiver lookup returns the first socket in iteration order whose user has that username, skipping sockets without a user; it returns none iff no socket matches |
| `Chat.PostEmits` | backend/server.js:115-131 | a successful post emits one or two events, all `msg:get` with the single-element payload `[m]`; the last one goes to the sender; there are two iff some live socket belongs to the receiver, and then the first goes to the first such socket |
| `Chat.PostDeliveryCounts` | backend/server.js:115-131 | each live socket other than the sender gets exactly one copy if it is the receiver's first socket and none otherwise; the sender gets one echo, plus a copy when it is that socket itself |
| `Chat.OldestSessionReceives` | backend/server.js:115-117 | when a user has several live sockets, the earliest-connected one is the receiver |
| `Chat.FirstMatchStable` | backend/server.js:115-117 | a socket that connects later does not change the receiver lookup for a user who already has a live socket |
| `Chat.Without` | backend/server.js:115 | a disconnect (Socket.IO's removal on disconnect) takes exactly the sockets with that id out of the collection and keeps every other socket |
| `Chat.WithoutAbsent` | backend/server.js:115 | disconnecting (Socket.IO's removal on disconnect) a socket that is not in the collection changes nothing |
| `Chat.WithoutIdempotent` | backend/server.js:115 | Socket.IO's removal on disconnect, done twice, leaves the same collection as done once |
| `Chat.WithoutKeepsOrder` | backend/server.js:115 | after Socket.IO's removal on disconnect, the remaining sockets are still in connection order |
| `Chat.Server.Connect` | backend/server.js:85-92 | a socket without a user is disconnected at once: the collection is unchanged and no handlers are attached; otherwise it is appended to the collection and its handlers are attached; nothing is emitted |
| `Chat.Server.Handshake` | backend/server.js:56-90 | the decision is `Authenticate`'s; a refused attempt leaves the collection and handlers unchanged; an admitted one adds one new socket carrying the decoded payload |
| `Chat.Server.Disconnect` | backend/server.js:115 | Socket.IO's removal on disconnect: the socket leaves the collection read by the lookup and the handler set; the source's own disconnect handlers only log, so nothing is emitted |
| `Chat.Server.Post` | backend/server.js:106-132 | if `sendMessage` rejects, nothing is emitted; otherwise the outbox grows by exactly `PostEmits` over the snapshot of live sockets |
| `Chat.Server.Load` | backend/server.js:134-138 | if `getMessages` rejects, nothing is emitted; otherwise exactly one `msg:load` carrying its result goes to the requester |
| `Scenario.Decisions` | backend/server.js:56-83 | with a verifier that knows alice's and bob's tokens, both are admitted with their payloads, and a token the verifier reports expired is refused with `"Token expired"` |

## Left out

- Express setup, static files, the `/signup` and `/login` routes with their
  validation chains, CORS, the error handler and `server.listen`
  (`backend/server.js:14-53`, `141-147`): HTTP framework wiring.
- `backend/auth/user.js`, `backend/middleware/*.js`, `backend/config/db.js`
  and `backend/index.js`: thin wrappers over the database, bcrypt, JWT and
  express-validator, plus environment loading. `backend/auth/auth.js` and
  `backend/chat/chat.js` are not part of this model.
- JWT signature checking, the secret, and the behaviour of `sendMessage` and
  `getMessages` beyond resolving or rejecting: these are abstract
  parameters. The stored message type is a type parameter `M`, and the
  loaded history is taken to be a sequence of `M`.
- Socket transport. The `disconnect` handlers only log. `Disconnect` and
  `Without` model Socket.IO's own removal of a closed socket from
  `io.sockets.sockets`, the collection read at `backend/server.js:115`. `socket.disconnect(true)`
  in the guard is modelled as the same removal.
- Concurrency and async interleaving: each event runs to completion, one at a
  time. The model does not cover a socket that disconnects while its
  `sendMessage` is in flight.
- All `console` output.
- `Gate.Authenticate`: the assignment `socket.user = decoded` happens before
  the expiry test. This is not modelled separately, because a refused socket
  never reaches the connection handler.
- `Gate.Authenticate`: non-string tokens, a truthy non-object payload (a
  string JWT payload), and a fractional `exp` are not modelled. The token
  is a string or absent, and `exp` is an integer or absent.
- `Gate.Payload`: its `username` is always a string. A payload with no
  `username`, or a non-string one, cannot be represented; in the code such
  a socket would never match a string receiver name at line 116. Tokens are
  signed by this application's own login from a database row
  (`backend/auth/user.js:26`, `67`), so they carry a string username.
- `Chat.Server.Post`: `data.receiverUsername` is taken to be a string. If it
  were `undefined`, `s.user?.username === undefined` could match a socket
  without a user.

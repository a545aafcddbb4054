# Chat client state model

A Dafny model of the state-keeping core of a browser chat client (a Next.js
front end over a REST API and a socket.io event channel):

- **Chat window** (`chat.dfy`, module `Chat`): the list of messages of one
  conversation and the rules that change it. The list is seeded from the
  history request, then changed by the live events `new_message`,
  `message_edited` and `message_deleted`, and by the local edit, delete and
  send handlers. The pure list transforms (`AddMessage`, `Rewrite`,
  `RemoveMessage`) carry the properties; the class `ChatWindow` holds the
  component's fields (`messages`, `loading`, `error`, `input`, `sending`,
  `editingId`) and its methods change them by calling those transforms.
- **Contacts sidebar** (`contacts.dfy`, module `Contacts`): the contact list,
  the pending requests flattened to contact entries, accept and reject with
  the `actionLoading` mark, and the `contacts_updated` refresh toggle.
- **Socket acquisition** (`socket.dfy`, module `Channel`): the module-level
  `socket` singleton of `getSocket`, with the socket abstracted to its
  credential, its `connected` flag, the number of `connect()` calls issued
  and the names of its listeners.
- **Route guard** (`middleware.dfy`, module `Middleware`): the redirect
  decision on the `authToken` cookie and the path.

Shared pieces: `wrappers.dfy` (an `Option`), `lists.dfy` (removal by key, as
`filter((x) => x.id !== id)`, with its order and multiplicity lemmas),
`text.dfy` (JavaScript `trim` and blankness), `payload.dfy` (the response body
shapes, the `field || data || []` fallback chain, request outcomes and the
`err.response?.data?.message || fallback` error text).

Requests to the server, cookies and local storage become parameters: a
request's outcome is an `Ack` (accepted, or refused with the server's message)
or a `Reply` carrying the response body; the cookie is an `Option<string>`.
Asynchronous handlers that keep a flag while they wait (`handleSend` with
`sending`, `handleAccept`/`handleReject` with `actionLoading`, the three fetch
effects with their loading flags) are split into a begin and a complete
method, so that live events can be interleaved between the two and the flag is
visible in flight. `handleEdit` and `handleDelete` keep no flag and are
modelled as one step.

The code has no cancellation of a stale history response and no buffering of
live events that arrive during the history request: a completed history
request replaces the list wholesale, as `CompleteHistoryFetch` states. The page
keeps one chat window and only changes its `contact` property when another
contact is picked (`SelectContact`). The previous conversation's messages stay
until the new history arrives, and for good if that request fails
(`SwitchThenHistoryFails`); a late response for the previous contact replaces
the new one's list. The edited id and the input carry over whatever the
request does, since the history callback never touches them. The error is
cleared when the new request starts (`BeginHistoryFetch`). The
socket's credential is overwritten on every reuse, not only when it changed,
and the socket is never torn down. Seeding does not de-duplicate or filter by
pair, so `ChatWindow.Consistent` (distinct ids, only this pair's messages) is
preserved by every live event and local handler, not established by seeding
or by a contact switch.

## Model

| member | source | states |
|---|---|---|
| Chat.NormaliseHistory | src/app/chat/components/ChatWindow.tsx:43-46 | A bare array seeds as it is; an object seeds from its `messages` array (or `[]`, corrected); another falsy body gives `[]`; a null body is the error path; the `isArray` shortcut agrees with the chain alone |
| Chat.HistoryObjectWithoutMessages | src/app/chat/components/ChatWindow.tsx:43-45 | For the body `{}` the written chain (`Payload.Unwrap`, `isArray` being false) stores the object whole, while the corrected reading gives `[]` |
| Chat.HistoryFramingsAgree | src/app/chat/components/ChatWindow.tsx:42-46 | `[m1, m2]` and `{messages: [m1, m2]}` seed the same list |
| Chat.AddMessage | src/app/chat/components/ChatWindow.tsx:61-73 | A message outside the username pair, or with an id already shown, leaves the list unchanged; otherwise it is appended at the end |
| Chat.AddKeepsInvariant | src/app/chat/components/ChatWindow.tsx:68-71 | Adding keeps ids pairwise distinct and membership within the pair, and the old list is a prefix of the new one |
| Chat.AddIdempotent | src/app/chat/components/ChatWindow.tsx:69 | Delivering the same message twice gives the list delivering it once gives |
| Chat.DeliveryOrderKept | src/app/chat/components/ChatWindow.tsx:70 | Fresh messages of the pair, delivered in some order, end up as `old + delivered` in that order: no sorting by id or timestamp |
| Chat.RedeliveryIsNoOp | src/app/chat/components/ChatWindow.tsx:69 | Re-delivering messages whose ids are all shown changes nothing |
| Chat.Rewrite | src/app/chat/components/ChatWindow.tsx:81-87 | Length, order, id, sender, receiver, status and createdAt are kept; only entries with the id get the new body, and the new stamp when one is given |
| Chat.RewriteAbsent | src/app/chat/components/ChatWindow.tsx:82-86 | An edit for an unknown id leaves the list identical |
| Chat.RewriteIdempotent | src/app/chat/components/ChatWindow.tsx:81-87 | Applying the same edit twice equals applying it once |
| Chat.LocalThenEventEdit | src/app/chat/components/ChatWindow.tsx:119-123 | The local edit followed by the `message_edited` event with the same body gives what the event alone gives |
| Chat.EventThenLocalEdit | src/app/chat/components/ChatWindow.tsx:118-123 | The `message_edited` event arriving before the local edit's rewrite, with the same body, gives what the event alone gives |
| Chat.RewriteKeepsInvariant | src/app/chat/components/ChatWindow.tsx:82-86 | Editing keeps ids distinct and membership within the pair |
| Chat.RemoveMessage | src/app/chat/components/ChatWindow.tsx:95 | No entry with the deleted id remains |
| Chat.RemoveExactly | src/app/chat/components/ChatWindow.tsx:136 | Delete keeps exactly the entries with another id, as often as before and in original order; an absent id is a no-op; deleting twice equals deleting once |
| Chat.RemoveKeepsInvariant | src/app/chat/components/ChatWindow.tsx:95 | Deleting keeps ids distinct and membership within the pair |
| Chat.SwitchLeavesForeignMessages | src/app/chat/components/ChatWindow.tsx:52 | A non-empty list of one pair holds no message of another contact's pair, so it is not consistent after a switch |
| Chat.CreateEditDeleteScenario | src/app/chat/components/ChatWindow.tsx:68-95 | Empty list, create, edit, delete gives `[m]`, `[m with new body and stamp]`, `[]` |
| Chat.ChatWindow.constructor | src/app/chat/components/ChatWindow.tsx:18-30 | Initial state: no messages, loading, no error, empty input, not sending, not editing |
| Chat.ChatWindow.SelectContact | src/app/chat/page.tsx:24 | Picking another contact changes only `contact`: messages, edited id, input and error carry over at that moment |
| Chat.ChatWindow.BeginHistoryFetch | src/app/chat/components/ChatWindow.tsx:34-36 | The request starts only when a username is known, raising `loading` and clearing `error` |
| Chat.ChatWindow.CompleteHistoryFetch | src/app/chat/components/ChatWindow.tsx:41-51 | A usable body replaces the list wholesale; a null body or failure keeps it and sets the error text; loading ends |
| Chat.ChatWindow.OnNewMessage | src/app/chat/components/ChatWindow.tsx:61-73 | The list becomes `AddMessage` of the old one; consistency is preserved |
| Chat.ChatWindow.OnMessageEdited | src/app/chat/components/ChatWindow.tsx:76-88 | The list becomes the rewrite with `newMessage` and `editedAt`; consistency is preserved |
| Chat.ChatWindow.OnMessageDeleted | src/app/chat/components/ChatWindow.tsx:91-96 | The list loses the entries with that id; consistency is preserved |
| Chat.ChatWindow.Type | src/app/chat/components/ChatWindow.tsx:398 | The input becomes the typed text |
| Chat.ChatWindow.StartEdit | src/app/chat/components/ChatWindow.tsx:286-287 | Edit mode remembers the message's id and copies its body into the input |
| Chat.ChatWindow.CancelEdit | src/app/chat/components/ChatWindow.tsx:423-424 | Edit mode ends and the input is cleared |
| Chat.ChatWindow.HandleEdit | src/app/chat/components/ChatWindow.tsx:115-130 | No-op without an edited id or with a blank input; on success the untrimmed input becomes the body, `updatedAt` is kept, edit mode and input are cleared; on failure only the error is set |
| Chat.ChatWindow.HandleDelete | src/app/chat/components/ChatWindow.tsx:133-141 | On success the entries with the id are removed; on failure only the error is set |
| Chat.ChatWindow.SubmitSend | src/app/chat/components/ChatWindow.tsx:144-151 | Blank input does nothing; in edit mode the submit is the local edit; otherwise the send goes out with `sending` raised and the list untouched |
| Chat.ChatWindow.FinishSend | src/app/chat/components/ChatWindow.tsx:152-165 | Success clears only the input, failure sets only the error; `sending` drops either way; the list is never touched |
| Chat.SwitchKeepsEditState | src/app/chat/components/ChatWindow.tsx:33-52 | After a switch the new request clears the error, and the edited id and input survive the history whatever its outcome |
| Chat.SwitchThenHistoryFails | src/app/chat/components/ChatWindow.tsx:33-52 | A switch followed by a failed history request leaves the previous pair's messages, none of the new pair |
| Text.TrimStart | src/app/chat/components/ChatWindow.tsx:116 | The result is the suffix of the input after its leading white space |
| Text.TrimEnd | src/app/chat/components/ChatWindow.tsx:116 | The result is the prefix of the input before its trailing white space |
| Text.TrimsToEmpty | src/app/chat/components/ChatWindow.tsx:146 | `!input.trim()` holds exactly when every character is white space |
| Payload.Unwrap | src/app/chat/components/ContactsSidebar.tsx:44 | `data.field or data or []`: null throws, an array or the field's array is taken, an object without the field is kept whole, another falsy body gives `[]` |
| Payload.ListOrEmpty | src/app/chat/components/ContactsSidebar.tsx:44 | The intended chain (used for the contact list): agrees with the written one wherever that gives a list, and gives `[]` where it keeps the object |
| Payload.ObjectWithoutFieldIsStoredWhole | src/app/chat/components/ContactsSidebar.tsx:44 | For `{}` the written chain keeps the object (stored as `contacts`) while the intended chain gives `[]` |
| Payload.FramingsAgree | src/app/chat/components/ChatWindow.tsx:42-46 | A bare array and the same array in the named field normalise alike |
| Payload.ErrorText | src/app/chat/components/ChatWindow.tsx:49 | The server's message unless it is missing or empty, else the fallback; never empty when the fallback is not |
| Contacts.Flatten | src/app/chat/components/ContactsSidebar.tsx:59-66 | Same length and order; entry i has request i's id and its sender's username, email and picture |
| Contacts.NormaliseRequests | src/app/chat/components/ContactsSidebar.tsx:59-66 | The `requests` field or the bare array, flattened; another falsy body gives `[]`; a null body or an object without `requests` fails |
| Contacts.WithoutRequest | src/app/chat/components/ContactsSidebar.tsx:93 | No entry with the handled id remains |
| Contacts.WithoutRequestExactly | src/app/chat/components/ContactsSidebar.tsx:106 | Exactly the entries with another id remain, as often as before and in order; an id not pending changes nothing |
| Contacts.ContactsSidebar.constructor | src/app/chat/components/ContactsSidebar.tsx:29-36 | Initial state: empty lists, both loading, no errors, no action, refresh flag false |
| Contacts.ContactsSidebar.BeginContactsFetch | src/app/chat/components/ContactsSidebar.tsx:39-40 | Loading raised, error cleared |
| Contacts.ContactsSidebar.CompleteContactsFetch | src/app/chat/components/ContactsSidebar.tsx:41-49 | A usable body replaces the contacts; a null body or failure keeps them and sets the error; loading ends |
| Contacts.ContactsSidebar.BeginRequestsFetch | src/app/chat/components/ContactsSidebar.tsx:53-54 | Pending loading raised, pending error cleared |
| Contacts.ContactsSidebar.CompleteRequestsFetch | src/app/chat/components/ContactsSidebar.tsx:55-75 | A usable body replaces the pending entries with their flattened form; otherwise they are kept and the pending error set; loading ends |
| Contacts.ContactsSidebar.OnContactsUpdated | src/app/chat/components/ContactsSidebar.tsx:82 | The refresh flag flips |
| Contacts.TwoUpdatesRestoreFlag | src/app/chat/components/ContactsSidebar.tsx:82 | Two `contacts_updated` events restore the flag and change nothing else |
| Contacts.ContactsSidebar.BeginAction | src/app/chat/components/ContactsSidebar.tsx:90 | `actionLoading` is the request's id while the action runs |
| Contacts.ContactsSidebar.CompleteAction | src/app/chat/components/ContactsSidebar.tsx:91-112 | An accept or reject completes: success removes the request's entries, failure keeps the list; `actionLoading` is null afterwards |
| Channel.Socket.constructor | src/lib/socket.ts:19-23 | A new socket carries the token as its credential, is not connected and has no listener |
| Channel.Socket.Connect | src/lib/socket.ts:26 | One more connection attempt is issued |
| Channel.Socket.On | src/lib/socket.ts:29-31 | The listener is appended |
| Channel.SocketModule.constructor | src/lib/socket.ts:8 | The module starts without a socket |
| Channel.SocketModule.GetSocket | src/lib/socket.ts:10-73 | Non-null iff a token is present; no token leaves the singleton untouched; first call creates one fresh socket with the token, one `connect()` and the creation listeners; later calls return the same socket, overwrite its credential, connect only when disconnected and add no listener |
| Channel.AcquireTwice | src/lib/socket.ts:64-72 | Two calls with tokens return one socket carrying the latest token, with no listener added on reuse |
| Middleware.Decide | src/middleware.ts:4-17 | Cookie and auth page: redirect to `/chat`; no cookie and other page: redirect to `/login`; every other case passes through; exactly one outcome |
| Middleware.OnlyPresenceMatters | src/middleware.ts:5-8 | The decision depends on the cookie's presence, not its value |
| Middleware.NoRedirectLoop | src/middleware.ts:8-16 | Re-evaluating at a redirect's target with the same cookie state passes through |

## Left out

- Rendering, styling, the message dropdown, scrolling to the newest message and time formatting: presentation only.
- The HTTP requests, cookies, local storage, `alert` and `toast`: each request is reduced to its outcome (`Ack` or `Reply`), the cookie to an `Option<string>`, the username from local storage to a string that is empty when absent.
- The socket.io transport: connection, reconnection and the `connected` flag's changes are the transport's; the model records the `connect()` calls issued and does not model that `io()` may itself start connecting. The URL and its environment override are not modelled. Console logging is left out.
- Subscribing and unsubscribing the window's and sidebar's own handlers on the socket, and React's effect scheduling: lifecycle, not state rules; the handlers' effects are the `On*` methods.
- The `refresh` property of the sidebar: it only re-runs the two fetches, which the `Begin*`/`Complete*` methods model.
- Chat.ChatWindow.HandleEdit: modelled as one step, so the body and id it writes are those at the call, as the handler's closure captures them; interleavings during its request are not modelled (it keeps no flag).
- Chat.ChatWindow.HandleDelete: modelled as one step, for the same reason.
- JSON shapes beyond array, object, null and the other falsy values (a `messages` field that holds something other than an array, records with missing fields): the code does not check them.
- The route matcher's regular expression: framework behaviour.

## Findings

| source | as written | input that shows it | evidently intended | confidence | as-written member | corrected member |
|---|---|---|---|---|---|---|
| src/app/chat/components/ChatWindow.tsx:43-46 | `res.data.messages or res.data or []` keeps an object without `messages` as the list | history body `{}` | an empty history, the `[]` fallback the chain ends with | medium, not executed | Chat.HistoryObjectWithoutMessages | Chat.NormaliseHistory |
| src/app/chat/components/ContactsSidebar.tsx:44 | `res.data.contacts or res.data or []` keeps an object without `contacts` as the list | contact list body `{}` | an empty contact list | medium, not executed | Payload.ObjectWithoutFieldIsStoredWhole | Payload.ListOrEmpty |

In both chains the final `[]` is reached only for falsy bodies other than
null (the empty string of an empty response, `false`, `0`): a null body throws
on the property read before the fallback, and any object is truthy. The class
methods use the corrected members.

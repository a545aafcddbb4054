/**
 * The chat window of one conversation: the list of messages it shows and the
 * rules that change it — seeding from the history request, the three live
 * events (`new_message`, `message_edited`, `message_deleted`) and the local
 * edit, delete and send handlers.
 */
module Chat {
  import opened Wrappers
  import Lists
  import Text
  import opened Payload

  /** A participant as a message names it. */
  datatype Party = Party(id: int, username: string)

  /** A message record; `message` is the body text, the two stamps are opaque strings. */
  datatype Message = Message(
    id: int,
    sender: Party,
    receiver: Party,
    message: string,
    status: string,
    createdAt: string,
    updatedAt: string)

  /** Payload of the `message_edited` event. */
  datatype EditedEvent = EditedEvent(messageId: int, newMessage: string, editedAt: string)

  /** Payload of the `message_deleted` event. */
  datatype DeletedEvent = DeletedEvent(messageId: int, deletedAt: string)

  const HistoryFailure := "Failed to load messages"
  const EditFailure := "Failed to edit message"
  const DeleteFailure := "Failed to delete message"
  const SendFailure := "Failed to send message"

  function MessageId(m: Message): int { m.id }

  /** The message travels between the signed-in user and the open contact, in either direction, matched by username. */
  predicate InPair(user: string, contact: string, m: Message) {
    (m.sender.username == user && m.receiver.username == contact) ||
    (m.sender.username == contact && m.receiver.username == user)
  }

  /** `msgs.some((m) => m.id === id)`. */
  predicate HasId(msgs: seq<Message>, id: int) {
    exists i :: 0 <= i < |msgs| && msgs[i].id == id
  }

  /** No two entries share an id. */
  predicate DistinctIds(msgs: seq<Message>) {
    forall i, j :: 0 <= i < j < |msgs| ==> msgs[i].id != msgs[j].id
  }

  /** Every entry belongs to the conversation between `user` and `contact`. */
  predicate WithinPair(msgs: seq<Message>, user: string, contact: string) {
    forall i :: 0 <= i < |msgs| ==> InPair(user, contact, msgs[i])
  }

  /** Two versions of one message: everything but the body and the update stamp agrees. */
  predicate SameIdentity(a: Message, b: Message) {
    a.id == b.id && a.sender == b.sender && a.receiver == b.receiver &&
    a.status == b.status && a.createdAt == b.createdAt
  }

  // ---------------------------------------------------------------- seeding

  /**
   * The history body as the window normalises it: `Array.isArray` takes a bare
   * array as it is, otherwise the `messages || data || []` chain applies (in
   * its intended form, which gives `[]` for an object without `messages`).
   * `None` is the TypeError a null body raises. The shortcut agrees with the
   * chain alone.
   */
  function NormaliseHistory(b: Body<Message>): (r: Option<seq<Message>>)
    ensures r == ListOrEmpty(b)
    ensures r.Some? && b.Array? ==> r.value == b.items
    ensures r.Some? && b.Object? && b.field.Some? ==> r.value == b.field.value
  {
    if b.Array? then Some(b.items) else ListOrEmpty(b)
  }

  /**
   * As written, `Array.isArray(data) ? data : data.messages || data || []`
   * stores the body `{}` whole (`isArray` is false, so the chain `Unwrap`
   * decides), where the intended reading is an empty history.
   */
  lemma HistoryObjectWithoutMessages()
    ensures Unwrap<Message>(Object(None)) == Some(Whole(Object(None)))
    ensures NormaliseHistory(Object(None)) == Some([])
  {
    ObjectWithoutFieldIsStoredWhole<Message>();
  }

  /** Bare and nested framings of one history seed the same list. */
  lemma HistoryFramingsAgree(xs: seq<Message>)
    ensures NormaliseHistory(Array(xs)) == NormaliseHistory(Object(Some(xs))) == Some(xs)
  {
    FramingsAgree(xs);
  }

  // ---------------------------------------------------------------- new_message

  /**
   * The `new_message` handler: a message of another conversation, or one whose
   * id is already shown, leaves the list as it is; otherwise it is appended.
   */
  function AddMessage(msgs: seq<Message>, m: Message, user: string, contact: string): (r: seq<Message>)
    ensures !InPair(user, contact, m) ==> r == msgs
    ensures HasId(msgs, m.id) ==> r == msgs
    ensures InPair(user, contact, m) && !HasId(msgs, m.id) ==> r == msgs + [m]
  {
    if InPair(user, contact, m) then
      if HasId(msgs, m.id) then msgs else msgs + [m]
    else msgs
  }

  /** Adding keeps ids distinct and membership restricted to the pair; the old list stays a prefix. */
  lemma AddKeepsInvariant(msgs: seq<Message>, m: Message, user: string, contact: string)
    requires DistinctIds(msgs) && WithinPair(msgs, user, contact)
    ensures DistinctIds(AddMessage(msgs, m, user, contact))
    ensures WithinPair(AddMessage(msgs, m, user, contact), user, contact)
    ensures AddMessage(msgs, m, user, contact)[..|msgs|] == msgs
  {
    var r := AddMessage(msgs, m, user, contact);
    if r != msgs {
      forall i | 0 <= i < |msgs| ensures msgs[i].id != m.id {
        assert msgs[i].id == m.id ==> HasId(msgs, m.id);
      }
    }
  }

  /** Delivering the same message twice shows it once. */
  lemma AddIdempotent(msgs: seq<Message>, m: Message, user: string, contact: string)
    ensures AddMessage(AddMessage(msgs, m, user, contact), m, user, contact) == AddMessage(msgs, m, user, contact)
  {
    if InPair(user, contact, m) && !HasId(msgs, m.id) {
      assert (msgs + [m])[|msgs|] == m;
      assert HasId(msgs + [m], m.id);
    }
  }

  /** A stream of `new_message` events, handled in delivery order. */
  function AddAll(msgs: seq<Message>, events: seq<Message>, user: string, contact: string): seq<Message>
    decreases |events|
  {
    if events == [] then msgs
    else AddAll(AddMessage(msgs, events[0], user, contact), events[1..], user, contact)
  }

  /**
   * Fresh messages of the conversation end up after the old list in the order
   * they were delivered: no sorting by id or timestamp takes place.
   */
  lemma {:induction false} DeliveryOrderKept(msgs: seq<Message>, events: seq<Message>, user: string, contact: string)
    requires WithinPair(events, user, contact) && DistinctIds(events)
    requires forall i :: 0 <= i < |events| ==> !HasId(msgs, events[i].id)
    ensures AddAll(msgs, events, user, contact) == msgs + events
    decreases |events|
  {
    if events != [] {
      var e := events[0];
      assert InPair(user, contact, e);
      var next := msgs + [e];
      assert AddMessage(msgs, e, user, contact) == next;
      forall i | 0 <= i < |events[1..]| ensures !HasId(next, events[1..][i].id) {
        var x := events[i + 1];
        assert events[1..][i] == x;
        assert !HasId(msgs, x.id) && x.id != e.id;
        forall j | 0 <= j < |next| ensures next[j].id != x.id {
          if j < |msgs| {
            assert next[j] == msgs[j];
            assert msgs[j].id == x.id ==> HasId(msgs, x.id);
          }
        }
      }
      DeliveryOrderKept(next, events[1..], user, contact);
      assert next + events[1..] == msgs + events;
    }
  }

  /** Re-delivering messages that are all shown already changes nothing. */
  lemma {:induction false} RedeliveryIsNoOp(msgs: seq<Message>, events: seq<Message>, user: string, contact: string)
    requires forall i :: 0 <= i < |events| ==> HasId(msgs, events[i].id)
    ensures AddAll(msgs, events, user, contact) == msgs
    decreases |events|
  {
    if events != [] {
      assert HasId(msgs, events[0].id);
      RedeliveryIsNoOp(msgs, events[1..], user, contact);
    }
  }

  // ---------------------------------------------------------------- edits

  /**
   * Rewrites every entry with id `id` to carry `body`, and the stamp when one is
   * given (`message_edited` gives `editedAt`; the local edit gives none).
   */
  function Rewrite(msgs: seq<Message>, id: int, body: string, stamp: Option<string>): (r: seq<Message>)
    ensures |r| == |msgs|
    ensures forall i :: 0 <= i < |msgs| ==> SameIdentity(r[i], msgs[i])
    ensures forall i :: 0 <= i < |msgs| && msgs[i].id != id ==> r[i] == msgs[i]
    ensures forall i :: 0 <= i < |msgs| && msgs[i].id == id ==>
              r[i].message == body && r[i].updatedAt == stamp.GetOr(msgs[i].updatedAt)
  {
    if msgs == [] then []
    else
      var m := msgs[0];
      var head := if m.id == id then m.(message := body, updatedAt := stamp.GetOr(m.updatedAt)) else m;
      [head] + Rewrite(msgs[1..], id, body, stamp)
  }

  /** An edit for an id that is not shown leaves the list identical. */
  lemma RewriteAbsent(msgs: seq<Message>, id: int, body: string, stamp: Option<string>)
    requires !HasId(msgs, id)
    ensures Rewrite(msgs, id, body, stamp) == msgs
  {
    var r := Rewrite(msgs, id, body, stamp);
    forall i | 0 <= i < |msgs| ensures r[i] == msgs[i] {
      assert msgs[i].id == id ==> HasId(msgs, id);
    }
  }

  /** Applying the same edit twice gives the list that applying it once gives. */
  lemma {:induction false} RewriteIdempotent(msgs: seq<Message>, id: int, body: string, stamp: Option<string>)
    ensures Rewrite(Rewrite(msgs, id, body, stamp), id, body, stamp) == Rewrite(msgs, id, body, stamp)
    decreases |msgs|
  {
    if msgs != [] {
      RewriteIdempotent(msgs[1..], id, body, stamp);
    }
  }

  /**
   * The local edit followed by the `message_edited` event for the same body
   * gives the list the event alone gives: the double application is safe.
   */
  lemma {:induction false} LocalThenEventEdit(msgs: seq<Message>, id: int, body: string, editedAt: string)
    ensures Rewrite(Rewrite(msgs, id, body, None), id, body, Some(editedAt)) == Rewrite(msgs, id, body, Some(editedAt))
    decreases |msgs|
  {
    if msgs != [] {
      LocalThenEventEdit(msgs[1..], id, body, editedAt);
    }
  }

  /**
   * The `message_edited` event followed by the local edit with the same body
   * (the broadcast arrived while the edit request was pending) gives the list
   * the event alone gives: the local path keeps the event's stamp.
   */
  lemma {:induction false} EventThenLocalEdit(msgs: seq<Message>, id: int, body: string, editedAt: string)
    ensures Rewrite(Rewrite(msgs, id, body, Some(editedAt)), id, body, None) == Rewrite(msgs, id, body, Some(editedAt))
    decreases |msgs|
  {
    if msgs != [] {
      EventThenLocalEdit(msgs[1..], id, body, editedAt);
    }
  }

  /** Editing keeps ids distinct and membership restricted to the pair. */
  lemma RewriteKeepsInvariant(msgs: seq<Message>, id: int, body: string, stamp: Option<string>, user: string, contact: string)
    requires DistinctIds(msgs) && WithinPair(msgs, user, contact)
    ensures DistinctIds(Rewrite(msgs, id, body, stamp))
    ensures WithinPair(Rewrite(msgs, id, body, stamp), user, contact)
  {
    var r := Rewrite(msgs, id, body, stamp);
    forall i | 0 <= i < |r| ensures InPair(user, contact, r[i]) {
      assert SameIdentity(r[i], msgs[i]);
    }
    forall i, j | 0 <= i < j < |r| ensures r[i].id != r[j].id {
      assert SameIdentity(r[i], msgs[i]) && SameIdentity(r[j], msgs[j]);
    }
  }

  // ---------------------------------------------------------------- deletes

  /** `msgs.filter((msg) => msg.id !== id)`, used by the event and by the local delete. */
  function RemoveMessage(msgs: seq<Message>, id: int): (r: seq<Message>)
    ensures forall i :: 0 <= i < |r| ==> r[i].id != id
  {
    Lists.Without(msgs, MessageId, id)
  }

  /**
   * A delete keeps exactly the entries with another id, each as often as
   * before and in their original order; an absent id changes nothing, and
   * deleting twice is deleting once.
   */
  lemma RemoveExactly(msgs: seq<Message>, id: int)
    ensures Lists.IsSubseq(RemoveMessage(msgs, id), msgs)
    ensures forall m :: multiset(RemoveMessage(msgs, id))[m] == if m.id == id then 0 else multiset(msgs)[m]
    ensures !HasId(msgs, id) ==> RemoveMessage(msgs, id) == msgs
    ensures RemoveMessage(RemoveMessage(msgs, id), id) == RemoveMessage(msgs, id)
  {
    Lists.WithoutKeepsOrder(msgs, MessageId, id);
    Lists.WithoutCounts(msgs, MessageId, id);
    Lists.WithoutIdempotent(msgs, MessageId, id);
    if !HasId(msgs, id) {
      forall i | 0 <= i < |msgs| ensures MessageId(msgs[i]) != id {
        assert msgs[i].id == id ==> HasId(msgs, id);
      }
      Lists.WithoutAbsent(msgs, MessageId, id);
    }
  }

  /** Deleting keeps ids distinct and membership restricted to the pair. */
  lemma RemoveKeepsInvariant(msgs: seq<Message>, id: int, user: string, contact: string)
    requires DistinctIds(msgs) && WithinPair(msgs, user, contact)
    ensures DistinctIds(RemoveMessage(msgs, id))
    ensures WithinPair(RemoveMessage(msgs, id), user, contact)
  {
    Lists.WithoutKeepsOrder(msgs, MessageId, id);
    RemoveSubseqKeepsInvariant(RemoveMessage(msgs, id), msgs, user, contact);
  }

  lemma {:induction false} RemoveSubseqKeepsInvariant(sub: seq<Message>, msgs: seq<Message>, user: string, contact: string)
    requires Lists.IsSubseq(sub, msgs)
    requires DistinctIds(msgs) && WithinPair(msgs, user, contact)
    ensures DistinctIds(sub) && WithinPair(sub, user, contact)
    decreases |msgs|
  {
    if sub != [] {
      assert msgs != [];
      assert DistinctIds(msgs[1..]) && WithinPair(msgs[1..], user, contact);
      if sub[0] == msgs[0] {
        RemoveSubseqKeepsInvariant(sub[1..], msgs[1..], user, contact);
        SubseqIdsFrom(sub[1..], msgs[1..]);
        forall j | 0 < j < |sub| ensures sub[0].id != sub[j].id {
          assert sub[j] == sub[1..][j - 1];
        }
        forall j | 0 <= j < |sub| ensures InPair(user, contact, sub[j]) {
          if j > 0 {
            assert sub[j] == sub[1..][j - 1];
          }
        }
      } else {
        RemoveSubseqKeepsInvariant(sub, msgs[1..], user, contact);
      }
    }
  }

  /** Every entry of a sub-sequence occurs in the sequence (used with the head's id). */
  lemma {:induction false} SubseqIdsFrom(sub: seq<Message>, msgs: seq<Message>)
    requires Lists.IsSubseq(sub, msgs)
    ensures forall j :: 0 <= j < |sub| ==> sub[j] in msgs
    decreases |msgs|
  {
    if sub != [] {
      if sub[0] == msgs[0] {
        SubseqIdsFrom(sub[1..], msgs[1..]);
        forall j | 0 < j < |sub| ensures sub[j] in msgs {
          assert sub[j] == sub[1..][j - 1];
          assert sub[j] in msgs[1..];
        }
      } else {
        SubseqIdsFrom(sub, msgs[1..]);
        forall j | 0 <= j < |sub| ensures sub[j] in msgs {
          assert sub[j] in msgs[1..];
        }
      }
    }
  }

  /**
   * An empty window shows a message of the pair once it is created, the new
   * body once it is edited, and nothing once it is deleted.
   */
  lemma CreateEditDeleteScenario(a: Party, b: Party, createdAt: string, editedAt: string)
    ensures var m := Message(1, a, b, "hi", "sent", createdAt, createdAt);
            var shown := AddMessage([], m, a.username, b.username);
            var edited := Rewrite(shown, 1, "hello", Some(editedAt));
            shown == [m] &&
            edited == [m.(message := "hello", updatedAt := editedAt)] &&
            RemoveMessage(edited, 1) == []
  {
    var m := Message(1, a, b, "hi", "sent", createdAt, createdAt);
    assert !HasId([], 1);
    var edited := Rewrite([m], 1, "hello", Some(editedAt));
    assert edited[0] == m.(message := "hello", updatedAt := editedAt);
  }

  // ---------------------------------------------------------------- the component

  /**
   * A non-empty list of one conversation holds only foreign messages once the
   * window shows another contact: switching the contact keeps the list, so
   * `Consistent` fails until the new history replaces it.
   */
  lemma {:induction false} SwitchLeavesForeignMessages(msgs: seq<Message>, user: string, from: string, to: string)
    requires msgs != [] && WithinPair(msgs, user, from) && from != to
    ensures !WithinPair(msgs, user, to)
    ensures forall i :: 0 <= i < |msgs| ==> !InPair(user, to, msgs[i])
  {
    forall i | 0 <= i < |msgs| ensures !InPair(user, to, msgs[i]) {
      assert InPair(user, from, msgs[i]);
    }
    assert !InPair(user, to, msgs[0]);
  }

  /**
   * The window's state: `user` is the username read from local storage
   * (empty when absent) and `contact` the open contact's username. The page
   * keeps one window and only changes its `contact` property.
   */
  class ChatWindow {
    const user: string
    var contact: string
    var messages: seq<Message>
    var loading: bool
    var error: string
    var input: string
    var sending: bool
    var editingId: Option<int>

    /** What the live events keep: distinct ids, and only this conversation's messages. */
    ghost predicate Consistent()
      reads this
    {
      DistinctIds(messages) && WithinPair(messages, user, contact)
    }

    constructor (user: string, contact: string)
      ensures this.user == user && this.contact == contact
      ensures messages == [] && loading && error == "" && input == ""
      ensures !sending && editingId == None
      ensures Consistent()
    {
      this.user, this.contact := user, contact;
      messages, loading, error, input := [], true, "", "";
      sending, editingId := false, None;
    }

    /**
     * Another contact is selected. The window is not remounted: messages, the
     * edited id, the input and the error stay as they were; the history and
     * socket effects then re-run for the new contact.
     */
    method SelectContact(c: string)
      modifies this`contact
      ensures contact == c
      ensures messages == old(messages) && editingId == old(editingId)
      ensures input == old(input) && error == old(error)
    {
      contact := c;
    }

    /** The history effect starts a request only when a username is known; it clears the error first. */
    method BeginHistoryFetch() returns (fetching: bool)
      modifies this`loading, this`error
      ensures fetching == (user != "")
      ensures fetching ==> loading && error == ""
      ensures !fetching ==> loading == old(loading) && error == old(error)
    {
      fetching := user != "";
      if fetching {
        loading, error := true, "";
      }
    }

    /**
     * The history request completes: a usable body REPLACES the list, whatever
     * live events were applied meanwhile; a null body or a failed request
     * leaves the list and reports an error. Loading ends either way.
     */
    method CompleteHistoryFetch(reply: Reply<Body<Message>>)
      modifies this`messages, this`error, this`loading
      ensures !loading
      ensures reply.Ok? && NormaliseHistory(reply.data).Some? ==>
                messages == NormaliseHistory(reply.data).value && error == old(error)
      ensures reply.Ok? && NormaliseHistory(reply.data).None? ==>
                messages == old(messages) && error == HistoryFailure
      ensures reply.Failed? ==>
                messages == old(messages) && error == ErrorText(reply.serverMessage, HistoryFailure)
    {
      match reply {
        case Ok(data) =>
          var seeded := NormaliseHistory(data);
          if seeded.Some? {
            messages := seeded.value;
          } else {
            error := HistoryFailure;
          }
        case Failed(serverMessage) =>
          error := ErrorText(serverMessage, HistoryFailure);
      }
      loading := false;
    }

    /** The `new_message` event. */
    method OnNewMessage(m: Message)
      modifies this`messages
      ensures messages == AddMessage(old(messages), m, user, contact)
      ensures old(Consistent()) ==> Consistent()
    {
      if old(Consistent()) {
        AddKeepsInvariant(messages, m, user, contact);
      }
      messages := AddMessage(messages, m, user, contact);
    }

    /** The `message_edited` event: body and update stamp of the entries with that id. */
    method OnMessageEdited(e: EditedEvent)
      modifies this`messages
      ensures messages == Rewrite(old(messages), e.messageId, e.newMessage, Some(e.editedAt))
      ensures old(Consistent()) ==> Consistent()
    {
      if Consistent() {
        RewriteKeepsInvariant(messages, e.messageId, e.newMessage, Some(e.editedAt), user, contact);
      }
      messages := Rewrite(messages, e.messageId, e.newMessage, Some(e.editedAt));
    }

    /** The `message_deleted` event. */
    method OnMessageDeleted(e: DeletedEvent)
      modifies this`messages
      ensures messages == RemoveMessage(old(messages), e.messageId)
      ensures old(Consistent()) ==> Consistent()
    {
      if Consistent() {
        RemoveKeepsInvariant(messages, e.messageId, user, contact);
      }
      messages := RemoveMessage(messages, e.messageId);
    }

    /** Typing in the input box. */
    method Type(text: string)
      modifies this`input
      ensures input == text
    {
      input := text;
    }

    /** Choosing "Edit" on a message: its id is remembered and its body copied into the input. */
    method StartEdit(m: Message)
      modifies this`editingId, this`input
      ensures editingId == Some(m.id) && input == m.message
    {
      editingId, input := Some(m.id), m.message;
    }

    /** Choosing "Cancel" while editing. */
    method CancelEdit()
      modifies this`editingId, this`input
      ensures editingId == None && input == ""
    {
      editingId, input := None, "";
    }

    /**
     * The local edit: nothing happens without an edited id or with a blank
     * input. Otherwise, once the request is accepted, the entry gets the
     * untrimmed input as its body (its update stamp is kept) and the edit
     * mode ends; a refused request only reports an error.
     */
    method HandleEdit(reply: Ack)
      modifies this`messages, this`editingId, this`input, this`error
      ensures Text.IsBlank(old(input)) || old(editingId).None? ==>
                messages == old(messages) && editingId == old(editingId) &&
                input == old(input) && error == old(error)
      ensures !Text.IsBlank(old(input)) && old(editingId).Some? && reply.Accepted? ==>
                messages == Rewrite(old(messages), old(editingId).value, old(input), None) &&
                editingId == None && input == "" && error == old(error)
      ensures !Text.IsBlank(old(input)) && old(editingId).Some? && reply.Refused? ==>
                messages == old(messages) && editingId == old(editingId) && input == old(input) &&
                error == ErrorText(reply.serverMessage, EditFailure)
      ensures old(Consistent()) ==> Consistent()
    {
      var blank := Text.TrimsToEmpty(input);
      if blank || editingId == None {
        return;
      }
      if reply.Accepted? {
        var id, body := editingId.value, input;
        var edited := Rewrite(messages, id, body, None);
        if Consistent() {
          RewriteKeepsInvariant(messages, id, body, None, user, contact);
        }
        messages := edited;
        editingId, input := None, "";
      } else {
        error := ErrorText(reply.serverMessage, EditFailure);
      }
    }

    /** The local delete: an accepted request removes the entries with that id. */
    method HandleDelete(id: int, reply: Ack)
      modifies this`messages, this`error
      ensures reply.Accepted? ==> messages == RemoveMessage(old(messages), id) && error == old(error)
      ensures reply.Refused? ==> messages == old(messages) && error == ErrorText(reply.serverMessage, DeleteFailure)
      ensures old(Consistent()) ==> Consistent()
    {
      match reply {
        case Accepted =>
          if Consistent() {
            RemoveKeepsInvariant(messages, id, user, contact);
          }
          messages := RemoveMessage(messages, id);
        case Refused(serverMessage) =>
          error := ErrorText(serverMessage, DeleteFailure);
      }
    }

    /**
     * Submitting the form. A blank input does nothing; in edit mode the submit
     * is the local edit (with `editReply` as its outcome); otherwise the send
     * request goes out (`posted`) with `sending` raised and nothing else changed:
     * the message itself only arrives through `new_message`.
     */
    method SubmitSend(editReply: Ack) returns (posted: bool)
      modifies this`messages, this`editingId, this`input, this`error, this`sending
      ensures posted <==> !Text.IsBlank(old(input)) && old(editingId).None?
      ensures posted ==> sending && messages == old(messages) && input == old(input) &&
                         editingId == old(editingId) && error == old(error)
      ensures Text.IsBlank(old(input)) ==>
                messages == old(messages) && editingId == old(editingId) && input == old(input) &&
                error == old(error) && sending == old(sending)
      ensures !Text.IsBlank(old(input)) && old(editingId).Some? ==> sending == old(sending)
      ensures !Text.IsBlank(old(input)) && old(editingId).Some? && editReply.Accepted? ==>
                messages == Rewrite(old(messages), old(editingId).value, old(input), None) &&
                editingId == None && input == "" && error == old(error)
      ensures !Text.IsBlank(old(input)) && old(editingId).Some? && editReply.Refused? ==>
                messages == old(messages) && editingId == old(editingId) && input == old(input) &&
                error == ErrorText(editReply.serverMessage, EditFailure)
      ensures old(Consistent()) ==> Consistent()
    {
      var blank := Text.TrimsToEmpty(input);
      if blank {
        return false;
      }
      if editingId != None {
        HandleEdit(editReply);
        return false;
      }
      sending := true;
      posted := true;
    }

    /** The send request completes: success clears the input, failure reports; `sending` drops either way. */
    method FinishSend(reply: Ack)
      modifies this`input, this`error, this`sending
      ensures !sending
      ensures reply.Accepted? ==> input == "" && error == old(error)
      ensures reply.Refused? ==> input == old(input) && error == ErrorText(reply.serverMessage, SendFailure)
    {
      match reply {
        case Accepted =>
          input := "";
        case Refused(serverMessage) =>
          error := ErrorText(serverMessage, SendFailure);
      }
      sending := false;
    }
  }

  /**
   * Switching to another contact and then failing to load its history leaves
   * the previous conversation's messages on screen, none of which belongs to
   * the new pair.
   */
  method SwitchThenHistoryFails(w: ChatWindow, c: string, reply: Reply<Body<Message>>)
    requires w.Consistent() && w.messages != [] && w.contact != c && reply.Failed?
    modifies w
    ensures w.contact == c && w.messages == old(w.messages) && !w.Consistent()
  {
    ghost var from := w.contact;
    w.SelectContact(c);
    var fetching := w.BeginHistoryFetch();
    if fetching {
      w.CompleteHistoryFetch(reply);
    }
    SwitchLeavesForeignMessages(w.messages, w.user, from, c);
  }

  /**
   * Switching contacts while editing: the history request for the new contact
   * clears the error when it starts, and the edited id and the input survive
   * its completion, whatever the outcome.
   */
  method SwitchKeepsEditState(w: ChatWindow, c: string, reply: Reply<Body<Message>>)
    requires w.user != ""
    modifies w
    ensures w.contact == c
    ensures reply.Ok? && NormaliseHistory(reply.data).Some? ==>
              w.error == "" && w.messages == NormaliseHistory(reply.data).value
    ensures w.editingId == old(w.editingId) && w.input == old(w.input)
  {
    w.SelectContact(c);
    var fetching := w.BeginHistoryFetch();
    assert fetching && w.error == "";
    w.CompleteHistoryFetch(reply);
  }
}

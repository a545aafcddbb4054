/**
 * The contacts sidebar: the contact list, the pending contact requests shown
 * as flat contact entries, accepting and rejecting a request, and the
 * `contacts_updated` event that makes both lists reload.
 */
module Contacts {
  import opened Wrappers
  import Lists
  import opened Payload

  /** A contact as the sidebar shows it. */
  datatype Contact = Contact(id: int, username: string, email: string, profileImage: Option<string>)

  /** A pending request as the server returns it: its own id and the requesting user. */
  datatype PendingRequest = PendingRequest(id: int, sender: Contact)

  const ContactsFailure := "Failed to load contacts"
  const RequestsFailure := "Failed to load pending requests"

  function ContactId(c: Contact): int { c.id }

  /**
   * The request-to-entry mapping: entry i carries request i's id and its
   * sender's username, email and picture, in the same order.
   */
  function Flatten(reqs: seq<PendingRequest>): (r: seq<Contact>)
    ensures |r| == |reqs|
    ensures forall i :: 0 <= i < |reqs| ==>
              r[i].id == reqs[i].id && r[i].username == reqs[i].sender.username &&
              r[i].email == reqs[i].sender.email && r[i].profileImage == reqs[i].sender.profileImage
  {
    if reqs == [] then []
    else
      var q := reqs[0];
      [Contact(q.id, q.sender.username, q.sender.email, q.sender.profileImage)] + Flatten(reqs[1..])
  }

  /**
   * The request list body, `(data.requests || data || []).map(flatten)`. A null
   * body fails on `.requests` and an object without `requests` fails on
   * `.map`; both are `None`.
   */
  function NormaliseRequests(b: Body<PendingRequest>): (r: Option<seq<Contact>>)
    ensures r.None? <==> b.Null? || (b.Object? && b.field.None?)
    ensures b.Array? ==> r == Some(Flatten(b.items))
    ensures b.Object? && b.field.Some? ==> r == Some(Flatten(b.field.value))
    ensures b.Falsy? ==> r == Some([])
  {
    match Unwrap(b)
    case Some(List(xs)) => Some(Flatten(xs))
    case Some(Whole(_)) => None
    case None => None
  }

  /** `prev.filter((req) => req.id !== id)`: what a successful accept or reject leaves. */
  function WithoutRequest(pending: seq<Contact>, id: int): (r: seq<Contact>)
    ensures forall i :: 0 <= i < |r| ==> r[i].id != id
  {
    Lists.Without(pending, ContactId, id)
  }

  /**
   * Exactly the entries with another id remain, as often as before and in
   * order; an id not pending changes nothing.
   */
  lemma WithoutRequestExactly(pending: seq<Contact>, id: int)
    ensures Lists.IsSubseq(WithoutRequest(pending, id), pending)
    ensures forall c :: multiset(WithoutRequest(pending, id))[c] == if c.id == id then 0 else multiset(pending)[c]
    ensures (forall i :: 0 <= i < |pending| ==> pending[i].id != id) ==> WithoutRequest(pending, id) == pending
  {
    Lists.WithoutKeepsOrder(pending, ContactId, id);
    Lists.WithoutCounts(pending, ContactId, id);
    if forall i :: 0 <= i < |pending| ==> pending[i].id != id {
      Lists.WithoutAbsent(pending, ContactId, id);
    }
  }

  /** The sidebar's state; `actionLoading` names the request being accepted or rejected. */
  class ContactsSidebar {
    var contacts: seq<Contact>
    var pendingRequests: seq<Contact>
    var loading: bool
    var pendingLoading: bool
    var error: string
    var pendingError: string
    var actionLoading: Option<int>
    var internalRefresh: bool

    constructor ()
      ensures contacts == [] && pendingRequests == []
      ensures loading && pendingLoading && error == "" && pendingError == ""
      ensures actionLoading == None && !internalRefresh
    {
      contacts, pendingRequests := [], [];
      loading, pendingLoading, error, pendingError := true, true, "", "";
      actionLoading, internalRefresh := None, false;
    }

    /** The contact list effect starts: loading, error cleared. */
    method BeginContactsFetch()
      modifies this`loading, this`error
      ensures loading && error == ""
    {
      loading, error := true, "";
    }

    /** The contact list request completes; loading ends either way. */
    method CompleteContactsFetch(reply: Reply<Body<Contact>>)
      modifies this`contacts, this`error, this`loading
      ensures !loading
      ensures reply.Ok? && ListOrEmpty(reply.data).Some? ==>
                contacts == ListOrEmpty(reply.data).value && error == old(error)
      ensures reply.Ok? && ListOrEmpty(reply.data).None? ==>
                contacts == old(contacts) && error == ContactsFailure
      ensures reply.Failed? ==>
                contacts == old(contacts) && error == ErrorText(reply.serverMessage, ContactsFailure)
    {
      match reply {
        case Ok(data) =>
          var listed := ListOrEmpty(data);
          if listed.Some? {
            contacts := listed.value;
          } else {
            error := ContactsFailure;
          }
        case Failed(serverMessage) =>
          error := ErrorText(serverMessage, ContactsFailure);
      }
      loading := false;
    }

    /** The pending request effect starts: loading, error cleared. */
    method BeginRequestsFetch()
      modifies this`pendingLoading, this`pendingError
      ensures pendingLoading && pendingError == ""
    {
      pendingLoading, pendingError := true, "";
    }

    /** The pending request list completes: a usable body replaces the list with its flat entries. */
    method CompleteRequestsFetch(reply: Reply<Body<PendingRequest>>)
      modifies this`pendingRequests, this`pendingError, this`pendingLoading
      ensures !pendingLoading
      ensures reply.Ok? && NormaliseRequests(reply.data).Some? ==>
                pendingRequests == NormaliseRequests(reply.data).value && pendingError == old(pendingError)
      ensures reply.Ok? && NormaliseRequests(reply.data).None? ==>
                pendingRequests == old(pendingRequests) && pendingError == RequestsFailure
      ensures reply.Failed? ==>
                pendingRequests == old(pendingRequests) &&
                pendingError == ErrorText(reply.serverMessage, RequestsFailure)
    {
      match reply {
        case Ok(data) =>
          var listed := NormaliseRequests(data);
          if listed.Some? {
            pendingRequests := listed.value;
          } else {
            pendingError := RequestsFailure;
          }
        case Failed(serverMessage) =>
          pendingError := ErrorText(serverMessage, RequestsFailure);
      }
      pendingLoading := false;
    }

    /** The `contacts_updated` event flips the refresh flag, which re-runs both fetches. */
    method OnContactsUpdated()
      modifies this`internalRefresh
      ensures internalRefresh == !old(internalRefresh)
    {
      internalRefresh := !internalRefresh;
    }

    /** Accept or reject starts: the request's id is marked as in progress. */
    method BeginAction(id: int)
      modifies this`actionLoading
      ensures actionLoading == Some(id)
    {
      actionLoading := Some(id);
    }

    /**
     * An accept or reject request completes (the two handlers differ only in
     * the request and the alert text): success removes the request's entries,
     * failure (reported by an alert) keeps the list; the mark clears either way.
     */
    method CompleteAction(id: int, reply: Ack)
      modifies this`pendingRequests, this`actionLoading
      ensures actionLoading == None
      ensures reply.Accepted? ==> pendingRequests == WithoutRequest(old(pendingRequests), id)
      ensures reply.Refused? ==> pendingRequests == old(pendingRequests)
    {
      if reply.Accepted? {
        pendingRequests := WithoutRequest(pendingRequests, id);
      }
      actionLoading := None;
    }
  }

  /** Two `contacts_updated` events leave the refresh flag as it was. */
  method TwoUpdatesRestoreFlag(s: ContactsSidebar)
    modifies s`internalRefresh
    ensures s.internalRefresh == old(s.internalRefresh)
    ensures s.pendingRequests == old(s.pendingRequests) && s.contacts == old(s.contacts)
  {
    s.OnContactsUpdated();
    s.OnContactsUpdated();
  }
}

/** Customer messages (controllers/messageController.js): creation with an
    admin notification, the paged listing, read toggling, deletion and the
    mailed reply.  The message model itself is not part of this model; a
    message is reduced to the fields the controller uses, with `isRead`
    starting false. */
module MessageController {
  import opened Wrappers
  import opened Listing

  datatype Message = Message(
    id: nat,
    name: string,
    email: string,
    message: string,
    isRead: bool,
    createdAt: int,
    updatedAt: int)

  function MessageCreatedAt(m: Message): int { m.createdAt }

  /** The mails the controller sends through its own transporter. */
  datatype MessageMail =
    | Notification(to: string, subject: string, name: string, email: string, message: string)
    | ReplyMail(to: string, subject: string, customer: string, original: string, reply: string)

  const NOTIFICATION_SUBJECT := "New Customer Message"
  const REPLY_SUBJECT := "Reply to Your Message"
  const NOT_FOUND_MESSAGE := "Message not found"

  /** The position of the message with `_id` `id`. */
  function IndexOfMessage(messages: seq<Message>, id: nat): (r: Option<nat>)
    ensures r.None? <==> forall k :: 0 <= k < |messages| ==> messages[k].id != id
    ensures r.Some? ==> r.value < |messages| && messages[r.value].id == id
  {
    if messages == [] then None
    else if messages[0].id == id then Some(0)
    else
      match IndexOfMessage(messages[1..], id)
      case None => None
      case Some(k) => Some(k + 1)
  }

  /** `message.isRead = !message.isRead` followed by `save()`. */
  function Toggled(m: Message, now: int): (t: Message)
    ensures t.isRead != m.isRead
    ensures t == m.(isRead := t.isRead, updatedAt := now)
  {
    m.(isRead := !m.isRead, updatedAt := now)
  }

  /** Toggling twice restores the read flag; only the save time moves. */
  lemma ToggleTwiceRestores(m: Message, t1: int, t2: int)
    ensures Toggled(Toggled(m, t1), t2) == m.(updatedAt := t2)
    ensures Toggled(Toggled(m, t1), t2).isRead == m.isRead
  {
  }

  /** The messages collection. */
  class MessageStore {
    var messages: seq<Message>
    var nextId: nat

    constructor ()
      ensures messages == [] && nextId == 0
    {
      messages := [];
      nextId := 0;
    }

    /** `createMessage`: name, email and message are required.  The message
        is stored before the awaited notification, so a failed send
        (`mailSent` false) answers 500 with the message kept. */
    method CreateMessage(name: string, email: string, message: string, adminInbox: string,
                         now: int, mailSent: bool)
      returns (r: Reply<string>, mail: Option<MessageMail>)
      modifies this
      ensures name == "" || email == "" || message == "" ==>
                r == Failure(BAD_REQUEST, "All fields are required") && mail.None? &&
                messages == old(messages) && nextId == old(nextId)
      ensures name != "" && email != "" && message != "" ==>
                && messages == old(messages) + [Message(old(nextId), name, email, message, false, now, now)]
                && nextId == old(nextId) + 1
                && mail == Some(Notification(adminInbox, NOTIFICATION_SUBJECT, name, email, message))
                && r == (if mailSent then Success(CREATED, "Message received successfully")
                         else Failure(SERVER_ERROR, "Server error"))
    {
      mail := None;
      if name == "" || email == "" || message == "" {
        return Failure(BAD_REQUEST, "All fields are required"), mail;
      }
      messages := messages + [Message(nextId, name, email, message, false, now, now)];
      nextId := nextId + 1;
      mail := Some(Notification(adminInbox, NOTIFICATION_SUBJECT, name, email, message));
      if !mailSent {
        return Failure(SERVER_ERROR, "Server error"), mail;
      }
      r := Success(CREATED, "Message received successfully");
    }

    /** `getMessages`: the same paging as the order listing, without a
        filter. */
    function GetMessages(page: Option<int>, limit: Option<int>): (r: Reply<Page<Message>>)
      reads this
      ensures var p, l := ParamOr(page, DEFAULT_PAGE), ParamOr(limit, DEFAULT_LIMIT);
              && (r.Success? <==> Skip(p, l) >= 0)
              && (r.Failure? ==> r == Failure(SERVER_ERROR, "Server error"))
              && (r.Success? ==>
                    && r.value.currentPage == p
                    && r.value.totalPages == CeilDiv(|messages|, l)
                    && |r.value.items| <= Abs(l)
                    && NewestFirstBy(r.value.items, MessageCreatedAt)
                    && (forall k :: 0 <= k < |r.value.items| ==> r.value.items[k] in messages)
                    && WindowOf(r.value.items, NewestFirst(messages, MessageCreatedAt), Skip(p, l), l))
    {
      var p, l := ParamOr(page, DEFAULT_PAGE), ParamOr(limit, DEFAULT_LIMIT);
      var sorted := NewestFirst(messages, MessageCreatedAt);
      var r := PageOf(sorted, p, l);
      if r.Success? then
        PageKeepsOrder(sorted, p, l, MessageCreatedAt);
        assert forall k :: 0 <= k < |r.value.items| ==> r.value.items[k] in multiset(messages);
        r
      else r
    }

    /** `toggleReadStatus`: only the addressed message changes. */
    method ToggleReadStatus(id: nat, now: int) returns (r: Reply<string>)
      modifies this
      ensures nextId == old(nextId)
      ensures IndexOfMessage(old(messages), id).None? ==>
                r == Failure(NOT_FOUND, NOT_FOUND_MESSAGE) && messages == old(messages)
      ensures IndexOfMessage(old(messages), id).Some? ==>
                var i := IndexOfMessage(old(messages), id).value;
                r == Success(OK, "Message status updated successfully") &&
                messages == old(messages)[i := Toggled(old(messages)[i], now)]
    {
      var found := IndexOfMessage(messages, id);
      if found.None? {
        return Failure(NOT_FOUND, NOT_FOUND_MESSAGE);
      }
      var i := found.value;
      var m := messages[i];
      m := m.(isRead := !m.isRead, updatedAt := now);
      messages := messages[i := m];
      r := Success(OK, "Message status updated successfully");
    }

    /** `deleteMessage`: removes the addressed message and no other. */
    method DeleteMessage(id: nat) returns (r: Reply<string>)
      modifies this
      ensures nextId == old(nextId)
      ensures IndexOfMessage(old(messages), id).None? ==>
                r == Failure(NOT_FOUND, NOT_FOUND_MESSAGE) && messages == old(messages)
      ensures IndexOfMessage(old(messages), id).Some? ==>
                var i := IndexOfMessage(old(messages), id).value;
                r == Success(OK, "Message deleted successfully") &&
                messages == old(messages)[..i] + old(messages)[i + 1..]
    {
      var found := IndexOfMessage(messages, id);
      if found.None? {
        return Failure(NOT_FOUND, NOT_FOUND_MESSAGE);
      }
      var i := found.value;
      messages := messages[..i] + messages[i + 1..];
      r := Success(OK, "Message deleted successfully");
    }

    /** `replyToMessage`: both fields are required and the message must
        exist before any mail is sent; the reply goes to the address the
        customer left.  Nothing is stored. */
    function ReplyToMessage(messageId: Option<nat>, reply: string, mailSent: bool)
      : (res: (Reply<string>, Option<MessageMail>))
      reads this
      ensures messageId.None? || reply == "" ==>
                res == (Failure(BAD_REQUEST, "Message ID and reply are required"), None)
      ensures messageId.Some? && reply != "" && IndexOfMessage(messages, messageId.value).None? ==>
                res == (Failure(NOT_FOUND, NOT_FOUND_MESSAGE), None)
      ensures res.1.Some? <==> messageId.Some? && reply != "" && IndexOfMessage(messages, messageId.value).Some?
      ensures res.1.Some? ==>
                var m := messages[IndexOfMessage(messages, messageId.value).value];
                && res.1.value == ReplyMail(m.email, REPLY_SUBJECT, m.name, m.message, reply)
                && res.0 == (if mailSent then Success(OK, "Reply sent successfully")
                             else Failure(SERVER_ERROR, "Server error"))
    {
      if messageId.None? || reply == "" then (Failure(BAD_REQUEST, "Message ID and reply are required"), None)
      else
        match IndexOfMessage(messages, messageId.value)
        case None => (Failure(NOT_FOUND, NOT_FOUND_MESSAGE), None)
        case Some(i) =>
          var m := messages[i];
          var mail := ReplyMail(m.email, REPLY_SUBJECT, m.name, m.message, reply);
          (if mailSent then Success(OK, "Reply sent successfully") else Failure(SERVER_ERROR, "Server error"),
           Some(mail))
    }
  }

  /** With a positive limit, the `k`-th newest message is listed on page
      `k / limit + 1`, at position `k % limit`, within `totalPages`. */
  lemma EveryMessageListed(store: MessageStore, limit: int, k: nat)
    requires limit > 0 && k < |store.messages|
    ensures var p := k / limit + 1;
            var r := store.GetMessages(Some(p), Some(limit));
            && r.Success? && 1 <= p <= r.value.totalPages
            && k % limit < |r.value.items|
            && r.value.items[k % limit] == NewestFirst(store.messages, MessageCreatedAt)[k]
  {
    ItemOnItsPage(NewestFirst(store.messages, MessageCreatedAt), limit, k);
  }

  /** Deleting removes exactly one stored message with that id: the count
      of messages drops by one and every other message stays, in order. */
  lemma DeleteRemovesOne(messages: seq<Message>, i: nat)
    requires i < |messages|
    ensures |messages[..i] + messages[i + 1..]| == |messages| - 1
    ensures forall k :: 0 <= k < |messages| && k != i ==>
              messages[k] in messages[..i] + messages[i + 1..]
  {
    var rest := messages[..i] + messages[i + 1..];
    forall k | 0 <= k < |messages| && k != i
      ensures messages[k] in rest
    {
      if k < i {
        assert rest[k] == messages[k];
      } else {
        assert rest[k - 1] == messages[k];
      }
    }
  }
}

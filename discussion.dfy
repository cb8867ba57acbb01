/** The event discussion board (backend/controllers/discussionController.js):
    posting messages and announcements, deleting a message with its
    replies, pinning, and reactions, together with the notifications
    each of them inserts. Each handler's guards are a decision function;
    the `Board` method applies what that function returns. Events and
    registrations are read from the event store; the caller's id and
    role come from the authenticated request. */
module Discussion {
  import opened Common
  import opened Text
  import opened EventModel
  import opened RegistrationModel
  import opened UserModel
  import opened NotificationModel
  import opened Notifications
  import opened DiscussionModel
  import opened EventWorkflows

  /** `!message || message.trim() === ""` fails. */
  predicate Postable(text: Option<string>) {
    Truthy(text) && Trim(text.value) != ""
  }

  /** The parent sent, when one is, is a message of the same event. */
  predicate ParentOk(messages: map<MessageId, Message>, eventId: EventId, parent: Option<MessageId>) {
    parent.Some? ==> parent.value in messages && messages[parent.value].eventId == eventId
  }

  /** What `postMessage` decides, in order: a non-blank text, an existing
      event, a registered row when the caller is a participant (organizers
      and admins post freely), a parent in the same event, then the
      validators. */
  function PostCheck(messages: map<MessageId, Message>, events: map<EventId, Event>, regs: seq<Registration>,
                     eventId: EventId, caller: UserId, role: Role, text: Option<string>, parent: Option<MessageId>)
    : (r: Result<Message>)
    ensures !Postable(text) ==> r == Err(BadRequest("Message cannot be empty"))
    ensures Postable(text) && eventId !in events ==> r == Err(NotFound("Event not found"))
    ensures Postable(text) && eventId in events && role == Participant && !IsRegistered(regs, eventId, caller) ==>
              r == Err(Forbidden("Only registered participants can post"))
    ensures Postable(text) && eventId in events && (role == Participant ==> IsRegistered(regs, eventId, caller))
            && !ParentOk(messages, eventId, parent) ==>
              r == Err(BadRequest("Invalid parent message"))
    ensures r.Ok? <==>
              && Postable(text) && eventId in events
              && (role == Participant ==> IsRegistered(regs, eventId, caller))
              && ParentOk(messages, eventId, parent)
              && JsLength(Trim(text.value)) <= MessageMaxLength
    ensures r.Ok? ==> r.value == NewMessage(eventId, caller, text.value, parent, false) && MessageValid(r.value)
  {
    if !Postable(text) then Err(BadRequest("Message cannot be empty"))
    else if eventId !in events then Err(NotFound("Event not found"))
    else if role == Participant && !IsRegistered(regs, eventId, caller) then
      Err(Forbidden("Only registered participants can post"))
    else if !ParentOk(messages, eventId, parent) then Err(BadRequest("Invalid parent message"))
    else
      var m := NewMessage(eventId, caller, text.value, parent, false);
      if !MessageValid(m) then Err(ServerError(ValidationFailed)) else Ok(m)
  }

  /** What `postAnnouncement` decides, in order: a non-blank text, an
      existing event, the caller owning it, then the validators. */
  function AnnounceCheck(events: map<EventId, Event>, eventId: EventId, caller: UserId, text: Option<string>)
    : (r: Result<Message>)
    ensures !Postable(text) ==> r == Err(BadRequest("Message cannot be empty"))
    ensures Postable(text) && eventId !in events ==> r == Err(NotFound("Event not found"))
    ensures Postable(text) && eventId in events && events[eventId].organizerId != caller ==>
              r == Err(Forbidden("Not authorized"))
    ensures r.Ok? <==>
              && Postable(text) && eventId in events && events[eventId].organizerId == caller
              && JsLength(Trim(text.value)) <= MessageMaxLength
    ensures r.Ok? ==> r.value == NewMessage(eventId, caller, text.value, None, true) && MessageValid(r.value)
  {
    if !Postable(text) then Err(BadRequest("Message cannot be empty"))
    else if eventId !in events then Err(NotFound("Event not found"))
    else if events[eventId].organizerId != caller then Err(Forbidden("Not authorized"))
    else
      var m := NewMessage(eventId, caller, text.value, None, true);
      if !MessageValid(m) then Err(ServerError(ValidationFailed)) else Ok(m)
  }

  /** The guards `deleteMessage` and `togglePinMessage` share: the message
      exists, its event (populated) exists, and the caller organizes it. */
  function OwnerCheck(messages: map<MessageId, Message>, events: map<EventId, Event>, id: MessageId, caller: UserId)
    : (r: Result<Message>)
    ensures id !in messages ==> r == Err(NotFound("Message not found"))
    ensures id in messages && messages[id].eventId !in events ==> r == Err(ServerError(MissingReference))
    ensures id in messages && messages[id].eventId in events && events[messages[id].eventId].organizerId != caller ==>
              r == Err(Forbidden("Not authorized"))
    ensures r.Ok? <==> id in messages && messages[id].eventId in events
                       && events[messages[id].eventId].organizerId == caller
    ensures r.Ok? ==> r.value == messages[id]
  {
    if id !in messages then Err(NotFound("Message not found"))
    else if messages[id].eventId !in events then Err(ServerError(MissingReference))
    else if events[messages[id].eventId].organizerId != caller then Err(Forbidden("Not authorized"))
    else Ok(messages[id])
  }

  /** A usable emoji: a non-empty string of at most 10 UTF-16 units. */
  predicate EmojiOk(emoji: Option<string>) {
    Truthy(emoji) && JsLength(emoji.value) <= EmojiMaxLength
  }

  /** What `toggleReaction` decides: a usable emoji, an existing message,
      then the validators on the message with the reaction toggled as
      written (the emoji as sent is looked up among the trimmed ones
      stored). */
  function ReactCheck(messages: map<MessageId, Message>, id: MessageId, caller: UserId, emoji: Option<string>)
    : (r: Result<Message>)
    ensures !EmojiOk(emoji) ==> r == Err(BadRequest("Invalid emoji"))
    ensures EmojiOk(emoji) && id !in messages ==> r == Err(NotFound("Message not found"))
    ensures r.Ok? <==>
              && EmojiOk(emoji) && id in messages
              && MessageValid(messages[id].(reactions := ToggleAsWritten(messages[id].reactions, caller, emoji.value)))
    ensures r.Ok? ==> r.value == messages[id].(reactions := ToggleAsWritten(messages[id].reactions, caller, emoji.value))
    ensures r.Err? && EmojiOk(emoji) && id in messages ==> r == Err(ServerError(ValidationFailed))
  {
    if !EmojiOk(emoji) then Err(BadRequest("Invalid emoji"))
    else if id !in messages then Err(NotFound("Message not found"))
    else
      var m := messages[id].(reactions := ToggleAsWritten(messages[id].reactions, caller, emoji.value));
      if !MessageValid(m) then Err(ServerError(ValidationFailed)) else Ok(m)
  }

  /** A blank emoji such as " " passes the guard but not the validators:
      no stored emoji is blank, so the toggle adds the emoji the setter
      trims to "", and the save fails. */
  lemma BlankEmojiRefused(messages: map<MessageId, Message>, id: MessageId, caller: UserId, emoji: Option<string>)
    requires id in messages && MessageValid(messages[id]) && EmojisTrimmed(messages[id].reactions)
    requires EmojiOk(emoji) && Trim(emoji.value) == ""
    ensures ReactCheck(messages, id, caller, emoji) == Err(ServerError(ValidationFailed))
  {
    var rs := messages[id].reactions;
    var x := Reaction(caller, "");
    assert Reaction(caller, emoji.value) !in rs by {
      forall i | 0 <= i < |rs| ensures rs[i] != Reaction(caller, emoji.value) {
        assert ReactionValid(rs[i]);
        assert rs[i] in rs;
        if rs[i].emoji == emoji.value {
          TrimOfTrimmed(emoji.value);
        }
      }
    }
    var t := ToggleAsWritten(rs, caller, emoji.value);
    assert t[|rs|] == x;
    assert !ReactionValid(t[|rs|]);
  }

  /** No stored message names `id` as its parent: a fresh id has never
      been handed out, so no reply can refer to it. */
  predicate Unreferenced(messages: map<MessageId, Message>, id: MessageId) {
    id !in messages && forall k :: k in messages ==> messages[k].parentMessageId != Some(id)
  }

  /** Every stored message passed the validators, its emojis went
      through the `trim` setter, and a reply's parent, while stored,
      belongs to the same event. */
  ghost predicate BoardOk(messages: map<MessageId, Message>) {
    forall k :: k in messages ==>
      MessageValid(messages[k]) && EmojisTrimmed(messages[k].reactions) && ThreadOk(messages, k)
  }

  /** A valid message whose parent is a message of its event, stored under
      a fresh id, keeps the board valid. */
  lemma AddKeeps(messages: map<MessageId, Message>, id: MessageId, m: Message)
    requires BoardOk(messages) && Unreferenced(messages, id)
    requires MessageValid(m) && EmojisTrimmed(m.reactions) && ParentOk(messages, m.eventId, m.parentMessageId)
    ensures BoardOk(messages[id := m])
  {
    var s := messages[id := m];
    forall k | k in s ensures MessageValid(s[k]) && EmojisTrimmed(s[k].reactions) && ThreadOk(s, k) {
      if k != id {
        assert ThreadOk(messages, k);
      }
    }
  }

  /** Saving a stored message again with the same event and parent, still
      valid, keeps the board valid. */
  lemma ReplaceKeeps(messages: map<MessageId, Message>, id: MessageId, m: Message)
    requires BoardOk(messages) && id in messages
    requires m.eventId == messages[id].eventId && m.parentMessageId == messages[id].parentMessageId
    requires MessageValid(m) && EmojisTrimmed(m.reactions)
    ensures BoardOk(messages[id := m])
  {
    var s := messages[id := m];
    forall k | k in s ensures MessageValid(s[k]) && EmojisTrimmed(s[k].reactions) && ThreadOk(s, k) {
      assert ThreadOk(messages, k);
    }
  }

  /** Deleting a message with its replies keeps the board valid. */
  lemma CascadeKeeps(messages: map<MessageId, Message>, id: MessageId)
    requires BoardOk(messages)
    ensures BoardOk(Cascade(messages, id))
  {
    var s := Cascade(messages, id);
    forall k | k in s ensures MessageValid(s[k]) && EmojisTrimmed(s[k].reactions) && ThreadOk(s, k) {
      assert ThreadOk(messages, k);
    }
  }

  /** The message collection. */
  class Board {
    var messages: map<MessageId, Message>

    ghost predicate Valid()
      reads this
    {
      BoardOk(messages)
    }

    constructor ()
      ensures Valid() && messages == map[]
    {
      messages := map[];
    }

    /** An accepted message stored under the fresh `id`, and one unread
        notification of the given kind inserted for each recipient. */
    method Publish(inbox: Inbox, id: MessageId, m: Message, recipients: seq<UserId>,
                   kind: NotificationKind, content: string)
      requires Valid() && inbox.Valid() && Unreferenced(messages, id)
      requires MessageValid(m) && EmojisTrimmed(m.reactions) && ParentOk(messages, m.eventId, m.parentMessageId)
      requires content == NewMessageContent || content == AnnouncementContent
      modifies this, inbox
      ensures Valid() && inbox.Valid() && messages == old(messages)[id := m]
      ensures inbox.notifications == old(inbox.notifications) + Notices(recipients, m.eventId, id, kind, content)
    {
      AddKeeps(messages, id, m);
      messages := messages[id := m];
      HandlerNoticesValid(recipients, m.eventId, id, kind, content);
      inbox.Insert(Notices(recipients, m.eventId, id, kind, content));
    }

    /** `postMessage`: `PostCheck` decides; an accepted message is stored
        under the fresh `id` and every other registered participant of the
        event is sent one "new message" notification. */
    method PostMessage(store: EventStore, inbox: Inbox, id: MessageId, eventId: EventId, caller: UserId,
                       role: Role, text: Option<string>, parent: Option<MessageId>) returns (r: Result<MessageId>)
      requires Valid() && inbox.Valid() && Unreferenced(messages, id)
      modifies this, inbox
      ensures Valid() && inbox.Valid()
      ensures var c := PostCheck(old(messages), store.events, store.registrations, eventId, caller, role, text, parent);
              && (c.Err? ==> r == Err(c.error) && messages == old(messages)
                             && inbox.notifications == old(inbox.notifications))
              && (c.Ok? ==> r == Ok(id) && messages == old(messages)[id := c.value]
                            && inbox.notifications == old(inbox.notifications)
                               + Notices(Recipients(store.registrations, eventId, caller), eventId, id,
                                         NewMessageKind, NewMessageContent))
    {
      var c := PostCheck(messages, store.events, store.registrations, eventId, caller, role, text, parent);
      if c.Err? {
        return Err(c.error);
      }
      Publish(inbox, id, c.value, Recipients(store.registrations, eventId, caller), NewMessageKind, NewMessageContent);
      r := Ok(id);
    }

    /** `postAnnouncement`: `AnnounceCheck` decides; an accepted
        announcement is stored under the fresh `id` and every registered
        participant of the event is sent one "announcement" notification. */
    method PostAnnouncement(store: EventStore, inbox: Inbox, id: MessageId, eventId: EventId, caller: UserId,
                            text: Option<string>) returns (r: Result<MessageId>)
      requires Valid() && inbox.Valid() && Unreferenced(messages, id)
      modifies this, inbox
      ensures Valid() && inbox.Valid()
      ensures var c := AnnounceCheck(store.events, eventId, caller, text);
              && (c.Err? ==> r == Err(c.error) && messages == old(messages)
                             && inbox.notifications == old(inbox.notifications))
              && (c.Ok? ==> r == Ok(id) && messages == old(messages)[id := c.value]
                            && inbox.notifications == old(inbox.notifications)
                               + Notices(RegisteredParticipants(store.registrations, eventId), eventId, id,
                                         AnnouncementKind, AnnouncementContent))
    {
      var c := AnnounceCheck(store.events, eventId, caller, text);
      if c.Err? {
        return Err(c.error);
      }
      Publish(inbox, id, c.value, RegisteredParticipants(store.registrations, eventId), AnnouncementKind,
              AnnouncementContent);
      r := Ok(id);
    }

    /** `deleteMessage`: `OwnerCheck` decides; the message goes together
        with its direct replies. */
    method DeleteMessage(store: EventStore, id: MessageId, caller: UserId) returns (r: Result<()>)
      requires Valid()
      modifies this
      ensures Valid()
      ensures var c := OwnerCheck(old(messages), store.events, id, caller);
              && (c.Err? ==> r == Err(c.error) && messages == old(messages))
              && (c.Ok? ==> r == Ok(()) && messages == Cascade(old(messages), id))
    {
      var c := OwnerCheck(messages, store.events, id, caller);
      if c.Err? {
        return Err(c.error);
      }
      CascadeKeeps(messages, id);
      messages := Cascade(messages, id);
      r := Ok(());
    }

    /** `togglePinMessage`: `OwnerCheck` decides; the pin flag flips and the
        new flag is answered. */
    method TogglePinMessage(store: EventStore, id: MessageId, caller: UserId) returns (r: Result<bool>)
      requires Valid()
      modifies this
      ensures Valid()
      ensures var c := OwnerCheck(old(messages), store.events, id, caller);
              && (c.Err? ==> r == Err(c.error) && messages == old(messages))
              && (c.Ok? ==> r == Ok(!c.value.isPinned)
                            && messages == old(messages)[id := c.value.(isPinned := !c.value.isPinned)])
    {
      var c := OwnerCheck(messages, store.events, id, caller);
      if c.Err? {
        return Err(c.error);
      }
      var m := c.value;
      ReplaceKeeps(messages, id, m.(isPinned := !m.isPinned));
      messages := messages[id := m.(isPinned := !m.isPinned)];
      r := Ok(!m.isPinned);
    }

    /** `toggleReaction`: `ReactCheck` decides; the toggled message is saved, and its author,
        unless it is the caller, is sent one "reaction" notification,
        whether the reaction was added or removed. */
    method ToggleReaction(inbox: Inbox, id: MessageId, caller: UserId, emoji: Option<string>)
      returns (r: Result<()>)
      requires Valid() && inbox.Valid()
      modifies this, inbox
      ensures Valid() && inbox.Valid()
      ensures var c := ReactCheck(old(messages), id, caller, emoji);
              && (c.Err? ==> r == Err(c.error) && messages == old(messages)
                             && inbox.notifications == old(inbox.notifications))
              && (c.Ok? ==> r == Ok(()) && messages == old(messages)[id := c.value])
              && (c.Ok? && c.value.userId != caller ==>
                    inbox.notifications == old(inbox.notifications)
                      + [Notification(c.value.userId, Some(c.value.eventId), Some(id), ReactionKind, ReactionContent, false)])
              && (c.Ok? && c.value.userId == caller ==> inbox.notifications == old(inbox.notifications))
    {
      var c := ReactCheck(messages, id, caller, emoji);
      if c.Err? {
        return Err(c.error);
      }
      var m := c.value;
      ToggleAsWrittenTrims(messages[id].reactions, caller, emoji.value);
      ReplaceKeeps(messages, id, m);
      messages := messages[id := m];
      if m.userId != caller {
        ContentsValid(m.userId, Some(m.eventId), Some(id));
        inbox.Insert([Notification(m.userId, Some(m.eventId), Some(id), ReactionKind, ReactionContent, false)]);
      }
      r := Ok(());
    }
  }
}

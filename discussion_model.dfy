/** The discussion message (backend/models/DiscussionMessage.js), its
    reactions, who the discussion handlers notify, and what deleting a
    message removes. */
module DiscussionModel {
  import opened Common
  import opened Text
  import opened RegistrationModel

  const MessageMaxLength := 2000
  const EmojiMaxLength := 10

  /** A reaction has no id of its own: it is the pair (user, emoji). */
  datatype Reaction = Reaction(userId: UserId, emoji: string)

  datatype Message = Message(
    eventId: EventId,
    userId: UserId,
    message: string,
    parentMessageId: Option<MessageId>,
    reactions: seq<Reaction>,
    isAnnouncement: bool,
    isPinned: bool)

  /** `DiscussionMessage.create(...)`: the text through the `trim` setter,
      no reactions, not pinned. */
  function NewMessage(eventId: EventId, userId: UserId, text: string, parent: Option<MessageId>,
                      isAnnouncement: bool): (m: Message)
    ensures m.eventId == eventId && m.userId == userId && m.parentMessageId == parent
    ensures m.message == Trim(text) && IsTrimmed(m.message)
    ensures m.reactions == [] && !m.isPinned && m.isAnnouncement == isAnnouncement
  {
    TrimIsTrimmed(text);
    Message(eventId, userId, Trim(text), parent, [], isAnnouncement, false)
  }

  /** What the validators demand of a reaction: an emoji, within 10
      characters. */
  predicate ReactionValid(x: Reaction) {
    x.emoji != "" && JsLength(x.emoji) <= EmojiMaxLength
  }

  /** What the validators demand on save: a non-empty text within 2000
      characters and valid reactions. */
  predicate MessageValid(m: Message) {
    && m.message != "" && JsLength(m.message) <= MessageMaxLength
    && forall i :: 0 <= i < |m.reactions| ==> ReactionValid(m.reactions[i])
  }

  // Reactions

  /** Every stored emoji went through the `trim` setter. */
  predicate EmojisTrimmed(rs: seq<Reaction>) {
    forall x :: x in rs ==> IsTrimmed(x.emoji)
  }

  /** Toggling as written stores only trimmed emojis. */
  lemma ToggleAsWrittenTrims(rs: seq<Reaction>, u: UserId, emoji: string)
    requires EmojisTrimmed(rs)
    ensures EmojisTrimmed(ToggleAsWritten(rs, u, emoji))
  {
    TrimIsTrimmed(emoji);
  }

  /** A user reacts at most once with the same emoji. */
  predicate OnePerPair(rs: seq<Reaction>) {
    NoDuplicates(rs)
  }

  /** `toggleReaction` as written: the raw emoji is looked up among the
      stored ones, and a new reaction is pushed with the raw emoji, which
      the `trim` setter then trims. */
  function ToggleAsWritten(rs: seq<Reaction>, u: UserId, emoji: string): (r: seq<Reaction>)
    ensures Reaction(u, emoji) in rs ==> Removed(rs, r, Reaction(u, emoji))
    ensures Reaction(u, emoji) !in rs ==> r == rs + [Reaction(u, Trim(emoji))]
    ensures Trim(emoji) == emoji ==> r == Toggle(rs, u, emoji)
  {
    var x := Reaction(u, emoji);
    if x in rs then RemoveAll(rs, x) else rs + [Reaction(u, Trim(emoji))]
  }

  /** An emoji sent with surrounding spaces is stored twice when sent
      twice: the lookup compares the emoji as sent with the trimmed one
      stored, and never finds it. */
  lemma PaddedEmojiDuplicatedAsWritten(rs: seq<Reaction>, u: UserId, emoji: string)
    requires Trim(emoji) != emoji && Reaction(u, emoji) !in rs && Reaction(u, Trim(emoji)) !in rs
    ensures var twice := ToggleAsWritten(ToggleAsWritten(rs, u, emoji), u, emoji);
            twice == rs + [Reaction(u, Trim(emoji)), Reaction(u, Trim(emoji))] && !OnePerPair(twice)
  {
    var x := Reaction(u, Trim(emoji));
    var once := ToggleAsWritten(rs, u, emoji);
    assert once == rs + [x];
    var twice := ToggleAsWritten(once, u, emoji);
    assert twice == rs + [x, x];
    assert twice[|rs|] == twice[|rs| + 1];
  }

  /** A space followed by any other character, such as " x", is such an
      emoji. */
  lemma PaddedEmojiExample(c: char)
    requires !IsSpace(c)
    ensures Trim([' ', c]) == [c] != [' ', c]
  {
    assert [' ', c][1..] == [c];
    assert TrimStart([c]) == [c];
    assert TrimStart([' ', c]) == [c];
    assert TrimEnd([c]) == [c];
  }

  /** `toggleReaction` with the lookup made on the emoji as it is stored:
      the user's reaction with that emoji is removed when present and
      added when absent; every other reaction is kept, as often as it
      was, and reactions that were one per (user, emoji) stay so. */
  function Toggle(rs: seq<Reaction>, u: UserId, emoji: string): (r: seq<Reaction>)
    ensures Flipped(rs, r, Reaction(u, Trim(emoji)))
  {
    Flip(rs, Reaction(u, Trim(emoji)))
  }

  /** Toggling the same emoji twice, starting without the reaction, leaves
      the reactions as they were. */
  lemma ToggleTwice(rs: seq<Reaction>, u: UserId, emoji: string)
    requires Reaction(u, Trim(emoji)) !in rs
    ensures Toggle(Toggle(rs, u, emoji), u, emoji) == rs
  {
    RemoveAllAppended(rs, Reaction(u, Trim(emoji)));
  }

  /** The emoji sent with and without surrounding spaces toggles the same
      reaction. */
  lemma TogglePaddedSame(rs: seq<Reaction>, u: UserId, emoji: string)
    ensures Toggle(rs, u, Trim(emoji)) == Toggle(rs, u, emoji)
  {
    TrimIdempotent(emoji);
  }

  // Recipients

  /** The participant holds a registered row for the event. */
  predicate IsRegistered(regs: seq<Registration>, eventId: EventId, p: UserId) {
    exists i :: 0 <= i < |regs| && regs[i].eventId == eventId && regs[i].participantId == p
                && regs[i].status == Registered
  }

  /** `Registration.find({ eventId, status: "registered" })` mapped to the
      participant ids, in the collection's order. */
  function RegisteredParticipants(regs: seq<Registration>, eventId: EventId): (r: seq<UserId>)
    ensures forall p :: p in r <==> IsRegistered(regs, eventId, p)
  {
    if regs == [] then []
    else
      var rest := RegisteredParticipants(regs[1..], eventId);
      assert forall p :: IsRegistered(regs[1..], eventId, p) ==> IsRegistered(regs, eventId, p) by {
        forall p | IsRegistered(regs[1..], eventId, p) ensures IsRegistered(regs, eventId, p) {
          var i :| 0 <= i < |regs[1..]| && regs[1..][i].eventId == eventId && regs[1..][i].participantId == p
                   && regs[1..][i].status == Registered;
          assert regs[i + 1] == regs[1..][i];
        }
      }
      assert forall p :: IsRegistered(regs, eventId, p) ==>
               IsRegistered(regs[1..], eventId, p) || (regs[0].participantId == p && regs[0].eventId == eventId
                                                       && regs[0].status == Registered) by {
        forall p | IsRegistered(regs, eventId, p)
          ensures IsRegistered(regs[1..], eventId, p) || (regs[0].participantId == p && regs[0].eventId == eventId
                                                          && regs[0].status == Registered)
        {
          var i :| 0 <= i < |regs| && regs[i].eventId == eventId && regs[i].participantId == p
                   && regs[i].status == Registered;
          if i > 0 {
            assert regs[1..][i - 1] == regs[i];
          }
        }
      }
      if regs[0].eventId == eventId && regs[0].status == Registered then [regs[0].participantId] + rest
      else rest
  }

  /** With the unique (event, participant) index, each registered
      participant is listed once. */
  lemma {:induction false} RegisteredParticipantsDistinct(regs: seq<Registration>, eventId: EventId)
    requires PairsUnique(regs)
    ensures NoDuplicates(RegisteredParticipants(regs, eventId))
    decreases |regs|
  {
    if regs != [] {
      var tail := regs[1..];
      assert PairsUnique(tail) by {
        forall i, j | 0 <= i < |tail| && 0 <= j < |tail| ensures PairsApart(tail, i, j) {
          assert PairsApart(regs, i + 1, j + 1);
        }
      }
      RegisteredParticipantsDistinct(tail, eventId);
      var rest := RegisteredParticipants(tail, eventId);
      if regs[0].eventId == eventId && regs[0].status == Registered {
        var p := regs[0].participantId;
        forall j | 0 <= j < |tail| && tail[j].eventId == eventId && tail[j].status == Registered
          ensures tail[j].participantId != p
        {
          assert PairsApart(regs, 0, j + 1) && regs[j + 1] == tail[j];
        }
        assert p !in rest;
        assert [p] + rest == RegisteredParticipants(regs, eventId);
      }
    }
  }

  /** `registrations.map(r => r.participantId).filter(id => id !== sender)`:
      the participants a new message notifies. */
  function Recipients(regs: seq<Registration>, eventId: EventId, sender: UserId): (r: seq<UserId>)
    ensures forall p :: p in r <==> p != sender && IsRegistered(regs, eventId, p)
  {
    RemoveAll(RegisteredParticipants(regs, eventId), sender)
  }

  /** With the unique (event, participant) index, a new message notifies
      every other registered participant exactly once. */
  lemma RecipientsDistinct(regs: seq<Registration>, eventId: EventId, sender: UserId)
    requires PairsUnique(regs)
    ensures NoDuplicates(Recipients(regs, eventId, sender))
  {
    RegisteredParticipantsDistinct(regs, eventId);
  }

  // Threads

  /** A reply's parent, while it is still stored, belongs to the same
      event. */
  predicate ThreadOk(messages: map<MessageId, Message>, k: MessageId)
    requires k in messages
  {
    var m := messages[k];
    m.parentMessageId.Some? && m.parentMessageId.value in messages ==>
      messages[m.parentMessageId.value].eventId == m.eventId
  }

  /** `deleteMany({ $or: [{ _id: id }, { parentMessageId: id }] })`. */
  function Cascade(messages: map<MessageId, Message>, id: MessageId): (r: map<MessageId, Message>)
    ensures id !in r
    ensures forall k :: k in r <==> k in messages && k != id && messages[k].parentMessageId != Some(id)
    ensures forall k :: k in r ==> r[k] == messages[k]
  {
    map k | k in messages && k != id && messages[k].parentMessageId != Some(id) :: messages[k]
  }

  /** The cascade goes one level deep: a reply to a reply of the deleted
      message stays, and its parent is gone. */
  lemma CascadeOneLevel(messages: map<MessageId, Message>, id: MessageId, reply: MessageId, k: MessageId)
    requires reply in messages && messages[reply].parentMessageId == Some(id) && reply != id
    requires k in messages && messages[k].parentMessageId == Some(reply) && k != id
    ensures var r := Cascade(messages, id); k in r && reply !in r
  {
  }
}

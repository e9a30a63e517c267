/**
 * The message filters the repository attaches to its eager loads: the
 * `whereNotExists` over `deleted_messages` that hides messages from a
 * participant, and the "last message" preview of the conversation lists.
 */
module MessageFilters {
  import opened Schema

  /** Some `deleted_messages` row references the message, whoever wrote it. */
  predicate Referenced(deleted: seq<DeletedMessage>, id: MessageId)
  {
    exists d :: d in deleted && d.messageId == id
  }

  /**
   * The hiding test as the query is written: the subquery joins
   * `deleted_messages.message_id = messages.id` and then tests
   * `messages.participant_id = from`, the SENDER of the message, not the
   * participant recorded in the `deleted_messages` row.
   */
  predicate HiddenFor(deleted: seq<DeletedMessage>, m: Message, from: PartId)
  {
    Referenced(deleted, m.id) && m.participantId == from
  }

  /** The `messages` relation of a conversation: its rows in table order. */
  function MessagesOf(msgs: seq<Message>, c: ConvId): (r: seq<Message>)
    ensures forall m :: m in r <==> m in msgs && m.conversationId == c
    ensures |r| <= |msgs|
  {
    if msgs == [] then []
    else if msgs[0].conversationId == c then [msgs[0]] + MessagesOf(msgs[1..], c)
    else MessagesOf(msgs[1..], c)
  }

  /** The messages of conversation c that survive the hiding filter for `from`. */
  function VisibleMessages(msgs: seq<Message>, deleted: seq<DeletedMessage>, from: PartId, c: ConvId): (r: seq<Message>)
    ensures forall m :: m in r <==> m in msgs && m.conversationId == c && !HiddenFor(deleted, m, from)
    ensures |r| <= |msgs|
  {
    if msgs == [] then []
    else if msgs[0].conversationId == c && !HiddenFor(deleted, msgs[0], from)
    then [msgs[0]] + VisibleMessages(msgs[1..], deleted, from, c)
    else VisibleMessages(msgs[1..], deleted, from, c)
  }

  /** m is as new as every message of conversation c, hidden or not. */
  predicate Newest(msgs: seq<Message>, c: ConvId, m: Message)
  {
    forall n :: n in msgs && n.conversationId == c ==> n.createdAt <= m.createdAt
  }

  /** `Max(m.created_at)` over all messages of conversation c; None when it has none. */
  function MaxCreatedAt(msgs: seq<Message>, c: ConvId): (r: Option<int>)
    ensures r.None? <==> forall m :: m in msgs ==> m.conversationId != c
    ensures r.Some? ==> exists m :: m in msgs && m.conversationId == c && m.createdAt == r.value
    ensures r.Some? ==> forall m :: m in msgs && m.conversationId == c ==> m.createdAt <= r.value
  {
    if msgs == [] then None
    else
      var rest := MaxCreatedAt(msgs[1..], c);
      assert forall m :: m in msgs <==> m == msgs[0] || m in msgs[1..];
      if msgs[0].conversationId != c then rest
      else if rest.None? || rest.value < msgs[0].createdAt then Some(msgs[0].createdAt)
      else rest
  }

  /** The messages of ms created exactly at `at`. */
  function CreatedAtOnly(ms: seq<Message>, at: int): (r: seq<Message>)
    ensures forall m :: m in r <==> m in ms && m.createdAt == at
  {
    if ms == [] then []
    else if ms[0].createdAt == at then [ms[0]] + CreatedAtOnly(ms[1..], at)
    else CreatedAtOnly(ms[1..], at)
  }

  /**
   * The preview the lists load for conversation c: the surviving messages
   * whose `created_at` equals the newest `created_at` of ALL the
   * conversation's messages (the `groupBy` then keeps one of them).
   */
  function LastMessages(msgs: seq<Message>, deleted: seq<DeletedMessage>, from: PartId, c: ConvId): (r: seq<Message>)
    ensures forall m :: m in r <==>
      m in msgs && m.conversationId == c && !HiddenFor(deleted, m, from) && Newest(msgs, c, m)
  {
    match MaxCreatedAt(msgs, c)
    case None => []
    case Some(newest) => CreatedAtOnly(VisibleMessages(msgs, deleted, from, c), newest)
  }

  /**
   * The preview is empty exactly when every newest message of the
   * conversation is hidden from `from` (or it has no messages).
   */
  lemma PreviewEmptyIffNewestHidden(msgs: seq<Message>, deleted: seq<DeletedMessage>, from: PartId, c: ConvId)
    ensures LastMessages(msgs, deleted, from, c) == []
            <==> forall m :: m in msgs && m.conversationId == c && Newest(msgs, c, m) ==> HiddenFor(deleted, m, from)
  {
    var r := LastMessages(msgs, deleted, from, c);
    if r != [] {
      assert r[0] in r;
    }
  }

  /**
   * Whether a message is hidden does not depend on which participant's
   * `deleted_messages` row references it.
   */
  lemma HidingIgnoresDeleter(deleted: seq<DeletedMessage>, m: Message, from: PartId, q: PartId, q': PartId)
    ensures HiddenFor(deleted + [DeletedMessage(m.id, q)], m, from)
            == HiddenFor(deleted + [DeletedMessage(m.id, q')], m, from)
    ensures HiddenFor(deleted + [DeletedMessage(m.id, q)], m, from) == (m.participantId == from)
  {
  }

  /**
   * A message another participant sent stays visible to `from` even when
   * `from` has a `deleted_messages` row for it, and the newest message being
   * hidden empties the preview although older messages survive.
   */
  lemma HidingExamples()
    ensures VisibleMessages([Message(1, 7, 9, 10)], [DeletedMessage(1, 5)], 5, 7) == [Message(1, 7, 9, 10)]
    ensures var msgs := [Message(1, 7, 5, 10), Message(2, 7, 5, 20)];
            var deleted := [DeletedMessage(2, 9)];
            VisibleMessages(msgs, deleted, 5, 7) == [Message(1, 7, 5, 10)]
            && LastMessages(msgs, deleted, 5, 7) == []
  {
    var msgs := [Message(1, 7, 5, 10), Message(2, 7, 5, 20)];
    var deleted := [DeletedMessage(2, 9)];
    assert HiddenFor(deleted, msgs[1], 5) by { assert deleted[0] in deleted; }
    assert !HiddenFor(deleted, msgs[0], 5);
    assert msgs[1..][1..] == [];
    PreviewEmptyIffNewestHidden(msgs, deleted, 5, 7);
  }
}

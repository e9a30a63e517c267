/**
 * Per-participant visibility of a conversation, read off the
 * `deleted_conversations` marker of the (conversation, participant) pair,
 * and the three lookups built on it.
 */
module Visibility {
  import opened Schema

  /**
   * The tagged state a marker encodes: no marker (Active), a marker with
   * archived = 0 (Archived) or a marker with archived = 1 (Removed).
   */
  datatype ViewState = Active | Archived | Removed

  function StateOf(markers: map<Pair, Flag>, c: ConvId, p: PartId): (s: ViewState)
    ensures s == Active <==> (c, p) !in markers
    ensures s == Archived <==> (c, p) in markers && markers[(c, p)] == 0
    ensures s == Removed <==> (c, p) in markers && markers[(c, p)] == 1
  {
    if (c, p) !in markers then Active
    else if markers[(c, p)] == 0 then Archived
    else Removed
  }

  /** Whether `find($conversation_id)` sees a row of `conversations`. */
  predicate Exists(t: Tables, c: ConvId)
  {
    c in t.conversations
  }

  /** `find($conversation_id)` on the conversations table, with no condition. */
  function Find(t: Tables, c: ConvId): (r: Option<ConvId>)
    ensures r.Some? ==> r.value == c
    ensures r.Some? <==> Exists(t, c)
  {
    if c in t.conversations then Some(c) else None
  }

  /**
   * `conversationActive`: find the conversation among those for which no
   * `deleted_conversations` row of `from` exists.
   */
  function ConversationActive(t: Tables, c: ConvId, from: PartId): (r: Option<ConvId>)
    ensures r.Some? ==> r.value == c
    ensures r.Some? <==> Exists(t, c) && StateOf(t.deletedConversations, c, from) == Active
  {
    if c in t.conversations && (c, from) !in t.deletedConversations then Some(c) else None
  }

  /**
   * `conversationArchived`: find the conversation among those for which a
   * row of `from` with archived = 0 exists.
   */
  function ConversationArchived(t: Tables, c: ConvId, from: PartId): (r: Option<ConvId>)
    ensures r.Some? ==> r.value == c
    ensures r.Some? <==> Exists(t, c) && StateOf(t.deletedConversations, c, from) == Archived
  {
    if c in t.conversations && (c, from) in t.deletedConversations && t.deletedConversations[(c, from)] == 0
    then Some(c) else None
  }

  /**
   * `conversationReadable`: find the conversation among those for which no
   * row of `from` with archived = 1 exists.
   */
  function ConversationReadable(t: Tables, c: ConvId, from: PartId): (r: Option<ConvId>)
    ensures r.Some? ==> r.value == c
    ensures r.Some? <==> Exists(t, c) && StateOf(t.deletedConversations, c, from) != Removed
  {
    if c in t.conversations && !((c, from) in t.deletedConversations && t.deletedConversations[(c, from)] == 1)
    then Some(c) else None
  }

  /**
   * How the three lookups relate: readable is exactly active or archived,
   * active and archived exclude each other, and none of them finds a
   * conversation whose row does not exist.
   */
  lemma LookupRelations(t: Tables, c: ConvId, from: PartId)
    ensures ConversationActive(t, c, from).Some? ==> ConversationReadable(t, c, from).Some?
    ensures ConversationArchived(t, c, from).Some? ==> ConversationReadable(t, c, from).Some?
    ensures !(ConversationActive(t, c, from).Some? && ConversationArchived(t, c, from).Some?)
    ensures ConversationReadable(t, c, from).Some?
            <==> ConversationActive(t, c, from).Some? || ConversationArchived(t, c, from).Some?
    ensures Exists(t, c) ==> ConversationActive(t, c, from).Some? || ConversationArchived(t, c, from).Some?
                             || StateOf(t.deletedConversations, c, from) == Removed
  {
  }

  /** Writing or removing the marker of one pair leaves every other pair's state alone. */
  lemma MarkerFrame(markers: map<Pair, Flag>, c: ConvId, p: PartId, f: Flag, c': ConvId, p': PartId)
    requires (c', p') != (c, p)
    ensures StateOf(markers[(c, p) := f], c', p') == StateOf(markers, c', p')
    ensures StateOf(markers - {(c, p)}, c', p') == StateOf(markers, c', p')
  {
  }
}

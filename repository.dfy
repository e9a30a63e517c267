/**
 * `ConversationRepository`: the tables it works on, and the three
 * operations that write the `deleted_conversations` marker of a
 * (conversation, participant) pair — archive, forceRemove and restore.
 */
module Repository {
  import opened Schema
  import opened Visibility
  import opened MessageFilters
  import opened Queries

  class ConversationRepository {
    var conversations: seq<ConvId>
    var participants: seq<Participant>
    var messages: seq<Message>
    var deletedMessages: seq<DeletedMessage>
    var deletedConversations: map<Pair, Flag>

    constructor (t: Tables)
      ensures Snapshot() == t
    {
      conversations := t.conversations;
      participants := t.participants;
      messages := t.messages;
      deletedMessages := t.deletedMessages;
      deletedConversations := t.deletedConversations;
    }

    /** The tables as the read operations see them. */
    function Snapshot(): Tables
      reads this
    {
      Tables(conversations, participants, messages, deletedMessages, deletedConversations)
    }

    /**
     * `DeletedConversation::findOrCreate`: the stored row of the pair, or a
     * new row whose attributes are not set yet (zeros here).
     */
    function FindOrCreate(c: ConvId, p: PartId): (row: DeletedConversation)
      reads this
      ensures (c, p) in deletedConversations ==> row == DeletedConversation(c, p, deletedConversations[(c, p)])
    {
      if (c, p) in deletedConversations then DeletedConversation(c, p, deletedConversations[(c, p)])
      else DeletedConversation(0, 0, 0)
    }

    /**
     * `archive($conversation_id, $partecipant)`: find or create the marker,
     * set archived = 0 and save. `saveSucceeds` is what `save()` returns; on
     * false nothing is stored and the result is None (PHP's `false`).
     */
    method Archive(c: ConvId, p: PartId, saveSucceeds: bool) returns (r: Option<DeletedConversation>)
      modifies this`deletedConversations
      ensures r == if saveSucceeds then Some(DeletedConversation(c, p, 0)) else None
      ensures deletedConversations
              == if saveSucceeds then old(deletedConversations)[(c, p) := 0] else old(deletedConversations)
      ensures saveSucceeds ==> StateOf(deletedConversations, c, p) == Archived
      ensures saveSucceeds ==> ConversationArchived(Snapshot(), c, p) == Find(Snapshot(), c)
                               && ConversationActive(Snapshot(), c, p).None?
                               && ConversationReadable(Snapshot(), c, p) == Find(Snapshot(), c)
      ensures forall c': ConvId, p': PartId :: (c', p') != (c, p) ==>
                StateOf(deletedConversations, c', p') == StateOf(old(deletedConversations), c', p')
    {
      var conversationDeleted := FindOrCreate(c, p);
      conversationDeleted := conversationDeleted.(conversationId := c);
      conversationDeleted := conversationDeleted.(participantId := p);
      conversationDeleted := conversationDeleted.(archived := 0);
      if saveSucceeds {
        deletedConversations := deletedConversations[(conversationDeleted.conversationId, conversationDeleted.participantId)
                                                     := conversationDeleted.archived];
        return Some(conversationDeleted);
      }
      return None;
    }

    /**
     * `forceRemove($conversation_id, $participant)`: as `archive`, with
     * archived = 1; afterwards neither message lookup finds the conversation.
     */
    method ForceRemove(c: ConvId, p: PartId, saveSucceeds: bool) returns (r: Option<DeletedConversation>)
      modifies this`deletedConversations
      ensures r == if saveSucceeds then Some(DeletedConversation(c, p, 1)) else None
      ensures deletedConversations
              == if saveSucceeds then old(deletedConversations)[(c, p) := 1] else old(deletedConversations)
      ensures saveSucceeds ==> StateOf(deletedConversations, c, p) == Removed
      ensures saveSucceeds ==> ConversationReadable(Snapshot(), c, p).None?
                               && ConversationArchived(Snapshot(), c, p).None?
                               && ConversationActive(Snapshot(), c, p).None?
      ensures saveSucceeds ==> forall filters ::
                GetMessagesById(Snapshot(), c, Some(p), filters).ConversationNotFound?
                && GetMessagesOnArchivedConversation(Snapshot(), c, p, filters).ConversationNotFound?
      ensures forall c': ConvId, p': PartId :: (c', p') != (c, p) ==>
                StateOf(deletedConversations, c', p') == StateOf(old(deletedConversations), c', p')
    {
      var conversationDeleted := FindOrCreate(c, p);
      conversationDeleted := conversationDeleted.(conversationId := c);
      conversationDeleted := conversationDeleted.(participantId := p);
      conversationDeleted := conversationDeleted.(archived := 1);
      if saveSucceeds {
        deletedConversations := deletedConversations[(conversationDeleted.conversationId, conversationDeleted.participantId)
                                                     := conversationDeleted.archived];
        return Some(conversationDeleted);
      }
      return None;
    }

    /**
     * `restore($conversation_id, $from)`: delete the pair's marker if there is
     * one and return what `delete()` returns (`deleteSucceeds`); with no
     * marker, return false and change nothing.
     */
    method Restore(c: ConvId, p: PartId, deleteSucceeds: bool) returns (ok: bool)
      modifies this`deletedConversations
      ensures ok <==> (c, p) in old(deletedConversations) && deleteSucceeds
      ensures deletedConversations == if ok then old(deletedConversations) - {(c, p)} else old(deletedConversations)
      ensures ok ==> StateOf(deletedConversations, c, p) == Active
                     && ConversationActive(Snapshot(), c, p) == Find(Snapshot(), c)
      ensures forall c': ConvId, p': PartId :: (c', p') != (c, p) ==>
                StateOf(deletedConversations, c', p') == StateOf(old(deletedConversations), c', p')
    {
      if (c, p) in deletedConversations {
        if deleteSucceeds {
          deletedConversations := deletedConversations - {(c, p)};
        }
        return deleteSucceeds;
      }
      return false;
    }
  }

  /**
   * Two `restore` calls in a row on the same pair: the second finds no
   * marker when the first removed it, and neither succeeds when there was
   * no marker to begin with.
   */
  method RestoreTwice(t: Tables, c: ConvId, p: PartId, firstDelete: bool, secondDelete: bool)
    returns (first: bool, second: bool)
    ensures first ==> !second
    ensures first <==> (c, p) in t.deletedConversations && firstDelete
    ensures (c, p) !in t.deletedConversations ==> !first && !second
  {
    var repository := new ConversationRepository(t);
    first := repository.Restore(c, p, firstDelete);
    second := repository.Restore(c, p, secondDelete);
  }

  /**
   * Archiving and then restoring a pair: the pair ends with no marker, so
   * `conversationActive` finds the conversation again whatever marker the
   * pair had before, and no other pair's state changed.
   */
  method ArchiveThenRestore(t: Tables, c: ConvId, p: PartId) returns (after: Tables)
    ensures (c, p) !in after.deletedConversations
    ensures ConversationActive(after, c, p) == Find(t, c)
    ensures after.deletedConversations == t.deletedConversations - {(c, p)}
    ensures after.conversations == t.conversations && after.messages == t.messages
            && after.participants == t.participants && after.deletedMessages == t.deletedMessages
  {
    var repository := new ConversationRepository(t);
    var archived := repository.Archive(c, p, true);
    var restored := repository.Restore(c, p, true);
    after := repository.Snapshot();
  }

  /**
   * Archiving a pair on any tables: `conversationArchived` and
   * `conversationReadable` then find the conversation exactly when it exists,
   * and `conversationActive` never does.
   */
  method ArchiveThenLookups(t: Tables, c: ConvId, p: PartId)
    returns (active: Option<ConvId>, archived: Option<ConvId>, readable: Option<ConvId>)
    ensures active == None
    ensures archived == readable == (if c in t.conversations then Some(c) else None)
  {
    var repository := new ConversationRepository(t);
    var row := repository.Archive(c, p, true);
    active := ConversationActive(repository.Snapshot(), c, p);
    archived := ConversationArchived(repository.Snapshot(), c, p);
    readable := ConversationReadable(repository.Snapshot(), c, p);
  }

  /**
   * Force-removing a pair on any tables: both message lookups of that
   * participant then throw `ConversationNotFoundException`, while another
   * participant's view of the conversation is untouched.
   */
  method ForceRemoveThenLookups(t: Tables, c: ConvId, p: PartId, other: PartId, filters: FilterArray)
    returns (byId: Lookup<ConversationLoad>, onArchived: Lookup<ConversationLoad>, otherState: ViewState)
    requires other != p
    ensures byId == ConversationNotFound && onArchived == ConversationNotFound
    ensures otherState == StateOf(t.deletedConversations, c, other)
  {
    var repository := new ConversationRepository(t);
    var row := repository.ForceRemove(c, p, true);
    byId := GetMessagesById(repository.Snapshot(), c, Some(p), filters);
    onArchived := GetMessagesOnArchivedConversation(repository.Snapshot(), c, p, filters);
    otherState := StateOf(repository.deletedConversations, c, other);
  }

  /** Participants 1 and 2 of conversation 1. */
  const ScenarioParticipants: seq<Participant> := [Participant(1, 1), Participant(2, 1)]

  /** Messages of conversation 1 sent at times 10 and 20. */
  const ScenarioMessages: seq<Message> := [Message(1, 1, 1, 10), Message(2, 1, 2, 20)]

  /** How conversation 1 is listed to participant 1 in this scenario, whatever its marker. */
  lemma ScenarioSummary(markers: map<Pair, Flag>)
    ensures Summary(Tables([1], ScenarioParticipants, ScenarioMessages, [], markers), 1, 1, [])
            == ConversationSummary(1, ScenarioParticipants, [Message(2, 1, 2, 20)])
  {
    var ps, ms := ScenarioParticipants, ScenarioMessages;
    assert ps[1..][1..] == [];
    assert ListParticipants(ps, 1, 1, []) == ps;
    assert ms[1..][1..] == [];
    assert MaxCreatedAt(ms, 1) == Some(20);
    assert VisibleMessages(ms, [], 1, 1) == ms;
    assert CreatedAtOnly(ms, 20) == [ms[1]];
  }

  /** The lists participant 1 sees of the one-conversation scenario tables. */
  lemma ScenarioLists(markers: map<Pair, Flag>)
    ensures var t := Tables([1], ScenarioParticipants, ScenarioMessages, [], markers);
            var listed := [ConversationSummary(1, ScenarioParticipants, [Message(2, 1, 2, 20)])];
            && GetLists(t, 1, []).conversations == (if (1, 1) !in markers then listed else [])
            && GetArchivedLists(t, 1, []).conversations
               == (if (1, 1) in markers && markers[(1, 1)] == 0 then listed else [])
  {
    var t := Tables([1], ScenarioParticipants, ScenarioMessages, [], markers);
    ScenarioSummary(markers);
    assert [1][1..] == [];
    assert Summaries([], t, 1, [], Active) == [] && Summaries([], t, 1, [], Archived) == [];
    assert Summaries([1], t, 1, [], Active)
           == if StateOf(markers, 1, 1) == Active then [Summary(t, 1, 1, [])] else [];
    assert Summaries([1], t, 1, [], Archived)
           == if StateOf(markers, 1, 1) == Archived then [Summary(t, 1, 1, [])] else [];
  }

  /**
   * A conversation with participants 1 and 2 and messages at times 10 and 20:
   * once participant 1 archives it, it leaves their list and enters their
   * archived list with the time-20 message as its preview, and restoring it
   * puts it back in their list.
   */
  method ArchiveListScenario() returns (archivedList: ConversationList, activeList: ConversationList,
                                         restoredList: ConversationList)
    ensures archivedList.conversations == [ConversationSummary(1, [Participant(1, 1), Participant(2, 1)],
                                                               [Message(2, 1, 2, 20)])]
    ensures activeList.conversations == []
    ensures restoredList.conversations == archivedList.conversations
  {
    var repository := new ConversationRepository(Tables([1], ScenarioParticipants, ScenarioMessages, [], map[]));
    var archived := repository.Archive(1, 1, true);
    ScenarioLists(repository.deletedConversations);
    archivedList := GetArchivedLists(repository.Snapshot(), 1, []);
    activeList := GetLists(repository.Snapshot(), 1, []);
    var restored := repository.Restore(1, 1, true);
    ScenarioLists(repository.deletedConversations);
    restoredList := GetLists(repository.Snapshot(), 1, []);
  }
}

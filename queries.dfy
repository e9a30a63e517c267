/**
 * The read operations of the repository: a conversation with its messages
 * (`getMessagesById`, `getMessagesOnArchivedConversation`) and the lists of
 * conversations with their last message (`getLists`, `getArchivedLists`).
 */
module Queries {
  import opened Schema
  import opened Visibility
  import opened MessageFilters
  import opened Filters

  /** A lookup that either finds its value or throws `ConversationNotFoundException`. */
  datatype Lookup<+T> = Found(value: T) | ConversationNotFound

  /**
   * A conversation as `getMessages*` load it: its participants, its messages
   * and the calls `addFilters` made on the messages query.
   */
  datatype ConversationLoad = ConversationLoad(
    id: ConvId, participants: seq<Participant>, messages: seq<Message>, messageCalls: seq<Call>)

  /** A conversation of a list: its participants and its last-message preview. */
  datatype ConversationSummary = ConversationSummary(
    id: ConvId, participants: seq<Participant>, lastMessages: seq<Message>)

  /** A list of conversations and the calls `addFilters` made on the list query. */
  datatype ConversationList = ConversationList(conversations: seq<ConversationSummary>, calls: seq<Call>)

  /** The `participants` relation of a conversation. */
  function ParticipantsOf(ps: seq<Participant>, c: ConvId): (r: seq<Participant>)
    ensures forall q :: q in r <==> q in ps && q.conversationId == c
  {
    if ps == [] then []
    else if ps[0].conversationId == c then [ps[0]] + ParticipantsOf(ps[1..], c)
    else ParticipantsOf(ps[1..], c)
  }

  /** `where('id', '!=', $from)` on a participants query. */
  function WithoutId(ps: seq<Participant>, from: PartId): (r: seq<Participant>)
    ensures forall q :: q in r <==> q in ps && q.id != from
  {
    if ps == [] then []
    else if ps[0].id != from then [ps[0]] + WithoutId(ps[1..], from)
    else WithoutId(ps[1..], from)
  }

  /** The `founder` key is present and its value is falsy. */
  predicate ExcludesFounder(filters: FilterArray)
  {
    var founder := FilterValue(filters, "founder");
    founder.Some? && Falsy(founder.value)
  }

  /** The participants a list loads for conversation c. */
  function ListParticipants(ps: seq<Participant>, c: ConvId, from: PartId, filters: FilterArray): (r: seq<Participant>)
    ensures forall q :: q in r <==> q in ps && q.conversationId == c && !(ExcludesFounder(filters) && q.id == from)
  {
    if ExcludesFounder(filters) then WithoutId(ParticipantsOf(ps, c), from) else ParticipantsOf(ps, c)
  }

  /** `getMessagesById($conversation_id, $from, $filters)`, with null `$from` as None. */
  function GetMessagesById(t: Tables, c: ConvId, from: Option<PartId>, filters: FilterArray): (r: Lookup<ConversationLoad>)
    ensures r.ConversationNotFound?
            <==> !Exists(t, c) || (from.Some? && StateOf(t.deletedConversations, c, from.value) == Removed)
    ensures r.Found? ==> r.value.id == c
    ensures r.Found? ==> forall q :: q in r.value.participants <==> q in t.participants && q.conversationId == c
    ensures r.Found? ==> forall m :: m in r.value.messages <==>
              m in t.messages && m.conversationId == c && (from.Some? ==> !HiddenFor(t.deletedMessages, m, from.value))
    ensures r.Found? ==> r.value.messageCalls == if from.Some? then FilterCalls(filters) else []
  {
    var conversation := if from.Some? then ConversationReadable(t, c, from.value) else Find(t, c);
    if conversation.None? then ConversationNotFound
    else if from.Some? then
      Found(ConversationLoad(c, ParticipantsOf(t.participants, c),
                             VisibleMessages(t.messages, t.deletedMessages, from.value, c), FilterCalls(filters)))
    else
      Found(ConversationLoad(c, ParticipantsOf(t.participants, c), MessagesOf(t.messages, c), []))
  }

  /** `getMessagesOnArchivedConversation($conversation_id, $from, $filters)`. */
  function GetMessagesOnArchivedConversation(t: Tables, c: ConvId, from: PartId, filters: FilterArray)
    : (r: Lookup<ConversationLoad>)
    ensures r.ConversationNotFound? <==> !Exists(t, c) || StateOf(t.deletedConversations, c, from) != Archived
    ensures r.Found? ==> r.value.id == c
    ensures r.Found? ==> forall q :: q in r.value.participants <==> q in t.participants && q.conversationId == c
    ensures r.Found? ==> forall m :: m in r.value.messages <==>
              m in t.messages && m.conversationId == c && !HiddenFor(t.deletedMessages, m, from)
    ensures r.Found? ==> r.value.messageCalls == FilterCalls(filters)
  {
    match ConversationArchived(t, c, from)
    case None => ConversationNotFound
    case Some(_) =>
      Found(ConversationLoad(c, ParticipantsOf(t.participants, c),
                             VisibleMessages(t.messages, t.deletedMessages, from, c), FilterCalls(filters)))
  }

  /** How a list presents conversation c to `from`. */
  function Summary(t: Tables, c: ConvId, from: PartId, filters: FilterArray): ConversationSummary
  {
    ConversationSummary(c, ListParticipants(t.participants, c, from, filters),
                        LastMessages(t.messages, t.deletedMessages, from, c))
  }

  /** Conversation c has an entry in the list r. */
  predicate Listed(r: seq<ConversationSummary>, c: ConvId)
  {
    exists s :: s in r && s.id == c
  }

  /** The conversations of `convs`, in order, whose state for `from` is `view`. */
  function Summaries(convs: seq<ConvId>, t: Tables, from: PartId, filters: FilterArray, view: ViewState)
    : (r: seq<ConversationSummary>)
    ensures forall c: ConvId :: Listed(r, c) <==> c in convs && StateOf(t.deletedConversations, c, from) == view
    ensures forall s :: s in r ==> s == Summary(t, s.id, from, filters)
    ensures DistinctIds(convs) ==> forall i, j :: 0 <= i < j < |r| ==> r[i].id != r[j].id
  {
    if convs == [] then []
    else
      var rest := Summaries(convs[1..], t, from, filters, view);
      assert forall c :: c in convs <==> c == convs[0] || c in convs[1..];
      if StateOf(t.deletedConversations, convs[0], from) == view
      then
        var r := [Summary(t, convs[0], from, filters)] + rest;
        assert forall c: ConvId :: Listed(r, c) <==> c == convs[0] || Listed(rest, c) by {
          forall c: ConvId ensures Listed(r, c) <==> c == convs[0] || Listed(rest, c) {
            if Listed(rest, c) {
              var s :| s in rest && s.id == c;
              assert s in r;
            }
            assert r[0] in r;
          }
        }
        assert DistinctIds(convs) ==> forall i, j :: 0 <= i < j < |r| ==> r[i].id != r[j].id by {
          if DistinctIds(convs) {
            DistinctTail(convs);
            PrependDistinct(convs, rest, Summary(t, convs[0], from, filters));
          }
        }
        r
      else rest
  }

  /** The tail of a sequence of distinct ids has distinct ids. */
  lemma DistinctTail(convs: seq<ConvId>)
    requires convs != [] && DistinctIds(convs)
    ensures DistinctIds(convs[1..]) && convs[0] !in convs[1..]
  {
    forall i, j | 0 <= i < j < |convs[1..]| ensures convs[1..][i] != convs[1..][j] {
      assert convs[1..][i] == convs[i + 1] && convs[1..][j] == convs[j + 1];
    }
    forall k | 0 <= k < |convs[1..]| ensures convs[1..][k] != convs[0] {
      assert convs[1..][k] == convs[k + 1];
    }
  }

  /** Prepending an entry for a conversation the rest does not list keeps the ids distinct. */
  lemma PrependDistinct(convs: seq<ConvId>, rest: seq<ConversationSummary>, s: ConversationSummary)
    requires convs != [] && s.id == convs[0] && convs[0] !in convs[1..]
    requires forall c: ConvId :: Listed(rest, c) ==> c in convs[1..]
    requires forall i, j :: 0 <= i < j < |rest| ==> rest[i].id != rest[j].id
    ensures forall i, j :: 0 <= i < j < |[s] + rest| ==> ([s] + rest)[i].id != ([s] + rest)[j].id
  {
    var r := [s] + rest;
    forall i, j | 0 <= i < j < |r| ensures r[i].id != r[j].id {
      assert r[j] == rest[j - 1] && r[j] in rest;
      assert Listed(rest, r[j].id);
      if i > 0 {
        assert r[i] == rest[i - 1];
      }
    }
  }

  /** `getLists($from, $filters)`: the conversations with no marker of `from`. */
  function GetLists(t: Tables, from: PartId, filters: FilterArray): (r: ConversationList)
    ensures forall c: ConvId :: Listed(r.conversations, c)
                                <==> c in t.conversations && StateOf(t.deletedConversations, c, from) == Active
    ensures forall s :: s in r.conversations ==> s == Summary(t, s.id, from, filters)
    ensures DistinctIds(t.conversations)
            ==> forall i, j :: 0 <= i < j < |r.conversations| ==> r.conversations[i].id != r.conversations[j].id
    ensures r.calls == FilterCalls(filters)
  {
    ConversationList(Summaries(t.conversations, t, from, filters, Active), FilterCalls(filters))
  }

  /** `getArchivedLists($from, $filters)`: the conversations with an archived = 0 marker of `from`. */
  function GetArchivedLists(t: Tables, from: PartId, filters: FilterArray): (r: ConversationList)
    ensures forall c: ConvId :: Listed(r.conversations, c)
                                <==> c in t.conversations && StateOf(t.deletedConversations, c, from) == Archived
    ensures forall s :: s in r.conversations ==> s == Summary(t, s.id, from, filters)
    ensures DistinctIds(t.conversations)
            ==> forall i, j :: 0 <= i < j < |r.conversations| ==> r.conversations[i].id != r.conversations[j].id
    ensures r.calls == FilterCalls(filters)
  {
    ConversationList(Summaries(t.conversations, t, from, filters, Archived), FilterCalls(filters))
  }

  /**
   * What a listed conversation carries: its participants, without `from`
   * when `founder` is present and falsy, and the surviving messages created
   * at the newest timestamp of the whole conversation.
   */
  lemma ListedContents(t: Tables, from: PartId, filters: FilterArray, s: ConversationSummary)
    requires s in GetLists(t, from, filters).conversations || s in GetArchivedLists(t, from, filters).conversations
    ensures forall q :: q in s.participants <==>
              q in t.participants && q.conversationId == s.id && !(ExcludesFounder(filters) && q.id == from)
    ensures forall m :: m in s.lastMessages <==>
              m in t.messages && m.conversationId == s.id && !HiddenFor(t.deletedMessages, m, from)
              && Newest(t.messages, s.id, m)
  {
  }

  /**
   * A conversation that exists is listed to `from` by `getLists` or by
   * `getArchivedLists` exactly when `conversationReadable` finds it, and
   * never by both.
   */
  lemma ListsCoverReadable(t: Tables, c: ConvId, from: PartId, filters: FilterArray)
    ensures Listed(GetLists(t, from, filters).conversations, c) || Listed(GetArchivedLists(t, from, filters).conversations, c)
            <==> ConversationReadable(t, c, from).Some?
    ensures !(Listed(GetLists(t, from, filters).conversations, c)
              && Listed(GetArchivedLists(t, from, filters).conversations, c))
  {
  }

  /** With a null `$from`, `getMessagesById` throws only for a conversation that does not exist. */
  lemma NullFromFailsOnlyWhenMissing(t: Tables, c: ConvId, filters: FilterArray)
    ensures GetMessagesById(t, c, None, filters).ConversationNotFound? <==> c !in t.conversations
  {
  }

  /** PHP truthiness of the `founder` value decides the filter: false, 0, "" and "0" switch it on. */
  lemma FounderValues()
    ensures ExcludesFounder([("founder", VBool(false))]) && ExcludesFounder([("limit", VInt(5)), ("founder", VStr("0"))])
    ensures !ExcludesFounder([]) && !ExcludesFounder([("founder", VBool(true))]) && !ExcludesFounder([("founder", VInt(2))])
  {
  }

  /** The founder filter drops the rows whose id is `from` and nothing else. */
  lemma FounderFilter(t: Tables, c: ConvId, from: PartId, filters: FilterArray)
    ensures ExcludesFounder(filters) ==>
              forall q :: q in ListParticipants(t.participants, c, from, filters) ==> q.id != from
    ensures !ExcludesFounder(filters) ==>
              ListParticipants(t.participants, c, from, filters) == ParticipantsOf(t.participants, c)
  {
  }
}

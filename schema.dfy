/**
 * The rows of the tables the conversation repository reads and writes,
 * and the PHP values a caller passes in a filter array.
 */
module Schema {

  datatype Option<+T> = None | Some(value: T)

  type ConvId = nat
  type PartId = nat
  type MessageId = nat

  /** The `archived` column of `deleted_conversations`: only 0 or 1 is ever written. */
  type Flag = f: int | f == 0 || f == 1

  /** The key of a `deleted_conversations` row: (conversation_id, participant_id). */
  type Pair = (ConvId, PartId)

  /** A row of `participants`: its own id and the conversation it belongs to. */
  datatype Participant = Participant(id: PartId, conversationId: ConvId)

  /** A row of `messages`. */
  datatype Message = Message(id: MessageId, conversationId: ConvId, participantId: PartId, createdAt: int)

  /** A row of `deleted_messages`. */
  datatype DeletedMessage = DeletedMessage(messageId: MessageId, participantId: PartId)

  /** A row of `deleted_conversations`, as `archive` and `forceRemove` return it. */
  datatype DeletedConversation = DeletedConversation(conversationId: ConvId, participantId: PartId, archived: Flag)

  /**
   * The database as the repository sees it. `deleted_conversations` is keyed
   * by its (conversation, participant) pair: find-or-create never makes a
   * second row for a pair.
   */
  datatype Tables = Tables(
    conversations: seq<ConvId>,
    participants: seq<Participant>,
    messages: seq<Message>,
    deletedMessages: seq<DeletedMessage>,
    deletedConversations: map<Pair, Flag>)

  /** A PHP scalar as it can appear as a value of the `$filters` array. */
  datatype Value = VNull | VBool(b: bool) | VInt(i: int) | VStr(s: string)

  /** PHP's `!$v` for the scalars above: null, false, 0, "" and "0" are falsy. */
  predicate Falsy(v: Value)
  {
    match v
    case VNull => true
    case VBool(b) => !b
    case VInt(i) => i == 0
    case VStr(s) => s == "" || s == "0"
  }

  /** A PHP array with string keys, in insertion order. */
  type FilterArray = seq<(string, Value)>

  /** No two entries share a key, as in every PHP array. */
  predicate UniqueKeys(filters: FilterArray)
  {
    forall i, j :: 0 <= i < j < |filters| ==> filters[i].0 != filters[j].0
  }

  /** No id occurs twice, as for the primary key of a table. */
  predicate DistinctIds(ids: seq<ConvId>)
  {
    forall i, j :: 0 <= i < j < |ids| ==> ids[i] != ids[j]
  }

  /** `$filters[$key]` when `array_key_exists($key, $filters)`, else None. */
  function FilterValue(filters: FilterArray, key: string): (r: Option<Value>)
    ensures r.Some? <==> exists i :: 0 <= i < |filters| && filters[i].0 == key
    ensures r.Some? ==> exists i :: 0 <= i < |filters| && filters[i] == (key, r.value)
                                   && forall j :: 0 <= j < i ==> filters[j].0 != key
    ensures UniqueKeys(filters) ==> forall i :: 0 <= i < |filters| && filters[i].0 == key ==> r == Some(filters[i].1)
  {
    if filters == [] then None
    else if filters[0].0 == key then Some(filters[0].1)
    else
      var r := FilterValue(filters[1..], key);
      assert forall i :: 0 <= i < |filters[1..]| ==> filters[1..][i] == filters[i + 1];
      assert r.Some? ==> exists i :: 0 <= i < |filters| && filters[i].0 == key by {
        if r.Some? {
          var j :| 0 <= j < |filters[1..]| && filters[1..][j].0 == key;
          assert filters[j + 1].0 == key;
        }
      }
      assert r.Some? ==> exists i :: 0 <= i < |filters| && filters[i] == (key, r.value)
                                     && forall j :: 0 <= j < i ==> filters[j].0 != key by {
        if r.Some? {
          var k :| 0 <= k < |filters[1..]| && filters[1..][k] == (key, r.value)
                   && forall j :: 0 <= j < k ==> filters[1..][j].0 != key;
          assert filters[k + 1] == (key, r.value);
          forall j | 0 <= j < k + 1 ensures filters[j].0 != key {
            if j > 0 { assert filters[1..][j - 1] == filters[j]; }
          }
        }
      }
      r
  }
}

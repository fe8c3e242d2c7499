/** The shared table: partitions of documents, each in sort-key order. */
module Documents {
  import opened Wrappers

  datatype Item = Item(docId: string, title: Option<string>, body: Option<string>, conversation: Option<seq<string>>)

  type Table = map<string, seq<Item>>

  function Partition(t: Table, scope: string): seq<Item> {
    if scope in t then t[scope] else []
  }

  /** Position of the item with this sort key. */
  function Find(items: seq<Item>, docId: string): (r: Option<nat>)
    ensures r.Some? ==> r.value < |items| && items[r.value].docId == docId
    ensures r.None? <==> forall i | 0 <= i < |items| :: items[i].docId != docId
  {
    if items == [] then None
    else if items[0].docId == docId then Some(0)
    else
      var rest := Find(items[1..], docId);
      assert forall i | 1 <= i < |items| :: items[i] == items[1..][i - 1];
      if rest.Some? then Some(rest.value + 1) else None
  }

  function Entries(item: Item): seq<string> {
    item.conversation.GetOr([])
  }

  const MAX_CONVERSATION_LEN := 50

  /** The condition of the update: the document exists and its conversation has room. */
  predicate CanAppend(items: seq<Item>, docId: string) {
    var at := Find(items, docId);
    at.Some? && (items[at.value].conversation.None? || |items[at.value].conversation.value| < MAX_CONVERSATION_LEN)
  }

  /** The update when its condition holds: one entry appended, nothing else touched. */
  function Appended(items: seq<Item>, docId: string, entry: string): seq<Item>
    requires CanAppend(items, docId)
  {
    var at := Find(items, docId).value;
    items[at := items[at].(conversation := Some(Entries(items[at]) + [entry]))]
  }

  /** The whole conditional update of one partition, atomic at the server. */
  function Updated(items: seq<Item>, docId: string, entry: string): seq<Item> {
    if CanAppend(items, docId) then Appended(items, docId, entry) else items
  }
}

/** ItemValidator: existence lookup and the owner-only gate of item edits. */
module ItemValidator {
  import opened Results
  import opened Domain
  import opened Seqs

  /** Selects the item stored under itemId. */
  function HasId(itemId: int): Item -> bool {
    (it: Item) => it.id == itemId
  }

  /** Position of the item findById returns, or -1. */
  function IndexOfItem(items: seq<Item>, itemId: int): (k: int)
    ensures -1 <= k < |items|
    ensures k == -1 <==> forall it :: it in items ==> it.id != itemId
    ensures 0 <= k ==> items[k].id == itemId && forall i :: 0 <= i < k ==> items[i].id != itemId
  {
    FirstIndex(items, HasId(itemId))
  }

  /** validateItemExists: the stored item with that id, or NotFound. */
  function ValidateItemExists(items: seq<Item>, itemId: int): (r: Result<Item>)
    ensures r.Err? <==> forall it :: it in items ==> it.id != itemId
    ensures r.Err? ==> r.error == NotFound
    ensures r.Ok? ==> r.value in items && r.value.id == itemId
  {
    var k := IndexOfItem(items, itemId);
    if k < 0 then Err(NotFound) else Ok(items[k])
  }

  /** validateOwnership: a missing owner (or owner id) is InvalidState; another user is
      NotFound (validateOwnership throws EntityNotFoundException); the owner passes. */
  function ValidateOwnership(item: Item, userId: int): (r: Outcome)
    ensures r == Pass <==> OwnerId(item) == Some(userId)
    ensures OwnerId(item).None? ==> r == Fail(InvalidState)
    ensures OwnerId(item).Some? && OwnerId(item) != Some(userId) ==> r == Fail(NotFound)
  {
    if item.owner.None? || item.owner.value.id.None? then Fail(InvalidState)
    else if item.owner.value.id.value != userId then Fail(NotFound)
    else Pass
  }

  /** The missing-owner failure wins over the mismatch for every caller. */
  lemma MissingOwnerWinsForEveryUser(item: Item)
    requires OwnerId(item).None?
    ensures forall userId: int :: ValidateOwnership(item, userId) == Fail(InvalidState)
  {
  }

  /** With unique ids, the lookup returns any stored item by its own id. */
  lemma {:induction false} LookupFindsStoredItem(items: seq<Item>, item: Item)
    requires UniqueItemIds(items)
    requires item in items
    ensures ValidateItemExists(items, item.id) == Ok(item)
  {
    var j :| 0 <= j < |items| && items[j] == item;
    var k := IndexOfItem(items, item.id);
    assert 0 <= k <= j;
  }
}

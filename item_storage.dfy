/** The in-memory item store of the first version of the server
    (src/.../item/storage/InMemoryItemStorage.java): a hash map from id to
    item and an id counter starting at 1. An item whose id is null has not
    been stored yet. */
module ItemStorage {
  import opened Common
  import opened Text
  import Entities

  /** An item as this store keeps it; the id is null before the first save. */
  datatype Item = Item(id: Option<int>, name: string, description: string, available: bool, ownerId: int)

  /** The item with the non-null fields of the patch written over its own;
      id and owner never change. */
  function Patched(it: Item, patch: Entities.ItemPatch): (r: Item)
    ensures r.id == it.id && r.ownerId == it.ownerId
    ensures r.name == (if patch.name.Some? then patch.name.value else it.name)
    ensures r.description == (if patch.description.Some? then patch.description.value else it.description)
    ensures r.available == (if patch.available.Some? then patch.available.value else it.available)
  {
    var it1 := if patch.name.Some? then it.(name := patch.name.value) else it;
    var it2 := if patch.description.Some? then it1.(description := patch.description.value) else it1;
    if patch.available.Some? then it2.(available := patch.available.value) else it2
  }

  /** The condition of search: the item is available, and its lower-cased
      name or description contains the lower-cased keyword. */
  predicate SearchMatches(it: Item, keyword: string)
  {
    it.available &&
    (Contains(Lower(it.name), Lower(keyword)) || Contains(Lower(it.description), Lower(keyword)))
  }

  class ItemStorage {
    var storage: map<int, Item>
    var nextId: int

    /** Every item is stored under its own id. */
    ghost predicate Valid()
      reads this
    {
      forall k :: k in storage ==> storage[k].id == Some(k)
    }

    constructor ()
      ensures Valid()
      ensures storage == map[] && nextId == 1
    {
      storage := map[];
      nextId := 1;
    }

    /** getItem(id): NotFound unless an item is stored under the id. */
    function GetItem(id: int): (r: Result<Item>)
      reads this
      ensures r.Err? <==> id !in storage
      ensures r.Err? ==> r.error == NotFound
      ensures r.Ok? ==> r.value == storage[id]
    {
      if id !in storage then Err(NotFound) else Ok(storage[id])
    }

    /** getUserItems(ownerId): the stored items of that owner, in no
        particular order. */
    function GetUserItems(ownerId: int): (r: set<Item>)
      reads this
      ensures forall x :: x in r <==> x in storage.Values && x.ownerId == ownerId
    {
      set x | x in storage.Values && x.ownerId == ownerId
    }

    /** save(item): Conflict when the item's id is already a key; an item
        without id gets the counter's value, which then advances. An explicit
        id leaves the counter alone, so a later item without id can be given
        that same id and replace the stored one. */
    method Save(item: Item) returns (r: Result<Item>)
      requires Valid()
      modifies this
      ensures Valid()
      ensures item.id.Some? && item.id.value in old(storage) ==>
                r == Err(Conflict) && storage == old(storage) && nextId == old(nextId)
      ensures item.id.Some? && item.id.value !in old(storage) ==>
                r == Ok(item) && storage == old(storage)[item.id.value := item] && nextId == old(nextId)
      ensures item.id.None? ==>
                r == Ok(item.(id := Some(old(nextId)))) &&
                storage == old(storage)[old(nextId) := r.value] && nextId == old(nextId) + 1
      ensures r.Ok? ==> r.value.id.Some? && r.value.id.value in storage && storage[r.value.id.value] == r.value
    {
      if item.id.Some? && item.id.value in storage {
        return Err(Conflict);
      }
      var saved := item;
      if item.id.None? {
        saved := item.(id := Some(nextId));
        nextId := nextId + 1;
      }
      storage := storage[saved.id.value := saved];
      r := Ok(saved);
    }

    /** deleteItem(id): NotFound if absent; otherwise the removed item, and
        every other entry stays as it was. */
    method DeleteItem(id: int) returns (r: Result<Item>)
      requires Valid()
      modifies this`storage
      ensures Valid()
      ensures r == old(GetItem(id))
      ensures r.Ok? ==> id !in storage && storage == old(storage) - {id}
      ensures r.Err? ==> storage == old(storage)
      ensures forall k :: k in old(storage) && k != id ==> k in storage && storage[k] == old(storage)[k]
    {
      r := GetItem(id);
      if r.Ok? {
        storage := storage - {id};
      }
    }

    /** search(keyword): nothing for an empty keyword; otherwise the stored
        items that SearchMatches the keyword, in no particular order. */
    function Search(keyword: string): (r: set<Item>)
      reads this
      ensures keyword == [] ==> r == {}
      ensures keyword != [] ==> forall x :: x in r <==> x in storage.Values && SearchMatches(x, keyword)
    {
      if keyword == [] then {}
      else set x | x in storage.Values && SearchMatches(x, keyword)
    }

    /** updateItem(patch, itemId, ownerId): NotFound when the item is absent
        or has another owner; otherwise the stored item gets the patch's
        non-null fields, in place. */
    method UpdateItem(patch: Entities.ItemPatch, itemId: int, ownerId: int) returns (r: Result<Item>)
      requires Valid()
      modifies this`storage
      ensures Valid()
      ensures itemId !in old(storage) ==> r == Err(NotFound)
      ensures itemId in old(storage) && old(storage)[itemId].ownerId != ownerId ==> r == Err(NotFound)
      ensures r.Err? ==> storage == old(storage)
      ensures r.Ok? <==> itemId in old(storage) && old(storage)[itemId].ownerId == ownerId
      ensures r.Ok? ==> r.value == Patched(old(storage)[itemId], patch) && storage == old(storage)[itemId := r.value]
    {
      var found := GetItem(itemId);
      if found.Err? {
        return Err(found.error);
      }
      var item := found.value;
      if item.ownerId != ownerId {
        return Err(NotFound);
      }
      item := Patched(item, patch);
      storage := storage[itemId := item];
      r := Ok(item);
    }
  }

  /** Search ignores the case of the keyword. */
  lemma SearchIgnoresCase(s: ItemStorage, keyword: string)
    ensures s.Search(keyword) == s.Search(Lower(keyword))
  {
    LowerIdempotent(keyword);
  }
}

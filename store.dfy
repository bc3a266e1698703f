/** The relational database behind the JPA repositories, as one object whose
    tables the services read and write. Rows of the item, booking and comment
    tables are kept in insertion order, which is the order an unordered query
    returns them in here; each table has its own id sequence. */
module Store {
  import opened Common
  import opened Sequences
  import opened Entities

  /** Ids in `s` are unique and all below the next id the sequence hands out. */
  predicate IdsBelow<T>(s: seq<T>, id: T -> int, next: int)
  {
    UniqueBy(s, id) && forall i :: 0 <= i < |s| ==> id(s[i]) < next
  }

  /** Appending a row with the next id keeps the ids unique. */
  lemma AppendFresh<T>(s: seq<T>, x: T, id: T -> int, next: int)
    requires IdsBelow(s, id, next) && id(x) == next
    ensures IdsBelow(s + [x], id, next + 1)
  {
    var t := s + [x];
    forall i, j | 0 <= i < |t| && 0 <= j < |t| && i != j ensures id(t[i]) != id(t[j]) {
      if i < |s| && j < |s| {
        assert t[i] == s[i] && t[j] == s[j];
      } else if i < |s| {
        assert t[i] == s[i];
      } else {
        assert t[j] == s[j];
      }
    }
  }

  /** Replacing a row by one with the same id keeps the ids unique. */
  lemma ReplaceSameId<T>(s: seq<T>, i: nat, x: T, id: T -> int, next: int)
    requires IdsBelow(s, id, next) && i < |s| && id(x) == id(s[i])
    ensures IdsBelow(s[i := x], id, next)
  {
    var t := s[i := x];
    forall a, b | 0 <= a < |t| && 0 <= b < |t| && a != b ensures id(t[a]) != id(t[b]) {
      assert id(t[a]) == id(s[a]) && id(t[b]) == id(s[b]);
    }
  }

  /** Every booking refers to an item that exists (the foreign key). */
  ghost predicate BookingsReferToItems(items: seq<Item>, bookings: seq<Booking>)
  {
    forall b :: b in bookings ==> FindItem(items, b.itemId).Some?
  }

  /** The table after `x` is saved over the row carrying its id. */
  function ReplaceRow<T>(s: seq<T>, x: T, id: T -> int): (r: seq<T>)
    ensures |r| == |s|
    ensures forall y :: y in r ==> y in s || y == x
  {
    match FirstIndex(s, (y: T) => id(y) == id(x))
    case None => s
    case Some(i) =>
      assert forall y :: y in s[i := x] ==> y in s || y == x;
      s[i := x]
  }

  /** Adding an item keeps every booking's item reference resolvable. */
  lemma AppendItemKeepsRefs(items: seq<Item>, x: Item, bookings: seq<Booking>)
    requires BookingsReferToItems(items, bookings)
    ensures BookingsReferToItems(items + [x], bookings)
  {
    forall b | b in bookings ensures FindItem(items + [x], b.itemId).Some? {
      var it := FindItem(items, b.itemId).value;
      assert it in items + [x];
    }
  }

  /** Saving an item over the row with its id keeps every booking's item
      reference resolvable. */
  lemma ReplaceItemKeepsRefs(items: seq<Item>, i: nat, x: Item, bookings: seq<Booking>)
    requires BookingsReferToItems(items, bookings)
    requires i < |items| && x.id == items[i].id
    ensures BookingsReferToItems(items[i := x], bookings)
  {
    forall b | b in bookings ensures FindItem(items[i := x], b.itemId).Some? {
      var it := FindItem(items, b.itemId).value;
      var j :| 0 <= j < |items| && items[j] == it;
      assert items[i := x][j].id == b.itemId;
      assert items[i := x][j] in items[i := x];
    }
  }

  class Repository {
    var users: map<int, User>
    var items: seq<Item>
    var bookings: seq<Booking>
    var comments: seq<Comment>
    /** Ids of the stored item requests; nothing else of them is needed. */
    var requests: set<int>
    var nextUserId: int
    var nextItemId: int
    var nextBookingId: int
    var nextCommentId: int

    ghost predicate Valid()
      reads this
    {
      (forall k :: k in users ==> users[k].id == k && k < nextUserId)
      && IdsBelow(items, ItemId, nextItemId)
      && IdsBelow(bookings, BookingId, nextBookingId)
      && IdsBelow(comments, CommentId, nextCommentId)
      && BookingsReferToItems(items, bookings)
    }

    /** An empty database whose id sequences start at 1. */
    constructor ()
      ensures Valid()
      ensures users == map[] && items == [] && bookings == [] && comments == [] && requests == {}
      ensures nextUserId == 1 && nextItemId == 1 && nextBookingId == 1 && nextCommentId == 1
    {
      users, items, bookings, comments, requests := map[], [], [], [], {};
      nextUserId, nextItemId, nextBookingId, nextCommentId := 1, 1, 1, 1;
    }
  }
}

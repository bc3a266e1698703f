/** The persistent entities of the server (user, item, booking, comment)
    and the lookups the JPA repositories offer on them. References between
    entities are held as ids: a booking refers to its item and booker, an
    item to its owner and the request it answers. Timestamps are integers. */
module Entities {
  import opened Common
  import opened Sequences

  datatype User = User(id: int, name: Option<string>, email: Option<string>)

  datatype Item = Item(id: int, name: string, description: string, available: bool,
                       ownerId: int, requestId: Option<int>)

  /** The lifecycle of a booking: WAITING until the owner decides. */
  datatype Status = WAITING | APPROVED | REJECTED

  datatype Booking = Booking(id: int, start: int, end: int, status: Status,
                             itemId: int, bookerId: int)

  datatype Comment = Comment(id: int, text: string, authorId: int, itemId: int, created: int)

  /** The fields of an item a partial update may carry; None is a null field. */
  datatype ItemPatch = ItemPatch(name: Option<string>, description: Option<string>,
                                 available: Option<bool>)

  /** No two users of the table share an email; a null email counts as a
      value of its own. */
  predicate EmailsDistinct(users: map<int, User>)
  {
    forall k1, k2 :: k1 in users && k2 in users && k1 != k2 ==> users[k1].email != users[k2].email
  }

  function ItemId(x: Item): int { x.id }
  function BookingId(b: Booking): int { b.id }
  function CommentId(c: Comment): int { c.id }

  /** findById on the item table. */
  function FindItem(items: seq<Item>, id: int): (r: Option<Item>)
    ensures r.Some? ==> r.value in items && r.value.id == id
    ensures r.None? <==> forall x :: x in items ==> x.id != id
  {
    match FirstIndex(items, (x: Item) => x.id == id)
    case None => None
    case Some(i) => Some(items[i])
  }

  /** findById on the booking table. */
  function FindBooking(bookings: seq<Booking>, id: int): (r: Option<Booking>)
    ensures r.Some? ==> r.value in bookings && r.value.id == id
    ensures r.None? <==> forall b :: b in bookings ==> b.id != id
  {
    match FirstIndex(bookings, (b: Booking) => b.id == id)
    case None => None
    case Some(i) => Some(bookings[i])
  }

  /** The id of the owner of the item `itemId`, found through the join on
      the item table. */
  function OwnerOf(items: seq<Item>, itemId: int): (r: Option<int>)
    ensures r.Some? <==> FindItem(items, itemId).Some?
    ensures r.Some? ==> r == Some(FindItem(items, itemId).value.ownerId)
  {
    match FindItem(items, itemId)
    case None => None
    case Some(it) => Some(it.ownerId)
  }

  /** With unique ids, a lookup finds the one element carrying the id. */
  lemma FindItemUnique(items: seq<Item>, x: Item)
    requires UniqueBy(items, ItemId)
    requires x in items
    ensures FindItem(items, x.id) == Some(x)
  {
    var i :| 0 <= i < |items| && items[i] == x;
    var r := FindItem(items, x.id);
    var j :| 0 <= j < |items| && items[j] == r.value;
    assert ItemId(items[i]) == ItemId(items[j]);
  }

  lemma FindBookingUnique(bookings: seq<Booking>, b: Booking)
    requires UniqueBy(bookings, BookingId)
    requires b in bookings
    ensures FindBooking(bookings, b.id) == Some(b)
  {
    var i :| 0 <= i < |bookings| && bookings[i] == b;
    var r := FindBooking(bookings, b.id);
    var j :| 0 <= j < |bookings| && bookings[j] == r.value;
    assert BookingId(bookings[i]) == BookingId(bookings[j]);
  }

  /** The item with the non-null fields of the patch written over its own;
      id, owner and request never change. */
  function ApplyPatch(it: Item, patch: ItemPatch): (r: Item)
    ensures r.id == it.id && r.ownerId == it.ownerId && r.requestId == it.requestId
    ensures r.name == (if patch.name.Some? then patch.name.value else it.name)
    ensures r.description == (if patch.description.Some? then patch.description.value else it.description)
    ensures r.available == (if patch.available.Some? then patch.available.value else it.available)
  {
    it.(name := if patch.name.Some? then patch.name.value else it.name,
        description := if patch.description.Some? then patch.description.value else it.description,
        available := if patch.available.Some? then patch.available.value else it.available)
  }

  /** Applying the same patch again changes nothing more, and a patch whose
      fields are all null is the identity. */
  lemma ApplyPatchIdempotent(it: Item, patch: ItemPatch)
    ensures ApplyPatch(ApplyPatch(it, patch), patch) == ApplyPatch(it, patch)
    ensures ApplyPatch(it, ItemPatch(None, None, None)) == it
  {
  }

  /** Sort keys of a booking: its start, and its end negated so that an
      ascending sort puts the latest end first. */
  function BookingStart(b: Booking): int { b.start }
  function NegatedEnd(b: Booking): int { -b.end }
}

/** The item rules of the database-backed server
    (src/.../item/service/ItemService.java): creating and patching items,
    the owner's view with last and next bookings, the paged list of a user's
    items, the keyword search and the comment rule. */
module ItemService {
  import opened Common
  import opened Sequences
  import opened Entities
  import opened Pagination
  import opened Text
  import Store

  /** The fields of a new item; the require-non-blank checks on them run
      before the service is reached. */
  datatype ItemDto = ItemDto(name: string, description: string, available: bool, requestId: Option<int>)

  /** An item as the owner or another user sees it: its comments, and the
      last and next bookings, which only the owner is shown. */
  datatype ItemView = ItemView(item: Item, comments: set<Comment>,
                               lastBooking: Option<Booking>, nextBooking: Option<Booking>)

  // ---------------------------------------------------------------------
  // Creation and update

  /** createItem: the owner must exist, and so must the request the item
      answers when one is named (NotFound); the item is then saved under the
      next item id. */
  method CreateItem(repo: Store.Repository, dto: ItemDto, ownerId: int) returns (r: Result<Item>)
    requires repo.Valid()
    modifies repo`items, repo`nextItemId
    ensures repo.Valid()
    ensures ownerId !in repo.users ==> r == Err(NotFound)
    ensures dto.requestId.Some? && dto.requestId.value !in repo.requests ==> r == Err(NotFound)
    ensures r.Ok? <==> ownerId in repo.users && (dto.requestId.Some? ==> dto.requestId.value in repo.requests)
    ensures r.Ok? ==> r.value == Item(old(repo.nextItemId), dto.name, dto.description, dto.available,
                                      ownerId, dto.requestId)
                      && repo.items == old(repo.items) + [r.value]
                      && repo.nextItemId == old(repo.nextItemId) + 1
    ensures r.Err? ==> repo.items == old(repo.items) && repo.nextItemId == old(repo.nextItemId)
  {
    if ownerId !in repo.users {
      return Err(NotFound);
    }
    if dto.requestId.Some? && dto.requestId.value !in repo.requests {
      return Err(NotFound);
    }
    var item := Item(repo.nextItemId, dto.name, dto.description, dto.available, ownerId, dto.requestId);
    Store.AppendFresh(repo.items, item, ItemId, repo.nextItemId);
    Store.AppendItemKeepsRefs(repo.items, item, repo.bookings);
    repo.items := repo.items + [item];
    repo.nextItemId := repo.nextItemId + 1;
    r := Ok(item);
  }

  /** updateItem: the item must exist and belong to the caller (NotFound
      otherwise, with no change); the non-null fields of the patch are then
      written over the stored item. */
  method UpdateItem(repo: Store.Repository, patch: ItemPatch, itemId: int, ownerId: int) returns (r: Result<Item>)
    requires repo.Valid()
    modifies repo`items
    ensures repo.Valid()
    ensures FindItem(old(repo.items), itemId).None? ==> r == Err(NotFound)
    ensures r.Ok? <==> FindItem(old(repo.items), itemId).Some? &&
                       FindItem(old(repo.items), itemId).value.ownerId == ownerId
    ensures r.Err? ==> r.error == NotFound && repo.items == old(repo.items)
    ensures r.Ok? ==> r.value == ApplyPatch(FindItem(old(repo.items), itemId).value, patch)
                      && repo.items == Store.ReplaceRow(old(repo.items), r.value, ItemId)
  {
    var index := FirstIndex(repo.items, (x: Item) => x.id == itemId);
    if index.None? {
      return Err(NotFound);
    }
    var i := index.value;
    var item := repo.items[i];
    if item.ownerId != ownerId {
      return Err(NotFound);
    }
    var updated := ApplyPatch(item, patch);
    Store.ReplaceSameId(repo.items, i, updated, ItemId, repo.nextItemId);
    Store.ReplaceItemKeepsRefs(repo.items, i, updated, repo.bookings);
    repo.items := repo.items[i := updated];
    r := Ok(updated);
  }

  // ---------------------------------------------------------------------
  // Views

  /** findByItem_IdOrderByCreatedDesc, collected into a set. */
  function ItemComments(comments: seq<Comment>, itemId: int): (r: set<Comment>)
    ensures forall c :: c in r <==> c in comments && c.itemId == itemId
  {
    set c | c in comments && c.itemId == itemId
  }

  /** The bookings of one item. */
  function ItemBookings(bookings: seq<Booking>, itemId: int): (r: seq<Booking>)
    ensures forall b :: b in r <==> b in bookings && b.itemId == itemId
  {
    Filter(bookings, (b: Booking) => b.itemId == itemId)
  }

  /** getFirstByItem_IdOrderByStartAsc: the item's booking with the earliest
      start, of any status, or null when the item has no booking. */
  function LastBooking(bookings: seq<Booking>, itemId: int): (r: Option<Booking>)
    ensures r.None? <==> forall b :: b in bookings ==> b.itemId != itemId
    ensures r.Some? ==> r.value in bookings && r.value.itemId == itemId
    ensures r.Some? ==> forall b :: b in bookings && b.itemId == itemId ==> r.value.start <= b.start
  {
    var ordered := SortBy(ItemBookings(bookings, itemId), BookingStart);
    if ordered == [] then None
    else
      HeadIsLeast(ordered, BookingStart);
      Some(ordered[0])
  }

  /** getFirstByItem_IdOrderByEndDesc: the item's booking with the latest
      end, of any status, or null when the item has no booking. */
  function NextBooking(bookings: seq<Booking>, itemId: int): (r: Option<Booking>)
    ensures r.None? <==> forall b :: b in bookings ==> b.itemId != itemId
    ensures r.Some? ==> r.value in bookings && r.value.itemId == itemId
    ensures r.Some? ==> forall b :: b in bookings && b.itemId == itemId ==> b.end <= r.value.end
  {
    var ordered := SortBy(ItemBookings(bookings, itemId), NegatedEnd);
    if ordered == [] then None
    else
      HeadIsLeast(ordered, NegatedEnd);
      Some(ordered[0])
  }

  /** The DTO of an item after setComments and, when `withBookings`,
      setBooking. */
  function View(bookings: seq<Booking>, comments: seq<Comment>, item: Item, withBookings: bool): (r: ItemView)
    ensures r.item == item
    ensures forall c :: c in r.comments <==> c in comments && c.itemId == item.id
    ensures !withBookings ==> r.lastBooking.None? && r.nextBooking.None?
    ensures withBookings ==> r.lastBooking == LastBooking(bookings, item.id)
                             && r.nextBooking == NextBooking(bookings, item.id)
  {
    ItemView(item, ItemComments(comments, item.id),
             if withBookings then LastBooking(bookings, item.id) else None,
             if withBookings then NextBooking(bookings, item.id) else None)
  }

  /** getItemByOwner(itemId, viewerId): the item with its comments; the
      bookings are attached only when the viewer owns the item. */
  function GetItemByOwner(items: seq<Item>, bookings: seq<Booking>, comments: seq<Comment>,
                          itemId: int, viewerId: int): (r: Result<ItemView>)
    ensures r.Err? <==> FindItem(items, itemId).None?
    ensures r.Err? ==> r.error == NotFound
    ensures r.Ok? ==> r.value.item == FindItem(items, itemId).value
    ensures r.Ok? ==> forall c :: c in r.value.comments <==> c in comments && c.itemId == itemId
    ensures r.Ok? && r.value.item.ownerId != viewerId ==> r.value.lastBooking == r.value.nextBooking == None
    ensures r.Ok? && r.value.item.ownerId == viewerId ==>
              r.value.lastBooking == LastBooking(bookings, itemId) && r.value.nextBooking == NextBooking(bookings, itemId)
  {
    match FindItem(items, itemId)
    case None => Err(NotFound)
    case Some(item) => Ok(View(bookings, comments, item, item.ownerId == viewerId))
  }

  /** The owner sees the earliest-starting and the latest-ending booking of
      the item; one booking can be both. */
  lemma OwnerSeesBookingBounds(items: seq<Item>, bookings: seq<Booking>, comments: seq<Comment>,
                               item: Item, b: Booking)
    requires UniqueBy(items, ItemId) && item in items
    requires b in bookings && b.itemId == item.id
    ensures var r := GetItemByOwner(items, bookings, comments, item.id, item.ownerId);
            r.Ok? && r.value.lastBooking.Some? && r.value.nextBooking.Some? &&
            r.value.lastBooking.value.start <= b.start && b.end <= r.value.nextBooking.value.end
  {
    FindItemUnique(items, item);
  }

  // ---------------------------------------------------------------------
  // A user's items

  /** findAllByOwner(user, pageable): the user's items in table order, paged;
      the service then keeps the owner's items and sorts them by id. */
  function UserItems(items: seq<Item>, userId: int, p: CustomPageable): (r: seq<Item>)
    requires Accepted(p)
    ensures SortedBy(r, ItemId)
    ensures |r| <= p.limit
    ensures forall x :: x in r ==> x in items && x.ownerId == userId
    ensures multiset(r) == multiset(Window(Filter(items, (x: Item) => x.ownerId == userId), p.offset, p.limit))
  {
    var page := Window(Filter(items, (x: Item) => x.ownerId == userId), p.offset, p.limit);
    WindowElements(Filter(items, (x: Item) => x.ownerId == userId), p.offset, p.limit);
    FilterKeepsAll(page, (x: Item) => x.ownerId == userId);
    SortBy(Filter(page, (x: Item) => x.ownerId == userId), ItemId)
  }

  /** The first page of a user's items lists all of them when they fit on it. */
  lemma UserItemsFirstPageComplete(items: seq<Item>, userId: int, p: CustomPageable, x: Item)
    requires Accepted(p) && p.offset == 0
    requires |Filter(items, (y: Item) => y.ownerId == userId)| <= p.limit
    requires x in items && x.ownerId == userId
    ensures x in UserItems(items, userId, p)
  {
    var owned := Filter(items, (y: Item) => y.ownerId == userId);
    assert Window(owned, 0, p.limit) == owned;
    assert x in multiset(owned);
  }

  /** The loop of getUserItems: every listed item gets its comments and its
      last and next bookings. */
  method AttachAll(bookings: seq<Booking>, comments: seq<Comment>, listed: seq<Item>) returns (views: seq<ItemView>)
    ensures |views| == |listed|
    ensures forall i :: 0 <= i < |listed| ==> views[i] == View(bookings, comments, listed[i], true)
  {
    views := [];
    for i := 0 to |listed|
      invariant |views| == i
      invariant forall k :: 0 <= k < i ==> views[k] == View(bookings, comments, listed[k], true)
    {
      views := views + [View(bookings, comments, listed[i], true)];
    }
  }

  /** Views made item by item list the items in the same order. */
  lemma ViewsKeepOrder(bookings: seq<Booking>, comments: seq<Comment>, listed: seq<Item>, views: seq<ItemView>)
    requires SortedBy(listed, ItemId)
    requires |views| == |listed|
    requires forall i :: 0 <= i < |listed| ==> views[i] == View(bookings, comments, listed[i], true)
    ensures forall i, j :: 0 <= i < j < |views| ==> views[i].item.id <= views[j].item.id
    ensures forall v :: v in views ==> v.item in listed
  {
    forall i, j | 0 <= i < j < |views| ensures views[i].item.id <= views[j].item.id {
      assert ItemId(listed[i]) <= ItemId(listed[j]);
    }
    forall v | v in views ensures v.item in listed {
      var k :| 0 <= k < |views| && views[k] == v;
    }
  }

  /** getUserItems(userId, from, size): the user must exist (NotFound) and
      the page must be valid; the user's items of the page, by ascending id,
      each with its comments and bookings. */
  method GetUserItems(users: map<int, User>, items: seq<Item>, bookings: seq<Booking>, comments: seq<Comment>,
                      userId: int, from: Option<int32>, size: Option<int32>)
    returns (r: Result<seq<ItemView>>)
    ensures userId !in users ==> r == Err(NotFound)
    ensures userId in users && Of(from, size).Err? ==> r == Err(Of(from, size).error)
    ensures userId in users && Of(from, size).Ok? ==>
              var listed := UserItems(items, userId, Of(from, size).value);
              r.Ok? && |r.value| == |listed| &&
              forall i :: 0 <= i < |listed| ==> r.value[i] == View(bookings, comments, listed[i], true)
    ensures r.Ok? ==> forall i, j :: 0 <= i < j < |r.value| ==> r.value[i].item.id <= r.value[j].item.id
    ensures r.Ok? ==> forall v :: v in r.value ==> v.item in items && v.item.ownerId == userId
  {
    if userId !in users {
      return Err(NotFound);
    }
    var pageable := Of(from, size);
    if pageable.Err? {
      return Err(pageable.error);
    }
    var listed := UserItems(items, userId, pageable.value);
    var views := AttachAll(bookings, comments, listed);
    assert pageable == Of(from, size);
    ViewsKeepOrder(bookings, comments, listed, views);
    r := Ok(views);
  }

  // ---------------------------------------------------------------------
  // Search

  /** The condition of the searchItems query, with its precedence: the name
      matches, or the description matches and the item is available. Both
      sides are upper-cased before the substring test. */
  predicate SearchMatches(it: Item, keyword: string)
  {
    Contains(Upper(it.name), Upper(keyword)) ||
    (Contains(Upper(it.description), Upper(keyword)) && it.available)
  }

  function SearchQuery(items: seq<Item>, keyword: string, p: CustomPageable): (r: seq<Item>)
    requires Accepted(p)
    ensures |r| <= p.limit
    ensures forall x :: x in r ==> x in items && SearchMatches(x, keyword)
    ensures var matching := Filter(items, (x: Item) => SearchMatches(x, keyword));
            && (|matching| <= p.offset ==> r == [])
            && (p.offset <= |matching| ==>
                  |r| == (if p.offset + p.limit <= |matching| then p.limit else |matching| - p.offset))
            && forall i :: 0 <= i < |r| ==> p.offset + i < |matching| && r[i] == matching[p.offset + i]
  {
    WindowElements(Filter(items, (x: Item) => SearchMatches(x, keyword)), p.offset, p.limit);
    Window(Filter(items, (x: Item) => SearchMatches(x, keyword)), p.offset, p.limit)
  }

  /** searchItems(keyword, from, size): an empty keyword answers an empty list
      before the page arguments are looked at. */
  function SearchItems(items: seq<Item>, keyword: string, from: Option<int32>, size: Option<int32>)
    : (r: Result<seq<Item>>)
    ensures keyword == [] ==> r == Ok([])
    ensures keyword != [] && Of(from, size).Err? ==> r == Err(Of(from, size).error)
    ensures keyword != [] && Of(from, size).Ok? ==> r == Ok(SearchQuery(items, keyword, Of(from, size).value))
  {
    if keyword == [] then Ok([])
    else match Of(from, size)
      case Err(e) => Err(e)
      case Ok(p) => Ok(SearchQuery(items, keyword, p))
  }

  /** The first page of a search holds every matching item when they fit on
      it: an item whose name matches, available or not, and an available item
      whose description matches. */
  lemma {:induction false} SearchFirstPageComplete(items: seq<Item>, keyword: string, p: CustomPageable, x: Item)
    requires Accepted(p) && p.offset == 0
    requires |Filter(items, (y: Item) => SearchMatches(y, keyword))| <= p.limit
    requires x in items && SearchMatches(x, keyword)
    ensures x in SearchQuery(items, keyword, p)
  {
    var all := Filter(items, (y: Item) => SearchMatches(y, keyword));
    assert Window(all, 0, p.limit) == all;
  }

  // ---------------------------------------------------------------------
  // Comments

  /** existsAllByBooker_IdAndEndBefore(userId, now): some booking of the user,
      of any item and any status, ended before `now`. */
  function HasEndedBooking(bookings: seq<Booking>, userId: int, now: int): (r: bool)
    ensures r <==> exists b :: b in bookings && b.bookerId == userId && b.end < now
  {
    FirstIndex(bookings, (b: Booking) => b.bookerId == userId && b.end < now).Some?
  }

  /** createComment: BadRequest unless the user has an ended booking, checked
      before the author and the item are looked up (NotFound); the comment is
      saved under the next comment id, created at `now`. */
  method CreateComment(repo: Store.Repository, text: string, itemId: int, userId: int, now: int)
    returns (r: Result<Comment>)
    requires repo.Valid()
    modifies repo`comments, repo`nextCommentId
    ensures repo.Valid()
    ensures !HasEndedBooking(repo.bookings, userId, now) ==> r == Err(BadRequest)
    ensures HasEndedBooking(repo.bookings, userId, now) && userId !in repo.users ==> r == Err(NotFound)
    ensures HasEndedBooking(repo.bookings, userId, now) && FindItem(repo.items, itemId).None? ==> r == Err(NotFound)
    ensures r.Ok? <==> HasEndedBooking(repo.bookings, userId, now) && userId in repo.users &&
                       FindItem(repo.items, itemId).Some?
    ensures r.Ok? ==> r.value == Comment(old(repo.nextCommentId), text, userId, itemId, now)
                      && repo.comments == old(repo.comments) + [r.value]
                      && repo.nextCommentId == old(repo.nextCommentId) + 1
    ensures r.Err? ==> repo.comments == old(repo.comments) && repo.nextCommentId == old(repo.nextCommentId)
  {
    if !HasEndedBooking(repo.bookings, userId, now) {
      return Err(BadRequest);
    }
    if userId !in repo.users {
      return Err(NotFound);
    }
    if FindItem(repo.items, itemId).None? {
      return Err(NotFound);
    }
    var comment := Comment(repo.nextCommentId, text, userId, itemId, now);
    Store.AppendFresh(repo.comments, comment, CommentId, repo.nextCommentId);
    repo.comments := repo.comments + [comment];
    repo.nextCommentId := repo.nextCommentId + 1;
    r := Ok(comment);
  }

  /** The booking that makes a user eligible need not be of the commented
      item, nor approved: a user who never booked the item is eligible
      through one rejected booking of another item that has ended. */
  lemma EligibleWithoutBookingTheItem(bookings: seq<Booking>, b: Booking, itemId: int, now: int)
    requires b in bookings && b.status == Status.REJECTED && b.end < now
    requires forall c :: c in bookings && c.bookerId == b.bookerId ==> c.itemId != itemId
    ensures HasEndedBooking(bookings, b.bookerId, now)
  {
  }
}

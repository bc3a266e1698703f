/** The booking engine (src/.../booking/service/BookingService.java):
    creating a booking, the owner's one-step decision WAITING -> APPROVED or
    REJECTED, the visibility of a booking, and the listings of a booker's or
    an owner's bookings filtered by a state relative to `now`.

    Time is an integer; `a.isBefore(b)` is `a < b` and `a.isAfter(b)` is
    `a > b`, so equal instants pass both "not before" checks. The clock is
    read once: `now` is a parameter of every operation that looks at it. */
module BookingService {
  import opened Common
  import opened Sequences
  import opened Entities
  import opened Pagination
  import opened Text
  import Store

  /** The start, end and item of a booking request. */
  datatype BookingInput = BookingInput(itemId: int, start: int, end: int)

  // ---------------------------------------------------------------------
  // Creation

  /** checkBookingBeforeSave: the booker must not own the item (NotFound),
      the item must be available, and neither start nor end may lie before
      `now`, nor end before start (BadRequest), checked in that order. */
  function CheckBookingBeforeSave(bookerId: int, item: Item, start: int, end: int, now: int): (r: Check)
    ensures r == Fail(NotFound) <==> bookerId == item.ownerId
    ensures r == Pass <==> bookerId != item.ownerId && item.available && now <= start <= end
    ensures r.Fail? ==> r.error == NotFound || r.error == BadRequest
  {
    if bookerId == item.ownerId then Fail(NotFound)
    else if !item.available then Fail(BadRequest)
    else if start < now then Fail(BadRequest)
    else if end < now then Fail(BadRequest)
    else if end < start then Fail(BadRequest)
    else Pass
  }

  /** The ownership check comes first: an owner booking their own item gets
      NotFound whatever the item's availability and the interval. */
  lemma OwnerBookingAlwaysNotFound(item: Item, start: int, end: int, now: int)
    ensures CheckBookingBeforeSave(item.ownerId, item, start, end, now) == Fail(NotFound)
  {
  }

  /** createBooking: the booker and the item must exist (NotFound), the
      request must pass CheckBookingBeforeSave, and the booking is then saved
      with status WAITING under the next booking id. */
  method CreateBooking(repo: Store.Repository, input: BookingInput, userId: int, now: int)
    returns (r: Result<Booking>)
    requires repo.Valid()
    modifies repo`bookings, repo`nextBookingId
    ensures repo.Valid()
    ensures userId !in repo.users ==> r == Err(NotFound)
    ensures userId in repo.users && FindItem(repo.items, input.itemId).None? ==> r == Err(NotFound)
    ensures userId in repo.users && FindItem(repo.items, input.itemId).Some? ==>
              var check := CheckBookingBeforeSave(userId, FindItem(repo.items, input.itemId).value,
                                                  input.start, input.end, now);
              (check.Fail? ==> r == Err(check.error)) &&
              (check.Pass? ==> r == Ok(Booking(old(repo.nextBookingId), input.start, input.end,
                                               Status.WAITING, input.itemId, userId)))
    ensures r.Ok? ==> repo.bookings == old(repo.bookings) + [r.value]
                      && repo.nextBookingId == old(repo.nextBookingId) + 1
    ensures r.Err? ==> repo.bookings == old(repo.bookings) && repo.nextBookingId == old(repo.nextBookingId)
  {
    if userId !in repo.users {
      return Err(NotFound);
    }
    var found := FindItem(repo.items, input.itemId);
    if found.None? {
      return Err(NotFound);
    }
    var item := found.value;
    var booking := Booking(repo.nextBookingId, input.start, input.end, Status.WAITING, input.itemId, userId);
    var check := CheckBookingBeforeSave(booking.bookerId, item, booking.start, booking.end, now);
    if check.Fail? {
      return Err(check.error);
    }
    Store.AppendFresh(repo.bookings, booking, BookingId, repo.nextBookingId);
    repo.bookings := repo.bookings + [booking];
    repo.nextBookingId := repo.nextBookingId + 1;
    r := Ok(booking);
  }

  // ---------------------------------------------------------------------
  // Visibility

  /** The booker and the owner of the booked item may see a booking. */
  predicate VisibleTo(items: seq<Item>, b: Booking, userId: int)
  {
    b.bookerId == userId || OwnerOf(items, b.itemId) == Some(userId)
  }

  /** getBooking(bookingId, userId): the booking, if it exists and the caller
      is its booker or the item's owner; NotFound otherwise, so that a
      stranger cannot tell a hidden booking from a missing one. */
  function GetBooking(items: seq<Item>, bookings: seq<Booking>, bookingId: int, userId: int): (r: Result<Booking>)
    ensures r.Ok? <==> FindBooking(bookings, bookingId).Some? &&
                       VisibleTo(items, FindBooking(bookings, bookingId).value, userId)
    ensures r.Ok? ==> r.value in bookings && r.value.id == bookingId
    ensures r.Err? ==> r.error == NotFound
  {
    match FindBooking(bookings, bookingId)
    case None => Err(NotFound)
    case Some(b) =>
      if b.bookerId == userId || OwnerOf(items, b.itemId) == Some(userId) then Ok(b)
      else Err(NotFound)
  }

  // ---------------------------------------------------------------------
  // Approval

  /** The decision step of approveBooking on a loaded booking whose item is
      owned by `ownerId`: a booking no longer WAITING gives BadRequest (checked
      first), a caller other than the owner gives NotFound; otherwise the
      status becomes APPROVED or REJECTED and nothing else changes. */
  function Decide(b: Booking, ownerId: Option<int>, userId: int, approve: bool): (r: Result<Booking>)
    ensures b.status != Status.WAITING ==> r == Err(BadRequest)
    ensures b.status == Status.WAITING && ownerId != Some(userId) ==> r == Err(NotFound)
    ensures r.Ok? <==> b.status == Status.WAITING && ownerId == Some(userId)
    ensures r.Ok? ==> (r.value.status == Status.APPROVED <==> approve)
    ensures r.Ok? ==> r.value.status != Status.WAITING
    ensures r.Ok? ==> r.value.(status := b.status) == b
  {
    if b.status != Status.WAITING then Err(BadRequest)
    else if ownerId != Some(userId) then Err(NotFound)
    else Ok(b.(status := if approve then Status.APPROVED else Status.REJECTED))
  }

  /** What approveBooking(bookingId, userId, approve) returns. */
  function ApproveResult(items: seq<Item>, bookings: seq<Booking>, bookingId: int, userId: int, approve: bool)
    : (r: Result<Booking>)
    ensures FindBooking(bookings, bookingId).None? ==> r == Err(NotFound)
    ensures r.Ok? ==> r.value.id == bookingId
    ensures FindBooking(bookings, bookingId).Some? ==>
              var b := FindBooking(bookings, bookingId).value;
              r == Decide(b, OwnerOf(items, b.itemId), userId, approve)
  {
    match FindBooking(bookings, bookingId)
    case None => Err(NotFound)
    case Some(b) => Decide(b, OwnerOf(items, b.itemId), userId, approve)
  }

  /** approveBooking: loads the booking (NotFound), decides, and saves the
      decided booking over the stored one. */
  method ApproveBooking(repo: Store.Repository, bookingId: int, userId: int, approve: bool)
    returns (r: Result<Booking>)
    requires repo.Valid()
    modifies repo`bookings
    ensures repo.Valid()
    ensures r == ApproveResult(repo.items, old(repo.bookings), bookingId, userId, approve)
    ensures r.Ok? ==> repo.bookings == Store.ReplaceRow(old(repo.bookings), r.value, BookingId)
    ensures r.Err? ==> repo.bookings == old(repo.bookings)
  {
    var index := FirstIndex(repo.bookings, (x: Booking) => x.id == bookingId);
    if index.None? {
      return Err(NotFound);
    }
    var i := index.value;
    var booking := repo.bookings[i];
    r := Decide(booking, OwnerOf(repo.items, booking.itemId), userId, approve);
    if r.Ok? {
      Store.ReplaceSameId(repo.bookings, i, r.value, BookingId, repo.nextBookingId);
      assert forall b :: b in repo.bookings[i := r.value] ==> b in repo.bookings || b == r.value;
      repo.bookings := repo.bookings[i := r.value];
    }
  }

  /** Saving a booking over the row with its id makes it the one found by id. */
  lemma ReplacedIsFound(bookings: seq<Booking>, b: Booking)
    requires UniqueBy(bookings, BookingId)
    requires FindBooking(bookings, b.id).Some?
    ensures UniqueBy(Store.ReplaceRow(bookings, b, BookingId), BookingId)
    ensures FindBooking(Store.ReplaceRow(bookings, b, BookingId), b.id) == Some(b)
  {
    var i := FirstIndex(bookings, (x: Booking) => x.id == b.id).value;
    Store.ReplaceSameId(bookings, i, b, BookingId, 1 + MaxId(bookings));
    assert bookings[i := b][i] == b;
    FindBookingUnique(bookings[i := b], b);
  }

  /** An upper bound of the ids in a booking table. */
  function MaxId(bookings: seq<Booking>): (m: int)
    ensures forall i :: 0 <= i < |bookings| ==> bookings[i].id <= m
  {
    if bookings == [] then 0
    else
      var m := MaxId(bookings[1..]);
      assert forall i :: 1 <= i < |bookings| ==> bookings[i] == bookings[1..][i - 1];
      if bookings[0].id > m then bookings[0].id else m
  }

  /** A decision is final: once approveBooking has succeeded, every further
      approval or rejection of that booking, by anyone, fails with BadRequest. */
  lemma SecondDecisionFails(items: seq<Item>, bookings: seq<Booking>, bookingId: int, userId: int,
                            approve: bool, userId2: int, approve2: bool)
    requires UniqueBy(bookings, BookingId)
    requires ApproveResult(items, bookings, bookingId, userId, approve).Ok?
    ensures var decided := ApproveResult(items, bookings, bookingId, userId, approve).value;
            ApproveResult(items, Store.ReplaceRow(bookings, decided, BookingId), bookingId, userId2, approve2) == Err(BadRequest)
  {
    var decided := ApproveResult(items, bookings, bookingId, userId, approve).value;
    ReplacedIsFound(bookings, decided);
  }

  /** Approving and then reading the booking as its booker shows it APPROVED. */
  lemma ApproveThenGet(items: seq<Item>, bookings: seq<Booking>, bookingId: int, ownerId: int)
    requires UniqueBy(bookings, BookingId)
    requires ApproveResult(items, bookings, bookingId, ownerId, true).Ok?
    ensures var decided := ApproveResult(items, bookings, bookingId, ownerId, true).value;
            decided.status == Status.APPROVED &&
            GetBooking(items, Store.ReplaceRow(bookings, decided, BookingId), bookingId, decided.bookerId) == Ok(decided)
  {
    var decided := ApproveResult(items, bookings, bookingId, ownerId, true).value;
    ReplacedIsFound(bookings, decided);
  }

  // ---------------------------------------------------------------------
  // Listing by state

  /** The values of the State enum. */
  datatype State = ALL | CURRENT | PAST | FUTURE | WAITING | REJECTED

  function StateName(s: State): string
  {
    match s
    case ALL => "ALL"
    case CURRENT => "CURRENT"
    case PAST => "PAST"
    case FUTURE => "FUTURE"
    case WAITING => "WAITING"
    case REJECTED => "REJECTED"
  }

  /** ObjectUtils.containsConstant(State.values(), state): the check ignores
      case. */
  predicate IsKnownState(state: string)
  {
    EqualsIgnoreCase("ALL", state) || EqualsIgnoreCase("CURRENT", state) ||
    EqualsIgnoreCase("PAST", state) || EqualsIgnoreCase("FUTURE", state) ||
    EqualsIgnoreCase("WAITING", state) || EqualsIgnoreCase("REJECTED", state)
  }

  /** The branch the `switch (state)` takes: an exact, case-sensitive match;
      None is the default branch. */
  function ParseState(state: string): (r: Option<State>)
    ensures r.Some? ==> StateName(r.value) == state
    ensures r.None? ==> forall s: State :: StateName(s) != state
  {
    if state == "ALL" then Some(State.ALL)
    else if state == "CURRENT" then Some(State.CURRENT)
    else if state == "PAST" then Some(State.PAST)
    else if state == "FUTURE" then Some(State.FUTURE)
    else if state == "WAITING" then Some(State.WAITING)
    else if state == "REJECTED" then Some(State.REJECTED)
    else None
  }

  /** Every name the switch handles passes the check. */
  lemma ParsedIsKnown(state: string)
    requires ParseState(state).Some?
    ensures IsKnownState(state)
  {
  }

  /** A string that matches some state's name, ignoring case, passes the
      check. */
  lemma MatchingNameIsKnown(s: State, state: string)
    requires EqualsIgnoreCase(StateName(s), state)
    ensures IsKnownState(state)
  {
    match s
    case ALL =>
    case CURRENT =>
    case PAST =>
    case FUTURE =>
    case WAITING =>
    case REJECTED =>
  }

  /** State names are written in capital ASCII letters. */
  lemma StateNameIsUpperCase(s: State)
    ensures forall i :: 0 <= i < |StateName(s)| ==> 'A' <= StateName(s)[i] <= 'Z'
  {
  }

  /** A state name written in lower case passes the check. */
  lemma LowerCaseStateIsKnown(s: State)
    ensures IsKnownState(Lower(StateName(s)))
  {
    StateNameIsUpperCase(s);
    LowerEqualsIgnoreCase(StateName(s));
    MatchingNameIsKnown(s, Lower(StateName(s)));
  }

  /** A state name written in lower case matches no branch of the switch. */
  lemma LowerCaseStateIsUnparsed(s: State)
    ensures ParseState(Lower(StateName(s))) == None
  {
    var name := StateName(s);
    StateNameIsUpperCase(s);
    var first := LowerChar(name[0]);
    assert Lower(name)[0] == first;
    assert forall t: State :: StateName(t)[0] != first;
  }

  /** Any state written in lower case passes the check but reaches the
      switch's default branch, which lists nothing. */
  lemma LowerCaseStateIsKnownButUnparsed(s: State)
    ensures IsKnownState(Lower(StateName(s)))
    ensures ParseState(Lower(StateName(s))) == None
  {
    LowerCaseStateIsKnown(s);
    LowerCaseStateIsUnparsed(s);
  }

  /** A state name spelt with capital I with dot above passes the check (it
      lower-cases to i) but matches no branch of the switch. */
  lemma DottedCapitalIStateIsKnownButUnparsed()
    ensures IsKnownState("WA\U{130}TING")
    ensures ParseState("WA\U{130}TING") == None
  {
    assert CharEqualsIgnoreCase('I', '\U{130}');
    assert forall i :: 0 <= i < 7 ==> CharEqualsIgnoreCase("WAITING"[i], "WA\U{130}TING"[i]);
  }

  /** checkStateAndUser: an unknown state gives BadRequest before the user
      is looked up; a missing user gives NotFound. */
  function CheckStateAndUser(users: map<int, User>, state: string, userId: int): (r: Check)
    ensures !IsKnownState(state) ==> r == Fail(BadRequest)
    ensures IsKnownState(state) ==> (r == Pass <==> userId in users)
    ensures r.Fail? && IsKnownState(state) ==> r.error == NotFound
  {
    if !IsKnownState(state) then Fail(BadRequest)
    else if userId !in users then Fail(NotFound)
    else Pass
  }

  /** The time classifications of the PAST, CURRENT and FUTURE branches. */
  predicate IsPast(b: Booking, now: int) { b.end < now }
  predicate IsCurrent(b: Booking, now: int) { b.start < now && b.end > now }
  predicate IsFuture(b: Booking, now: int) { b.end > now }

  /** A booking table ordered by `end`, latest first. */
  predicate EndDescending(s: seq<Booking>)
  {
    forall i, j :: 0 <= i < j < |s| ==> s[i].end >= s[j].end
  }

  lemma EndDescendingIsSorted(s: seq<Booking>)
    ensures EndDescending(s) <==> SortedBy(s, NegatedEnd)
  {
  }

  /** ORDER BY end DESC; bookings with equal ends may come in any order. */
  function ByEndDesc(bookings: seq<Booking>): (r: seq<Booking>)
    ensures EndDescending(r)
    ensures multiset(r) == multiset(bookings)
    ensures forall b :: b in r <==> b in bookings
  {
    EndDescendingIsSorted(SortBy(bookings, NegatedEnd));
    SortBy(bookings, NegatedEnd)
  }

  /** What findAllByBooker_IdOrderByEndDesc returns before paging. */
  function BookerBookings(bookings: seq<Booking>, bookerId: int): (r: seq<Booking>)
    ensures EndDescending(r)
    ensures multiset(r) == multiset(Filter(bookings, (b: Booking) => b.bookerId == bookerId))
    ensures forall b :: b in r <==> b in bookings && b.bookerId == bookerId
  {
    ByEndDesc(Filter(bookings, (b: Booking) => b.bookerId == bookerId))
  }

  /** What findAllByOwnerId returns before paging: bookings joined with their
      item, kept when the item's owner is `ownerId`, latest end first. */
  function OwnerBookings(items: seq<Item>, bookings: seq<Booking>, ownerId: int): (r: seq<Booking>)
    ensures EndDescending(r)
    ensures multiset(r) == multiset(Filter(bookings, (b: Booking) => OwnerOf(items, b.itemId) == Some(ownerId)))
    ensures forall b :: b in r <==> b in bookings && OwnerOf(items, b.itemId) == Some(ownerId)
  {
    ByEndDesc(Filter(bookings, (b: Booking) => OwnerOf(items, b.itemId) == Some(ownerId)))
  }

  /** The rows of an ordered query that a page request selects. */
  function Page(ordered: seq<Booking>, p: CustomPageable): (r: seq<Booking>)
    requires Accepted(p)
    ensures |r| <= p.limit
    ensures |ordered| <= p.offset ==> r == []
    ensures p.offset <= |ordered| ==>
              |r| == (if p.offset + p.limit <= |ordered| then p.limit else |ordered| - p.offset)
    ensures forall i :: 0 <= i < |r| ==> p.offset + i < |ordered| && r[i] == ordered[p.offset + i]
  {
    Window(ordered, p.offset, p.limit)
  }

  /** The listing for one branch of the switch, given the ordered query
      result. ALL, WAITING and REJECTED are paged by the database (the status
      filter is part of the query); PAST, CURRENT and FUTURE filter the page
      of all bookings after it is fetched. */
  function Select(state: Option<State>, ordered: seq<Booking>, p: CustomPageable, now: int): seq<Booking>
    requires Accepted(p)
  {
    match state
    case None => []
    case Some(s) =>
      match s
      case ALL => Page(ordered, p)
      case WAITING => Page(Filter(ordered, (b: Booking) => b.status == Status.WAITING), p)
      case REJECTED => Page(Filter(ordered, (b: Booking) => b.status == Status.REJECTED), p)
      case PAST => Filter(Page(ordered, p), (b: Booking) => IsPast(b, now))
      case CURRENT => Filter(Page(ordered, p), (b: Booking) => IsCurrent(b, now))
      case FUTURE => Filter(Page(ordered, p), (b: Booking) => IsFuture(b, now))
  }

  /** The loop of the PAST, CURRENT and FUTURE branches: walks the page and
      appends every booking that `keep` accepts. */
  method CollectMatching(page: seq<Booking>, keep: Booking -> bool) returns (r: seq<Booking>)
    ensures r == Filter(page, keep)
  {
    r := [];
    for i := 0 to |page|
      invariant r == Filter(page[..i], keep)
    {
      FilterSnoc(page[..i], page[i], keep);
      assert page[..i + 1] == page[..i] + [page[i]];
      if keep(page[i]) {
        r := r + [page[i]];
      }
    }
    assert page[..|page|] == page;
  }

  /** The switch of getAllBookingByUser and getAllBookingByOwner over an
      ordered query result. */
  method SelectByState(state: string, ordered: seq<Booking>, p: CustomPageable, now: int)
    returns (r: seq<Booking>)
    requires Accepted(p)
    ensures r == Select(ParseState(state), ordered, p, now)
  {
    match ParseState(state)
    case None =>
      r := [];
    case Some(s) =>
      match s
      case ALL =>
        r := Page(ordered, p);
      case WAITING =>
        r := Page(Filter(ordered, (b: Booking) => b.status == Status.WAITING), p);
      case REJECTED =>
        r := Page(Filter(ordered, (b: Booking) => b.status == Status.REJECTED), p);
      case PAST =>
        r := CollectMatching(Page(ordered, p), (b: Booking) => IsPast(b, now));
      case CURRENT =>
        r := CollectMatching(Page(ordered, p), (b: Booking) => IsCurrent(b, now));
      case FUTURE =>
        r := CollectMatching(Page(ordered, p), (b: Booking) => IsFuture(b, now));
  }

  /** getAllBookingByUser(userId, state, from, size). */
  method GetAllBookingByUser(users: map<int, User>, bookings: seq<Booking>, userId: int, state: string,
                             from: Option<int32>, size: Option<int32>, now: int)
    returns (r: Result<seq<Booking>>)
    ensures !IsKnownState(state) ==> r == Err(BadRequest)
    ensures IsKnownState(state) && userId !in users ==> r == Err(NotFound)
    ensures IsKnownState(state) && userId in users && Of(from, size).Err? ==> r == Err(Of(from, size).error)
    ensures IsKnownState(state) && userId in users && Of(from, size).Ok? ==>
              r == Ok(Select(ParseState(state), BookerBookings(bookings, userId), Of(from, size).value, now))
  {
    var check := CheckStateAndUser(users, state, userId);
    if check.Fail? {
      return Err(check.error);
    }
    var pageable := Of(from, size);
    if pageable.Err? {
      return Err(pageable.error);
    }
    var list := SelectByState(state, BookerBookings(bookings, userId), pageable.value, now);
    r := Ok(list);
  }

  /** getAllBookingByOwner(ownerId, state, from, size). */
  method GetAllBookingByOwner(users: map<int, User>, items: seq<Item>, bookings: seq<Booking>, ownerId: int,
                              state: string, from: Option<int32>, size: Option<int32>, now: int)
    returns (r: Result<seq<Booking>>)
    ensures !IsKnownState(state) ==> r == Err(BadRequest)
    ensures IsKnownState(state) && ownerId !in users ==> r == Err(NotFound)
    ensures IsKnownState(state) && ownerId in users && Of(from, size).Err? ==> r == Err(Of(from, size).error)
    ensures IsKnownState(state) && ownerId in users && Of(from, size).Ok? ==>
              r == Ok(Select(ParseState(state), OwnerBookings(items, bookings, ownerId), Of(from, size).value, now))
  {
    var check := CheckStateAndUser(users, state, ownerId);
    if check.Fail? {
      return Err(check.error);
    }
    var pageable := Of(from, size);
    if pageable.Err? {
      return Err(pageable.error);
    }
    var list := SelectByState(state, OwnerBookings(items, bookings, ownerId), pageable.value, now);
    r := Ok(list);
  }

  // ---------------------------------------------------------------------
  // Properties of the listings

  /** PAST, CURRENT and FUTURE keep exactly the bookings of the page that
      satisfy their time condition, in page order. */
  lemma {:induction false} TimeFiltersOfPage(ordered: seq<Booking>, p: CustomPageable, now: int)
    requires Accepted(p)
    ensures var page := Page(ordered, p);
            IsSubsequence(Select(Some(State.PAST), ordered, p, now), page) &&
            IsSubsequence(Select(Some(State.CURRENT), ordered, p, now), page) &&
            IsSubsequence(Select(Some(State.FUTURE), ordered, p, now), page)
    ensures forall b :: b in Select(Some(State.PAST), ordered, p, now) <==> b in Page(ordered, p) && b.end < now
    ensures forall b :: b in Select(Some(State.CURRENT), ordered, p, now) <==>
                          b in Page(ordered, p) && b.start < now < b.end
    ensures forall b :: b in Select(Some(State.FUTURE), ordered, p, now) <==> b in Page(ordered, p) && now < b.end
  {
    var page := Page(ordered, p);
    FilterIsSubsequence(page, (b: Booking) => IsPast(b, now));
    FilterIsSubsequence(page, (b: Booking) => IsCurrent(b, now));
    FilterIsSubsequence(page, (b: Booking) => IsFuture(b, now));
  }

  /** FUTURE also lists the bookings that have already started: CURRENT is
      contained in FUTURE, while PAST and FUTURE never share a booking. */
  lemma CurrentWithinFuture(ordered: seq<Booking>, p: CustomPageable, now: int)
    requires Accepted(p)
    ensures forall b :: b in Select(Some(State.CURRENT), ordered, p, now) ==>
                          b in Select(Some(State.FUTURE), ordered, p, now)
    ensures forall b :: b in Select(Some(State.PAST), ordered, p, now) ==>
                          b !in Select(Some(State.FUTURE), ordered, p, now)
  {
  }

  /** Every listing is at most one page long and keeps the end-descending
      order of the query. */
  lemma {:induction false} SelectOrdered(state: Option<State>, ordered: seq<Booking>, p: CustomPageable, now: int)
    requires Accepted(p)
    requires EndDescending(ordered)
    ensures EndDescending(Select(state, ordered, p, now))
    ensures |Select(state, ordered, p, now)| <= p.limit
  {
    EndDescendingIsSorted(ordered);
    WindowPreservesSorted(ordered, p.offset, p.limit, NegatedEnd);
    var r := Select(state, ordered, p, now);
    match state
    case None =>
    case Some(s) =>
      match s
      case ALL =>
      case WAITING =>
        var f := (b: Booking) => b.status == Status.WAITING;
        FilterPreservesSorted(ordered, f, NegatedEnd);
        WindowPreservesSorted(Filter(ordered, f), p.offset, p.limit, NegatedEnd);
      case REJECTED =>
        var f := (b: Booking) => b.status == Status.REJECTED;
        FilterPreservesSorted(ordered, f, NegatedEnd);
        WindowPreservesSorted(Filter(ordered, f), p.offset, p.limit, NegatedEnd);
      case PAST =>
        FilterPreservesSorted(Page(ordered, p), (b: Booking) => IsPast(b, now), NegatedEnd);
      case CURRENT =>
        FilterPreservesSorted(Page(ordered, p), (b: Booking) => IsCurrent(b, now), NegatedEnd);
      case FUTURE =>
        FilterPreservesSorted(Page(ordered, p), (b: Booking) => IsFuture(b, now), NegatedEnd);
    EndDescendingIsSorted(r);
  }

  /** Every booking listed for a booker is one of that booker's stored
      bookings, and WAITING and REJECTED list only bookings in that status. */
  lemma {:induction false} BookerListingBelongsToBooker(state: Option<State>, bookings: seq<Booking>, bookerId: int,
                                      p: CustomPageable, now: int)
    requires Accepted(p)
    ensures forall b :: b in Select(state, BookerBookings(bookings, bookerId), p, now) ==>
                          b in bookings && b.bookerId == bookerId
    ensures state == Some(State.WAITING) ==>
              forall b :: b in Select(state, BookerBookings(bookings, bookerId), p, now) ==> b.status == Status.WAITING
    ensures state == Some(State.REJECTED) ==>
              forall b :: b in Select(state, BookerBookings(bookings, bookerId), p, now) ==> b.status == Status.REJECTED
  {
    var ordered := BookerBookings(bookings, bookerId);
    match state
    case None =>
    case Some(s) =>
      match s
      case WAITING =>
        WindowElements(Filter(ordered, (b: Booking) => b.status == Status.WAITING), p.offset, p.limit);
      case REJECTED =>
        WindowElements(Filter(ordered, (b: Booking) => b.status == Status.REJECTED), p.offset, p.limit);
      case _ =>
        WindowElements(ordered, p.offset, p.limit);
  }

  /** Every booking listed for an owner is a stored booking of one of the
      owner's items, and WAITING and REJECTED list only bookings in that
      status. */
  lemma {:induction false} OwnerListingBelongsToOwner(state: Option<State>, items: seq<Item>, bookings: seq<Booking>,
                                                      ownerId: int, p: CustomPageable, now: int)
    requires Accepted(p)
    ensures forall b :: b in Select(state, OwnerBookings(items, bookings, ownerId), p, now) ==>
                          b in bookings && OwnerOf(items, b.itemId) == Some(ownerId)
    ensures state == Some(State.WAITING) ==>
              forall b :: b in Select(state, OwnerBookings(items, bookings, ownerId), p, now) ==>
                            b.status == Status.WAITING
    ensures state == Some(State.REJECTED) ==>
              forall b :: b in Select(state, OwnerBookings(items, bookings, ownerId), p, now) ==>
                            b.status == Status.REJECTED
  {
    var ordered := OwnerBookings(items, bookings, ownerId);
    match state
    case None =>
    case Some(s) =>
      match s
      case WAITING =>
        WindowElements(Filter(ordered, (b: Booking) => b.status == Status.WAITING), p.offset, p.limit);
      case REJECTED =>
        WindowElements(Filter(ordered, (b: Booking) => b.status == Status.REJECTED), p.offset, p.limit);
      case _ =>
        WindowElements(ordered, p.offset, p.limit);
  }
}

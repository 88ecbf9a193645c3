/**
 * The in-memory store `MemStorage` of server/storage.ts: five tables,
 * each a Map keyed by an auto-incremented id, with one counter per table
 * in `currentIds`. Rows are only ever added.
 */
module Storage {
  import opened Wrappers
  import opened Schema
  import opened Tables

  /** `currentIds`: the id the next row of each table will get. */
  datatype Counters = Counters(events: int, venues: int, categories: int, registrations: int, reviews: int)

  /** `{ ...event, id }`: the insert data with the assigned id in place of any id it carried. */
  function WithId(data: InsertEvent, id: int): (e: Event)
    ensures e.id == id
    ensures InsertEvent(Some(e.id), e.title, e.description, e.startDate, e.endDate, e.imageUrl,
                        e.venueId, e.categoryId, e.organizerId, e.capacity, e.isFeatured) == data.(id := Some(id))
    ensures EventDraftOf(data.(id := Some(id))) == EventDraftOf(data).(id := Given(e.id))
  {
    Event(id, data.title, data.description, data.startDate, data.endDate, data.imageUrl,
          data.venueId, data.categoryId, data.organizerId, data.capacity, data.isFeatured)
  }

  /** `{ ...review, id, createdAt: now }`. */
  function ReviewWithId(data: InsertReview, id: int, now: Timestamp): (r: Review)
    ensures r.id == id && r.createdAt == Some(now)
    ensures InsertReview(Some(r.id), r.eventId, r.userId, r.rating, r.comment, r.createdAt)
              == data.(id := Some(id), createdAt := Some(now))
    ensures ReviewDraftOf(data.(id := Some(id), createdAt := Some(now))) == ReviewDraftOf(data).(id := Given(r.id), createdAt := Given(now))
  {
    Review(id, data.eventId, data.userId, data.rating, data.comment, Some(now))
  }

  function VenueId(v: Venue): int { v.id }
  function CategoryId(c: Category): int { c.id }
  function EventId(e: Event): int { e.id }
  function RegistrationId(r: Registration): int { r.id }
  function ReviewId(r: Review): int { r.id }

  /** The filter `r => r.eventId === eventId`. */
  function ForEvent(eventId: int): Review -> bool {
    (r: Review) => r.eventId == eventId
  }

  /** The seed venues, ids 1 and 2. */
  const SeedVenues := [
    Venue(1, "University Auditorium", "Main Campus", "https://images.unsplash.com/photo-1737107917737-27f5530650db", 500),
    Venue(2, "Sports Complex", "North Campus", "https://images.unsplash.com/photo-1737107917840-ea155fb60498", 1000)]

  /** The seed categories, ids 1 to 4. */
  const SeedCategories := [
    Category(1, "Academic", "academic"), Category(2, "Cultural", "cultural"),
    Category(3, "Sports", "sports"), Category(4, "Technical", "technical")]

  /** The one seed event, featured, at venue 1 in category 4. */
  const SeedEvents := [
    Event(1, "Annual Tech Fest", "Join us for the biggest tech event of the year!",
          DateValue("2024-04-15T10:00:00"), DateValue("2024-04-17T18:00:00"),
          "https://images.unsplash.com/photo-1513151233558-d860c5398176",
          1, 4, 1, 500, Some(true))]

  /** The seed categories have pairwise different slugs, as the schema's `unique()` demands. */
  lemma SeedSlugsUnique(rows: map<int, Category>, order: seq<int>)
    requires forall i :: 0 <= i < |order| ==> order[i] in rows
    requires forall k :: k in rows ==> k in order
    requires Listing(rows, order) == SeedCategories
    ensures SlugsUnique(rows)
  {
    var l := Listing(rows, order);
    forall j, k | j in rows && k in rows && rows[j].slug == rows[k].slug ensures j == k {
      var a :| 0 <= a < |order| && order[a] == j;
      var b :| 0 <= b < |order| && order[b] == k;
      assert l[a] == rows[j] && l[b] == rows[k];
      assert a == b;
    }
  }

  class MemStorage {
    var events: map<int, Event>
    var eventOrder: seq<int>
    var venues: map<int, Venue>
    var venueOrder: seq<int>
    var categories: map<int, Category>
    var categoryOrder: seq<int>
    var registrations: map<int, Registration>
    var registrationOrder: seq<int>
    var reviews: map<int, Review>
    var reviewOrder: seq<int>
    var currentIds: Counters

    /**
     * Every table is a consistent Map below its counter, and every row is
     * stored under its own id.
     */
    ghost predicate Valid()
      reads this
    {
      && Consistent(events, eventOrder, currentIds.events) && Keyed(events, EventId)
      && Consistent(venues, venueOrder, currentIds.venues) && Keyed(venues, VenueId)
      && Consistent(categories, categoryOrder, currentIds.categories) && Keyed(categories, CategoryId)
      && Consistent(registrations, registrationOrder, currentIds.registrations) && Keyed(registrations, RegistrationId)
      && Consistent(reviews, reviewOrder, currentIds.reviews) && Keyed(reviews, ReviewId)
    }

    /** A fresh store holds the seed data and nothing else. */
    constructor ()
      ensures Valid()
      ensures currentIds == Counters(events := 2, venues := 3, categories := 5, registrations := 1, reviews := 1)
      ensures GetVenues() == SeedVenues
      ensures GetCategories() == SeedCategories && SlugsUnique(categories)
      ensures GetEvents() == SeedEvents
      ensures GetFeaturedEvents() == SeedEvents
      ensures registrations == map[] && registrationOrder == []
      ensures reviews == map[] && reviewOrder == []
    {
      events, eventOrder := map[], [];
      venues, venueOrder := map[], [];
      categories, categoryOrder := map[], [];
      registrations, registrationOrder := map[], [];
      reviews, reviewOrder := map[], [];
      currentIds := Counters(events := 1, venues := 1, categories := 1, registrations := 1, reviews := 1);
      new;
      InitializeData();
      SeedSlugsUnique(categories, categoryOrder);
      assert IsFeatured(SeedEvents[0]);
    }

    /** `initializeData`: stores the seed venues, then the categories, then the events. */
    method InitializeData()
      requires events == map[] && eventOrder == [] && venues == map[] && venueOrder == []
      requires categories == map[] && categoryOrder == []
      requires currentIds == Counters(events := 1, venues := 1, categories := 1, registrations := 1, reviews := 1)
      requires Consistent(registrations, registrationOrder, 1) && Keyed(registrations, RegistrationId)
      requires Consistent(reviews, reviewOrder, 1) && Keyed(reviews, ReviewId)
      modifies this
      ensures Valid()
      ensures currentIds == Counters(events := 2, venues := 3, categories := 5, registrations := 1, reviews := 1)
      ensures Listing(venues, venueOrder) == SeedVenues
      ensures Listing(categories, categoryOrder) == SeedCategories
      ensures Listing(events, eventOrder) == SeedEvents
      ensures registrations == old(registrations) && registrationOrder == old(registrationOrder)
      ensures reviews == old(reviews) && reviewOrder == old(reviewOrder)
    {
      AddVenues();
      AddCategories();
      AddEvents();
    }

    /** The venues block of the seed data, stored with `forEach`. */
    method AddVenues()
      requires venues == map[] && venueOrder == [] && currentIds.venues == 1
      modifies this`venues, this`venueOrder, this`currentIds
      ensures currentIds == old(currentIds).(venues := 3)
      ensures Consistent(venues, venueOrder, currentIds.venues) && Keyed(venues, VenueId)
      ensures Listing(venues, venueOrder) == SeedVenues
    {
      var v1 := Venue(currentIds.venues, "University Auditorium", "Main Campus",
                      "https://images.unsplash.com/photo-1737107917737-27f5530650db", 500);
      currentIds := currentIds.(venues := currentIds.venues + 1);
      var v2 := Venue(currentIds.venues, "Sports Complex", "North Campus",
                      "https://images.unsplash.com/photo-1737107917840-ea155fb60498", 1000);
      currentIds := currentIds.(venues := currentIds.venues + 1);
      ghost var rows0, order0 := venues, venueOrder;
      var seed := [v1, v2];
      assert seed == SeedVenues && Counted(seed, VenueId, 1);
      venues, venueOrder := SetEach(venues, venueOrder, seed, VenueId);
      SetAllCountedRows(rows0, order0, 1, seed, VenueId, venues, venueOrder);
    }

    /** The categories block of the seed data. */
    method AddCategories()
      requires categories == map[] && categoryOrder == [] && currentIds.categories == 1
      modifies this`categories, this`categoryOrder, this`currentIds
      ensures currentIds == old(currentIds).(categories := 5)
      ensures Consistent(categories, categoryOrder, currentIds.categories) && Keyed(categories, CategoryId)
      ensures Listing(categories, categoryOrder) == SeedCategories
    {
      var c1 := Category(currentIds.categories, "Academic", "academic");
      currentIds := currentIds.(categories := currentIds.categories + 1);
      var c2 := Category(currentIds.categories, "Cultural", "cultural");
      currentIds := currentIds.(categories := currentIds.categories + 1);
      var c3 := Category(currentIds.categories, "Sports", "sports");
      currentIds := currentIds.(categories := currentIds.categories + 1);
      var c4 := Category(currentIds.categories, "Technical", "technical");
      currentIds := currentIds.(categories := currentIds.categories + 1);
      ghost var rows0, order0 := categories, categoryOrder;
      var seed := [c1, c2, c3, c4];
      assert seed == SeedCategories && Counted(seed, CategoryId, 1);
      categories, categoryOrder := SetEach(categories, categoryOrder, seed, CategoryId);
      SetAllCountedRows(rows0, order0, 1, seed, CategoryId, categories, categoryOrder);
    }

    /** The sample-events block of the seed data. */
    method AddEvents()
      requires events == map[] && eventOrder == [] && currentIds.events == 1
      modifies this`events, this`eventOrder, this`currentIds
      ensures currentIds == old(currentIds).(events := 2)
      ensures Consistent(events, eventOrder, currentIds.events) && Keyed(events, EventId)
      ensures Listing(events, eventOrder) == SeedEvents
    {
      var e1 := Event(currentIds.events, "Annual Tech Fest", "Join us for the biggest tech event of the year!",
                      DateValue("2024-04-15T10:00:00"), DateValue("2024-04-17T18:00:00"),
                      "https://images.unsplash.com/photo-1513151233558-d860c5398176",
                      1, 4, 1, 500, Some(true));
      currentIds := currentIds.(events := currentIds.events + 1);
      ghost var rows0, order0 := events, eventOrder;
      var seed := [e1];
      assert seed == SeedEvents && Counted(seed, EventId, 1);
      events, eventOrder := SetEach(events, eventOrder, seed, EventId);
      SetAllCountedRows(rows0, order0, 1, seed, EventId, events, eventOrder);
    }

    // -------------------------------------------------------------------
    // Events
    // -------------------------------------------------------------------

    /** `getEvents`: every stored event exactly once, in insertion (= id) order. */
    function GetEvents(): (r: seq<Event>)
      reads this
      requires Valid()
      ensures forall e :: e in r <==> e.id in events && events[e.id] == e
      ensures forall i, j :: 0 <= i < j < |r| ==> r[i].id < r[j].id
    {
      assert forall k :: k in events ==> events[k].id == k;
      var l := Listing(events, eventOrder);
      ListingIncreasing(events, eventOrder, currentIds.events, EventId);
      l
    }

    /** `getEvent`: the event stored under `id`, if any. */
    function GetEvent(id: int): (r: Option<Event>)
      reads this
      requires Valid()
      ensures r.Some? <==> exists e :: e in GetEvents() && e.id == id
      ensures r.Some? ==> r.value.id == id && r.value in GetEvents()
      ensures r.Some? ==> 1 <= id < currentIds.events
    {
      if id in events then Some(events[id]) else None
    }

    /** `getFeaturedEvents`: exactly the featured stored events, in insertion order. */
    function GetFeaturedEvents(): (r: seq<Event>)
      reads this
      requires Valid()
      ensures forall e :: e in r <==> e in GetEvents() && IsFeatured(e)
      ensures forall i, j :: 0 <= i < j < |r| ==> r[i].id < r[j].id
    {
      var all := GetEvents();
      SelectKeepsMatches(all, IsFeatured);
      SelectKeepsOrder(all, IsFeatured, EventId);
      Select(all, IsFeatured)
    }

    /**
     * `createEvent`: stores the data under the events counter, which moves
     * on by one; no other table and no existing event changes.
     */
    method CreateEvent(data: InsertEvent) returns (e: Event)
      requires Valid()
      modifies this`events, this`eventOrder, this`currentIds
      ensures Valid()
      ensures e == WithId(data, old(currentIds.events))
      ensures e.id !in old(events)
      ensures currentIds == old(currentIds).(events := old(currentIds.events) + 1)
      ensures events == old(events)[e.id := e] && eventOrder == old(eventOrder) + [e.id]
      ensures venues == old(venues) && venueOrder == old(venueOrder)
      ensures categories == old(categories) && categoryOrder == old(categoryOrder)
      ensures registrations == old(registrations) && registrationOrder == old(registrationOrder)
      ensures reviews == old(reviews) && reviewOrder == old(reviewOrder)
      ensures GetEvent(e.id) == Some(e)
      ensures GetEvents() == old(GetEvents()) + [e]
      ensures GetFeaturedEvents() == old(GetFeaturedEvents()) + (if IsFeatured(e) then [e] else [])
    {
      ghost var listed := GetEvents();
      var id := currentIds.events;
      currentIds := currentIds.(events := currentIds.events + 1);
      e := WithId(data, id);
      InsertNext(events, eventOrder, id, e);
      ListingAfterInsert(events, eventOrder, id, e);
      eventOrder := OrderAfterSet(events, eventOrder, id);
      events := events[id := e];
      assert GetEvents() == listed + [e];
      FeaturedAfterAppend(e);
    }

    /** An event appended to the listing joins the featured ones exactly when it is featured. */
    twostate lemma FeaturedAfterAppend(e: Event)
      requires old(Valid()) && Valid()
      requires GetEvents() == old(GetEvents()) + [e]
      ensures GetFeaturedEvents() == old(GetFeaturedEvents()) + (if IsFeatured(e) then [e] else [])
    {
      SelectSnoc(old(GetEvents()), e, IsFeatured);
    }

    // -------------------------------------------------------------------
    // Venues and categories
    // -------------------------------------------------------------------

    /** `getVenues`: every stored venue exactly once, in insertion (= id) order. */
    function GetVenues(): (r: seq<Venue>)
      reads this
      requires Valid()
      ensures forall v :: v in r <==> v.id in venues && venues[v.id] == v
      ensures forall i, j :: 0 <= i < j < |r| ==> r[i].id < r[j].id
    {
      assert forall k :: k in venues ==> venues[k].id == k;
      var l := Listing(venues, venueOrder);
      ListingIncreasing(venues, venueOrder, currentIds.venues, VenueId);
      l
    }

    /** `getVenue`: the venue stored under `id`, if any. */
    function GetVenue(id: int): (r: Option<Venue>)
      reads this
      requires Valid()
      ensures r.Some? <==> exists v :: v in GetVenues() && v.id == id
      ensures r.Some? ==> r.value.id == id && r.value in GetVenues()
    {
      if id in venues then Some(venues[id]) else None
    }

    /** `getCategories`: every stored category exactly once, in insertion (= id) order. */
    function GetCategories(): (r: seq<Category>)
      reads this
      requires Valid()
      ensures forall c :: c in r <==> c.id in categories && categories[c.id] == c
      ensures forall i, j :: 0 <= i < j < |r| ==> r[i].id < r[j].id
    {
      assert forall k :: k in categories ==> categories[k].id == k;
      var l := Listing(categories, categoryOrder);
      ListingIncreasing(categories, categoryOrder, currentIds.categories, CategoryId);
      l
    }

    // -------------------------------------------------------------------
    // Registrations
    // -------------------------------------------------------------------

    /**
     * `createRegistration`: no check that the event or the user exists.
     * `ticketCode` is the value of `nanoid(10)` and `now` that of
     * `new Date()`. Nothing here checks that the ticket code is not taken
     * yet; `TicketCodesUniqueAfterInsert` says what that means for the
     * table's uniqueness.
     */
    method CreateRegistration(eventId: int, userId: int, ticketCode: string, now: Timestamp)
      returns (reg: Registration)
      requires Valid()
      requires |ticketCode| == 10
      modifies this`registrations, this`registrationOrder, this`currentIds
      ensures Valid()
      ensures reg == Registration(old(currentIds.registrations), eventId, userId, ticketCode, Some(now))
      ensures reg.id !in old(registrations) && |reg.ticketCode| == 10
      ensures currentIds == old(currentIds).(registrations := old(currentIds.registrations) + 1)
      ensures registrations == old(registrations)[reg.id := reg]
      ensures registrationOrder == old(registrationOrder) + [reg.id]
      ensures events == old(events) && eventOrder == old(eventOrder)
      ensures venues == old(venues) && venueOrder == old(venueOrder)
      ensures categories == old(categories) && categoryOrder == old(categoryOrder)
      ensures reviews == old(reviews) && reviewOrder == old(reviewOrder)
      ensures GetRegistration(reg.id) == Some(reg)
    {
      var id := currentIds.registrations;
      currentIds := currentIds.(registrations := currentIds.registrations + 1);
      reg := Registration(id, eventId, userId, ticketCode, Some(now));
      InsertNext(registrations, registrationOrder, id, reg);
      registrationOrder := OrderAfterSet(registrations, registrationOrder, id);
      registrations := registrations[id := reg];
    }

    /** `getRegistration`: the registration stored under `id`, if any. */
    function GetRegistration(id: int): (r: Option<Registration>)
      reads this
      requires Valid()
      ensures r.Some? <==> id in registrations
      ensures r.Some? ==> r.value == registrations[id]
      ensures r.Some? ==> r.value.id == id && 1 <= id < currentIds.registrations
    {
      if id in registrations then Some(registrations[id]) else None
    }

    // -------------------------------------------------------------------
    // Reviews
    // -------------------------------------------------------------------

    /** `getEventReviews`: exactly the stored reviews of `eventId`, in insertion order. */
    function GetEventReviews(eventId: int): (r: seq<Review>)
      reads this
      requires Valid()
      ensures forall x :: x in r <==> x.id in reviews && reviews[x.id] == x && x.eventId == eventId
      ensures forall i, j :: 0 <= i < j < |r| ==> r[i].id < r[j].id
    {
      var all := Listing(reviews, reviewOrder);
      ListingIncreasing(reviews, reviewOrder, currentIds.reviews, ReviewId);
      SelectKeepsMatches(all, ForEvent(eventId));
      SelectKeepsOrder(all, ForEvent(eventId), ReviewId);
      Select(all, ForEvent(eventId))
    }

    /**
     * `createReview`: stores the data under the reviews counter with
     * `createdAt` set to `now`, overriding any id or timestamp it carried.
     */
    method CreateReview(data: InsertReview, now: Timestamp) returns (rv: Review)
      requires Valid()
      modifies this`reviews, this`reviewOrder, this`currentIds
      ensures Valid()
      ensures rv == ReviewWithId(data, old(currentIds.reviews), now)
      ensures rv.id !in old(reviews)
      ensures currentIds == old(currentIds).(reviews := old(currentIds.reviews) + 1)
      ensures reviews == old(reviews)[rv.id := rv] && reviewOrder == old(reviewOrder) + [rv.id]
      ensures events == old(events) && eventOrder == old(eventOrder)
      ensures venues == old(venues) && venueOrder == old(venueOrder)
      ensures categories == old(categories) && categoryOrder == old(categoryOrder)
      ensures registrations == old(registrations) && registrationOrder == old(registrationOrder)
      ensures forall x :: GetEventReviews(x) == old(GetEventReviews(x)) + (if x == rv.eventId then [rv] else [])
    {
      ghost var listed := Listing(reviews, reviewOrder);
      var id := currentIds.reviews;
      currentIds := currentIds.(reviews := currentIds.reviews + 1);
      rv := ReviewWithId(data, id, now);
      InsertNext(reviews, reviewOrder, id, rv);
      ListingAfterInsert(reviews, reviewOrder, id, rv);
      reviewOrder := OrderAfterSet(reviews, reviewOrder, id);
      reviews := reviews[id := rv];
      assert Listing(reviews, reviewOrder) == listed + [rv];
      EventReviewsAfterAppend(rv);
    }

    /** A review appended to the listing joins the reviews of its own event, and of no other. */
    twostate lemma EventReviewsAfterAppend(rv: Review)
      requires old(Valid()) && Valid()
      requires Listing(reviews, reviewOrder) == old(Listing(reviews, reviewOrder)) + [rv]
      ensures forall x :: GetEventReviews(x) == old(GetEventReviews(x)) + (if x == rv.eventId then [rv] else [])
    {
      ghost var listed := old(Listing(reviews, reviewOrder));
      forall x ensures GetEventReviews(x) == old(GetEventReviews(x)) + (if x == rv.eventId then [rv] else []) {
        SelectSnoc(listed, rv, ForEvent(x));
      }
    }
  }
}

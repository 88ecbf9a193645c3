/**
 * The HTTP API of server/routes.ts: the table of routes in the order
 * `registerRoutes` registers them, the router that serves a request with
 * the first route that matches it, and one handler per route over a
 * `MemStorage`.
 */
module Routes {
  import opened Wrappers
  import opened Schema
  import opened Storage

  // ---------------------------------------------------------------------
  // Routing
  // ---------------------------------------------------------------------

  datatype Verb = Get | Post

  /** One `/`-separated piece of a route pattern: a fixed word or a parameter such as `:id`. */
  datatype Segment = Lit(word: string) | Param

  /** The handlers, one per registered route. */
  datatype Endpoint =
    | ListEvents | ListFeatured | ShowEvent | AddEvent
    | ListVenues | ListCategories
    | Register | ListReviews | AddReview

  datatype Route = Route(verb: Verb, pattern: seq<Segment>, endpoint: Endpoint)

  /** The routes, in registration order. */
  const RouteTable := [
    Route(Get, [Lit("api"), Lit("events")], ListEvents),
    Route(Get, [Lit("api"), Lit("events"), Lit("featured")], ListFeatured),
    Route(Get, [Lit("api"), Lit("events"), Param], ShowEvent),
    Route(Post, [Lit("api"), Lit("events")], AddEvent),
    Route(Get, [Lit("api"), Lit("venues")], ListVenues),
    Route(Get, [Lit("api"), Lit("categories")], ListCategories),
    Route(Post, [Lit("api"), Lit("events"), Param, Lit("register")], Register),
    Route(Get, [Lit("api"), Lit("events"), Param, Lit("reviews")], ListReviews),
    Route(Post, [Lit("api"), Lit("events"), Param, Lit("reviews")], AddReview)]

  /**
   * One ASCII character with upper case folded to lower case. A
   * case-insensitive JavaScript regular expression (without the `u` flag)
   * never folds a character outside ASCII onto one inside it, so for the
   * all-ASCII words of the route table this is exactly its comparison.
   */
  function FoldChar(c: char): (f: char)
    ensures f == '/' <==> c == '/'
    ensures !('A' <= f <= 'Z')
  {
    if 'A' <= c <= 'Z' then (c as int + 32) as char else c
  }

  function FoldCase(s: string): (f: string)
    ensures |f| == |s|
    ensures forall i :: 0 <= i < |s| ==> f[i] == FoldChar(s[i])
  {
    seq(|s|, i requires 0 <= i < |s| => FoldChar(s[i]))
  }

  /**
   * One pattern segment against one path segment: a fixed word matches
   * it with case ignored, a parameter any non-empty text without a `/`.
   */
  predicate SegmentMatches(p: Segment, seg: string) {
    if p.Lit? then FoldCase(seg) == FoldCase(p.word) else seg != "" && '/' !in seg
  }

  /**
   * Express's default, neither case-sensitive nor strict: a pattern matches
   * a path (its segments after the leading `/`) segment by segment, and
   * the path may carry one trailing `/`, which leaves an empty last segment.
   */
  predicate PatternMatches(pattern: seq<Segment>, path: seq<string>) {
    && (|path| == |pattern| || (|path| == |pattern| + 1 && path[|pattern|] == ""))
    && forall i :: 0 <= i < |pattern| ==> SegmentMatches(pattern[i], path[i])
  }

  predicate RouteMatches(route: Route, verb: Verb, path: seq<string>) {
    route.verb == verb && PatternMatches(route.pattern, path)
  }

  /** The position of the first route at or after `from` that matches the request. */
  function FirstMatch(table: seq<Route>, verb: Verb, path: seq<string>, from: nat): (r: Option<nat>)
    requires from <= |table|
    ensures r.Some? ==> from <= r.value < |table| && RouteMatches(table[r.value], verb, path)
    ensures r.Some? ==> forall j :: from <= j < r.value ==> !RouteMatches(table[j], verb, path)
    ensures r.None? ==> forall j :: from <= j < |table| ==> !RouteMatches(table[j], verb, path)
    decreases |table| - from
  {
    if from == |table| then None
    else if RouteMatches(table[from], verb, path) then Some(from)
    else FirstMatch(table, verb, path, from + 1)
  }

  /** Express's dispatch: the endpoint of the first registered route that matches. */
  function Resolve(verb: Verb, path: seq<string>): (r: Option<Endpoint>)
    ensures r.Some? <==> exists j :: 0 <= j < |RouteTable| && RouteMatches(RouteTable[j], verb, path)
    ensures r.Some? ==> exists j :: 0 <= j < |RouteTable| && RouteMatches(RouteTable[j], verb, path)
                                     && RouteTable[j].endpoint == r.value
                                     && forall i :: 0 <= i < j ==> !RouteMatches(RouteTable[i], verb, path)
  {
    var k := FirstMatch(RouteTable, verb, path, 0);
    if k.Some? then Some(RouteTable[k.value].endpoint) else None
  }

  /** Two paths that every route matches alike are served alike. */
  lemma {:induction false} FirstMatchAlike(table: seq<Route>, verb: Verb, p: seq<string>, q: seq<string>, from: nat)
    requires from <= |table|
    requires forall j :: from <= j < |table| ==> (RouteMatches(table[j], verb, p) <==> RouteMatches(table[j], verb, q))
    ensures FirstMatch(table, verb, p, from) == FirstMatch(table, verb, q, from)
    decreases |table| - from
  {
    if from < |table| {
      FirstMatchAlike(table, verb, p, q, from + 1);
    }
  }

  /** Paths that differ only in the case of their letters are served by the same route. */
  lemma CaseIgnored(verb: Verb, p: seq<string>, q: seq<string>)
    requires |p| == |q| && forall i :: 0 <= i < |p| ==> FoldCase(p[i]) == FoldCase(q[i])
    ensures Resolve(verb, p) == Resolve(verb, q)
  {
    forall i | 0 <= i < |p| && p[i] != "" && '/' !in p[i] ensures q[i] != "" && '/' !in q[i] {
      assert |FoldCase(q[i])| == |p[i]|;
      forall c | 0 <= c < |q[i]| ensures q[i][c] != '/' {
        assert FoldChar(q[i][c]) == FoldCase(q[i])[c] == FoldCase(p[i])[c] == FoldChar(p[i][c]);
      }
    }
    forall i | 0 <= i < |p| && q[i] != "" && '/' !in q[i] ensures p[i] != "" && '/' !in p[i] {
      assert |FoldCase(p[i])| == |q[i]|;
      forall c | 0 <= c < |p[i]| ensures p[i][c] != '/' {
        assert FoldChar(p[i][c]) == FoldCase(p[i])[c] == FoldCase(q[i])[c] == FoldChar(q[i][c]);
      }
    }
    FirstMatchAlike(RouteTable, verb, p, q, 0);
  }

  /** No fixed word of a pattern is empty. */
  predicate WordsNonEmpty(pattern: seq<Segment>) {
    forall i :: 0 <= i < |pattern| && pattern[i].Lit? ==> pattern[i].word != ""
  }

  /** With no empty word in the pattern, a trailing `/` on a path of non-empty segments changes nothing. */
  lemma TrailingSlashMatches(route: Route, verb: Verb, path: seq<string>)
    requires WordsNonEmpty(route.pattern)
    requires forall i :: 0 <= i < |path| ==> path[i] != ""
    ensures RouteMatches(route, verb, path + [""]) <==> RouteMatches(route, verb, path)
  {
    var q, n := path + [""], |route.pattern|;
    if |path| + 1 == n {
      assert q[n - 1] == "";
      assert !SegmentMatches(route.pattern[n - 1], "") by {
        if route.pattern[n - 1].Lit? {
          assert |FoldCase(route.pattern[n - 1].word)| > 0;
        }
      }
    }
    if |path| == n + 1 {
      assert path[n] != "";
    }
    assert forall i :: 0 <= i < |path| ==> q[i] == path[i];
  }

  /** `GET /api/events/` and the like: a trailing `/` reaches the same handler as the path without it. */
  lemma TrailingSlash(verb: Verb, path: seq<string>)
    requires forall i :: 0 <= i < |path| ==> path[i] != ""
    ensures Resolve(verb, path + [""]) == Resolve(verb, path)
  {
    forall j | 0 <= j < |RouteTable|
      ensures RouteMatches(RouteTable[j], verb, path + [""]) <==> RouteMatches(RouteTable[j], verb, path)
    {
      TrailingSlashMatches(RouteTable[j], verb, path);
    }
    FirstMatchAlike(RouteTable, verb, path + [""], path, 0);
  }

  /**
   * `/api/events/featured`, in any case, is matched by the `:id` route
   * too, but the featured route is registered first and serves it.
   */
  lemma FeaturedShadowsId(seg: string)
    requires FoldCase(seg) == "featured"
    ensures RouteMatches(RouteTable[2], Get, ["api", "events", seg])
    ensures Resolve(Get, ["api", "events", seg]) == Some(ListFeatured)
  {
    assert seg != "" by {
      assert |FoldCase(seg)| == 8;
    }
    assert '/' !in seg by {
      forall c | 0 <= c < |seg| ensures seg[c] != '/' {
        assert FoldChar(seg[c]) == FoldCase(seg)[c];
      }
    }
    assert FoldCase("featured") == "featured";
    assert RouteMatches(RouteTable[1], Get, ["api", "events", seg]);
  }

  /** Every other non-empty segment after `/api/events/` is an event id. */
  lemma SegmentIsEventId(seg: string)
    requires seg != "" && '/' !in seg && FoldCase(seg) != "featured"
    ensures Resolve(Get, ["api", "events", seg]) == Some(ShowEvent)
  {
    var path := ["api", "events", seg];
    assert FoldCase("api") == "api" && FoldCase("events") == "events" && FoldCase("featured") == "featured";
    assert RouteMatches(RouteTable[2], Get, path);
    assert !SegmentMatches(RouteTable[1].pattern[2], seg);
    assert !RouteMatches(RouteTable[1], Get, path);
  }

  /** Any non-empty segment between `/api/events/` and `/register` is an event id. */
  lemma RegisterRouteServes(seg: string)
    requires seg != "" && '/' !in seg
    ensures Resolve(Post, ["api", "events", seg, "register"]) == Some(Register)
  {
    assert FoldCase("api") == "api" && FoldCase("events") == "events" && FoldCase("register") == "register";
    assert RouteMatches(RouteTable[6], Post, ["api", "events", seg, "register"]);
  }

  /** Any non-empty segment between `/api/events/` and `/reviews` is an event id, for both verbs. */
  lemma ReviewRoutesServe(seg: string)
    requires seg != "" && '/' !in seg
    ensures Resolve(Get, ["api", "events", seg, "reviews"]) == Some(ListReviews)
    ensures Resolve(Post, ["api", "events", seg, "reviews"]) == Some(AddReview)
  {
    var path := ["api", "events", seg, "reviews"];
    assert FoldCase("api") == "api" && FoldCase("events") == "events" && FoldCase("reviews") == "reviews";
    assert RouteMatches(RouteTable[7], Get, path);
    assert !RouteMatches(RouteTable[6], Post, path) by {
      assert |FoldCase(path[3])| != |FoldCase(RouteTable[6].pattern[3].word)|;
    }
    assert RouteMatches(RouteTable[8], Post, path);
  }

  /** `GET /api/events/Featured` is the featured listing, not a lookup of the id "Featured". */
  lemma CapitalisedFeatured()
    ensures Resolve(Get, ["api", "events", "Featured"]) == Some(ListFeatured)
  {
    FeaturedShadowsId("Featured");
  }

  /** `GET /api/events/` is the listing of all events. */
  lemma EventsWithTrailingSlash()
    ensures Resolve(Get, ["api", "events", ""]) == Some(ListEvents)
  {
    assert FoldCase("api") == "api" && FoldCase("events") == "events";
    assert RouteMatches(RouteTable[0], Get, ["api", "events", ""]);
  }

  // ---------------------------------------------------------------------
  // Responses
  // ---------------------------------------------------------------------

  /** The JSON value a handler passes to `res.json`. */
  datatype Payload =
    | Events(events: seq<Event>)
    | OneEvent(event: Event)
    | Venues(venues: seq<Venue>)
    | Categories(categories: seq<Category>)
    | OneRegistration(registration: Registration)
    | Reviews(reviews: seq<Review>)
    | OneReview(review: Review)
    | Message(message: string)

  /** A status code (200 unless the handler sets another) and the JSON body. */
  datatype Response = Response(status: int, payload: Payload)

  // ---------------------------------------------------------------------
  // GET handlers
  // ---------------------------------------------------------------------

  /** `GET /api/events`: 200 with every stored event. */
  function GetEventsRoute(s: MemStorage): (r: Response)
    reads s
    requires s.Valid()
    ensures r.status == 200 && r.payload.Events?
    ensures forall e :: e in r.payload.events <==> e.id in s.events && s.events[e.id] == e
    ensures forall i, j :: 0 <= i < j < |r.payload.events| ==> r.payload.events[i].id < r.payload.events[j].id
  {
    Response(200, Events(s.GetEvents()))
  }

  /** `GET /api/events/featured`: 200 with exactly the featured stored events. */
  function GetFeaturedRoute(s: MemStorage): (r: Response)
    reads s
    requires s.Valid()
    ensures r.status == 200 && r.payload.Events?
    ensures forall e :: e in r.payload.events <==> e.id in s.events && s.events[e.id] == e && IsFeatured(e)
    ensures forall i, j :: 0 <= i < j < |r.payload.events| ==> r.payload.events[i].id < r.payload.events[j].id
  {
    Response(200, Events(s.GetFeaturedEvents()))
  }

  /** `GET /api/events/:id`: 404 "Event not found" exactly when no event has that id, else 200 with it. */
  function GetEventRoute(s: MemStorage, id: int): (r: Response)
    reads s
    requires s.Valid()
    ensures r.status == 404 <==> id !in s.events
    ensures r.status == 404 ==> r.payload == Message("Event not found")
    ensures r.status != 404 ==> r.status == 200 && r.payload.OneEvent? && r.payload.event.id == id
                                && r.payload.event in s.GetEvents()
  {
    var found := s.GetEvent(id);
    if found.None? then Response(404, Message("Event not found")) else Response(200, OneEvent(found.value))
  }

  /** `GET /api/venues`: 200 with every stored venue. */
  function GetVenuesRoute(s: MemStorage): (r: Response)
    reads s
    requires s.Valid()
    ensures r.status == 200 && r.payload.Venues?
    ensures forall v :: v in r.payload.venues <==> v.id in s.venues && s.venues[v.id] == v
    ensures forall i, j :: 0 <= i < j < |r.payload.venues| ==> r.payload.venues[i].id < r.payload.venues[j].id
  {
    Response(200, Venues(s.GetVenues()))
  }

  /** `GET /api/categories`: 200 with every stored category. */
  function GetCategoriesRoute(s: MemStorage): (r: Response)
    reads s
    requires s.Valid()
    ensures r.status == 200 && r.payload.Categories?
    ensures forall c :: c in r.payload.categories <==> c.id in s.categories && s.categories[c.id] == c
    ensures forall i, j :: 0 <= i < j < |r.payload.categories| ==> r.payload.categories[i].id < r.payload.categories[j].id
  {
    Response(200, Categories(s.GetCategories()))
  }

  /** `GET /api/events/:id/reviews`: 200 with the reviews of that event, oldest first. */
  function GetReviewsRoute(s: MemStorage, id: int): (r: Response)
    reads s
    requires s.Valid()
    ensures r.status == 200 && r.payload.Reviews?
    ensures forall x :: x in r.payload.reviews <==> x.id in s.reviews && s.reviews[x.id] == x && x.eventId == id
    ensures forall i, j :: 0 <= i < j < |r.payload.reviews| ==> r.payload.reviews[i].id < r.payload.reviews[j].id
  {
    Response(200, Reviews(s.GetEventReviews(id)))
  }

  // ---------------------------------------------------------------------
  // POST handlers
  // ---------------------------------------------------------------------

  /**
   * `POST /api/events`: 400 "Invalid event data" and no change when the
   * body fails `insertEventSchema`; otherwise the event is created and
   * returned with 201.
   */
  method PostEventRoute(s: MemStorage, body: EventDraft) returns (r: Response)
    requires s.Valid()
    modifies s
    ensures s.Valid()
    ensures r.status == 400 <==> !EventDraftValid(body)
    ensures !EventDraftValid(body) ==> r.payload == Message("Invalid event data") && unchanged(s)
    ensures EventDraftValid(body) ==>
              && r.status == 201 && r.payload.OneEvent?
              && r.payload.event == WithId(ParseInsertEvent(body).value, old(s.currentIds.events))
              && s.currentIds == old(s.currentIds).(events := old(s.currentIds.events) + 1)
              && s.events == old(s.events)[r.payload.event.id := r.payload.event]
              && s.eventOrder == old(s.eventOrder) + [r.payload.event.id]
              && s.GetEvents() == old(s.GetEvents()) + [r.payload.event]
              && s.venues == old(s.venues) && s.venueOrder == old(s.venueOrder)
              && s.categories == old(s.categories) && s.categoryOrder == old(s.categoryOrder)
              && s.registrations == old(s.registrations) && s.registrationOrder == old(s.registrationOrder)
              && s.reviews == old(s.reviews) && s.reviewOrder == old(s.reviewOrder)
  {
    var parsed := ParseInsertEvent(body);
    if parsed.None? {
      return Response(400, Message("Invalid event data"));
    }
    var e := s.CreateEvent(parsed.value);
    r := Response(201, OneEvent(e));
  }

  /**
   * An event posted without `isFeatured`, or with `null`, is stored
   * without it, so it never shows among the featured events: nothing
   * applies the column's default of false or true.
   */
  lemma UnsetFeaturedIsNotFeatured(body: EventDraft, id: int)
    requires EventDraftValid(body) && (body.isFeatured.Missing? || body.isFeatured.Null?)
    ensures WithId(ParseInsertEvent(body).value, id).isFeatured.None?
    ensures !IsFeatured(WithId(ParseInsertEvent(body).value, id))
  {
  }

  /**
   * `POST /api/events/:id/register`: always 201. Registers user 1 for the
   * path id, whether or not such an event exists. `ticketCode` and `now`
   * are the values of `nanoid(10)` and `new Date()` inside the store.
   */
  method PostRegisterRoute(s: MemStorage, id: int, ticketCode: string, now: Timestamp) returns (r: Response)
    requires s.Valid()
    requires |ticketCode| == 10
    modifies s
    ensures s.Valid()
    ensures r.status == 201 && r.payload.OneRegistration?
    ensures r.payload.registration == Registration(old(s.currentIds.registrations), id, 1, ticketCode, Some(now))
    ensures s.currentIds == old(s.currentIds).(registrations := old(s.currentIds.registrations) + 1)
    ensures s.registrations == old(s.registrations)[r.payload.registration.id := r.payload.registration]
    ensures s.registrationOrder == old(s.registrationOrder) + [r.payload.registration.id]
    ensures s.GetRegistration(r.payload.registration.id) == Some(r.payload.registration)
    ensures s.events == old(s.events) && s.eventOrder == old(s.eventOrder)
    ensures s.venues == old(s.venues) && s.venueOrder == old(s.venueOrder)
    ensures s.categories == old(s.categories) && s.categoryOrder == old(s.categoryOrder)
    ensures s.reviews == old(s.reviews) && s.reviewOrder == old(s.reviewOrder)
  {
    var reg := s.CreateRegistration(id, 1, ticketCode, now);
    r := Response(201, OneRegistration(reg));
  }

  /** `{ ...req.body, eventId: Number(req.params.id), userId: 1 }`. */
  function WithPathValues(body: ReviewDraft, id: int): (d: ReviewDraft)
    ensures d.eventId == Given(id) && d.userId == Given(1)
    ensures d.(eventId := body.eventId, userId := body.userId) == body
  {
    body.(eventId := Given(id), userId := Given(1))
  }

  /**
   * What a review body must satisfy once the path values are merged in:
   * only its own fields count, never the `eventId` or `userId` it sends.
   */
  predicate ReviewBodyValid(body: ReviewDraft) {
    Defaulted(body.id) && Required(body.rating) && Nullable(body.comment) && Nullable(body.createdAt)
  }

  /** The merged body is valid exactly when the body's own fields are. */
  lemma PathValuesOverrideBody(body: ReviewDraft, id: int)
    ensures ReviewDraftValid(WithPathValues(body, id)) <==> ReviewBodyValid(body)
    ensures ReviewBodyValid(body) ==>
              ParseInsertReview(WithPathValues(body, id)).value.eventId == id &&
              ParseInsertReview(WithPathValues(body, id)).value.userId == 1
  {
  }

  /**
   * `POST /api/events/:id/reviews`: the path id and user 1 replace any
   * `eventId` and `userId` in the body; 400 "Invalid review data" and no
   * change when the result fails `insertReviewSchema`, else 201 with the
   * stored review.
   */
  method PostReviewRoute(s: MemStorage, id: int, body: ReviewDraft, now: Timestamp) returns (r: Response)
    requires s.Valid()
    modifies s
    ensures s.Valid()
    ensures r.status == 400 <==> !ReviewBodyValid(body)
    ensures !ReviewBodyValid(body) ==> r.payload == Message("Invalid review data") && unchanged(s)
    ensures ReviewBodyValid(body) ==>
              && r.status == 201 && r.payload.OneReview?
              && r.payload.review == ReviewWithId(ParseInsertReview(WithPathValues(body, id)).value, old(s.currentIds.reviews), now)
              && r.payload.review.eventId == id && r.payload.review.userId == 1
              && r.payload.review.rating == body.rating.value
              && r.payload.review.comment == ValueOf(body.comment)
              && r.payload.review.id == old(s.currentIds.reviews) && r.payload.review.createdAt == Some(now)
              && s.currentIds == old(s.currentIds).(reviews := old(s.currentIds.reviews) + 1)
              && s.reviews == old(s.reviews)[r.payload.review.id := r.payload.review]
              && s.reviewOrder == old(s.reviewOrder) + [r.payload.review.id]
              && s.GetEventReviews(id) == old(s.GetEventReviews(id)) + [r.payload.review]
              && s.events == old(s.events) && s.eventOrder == old(s.eventOrder)
              && s.venues == old(s.venues) && s.venueOrder == old(s.venueOrder)
              && s.categories == old(s.categories) && s.categoryOrder == old(s.categoryOrder)
              && s.registrations == old(s.registrations) && s.registrationOrder == old(s.registrationOrder)
  {
    PathValuesOverrideBody(body, id);
    var parsed := ParseInsertReview(WithPathValues(body, id));
    if parsed.None? {
      return Response(400, Message("Invalid review data"));
    }
    var rv := s.CreateReview(parsed.value, now);
    r := Response(201, OneReview(rv));
  }
}

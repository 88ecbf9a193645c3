/**
 * The record shapes of shared/schema.ts: one datatype per table row, the
 * insert shapes that request bodies are parsed into, and the table-level
 * predicates for the unique columns the schema declares.
 */
module Schema {
  import opened Wrappers

  /** A point in time, written as the ISO-8601 local date-time it denotes. */
  type Timestamp = string

  /** `z.string().or(z.date())`: a date as submitted, text or date value. */
  datatype DateInput = DateText(text: string) | DateValue(at: Timestamp)

  datatype Category = Category(id: int, name: string, slug: string)

  datatype Venue = Venue(id: int, name: string, location: string, imageUrl: string, capacity: int)

  /**
   * A stored event. The dates keep the form the insert shape accepted
   * (storage spreads the parsed body as it is), and `isFeatured` is
   * nullable: None stands for both a missing key and `null`.
   */
  datatype Event = Event(
    id: int,
    title: string,
    description: string,
    startDate: DateInput,
    endDate: DateInput,
    imageUrl: string,
    venueId: int,
    categoryId: int,
    organizerId: int,
    capacity: int,
    isFeatured: Option<bool>)

  datatype Registration = Registration(
    id: int, eventId: int, userId: int, ticketCode: string, registeredAt: Option<Timestamp>)

  datatype Review = Review(
    id: int, eventId: int, userId: int, rating: int, comment: Option<string>, createdAt: Option<Timestamp>)

  /** A featured event is one whose `isFeatured` is truthy: neither missing, null nor false. */
  predicate IsFeatured(e: Event) {
    e.isFeatured == Some(true)
  }

  // ---------------------------------------------------------------------
  // Unique columns, as predicates on a table keyed by id
  // ---------------------------------------------------------------------

  /** `slug` is declared unique. */
  predicate SlugsUnique(m: map<int, Category>) {
    forall j, k :: j in m && k in m && m[j].slug == m[k].slug ==> j == k
  }

  /** `ticketCode` is declared unique. */
  predicate TicketCodesUnique(m: map<int, Registration>) {
    forall j, k :: j in m && k in m && m[j].ticketCode == m[k].ticketCode ==> j == k
  }

  /** A new registration keeps ticket codes unique exactly when its code is not taken yet. */
  lemma TicketCodesUniqueAfterInsert(m: map<int, Registration>, k: int, reg: Registration)
    requires k !in m
    ensures TicketCodesUnique(m[k := reg]) <==>
              TicketCodesUnique(m) && forall j :: j in m ==> m[j].ticketCode != reg.ticketCode
  {
    var m' := m[k := reg];
    if TicketCodesUnique(m') {
      forall j | j in m ensures m[j].ticketCode != reg.ticketCode {
        assert j in m' && m'[j] == m[j] && j != k && m'[k] == reg;
      }
      forall i, j | i in m && j in m && m[i].ticketCode == m[j].ticketCode ensures i == j {
        assert m'[i] == m[i] && m'[j] == m[j];
      }
    }
  }

  // ---------------------------------------------------------------------
  // Insert shapes and their validation
  // ---------------------------------------------------------------------

  /**
   * One field of a JSON request body as the validator sees it: absent,
   * explicitly null, a value of the column's type, or a value of some
   * other type.
   */
  datatype Field<T> = Missing | Null | Given(value: T) | Malformed

  /** A `notNull()` column without a default: the field must be given. */
  predicate Required<T>(f: Field<T>) { f.Given? }

  /** A `notNull()` column with a default (a serial key): optional, not nullable. */
  predicate Defaulted<T>(f: Field<T>) { f.Missing? || f.Given? }

  /** A column without `notNull()`: optional and nullable. */
  predicate Nullable<T>(f: Field<T>) { !f.Malformed? }

  function ValueOf<T>(f: Field<T>): Option<T> {
    if f.Given? then Some(f.value) else None
  }

  /** The body of a POST /api/events request, field by field. */
  datatype EventDraft = EventDraft(
    id: Field<int>,
    title: Field<string>,
    description: Field<string>,
    startDate: Field<DateInput>,
    endDate: Field<DateInput>,
    imageUrl: Field<string>,
    venueId: Field<int>,
    categoryId: Field<int>,
    organizerId: Field<int>,
    capacity: Field<int>,
    isFeatured: Field<bool>)

  /** The `InsertEvent` type: what `insertEventSchema` lets through. */
  datatype InsertEvent = InsertEvent(
    id: Option<int>,
    title: string,
    description: string,
    startDate: DateInput,
    endDate: DateInput,
    imageUrl: string,
    venueId: int,
    categoryId: int,
    organizerId: int,
    capacity: int,
    isFeatured: Option<bool>)

  /** An event body passes `insertEventSchema`. */
  predicate EventDraftValid(d: EventDraft) {
    && Defaulted(d.id)
    && Required(d.title) && Required(d.description)
    && Required(d.startDate) && Required(d.endDate)
    && Required(d.imageUrl)
    && Required(d.venueId) && Required(d.categoryId) && Required(d.organizerId)
    && Required(d.capacity)
    && Nullable(d.isFeatured)
  }

  /** `insertEventSchema.safeParse`: the parsed data, or None on failure. */
  function ParseInsertEvent(d: EventDraft): (r: Option<InsertEvent>)
    ensures r.Some? <==> EventDraftValid(d)
    ensures r.Some? ==> EventDraftOf(r.value) == d.(isFeatured := if d.isFeatured.Null? then Missing else d.isFeatured)
  {
    if EventDraftValid(d) then
      Some(InsertEvent(ValueOf(d.id), d.title.value, d.description.value, d.startDate.value,
                       d.endDate.value, d.imageUrl.value, d.venueId.value, d.categoryId.value,
                       d.organizerId.value, d.capacity.value, ValueOf(d.isFeatured)))
    else
      None
  }

  /** The request body a client sends for an insert event; absent options are left out. */
  function EventDraftOf(e: InsertEvent): EventDraft {
    EventDraft(if e.id.Some? then Given(e.id.value) else Missing,
               Given(e.title), Given(e.description), Given(e.startDate), Given(e.endDate),
               Given(e.imageUrl), Given(e.venueId), Given(e.categoryId), Given(e.organizerId),
               Given(e.capacity),
               if e.isFeatured.Some? then Given(e.isFeatured.value) else Missing)
  }

  /** Every insert event survives being sent as a body and parsed back. */
  lemma ParseEventDraftOf(e: InsertEvent)
    ensures ParseInsertEvent(EventDraftOf(e)) == Some(e)
  {
  }

  /**
   * The body of a POST /api/events/:id/reviews request, after the path
   * values are merged in. For `createdAt`, `Given` stands for a `Date`
   * value, which JSON cannot carry; the timestamp column's validator does
   * not turn text into a date, so JSON text there is `Malformed`.
   */
  datatype ReviewDraft = ReviewDraft(
    id: Field<int>,
    eventId: Field<int>,
    userId: Field<int>,
    rating: Field<int>,
    comment: Field<string>,
    createdAt: Field<Timestamp>)

  /** What `insertReviewSchema` lets through. */
  datatype InsertReview = InsertReview(
    id: Option<int>, eventId: int, userId: int, rating: int, comment: Option<string>, createdAt: Option<Timestamp>)

  predicate ReviewDraftValid(d: ReviewDraft) {
    && Defaulted(d.id)
    && Required(d.eventId) && Required(d.userId) && Required(d.rating)
    && Nullable(d.comment) && Nullable(d.createdAt)
  }

  /** `insertReviewSchema.safeParse`. */
  function ParseInsertReview(d: ReviewDraft): (r: Option<InsertReview>)
    ensures r.Some? <==> ReviewDraftValid(d)
    ensures r.Some? ==> ReviewDraftOf(r.value) == d.(comment := if d.comment.Null? then Missing else d.comment,
                                                   createdAt := if d.createdAt.Null? then Missing else d.createdAt)
  {
    if ReviewDraftValid(d) then
      Some(InsertReview(ValueOf(d.id), d.eventId.value, d.userId.value, d.rating.value,
                        ValueOf(d.comment), ValueOf(d.createdAt)))
    else
      None
  }

  function ReviewDraftOf(r: InsertReview): ReviewDraft {
    ReviewDraft(if r.id.Some? then Given(r.id.value) else Missing,
                Given(r.eventId), Given(r.userId), Given(r.rating),
                if r.comment.Some? then Given(r.comment.value) else Missing,
                if r.createdAt.Some? then Given(r.createdAt.value) else Missing)
  }

  lemma ParseReviewDraftOf(r: InsertReview)
    ensures ParseInsertReview(ReviewDraftOf(r)) == Some(r)
  {
  }
}

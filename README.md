# Campus events: a verified model of the in-memory store and its HTTP API

This project models the server core of a small campus-events application:

- `MemStorage` (server/storage.ts). It is an in-memory store with five integer-keyed tables: events, venues, categories, registrations and reviews. Each table has its own auto-increment counter and a fixed seed set. Create operations hand out the next id and insert in place. Read operations look up one row by id, or list or filter the rows in insertion order.
- The record shapes and insert validation of shared/schema.ts.
- The request handlers of server/routes.ts, together with the order in which they are registered.
- The avatar-initials function `getUserInitials` of the navigation bar.

Files:

- `wrappers.dfy`: `Option`.
- `schema.dfy` (module `Schema`): the row datatypes and the table predicates.
  - The two declared uniqueness constraints.
  - The request body as the validator sees it. Each field is `Missing`, `Null`, `Given` or `Malformed`. `ParseInsertEvent` and `ParseInsertReview` model the column rules: a `notNull()` column without a default must be given, a serial key may be omitted, and a column without `notNull()` may be omitted or null.
- `tables.dfy` (module `Tables`): a JavaScript `Map<number, T>`. It is a `map<int, T>` of rows plus the keys in insertion order, because `Map.prototype.values()` iterates in that order. The module also has the primary-key condition `Keyed` (every row under its own id), `Map.set`, `Array.from(map.values())`, `Array.prototype.filter`, and the `forEach` loop that stores the seed data.
- `storage.dfy` (module `Storage`): `class MemStorage`.
  - It has one map field and one key-order field per table, and the counters `currentIds`.
  - `Valid()` is the class invariant. Every key holds the row with that id, every key is below its table's counter, and the key order lists exactly the keys, oldest first.
  - Reads are functions over the fields. Creates are methods with `modifies` frames naming the table and the counters.
- `routes.dfy` (module `Routes`):
  - the route table in registration order;
  - the first-match router;
  - the GET handlers as functions over a `MemStorage`;
  - the POST handlers as methods that call the store's create methods.
- `initials.dfy` (module `Initials`): `getUserInitials`, built from models of `split`, `map(n => n[0])`, `join`, `toUpperCase` and `substring`. It is proved equal to an independent one-pass scanner, `WordStarts`.

Parameters and modelling decisions:

- Two values that come from outside the code are parameters of the methods that use them. `nanoid(10)` becomes `ticketCode`, a 10-character string. `new Date()` becomes `now`.
- Path parameters reach the handlers as integers that are already parsed.
- `createEvent` stores the validated body as it is and does not convert the dates, so `startDate` and `endDate` stay a string or a date (`DateInput`).
- Routing follows Express's defaults, which the code does not change: fixed words match with ASCII case ignored, a parameter matches any non-empty segment, and one trailing `/` is allowed.

## Model

| member | source | states |
|---|---|---|
| Schema.IsFeatured | server/storage.ts:111 | The `filter(e => e.isFeatured)` truthiness test: an event is featured only when `isFeatured` is `true`, not when it is `false`, absent or null. |
| Schema.EventDraftValid | shared/schema.ts:19-31 | The column rules of `insertEventSchema`: `id` optional, every `notNull()` column without a default required, `isFeatured` optional and nullable. |
| Schema.ReviewDraftValid | shared/schema.ts:41-48 | The column rules of `insertReviewSchema`: `id` optional, `eventId`, `userId` and `rating` required, `comment` and `createdAt` optional and nullable. |
| Schema.SlugsUnique | shared/schema.ts:8 | `slug` is `unique()`: no two categories in the table share a slug. |
| Schema.TicketCodesUnique | shared/schema.ts:37 | `ticketCode` is `unique()`: no two registrations in the table share a ticket code. |
| Schema.ParseInsertEvent | shared/schema.ts:19-31 | The event body is accepted exactly when every column but `id` and `isFeatured` is given, `id` is absent or an integer, and `isFeatured` is absent, null or a boolean. The parsed value carries exactly the given fields, with an explicit null dropped. |
| Schema.ParseEventDraftOf | shared/schema.ts:51-54 | Every insert event, with `startDate`/`endDate` each either a string or a date, is accepted back unchanged when sent as a body. |
| Schema.ParseInsertReview | shared/schema.ts:41-48 | The review body is accepted exactly when `eventId`, `userId` and an integer `rating` are given, `id` is absent or an integer, and `comment` and `createdAt` are absent, null or of their type. |
| Schema.ParseReviewDraftOf | shared/schema.ts:57 | Every insert review survives being sent as a body and parsed back. |
| Schema.TicketCodesUniqueAfterInsert | shared/schema.ts:37 | After adding a registration under a new key, ticket codes are unique exactly when they were unique before and the new code is not already taken. |
| Tables.Keyed | shared/schema.ts:5-49 | Every table's `serial("id").primaryKey()`, as the store keeps it: each row sits under its own id. |
| Tables.Counted | server/storage.ts:48-90 | `id: this.currentIds.x++` across a seed array: the items' ids are the counter's value and its successors, in turn. |
| Tables.OrderAfterSet | server/storage.ts:106 | `Map.set` appends a new key to the iteration order and leaves the order alone for a key already present. |
| Tables.Listing | server/storage.ts:96 | `Array.from(map.values())` has one element per key in iteration order, each the row stored under that key. |
| Tables.InsertNext | server/storage.ts:104-106 | Storing a row under the counter's value hits a key that is not yet present, appends it to the order, and leaves the table consistent with the incremented counter. |
| Tables.ListingAfterInsert | server/storage.ts:104-106 | Storing a row under a new key appends exactly that row to the listing. |
| Tables.ListingIncreasing | server/storage.ts:96 | The listing of a consistent, keyed table is strictly increasing in id. |
| Tables.Select | server/storage.ts:111 | `filter` keeps only elements of the input that satisfy the predicate, and never yields more than the input. |
| Tables.SelectKeepsMatches | server/storage.ts:111 | `filter` drops nothing that satisfies the predicate. |
| Tables.SelectKeepsOrder | server/storage.ts:148 | `filter` preserves the order: an input increasing in a key gives an output increasing in that key. |
| Tables.SelectSnoc | server/storage.ts:111 | Filtering a sequence with one more element at the end gives the old result, followed by that element exactly when it satisfies the predicate. |
| Tables.SetAll | server/storage.ts:64 | `forEach(x => map.set(x.id, x))` as a function: each item is set in turn, under its id. |
| Tables.SetEach | server/storage.ts:64 | The `forEach(x => map.set(x.id, x))` loop computes `SetAll`: each item is set in turn. |
| Tables.SetAllKeys | server/storage.ts:48-64 | Setting items with ids `next, next+1, …` adds exactly the keys of that range. |
| Tables.SetAllOrder | server/storage.ts:48-64 | Setting such items appends their ids, in item order, to the key order. |
| Tables.SetAllValues | server/storage.ts:48-64 | Setting such items stores each under its id and leaves every row already present unchanged. |
| Tables.CountedConsistent | server/storage.ts:48-64 | A table extended this way is again consistent, with the counter advanced past the items. |
| Tables.ListingAppend | server/storage.ts:64 | When the old rows are kept and the items' ids are appended to the order, the listing is the old listing followed by the items. |
| Tables.SetAllKeyed | server/storage.ts:64 | When the old rows are each under their own id, then after setting such items every row still is. |
| Tables.SetAllCountedRows | server/storage.ts:64 | Summary of the `forEach` over counted items: the table stays consistent with the advanced counter, stays keyed, and its listing gains exactly the items. |
| Storage.WithId | server/storage.ts:105 | `{ ...event, id }`: the stored event has the assigned id and otherwise exactly the validated fields, whatever id the input carried. Read back as insert data, it is the input with its id replaced. |
| Storage.ReviewWithId | server/storage.ts:153 | `{ ...review, id, createdAt: new Date() }`: the assigned id and the current time replace any id or timestamp in the input. Its event, user, rating and comment are the input's. |
| Storage.ForEvent | server/storage.ts:148 | The filter `r => r.eventId === eventId`. |
| Storage.SeedVenues | server/storage.ts:48-63 | The two seed venues, with ids 1 and 2. |
| Storage.SeedCategories | server/storage.ts:67-72 | The four seed categories, with ids 1 to 4. |
| Storage.SeedEvents | server/storage.ts:76-90 | The one seed event, id 1, featured. |
| Storage.MemStorage.Valid | server/storage.ts:27-39 | The store's invariant: each of the five Maps holds each row under its own id and only keys from 1 to below that table's `currentIds` counter, and its iteration order lists exactly those keys in increasing order. |
| Storage.SeedSlugsUnique | shared/schema.ts:8 | A table that lists exactly the seed categories satisfies the schema's unique-slug constraint. |
| Storage.MemStorage.constructor | server/storage.ts:33-44 | A new store is valid. Its counters stand at events 2, venues 3, categories 5, registrations 1, reviews 1. It lists exactly the two seed venues, the four seed categories (slugs unique) and the one seed event, which is also the only featured event. No registrations or reviews exist. |
| Storage.MemStorage.InitializeData | server/storage.ts:46-92 | Starting from empty venue, category and event tables with counters at 1, stores the venues, then the categories, then the events. Every table ends valid and lists exactly its seed rows. Registrations and reviews are untouched. |
| Storage.MemStorage.AddVenues | server/storage.ts:47-64 | Gives the two seed venues ids 1 and 2 by post-increment and stores them. The venue counter ends at 3, and the table is consistent, keyed and lists exactly the seed venues. |
| Storage.MemStorage.AddCategories | server/storage.ts:66-73 | The same for the four categories: ids 1 to 4, counter at 5. |
| Storage.MemStorage.AddEvents | server/storage.ts:75-91 | The same for the one featured event: id 1, counter at 2. |
| Storage.MemStorage.GetEvents | server/storage.ts:95-97 | Contains an event exactly when it is stored under its own id. Ids are strictly increasing, which is insertion order. |
| Storage.MemStorage.GetEvent | server/storage.ts:99-101 | Some event exactly when an event with that id is listed. That event has the asked-for id, is listed, and has an id below the counter. |
| Storage.MemStorage.CreateEvent | server/storage.ts:103-108 | The new event is the input with id equal to the old events counter, and that id was not in use. The counter rises by one. The event is stored under its id and appended to the order. No other table changes. `getEvent` of the id returns it, and `getEvents` is the old listing plus the event. |
| Storage.MemStorage.FeaturedAfterAppend | server/storage.ts:110-112 | When the events listing gains one event, the featured listing gains that event exactly when it is featured. |
| Storage.MemStorage.GetFeaturedEvents | server/storage.ts:110-112 | Contains exactly the listed events whose `isFeatured` is true (absent or null is not featured), in increasing id order. |
| Storage.MemStorage.GetVenues | server/storage.ts:115-117 | Contains a venue exactly when it is stored under its own id, in increasing id order. |
| Storage.MemStorage.GetVenue | server/storage.ts:119-121 | Some venue exactly when a venue with that id is listed, and it has that id. |
| Storage.MemStorage.GetCategories | server/storage.ts:124-126 | Contains a category exactly when it is stored under its own id, in increasing id order. |
| Storage.MemStorage.CreateRegistration | server/storage.ts:129-140 | Accepts any event and user id without a check. Stores them unchanged, together with the given 10-character ticket code and `registeredAt` = now, under the old registrations counter. That id was not in use, the counter rises by one, and no other table changes. |
| Storage.MemStorage.GetRegistration | server/storage.ts:142-144 | Some registration exactly when the id is stored, and then the stored row. It has that id, below the counter. |
| Storage.MemStorage.GetEventReviews | server/storage.ts:147-149 | Contains exactly the stored reviews whose `eventId` is the given one, in increasing id order. |
| Storage.MemStorage.CreateReview | server/storage.ts:151-156 | Stores the input with the old reviews counter as id and `createdAt` = now. That id was not in use, the counter rises by one, and no other table changes. For every event id, `getEventReviews` is unchanged except that the review's own event gains the review at the end. |
| Storage.MemStorage.EventReviewsAfterAppend | server/storage.ts:147-149 | When the reviews listing gains one review, exactly the reviews of that review's event gain it, at the end. |
| Routes.RouteTable | server/routes.ts:8-61 | The nine routes with their verbs and patterns, in registration order. |
| Routes.PatternMatches | server/routes.ts:8-61 | Express's default matching: segment by segment, fixed words with case ignored, parameters as any non-empty segment without `/`, one trailing `/` allowed. |
| Routes.FirstMatch | server/routes.ts:6-71 | Returns the first route at or after the start position that matches the verb and path, or none when no later route matches. |
| Routes.Resolve | server/routes.ts:6-71 | A request is served exactly when some registered route matches. It is then served by a matching route that no earlier route precedes. |
| Routes.CaseIgnored | server/routes.ts:8-61 | Two paths that differ only in the case of ASCII letters are served by the same handler. |
| Routes.TrailingSlash | server/routes.ts:8-61 | A path of non-empty segments with one trailing `/` is served by the same handler as without it. |
| Routes.FeaturedShadowsId | server/routes.ts:13-18 | `GET /api/events/featured`, in any letter case, also matches the `:id` route, but the featured route, registered first, serves it. |
| Routes.SegmentIsEventId | server/routes.ts:18 | Every other non-empty segment after `/api/events/` (without `/`, and not `featured` in any case) goes to the event-by-id handler. |
| Routes.RegisterRouteServes | server/routes.ts:48 | `POST /api/events/<any>/register` goes to the registration handler. |
| Routes.ReviewRoutesServe | server/routes.ts:56-61 | `GET` and `POST` on `/api/events/<any>/reviews` go to the list and create review handlers. |
| Routes.CapitalisedFeatured | server/routes.ts:13 | `GET /api/events/Featured` goes to the featured listing. |
| Routes.EventsWithTrailingSlash | server/routes.ts:8 | `GET /api/events/` goes to the listing of all events. |
| Routes.GetEventsRoute | server/routes.ts:8-11 | 200 with exactly the stored events, in insertion (increasing id) order. |
| Routes.GetFeaturedRoute | server/routes.ts:13-16 | 200 with exactly the stored featured events, in insertion (increasing id) order. |
| Routes.GetEventRoute | server/routes.ts:18-24 | 404 with "Event not found" exactly when no event has the id. Otherwise 200 with the listed event of that id. |
| Routes.PostEventRoute | server/routes.ts:26-33 | 400 exactly when validation fails, and then "Invalid event data" and an unchanged store. Otherwise 201 with `createEvent` of the parsed body under the old events counter. The counter rises by one, the event is stored under its id and appended to the listing, and no other table or counter changes. |
| Routes.UnsetFeaturedIsNotFeatured | shared/schema.ts:30 | An event posted with `isFeatured` absent or null is stored without it and is not featured, because the column default is not applied. |
| Routes.GetVenuesRoute | server/routes.ts:36-39 | 200 with exactly the stored venues, in insertion (increasing id) order. |
| Routes.GetCategoriesRoute | server/routes.ts:42-45 | 200 with exactly the stored categories, in insertion (increasing id) order. |
| Routes.PostRegisterRoute | server/routes.ts:48-53 | Always 201. Registers user 1 for the path id under the old registrations counter, whether or not the event exists. The counter rises by one, `getRegistration` of the id returns the row, and no other table or counter changes. |
| Routes.WithPathValues | server/routes.ts:62-66 | The merged body has `eventId` = the path id and `userId` = 1. Every other field is the body's own. |
| Routes.PathValuesOverrideBody | server/routes.ts:62-67 | Validity of the merged review depends only on the body's own `id`, `rating`, `comment` and `createdAt`, never on the `eventId`/`userId` it sent. A valid one parses to the path id and user 1. |
| Routes.GetReviewsRoute | server/routes.ts:56-59 | 200 with exactly the stored reviews of the path id, in insertion order. |
| Routes.PostReviewRoute | server/routes.ts:61-71 | 400 with "Invalid review data" and an unchanged store exactly when the body's own fields fail validation. Otherwise 201 with the stored review: the parsed merged body for the path id by user 1, with the body's rating and comment, the old reviews counter as id and `createdAt` = now. The counter rises by one, the review is appended to that event's reviews, and no other table or counter changes. |
| Initials.Split | client/src/components/layout/navbar.tsx:29 | `split(" ")` yields at least one piece, and no piece contains the separator. |
| Initials.Join | client/src/components/layout/navbar.tsx:31 | `parts.join(sep)`: the parts with the separator between neighbours. |
| Initials.JoinSplit | client/src/components/layout/navbar.tsx:29 | Joining the pieces with the separator gives the original string back. |
| Initials.Head | client/src/components/layout/navbar.tsx:30 | `n[0]` joins as the first character, or as "" for an empty piece. |
| Initials.Heads | client/src/components/layout/navbar.tsx:30 | `map(n => n[0])` keeps the length and takes each piece's head. |
| Initials.Upper | client/src/components/layout/navbar.tsx:32 | Lower-case ASCII letters move down by 32, and other characters are unchanged. The result is never lower case. |
| Initials.UpperCase | client/src/components/layout/navbar.tsx:32 | Keeps the length and upper-cases each character. |
| Initials.Prefix | client/src/components/layout/navbar.tsx:33 | `substring(0, n)` is the first `min(n, length)` characters. |
| Initials.GetUserInitials | client/src/components/layout/navbar.tsx:26-34 | "U" for a missing or empty name. Otherwise at most two characters, none lower case, and equal to the first two word starts of the name, upper-cased. |
| Initials.WordStarts | client/src/components/layout/navbar.tsx:28-31 | The reference scanner: no longer than the input and never a space. |
| Initials.HeadsOfSplit | client/src/components/layout/navbar.tsx:28-31 | `split(" ").map(n => n[0]).join("")` equals the scanner's word starts. |
| Initials.BlankNameInitials | client/src/components/layout/navbar.tsx:27-33 | A non-empty name made only of spaces gives "", not "U". |
| Initials.FirstInitial | client/src/components/layout/navbar.tsx:28-33 | A name not starting with a space has initials that start with its first character, upper-cased. |
| Initials.FirstTwoWords | client/src/components/layout/navbar.tsx:28-33 | For any name made of two words, a space, and anything after, the initials are the two words' first letters, upper-cased. So a third word is dropped. |
| Initials.DoubleSpace | client/src/components/layout/navbar.tsx:29-31 | The empty piece between two spaces contributes nothing: two words with two spaces between them give both first letters. |
| Initials.ThreeWords | client/src/components/layout/navbar.tsx:28-33 | "ada lovelace king" gives "AL". |
| Initials.RepeatedSpaces | client/src/components/layout/navbar.tsx:29-31 | "a  b" gives "AB". |

## Left out

- Promises and `async`: the store's methods run to completion one after another, so they are modelled as plain sequential methods.
- Express plumbing:
  - `createServer`;
  - `res.json` serialisation (a `Date` becomes an ISO string);
  - `Number(req.params.id)`: ids reach the handlers as integers, so non-numeric path segments and `NaN` lookups are not modelled.
- The router is not wired to the handlers. `Resolve` stops at naming the endpoint.
- Validation by zod and drizzle-zod is modelled at the level of the column rules only.
  - Type checks become `Malformed` fields.
  - Unknown body keys, which zod strips, do not appear in the drafts.
  - Zod's own messages are not returned.
- `undefined` and `null` in stored rows are both `None`.
- Storage.MemStorage.CreateRegistration: the ticket code and the clock are parameters (`nanoid(10)` and `new Date()`). No claim is made that ticket codes are unique, because nothing checks it. `Schema.TicketCodesUniqueAfterInsert` states what a taken code would break.
- Initials.Upper: `toUpperCase` is modelled for the ASCII letters only. Characters outside ASCII, including those whose upper case is longer, such as `ß`, are left unchanged.
- Schema.ParseInsertEvent, Schema.ParseInsertReview: numeric body fields are integers. A JSON number with a fraction, such as a rating of 4.5, has no representation, so whether the validator accepts it (plain `z.number()`) or rejects it (an integer check, possibly with 32-bit bounds, depending on the drizzle-zod version) is not modelled.
- Initials.Head: a Dafny `char` is a whole Unicode scalar value, while `n[0]` and `substring` count UTF-16 code units. For a name starting with a character outside the Basic Multilingual Plane, such as an emoji, the source takes half of a surrogate pair and the model takes the whole character.
- HEAD requests, which Express answers with the GET routes, and percent-encoded path segments, which are matched before decoding, are not modelled.
- Integers are unbounded. JavaScript numbers lose precision above 2^53, which the counters never reach in practice.
- Event update, delete and cascade, category filtering, and users, sessions and roles do not exist in the store or the routes, so they are not modelled.
- The student and coordinator pages, the calendar's local-time date matching, and the client/server `coordinatorId`/`organizerId` mismatch are client code. They are not part of this model.

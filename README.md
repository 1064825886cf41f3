# Hotel booking store — a verified model

The server keeps every hotel booking in one in-memory array, `allBookings`, loaded from `bookings.json` at start-up (`bookings` names the same array). Four request handlers work on that array:

- **term search**, `GET /bookings/search?term=…`: keeps the bookings whose first name, surname or email, upper-cased, contains the upper-cased term;
- **lookup**, `GET /bookings/:id`: the first booking with the id, or a 400 not-found answer;
- **admission**, `POST /bookings`: if all seven fields are truthy, sets `id = length + 1` on the body and appends it; otherwise a 400 "All fields are required!";
- **deletion**, `DELETE /bookings/:id`: finds the first booking with the id and splices it out, or gives a 404 not-found answer.

The model has four modules:

- `Text` (`text.dfy`): ASCII upper-casing and `includes`, proved equal to a reference substring relation.
- `Bookings` (`bookings.dfy`): JSON values with JavaScript truthiness, the booking record, the request body, the failures with their HTTP status, and a `Reply` that may also be "no reply at all".
- `Query` (`query.dfy`): the read-only handlers as functions of the array's contents. Search is a `filter`, lookup is a `find`, and there is the `indexOf` used by deletion.
- `Store` (`store.dfy`): the class `BookingStore`. It holds the array as a `seq` field, and `Admit` and `Delete` reassign it. Next to it are the lemmas about ids and two client scenarios.

Name fields are JSON values, not strings, because the server stores whatever the request body held. A booking admitted with a non-string `firstName` (say `42`) makes `toUpperCase` throw when a later search reaches it. The model gives such a search a 500 failure (`NotText`), which is the answer of Express's default error handler.

New ids are `length + 1`. `AdmissionKeepsIdsUnique` proves that an admission keeps ids unique when the stored ids are unique and none exceeds the store's length; nothing about `bookings.json` guarantees that for the loaded bookings. `DeleteThenAdmitReusesId` and `IdReuseScenario` show that, on a store whose ids are 1..n in order, deleting any booking but the last and then admitting gives two stored bookings the same id.

## Model

| member | source | states |
|---|---|---|
| `Text.ToUpper` | server.js:30-32 | upper-casing keeps the length, leaves no lower-case ASCII letter in the result, and keeps every character that is not one |
| `Text.ToUpperIdempotent` | server.js:30-32 | upper-casing an already upper-cased string changes nothing |
| `Text.Includes` | server.js:30-32 | `includes`, a left-to-right scan of offsets, holds exactly when the needle occurs at some offset of the haystack, in both directions |
| `Text.UpperKeepsSubstring` | server.js:30-32 | a substring is still a substring after both sides are upper-cased |
| `Query.FieldIncludes` | server.js:30-32 | one `field.toUpperCase().includes(TERM)` call throws exactly when the field is not a string; otherwise it is true exactly when the term occurs in the upper-cased field |
| `Query.MatchesTerm` | server.js:29-32 | whenever the filter callback does not throw, its answer is whether the upper-cased term occurs in the upper-cased first name, surname or email, even when a field it never reaches is not a string; it never throws when all three fields are strings |
| `Query.Matching` | server.js:28-33 | the filter fails exactly when the callback throws on some stored booking; otherwise its result is a subsequence of the store in store order, every element matches, and each matching booking appears exactly as many times as it is stored |
| `Query.Search` | server.js:22-36 | an absent or empty term gets no reply at all; a failure is the 500 `NotText` and occurs only if some booking has a non-string name field; a success is a subsequence of the store, and every booking in it is stored and mentions the term |
| `Query.SearchExact` | server.js:28-33 | a non-empty term succeeds whenever every name field is a string; any successful search, on any store, returns the bookings that mention the term in store order, each exactly as many times as it is stored, and no others |
| `Query.SearchIgnoresCase` | server.js:30-32 | two terms with the same upper-case form give the same search answer |
| `Query.SearchFindsCaseVariant` | server.js:28-33 | on a store whose first names, surnames and emails are all strings, any case variant of a non-empty substring of a stored booking's first name, surname or email finds that booking |
| `Query.Find` | server.js:40 | `find` returns a stored booking with the id, and returns nothing exactly when no booking has that id |
| `Query.FindReturnsFirst` | server.js:40 | `find` returns the first booking with the id |
| `Query.IndexOf` | server.js:73 | `indexOf` gives the first position that holds the value, and nothing exactly when the value is absent |
| `Query.IndexOfFirstWithId` | server.js:70-73 | `indexOf` of the booking that `find` returned is the position of the first booking with the id |
| `Query.Lookup` | server.js:38-44 | lookup answers with a stored booking carrying the id, or with `LookupNotFound(id)` (status 400) exactly when no booking has the id |
| `Query.LookupReturnsFirst` | server.js:40-42 | lookup answers with the first booking that has the id |
| `Bookings.Truthy` | server.js:51-58 | a field passes the check exactly when it is not one of the falsy values `undefined`, `null`, `false`, `0` or `""` |
| `Store.AllFieldsPresent` | server.js:51-59 | the admission check holds exactly when none of the seven required fields is `undefined`, `null`, `false`, `0` or `""` |
| `Store.NewBooking` | server.js:60 | the stored booking carries the assigned id and gives back exactly the seven fields of the request |
| `Bookings.Failure.Status` | server.js:43-76 | status 404 only for a delete of a missing id, 500 only for a thrown `toUpperCase`, and 400 for a missing field or a lookup of a missing id |
| `Store.RemoveAt` | server.js:73 | `splice(i, 1)` shortens the array by one, keeps the elements before `i` and shifts the later ones down by one |
| `Store.RemoveAtKeepsOrder` | server.js:73 | the remaining bookings keep their relative order |
| `Store.BookingStore.constructor` | server.js:11 | the store starts with the loaded bookings |
| `Store.BookingStore.Admit` | server.js:49-66 | with all seven fields truthy: success, and the store grows by exactly one, with the new booking last, the id old length + 1, and all earlier bookings unchanged; otherwise `AllFieldsRequired` (status 400) and the store is unchanged |
| `Store.BookingStore.Delete` | server.js:68-78 | if some booking has the id: success, and the store loses exactly the first booking with that id while the rest keep their order; otherwise `DeleteNotFound(id)` (status 404) and the store is unchanged |
| `Store.AdmissionKeepsIdsUnique` | server.js:60-61 | on a store whose ids are unique and at most its length, an admission keeps both properties |
| `Store.DeleteThenAdmitReusesId` | server.js:60-73 | on a store with ids 1..n, delete a booking other than the last and then admit: the new id equals the id of the last stored booking, so ids are no longer unique |
| `Store.DeleteThenLookupFails` | server.js:40-73 | with unique ids, after deleting the first booking with an id, a lookup of that id is not found |
| `Store.IdReuseScenario` | server.js:60-73 | on an empty store: admit twice, delete id 1, admit again; the new booking gets id 2, the same as the booking that remains |
| `Store.AdmitDeleteLookupScenario` | server.js:38-78 | on an empty store: the first admission gets id 1, deleting id 1 succeeds, and a later lookup of id 1 gives `LookupNotFound(1)` |

## Left out

- HTTP plumbing is not modelled: Express setup, CORS, JSON body parsing, routing, the banner route, `listen` and the port, and console logging. Replies keep only their kind and status code. The response texts ("Booked successfully!", "Booking #id deleted!", "All fields are required!", "Booking with ID: … was not found") are not modelled.
- `GET /bookings` has no member. It answers with the whole array, which is the store's `bookings` field.
- Loading `bookings.json` is file I/O. The constructor takes the initial bookings as a parameter.
- Upper-casing covers ASCII letters only. Unicode case mapping, including mappings that change the length (such as `ß` becoming `SS`), is not modelled.
- Ids are integers, and the path parameter arrives already parsed. JavaScript's loose `==` between a numeric id and a string parameter (so `"01"` or `" 1"` matching 1) is not modelled.
- The search term is either absent or a string. A repeated or nested query parameter (an array or object term, whose `toUpperCase` would throw) is not modelled.
- JSON numbers are integers. Fractions and `NaN` are not modelled, nor are objects or arrays as field values. Extra body fields, and a client-sent `id` (the server overwrites it anyway), are not kept on the booking.
- Searching by date exists only as a comment in `server.js`. Email syntax checks, check-in/check-out order checks and the relational customer/hotel variant are not part of this model.
- `Query.IndexOf` compares bookings as values, where JavaScript's `indexOf` compares objects by identity (`===`). Two stored bookings with equal fields would be the same to the model and distinct to the server. At the one place the server calls `indexOf`, on the object `find` returned, both give the position of the first booking with the id (`Query.IndexOfFirstWithId`).
- Handlers run one at a time. Interleaved admissions and deletions are not modelled.

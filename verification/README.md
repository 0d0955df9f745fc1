# helpLInk-server: a verified model of its handler logic

helpLInk-server is an Express/MongoDB backend for a charity web application.
Most of its handlers are a single store call. This project models the parts
of `index.js` that compute something, and proves what they promise:

- **Dashboard aggregation** (`GET /api/v1/admin/donation`) — `dashboard.dfy`.
  One pass over the donations the store returns. It accumulates
  `totalDonation` and recomputes `totalAverage = Math.ceil(totalDonation / totalDoc)`
  at every step. It also credits each donation to a per-category table, which
  is a JavaScript object mutated in place. That table is then flattened into
  `[{title, value}]` in key order. Last comes the fixed four-entry
  `additionalData` list. `Dashboard.Summarize` is the loop itself, proved
  against reference definitions: `Total`, `CategorySum` (the sum over the
  donations of one category), `Categories` (the distinct categories in
  first-seen order) and `ReportedAverage`. Lemmas then prove what those
  definitions promise.
- **Comment append** (`PUT /api/v1/community/:id`) — `community.dfy`. The
  community collection is a class holding a map from post id to post. A missing
  post is reported and nothing is written. An existing post gets `comments`
  set to its old array followed by the new comment. A field that is absent
  or holds something other than an array counts as no comments. The reply
  echoes the post as it was before the write.
- **Listing with an optional limit** (`GET /api/v1/all-donation`,
  `GET /api/v1/testimonials`) — `listing.dfy`. The store's sorted documents
  are capped by `Number(req.query.limit)`.
- **Registration and login** (`POST /api/v1/register`, `POST /api/v1/login`) —
  `identity.dfy`. The user collection is a class holding a map keyed by email.
  Registering an email that is already present returns 400 and inserts
  nothing. Both login failures give the identical 401 reply.

`common.dfy` holds the `Option` type used for JSON fields that may be absent.

Outside inputs become parameters:
- the store's query results (`result`, the sorted listings);
- the collection counts (`totalDoc`, `users`);
- the bcrypt hash of a new password (`hashed`);
- `bcrypt.compare` (a function parameter `verify`).

A token is modelled by its payload `{email}`.

Where the code behaves differently from what a reader might expect, the
model follows the code:
- The comment handler's own comment says it returns the updated document
  (index.js:386). The code actually sends `data: post`, the snapshot read
  before `updateOne`. The model replies with that pre-append snapshot.
- When the donation list is empty, the reported average keeps its initial
  0 whatever the count is. When the list is non-empty and `totalDoc` is 0,
  the division gives a non-finite number. That number is serialised as
  `null` and modelled as `NonFinite`.
- A negative `limit` is not "no limit": the code passes it to the driver's
  `limit`. The driver returns at most its absolute value, in a single batch.

## Model

| member | source | states |
|---|---|---|
| `Dashboard.Summarize` | index.js:147-188 | Running the loop over `result` reports, in `additionalData`, the user count, `totalDoc`, the sum of every amount and the average as it stands after the last step. `categoryTotals` is one `{title, value}` per category, in first-seen order. `data` is `result` itself. |
| `Dashboard.CreditStep` | index.js:161-166 | Crediting a donation keeps the table exact. Its category's entry is the old entry (0 for a new key) plus the amount. A new category is appended to the key order. Every other key is untouched. |
| `Dashboard.CategoryArraySumsToTotal` | index.js:157-173 | The `value`s of the emitted category array add up to `totalDonation`. |
| `Dashboard.CategoryArrayListsEachCategoryOnce` | index.js:161-173 | No title appears twice in the category array. A title appears exactly when some donation has that category. Each value is the sum of that category's amounts. |
| `Dashboard.CategoryTableHasNoEmptyCategory` | index.js:161-166 | The table has an entry for a category exactly when some donation carries it, and the entry is that category's sum. |
| `Dashboard.CategoriesDistinct` | index.js:161-167 | A category enters the key order only once. |
| `Dashboard.CategoriesAreThoseThatOccur` | index.js:161-167 | The key order lists a category exactly when some donation has it. |
| `Dashboard.Average` | index.js:159 | `Math.ceil(totalDonation / totalDoc)`: non-finite exactly when `totalDoc` is 0, otherwise the least integer `q` with `q * totalDoc >= totalDonation`. |
| `Dashboard.ReportedAverageIsCeiling` | index.js:148-159 | The reported average is 0 for an empty list and non-finite when `totalDoc` is 0. Otherwise it is the least integer `q` with `q * totalDoc >= totalDonation`. |
| `Dashboard.CeilDivIsCeiling` | index.js:159 | Integer `Math.ceil(a / b)` for positive `b` is the least `q` with `q * b >= a`, with negative totals included. |
| `Dashboard.Flatten` | index.js:170-173 | Flattening yields one `{title, value}` per key, in key order, with the table's value. |
| `Dashboard.AdditionalData` | index.js:175-180 | Exactly four entries with ids 1 to 4, in order: users, donor count, total donation, average. |
| `Dashboard.ThreeDonationExample` | index.js:157-180 | Take amounts 10 and 20 in category A and 30 in category B. They total 60, the category array is `[A: 30, B: 30]`, and the average over 3 is 20. |
| `Community.WithComment` | index.js:367-381 | The new `comments` array is one longer than the prior comments. It keeps them in order as its prefix and ends with the new comment. No other field changes. |
| `Community.PostCollection.AddComment` | index.js:350-388 | For a missing id, the reply is `success: false` and no post changes. Otherwise only that post changes, to `WithComment`. The reply is `success: true` with the post as it was before the write. |
| `Community.CommentsAfterAppend` | index.js:367-381 | For any post, the comments it has after an append are the comments it had before (its `comments` array, or none when the field is absent or not an array) followed by the new comment. |
| `Community.FirstComment` | index.js:369-373 | A post without a comment array ends up with `[comment]`. |
| `Community.TwoComments` | index.js:369-381 | Two appends leave both new comments after the earlier ones, in the order they were added. |
| `Listing.Cap` | index.js:127-136 | No cap exactly when the parameter is NaN or 0. Otherwise the cap is the positive magnitude of the number given. |
| `Listing.Select` | index.js:126-144 | The listing is a prefix of the sorted documents. It is all of them when uncapped, otherwise the smaller of the cap and the count. |
| `Listing.NewestFirst` | index.js:133-135 | Sorting by descending `_id` lists the documents in reverse insertion order. |
| `Listing.ListDonations` | index.js:126-144 | The donation listing has every donation when uncapped and otherwise the smaller of the cap and the count. Item `i` is the `i`-th most recent donation. |
| `Listing.LimitedListingIsNewest` | index.js:126-144 | A positive limit `n` returns the `min(n, count)` most recent donations, newest first. These are the first items of the unbounded listing. |
| `Listing.TopTestimonials` | index.js:259-280 | A capped listing of testimonials sorted by `donation_amount` stays sorted. No testimonial left out has a larger amount than one listed. |
| `Identity.UserCollection.Register` | index.js:36-75 | An email already present gets 400 "User already exists", and the collection is unchanged. Otherwise exactly one user is added, under its email, with the hash and not the password. The 201 reply carries a token for that email and the public profile. Emails stay unique. |
| `Identity.UserCollection.Login` | index.js:77-105 | The reply is 401 exactly when the email is unknown or `verify` rejects the password, and that reply is always the same "Invalid email or password". On success the reply is 200 "Login successful" with `success: true`, a token for the user's email and `{name, email}`. |
| `Identity.LoginFailuresIndistinguishable` | index.js:82-91 | An unknown email and a wrong password produce identical replies. |
| `Identity.LoginTokenNamesEmail` | index.js:93-103 | In a collection keyed by email, the token of a successful login names the email that logged in. |

## Left out

- HTTP routing, CORS, JSON body parsing, status-line plumbing and the `/` health route with its timestamp: framework glue with no logic.
- The MongoDB connection, `ObjectId` parsing (a malformed id throws before any lookup), `find`/`sort`/`toArray`, `estimatedDocumentCount` and write acknowledgements. These are library and I/O calls. Their results are parameters of the model.
- The store's sorting is not modelled. The dashboard and testimonial listings take the store's sorted answer as given. For donations and community posts, `_id` order is taken to be insertion order.
- Donation create, get-by-id, update (with upsert) and delete; testimonial and volunteer create; volunteer get-by-id; volunteer and community listing. Each is one store call, or a `findOne` followed by one write (donation update at index.js:211-221, delete at index.js:233-250). Nothing is computed from the data. In the update and delete handlers a missing donation is answered without returning, so the write and a second `res.json` still follow. That is a response-ordering defect, and it is not modelled.
- The listing handlers' extra unbounded query in the "no limit" branch. Its result is discarded, so it costs an I/O round trip and changes no data. The model is the intended single selection. That second query passes NaN to the driver when the parameter is missing. The model treats that as uncapped, like 0, and the driver's own handling of NaN is not modelled.
- Fractional limits (`?limit=2.5`) are not modelled: limits are integers.
- bcrypt hashing and comparison. The hash is an input, and `verify` is an arbitrary function parameter.
- Token signing, the secret and the expiry (`utils/genarateToken.js`) are foreign calls. A token is modelled by its `{email}` payload.
- `Dashboard.Summarize`: amounts are integers. `Number()` coercion of non-numeric amounts (NaN) and floating-point rounding of large sums are not modelled.
- `Dashboard.Summarize`: category keys are enumerated in first-insertion order. JavaScript lists integer-like keys ("1", "42") first, in numeric order. Keys that collide with `Object.prototype` members (`constructor`, `__proto__`) also behave differently. Neither is modelled.
- `Identity.UserCollection.Register`: the existence check and the insert happen in one step. The handler creates no unique index; it checks and then inserts, so two concurrent registrations of one email could both insert. Email and password are modelled as strings, so the following cases are not modelled. First, missing body fields (`undefined`). Second, a non-string `password` such as a JSON number: it makes `bcrypt.hash` reject at index.js:50, after the duplicate check, so nothing is inserted and no reply is sent. Third, an object-valued `email` acts as a query operator at index.js:41 (`{"$ne": null}` matches any stored user and gets the 400 reply). The duplicate check is therefore proved to be an exact match only for string emails.
- `Community.PostCollection.AddComment`: the lookup and the write happen in one step. The real `updateOne` uses `upsert: true` and could recreate a post deleted between the two.
- `Identity.UserCollection.Login`: email and password are modelled as strings and `verify` as a total predicate. At index.js:88 `bcrypt.compare` rejects a missing or non-string password, so for a known email such a request gets no 401, while an unknown email still does. An object-valued `email` at index.js:82 acts as a query operator rather than an exact match. Neither is modelled, so the indistinguishability of the two failures is proved only for string emails and passwords.

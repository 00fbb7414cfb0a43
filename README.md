# VibeCheck review aggregation, request handlers and password format

A Dafny model of the core of the VibeCheck business-review backend (Python,
FastAPI and SQLAlchemy):

- **Aggregation (`app/utils.py`).** `compute_aggregated_vibe_score`
  averages the non-null vibe scores of one business's reviews and rounds
  the mean to two places. It returns 0.0 when the business has no review
  or no scored review. `refresh_business_metrics` caches that score and the
  review count on the business record, and does nothing for an unknown id.
  `analyze_review_sentiment` is a placeholder that returns null for the
  score, the sentiment and the keywords.
- **Request handlers (`app/main.py`).** Each handler is a method over an
  in-memory `Database`, passed as a parameter: a class holding the user,
  business and review tables as sequences in insertion order, plus the
  next primary keys:
  - registration: username check, then email check, then insert with the
    hashed password;
  - login: one 401 for both failure causes;
  - listing and retrieving businesses;
  - submitting a review: business check, then user check, then insert and
    refresh;
  - listing a business's reviews.
- **Password storage (`app/auth.py`).** `hash_password` stores
  `salt + "$" + sha256(password + salt)`. `verify_password` splits on
  "$", recomputes the digest and compares.

Modules:

- `Wrappers`: Option and Result.
- `Auth`: password format. Python's `str.split` is modelled exactly.
- `Models`: the records, first-match lookups and the `Database` class with
  its validity invariant. The invariant requires unique user ids,
  usernames and emails, unique business and review ids, primary keys below
  the next key, and that every review names an existing business and user.
- `Utils`: aggregation, refresh and the sentiment placeholder.
- `Main`: the handlers.

The main results:

- The password round trip: a password verifies against its own stored
  value.
- Malformed stored values are rejected.
- `RegisterNewUser` keeps the user table free of duplicate usernames and
  emails.
- After `SubmitReview` the refreshed business's cached fields equal a
  recomputation.
- The cache invariant "every business agrees with a recomputation over the
  review table" is kept by every submission.
- A review of another business never moves a business's aggregate.
- The aggregate stays inside the range of the scores (0..100).
- Refreshing is idempotent.
- Because the analysis is a placeholder, every stored review stays
  unscored, so every agreeing cache holds 0.0.

`analyze_review_sentiment` is a placeholder for a call to an external
sentiment service (app/utils.py:71-77) and returns nulls (app/utils.py:79-83);
the model follows it.

## Model

| member | source | states |
|---|---|---|
| Auth.TokenHex | app/auth.py:144 | `token_hex` of n bytes is 2n characters, all lower-case hex digits |
| Auth.HexHasNoSeparator | app/auth.py:144 | a hex salt or digest contains no "$" |
| Auth.SplitCount | app/auth.py:167 | `split("$")` yields one more piece than there are separators |
| Auth.SplitPiecesFree | app/auth.py:167 | no piece of a split contains the separator |
| Auth.JoinSplit | app/auth.py:167 | joining the pieces with the separator gives the original string back |
| Auth.SplitWithoutSeparator | app/auth.py:167 | a string without a separator splits into itself alone |
| Auth.SplitAroundSeparator | app/auth.py:167 | `a + "$" + b` with separator-free `a`, `b` splits into exactly `[a, b]` |
| Auth.Split | app/auth.py:167 | Python's `str.split(sep)`: always at least one piece (count and contents in the lemmas above) |
| Auth.HashPassword | app/auth.py:144-151 | the stored value is the 32-character hex salt, then "$", then the digest of password followed by salt |
| Auth.VerifyPassword | app/auth.py:154-176 | `verify_password`: true only for a string holding exactly one "$" (iff with the digest check in VerifyWellFormed) |
| Auth.VerifyRejectsMalformed | app/auth.py:165-176 | a stored value that is not a string, or does not hold exactly one "$", never verifies |
| Auth.VerifyWellFormed | app/auth.py:167-174 | on `salt + "$" + digest`, verification succeeds iff the digest of plain password followed by salt equals the stored digest |
| Auth.WellFormedDecomposes | app/auth.py:167 | every stored value with exactly one "$" is its two separator-free pieces joined by "$" |
| Auth.HashVerifyRoundTrip | app/auth.py:144-174 | with hex digests, every password verifies against the value `hash_password` stored for it |
| Models.FirstIndex | app/main.py:34 | `.first()`: the index found satisfies the filter and no earlier record does; none found means no record does |
| Models.UserIndexByUsername | app/main.py:34 | finds the first user with that username; none found means no user has it |
| Models.UserIndexByEmail | app/main.py:42 | finds the first user with that email; none found means no user has it |
| Models.UserIndexById | app/main.py:128 | finds the first user with that id; none found means no user has it |
| Models.BusinessIndexById | app/main.py:100 | finds the first business with that id; none found means no business has it |
| Models.FirstIndexAppend | app/main.py:57-58 | after an append, an earlier match is still the first one; otherwise the first match in the appended part is found |
| Models.BusinessIndexByIdNone | app/main.py:100-102 | a lookup by business id finds nothing iff no business carries the id |
| Models.BusinessIndexByIdUnique | app/utils.py:42-44 | under unique ids, the business found by id is the one carrying it |
| Models.BusinessIndexByIdKeepsIds | app/utils.py:46-56 | rewriting records without changing ids leaves every lookup by id unchanged |
| Models.ReviewsOf | app/main.py:170 | the filtered reviews are exactly the table's reviews with that business id |
| Models.ReviewsOfAppend | app/utils.py:16-18 | the filter distributes over concatenation, so table order is kept |
| Models.UserIndexByIdAppend | app/main.py:128 | appending a user keeps every earlier lookup by user id where it was |
| Models.AppendUserKeepsValid | app/main.py:50-58 | appending a user with fresh username and email under the next key keeps the tables valid |
| Models.AppendReviewKeepsValid | app/main.py:139-149 | appending a review under the next key, naming an existing business and user, keeps the tables valid |
| Models.Database.constructor | app/populate_db.py:112-117 | a database with the seeded catalogue, no users and no reviews is valid |
| Models.Database.AddUser | app/main.py:57-58 | add and commit a user: exactly that user is appended, the key advances, validity is kept |
| Models.Database.AddReview | app/main.py:148-149 | add and commit a review: exactly that review is appended, the key advances, validity is kept |
| Utils.AnalyzeReviewSentiment | app/utils.py:79-83 | the placeholder analysis returns no score, no sentiment and no keywords, for every text |
| Utils.SumBounds | app/utils.py:30 | a sum of n values in [lo, hi] lies in [n·lo, n·hi] |
| Utils.MeanBounds | app/utils.py:30 | the mean lies between any lower and upper bound of the values |
| Utils.Round2 | app/utils.py:31 | `round(x, 2)` is a whole number of hundredths within 0.005 of x |
| Utils.Round2Nearest | app/utils.py:31 | no multiple of 0.01 is closer to x than `round(x, 2)` |
| Utils.Round2TiesToEven | app/utils.py:31 | a value exactly halfway between two hundredths rounds to the even one |
| Utils.Round2Bounds | app/utils.py:31 | rounding to two places stays inside an interval with whole-number ends |
| Utils.ScoresOf | app/utils.py:24 | the list of non-null scores is empty iff every review's score is null |
| Utils.ScoresOfExact | app/utils.py:24 | the kept scores are exactly the non-null scores of the reviews, one per scored review |
| Utils.ScoresOfAppend | app/utils.py:24 | collecting scores distributes over concatenation, so they come in table order |
| Utils.ScoresOfBetween | app/utils.py:24 | every kept score lies within bounds that hold for all non-null scores |
| Utils.ComputeAggregatedVibeScore | app/utils.py:16-31 | 0.0 when the business has no reviews; 0.0 when all its scores are null; otherwise within rounding of the mean of its non-null scores |
| Utils.AggregateRoundsMean | app/utils.py:24-31 | with at least one score, the aggregate is the mean of the business's non-null scores rounded to the nearest hundredth |
| Utils.ReviewCount | app/utils.py:53-55 | `.count()` of the business's reviews: at most the table size and at least the number of its scored reviews |
| Utils.ReviewCountAppend | app/utils.py:53-55 | the count of an empty table is zero and an appended review adds one exactly when it names the business, scored or not, so the count is that of all its reviews |
| Utils.ReviewCountZero | app/utils.py:53-55 | the count is zero iff no review names the business |
| Utils.AggregateBetween | app/utils.py:24-31 | with at least one score, the aggregate lies within any whole-number bounds of the scores |
| Utils.AggregateWithinVibeRange | app/utils.py:14-31 | scores on the 0..100 scale give an aggregate on that scale |
| Utils.AggregateDependsOnOwnReviews | app/utils.py:16-18 | aggregate and count depend only on the business's own reviews |
| Utils.AggregateIgnoresOtherBusinesses | app/utils.py:16-18 | a review of another business, inserted anywhere, changes neither the aggregate nor the count |
| Utils.AggregateExample | app/utils.py:16-31 | scores 80, 40, 60 and one null give aggregate 60.0 over 4 reviews |
| Utils.RefreshedBusinesses | app/utils.py:42-56 | the business table after a refresh has the same length (its effect in the next row) |
| Utils.RefreshedBusinessesEffect | app/utils.py:42-56 | refresh changes nothing for an unknown id; otherwise only the first match's two cached fields change, to the recomputed score and the count of all its reviews |
| Utils.RefreshBusinessMetrics | app/utils.py:34-58 | the in-place refresh leaves the business table as specified above and keeps the database valid |
| Utils.RefreshedTargetAgrees | app/utils.py:46-56 | under unique ids, after a refresh every business with that id agrees with a recomputation |
| Utils.RefreshIdempotent | app/utils.py:42-58 | refreshing twice with no new review is refreshing once |
| Utils.InsertThenRefreshAgrees | app/main.py:148-153 | appending a review and refreshing its business keeps every business's cache in agreement with the review table |
| Utils.AppendUnscored | app/main.py:136-146 | appending an unscored review keeps the review table unscored |
| Utils.UnscoredAggregatesZero | app/utils.py:26-27 | with all reviews unscored, every agreeing cache holds 0.0 |
| Utils.SeedAgrees | app/populate_db.py:112-117 | a catalogue seeded with 0.0 and 0 agrees with the empty review table |
| Main.NatToString | app/main.py:105 | the decimal rendering of a natural number: non-empty digits that denote it, with no leading zero |
| Main.IntToString | app/main.py:105 | `str()` of an id in the 404 details: digits denoting it with no leading zero, after a "-" for a negative id |
| Main.LoginResult | app/main.py:68-87 | every failure is the same 401; success iff the username exists and the password verifies; on success the message and that user are returned |
| Main.LoginAfterRegister | app/main.py:50-87 | a user registered under a fresh username logs in with their password |
| Main.RegisterNewUser | app/main.py:32-61 | taken username gives 400, checked first; then taken email gives 400; nothing changes on either. Otherwise exactly one user is appended with the hashed password, validity (unique usernames and emails) is kept, and that user can log in |
| Main.AuthenticateUser | app/main.py:66-87 | answers exactly `LoginResult` on the user table |
| Main.ListBusinesses | app/main.py:92-94 | the whole business table, in table order |
| Main.RetrieveBusiness | app/main.py:99-108 | 404 "not found" iff no business has the id; otherwise a business of the table with that id |
| Main.FetchBusinessReviews | app/main.py:160-171 | 404 iff no business has the id; otherwise exactly the reviews of that business, in table order |
| Main.SubmitReview | app/main.py:113-155 | missing business gives 404, checked first; then missing user gives 404; nothing changes on either. Otherwise exactly one unscored review with the given ids and content is appended, the business is refreshed, validity and cache agreement are kept, and an all-unscored review table stays all-unscored |

## Left out

- JWT handling (`create_access_token`, `decode_access_token`, `get_current_user`, app/auth.py:32-131) is not modelled: it is foreign library calls, the wall clock and environment configuration.
- SHA-256, the UTF-8 encoding and `hexdigest` are the parameter `sha256`. The only assumption about it is that digests are lower-case hex (`DigestsAreHex`), used by the round trip.
- The randomness of `secrets.token_hex(16)` is the parameter `saltBytes` (16 bytes); their hex rendering is modelled.
- Utils.Round2: models `round(x, 2)` on the exact real mean, rounding half to even. Binary floating point, and its rounding of the mean, is not modelled.
- Utils.RefreshBusinessMetrics: the separate commit (app/utils.py:58) is not modelled. Neither is the race between two concurrent submissions that both read before either refreshes. Each handler runs atomically on one in-memory database.
- FastAPI routing, status code 201 on creation, `response_model` field filtering, the SQLAlchemy session and `db.refresh` are not modelled. A handler returns the stored record itself.
- Primary keys are counters (`nextUserId`, `nextReviewId`) handed out on insert. The database's own rowid reuse rules are not modelled. Business ids come from the seed.
- Query results are taken in table (insertion) order. SQL without ORDER BY does not promise an order.
- In `verify_password`, a non-string stored value is `None` and gives false (the AttributeError path). A non-string plain password, which raises an uncaught TypeError, is not modelled, since the handlers always pass strings.
- The populate scripts (app/populate_db.py, populate_db.py) are interactive. The constructor `Models.Database.constructor` stands for their result, a seeded catalogue with a fresh review table.
- app/models.py and app/schemas.py are not part of this model. The score is an optional real and the keywords are an optional list of strings.
- backend/main.py, backend/schemas.py and app/config.py are not part of this model.
- The external sentiment service that `analyze_review_sentiment` is meant to call (app/utils.py:71-77) is not part of this model; the placeholder it returns today is.

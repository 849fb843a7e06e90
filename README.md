# Review analyzer server — a Dafny model of its request handler

The system is a small WSGI service (`server.py`) holding an in-memory table of customer reviews.
`ReviewAnalyzerServer.__call__` serves two requests:

- **GET** reads the optional query parameters `location`, `start_date` and `end_date` (the first
  value wins when a key repeats). It keeps the stored reviews at that exact location, then the
  reviews whose `Timestamp` lies between the bounds, and answers with one record per surviving review,
  in stored order. Each record copies `ReviewId`, `ReviewBody`, `Location` and `Timestamp` and adds a
  sentiment score.
- **POST** reads a form with `Location` and `ReviewBody`. It checks three things in order: the
  location is present; the location, stripped of surrounding whitespace, is one of 18 allowed
  places; the review body is present. A failed check answers 400 with a fixed message. A passing
  submission gets a random identifier, drawn again while it collides with an existing one, and the
  current time. The server answers 201 with the submitted location (not stripped) and body. The
  store is never appended to.

The model follows the source's shape. The filters are pure functions over sequences
(`ReviewFilter`). Python's `strptime`/`strftime` for the two formats the server uses and the
ordering of datetimes are in `DateTimes`. `str.strip()` is in `Text`. The two loops of the handler,
the response-building loop and the identifier loop, are methods with loop invariants
(`ReviewServer.BuildResponse`, `ReviewServer.NewReviewId`).

Files: `wrappers.dfy` (Option, Result), `seqs.dfy` (order-preserving filter, subsequences),
`text.dfy` (whitespace, strip), `datetimes.dfy`, `review_filter.dfy`, `review_server.dfy`.

Behaviour reproduced as the code has it:

- An end bound is parsed as `%Y-%m-%d`, so it means midnight at the start of that day. A review
  stamped later on the end day is therefore dropped (`ReviewFilter.EndDateExcludesLaterThatDay`,
  and for one concrete store `ReviewFilter.NoonOnEndDateDropped`).
- When a date bound is supplied, a supplied bound that does not parse, or any review at the
  requested location whose timestamp does not parse, makes the GET raise. Without a date bound no
  timestamp is parsed. The result is then no list at all, never a partial one
  (`ReviewFilter.FilterReviewsOutcome`). Nothing in the handler catches this exception.
- The collision check of the identifier loop uses the values under the lower-case key
  `review_id` (`Review.snakeId`), not `ReviewId`. When the table has no such column, the first draw
  is always accepted, even if it equals a stored `ReviewId`
  (`ReviewServer.FirstDrawAcceptedWithoutSnakeIds`).
- The allow-list entries are written as `"City, State"` with the state name in full
  (`"Denver, Colorado"`). The comparison is exact and case-sensitive.
- A successful POST does not change the store. `HandlePost` receives the store as a value and
  returns only a response, so a later GET sees the same reviews as before.

## Model

| member | source | states |
|---|---|---|
| `Seqs.Filter` | server.py:57 | the kept elements all come from the input and satisfy the condition; the result is never longer than the input |
| `Seqs.FilterIsSubsequence` | server.py:57 | a list comprehension's result is an order-preserving subsequence of its input |
| `Seqs.FilterCount` | server.py:57 | each element that satisfies the condition is kept as often as it occurs; every other element is dropped |
| `Seqs.FilterMembership` | server.py:57 | an element is in the result exactly when it is in the input and satisfies the condition |
| `Seqs.FilterKeepsAll` | server.py:55-57 | when every element satisfies the condition, the result equals the input |
| `Seqs.FilterOfFilter` | server.py:55-72 | filtering by location and then by date equals one filter by both conditions |
| `Text.Strip` | server.py:112 | the stripped text is empty exactly when the input is all whitespace; otherwise it neither begins nor ends with whitespace |
| `Text.StripSplits` | server.py:112 | every string is its stripped text with whitespace before and after it, so strip removes only whitespace |
| `Text.StripPadded` | server.py:112 | stripping whitespace padding around a text whose ends are not whitespace gives back exactly that text |
| `Text.StripIdempotent` | server.py:112 | stripping twice is the same as stripping once |
| `DateTimes.AtOrBeforeTotalOrder` | server.py:69-70 | the datetime comparison used against the bounds is reflexive, antisymmetric, transitive and total |
| `DateTimes.StartOfDayAtOrBefore` | server.py:69 | every moment of a day is at or after that day's midnight, so a start bound admits its whole day |
| `DateTimes.OnlyMidnightAtOrBeforeStartOfDay` | server.py:70 | of the moments of a day, only 00:00:00 is at or before that day's midnight |
| `DateTimes.ParseDate` | server.py:62-64 | a parsed `%Y-%m-%d` bound is a valid calendar date at midnight, so an impossible date such as February 30 never parses; the converse is `DateTimes.ParseDateOfFormatted` |
| `DateTimes.ParseDateOfFormatted` | server.py:62-64 | every valid date written as zero-padded `YYYY-MM-DD` parses, to midnight of that same day |
| `DateTimes.ParseTimestamp` | server.py:69-70 | a parsed `%Y-%m-%d %H:%M:%S` timestamp is a valid datetime, so out-of-range fields such as second 60 never parse |
| `DateTimes.FormatTimestamp` | server.py:135 | the formatted clock reading is 19 characters long |
| `DateTimes.FormatParseRoundTrip` | server.py:135 | a timestamp written by the POST path parses back, with the format the GET filter reads, to the same moment |
| `ReviewFilter.FirstValue` | server.py:50-52 | a parameter has a value exactly when its key is in the query; the value is the first one given and is not empty |
| `ReviewFilter.ParseBound` | server.py:61-64 | a bound that is not supplied is no bound; a supplied bound fails exactly when its text does not parse, and otherwise is a valid date at midnight |
| `ReviewFilter.ParseBounds` | server.py:61-64 | the pair fails exactly when a supplied bound's text does not parse as a date; otherwise a bound is present exactly when it was supplied, and each present bound is the valid midnight its own text parses to |
| `ReviewFilter.LocationFilterExact` | server.py:55-57 | keeps every review whose `Location` equals the requested one exactly, as often as stored and in order; without a location it keeps the list as it is |
| `ReviewFilter.LocationFilterIsFilter` | server.py:55-57 | the location step is a single filter by "no location supplied, or equal location" |
| `ReviewFilter.DateFilterSpec` | server.py:66-72 | the date step fails exactly when some review's timestamp does not parse; otherwise it keeps exactly the reviews within the supplied bounds, in order |
| `ReviewFilter.FilterReviewsOutcome` | server.py:55-72 | the GET filter fails exactly when a date bound is supplied and a bound or a location-matching review's timestamp does not parse; otherwise it is one filter of the store |
| `ReviewFilter.FilterReviewsExact` | server.py:55-72 | a successful filter is an ordered subsequence of the store holding each admitted review as often as stored; a review is admitted when its location and its timestamp meet every supplied parameter |
| `ReviewFilter.NoParametersKeepsStore` | server.py:49-57 | a GET without query parameters filters to the whole store, unchanged |
| `ReviewFilter.EndDateExcludesLaterThatDay` | server.py:63-70 | a review stamped after midnight on the end date is not in the result |
| `DateTimes.NoonTimestampParses` | server.py:69-70 | the timestamp `2024-01-31 12:00:00` parses to noon on 31 January 2024 |
| `DateTimes.EndOfJanuaryParses` | server.py:63-64 | the bound `2024-01-31` parses to midnight at the start of 31 January 2024 |
| `ReviewFilter.NoonOnEndDateDropped` | server.py:63-72 | a store with one review at 2024-01-31 12:00:00, filtered with end date 2024-01-31, gives an empty list |
| `ReviewServer.BuildResponse` | server.py:74-83 | one response record per filtered review, in the same order, with the four fields copied unchanged and the sentiment of its body |
| `ReviewServer.HandleGet` | server.py:45-92 | the GET raises exactly when the filter fails; otherwise it lists the annotated filtered reviews; with no parameters it lists every stored review once, in order |
| `ReviewServer.ValidateSubmission` | server.py:102-127 | checks run in a fixed order and stop at the first failure: missing location, then a stripped location outside the allow-list, then missing body; an accepted submission keeps the raw location and a non-empty body |
| `ReviewServer.AllowedLocationsUnpadded` | server.py:39-44 | no allowed location begins or ends with whitespace |
| `ReviewServer.PaddedLocationAccepted` | server.py:102-142 | an allowed location padded with whitespace passes the check, and the submission echoes it with its padding |
| `ReviewServer.UnknownLocationRefused` | server.py:112-118 | "Nowhere, Nowhere" with a review body is refused with "invalid location" |
| `ReviewServer.ExistingIds` | server.py:130 | the taken identifiers are exactly the `review_id` values of the stored records, `None` included; when no record has a `review_id`, no identifier string is taken, whatever the stored `ReviewId` values are |
| `ReviewServer.NewReviewId` | server.py:130-133 | the identifier returned is the first draw that is not taken: it is not taken and every earlier draw was |
| `ReviewServer.FirstDrawAcceptedWithoutSnakeIds` | server.py:130-133 | when no stored record has a `review_id`, the first draw is never taken |
| `ReviewServer.HandlePost` | server.py:95-151 | a refused submission gets 400 and the first failing check's message; an accepted one gets 201 with a fresh identifier, the untrimmed location, the body and the formatted clock reading, which parses back to that reading |

## Left out

- The sentiment analyzer (VADER from NLTK) is a foreign library working on floating point. It is the parameter `score`, a function from body text to four reals.
- Startup work is not modelled: the NLTK downloads, the stop-word set, the unused `adj_noun_pairs_count` and the CSV loading. The store is a given sequence of records. Each record has the four columns as strings. Missing cells (pandas NaN) and numeric conversion of columns are not modelled.
- URL and form decoding (`parse_qs`), UTF-8 decoding, JSON serialisation, response headers and `Content-Length` are library work. A decoded query or form is a map from key to its values. `ReviewFilter.ParsedQuery` states what `parse_qs` guarantees: each key has a value, and blank values are dropped.
- Reading the POST body (`CONTENT_LENGTH`, `wsgi.input`) and the generic 500 handler for exceptions on the POST path are I/O and exception plumbing.
- `uuid.uuid4` is a sequence of draws. The loop ends only when some draw is fresh, which holds with probability 1 but cannot be proved. `ReviewServer.HandlePost` therefore requires a fresh draw when validation succeeds.
- `datetime.now()` is the parameter `now`.
- When a GET raises, the WSGI server sends its own error response. The model stops at `Raised`.
- Server startup (`make_server`, `PORT`) is not modelled. Methods other than GET and POST are not modelled either; for them the handler returns nothing.
- DateTimes.ParseTimestamp: accepts ASCII digits only. Python's `\d` and `int()` also accept other Unicode decimal digits. Whitespace is Python's `str.isspace` set.
- DateTimes.ParseDate: accepts ASCII digits only, for the same reason.
- DateTimes.FormatTimestamp: always pads the year to four digits. The C library's `%Y` prints years below 1000 without padding, which a real clock reading never reaches.

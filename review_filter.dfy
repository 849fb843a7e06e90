/** The read path's filter: the query parameters `location`, `start_date` and `end_date`, and the
    order-preserving selection of stored reviews they make (server.py:49-72). */
module ReviewFilter {
  import opened Wrappers
  import opened Seqs
  import opened DateTimes

  /** One record of the review table. `snakeId` is the value under the lower-case key
      `review_id` (None when the record has no such key), which is distinct from `ReviewId`. */
  datatype Review = Review(reviewId: string, body: string, location: string, timestamp: string, snakeId: Option<string>)

  /** A decoded query string or form body: each key with the values given for it, in order. */
  type Query = map<string, seq<string>>

  /** What `parse_qs` produces: every key has at least one value, and blank values are dropped. */
  predicate ParsedQuery(q: Query) {
    forall k | k in q :: q[k] != [] && forall v | v in q[k] :: v != ""
  }

  /** `q.get(key, [None])[0]`: the first value given for `key`, if any. */
  function FirstValue(q: Query, key: string): (r: Option<string>)
    requires ParsedQuery(q)
    ensures r.Some? <==> key in q
    ensures r.Some? ==> r.value == q[key][0] && r.value != ""
  {
    if key in q then assert q[key][0] in q[key]; Some(q[key][0]) else None
  }

  /** Python's truth test on an optional string: present and not empty. */
  predicate Supplied(v: Option<string>) {
    v.Some? && v.value != ""
  }

  /** The three optional filter parameters of a GET request. */
  datatype Criteria = Criteria(location: Option<string>, startDate: Option<string>, endDate: Option<string>)

  function CriteriaOf(q: Query): Criteria
    requires ParsedQuery(q)
  {
    Criteria(FirstValue(q, "location"), FirstValue(q, "start_date"), FirstValue(q, "end_date"))
  }

  // ---------------------------------------------------------------------------------------------
  // Location

  function AtLocation(location: string): Review -> bool {
    (r: Review) => r.location == location
  }

  /** Exact, case-sensitive equality with the query's location, applied only when one is supplied. */
  function LocationFilter(rs: seq<Review>, location: Option<string>): seq<Review> {
    if Supplied(location) then Filter(rs, AtLocation(location.value)) else rs
  }

  /** The location condition as a predicate that holds of everything when no location is supplied. */
  predicate MatchesLocation(location: Option<string>, r: Review) {
    !Supplied(location) || r.location == location.value
  }

  // ---------------------------------------------------------------------------------------------
  // Dates

  /** The parsed bounds; `None` stands for a bound that was not supplied. */
  datatype Bounds = Bounds(start: Option<DateTime>, end: Option<DateTime>)

  /** A supplied bound parsed with `%Y-%m-%d` (midnight of that day). The outer `None` is a
      supplied bound that does not parse, which makes the request fail. */
  function ParseBound(v: Option<string>): (r: Option<Option<DateTime>>)
    ensures r.None? <==> Supplied(v) && ParseDate(v.value).None?
    ensures r.Some? ==> (r.value.Some? <==> Supplied(v))
    ensures r.Some? && r.value.Some? ==> r.value.value == ParseDate(v.value).value
    ensures r.Some? && r.value.Some? ==> Valid(r.value.value) && r.value.value == StartOfDay(r.value.value)
  {
    if Supplied(v) then
      var day :- ParseDate(v.value);
      Some(Some(day))
    else
      Some(None)
  }

  /** Both bounds, each parsed on its own: the pair fails when either supplied bound fails. */
  function ParseBounds(c: Criteria): (r: Option<Bounds>)
    ensures r.None? <==>
      (Supplied(c.startDate) && ParseDate(c.startDate.value).None?)
      || (Supplied(c.endDate) && ParseDate(c.endDate.value).None?)
    ensures r.Some? ==> (r.value.start.Some? <==> Supplied(c.startDate)) && (r.value.end.Some? <==> Supplied(c.endDate))
    ensures r.Some? && r.value.start.Some? ==> r.value.start == ParseDate(c.startDate.value)
    ensures r.Some? && r.value.end.Some? ==> r.value.end == ParseDate(c.endDate.value)
    ensures r.Some? && r.value.start.Some? ==> Valid(r.value.start.value) && r.value.start.value == StartOfDay(r.value.start.value)
    ensures r.Some? && r.value.end.Some? ==> Valid(r.value.end.value) && r.value.end.value == StartOfDay(r.value.end.value)
  {
    var start :- ParseBound(c.startDate);
    var end :- ParseBound(c.endDate);
    Some(Bounds(start, end))
  }

  /** The comprehension's condition for a review whose timestamp parsed to `t`. */
  predicate Within(t: DateTime, b: Bounds) {
    (b.start.None? || AtOrBefore(b.start.value, t)) && (b.end.None? || AtOrBefore(t, b.end.value))
  }

  predicate Parses(r: Review) {
    ParseTimestamp(r.timestamp).Some?
  }

  /** The date condition as a predicate on reviews. */
  function InWindow(b: Bounds): Review -> bool {
    (r: Review) => Parses(r) && Within(ParseTimestamp(r.timestamp).value, b)
  }

  /** The comprehension at server.py:66-72: each review's `Timestamp` is parsed with
      `%Y-%m-%d %H:%M:%S` and compared with the bounds; the first review whose timestamp does not
      parse makes the whole comprehension raise (`None`). It runs only when a bound exists. */
  function DateFilter(rs: seq<Review>, b: Bounds): Option<seq<Review>>
    requires b.start.Some? || b.end.Some?
  {
    if rs == [] then Some([])
    else
      var t :- ParseTimestamp(rs[0].timestamp);
      var rest :- DateFilter(rs[1..], b);
      Some(if Within(t, b) then [rs[0]] + rest else rest)
  }

  predicate DateFilterActive(c: Criteria) {
    Supplied(c.startDate) || Supplied(c.endDate)
  }

  /** The whole filter of the read path: location first, then the dates when a bound is
      supplied. `None` is a request that raises. */
  function FilterReviews(store: seq<Review>, c: Criteria): Option<seq<Review>> {
    var byLocation := LocationFilter(store, c.location);
    if DateFilterActive(c) then
      var b :- ParseBounds(c);
      DateFilter(byLocation, b)
    else
      Some(byLocation)
  }

  // ---------------------------------------------------------------------------------------------
  // Properties

  /** The location filter keeps every review at the requested location as often as it occurs,
      and no other review, in the original order; with no location it keeps everything. */
  lemma LocationFilterExact(rs: seq<Review>, location: Option<string>, x: Review)
    ensures multiset(LocationFilter(rs, location))[x] == if MatchesLocation(location, x) then multiset(rs)[x] else 0
    ensures IsSubsequence(LocationFilter(rs, location), rs)
    ensures !Supplied(location) ==> LocationFilter(rs, location) == rs
  {
    if Supplied(location) {
      FilterCount(rs, AtLocation(location.value), x);
      FilterIsSubsequence(rs, AtLocation(location.value));
    } else {
      SubsequenceReflexive(rs);
    }
  }

  /** The date filter fails exactly when some review's timestamp does not parse, and otherwise
      keeps exactly the reviews inside the bounds, in order. */
  lemma {:induction false} DateFilterSpec(rs: seq<Review>, b: Bounds)
    requires b.start.Some? || b.end.Some?
    ensures DateFilter(rs, b).Some? <==> forall r | r in rs :: Parses(r)
    ensures DateFilter(rs, b).Some? ==> DateFilter(rs, b).value == Filter(rs, InWindow(b))
  {
    if rs != [] {
      DateFilterSpec(rs[1..], b);
      assert forall r | r in rs :: r == rs[0] || r in rs[1..];
      if Parses(rs[0]) && DateFilter(rs[1..], b).Some? {
        assert InWindow(b)(rs[0]) == Within(ParseTimestamp(rs[0].timestamp).value, b);
      }
    }
  }

  /** The location filter as a Filter over the whole store. */
  lemma LocationFilterIsFilter(rs: seq<Review>, location: Option<string>)
    ensures LocationFilter(rs, location) == Filter(rs, MatchesLocationOf(location))
  {
    if Supplied(location) {
      FilterSamePredicate(rs, AtLocation(location.value), MatchesLocationOf(location));
    } else {
      FilterKeepsAll(rs, MatchesLocationOf(location));
    }
  }

  function MatchesLocationOf(location: Option<string>): Review -> bool {
    (r: Review) => MatchesLocation(location, r)
  }

  /** Filtering depends only on the values of the predicate. */
  lemma {:induction false} FilterSamePredicate(rs: seq<Review>, p: Review -> bool, q: Review -> bool)
    requires forall r | r in rs :: p(r) == q(r)
    ensures Filter(rs, p) == Filter(rs, q)
  {
    if rs != [] {
      assert forall r | r in rs[1..] :: r in rs;
      FilterSamePredicate(rs[1..], p, q);
    }
  }

  /** The read path's selection condition in the terms of the request: the location when one is
      supplied, and each date bound that is supplied, compared with the review's timestamp. */
  predicate Admits(c: Criteria, r: Review) {
    MatchesLocation(c.location, r)
    && (Supplied(c.startDate) ==>
          Parses(r) && ParseDate(c.startDate.value).Some?
          && AtOrBefore(ParseDate(c.startDate.value).value, ParseTimestamp(r.timestamp).value))
    && (Supplied(c.endDate) ==>
          Parses(r) && ParseDate(c.endDate.value).Some?
          && AtOrBefore(ParseTimestamp(r.timestamp).value, ParseDate(c.endDate.value).value))
  }

  /** How the read path's filter ends: it fails exactly when a date bound is supplied and either
      a supplied bound does not parse or some review at the requested location has a timestamp
      that does not parse (never a partial list); otherwise it is one Filter over the store. */
  lemma FilterReviewsOutcome(store: seq<Review>, c: Criteria)
    ensures FilterReviews(store, c).None? <==>
      DateFilterActive(c) && (ParseBounds(c).None? || exists r | r in store :: MatchesLocation(c.location, r) && !Parses(r))
    ensures FilterReviews(store, c).Some? && !DateFilterActive(c) ==>
      FilterReviews(store, c).value == Filter(store, MatchesLocationOf(c.location))
    ensures FilterReviews(store, c).Some? && DateFilterActive(c) ==>
      FilterReviews(store, c).value == Filter(store, Both(MatchesLocationOf(c.location), InWindow(ParseBounds(c).value)))
  {
    var byLocation := LocationFilter(store, c.location);
    LocationFilterIsFilter(store, c.location);
    if DateFilterActive(c) && ParseBounds(c).Some? {
      var b := ParseBounds(c).value;
      DateFilterSpec(byLocation, b);
      forall r | r in store
        ensures r in byLocation <==> MatchesLocation(c.location, r)
      {
        FilterMembership(store, MatchesLocationOf(c.location), r);
      }
      FilterOfFilter(store, MatchesLocationOf(c.location), InWindow(b));
    }
  }

  /** The filtered list is exactly the admitted reviews of the store: each as often as it is
      stored, in the stored order; every other review is dropped. */
  lemma FilterReviewsExact(store: seq<Review>, c: Criteria, out: seq<Review>, x: Review)
    requires FilterReviews(store, c) == Some(out)
    ensures IsSubsequence(out, store)
    ensures multiset(out)[x] == if Admits(c, x) then multiset(store)[x] else 0
    ensures x in out <==> x in store && Admits(c, x)
  {
    FilterReviewsOutcome(store, c);
    var p := if DateFilterActive(c) then Both(MatchesLocationOf(c.location), InWindow(ParseBounds(c).value))
             else MatchesLocationOf(c.location);
    assert out == Filter(store, p);
    FilterIsSubsequence(store, p);
    FilterCount(store, p, x);
    FilterMembership(store, p, x);
    assert p(x) == Admits(c, x);
  }

  /** A GET with no query parameters returns the store unchanged. */
  lemma NoParametersKeepsStore(store: seq<Review>)
    ensures FilterReviews(store, CriteriaOf(map[])) == Some(store)
  {
    LocationFilterExact(store, None, Review("", "", "", "", None));
  }

  /** Because an end bound is midnight of its day, a review stamped later on that same day is
      dropped, even though it falls on the end date. */
  lemma EndDateExcludesLaterThatDay(store: seq<Review>, c: Criteria, out: seq<Review>, r: Review)
    requires FilterReviews(store, c) == Some(out)
    requires Supplied(c.endDate) && Parses(r)
    requires var t := ParseTimestamp(r.timestamp).value;
      ParseDate(c.endDate.value) == Some(StartOfDay(t)) && !(t.hour == 0 && t.minute == 0 && t.second == 0)
    ensures r !in out
  {
    FilterReviewsExact(store, c, out, r);
    OnlyMidnightAtOrBeforeStartOfDay(ParseTimestamp(r.timestamp).value);
  }

  /** One concrete instance of the end-date behaviour: a review at noon on the end date is
      filtered out. */
  lemma NoonOnEndDateDropped(timestamp: string, endDate: string)
    requires timestamp == "2024-01-31 12:00:00" && endDate == "2024-01-31"
    ensures FilterReviews([Review("1", "b", "L", timestamp, None)], Criteria(None, None, Some(endDate))) == Some([])
  {
    var r := Review("1", "b", "L", timestamp, None);
    var c := Criteria(None, None, Some(endDate));
    NoonTimestampParses(timestamp);
    EndOfJanuaryParses(endDate);
    var b := Bounds(None, Some(DateTime(2024, 1, 31, 0, 0, 0)));
    assert ParseBounds(c) == Some(b);
    OnlyMidnightAtOrBeforeStartOfDay(DateTime(2024, 1, 31, 12, 0, 0));
    assert !Within(DateTime(2024, 1, 31, 12, 0, 0), b);
    assert DateFilter([r][1..], b) == Some([]);
    assert DateFilter([r], b) == Some([]);
  }
}

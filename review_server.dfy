/** The request handler `ReviewAnalyzerServer.__call__` (server.py:33-158): the GET path annotates
    the filtered reviews, the POST path validates a submitted review and acknowledges it. */
module ReviewServer {
  import opened Wrappers
  import opened Text
  import opened DateTimes
  import opened ReviewFilter

  // ---------------------------------------------------------------------------------------------
  // GET

  /** The four polarity scores of the sentiment analyzer. */
  datatype Sentiment = Sentiment(neg: real, neu: real, pos: real, compound: real)

  /** One element of the GET response. */
  datatype AnnotatedReview = AnnotatedReview(reviewId: string, body: string, location: string, timestamp: string, sentiment: Sentiment)

  /** `items` holds one record per review of `rs`, in the same order, with the four fields
      copied and the sentiment of the review's body. */
  ghost predicate Annotates(items: seq<AnnotatedReview>, rs: seq<Review>, score: string -> Sentiment) {
    |items| == |rs| &&
    forall i | 0 <= i < |rs| ::
      items[i].reviewId == rs[i].reviewId && items[i].body == rs[i].body
      && items[i].location == rs[i].location && items[i].timestamp == rs[i].timestamp
      && items[i].sentiment == score(rs[i].body)
  }

  /** The loop that builds the GET response; `score` stands for the sentiment analyzer. */
  method BuildResponse(rs: seq<Review>, score: string -> Sentiment) returns (items: seq<AnnotatedReview>)
    ensures Annotates(items, rs, score)
  {
    items := [];
    for i := 0 to |rs|
      invariant Annotates(items, rs[..i], score)
    {
      var review := rs[i];
      var sentiment := score(review.body);
      items := items + [AnnotatedReview(review.reviewId, review.body, review.location, review.timestamp, sentiment)];
    }
  }

  /** The outcome of a GET: a 200 response with its JSON array, or an exception that escapes
      the handler (a timestamp or bound that does not parse). */
  datatype GetResponse = Listed(items: seq<AnnotatedReview>) | Raised

  method HandleGet(store: seq<Review>, query: Query, score: string -> Sentiment) returns (response: GetResponse)
    requires ParsedQuery(query)
    ensures response.Raised? <==> FilterReviews(store, CriteriaOf(query)).None?
    ensures response.Listed? ==> Annotates(response.items, FilterReviews(store, CriteriaOf(query)).value, score)
    ensures query == map[] ==> response.Listed? && Annotates(response.items, store, score)
  {
    var filtered := FilterReviews(store, CriteriaOf(query));
    if filtered.None? {
      return Raised;
    }
    NoParametersKeepsStore(store);
    var items := BuildResponse(filtered.value, score);
    response := Listed(items);
  }

  // ---------------------------------------------------------------------------------------------
  // POST

  /** The locations a submission may name. */
  const AllowedLocations: set<string> := {
    "Albuquerque, New Mexico", "Carlsbad, California", "Chula Vista, California", "Colorado Springs, Colorado",
    "Denver, Colorado", "El Cajon, California", "El Paso, Texas", "Escondido, California", "Fresno, California",
    "La Mesa, California", "Las Vegas, Nevada", "Los Angeles, California", "Oceanside, California",
    "Phoenix, Arizona", "Sacramento, California", "Salt Lake City, Utah", "San Diego, California", "Tucson, Arizona"
  }

  /** The three ways a submission is refused with 400 Bad Request. */
  datatype SubmissionError = MissingLocation | InvalidLocation | MissingReviewBody {
    /** The `error` text of the JSON body. */
    function Message(): string {
      match this
      case MissingLocation => "missing location"
      case InvalidLocation => "invalid location"
      case MissingReviewBody => "missing review body"
    }
  }

  /** The accepted fields of a submission, as submitted. */
  datatype Submission = Submission(location: string, body: string)

  /** The checks of the POST path, in order, stopping at the first failure. */
  function ValidateSubmission(form: Query): (r: Result<Submission, SubmissionError>)
    requires ParsedQuery(form)
    ensures r == Failure(MissingLocation) <==> "Location" !in form
    ensures r == Failure(InvalidLocation) <==>
      "Location" in form && Strip(form["Location"][0]) !in AllowedLocations
    ensures r == Failure(MissingReviewBody) <==>
      "Location" in form && Strip(form["Location"][0]) in AllowedLocations && "ReviewBody" !in form
    ensures r.Success? ==>
      r.value == Submission(form["Location"][0], form["ReviewBody"][0])
      && Strip(r.value.location) in AllowedLocations && r.value.body != ""
  {
    var location := FirstValue(form, "Location");
    var body := FirstValue(form, "ReviewBody");
    if location.None? then Failure(MissingLocation)
    else if Strip(location.value) !in AllowedLocations then Failure(InvalidLocation)
    else if body.None? then Failure(MissingReviewBody)
    else Success(Submission(location.value, body.value))
  }

  /** No allowed location begins or ends with whitespace. */
  lemma AllowedLocationsUnpadded(location: string)
    requires location in AllowedLocations
    ensures location != [] && !IsSpace(location[0]) && !IsSpace(location[|location| - 1])
  {
  }

  /** An allowed location surrounded by whitespace passes the allow-list check, and the
      submission keeps it with its whitespace. */
  lemma PaddedLocationAccepted(pre: string, location: string, post: string, body: string)
    requires location in AllowedLocations && AllSpace(pre) && AllSpace(post) && body != ""
    ensures var form := map["Location" := [pre + location + post], "ReviewBody" := [body]];
      ParsedQuery(form) && ValidateSubmission(form) == Success(Submission(pre + location + post, body))
  {
    AllowedLocationsUnpadded(location);
    StripPadded(pre, location, post);
    var form := map["Location" := [pre + location + post], "ReviewBody" := [body]];
    assert form["Location"][0] == pre + location + post;
  }

  /** A location outside the allow-list is refused even when a review body is given. */
  lemma UnknownLocationRefused()
    ensures var form := map["Location" := ["Nowhere, Nowhere"], "ReviewBody" := ["Great service"]];
      ParsedQuery(form) && ValidateSubmission(form) == Failure(InvalidLocation)
  {
    var location := "Nowhere, Nowhere";
    StripUnpadded(location);
    assert location !in AllowedLocations by {
      forall l | l in AllowedLocations ensures l != location {
        assert l[0] != location[0];
      }
    }
    var form := map["Location" := [location], "ReviewBody" := ["Great service"]];
    assert form["Location"][0] == location;
    assert ParsedQuery(form);
  }

  /** `{review.get('review_id') for review in reviews}`: the values under the lower-case key,
      with `None` for a record that lacks it. */
  function ExistingIds(store: seq<Review>): (ids: set<Option<string>>)
    ensures forall r | r in store :: r.snakeId in ids
    ensures forall id | id in ids :: exists r | r in store :: r.snakeId == id
    ensures (forall r | r in store :: r.snakeId.None?) ==> forall x: string :: Some(x) !in ids
  {
    set r | r in store :: r.snakeId
  }

  /** Some identifier the generator yields is not taken: the assumption under which the
      generate-until-fresh loop ends. */
  predicate HasFreshDraw(draws: seq<string>, taken: set<Option<string>>) {
    exists i | 0 <= i < |draws| :: Some(draws[i]) !in taken
  }

  /** The generate-until-fresh loop; `draws` are the successive results of `str(uuid.uuid4())`.
      It returns the first draw that is not taken, and how many draws it used. */
  method NewReviewId(draws: seq<string>, taken: set<Option<string>>) returns (id: string, used: nat)
    requires HasFreshDraw(draws, taken)
    ensures 1 <= used <= |draws| && id == draws[used - 1]
    ensures Some(id) !in taken
    ensures forall j | 0 <= j < used - 1 :: Some(draws[j]) in taken
  {
    used := 1;
    id := draws[0];
    while Some(id) in taken
      invariant 1 <= used <= |draws| && id == draws[used - 1]
      invariant forall j | 0 <= j < used :: Some(draws[j]) in taken || j == used - 1
      decreases |draws| - used
    {
      id := draws[used];
      used := used + 1;
    }
  }

  /** When no stored record has a `review_id` key, the first identifier drawn is accepted
      whatever it is, even one equal to a stored `ReviewId`. */
  lemma FirstDrawAcceptedWithoutSnakeIds(store: seq<Review>, draws: seq<string>)
    requires draws != []
    requires forall r | r in store :: r.snakeId.None?
    ensures Some(draws[0]) !in ExistingIds(store)
    ensures HasFreshDraw(draws, ExistingIds(store))
  {
  }

  /** The 201 body of an accepted submission. */
  datatype CreatedReview = CreatedReview(reviewId: string, body: string, location: string, timestamp: string)

  /** The outcome of a POST: 201 Created with the new record, or 400 Bad Request with an error. */
  datatype PostResponse = Created(review: CreatedReview) | BadRequest(error: string) {
    function Status(): int {
      if Created? then 201 else 400
    }
  }

  /** The POST path; `now` is the clock reading and `draws` the identifier generator. */
  method HandlePost(store: seq<Review>, form: Query, draws: seq<string>, now: DateTime) returns (response: PostResponse)
    requires ParsedQuery(form) && Valid(now)
    requires ValidateSubmission(form).Success? ==> HasFreshDraw(draws, ExistingIds(store))
    ensures ValidateSubmission(form).Failure? ==>
      response == BadRequest(ValidateSubmission(form).error.Message()) && response.Status() == 400
    ensures ValidateSubmission(form).Success? ==>
      response.Created? && response.Status() == 201
      && response.review.location == form["Location"][0]
      && response.review.body == form["ReviewBody"][0]
      && Some(response.review.reviewId) !in ExistingIds(store)
      && (exists k | 0 <= k < |draws| :: draws[k] == response.review.reviewId
            && forall j | 0 <= j < k :: Some(draws[j]) in ExistingIds(store))
      && response.review.timestamp == FormatTimestamp(now)
      && ParseTimestamp(response.review.timestamp) == Some(now)
  {
    var validated := ValidateSubmission(form);
    if validated.Failure? {
      return BadRequest(validated.error.Message());
    }
    var id, used := NewReviewId(draws, ExistingIds(store));
    var timestamp := FormatTimestamp(now);
    FormatParseRoundTrip(now);
    response := Created(CreatedReview(id, validated.value.body, validated.value.location, timestamp));
  }
}

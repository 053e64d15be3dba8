/** The outer loop of `savePostDetails` (post-collector/main.go:190-379):
    for each listing that has no detail row yet, request its detail document
    and either store the extracted row or delete the listing. The `posts`
    and `post_details` tables are maps from token to row, `db.Save` is an
    upsert by token, and the request is an oracle `fetch` from token to what
    came back. */
module Enrich {
  import opened Wrappers
  import opened Models
  import opened Details
  import opened Extraction

  /** What requesting one detail document gave: the request or reading its
      body failed, the body did not decode, or the decoded document. */
  datatype DetailFetch = TransportFailed | Undecodable | Decoded(response: PostDetailResponse)

  datatype Db = Db(posts: map<string, Post>, details: map<string, PostDetail>)

  datatype EnrichError =
    | FetchDetailFailed(token: string)
    | ExtractFailed(token: string, reason: ExtractError)

  /** The database at the point the loop stopped, and why it stopped early. */
  datatype Outcome = Outcome(db: Db, error: Option<EnrichError>)

  /** A listing the anti-join query of `fetchPostsWithoutDetail` returns. */
  predicate Pending(db: Db, token: string)
  {
    token in db.posts && token !in db.details
  }

  /** Every detail row is stored under its own token. */
  predicate DetailsWellKeyed(db: Db)
  {
    forall t | t in db.details :: db.details[t].token == t
  }

  /** One listing of the backlog. A failed request aborts; a body that does
      not decode is skipped; a document with sections yields a detail row or
      aborts; a document without sections deletes the listing. Either way a
      decoded listing is no longer pending, and no other token's rows
      change. */
  function EnrichOne(db: Db, post: Post, fetched: DetailFetch): (r: Result<Db, EnrichError>)
    ensures fetched.TransportFailed? ==> r == Err(FetchDetailFailed(post.token))
    ensures fetched.Undecodable? ==> r == Ok(db)
    ensures r.Err? ==> r.error.token == post.token
    ensures r.Ok? ==> r.value.posts.Keys <= db.posts.Keys && db.details.Keys <= r.value.details.Keys
    ensures r.Ok? && fetched.Decoded? ==> !Pending(r.value, post.token)
    ensures r.Ok? ==> forall t | t != post.token ::
      (t in r.value.posts <==> t in db.posts) && (t in r.value.details <==> t in db.details) &&
      (t in db.posts ==> r.value.posts[t] == db.posts[t]) &&
      (t in db.details ==> r.value.details[t] == db.details[t])
    ensures r.Ok? && DetailsWellKeyed(db) ==> DetailsWellKeyed(r.value)
    ensures fetched.Decoded? && |fetched.response.sections| > 0 ==>
      var e := ExtractDetail(post, fetched.response.sections);
      && (r.Ok? <==> e.Ok?)
      && (e.Ok? ==> r.value == db.(details := db.details[post.token := e.value]))
      && (e.Err? ==> r == Err(ExtractFailed(post.token, e.error)))
    ensures fetched.Decoded? && |fetched.response.sections| == 0 ==>
      r.Ok? && r.value.posts == db.posts - {post.token} && r.value.details == db.details
  {
    match fetched
    case TransportFailed => Err(FetchDetailFailed(post.token))
    case Undecodable => Ok(db)
    case Decoded(response) =>
      if |response.sections| > 0 then
        match ExtractDetail(post, response.sections)
        case Ok(d) => Ok(db.(details := db.details[d.token := d]))
        case Err(e) => Err(ExtractFailed(post.token, e))
      else Ok(db.(posts := db.posts - {post.token}))
  }

  /** The backlog in order, stopping at the first error. */
  function EnrichAll(db: Db, backlog: seq<Post>, fetch: string -> DetailFetch): (r: Outcome)
    ensures r.error.None? ==> forall i | 0 <= i < |backlog| :: !fetch(backlog[i].token).TransportFailed?
    ensures r.error.Some? ==> exists i | 0 <= i < |backlog| :: r.error.value.token == backlog[i].token
    decreases |backlog|
  {
    if backlog == [] then Outcome(db, None)
    else match EnrichOne(db, backlog[0], fetch(backlog[0].token))
      case Err(e) => Outcome(db, Some(e))
      case Ok(db') => EnrichAll(db', backlog[1..], fetch)
  }

  /** One listing is handled without error: its request went through, and a
      document with sections yields a detail row. Whether it does depends
      on the listing and its document only, not on the database. */
  predicate StepOk(post: Post, fetched: DetailFetch)
  {
    && !fetched.TransportFailed?
    && (fetched.Decoded? && |fetched.response.sections| > 0 ==> ExtractDetail(post, fetched.response.sections).Ok?)
  }

  /** The error a listing that is not handled without error stops the loop
      with. */
  function StepError(post: Post, fetched: DetailFetch): EnrichError
  {
    if fetched.TransportFailed? || !fetched.Decoded? || |fetched.response.sections| == 0
    then FetchDetailFailed(post.token)
    else
      var e := ExtractDetail(post, fetched.response.sections);
      if e.Err? then ExtractFailed(post.token, e.error) else FetchDetailFailed(post.token)
  }

  /** `EnrichOne` fails exactly when `StepOk` does not hold, with
      `StepError`. */
  lemma EnrichOneStep(db: Db, post: Post, fetched: DetailFetch)
    ensures EnrichOne(db, post, fetched).Ok? <==> StepOk(post, fetched)
    ensures !StepOk(post, fetched) ==> EnrichOne(db, post, fetched) == Err(StepError(post, fetched))
  {
  }

  /** A run ends without error exactly when every listing of the backlog is
      handled without error. */
  lemma {:induction false} EnrichAllOk(db: Db, backlog: seq<Post>, fetch: string -> DetailFetch)
    ensures EnrichAll(db, backlog, fetch).error.None? <==>
      forall i | 0 <= i < |backlog| :: StepOk(backlog[i], fetch(backlog[i].token))
    decreases |backlog|
  {
    if backlog != [] {
      EnrichOneStep(db, backlog[0], fetch(backlog[0].token));
      var step := EnrichOne(db, backlog[0], fetch(backlog[0].token));
      var rest := backlog[1..];
      if step.Ok? {
        EnrichAllOk(step.value, rest, fetch);
        assert forall i | 1 <= i < |backlog| :: backlog[i] == rest[i - 1];
        assert forall i | 0 <= i < |rest| :: rest[i] == backlog[i + 1];
      }
    }
  }

  /** A run stops with the error of the first listing not handled without
      error. */
  lemma {:induction false} EnrichAllFirstError(db: Db, backlog: seq<Post>, fetch: string -> DetailFetch, i: int)
    requires 0 <= i < |backlog| && !StepOk(backlog[i], fetch(backlog[i].token))
    requires forall j | 0 <= j < i :: StepOk(backlog[j], fetch(backlog[j].token))
    ensures EnrichAll(db, backlog, fetch).error == Some(StepError(backlog[i], fetch(backlog[i].token)))
    decreases i
  {
    EnrichOneStep(db, backlog[0], fetch(backlog[0].token));
    if i > 0 {
      var step := EnrichOne(db, backlog[0], fetch(backlog[0].token));
      var rest := backlog[1..];
      assert rest[i - 1] == backlog[i];
      forall j | 0 <= j < i - 1 ensures StepOk(rest[j], fetch(rest[j].token)) { assert rest[j] == backlog[j + 1]; }
      EnrichAllFirstError(step.value, rest, fetch, i - 1);
    }
  }

  /** The database a run stops with is the one the listings before the
      failing one left: nothing of the failing listing is saved. */
  lemma {:induction false} EnrichAllStopsAt(db: Db, backlog: seq<Post>, fetch: string -> DetailFetch, i: int)
    requires 0 <= i < |backlog| && !StepOk(backlog[i], fetch(backlog[i].token))
    requires forall j | 0 <= j < i :: StepOk(backlog[j], fetch(backlog[j].token))
    ensures EnrichAll(db, backlog, fetch).db == EnrichAll(db, backlog[..i], fetch).db
    decreases i
  {
    EnrichOneStep(db, backlog[0], fetch(backlog[0].token));
    if i > 0 {
      var step := EnrichOne(db, backlog[0], fetch(backlog[0].token));
      var rest := backlog[1..];
      assert rest[i - 1] == backlog[i];
      forall j | 0 <= j < i - 1 ensures StepOk(rest[j], fetch(rest[j].token)) { assert rest[j] == backlog[j + 1]; }
      EnrichAllStopsAt(step.value, rest, fetch, i - 1);
      assert backlog[..i][0] == backlog[0] && backlog[..i][1..] == rest[..i - 1];
    }
  }

  /** A run leaves the rows of a token outside the backlog as they were. */
  lemma {:induction false} EnrichAllOthers(db: Db, backlog: seq<Post>, fetch: string -> DetailFetch, t: string)
    requires forall i | 0 <= i < |backlog| :: backlog[i].token != t
    ensures var db' := EnrichAll(db, backlog, fetch).db;
      && (t in db'.posts <==> t in db.posts) && (t in db.posts ==> db'.posts[t] == db.posts[t])
      && (t in db'.details <==> t in db.details) && (t in db.details ==> db'.details[t] == db.details[t])
    decreases |backlog|
  {
    if backlog != [] {
      var step := EnrichOne(db, backlog[0], fetch(backlog[0].token));
      if step.Ok? {
        var rest := backlog[1..];
        forall i | 0 <= i < |rest| ensures rest[i].token != t { assert rest[i] == backlog[i + 1]; }
        EnrichAllOthers(step.value, rest, fetch, t);
      }
    }
  }

  /** The backlog's tokens are pairwise distinct, as the query returning it
      yields each listing once. */
  predicate DistinctTokens(backlog: seq<Post>)
  {
    forall i, j | 0 <= i < j < |backlog| :: backlog[i].token != backlog[j].token
  }

  /** A run without error stores, for each listing of the backlog whose
      document has sections, the row extracted from it. */
  lemma {:induction false} EnrichAllStores(db: Db, backlog: seq<Post>, fetch: string -> DetailFetch)
    requires DistinctTokens(backlog)
    requires EnrichAll(db, backlog, fetch).error.None?
    ensures forall i | 0 <= i < |backlog| && fetch(backlog[i].token).Decoded? && |fetch(backlog[i].token).response.sections| > 0 ::
      var e := ExtractDetail(backlog[i], fetch(backlog[i].token).response.sections);
      e.Ok? && backlog[i].token in EnrichAll(db, backlog, fetch).db.details &&
      EnrichAll(db, backlog, fetch).db.details[backlog[i].token] == e.value
    decreases |backlog|
  {
    if backlog != [] {
      var post := backlog[0];
      var step := EnrichOne(db, post, fetch(post.token));
      var rest := backlog[1..];
      assert forall i | 0 <= i < |rest| :: rest[i] == backlog[i + 1];
      assert DistinctTokens(rest);
      EnrichAllStores(step.value, rest, fetch);
      EnrichAllOthers(step.value, rest, fetch, post.token);
      assert forall i | 1 <= i < |backlog| :: backlog[i] == rest[i - 1];
    }
  }

  /** A run without error deletes each listing of the backlog whose
      document has no sections. */
  lemma {:induction false} EnrichAllDeletes(db: Db, backlog: seq<Post>, fetch: string -> DetailFetch)
    requires EnrichAll(db, backlog, fetch).error.None?
    ensures forall i | 0 <= i < |backlog| && fetch(backlog[i].token).Decoded? && |fetch(backlog[i].token).response.sections| == 0 ::
      backlog[i].token !in EnrichAll(db, backlog, fetch).db.posts
    decreases |backlog|
  {
    if backlog != [] {
      var post := backlog[0];
      var step := EnrichOne(db, post, fetch(post.token));
      var rest := backlog[1..];
      EnrichAllDeletes(step.value, rest, fetch);
      EnrichAllFrame(step.value, rest, fetch);
      assert forall i | 1 <= i < |backlog| :: backlog[i] == rest[i - 1];
    }
  }

  /** `savePostDetails`'s loop over the backlog. Rows saved before an error
      stay saved. */
  method SavePostDetails(db0: Db, backlog: seq<Post>, fetch: string -> DetailFetch)
    returns (db: Db, err: Option<EnrichError>)
    ensures Outcome(db, err) == EnrichAll(db0, backlog, fetch)
  {
    db := db0;
    var i := 0;
    while i < |backlog|
      invariant 0 <= i <= |backlog|
      invariant EnrichAll(db0, backlog, fetch) == EnrichAll(db, backlog[i..], fetch)
    {
      var item := backlog[i];
      assert backlog[i..][0] == item && backlog[i..][1..] == backlog[i + 1..];
      var response := fetch(item.token);
      match response {
        case TransportFailed =>
          return db, Some(FetchDetailFailed(item.token));
        case Undecodable =>
        case Decoded(result) =>
          if |result.sections| > 0 {
            var detailToSave := ExtractPostDetail(item, result.sections);
            if detailToSave.Err? {
              return db, Some(ExtractFailed(item.token, detailToSave.error));
            }
            db := db.(details := db.details[detailToSave.value.token := detailToSave.value]);
          } else {
            db := db.(posts := db.posts - {item.token});
          }
      }
      i := i + 1;
    }
    return db, None;
  }

  /** The loop only deletes listings and only adds or replaces detail rows,
      so a listing that stops being pending never becomes pending again;
      rows of tokens outside the backlog are untouched; and detail rows stay
      stored under their own token. */
  lemma {:induction false} EnrichAllFrame(db: Db, backlog: seq<Post>, fetch: string -> DetailFetch)
    ensures EnrichAll(db, backlog, fetch).db.posts.Keys <= db.posts.Keys
    ensures db.details.Keys <= EnrichAll(db, backlog, fetch).db.details.Keys
    ensures forall t | Pending(EnrichAll(db, backlog, fetch).db, t) :: Pending(db, t)
    ensures forall t | t in db.posts && (forall i | 0 <= i < |backlog| :: backlog[i].token != t) ::
      t in EnrichAll(db, backlog, fetch).db.posts && EnrichAll(db, backlog, fetch).db.posts[t] == db.posts[t]
    ensures DetailsWellKeyed(db) ==> DetailsWellKeyed(EnrichAll(db, backlog, fetch).db)
    decreases |backlog|
  {
    if backlog != [] {
      var step := EnrichOne(db, backlog[0], fetch(backlog[0].token));
      if step.Ok? {
        var rest := backlog[1..];
        EnrichAllFrame(step.value, rest, fetch);
        forall t | t in db.posts && (forall i | 0 <= i < |backlog| :: backlog[i].token != t)
          ensures forall i | 0 <= i < |rest| :: rest[i].token != t
        {
          forall i | 0 <= i < |rest| ensures rest[i].token != t { assert rest[i] == backlog[i + 1]; }
        }
      }
    }
  }

  /** A run that ends without error leaves no decoded listing of the backlog
      pending. */
  lemma {:induction false} EnrichAllProgress(db: Db, backlog: seq<Post>, fetch: string -> DetailFetch)
    requires EnrichAll(db, backlog, fetch).error.None?
    ensures forall i | 0 <= i < |backlog| && fetch(backlog[i].token).Decoded? ::
      !Pending(EnrichAll(db, backlog, fetch).db, backlog[i].token)
    decreases |backlog|
  {
    if backlog != [] {
      var step := EnrichOne(db, backlog[0], fetch(backlog[0].token));
      var rest := backlog[1..];
      EnrichAllProgress(step.value, rest, fetch);
      EnrichAllFrame(step.value, rest, fetch);
      forall i | 0 <= i < |rest| && fetch(rest[i].token).Decoded? ensures !Pending(EnrichAll(db, backlog, fetch).db, rest[i].token) { }
      forall i | 1 <= i < |backlog| ensures backlog[i] == rest[i - 1] { }
    }
  }

  /** When the backlog lists every pending listing and every request decodes,
      a run without error leaves nothing pending. */
  lemma EnrichAllCompletes(db: Db, backlog: seq<Post>, fetch: string -> DetailFetch)
    requires forall t | Pending(db, t) :: exists i | 0 <= i < |backlog| :: backlog[i].token == t
    requires forall i | 0 <= i < |backlog| :: fetch(backlog[i].token).Decoded?
    requires EnrichAll(db, backlog, fetch).error.None?
    ensures forall t :: !Pending(EnrichAll(db, backlog, fetch).db, t)
  {
    EnrichAllFrame(db, backlog, fetch);
    EnrichAllProgress(db, backlog, fetch);
  }
}

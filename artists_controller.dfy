/**
 * The public artist reads (src/controllers/artists.controller.js): the query
 * each handler requests, as a plan over an abstract artist row, and the
 * response it builds from the store's reply.
 */
module ArtistsController {
  import opened Wrappers
  import opened Js
  import opened Store
  import opened Http
  import opened Listing
  import opened LikePattern
  import opened Text

  /** The columns of an artist row the handlers filter and order on. */
  datatype Artist = Artist(name: string, slug: string, status: string, isFeatured: bool)

  /** The filters the handlers conjoin onto an `artists` query. */
  datatype Filter =
    | StatusIs(status: string)
    | FeaturedIs(featured: bool)
    | NameILike(pattern: string)
    | SlugIs(slug: string)

  predicate Holds(f: Filter, a: Artist)
  {
    match f
    case StatusIs(s) => a.status == s
    case FeaturedIs(b) => a.isFeatured == b
    case NameILike(p) => PostgrestILike(a.name, p)
    case SlugIs(s) => a.slug == s
  }

  /** A row is selected when every filter of the plan holds of it. */
  predicate Selects(plan: Request<Filter>, a: Artist)
  {
    forall i :: 0 <= i < |plan.filters| ==> Holds(plan.filters[i], a)
  }

  const FeaturedCap: nat := 4

  /** getFeaturedArtists: active, featured artists, at most four, in no particular order. */
  function FeaturedArtistsRequest(): (plan: Request<Filter>)
    ensures plan.cap == Some(FeaturedCap) && plan.order == [] && plan.range.None?
  {
    Request([StatusIs("active"), FeaturedIs(true)], [], None, Some(FeaturedCap), false, false)
  }

  lemma FeaturedArtistsSelection(a: Artist)
    ensures Selects(FeaturedArtistsRequest(), a) <==> a.status == "active" && a.isFeatured
  {
    var plan := FeaturedArtistsRequest();
    assert Holds(plan.filters[0], a) && Holds(plan.filters[1], a) ==> Selects(plan, a);
  }

  /** A failed query is reported as 500 with its message; otherwise the rows are sent as they are. */
  function GetFeaturedArtists(run: Request<Filter> -> Call<Reply<seq<Artist>>>): (resp: Response<ListBody<Artist>>)
    ensures resp.status == 200 || resp.status == 500
    ensures resp.status == 500 <==> FailureOf(run(FeaturedArtistsRequest())).Some?
    ensures resp.status == 500 ==> resp.body == Error(FailureOf(run(FeaturedArtistsRequest())).value)
    ensures resp.status == 200 ==> resp.body == Rows(run(FeaturedArtistsRequest()).value.data)
  {
    var call := run(FeaturedArtistsRequest());
    match FailureOf(call)
    case Some(m) => Response(500, Error(m))
    case None => Response(200, Rows(call.value.data))
  }

  /**
   * getAllArtists: active artists ordered by name over the requested window,
   * with an exact count, narrowed by `name ILIKE %q%` when q is truthy.
   */
  function AllArtistsRequest(query: map<string, string>): (plan: Request<Filter>)
    ensures |plan.filters| == (if Truthy(query, "q") then 2 else 1) && plan.filters[0] == StatusIs("active")
    ensures Truthy(query, "q") ==> plan.filters[1] == NameILike("%" + query["q"] + "%")
    ensures plan.order == [Order("name", true)] && plan.countExact && plan.cap.None?
    ensures plan.range == Some(Requested(Param(query, "page", DefaultPage), Param(query, "limit", DefaultLimit)))
  {
    var page, limit := Param(query, "page", DefaultPage), Param(query, "limit", DefaultLimit);
    var plan := Request([StatusIs("active")], [Order("name", true)], Some(Requested(page, limit)), None, true, false);
    if Truthy(query, "q") then plan.(filters := plan.filters + [NameILike("%" + query["q"] + "%")]) else plan
  }

  /**
   * The listing selects exactly the active artists whose name contains q,
   * ignoring case, when q is given, and all active artists otherwise.
   */
  lemma AllArtistsSelection(query: map<string, string>, a: Artist)
    requires "q" in query ==> Literal(query["q"])
    ensures Selects(AllArtistsRequest(query), a)
        <==> a.status == "active"
             && (Truthy(query, "q") ==> Contains(LowerAll(a.name), LowerAll(query["q"])))
  {
    var plan := AllArtistsRequest(query);
    if Truthy(query, "q") {
      PostgrestSearch(a.name, query["q"]);
      assert plan.filters[1] == NameILike("%" + query["q"] + "%");
    }
  }

  /** PostgREST reads a `*` in q as `%`: searching for "*" lists every active artist. */
  lemma StarSearchListsEveryActiveArtist(query: map<string, string>, a: Artist)
    requires "q" in query && query["q"] == "*"
    ensures Selects(AllArtistsRequest(query), a) <==> a.status == "active"
  {
    var plan := AllArtistsRequest(query);
    assert plan.filters[1] == NameILike("%" + "*" + "%");
    StarSearchMatchesAnything(a.name);
  }

  /** The search text is not escaped: searching for "_" lists every active artist with a non-empty name. */
  lemma UnderscoreSearchListsEveryActiveArtist(query: map<string, string>, a: Artist)
    requires "q" in query && query["q"] == "_"
    ensures Selects(AllArtistsRequest(query), a) <==> a.status == "active" && a.name != ""
  {
    var plan := AllArtistsRequest(query);
    assert plan.filters[1] == NameILike("%" + "_" + "%");
    UnderscoreSearchMatchesAnything(a.name);
  }

  /** Without page and limit the first ten artists by name are requested. */
  lemma AllArtistsDefaultWindow(query: map<string, string>)
    requires "page" !in query && "limit" !in query
    ensures AllArtistsRequest(query).range == Some(Window(Int(0), Int(9)))
  {
    DefaultWindow();
  }

  function GetAllArtists(query: map<string, string>, run: Request<Filter> -> Call<Reply<seq<Artist>>>)
    : (resp: Response<ListBody<Artist>>)
    ensures var call := run(AllArtistsRequest(query));
      match FailureOf(call)
      case Some(m) => resp == Response(500, Error(m))
      case None =>
        resp.status == 200 && resp.body.Page?
        && resp.body.data == call.value.data && resp.body.count == call.value.count
        && resp.body.page == ParseInt(Param(query, "page", DefaultPage))
        && resp.body.limit == ParseInt(Param(query, "limit", DefaultLimit))
  {
    var call := run(AllArtistsRequest(query));
    match FailureOf(call)
    case Some(m) => Response(500, Error(m))
    case None =>
      var page, limit := Param(query, "page", DefaultPage), Param(query, "limit", DefaultLimit);
      Response(200, Page(call.value.data, call.value.count, ParseInt(page), ParseInt(limit)))
  }

  /** With page and limit absent the response echoes page 1 and limit 10. */
  lemma AllArtistsEchoesDefaults(query: map<string, string>, run: Request<Filter> -> Call<Reply<seq<Artist>>>)
    requires "page" !in query && "limit" !in query
    requires FailureOf(run(AllArtistsRequest(query))).None?
    ensures GetAllArtists(query, run).body.page == Int(1)
    ensures GetAllArtists(query, run).body.limit == Int(10)
  {
  }

  /** getArtistBySlug: the single artist whose slug matches. */
  function ArtistBySlugRequest(slug: string): (plan: Request<Filter>)
    ensures plan.single && plan.filters == [SlugIs(slug)]
  {
    Request([SlugIs(slug)], [], None, None, false, true)
  }

  /** Any error, including `.single()` finding no row, is reported as 500 with its message; there is no 404. */
  function GetArtistBySlug(slug: string, run: Request<Filter> -> Call<Reply<Artist>>): (resp: Response<ListBody<Artist>>)
    ensures resp.status == 200 || resp.status == 500
    ensures resp.status == 500 <==> FailureOf(run(ArtistBySlugRequest(slug))).Some?
    ensures resp.status == 500 ==> resp.body == Error(FailureOf(run(ArtistBySlugRequest(slug))).value)
    ensures resp.status == 200 ==> resp.body == One(run(ArtistBySlugRequest(slug)).value.data)
  {
    var call := run(ArtistBySlugRequest(slug));
    match FailureOf(call)
    case Some(m) => Response(500, Error(m))
    case None => Response(200, One(call.value.data))
  }

  lemma UnknownSlugIsServerError(slug: string, run: Request<Filter> -> Call<Reply<Artist>>, m: string)
    requires run(ArtistBySlugRequest(slug)) == Returned(Reply(None, None, Some(StoreError(m, NoRowsCode))))
    ensures GetArtistBySlug(slug, run) == Response(500, Error(m))
  {
  }
}

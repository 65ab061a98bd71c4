/**
 * The public release reads (src/controllers/releases.controller.js): the query
 * plans over an abstract release row, including the embedded genres, the
 * `.or(...)` search string and the response built from the store's reply.
 */
module ReleasesController {
  import opened Wrappers
  import opened Js
  import opened Store
  import opened Http
  import opened Listing
  import opened LikePattern
  import opened Text
  import opened PostgrestOr

  /** The columns of a release row the handlers use, with the slugs of its joined genres. */
  datatype Release = Release(
    title: string,
    slug: string,
    catalogCode: Option<string>,
    status: string,
    isFeatured: bool,
    releaseDate: string,
    genreSlugs: seq<string>)

  /** The filters the handlers conjoin onto a `releases` query. */
  datatype Filter =
    | StatusIs(status: string)
    | FeaturedIs(featured: bool)
    | AnyOf(conditions: string)
    | GenreSlugIs(slug: string)
    | SlugIs(slug: string)

  /**
   * How the genres are embedded: not at all, as `release_genres(...)`, or as
   * `release_genres!inner(genres!inner(...))`, which keeps only releases with a genre.
   */
  datatype GenreEmbed = NoGenres | Genres | InnerGenres

  datatype ReleaseRequest = ReleaseRequest(genres: GenreEmbed, plan: Request<Filter>)

  /** One `column.ilike.pattern` condition of the search string; a NULL catalog code matches nothing. */
  predicate TermHolds(t: Term, r: Release)
  {
    t.operator == "ilike"
    && ((t.column == "title" && PostgrestILike(r.title, t.operand))
        || (t.column == "catalog_code" && r.catalogCode.Some? && PostgrestILike(r.catalogCode.value, t.operand)))
  }

  /** An `.or(...)` string holds when one of its conditions does; a malformed one selects nothing. */
  predicate AnyOfHolds(conditions: string, r: Release)
  {
    match ParseOr(conditions)
    case None => false
    case Some(terms) => exists i :: 0 <= i < |terms| && TermHolds(terms[i], r)
  }

  predicate Holds(f: Filter, r: Release)
  {
    match f
    case StatusIs(s) => r.status == s
    case FeaturedIs(b) => r.isFeatured == b
    case AnyOf(c) => AnyOfHolds(c, r)
    case GenreSlugIs(g) => g in r.genreSlugs
    case SlugIs(s) => r.slug == s
  }

  predicate Selects(req: ReleaseRequest, r: Release)
  {
    (req.genres == InnerGenres ==> |r.genreSlugs| > 0)
    && forall i :: 0 <= i < |req.plan.filters| ==> Holds(req.plan.filters[i], r)
  }

  const FeaturedCap: nat := 4

  const NewestFirst := Order("release_date", false)

  /** getFeaturedReleases: released, featured releases, newest first, at most four. */
  function FeaturedReleasesRequest(): (req: ReleaseRequest)
    ensures req.plan.cap == Some(FeaturedCap) && req.plan.order == [NewestFirst]
    ensures req.plan.range.None? && req.genres == NoGenres
  {
    ReleaseRequest(NoGenres, Request([StatusIs("released"), FeaturedIs(true)], [NewestFirst], None, Some(FeaturedCap), false, false))
  }

  lemma FeaturedReleasesSelection(r: Release)
    ensures Selects(FeaturedReleasesRequest(), r) <==> r.status == "released" && r.isFeatured
  {
    var plan := FeaturedReleasesRequest().plan;
    assert Holds(plan.filters[0], r) && Holds(plan.filters[1], r) ==> Selects(FeaturedReleasesRequest(), r);
  }

  /** A failed query is reported as 500 with its message; otherwise the rows are sent as they are. */
  function GetFeaturedReleases(run: ReleaseRequest -> Call<Reply<seq<Release>>>): (resp: Response<ListBody<Release>>)
    ensures resp.status == 200 || resp.status == 500
    ensures resp.status == 500 <==> FailureOf(run(FeaturedReleasesRequest())).Some?
    ensures resp.status == 500 ==> resp.body == Error(FailureOf(run(FeaturedReleasesRequest())).value)
    ensures resp.status == 200 ==> resp.body == Rows(run(FeaturedReleasesRequest()).value.data)
  {
    var call := run(FeaturedReleasesRequest());
    match FailureOf(call)
    case Some(m) => Response(500, Error(m))
    case None => Response(200, Rows(call.value.data))
  }

  /** The ILIKE pattern both search conditions use: q anywhere in the column. */
  function SearchPattern(q: string): string
  {
    "%" + q + "%"
  }

  /**
   * The search string: a title match or a catalog-code match on `%q%`. Without a
   * comma or a closing parenthesis in q it reads back as exactly those two
   * conditions; q is not quoted, so a `)` in it makes the string unreadable.
   */
  function SearchConditions(q: string): (conditions: string)
    ensures ',' !in q && ')' !in q ==>
      ParseOr(conditions)
      == Some([Term("title", "ilike", SearchPattern(q)), Term("catalog_code", "ilike", SearchPattern(q))])
    ensures ',' !in q && ')' in q ==> ParseOr(conditions) == None
  {
    var conditions := "title.ilike." + SearchPattern(q) + "," + "catalog_code.ilike." + SearchPattern(q);
    if ',' in q then conditions
    else
      TwoConditionsParse(SearchPattern(q));
      conditions
  }

  lemma TwoConditionsParse(pattern: string)
    requires ',' !in pattern
    ensures ParseOr("title.ilike." + pattern + "," + "catalog_code.ilike." + pattern)
         == if ')' in pattern then None
            else Some([Term("title", "ilike", pattern), Term("catalog_code", "ilike", pattern)])
  {
    var t1 := Term("title", "ilike", pattern);
    var t2 := Term("catalog_code", "ilike", pattern);
    PrintedConditions(pattern);
    assert ',' !in PrintTerm(t1) && ',' !in PrintTerm(t2);
    ParseTwoTerms(t1, t2);
  }

  /** The two search conditions, printed as `column.operator.operand`. */
  lemma PrintedConditions(pattern: string)
    ensures PrintTerm(Term("title", "ilike", pattern)) == "title.ilike." + pattern
    ensures PrintTerm(Term("catalog_code", "ilike", pattern)) == "catalog_code.ilike." + pattern
    ensures "title.ilike." + pattern + "," + "catalog_code.ilike." + pattern
         == PrintTerm(Term("title", "ilike", pattern)) + "," + PrintTerm(Term("catalog_code", "ilike", pattern))
  {
    assert "title" + "." + "ilike" + "." == "title.ilike.";
    assert "catalog_code" + "." + "ilike" + "." == "catalog_code.ilike.";
  }

  /** A comma in q is not quoted, so it splits the search string into more than two conditions. */
  lemma CommaInSearchAddsConditions(q: string)
    requires ',' in q
    ensures |Split(SearchConditions(q), ',')| > 2
  {
    SeparatorCount(SearchConditions(q), ',');
    assert multiset(q)[','] >= 1;
  }

  /**
   * getAllReleases: released releases with at least one genre, newest first,
   * over the requested window with an exact count; narrowed by the search
   * string when q is truthy and by a genre slug when genre is truthy.
   */
  function AllReleasesRequest(query: map<string, string>): (req: ReleaseRequest)
    ensures req.genres == InnerGenres
    ensures |req.plan.filters| == 1 + (if Truthy(query, "q") then 1 else 0) + (if Truthy(query, "genre") then 1 else 0)
    ensures req.plan.filters[0] == StatusIs("released")
    ensures Truthy(query, "q") ==> req.plan.filters[1] == AnyOf(SearchConditions(query["q"]))
    ensures Truthy(query, "genre") ==> req.plan.filters[|req.plan.filters| - 1] == GenreSlugIs(query["genre"])
    ensures req.plan.order == [NewestFirst] && req.plan.countExact && req.plan.cap.None?
    ensures req.plan.range == Some(Requested(Param(query, "page", DefaultPage), Param(query, "limit", DefaultLimit)))
  {
    var page, limit := Param(query, "page", DefaultPage), Param(query, "limit", DefaultLimit);
    var search := if Truthy(query, "q") then [AnyOf(SearchConditions(query["q"]))] else [];
    var genre := if Truthy(query, "genre") then [GenreSlugIs(query["genre"])] else [];
    ReleaseRequest(InnerGenres,
      Request([StatusIs("released")] + search + genre, [NewestFirst], Some(Requested(page, limit)), None, true, false))
  }

  /**
   * For a comma-free q the search holds iff q occurs, ignoring case, in the title
   * or in a non-NULL catalog code, provided q holds no `)`; with one it holds of nothing.
   */
  lemma SearchSelection(q: string, r: Release)
    requires Literal(q) && ',' !in q
    ensures AnyOfHolds(SearchConditions(q), r)
        <==> ')' !in q
             && (Contains(LowerAll(r.title), LowerAll(q))
                 || (r.catalogCode.Some? && Contains(LowerAll(r.catalogCode.value), LowerAll(q))))
  {
    if ')' in q {
      return;
    }
    var terms := [Term("title", "ilike", SearchPattern(q)), Term("catalog_code", "ilike", SearchPattern(q))];
    PostgrestSearch(r.title, q);
    if r.catalogCode.Some? {
      PostgrestSearch(r.catalogCode.value, q);
    }
    assert AnyOfHolds(SearchConditions(q), r) <==> TermHolds(terms[0], r) || TermHolds(terms[1], r);
  }

  /** PostgREST reads a `*` in q as `%`: the search "*" holds of every release. */
  lemma StarSearchMatchesEveryRelease(r: Release)
    ensures AnyOfHolds(SearchConditions("*"), r)
  {
    StarSearchMatchesAnything(r.title);
    TitleMatchSatisfiesSearch("*", r);
  }

  /** A title that matches the search pattern satisfies the search string. */
  lemma TitleMatchSatisfiesSearch(q: string, r: Release)
    requires ',' !in q && ')' !in q && PostgrestILike(r.title, "%" + q + "%")
    ensures AnyOfHolds(SearchConditions(q), r)
  {
    var terms := [Term("title", "ilike", SearchPattern(q)), Term("catalog_code", "ilike", SearchPattern(q))];
    assert TermHolds(terms[0], r);
  }

  /**
   * The listing selects exactly the released releases with at least one genre,
   * whose title or catalog code contains q (ignoring case) when q is given and
   * that carry the given genre slug when genre is given. A q holding `)` makes
   * the search unreadable, and then nothing is listed.
   */
  lemma AllReleasesSelection(query: map<string, string>, r: Release)
    requires "q" in query ==> Literal(query["q"]) && ',' !in query["q"]
    ensures Selects(AllReleasesRequest(query), r)
        <==> r.status == "released" && |r.genreSlugs| > 0
             && (Truthy(query, "q") ==>
                   ')' !in query["q"]
                   && (Contains(LowerAll(r.title), LowerAll(query["q"]))
                       || (r.catalogCode.Some? && Contains(LowerAll(r.catalogCode.value), LowerAll(query["q"])))))
             && (Truthy(query, "genre") ==> query["genre"] in r.genreSlugs)
  {
    var fs := AllReleasesRequest(query).plan.filters;
    var search := if Truthy(query, "q") then [AnyOf(SearchConditions(query["q"]))] else [];
    var genre := if Truthy(query, "genre") then [GenreSlugIs(query["genre"])] else [];
    assert fs == [StatusIs("released")] + search + genre;
    var matchesSearch := Truthy(query, "q") ==> AnyOfHolds(SearchConditions(query["q"]), r);
    var matchesGenre := Truthy(query, "genre") ==> query["genre"] in r.genreSlugs;
    if Truthy(query, "q") {
      SearchSelection(query["q"], r);
    }
    assert (forall i :: 0 <= i < |fs| ==> Holds(fs[i], r))
        <==> r.status == "released" && matchesSearch && matchesGenre by {
      if forall i :: 0 <= i < |fs| ==> Holds(fs[i], r) {
        assert Holds(fs[0], r);
        if Truthy(query, "q") { assert Holds(fs[1], r); }
        if Truthy(query, "genre") { assert Holds(fs[|fs| - 1], r); }
      }
    }
  }

  /** A search for a parenthesised title, "Song (Remix)", does not parse, so no release is listed. */
  lemma ParenthesisSearchListsNothing(query: map<string, string>, r: Release)
    requires "q" in query && query["q"] == "Song (Remix)"
    ensures ParseOr(SearchConditions(query["q"])) == None
    ensures !Selects(AllReleasesRequest(query), r)
  {
    var q := query["q"];
    assert q[11] == ')' && ',' !in q;
    assert AllReleasesRequest(query).plan.filters[1] == AnyOf(SearchConditions(q));
  }

  /**
   * A comma in q is not quoted either. When the text after q's last comma holds no
   * dot, the piece it leaves is not a condition, so the search string does not
   * parse and no release is listed.
   */
  lemma CommaSearchListsNothing(query: map<string, string>, r: Release, a: string, b: string)
    requires "q" in query && query["q"] == a + "," + b
    requires ',' !in b && '.' !in b
    ensures ParseOr(SearchConditions(query["q"])) == None
    ensures !Selects(AllReleasesRequest(query), r)
  {
    var q := query["q"];
    var m := b + "%";
    var x := "title.ilike.%" + a;
    var y := "catalog_code.ilike." + SearchPattern(q);
    assert SearchConditions(q) == x + [','] + m + [','] + y;
    SplitKeepsEnclosed(x, m, y, ',');
    var parts := Split(SearchConditions(q), ',');
    var k :| 0 <= k < |parts[1..]| && parts[1..][k] == m;
    assert parts[k + 1] == m;
    assert '.' !in m;
    ParseTermsMalformed(parts, k + 1);
    assert AllReleasesRequest(query).plan.filters[1] == AnyOf(SearchConditions(q));
  }

  /** An ordinary search with a comma, "Hello, World", lists no release. */
  lemma HelloWorldSearchListsNothing(query: map<string, string>, r: Release)
    requires "q" in query && query["q"] == "Hello, World"
    ensures ParseOr(SearchConditions(query["q"])) == None
    ensures !Selects(AllReleasesRequest(query), r)
  {
    assert "Hello, World" == "Hello" + "," + " World";
    CommaSearchListsNothing(query, r, "Hello", " World");
  }

  /** Because of the inner genre embed, a release without genres is never listed, whatever the query. */
  lemma GenrelessReleaseNeverListed(query: map<string, string>, r: Release)
    requires r.genreSlugs == []
    ensures !Selects(AllReleasesRequest(query), r)
  {
  }

  lemma AllReleasesDefaultWindow(query: map<string, string>)
    requires "page" !in query && "limit" !in query
    ensures AllReleasesRequest(query).plan.range == Some(Window(Int(0), Int(9)))
  {
    DefaultWindow();
  }

  function GetAllReleases(query: map<string, string>, run: ReleaseRequest -> Call<Reply<seq<Release>>>)
    : (resp: Response<ListBody<Release>>)
    ensures var call := run(AllReleasesRequest(query));
      match FailureOf(call)
      case Some(m) => resp == Response(500, Error(m))
      case None =>
        resp.status == 200 && resp.body.Page?
        && resp.body.data == call.value.data && resp.body.count == call.value.count
        && resp.body.page == ParseInt(Param(query, "page", DefaultPage))
        && resp.body.limit == ParseInt(Param(query, "limit", DefaultLimit))
  {
    var call := run(AllReleasesRequest(query));
    match FailureOf(call)
    case Some(m) => Response(500, Error(m))
    case None =>
      var page, limit := Param(query, "page", DefaultPage), Param(query, "limit", DefaultLimit);
      Response(200, Page(call.value.data, call.value.count, ParseInt(page), ParseInt(limit)))
  }

  /** getReleaseBySlug: the single release with this slug, with its artists and (outer-joined) genres. */
  function ReleaseBySlugRequest(slug: string): (req: ReleaseRequest)
    ensures req.plan.single && req.genres == Genres
  {
    ReleaseRequest(Genres, Request([SlugIs(slug)], [], None, None, false, true))
  }

  lemma ReleaseBySlugSelection(slug: string, r: Release)
    ensures Selects(ReleaseBySlugRequest(slug), r) <==> r.slug == slug
  {
    assert ReleaseBySlugRequest(slug).plan.filters[0] == SlugIs(slug);
  }

  /** Any error, including `.single()` finding no row, is reported as 500 with its message; there is no 404. */
  function GetReleaseBySlug(slug: string, run: ReleaseRequest -> Call<Reply<Release>>): (resp: Response<ListBody<Release>>)
    ensures resp.status == 200 || resp.status == 500
    ensures resp.status == 500 <==> FailureOf(run(ReleaseBySlugRequest(slug))).Some?
    ensures resp.status == 500 ==> resp.body == Error(FailureOf(run(ReleaseBySlugRequest(slug))).value)
    ensures resp.status == 200 ==> resp.body == One(run(ReleaseBySlugRequest(slug)).value.data)
  {
    var call := run(ReleaseBySlugRequest(slug));
    match FailureOf(call)
    case Some(m) => Response(500, Error(m))
    case None => Response(200, One(call.value.data))
  }
}

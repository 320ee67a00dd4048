/**
 * The MediaWiki query the page sends, the response payload it gets back, and
 * handleRequestResult's choice between showing an article, following a spelling
 * suggestion and reporting that nothing was found.
 */
module Api {
  import opened Wrappers
  import opened Strings
  import opened Percent
  import Location

  // The query strings are written as their `&`-separated parameters joined by "&": the
  // same strings as the page's literals, in pieces the verifier can take apart.

  const ApiUrl := "https://en.wikipedia.org/w/api.php?"
  /** The introductory extract of one page, in JSON, with page ids indexed. */
  const ApiExtractsQuery := "action=query" + "&" + "prop=extracts" + "&" + "exintro" + "&" + "indexpageids=true" + "&" + "format=json"
  /** The guard timer's delay; a timeout is an explicit event in this model. */
  const RequestTimeoutInMs := 3000
  const RequestCallbackName := "requestCallback"
  const ArticleBase := "https://en.wikipedia.org/wiki/"
  const EditSuffix := "?" + "action=edit" + "&" + "amp;section=0"
  /** The edit suffix with the HTML entity written as the `&` it stands for. */
  const CorrectedEditSuffix := "?" + "action=edit" + "&" + "section=0"
  const NotFoundText := "The search term wasn't found."

  /** The parameters of ApiExtractsQuery, one per `&`-separated piece. */
  const ExtractsParams := ["action=query", "prop=extracts", "exintro", "indexpageids=true", "format=json"]

  /** The query random() sends: a random page of the main namespace. */
  const RandomQuery := ApiExtractsQuery + "&" + "generator=random" + "&" + "grnnamespace=0"

  /** The query search() sends for a term, and handleRequestResult for a suggestion: the term goes in as it is. */
  function SearchQuery(term: string): (q: string)
    ensures |q| >= |ApiExtractsQuery| + |term| && q[..|ApiExtractsQuery|] == ApiExtractsQuery
    ensures q[|q| - |term|..] == term
  {
    SearchBase + term
  }

  /** Everything search() writes before the term. */
  const SearchBase := ApiExtractsQuery + "&" + "generator=search" + "&" + "gsrlimit=1" + "&" + "gsrsearch="

  /** The `src` of the JSONP script tag apiRequest adds for a query string. */
  function ScriptSrc(queryString: string): (src: string)
    ensures |src| == |ApiUrl| + |queryString| + |CallbackParam|
    ensures src[..|ApiUrl|] == ApiUrl && src[|src| - |CallbackParam|..] == CallbackParam
    ensures src[|ApiUrl|..|src| - |CallbackParam|] == queryString
  {
    ApiUrl + queryString + CallbackParam
  }

  /** What apiRequest appends to every query: the JSONP callback parameter. */
  const CallbackParam := "&callback=" + RequestCallbackName

  /** Five `&`-free parameters joined by `&` split back into those five. */
  lemma SplitFive(a: string, b: string, c: string, d: string, e: string)
    requires '&' !in a && '&' !in b && '&' !in c && '&' !in d && '&' !in e
    ensures Split(a + "&" + b + "&" + c + "&" + d + "&" + e, '&') == [a, b, c, d, e]
  {
    SplitNoSeparator(a, '&');
    SplitAppend(a, b);
    SplitAppend(a + "&" + b, c);
    SplitAppend(a + "&" + b + "&" + c, d);
    SplitAppend(a + "&" + b + "&" + c + "&" + d, e);
  }

  /** Appending `&` and an `&`-free `b` adds `b` as the last parameter. */
  lemma SplitAppend(a: string, b: string)
    requires '&' !in b
    ensures Split(a + "&" + b, '&') == Split(a, '&') + [b]
  {
    assert a + "&" + b == a + ['&'] + b;
    SplitAround(a, b, '&');
    SplitNoSeparator(b, '&');
  }

  /** Appending `&`, an `&`-free prefix and then `term` glues the prefix to the term's first piece. */
  lemma SplitAppendPrefixed(a: string, p: string, term: string)
    requires '&' !in p
    ensures Split(a + "&" + p + term, '&') == Split(a, '&') + [p + Split(term, '&')[0]] + Split(term, '&')[1..]
  {
    assert a + "&" + p + term == a + ['&'] + (p + term);
    SplitAround(a, p + term, '&');
    SplitPrefix(p, term, '&');
  }

  lemma ExtractsQueryParams()
    ensures Split(ApiExtractsQuery, '&') == ExtractsParams
  {
    SplitFive("action=query", "prop=extracts", "exintro", "indexpageids=true", "format=json");
  }

  /** The random query is the extracts query plus the random generator in the main namespace. */
  lemma RandomQueryParams()
    ensures Split(RandomQuery, '&') == ExtractsParams + ["generator=random", "grnnamespace=0"]
  {
    var q := ApiExtractsQuery;
    ExtractsQueryParams();
    SplitAppend(q, "generator=random");
    SplitAppend(q + "&" + "generator=random", "grnnamespace=0");
  }

  /**
   * The `&`-pieces of the search query string: those of the extracts query, then
   * `generator=search` and `gsrlimit=1`. The term is neither trimmed nor encoded, so the
   * piece `gsrsearch=` holds only its text up to the first `&`, and every further
   * `&`-piece of the term is a piece of its own.
   */
  lemma SearchQueryParams(term: string)
    ensures Split(SearchQuery(term), '&') ==
      ExtractsParams + ["generator=search", "gsrlimit=1", "gsrsearch=" + Split(term, '&')[0]] + Split(term, '&')[1..]
  {
    ExtractsQueryParams();
    SplitTwoThenPrefixed(ApiExtractsQuery, "generator=search", "gsrlimit=1", "gsrsearch=", term);
  }

  /** Two `&`-free parameters and then an `&`-free prefix glued to `term`, appended to `q`. */
  lemma SplitTwoThenPrefixed(q: string, a: string, b: string, p: string, term: string)
    requires '&' !in a && '&' !in b && '&' !in p
    ensures Split(q + "&" + a + "&" + b + "&" + p + term, '&') ==
      Split(q, '&') + [a, b, p + Split(term, '&')[0]] + Split(term, '&')[1..]
  {
    var q1 := q + "&" + a;
    var q2 := q1 + "&" + b;
    SplitAppend(q, a);
    SplitAppend(q1, b);
    SplitAppendPrefixed(q2, p, term);
  }

  /**
   * The src string starts with the API address; its remaining `&`-pieces are those of the
   * query string followed by `callback=requestCallback`.
   */
  lemma ScriptSrcParams(queryString: string)
    ensures |ScriptSrc(queryString)| >= |ApiUrl| && ScriptSrc(queryString)[..|ApiUrl|] == ApiUrl
    ensures Split(ScriptSrc(queryString)[|ApiUrl|..], '&') == Split(queryString, '&') + ["callback=requestCallback"]
  {
    var src := ScriptSrc(queryString);
    var tail := queryString + "&" + "callback=requestCallback";
    assert src == ApiUrl + tail;
    assert src[|ApiUrl|..] == tail;
    SplitAppend(queryString, "callback=requestCallback");
  }

  /** The query strings the page builds: the random query, or a search for some term. */
  ghost predicate IsPageQuery(queryString: string) {
    queryString == RandomQuery || exists term :: queryString == SearchQuery(term)
  }

  /** Every query string the page builds has at least seven `&`-pieces, the first five those of the extracts query. */
  lemma PageQueryParams(queryString: string)
    requires IsPageQuery(queryString)
    ensures |Split(queryString, '&')| >= 7 && Split(queryString, '&')[..5] == ExtractsParams
  {
    if queryString == RandomQuery {
      RandomQueryParams();
    } else {
      var term :| queryString == SearchQuery(term);
      SearchQueryParams(term);
    }
  }

  /**
   * The part of a URL before its fragment: everything from the first `#` on is the
   * fragment (section 3.5 of RFC 3986), which the browser does not send.
   */
  function BeforeFragment(url: string): (r: string)
    ensures '#' !in r
    ensures |r| <= |url| && r == url[..|r|]
    ensures '#' !in url ==> r == url
    ensures '#' in url ==> |r| < |url| && url[|r|] == '#'
    decreases |url|
  {
    if url == [] then []
    else if url[0] == '#' then []
    else
      assert '#' in url ==> '#' in url[1..];
      [url[0]] + BeforeFragment(url[1..])
  }

  /** A `#`-free prefix is kept whole and the cut happens after it. */
  lemma {:induction false} BeforeFragmentAfterPrefix(a: string, b: string)
    requires '#' !in a
    ensures BeforeFragment(a + b) == a + BeforeFragment(b)
    decreases |a|
  {
    if a == [] {
      assert a + b == b;
    } else {
      assert (a + b)[0] == a[0] != '#' && (a + b)[1..] == a[1..] + b;
      assert '#' !in a[1..];
      BeforeFragmentAfterPrefix(a[1..], b);
      assert BeforeFragment(a + b) == [a[0]] + BeforeFragment(a[1..] + b);
      assert [a[0]] + (a[1..] + BeforeFragment(b)) == a + BeforeFragment(b);
    }
  }

  /** Once `a` holds a `#`, nothing appended after it is sent. */
  lemma {:induction false} BeforeFragmentCutInside(a: string, b: string)
    requires '#' in a
    ensures BeforeFragment(a + b) == BeforeFragment(a)
    decreases |a|
  {
    assert (a + b)[0] == a[0];
    if a[0] != '#' {
      assert (a + b)[1..] == a[1..] + b;
      assert '#' in a[1..];
      BeforeFragmentCutInside(a[1..], b);
    }
  }

  /** None of the fixed parts of a search's src string holds a `#`. */
  lemma FixedPartsHaveNoFragment()
    ensures '#' !in ApiUrl && '#' !in SearchBase && '#' !in CallbackParam
  {
    ApiUrlHasNoFragment();
    ExtractsQueryHasNoFragment();
    assert '#' !in "&" + "generator=search" + "&" + "gsrlimit=1" + "&" + "gsrsearch=";
    assert '#' !in "&callback=" + "requestCallback";
  }

  lemma ApiUrlHasNoFragment()
    ensures '#' !in ApiUrl
  {
  }

  lemma ExtractsQueryHasNoFragment()
    ensures '#' !in ApiExtractsQuery
  {
  }

  lemma Regroup(a: string, b: string, c: string, d: string)
    ensures a + (b + c) + d == (a + b) + (c + d)
    ensures a + (b + c) == (a + b) + c
  {
  }

  /**
   * A search term holding `#` cuts the script's URL: the browser requests only the search
   * for the text before the `#`, and the callback parameter apiRequest appends lies inside
   * the fragment, so the answer is plain JSON that never calls requestCallback.
   */
  lemma FragmentCutsSearchRequest(term: string)
    requires '#' in term
    ensures var src := ScriptSrc(SearchQuery(term));
      && BeforeFragment(src) == ApiUrl + SearchQuery(BeforeFragment(term))
      && src[|BeforeFragment(src)|] == '#'
      && |BeforeFragment(src)| < |src| - |CallbackParam|
      && src[|src| - |CallbackParam|..] == CallbackParam
  {
    var src := ScriptSrc(SearchQuery(term));
    var head := ApiUrl + SearchBase;
    var cut := BeforeFragment(term);
    FixedPartsHaveNoFragment();
    Regroup(ApiUrl, SearchBase, term, CallbackParam);
    assert src == head + (term + CallbackParam);
    BeforeFragmentAfterPrefix(head, term + CallbackParam);
    BeforeFragmentCutInside(term, CallbackParam);
    assert BeforeFragment(src) == head + cut;
    Regroup(ApiUrl, SearchBase, cut, CallbackParam);
    assert src[|head + cut|] == (term + CallbackParam)[|cut|] == term[|cut|];
  }

  /** search() with the term passed through encodeURIComponent, as the article title is. */
  function EncodedSearchQuery(term: string): (q: string)
    ensures |q| >= |Encode(term)|
    ensures var e := q[|q| - |Encode(term)|..]; '#' !in e && '&' !in e && Decode(e) == Some(term)
  {
    DecodeEncode(term);
    NoFragmentOrSeparator(Encode(term));
    SearchQuery(Encode(term))
  }

  /** encodeURIComponent's output holds neither `#` nor `&`. */
  lemma NoFragmentOrSeparator(e: string)
    requires forall i :: 0 <= i < |e| ==> Unescaped(e[i]) || e[i] == '%'
    ensures '#' !in e && '&' !in e
  {
    forall i | 0 <= i < |e| ensures e[i] != '#' && e[i] != '&' {
      assert Unescaped(e[i]) || e[i] == '%';
    }
  }

  /**
   * With the term encoded, the whole src is sent: it holds no `#`, and its `&`-pieces are
   * the search parameters, one `gsrsearch=` piece whose value decodes back to the term, and
   * the callback parameter.
   */
  lemma EncodedSearchKeepsCallback(term: string)
    ensures var src := ScriptSrc(EncodedSearchQuery(term));
      && BeforeFragment(src) == src
      && Split(src[|ApiUrl|..], '&') ==
           ExtractsParams + ["generator=search", "gsrlimit=1", "gsrsearch=" + Encode(term), "callback=requestCallback"]
      && Decode(Encode(term)) == Some(term)
  {
    var e := Encode(term);
    NoFragmentOrSeparator(e);
    EncodedSearchSentWhole(e);
    EncodedSearchParams(e);
    DecodeEncode(term);
  }

  lemma EncodedSearchSentWhole(e: string)
    requires '#' !in e
    ensures BeforeFragment(ScriptSrc(SearchQuery(e))) == ScriptSrc(SearchQuery(e))
  {
    FixedPartsHaveNoFragment();
    Regroup(ApiUrl, SearchBase, e, CallbackParam);
    assert '#' !in (ApiUrl + SearchBase) + (e + CallbackParam);
  }

  lemma EncodedSearchParams(e: string)
    requires '&' !in e
    ensures Split(ScriptSrc(SearchQuery(e))[|ApiUrl|..], '&') ==
      ExtractsParams + ["generator=search", "gsrlimit=1", "gsrsearch=" + e, "callback=requestCallback"]
  {
    SplitNoSeparator(e, '&');
    SearchQueryParams(e);
    ScriptSrcParams(SearchQuery(e));
    var front := ExtractsParams + ["generator=search", "gsrlimit=1", "gsrsearch=" + e];
    assert Split(SearchQuery(e), '&') == front;
  }

  // The response payload: `{ query?: { pageids, pages, searchinfo?: { totalhits, suggestion? } } }`.

  datatype SearchInfo = SearchInfo(totalhits: int, suggestion: Option<string>)
  datatype Article = Article(title: string, extract: string)
  datatype Query = Query(pageids: seq<string>, pages: map<string, Article>, searchinfo: Option<SearchInfo>)
  datatype Payload = Payload(query: Option<Query>)

  /** What renderSearchResult puts on the page for one article. */
  datatype ArticleView = ArticleView(title: string, url: string, editUrl: string, extract: string)

  /** What handleRequestResult does with a payload. */
  datatype Outcome =
    | ShowArticle(view: ArticleView)  // renderSearchResult
    | Redispatch(queryString: string) // apiRequest for the suggestion
    | ShowNotFound                    // renderNotFoundNode
    | ThrowsTypeError                 // renderSearchResult finds no page at pages[pageids[0]]

  /** `pageids[0]` used as a property key: an empty array gives `undefined`, read as "undefined". */
  function FirstPageKey(q: Query): (key: string)
    ensures key in q.pageids || (q.pageids == [] && key == "undefined")
    ensures q.pageids != [] ==> key == q.pageids[0]
  {
    if |q.pageids| > 0 then q.pageids[0] else "undefined"
  }

  /** The page renderSearchResult shows: `pages[pageids[0]]`, if there is one. */
  function ShownArticle(q: Query): (a: Option<Article>)
    ensures a.Some? <==> FirstPageKey(q) in q.pages
    ensures a.Some? ==> a.value in q.pages.Values && a.value == q.pages[FirstPageKey(q)]
  {
    var key := FirstPageKey(q);
    if key in q.pages then Some(q.pages[key]) else None
  }

  /** A character that cannot end a URL path segment or start its query or fragment. */
  predicate InPathSegment(c: char) {
    c != '/' && c != '?' && c != '#' && c != '&' && c != '='
  }

  /** Below any base, encodeURIComponent(title) is one path segment that decodes back to the title. */
  lemma EncodedSegment(base: string, title: string)
    ensures |base + Encode(title)| >= |base| && (base + Encode(title))[..|base|] == base
    ensures Decode((base + Encode(title))[|base|..]) == Some(title)
    ensures forall i :: |base| <= i < |base + Encode(title)| ==> InPathSegment((base + Encode(title))[i])
  {
    var segment := Encode(title);
    var url := base + segment;
    assert url[|base|..] == segment;
    DecodeEncode(title);
    forall i | |base| <= i < |url| ensures InPathSegment(url[i]) {
      assert url[i] == segment[i - |base|];
      assert Unescaped(segment[i - |base|]) || segment[i - |base|] == '%';
    }
  }

  /**
   * The article's address: the wiki base followed by encodeURIComponent(title). The path
   * segment holds no `/`, `?`, `#`, `&` or `=`, and decodes back to the title.
   */
  function ArticleUrl(title: string): (url: string)
    ensures |url| >= |ArticleBase| && url[..|ArticleBase|] == ArticleBase
    ensures Decode(url[|ArticleBase|..]) == Some(title)
    ensures forall i :: |ArticleBase| <= i < |url| ==> InPathSegment(url[i])
  {
    EncodedSegment(ArticleBase, title);
    ArticleBase + Encode(title)
  }

  function ViewOf(a: Article): (v: ArticleView)
    ensures v.title == a.title && v.extract == a.extract
    ensures v.editUrl == v.url + EditSuffix
    ensures |v.url| >= |ArticleBase| && v.url[..|ArticleBase|] == ArticleBase && Decode(v.url[|ArticleBase|..]) == Some(a.title)
  {
    var url := ArticleUrl(a.title);
    ArticleView(a.title, url, url + EditSuffix, a.extract)
  }

  /** There is an article to show: the payload is not a search, or the search found something. */
  predicate HasHits(q: Query) {
    q.searchinfo.None? || q.searchinfo.value.totalhits > 0
  }

  /** handleRequestResult's decision. It has no depth guard on following suggestions. */
  function HandleRequestResult(p: Payload): (o: Outcome)
    ensures o.ShowNotFound? <==>
      p.query.None? || (!HasHits(p.query.value) && p.query.value.searchinfo.value.suggestion.None?)
    ensures o.Redispatch? <==>
      p.query.Some? && !HasHits(p.query.value) && p.query.value.searchinfo.value.suggestion.Some?
    ensures o.Redispatch? ==> o.queryString == SearchQuery(p.query.value.searchinfo.value.suggestion.value)
    ensures o.ShowArticle? || o.ThrowsTypeError? <==> p.query.Some? && HasHits(p.query.value)
    ensures o.ShowArticle? ==> ShownArticle(p.query.value) == Some(Article(o.view.title, o.view.extract))
    ensures o.ShowArticle? ==> o.view.url == ArticleUrl(o.view.title) && o.view.editUrl == o.view.url + EditSuffix
    ensures o.ThrowsTypeError? ==> ShownArticle(p.query.value).None?
  {
    match p.query
    case None => ShowNotFound
    case Some(q) =>
      if HasHits(q) then
        match ShownArticle(q)
        case Some(a) => ShowArticle(ViewOf(a))
        case None => ThrowsTypeError
      else match q.searchinfo.value.suggestion
        case Some(term) => Redispatch(SearchQuery(term))
        case None => ShowNotFound
  }

  /** A random-article payload (no search metadata) never asks for another request. */
  lemma RandomPayloadNeverRedispatches(p: Payload)
    requires p.query.Some? && p.query.value.searchinfo.None?
    ensures HandleRequestResult(p).ShowArticle? || HandleRequestResult(p).ThrowsTypeError?
  {
  }

  /**
   * The edit link keeps the entity `&amp;` as literal text (setAttribute does not decode
   * entities), so its query holds the pairs `action=edit` and `amp;section=0`: read with the
   * same `&` and `=` rules as getQueryVariable, there is no `section` parameter.
   */
  lemma EditLinkHasNoSectionParameter()
    ensures Location.QueryVariable(EditSuffix, "section") == Location.Null
    ensures Location.QueryVariable(EditSuffix, "amp;section") == Location.Value("0")
  {
    var ps := [("action", "edit"), ("amp;section", "0")];
    var first, second := "action" + "=" + "edit", "amp;section" + "=" + "0";
    assert Location.PlainPairs(ps) == [first] + Location.PlainPairs(ps[1..]);
    assert Location.PlainPairs(ps[1..]) == [second];
    assert Join([first, second], '&') == first + "&" + second;
    assert EditSuffix == "?" + (first + "&" + second);
    Location.PlainQueryLookup(ps, "section");
    Location.PlainQueryLookup(ps, "amp;section");
  }

  /** With a plain `&`, the edit link's query does name section 0. */
  lemma CorrectedEditLinkNamesSection()
    ensures Location.QueryVariable(CorrectedEditSuffix, "section") == Location.Value("0")
    ensures Location.QueryVariable(CorrectedEditSuffix, "action") == Location.Value("edit")
  {
    var ps := [("action", "edit"), ("section", "0")];
    var first, second := "action" + "=" + "edit", "section" + "=" + "0";
    assert Location.PlainPairs(ps) == [first] + Location.PlainPairs(ps[1..]);
    assert Location.PlainPairs(ps[1..]) == [second];
    assert Join([first, second], '&') == first + "&" + second;
    assert CorrectedEditSuffix == "?" + (first + "&" + second);
    Location.PlainQueryLookup(ps, "section");
    Location.PlainQueryLookup(ps, "action");
  }
}

/**
 * The page as an event-driven state machine: the global callback slot
 * `window.requestCallback`, the armed guard timers, the JSONP script tags, the content
 * area, the two links and the three elements whose visibility is toggled.
 *
 * Each dispatch d (one call of apiRequest) creates three things that refer to each other:
 * script tag d, guard timer d and callback closure d. Ids are dispatch numbers.
 */
module Page {
  import opened Wrappers
  import opened Strings
  import opened Percent
  import opened Api
  import Location

  /** An element toggleVisibility may act on; Absent when the document has no such element. */
  datatype Element = Absent | Present(visible: bool)

  /** toggleVisibility: shows or hides a present element and ignores a missing one. */
  function ToggleVisibility(e: Element, visibility: bool): (r: Element)
    ensures r.Absent? <==> e.Absent?
    ensures r.Present? ==> r.visible == visibility
  {
    if e.Present? then Present(visibility) else Absent
  }

  /** What the content area holds. */
  datatype Content =
    | Initial                 // the markup's own content, before any request
    | Spinner                 // the loading image apiRequest puts in
    | Extract(html: string)   // the article extract, as opaque HTML
    | NotFoundNode(text: string)

  datatype PageState = PageState(
    input: string,                // the search box's value
    content: Content,
    viewLinkText: Option<string>, // None: as in the markup
    viewLinkHref: Option<string>,
    editLinkHref: Option<string>,
    articleTitle: Element,
    licenseIcon: Element,
    infoIcon: Element,
    callback: Option<nat>,        // the dispatch whose closure is window.requestCallback
    timers: set<nat>,             // dispatches whose guard timer is armed
    scripts: map<nat, string>,    // script tags in <head>: dispatch -> src
    nextId: nat)                  // the next dispatch number

  function InitialState(articleTitle: Element, licenseIcon: Element, infoIcon: Element): PageState {
    PageState("", Initial, None, None, None, articleTitle, licenseIcon, infoIcon, None, {}, map[], 0)
  }

  /** A script src the page can have written: a page query addressed to the API. */
  ghost predicate IsRequestSrc(src: string) {
    exists q :: IsPageQuery(q) && src == ScriptSrc(q)
  }

  /**
   * The invariant every event keeps: an armed timer belongs to a script still in the
   * document; the slot holds the callback of the latest dispatch, whose script is still
   * there; ids are below the counter; every script requests a page query.
   */
  ghost predicate WellFormed(s: PageState) {
    && (forall d :: d in s.timers ==> d in s.scripts)
    && (s.callback.Some? ==> s.callback.value in s.scripts && s.callback.value + 1 == s.nextId)
    && (forall d :: d in s.scripts ==> d < s.nextId && IsRequestSrc(s.scripts[d]))
  }

  /**
   * apiRequest: spinner in the content area, script d added with the query and callback
   * name, guard timer d armed, closure d stored in the global slot.
   */
  function ApiRequestStep(s: PageState, queryString: string): (r: PageState)
    ensures r.content == Spinner && SameLinksAndElements(s, r)
    ensures r.callback == Some(s.nextId) && r.nextId == s.nextId + 1
    ensures r.timers == s.timers + {s.nextId} && r.scripts.Keys == s.scripts.Keys + {s.nextId}
    ensures r.scripts[s.nextId] == ScriptSrc(queryString)
  {
    var d := s.nextId;
    s.(content := Spinner,
       scripts := s.scripts[d := ScriptSrc(queryString)],
       timers := s.timers + {d},
       callback := Some(d),
       nextId := d + 1)
  }

  /** random(): the search box is cleared and a random page requested. */
  function RandomStep(s: PageState): (r: PageState)
    ensures r.input == "" && r.content == Spinner
    ensures r.callback == Some(s.nextId) && s.nextId in r.scripts && r.scripts[s.nextId] == ScriptSrc(RandomQuery)
  {
    ApiRequestStep(s.(input := ""), RandomQuery)
  }

  /**
   * search(): any non-empty value (whitespace included) is searched for; an empty one means
   * random(). Either way the box keeps its value and a fresh request is pending.
   */
  function SearchStep(s: PageState): (r: PageState)
    ensures r.input == s.input && r.content == Spinner
    ensures r.callback == Some(s.nextId) && r.nextId == s.nextId + 1
  {
    if s.input != "" then ApiRequestStep(s, SearchQuery(s.input)) else RandomStep(s)
  }

  /** The callback slot, the timers, the scripts and the dispatch counter are those of `a`. */
  predicate SameRequests(a: PageState, b: PageState) {
    a.callback == b.callback && a.timers == b.timers && a.scripts == b.scripts && a.nextId == b.nextId
  }

  /** renderSearchResult, once the page to show is known: it touches no request state. */
  function RenderSearchResultStep(s: PageState, view: ArticleView): (r: PageState)
    ensures r.content == Extract(view.extract) && r.input == s.input && SameRequests(s, r)
    ensures r.viewLinkText == Some(view.title) && r.viewLinkHref == Some(view.url) && r.editLinkHref == Some(view.editUrl)
    ensures Shown(r.articleTitle) && Shown(r.licenseIcon) && Shown(r.infoIcon)
    ensures r.articleTitle.Present? == s.articleTitle.Present?
    ensures r.licenseIcon.Present? == s.licenseIcon.Present? && r.infoIcon.Present? == s.infoIcon.Present?
  {
    s.(viewLinkText := Some(view.title),
       viewLinkHref := Some(view.url),
       editLinkHref := Some(view.editUrl),
       articleTitle := ToggleVisibility(s.articleTitle, true),
       content := Extract(view.extract),
       licenseIcon := ToggleVisibility(s.licenseIcon, true),
       infoIcon := ToggleVisibility(s.infoIcon, true))
  }

  /** renderNotFoundNode: it touches no request state and leaves the links as they were. */
  function RenderNotFoundStep(s: PageState): (r: PageState)
    ensures r.content == NotFoundNode(NotFoundText) && r.input == s.input && SameRequests(s, r)
    ensures r.viewLinkText == s.viewLinkText && r.viewLinkHref == s.viewLinkHref && r.editLinkHref == s.editLinkHref
    ensures Hidden(r.articleTitle) && Hidden(r.licenseIcon) && Hidden(r.infoIcon)
    ensures r.articleTitle.Present? == s.articleTitle.Present?
    ensures r.licenseIcon.Present? == s.licenseIcon.Present? && r.infoIcon.Present? == s.infoIcon.Present?
  {
    s.(articleTitle := ToggleVisibility(s.articleTitle, false),
       licenseIcon := ToggleVisibility(s.licenseIcon, false),
       infoIcon := ToggleVisibility(s.infoIcon, false),
       content := NotFoundNode(NotFoundText))
  }

  /**
   * handleRequestResult: the new state, and false when it throws a TypeError instead of
   * returning. Only a suggestion starts a request; a throw changes nothing.
   */
  function HandleStep(s: PageState, p: Payload): (r: (PageState, bool))
    ensures r.1 <==> !HandleRequestResult(p).ThrowsTypeError?
    ensures !r.1 ==> r.0 == s
    ensures HandleRequestResult(p).Redispatch? <==> r.0.nextId == s.nextId + 1
    ensures !HandleRequestResult(p).Redispatch? ==> SameRequests(s, r.0)
  {
    match HandleRequestResult(p)
    case ShowArticle(view) => (RenderSearchResultStep(s, view), true)
    case Redispatch(q) => (ApiRequestStep(s, q), true)
    case ShowNotFound => (RenderNotFoundStep(s), true)
    case ThrowsTypeError => (s, false)
  }

  /** onCompleted of dispatch d: whatever callback is in the slot is deleted, and script d removed. */
  function OnCompletedStep(s: PageState, d: nat): (r: PageState)
    ensures r.callback.None? && r.scripts.Keys == s.scripts.Keys - {d} && r.timers == s.timers
    ensures r.content == s.content && SameLinksAndElements(s, r)
  {
    s.(callback := None, scripts := s.scripts - {d})
  }

  /**
   * A JSONP response calls window.requestCallback(payload). An empty slot makes that call
   * throw and nothing changes. Callback d clears timer d, handles the payload and then,
   * unless handling threw, runs onCompleted, which also deletes a callback that handling
   * itself registered: the slot ends empty unless handling threw.
   */
  function ResponseStep(s: PageState, p: Payload): (r: PageState)
    ensures s.callback.None? ==> r == s
    ensures s.callback.Some? ==> (r.nextId == s.nextId + 1 <==> HandleRequestResult(p).Redispatch?)
    ensures s.callback.Some? ==> (r.callback.None? <==> !HandleRequestResult(p).ThrowsTypeError?)
  {
    match s.callback
    case None => s
    case Some(d) =>
      var handled := HandleStep(s.(timers := s.timers - {d}), p);
      if handled.1 then OnCompletedStep(handled.0, d) else handled.0
  }

  /** Guard timer d fires: if still armed, it runs onCompleted of dispatch d. The view never changes. */
  function TimeoutStep(s: PageState, d: nat): (r: PageState)
    ensures r.content == s.content && SameLinksAndElements(s, r)
    ensures d !in r.timers && (d in s.timers ==> r.callback.None? && d !in r.scripts)
  {
    if d in s.timers then OnCompletedStep(s.(timers := s.timers - {d}), d) else s
  }

  /**
   * Setting the value of a text or search input strips line feeds and carriage returns
   * (the value sanitisation of the HTML standard).
   */
  function StripLineBreaks(v: string): (r: string)
    ensures '\n' !in r && '\r' !in r
    ensures |r| <= |v|
    ensures '\n' !in v && '\r' !in v ==> r == v
    ensures multiset(r) == multiset(v)['\n' := 0]['\r' := 0]
    decreases |v|
  {
    if v == [] then []
    else
      assert v == [v[0]] + v[1..];
      assert multiset(v) == multiset([v[0]]) + multiset(v[1..]);
      (if v[0] == '\n' || v[0] == '\r' then [] else [v[0]]) + StripLineBreaks(v[1..])
  }

  /** Stripping works character by character, so it keeps the order of what it keeps. */
  lemma {:induction false} StripLineBreaksConcat(a: string, b: string)
    ensures StripLineBreaks(a + b) == StripLineBreaks(a) + StripLineBreaks(b)
    decreases |a|
  {
    if a == [] {
      assert a + b == b;
    } else {
      var head := if a[0] == '\n' || a[0] == '\r' then [] else [a[0]];
      assert (a + b)[0] == a[0];
      assert (a + b)[1..] == a[1..] + b;
      assert StripLineBreaks(a + b) == head + StripLineBreaks(a[1..] + b);
      assert StripLineBreaks(a) == head + StripLineBreaks(a[1..]);
      StripLineBreaksConcat(a[1..], b);
      Api.Regroup(head, StripLineBreaks(a[1..]), StripLineBreaks(b), []);
    }
  }

  /**
   * window.onload: a `search` URL parameter, once set as the box's value, starts a search;
   * `null`, or a URIError from getQueryVariable, changes nothing.
   */
  function LoadStep(s: PageState, search: string): (r: PageState)
    ensures Location.QueryVariable(search, "search").Value? ==>
      && r.input == StripLineBreaks(Location.QueryVariable(search, "search").value)
      && r.callback == Some(s.nextId) && r.content == Spinner
    ensures !Location.QueryVariable(search, "search").Value? ==> r == s
  {
    match Location.QueryVariable(search, "search")
    case Value(v) => SearchStep(s.(input := StripLineBreaks(v)))
    case _ => s
  }

  /** The page, with the fields apiRequest and the renderers update in place. */
  class App {
    var input: string
    var content: Content
    var viewLinkText: Option<string>
    var viewLinkHref: Option<string>
    var editLinkHref: Option<string>
    var articleTitle: Element
    var licenseIcon: Element
    var infoIcon: Element
    var callback: Option<nat>
    var timers: set<nat>
    var scripts: map<nat, string>
    var nextId: nat

    function State(): PageState
      reads this
    {
      PageState(input, content, viewLinkText, viewLinkHref, editLinkHref,
                articleTitle, licenseIcon, infoIcon, callback, timers, scripts, nextId)
    }

    ghost predicate Valid()
      reads this
    {
      WellFormed(State())
    }

    constructor (articleTitle: Element, licenseIcon: Element, infoIcon: Element)
      ensures Valid()
      ensures State() == InitialState(articleTitle, licenseIcon, infoIcon)
    {
      input := "";
      content := Initial;
      viewLinkText, viewLinkHref, editLinkHref := None, None, None;
      this.articleTitle, this.licenseIcon, this.infoIcon := articleTitle, licenseIcon, infoIcon;
      callback, timers, scripts, nextId := None, {}, map[], 0;
    }

    method ApiRequest(queryString: string)
      modifies this
      ensures State() == ApiRequestStep(old(State()), queryString)
    {
      content := Spinner;
      var d := nextId;
      scripts := scripts[d := ScriptSrc(queryString)];
      timers := timers + {d};
      callback := Some(d);
      nextId := d + 1;
    }

    method Random()
      requires Valid()
      modifies this
      ensures Valid()
      ensures State() == RandomStep(old(State()))
    {
      input := "";
      ApiRequest(RandomQuery);
      ApiRequestKeepsWellFormed(old(State()).(input := ""), RandomQuery);
    }

    method Search()
      requires Valid()
      modifies this
      ensures Valid()
      ensures State() == SearchStep(old(State()))
    {
      var searchTerm := input;
      if searchTerm != "" {
        ApiRequest(SearchQuery(searchTerm));
        ApiRequestKeepsWellFormed(old(State()), SearchQuery(searchTerm));
      } else {
        Random();
      }
    }

    method RenderSearchResult(view: ArticleView)
      modifies this
      ensures State() == RenderSearchResultStep(old(State()), view)
    {
      viewLinkText := Some(view.title);
      viewLinkHref := Some(view.url);
      editLinkHref := Some(view.editUrl);
      articleTitle := ToggleVisibility(articleTitle, true);
      content := Extract(view.extract);
      licenseIcon := ToggleVisibility(licenseIcon, true);
      infoIcon := ToggleVisibility(infoIcon, true);
    }

    method RenderNotFoundNode()
      modifies this
      ensures State() == RenderNotFoundStep(old(State()))
    {
      articleTitle := ToggleVisibility(articleTitle, false);
      licenseIcon := ToggleVisibility(licenseIcon, false);
      infoIcon := ToggleVisibility(infoIcon, false);
      content := NotFoundNode(NotFoundText);
    }

    method HandleRequestResult(p: Payload) returns (returned: bool)
      modifies this
      ensures (State(), returned) == HandleStep(old(State()), p)
    {
      match Api.HandleRequestResult(p)
      case ShowArticle(view) =>
        RenderSearchResult(view);
        returned := true;
      case Redispatch(q) =>
        ApiRequest(q);
        returned := true;
      case ShowNotFound =>
        RenderNotFoundNode();
        returned := true;
      case ThrowsTypeError =>
        returned := false;
    }

    method OnCompleted(d: nat)
      modifies this
      ensures State() == OnCompletedStep(old(State()), d)
    {
      callback := None;
      scripts := scripts - {d};
    }

    /** The JSONP script calls window.requestCallback(payload). */
    method Response(p: Payload)
      requires Valid()
      modifies this
      ensures Valid()
      ensures State() == ResponseStep(old(State()), p)
    {
      if callback.Some? {
        var d := callback.value;
        timers := timers - {d};
        var returned := HandleRequestResult(p);
        if returned {
          OnCompleted(d);
        }
      }
      ResponseKeepsWellFormed(old(State()), p);
    }

    /**
     * The callback with onCompleted moved before handleRequestResult, so that a follow-up
     * request registered while handling the payload keeps its callback.
     */
    method ResponseCompletingFirst(p: Payload)
      requires Valid()
      modifies this
      ensures Valid()
      ensures State() == ReorderedResponseStep(old(State()), p)
    {
      if callback.Some? {
        var d := callback.value;
        timers := timers - {d};
        OnCompleted(d);
        var _ := HandleRequestResult(p);
      }
      ReorderedResponseKeepsWellFormed(old(State()), p);
    }

    /** Guard timer d fires. */
    method TimeoutFires(d: nat)
      requires Valid()
      modifies this
      ensures Valid()
      ensures State() == TimeoutStep(old(State()), d)
    {
      if d in timers {
        timers := timers - {d};
        OnCompleted(d);
      }
    }

    /** window.onload, for a page whose `location.search` is `search`. */
    method Load(search: string)
      requires Valid()
      modifies this
      ensures Valid()
      ensures State() == LoadStep(old(State()), search)
    {
      var queryParam := Location.GetQueryVariable(search, "search");
      if queryParam.Value? {
        input := StripLineBreaks(queryParam.value);
        Search();
      }
    }
  }

  lemma ApiRequestKeepsWellFormed(s: PageState, queryString: string)
    requires WellFormed(s) && IsPageQuery(queryString)
    ensures WellFormed(ApiRequestStep(s, queryString))
  {
    var r := ApiRequestStep(s, queryString);
    assert IsRequestSrc(r.scripts[s.nextId]);
  }

  lemma HandleKeepsWellFormed(s: PageState, p: Payload)
    requires WellFormed(s)
    ensures WellFormed(HandleStep(s, p).0)
  {
    if HandleRequestResult(p).Redispatch? {
      ApiRequestKeepsWellFormed(s, HandleRequestResult(p).queryString);
    }
  }

  lemma OnCompletedKeepsWellFormed(s: PageState, d: nat)
    requires WellFormed(s) && d !in s.timers
    ensures WellFormed(OnCompletedStep(s, d))
  {
  }

  lemma ResponseKeepsWellFormed(s: PageState, p: Payload)
    requires WellFormed(s)
    ensures WellFormed(ResponseStep(s, p))
  {
    if s.callback.Some? {
      var d := s.callback.value;
      var cleared := s.(timers := s.timers - {d});
      HandleKeepsWellFormed(cleared, p);
      var (handled, returned) := HandleStep(cleared, p);
      assert ResponseStep(s, p) == if returned then OnCompletedStep(handled, d) else handled;
      if returned {
        assert d < cleared.nextId && handled.timers <= cleared.timers + {cleared.nextId};
        OnCompletedKeepsWellFormed(handled, d);
      }
    }
  }

  /** The links, the three toggled elements and the search box are those of `a`. */
  predicate SameLinksAndElements(a: PageState, b: PageState) {
    && a.input == b.input
    && a.viewLinkText == b.viewLinkText && a.viewLinkHref == b.viewLinkHref && a.editLinkHref == b.editLinkHref
    && a.articleTitle == b.articleTitle && a.licenseIcon == b.licenseIcon && a.infoIcon == b.infoIcon
  }

  /** The element is shown, if the document has it. */
  predicate Shown(e: Element) {
    e.Present? ==> e.visible
  }

  /** The element is hidden, if the document has it. */
  predicate Hidden(e: Element) {
    e.Present? ==> !e.visible
  }

  /**
   * A dispatch shows the spinner, adds a script for a fresh id addressed to the API whose
   * parameters are the query's followed by the callback name, arms that id's timer and
   * replaces the slot's callback with the new one; earlier scripts and timers stay.
   */
  lemma DispatchRegistersFreshRequest(s: PageState, queryString: string)
    requires WellFormed(s)
    ensures var r := ApiRequestStep(s, queryString);
      && s.nextId !in s.scripts && s.nextId !in s.timers
      && r.content == Spinner && SameLinksAndElements(s, r)
      && r.callback == Some(s.nextId) && r.callback != s.callback
      && r.timers == s.timers + {s.nextId}
      && r.scripts.Keys == s.scripts.Keys + {s.nextId}
      && (forall d :: d in s.scripts ==> r.scripts[d] == s.scripts[d])
      && |r.scripts[s.nextId]| >= |ApiUrl| && r.scripts[s.nextId][..|ApiUrl|] == ApiUrl
      && Split(r.scripts[s.nextId][|ApiUrl|..], '&') == Split(queryString, '&') + ["callback=requestCallback"]
  {
    ScriptSrcParams(queryString);
  }

  /**
   * The src string is the API address followed by `&`-pieces that start with the five
   * parameters of the extracts query and end with `callback=requestCallback`. This is a
   * statement about the string, not about how a browser or the server parses it.
   */
  predicate RequestsExtracts(src: string) {
    && |src| >= |ApiUrl| && src[..|ApiUrl|] == ApiUrl
    && var params := Split(src[|ApiUrl|..], '&');
    && |params| >= 8 && params[..5] == ExtractsParams && params[|params| - 1] == "callback=requestCallback"
  }

  /** Every src string the page writes has that shape. */
  lemma RequestSrcParams(src: string)
    requires IsRequestSrc(src)
    ensures RequestsExtracts(src)
  {
    var q :| IsPageQuery(q) && src == ScriptSrc(q);
    ScriptSrcParams(q);
    PageQueryParams(q);
  }

  /** The src string of every script still in the document has that shape. */
  lemma ScriptsRequestExtracts(s: PageState)
    requires WellFormed(s)
    ensures forall d :: d in s.scripts ==> RequestsExtracts(s.scripts[d])
  {
    forall d | d in s.scripts
      ensures RequestsExtracts(s.scripts[d])
    {
      RequestSrcParams(s.scripts[d]);
    }
  }

  /**
   * search() with an empty box clears it and dispatches the random query; any other value,
   * whitespace included, is put into the src string raw, so that its text up to the first
   * `&` is the `gsrsearch=` piece.
   */
  lemma SearchDispatch(s: PageState)
    requires WellFormed(s)
    ensures var r := SearchStep(s);
      && r.callback == Some(s.nextId) && r.content == Spinner
      && (s.input == "" ==> r.input == "" && r.scripts[s.nextId] == ScriptSrc(RandomQuery))
      && (s.input != "" ==> r.input == s.input && r.scripts[s.nextId] == ScriptSrc(SearchQuery(s.input)))
      && RequestsExtracts(r.scripts[s.nextId])
      && (s.input != "" ==> Split(r.scripts[s.nextId][|ApiUrl|..], '&')[7] == "gsrsearch=" + Split(s.input, '&')[0])
  {
    if s.input == "" {
      assert SearchStep(s) == ApiRequestStep(s, RandomQuery);
      assert IsRequestSrc(ScriptSrc(RandomQuery));
      RequestSrcParams(ScriptSrc(RandomQuery));
    } else {
      SearchSrcParams(s.input);
    }
  }

  /** The src string for a search: the extracts shape, with the raw term in the `gsrsearch=` piece. */
  lemma SearchSrcParams(term: string)
    ensures RequestsExtracts(ScriptSrc(SearchQuery(term)))
    ensures Split(ScriptSrc(SearchQuery(term))[|ApiUrl|..], '&')[7] == "gsrsearch=" + Split(term, '&')[0]
  {
    var q := SearchQuery(term);
    var src := ScriptSrc(q);
    assert IsRequestSrc(src);
    RequestSrcParams(src);
    var ps := Split(q, '&');
    SearchQueryParams(term);
    assert ps[7] == "gsrsearch=" + Split(term, '&')[0] by {
      GsrsearchPiece(ExtractsParams, "generator=search", "gsrlimit=1", "gsrsearch=" + Split(term, '&')[0], Split(term, '&')[1..]);
    }
    ScriptSrcParams(q);
    assert Split(src[|ApiUrl|..], '&') == ps + ["callback=requestCallback"];
  }

  /** The eighth piece after five fixed ones and two more is the third appended one. */
  lemma GsrsearchPiece(base: seq<string>, a: string, b: string, c: string, rest: seq<string>)
    requires |base| == 5
    ensures (base + [a, b, c] + rest)[7] == c
  {
  }

  /**
   * A guard timer that is still armed disarms itself, removes its own script and empties
   * the slot, whichever dispatch the slot's callback belongs to; the content, links and
   * elements stay as they are. A timer already cleared changes nothing.
   */
  lemma TimeoutOnlyUnregisters(s: PageState, d: nat)
    requires WellFormed(s)
    ensures var r := TimeoutStep(s, d);
      && r.content == s.content && SameLinksAndElements(s, r) && r.nextId == s.nextId
      && (d in s.timers ==>
            r.callback.None? && r.timers == s.timers - {d} && r.scripts == s.scripts - {d})
      && (d !in s.timers ==> r == s)
  {
  }

  /**
   * What a response does when the slot holds callback d: an article is rendered with its
   * links and the three elements shown; a payload with neither hits nor a suggestion is
   * reported as not found with the elements hidden; a suggestion starts a new dispatch
   * whose callback onCompleted then deletes; a missing page throws before onCompleted,
   * leaving script d and callback d in place with only timer d cleared.
   */
  lemma ResponseOutcomes(s: PageState, p: Payload)
    requires WellFormed(s) && s.callback.Some?
    ensures var d := s.callback.value; var r := ResponseStep(s, p);
      match HandleRequestResult(p)
      case ShowArticle(view) =>
        && r.content == Extract(view.extract)
        && r.viewLinkText == Some(view.title) && r.viewLinkHref == Some(ArticleUrl(view.title))
        && r.editLinkHref == Some(ArticleUrl(view.title) + EditSuffix)
        && Shown(r.articleTitle) && Shown(r.licenseIcon) && Shown(r.infoIcon)
        && r.callback.None? && r.scripts == s.scripts - {d} && r.timers == s.timers - {d}
      case ShowNotFound =>
        && r.content == NotFoundNode(NotFoundText)
        && Hidden(r.articleTitle) && Hidden(r.licenseIcon) && Hidden(r.infoIcon)
        && r.viewLinkHref == s.viewLinkHref && r.editLinkHref == s.editLinkHref
        && r.callback.None? && r.scripts == s.scripts - {d} && r.timers == s.timers - {d}
      case Redispatch(q) =>
        && r.content == Spinner && SameLinksAndElements(s, r)
        && r.callback.None? && d !in r.scripts && d !in r.timers
        && s.nextId in r.scripts && r.scripts[s.nextId] == ScriptSrc(q) && s.nextId in r.timers
      case ThrowsTypeError =>
        r == s.(timers := s.timers - {d})
  {
  }

  /** What the network can do to the page: a JSONP response arrives, or a guard timer fires. */
  datatype NetworkEvent = Respond(payload: Payload) | Fire(dispatch: nat)

  function NetworkStep(s: PageState, e: NetworkEvent): PageState {
    match e
    case Respond(p) => ResponseStep(s, p)
    case Fire(d) => TimeoutStep(s, d)
  }

  /** The page after a sequence of network events, with no user action in between. */
  function Run(s: PageState, events: seq<NetworkEvent>): PageState
    decreases |events|
  {
    if events == [] then s else Run(NetworkStep(s, events[0]), events[1..])
  }

  /**
   * With the slot empty, no response and no timer can change what the page shows: every
   * response calls an undefined callback, and a timer only removes its own script.
   */
  lemma {:induction false} NetworkEventsCannotRender(s: PageState, events: seq<NetworkEvent>)
    requires s.callback.None?
    ensures var r := Run(s, events);
      && r.content == s.content && SameLinksAndElements(s, r)
      && r.callback.None? && r.nextId == s.nextId && r.scripts.Keys <= s.scripts.Keys
    decreases |events|
  {
    if events != [] {
      var next := NetworkStep(s, events[0]);
      NetworkEventsCannotRender(next, events[1..]);
    }
  }

  /**
   * As written, following a spelling suggestion never shows anything: the follow-up
   * request is sent, but onCompleted deletes its callback before the response can arrive,
   * so whatever the network does next, the spinner stays.
   */
  lemma SuggestionDropped(s: PageState, p: Payload, events: seq<NetworkEvent>)
    requires WellFormed(s) && s.callback.Some? && HandleRequestResult(p).Redispatch?
    ensures var r := ResponseStep(s, p);
      && r.scripts[s.nextId] == ScriptSrc(HandleRequestResult(p).queryString)
      && r.callback.None?
      && Run(r, events).content == Spinner
  {
    ResponseOutcomes(s, p);
    NetworkEventsCannotRender(ResponseStep(s, p), events);
  }

  /** The callback with onCompleted run before the payload is handled. */
  function ReorderedResponseStep(s: PageState, p: Payload): (r: PageState)
    ensures s.callback.None? ==> r == s
    ensures s.callback.Some? ==> (r.callback.Some? <==> HandleRequestResult(p).Redispatch?)
    ensures s.callback.Some? ==> s.callback.value !in r.timers || HandleRequestResult(p).Redispatch?
  {
    match s.callback
    case None => s
    case Some(d) => HandleStep(OnCompletedStep(s.(timers := s.timers - {d}), d), p).0
  }

  lemma ReorderedResponseKeepsWellFormed(s: PageState, p: Payload)
    requires WellFormed(s)
    ensures WellFormed(ReorderedResponseStep(s, p))
  {
    if s.callback.Some? {
      var d := s.callback.value;
      var completed := OnCompletedStep(s.(timers := s.timers - {d}), d);
      OnCompletedKeepsWellFormed(s.(timers := s.timers - {d}), d);
      HandleKeepsWellFormed(completed, p);
    }
  }

  /**
   * Reordering changes only what happens after a suggestion and after a missing page: for
   * an article or a not-found report both orders end in the same state.
   */
  lemma ReorderingKeepsRendering(s: PageState, p: Payload)
    requires WellFormed(s)
    requires HandleRequestResult(p).ShowArticle? || HandleRequestResult(p).ShowNotFound?
    ensures ReorderedResponseStep(s, p) == ResponseStep(s, p)
  {
  }

  /** With onCompleted run first, a suggestion leaves the follow-up request's callback in the slot. */
  lemma ReorderedSuggestionStep(s: PageState, p: Payload)
    requires WellFormed(s) && s.callback.Some? && HandleRequestResult(p).Redispatch?
    ensures var r := ReorderedResponseStep(s, p);
      && WellFormed(r) && r.nextId == s.nextId + 1 && r.callback == Some(s.nextId) && r.content == Spinner
      && r.scripts[s.nextId] == ScriptSrc(HandleRequestResult(p).queryString)
      && s.callback.value !in r.scripts
  {
    ReorderedResponseKeepsWellFormed(s, p);
  }

  /**
   * With onCompleted run first, the follow-up request of a suggestion keeps its callback
   * in the slot, and its response renders the article.
   */
  lemma ReorderedSuggestionRenders(s: PageState, p: Payload, next: Payload)
    requires WellFormed(s) && s.callback.Some?
    requires HandleRequestResult(p).Redispatch? && HandleRequestResult(next).ShowArticle?
    ensures var r := ReorderedResponseStep(s, p);
      && WellFormed(r)
      && r.callback == Some(s.nextId) && r.content == Spinner
      && r.scripts[s.nextId] == ScriptSrc(HandleRequestResult(p).queryString)
      && s.callback.value !in r.scripts
      && ReorderedResponseStep(r, next).content == Extract(HandleRequestResult(next).view.extract)
      && ReorderedResponseStep(r, next).callback.None?
  {
    ReorderedSuggestionStep(s, p);
  }

  /** Responses delivered in order, each to whatever callback is in the slot. */
  function RunReordered(s: PageState, payloads: seq<Payload>): PageState
    decreases |payloads|
  {
    if payloads == [] then s else RunReordered(ReorderedResponseStep(s, payloads[0]), payloads[1..])
  }

  /** Whatever the slot held, a suggestion handled with onCompleted first leaves the follow-up's callback there. */
  lemma ReorderedSuggestionAdvances(s: PageState, p: Payload)
    requires s.callback.Some? && HandleRequestResult(p).Redispatch?
    ensures var r := ReorderedResponseStep(s, p);
      r.nextId == s.nextId + 1 && r.callback == Some(s.nextId) && r.content == Spinner
  {
  }

  /**
   * In the corrected order, suggestions are followed with no bound on their number: after
   * any chain of them a request for the last one is pending with its callback in the slot.
   */
  lemma {:induction false} ReorderedFollowsEverySuggestion(s: PageState, payloads: seq<Payload>)
    requires s.callback.Some?
    requires forall i :: 0 <= i < |payloads| ==> HandleRequestResult(payloads[i]).Redispatch?
    ensures var r := RunReordered(s, payloads);
      && r.nextId == s.nextId + |payloads| && r.callback.Some?
      && (|payloads| > 0 ==> r.callback == Some(r.nextId - 1) && r.content == Spinner)
    decreases |payloads|
  {
    if payloads != [] {
      var next := ReorderedResponseStep(s, payloads[0]);
      ReorderedSuggestionAdvances(s, payloads[0]);
      ReorderedFollowsEverySuggestion(next, payloads[1..]);
    }
  }

  /**
   * Two dispatches in a row share the one slot: when the first one's timer fires, it
   * deletes the second one's callback, so the second response can no longer be shown
   * although its script and timer are still there.
   */
  lemma EarlierTimerDropsLaterCallback(s: PageState, first: string, second: string, p: Payload)
    requires WellFormed(s)
    ensures var s2 := ApiRequestStep(ApiRequestStep(s, first), second);
      var r := TimeoutStep(s2, s.nextId);
      && s2.callback == Some(s.nextId + 1)
      && r.callback.None? && s.nextId + 1 in r.scripts && s.nextId + 1 in r.timers
      && ResponseStep(r, p) == r
  {
  }

  /**
   * Two dispatches in a row: the first response to arrive, even the first request's, is
   * handled by the second callback, which clears the second timer and removes the second
   * script; the first request's timer and script stay, and the other response is ignored.
   */
  lemma StaleResponseRendered(s: PageState, first: string, second: string, p: Payload, later: Payload)
    requires WellFormed(s) && HandleRequestResult(p).ShowArticle?
    ensures var s2 := ApiRequestStep(ApiRequestStep(s, first), second);
      var r := ResponseStep(s2, p);
      && r.content == Extract(HandleRequestResult(p).view.extract)
      && s.nextId in r.scripts && s.nextId in r.timers
      && s.nextId + 1 !in r.scripts && s.nextId + 1 !in r.timers
      && ResponseStep(r, later) == r
  {
  }

  /**
   * A page opened from a search link `?search=<encodeURIComponent(term)>` searches for the
   * term, with any line breaks removed by the search box; a term without them is searched
   * for exactly.
   */
  lemma DeepLinkSearches(s: PageState, term: string)
    ensures LoadStep(s, "?search=" + Encode(term)) == SearchStep(s.(input := StripLineBreaks(term)))
    ensures term != "" && '\n' !in term && '\r' !in term ==>
      LoadStep(s, "?search=" + Encode(term)) == ApiRequestStep(s.(input := term), SearchQuery(term))
  {
    Location.SearchLinkRoundTrip(term);
  }

  /** A `search` parameter whose value has no line breaks is searched for as it is. */
  lemma LoadSearchesValue(s: PageState, search: string, v: string)
    requires Location.QueryVariable(search, "search") == Location.Value(v)
    requires '\n' !in v && '\r' !in v
    ensures LoadStep(s, search) == SearchStep(s.(input := v))
    ensures v != "" ==> LoadStep(s, search) == ApiRequestStep(s.(input := v), SearchQuery(v))
  {
  }

  /** The text "undefined" is non-empty and has no line breaks. */
  lemma UndefinedHasNoLineBreaks()
    ensures "undefined" != "" && '\n' !in "undefined" && '\r' !in "undefined"
  {
  }

  /** A bare `?search` with no `=` reads as the string "undefined", which is then searched for. */
  lemma BareSearchParameterSearchesUndefined(s: PageState)
    ensures LoadStep(s, "?search") == ApiRequestStep(s.(input := "undefined"), SearchQuery("undefined"))
  {
    UndefinedHasNoLineBreaks();
    Location.MissingValueReadsUndefined();
    LoadSearchesValue(s, "?search", "undefined");
  }

  /** Without a `search` parameter, or with one getQueryVariable throws on, loading changes nothing. */
  lemma LoadWithoutSearchChangesNothing(s: PageState, search: string)
    requires !Location.QueryVariable(search, "search").Value?
    ensures LoadStep(s, search) == s
  {
  }
}

# Primerpedia in Dafny

Primerpedia is a one-page web client that shows the introduction of a Wikipedia article.
The user can ask for a random article or search for a term. The page sends one MediaWiki
`action=query&prop=extracts` request by JSONP and shows the first hit. If there is no hit
it follows the API's spelling suggestion, and if there is no suggestion it says that
nothing was found. A `?search=` parameter in the page URL starts a search on load.

This project models the logic of `primerpedia.js` and proves properties of it:

- `strings.dfy` (module `Strings`): JavaScript's `split` for one separator character, and
  `join`.
- `percent.dfy` (module `Percent`): `encodeURIComponent` and `decodeURIComponent`. They are
  modelled as percent-encoding over UTF-8 octets (section 2.1 of RFC 3986, RFC 3629). A
  decoding failure (URIError) is `None`.
- `location.dfy` (module `Location`): `getQueryVariable`. It is written twice: as the
  source's loop with an early return (`GetQueryVariable`), and as the recursive function
  `QueryVariable` that the loop is proved against.
- `api.dfy` (module `Api`): the request constants, the query strings that `random()` and
  `search()` build, the response payload, and `handleRequestResult`'s decision. It also
  holds the article and edit URLs that `renderSearchResult` derives.
- `page.dfy` (module `Page`): the page as a state machine.
  - The state is the search box, the content area, the view and edit links, the three
    toggled elements, the global callback slot `window.requestCallback`, the armed guard
    timers and the JSONP script tags.
  - Each event is a pure step function over `PageState`.
  - The class `App` holds the same state in mutable fields. Each of its methods is proved
    to move from `State()` to the step function of the old state.
  - Dispatch number `d` names the script, the guard timer and the callback closure that
    the `d`-th call of `apiRequest` creates.
  - Network activity is an explicit event: a response arrives (`Response`), or a guard
    timer fires (`TimeoutFires`).

Where the code and its documentation disagree, the model follows the code:

- The search term is sent as typed. It is neither trimmed nor encoded, and a term made only
  of whitespace is searched for, because only `""` is falsy. A `#` in it cuts the request
  short (see Findings).
- `handleRequestResult` has no depth guard on following spelling suggestions. As written,
  though, the follow-up request is dropped (see Findings).
- A response is handled by whichever callback is in the slot at that moment. That callback
  belongs to the latest request, even when the response answers an older one.
- The guard timer of an earlier request deletes the callback of a later one.
- The edit link is built with `&amp;` inside a JavaScript string and set with
  `setAttribute`, so the `&amp;` is kept literally. The link has no `section=0` parameter
  and opens the whole article for editing (see Findings).
- Setting the search box's value strips carriage returns and line feeds, so a `search` URL
  parameter holding them is searched for without them.

## Model

| member | source | states |
|---|---|---|
| Strings.Split | primerpedia.js:152 | `split` always returns at least one piece, and no piece contains the separator |
| Strings.JoinSplit | primerpedia.js:152 | joining the pieces of `split` with the separator gives back the original string |
| Strings.SplitJoin | primerpedia.js:152 | splitting a join of separator-free pieces gives back those pieces |
| Strings.SplitNoSeparator | primerpedia.js:155 | a string without the separator is a single piece |
| Strings.SplitAround | primerpedia.js:152 | splitting `a + sep + b` is splitting `a` followed by splitting `b` |
| Strings.SplitPrefix | primerpedia.js:43 | a separator-free prefix is glued onto the first piece of what follows it |
| Percent.HexDigit | primerpedia.js:98 | an escape's hexadecimal digits are characters that are never escaped |
| Percent.HexValue | primerpedia.js:158 | a character reads as a hexadecimal digit exactly when it is `0`-`9`, `A`-`F` or `a`-`f`, and the value read is below 16 |
| Percent.HexRoundTrip | primerpedia.js:158 | every digit written by an escape reads back as its value |
| Percent.EscapeAll | primerpedia.js:98 | escaping n octets gives 3n characters, each a `%` or a character that is never escaped |
| Percent.Utf8 | primerpedia.js:98 | a character is encoded as 1 to 4 UTF-8 octets |
| Percent.OctetAt | primerpedia.js:158 | an octet is read only from a `%` followed by at least two more characters |
| Percent.OctetsAt | primerpedia.js:158 | reading n escaped octets yields n octets and needs at least 3n characters |
| Percent.Utf8Decode | primerpedia.js:158 | a multi-octet sequence decodes only to a character from U+0080 on, and only when its lead octet announces exactly that many octets |
| Percent.Decode | primerpedia.js:157-158 | when `decodeURIComponent` succeeds, its result is no longer than its input |
| Percent.Encode | primerpedia.js:98 | `encodeURIComponent` output holds only characters `encodeURIComponent` leaves unescaped, and `%` |
| Percent.EncodePlain | primerpedia.js:98 | text made only of characters `encodeURIComponent` leaves unescaped encodes to itself |
| Percent.DecodePlain | primerpedia.js:157-158 | text without `%` decodes to itself |
| Percent.OctetAtEscape | primerpedia.js:158 | an escape `%XY` reads back as its octet |
| Percent.OctetsAtEscaped | primerpedia.js:158 | a run of escapes reads back as its octets |
| Percent.Utf8RoundTrip | primerpedia.js:98 | a character's multi-octet UTF-8 form starts with the right lead octet and decodes back to the character |
| Percent.Utf8TwoOctets | primerpedia.js:98 | the same, for characters from U+0080 to U+07FF |
| Percent.Utf8ThreeOctets | primerpedia.js:98 | the same, for characters from U+0800 to U+FFFF |
| Percent.Utf8FourOctets | primerpedia.js:98 | the same, for characters from U+10000 |
| Percent.DecodeAsciiEscape | primerpedia.js:158 | an escaped octet below 0x80 decodes to that character and decoding goes on after it |
| Percent.DecodeSequenceEscape | primerpedia.js:158 | an escaped well-formed UTF-8 sequence decodes to its character and decoding goes on after it |
| Percent.DecodeEncodedChar | primerpedia.js:98 | one encoded character, followed by anything, decodes to that character followed by the rest |
| Percent.DecodeEscapedAscii | primerpedia.js:98 | the same, for an escaped ASCII character |
| Percent.DecodeEscapedSequence | primerpedia.js:98 | the same, for a character outside ASCII |
| Percent.DecodeEncode | primerpedia.js:98 | `decodeURIComponent(encodeURIComponent(s))` is `s`, for every string |
| Location.GetQueryVariable | primerpedia.js:148-162 | the loop returns what `QueryVariable` specifies: the first decisive pair's value, a URIError, or `null` |
| Location.QueryVariable | primerpedia.js:148-162 | an empty query (`""` or `"?"`) holds no non-empty parameter, so the result is `null` |
| Location.NameOf | primerpedia.js:155-157 | the name part of a pair, up to its first `=`, decodes to itself when it holds no `%` |
| Location.ValueOf | primerpedia.js:158 | a matched pair never gives `null`: its value decodes or decoding throws |
| Location.LookupPairs | primerpedia.js:154-161 | a value comes from some pair whose decoded name is the parameter; a URIError comes from some pair whose name or value fails to decode |
| Location.LookupAt | primerpedia.js:154-159 | one turn of the loop: the pair at `i` either decides the result or is passed over |
| Location.FirstMatchDecides | primerpedia.js:154-159 | the first pair whose decoded name equals the parameter decides the result, with its decoded `pair[1]` |
| Location.BadNameThrows | primerpedia.js:157 | a name that fails to decode before any match makes the lookup throw |
| Location.NullIffNoMatch | primerpedia.js:154-161 | the result is `null` exactly when every name decodes and none equals the parameter |
| Location.LaterPairsIgnored | primerpedia.js:154-159 | pairs after the deciding one never change the result, so later duplicates are ignored |
| Location.EncodePairs | primerpedia.js:152 | each encoded `name=value` pair is one `&`-free piece |
| Location.EncodedPairSplits | primerpedia.js:155-158 | an encoded pair splits on `=` into its two sides, which decode to the name and the value |
| Location.LookupEncodedPairs | primerpedia.js:154-161 | looking up encoded pairs gives the value of the first pair with that name, or `null` |
| Location.EncodedQueryRoundTrip | primerpedia.js:148-162 | a query built from encoded pairs is read back pair by pair, the first match winning |
| Location.PlainPairs | primerpedia.js:152 | each plain `name=value` pair is one `&`-free piece |
| Location.LookupPlainPairs | primerpedia.js:154-161 | pairs with no `%`, `&` or `=` are read back as written |
| Location.PlainQueryLookup | primerpedia.js:148-162 | a query of plain pairs gives the value of the first pair with that name, or `null` |
| Location.ParameterLinkRoundTrip | primerpedia.js:148-162 | `?name=` followed by the encoded term gives the term back, for a name that is not escaped |
| Location.SearchLinkRoundTrip | primerpedia.js:174 | a link `?search=` followed by the encoded term hands the term back |
| Location.MissingValueReadsUndefined | primerpedia.js:155-158 | `?search` with no `=` gives the string "undefined", because `pair[1]` is undefined |
| Location.BareNameReadsUndefined | primerpedia.js:155-158 | `?name` with no `=`, for a plain name, gives the string "undefined" for that name |
| Location.ValueStopsAtSecondEquals | primerpedia.js:155-158 | only the text between the first and the second `=` of the pair is returned |
| Api.SplitFive | primerpedia.js:23 | five `&`-free parameters joined by `&` split back into those five |
| Api.SplitAppend | primerpedia.js:37 | appending `&` and an `&`-free parameter adds that parameter at the end |
| Api.SplitAppendPrefixed | primerpedia.js:43 | appending `&`, a fixed prefix and a term glues the prefix onto the term's first `&`-piece |
| Api.SplitTwoThenPrefixed | primerpedia.js:43 | two parameters and then a prefixed term, appended to a query, split as expected |
| Api.SearchQuery | primerpedia.js:43 | the search query string starts with the extracts query and ends with the term exactly as given |
| Api.ScriptSrc | primerpedia.js:54 | the src string is the API address, then the query string unchanged, then `&callback=requestCallback` |
| Api.ExtractsQueryParams | primerpedia.js:23 | the `&`-pieces of the extracts query are `action=query`, `prop=extracts`, `exintro`, `indexpageids=true`, `format=json` |
| Api.RandomQueryParams | primerpedia.js:35-38 | the `&`-pieces of the random query string are those five, then `generator=random` and `grnnamespace=0` |
| Api.SearchQueryParams | primerpedia.js:40-45 | the `&`-pieces of the search query string are those five, `generator=search`, `gsrlimit=1`, then `gsrsearch=` with the raw term up to its first `&`, then each further `&`-piece of the term |
| Api.ScriptSrcParams | primerpedia.js:54 | the src string starts with the API address, and its remaining `&`-pieces are the query string's followed by `callback=requestCallback` |
| Api.BeforeFragment | primerpedia.js:54 | the part of a src URL that is requested: a `#`-free prefix, the whole URL when it has no `#`, and otherwise everything before its first `#` |
| Api.BeforeFragmentAfterPrefix | primerpedia.js:54 | a `#`-free start of the URL is always requested whole |
| Api.BeforeFragmentCutInside | primerpedia.js:54 | once a start of the URL holds a `#`, nothing after it is requested |
| Api.FixedPartsHaveNoFragment | primerpedia.js:21-54 | the API address, the fixed text of the search query and the callback parameter hold no `#` |
| Api.FragmentCutsSearchRequest | primerpedia.js:43-54 | as written, a term holding `#` cuts the requested URL: `gsrsearch` gets the term up to its `#`, and `&callback=requestCallback` lies after the cut |
| Api.EncodedSearchQuery | primerpedia.js:43 | corrected: the query ends with the encoded term, which holds no `#` or `&` and decodes back to the term |
| Api.EncodedSearchSentWhole | primerpedia.js:54 | a search src whose term has no `#` is requested whole |
| Api.EncodedSearchParams | primerpedia.js:43-54 | a search src whose term has no `&` has the whole term in its `gsrsearch=` piece, followed by the callback piece |
| Api.EncodedSearchKeepsCallback | primerpedia.js:43-54 | corrected: with the term encoded, nothing is cut from the src; its `&`-pieces are the search query's with the whole encoded term in `gsrsearch=`, then `callback=requestCallback`, and the term decodes back |
| Api.PageQueryParams | primerpedia.js:37 | every query string the page builds has at least seven `&`-pieces, the first five those of the extracts query |
| Api.EncodedSegment | primerpedia.js:98 | after any base, the encoded title is one path segment that decodes back to the title |
| Api.ArticleUrl | primerpedia.js:98 | the article URL is the wiki base plus one path segment free of `/?#&=` that decodes to the title |
| Api.FirstPageKey | primerpedia.js:96 | the key is `pageids[0]`, or "undefined" when `pageids` is empty |
| Api.ShownArticle | primerpedia.js:96-97 | there is an article exactly when `pages` has the first page key, and it is `pages[pageids[0]]` (`pages["undefined"]` for an empty `pageids`) |
| Api.ViewOf | primerpedia.js:97-99 | the view keeps the title and the extract; its URL is the wiki base plus a segment that decodes to the title; the edit URL is the URL plus the edit suffix |
| Api.HandleRequestResult | primerpedia.js:128-144 | not-found if there is no `query`, or no hits and no suggestion; a search for the suggestion if there are no hits but a suggestion; otherwise `pages[pageids[0]]` is shown with its URL and edit URL, or a TypeError is thrown when that page is missing |
| Api.RandomPayloadNeverRedispatches | primerpedia.js:132-135 | a payload without `searchinfo` is always shown as an article, never re-dispatched |
| Api.EditLinkHasNoSectionParameter | primerpedia.js:99 | the edit link keeps `&amp;` literally, so its query has no `section` parameter, only `amp;section=0` |
| Api.CorrectedEditLinkNamesSection | primerpedia.js:99 | corrected: with `&` for `&amp;`, the edit link's query has `action=edit` and `section=0` |
| Page.ToggleVisibility | primerpedia.js:78-86 | a present element gets the requested visibility and a missing one stays missing |
| Page.ApiRequestStep | primerpedia.js:47-76 | spinner shown, links and elements kept; callback `d` in the slot and the counter advanced; timer `d` armed and script `d` added with the src built from the query string |
| Page.RandomStep | primerpedia.js:35-38 | the box is cleared, the spinner shown, and the new script's src carries the random query |
| Page.SearchStep | primerpedia.js:40-45 | the box keeps its value, the spinner is shown, and a fresh request's callback is in the slot |
| Page.RenderSearchResultStep | primerpedia.js:95-112 | the content is the extract, the links come from the view, the three elements are shown but none is created or removed, and no request state changes |
| Page.RenderNotFoundStep | primerpedia.js:114-126 | the content is the not-found node, the three elements are hidden but none is created or removed, and the links and request state stay |
| Page.HandleStep | primerpedia.js:128-144 | handling returns unless the decision is a TypeError, which changes nothing; only a suggestion starts a request, and every other outcome keeps the request state |
| Page.OnCompletedStep | primerpedia.js:58-63 | the slot is emptied whatever callback it held and only script `d` is removed; timers and view stay |
| Page.ResponseStep | primerpedia.js:69-75 | with the slot empty nothing changes; otherwise a new request starts exactly for a suggestion, and the slot ends empty exactly when handling returned |
| Page.TimeoutStep | primerpedia.js:65-67 | the view never changes; timer `d` ends disarmed, and if it was armed the slot is emptied and script `d` removed |
| Page.StripLineBreaks | primerpedia.js:177 | the box's value holds no CR or LF; as a multiset it is the text set minus its CRs and LFs, and it equals that text when it had none |
| Page.StripLineBreaksConcat | primerpedia.js:177 | stripping works character by character: the stripped text of `a + b` is that of `a` followed by that of `b`, so what is kept stays in order |
| Page.LoadStep | primerpedia.js:174-179 | a `search` value fills the box, line breaks stripped, and starts a search; `null` or a URIError changes nothing |
| Page.App.constructor | primerpedia.js:27-33 | the page starts with an empty box, the markup's content and links, and no request |
| Page.App.ApiRequest | primerpedia.js:47-76 | spinner shown, script `d` added, timer `d` armed, callback `d` stored in the slot |
| Page.App.Random | primerpedia.js:35-38 | the box is cleared and the random query dispatched; the invariant is kept |
| Page.App.Search | primerpedia.js:40-45 | a non-empty box is searched for as it is; an empty one behaves as `random()` |
| Page.App.RenderSearchResult | primerpedia.js:95-112 | link text, link and edit hrefs and content are set, and the three elements are shown |
| Page.App.RenderNotFoundNode | primerpedia.js:114-126 | the three elements are hidden and the content is the not-found node |
| Page.App.HandleRequestResult | primerpedia.js:128-144 | the renderer or dispatch that the decision names is run; it reports whether handling returned or threw |
| Page.App.OnCompleted | primerpedia.js:58-63 | the slot is emptied and script `d` removed |
| Page.App.Response | primerpedia.js:69-75 | timer `d` is cleared, the payload handled, then `onCompleted` runs unless handling threw; an empty slot changes nothing |
| Page.App.ResponseCompletingFirst | primerpedia.js:69-75 | corrected order: `onCompleted` runs before the payload is handled |
| Page.App.TimeoutFires | primerpedia.js:65-67 | an armed timer `d` disarms itself and runs `onCompleted` of dispatch `d` |
| Page.App.Load | primerpedia.js:174-179 | a `search` parameter that is not `null` fills the box, line breaks stripped, and starts `search()`; otherwise nothing changes |
| Page.ApiRequestKeepsWellFormed | primerpedia.js:47-76 | a dispatch keeps the invariant: timers belong to scripts, the slot holds the latest dispatch, every script requests a page query |
| Page.HandleKeepsWellFormed | primerpedia.js:128-144 | handling a payload keeps the invariant |
| Page.OnCompletedKeepsWellFormed | primerpedia.js:58-63 | `onCompleted` keeps the invariant once its timer is disarmed |
| Page.ResponseKeepsWellFormed | primerpedia.js:69-75 | a response keeps the invariant |
| Page.RequestSrcParams | primerpedia.js:54 | every src string the page writes starts with the API address, and its `&`-pieces start with the extracts query's and end with `callback=requestCallback` |
| Page.ScriptsRequestExtracts | primerpedia.js:21-25 | the src string of every script still in the document has that shape |
| Page.DispatchRegistersFreshRequest | primerpedia.js:49-75 | a dispatch shows the spinner and uses a fresh id for its script, timer and callback; it replaces the old callback and keeps older scripts and timers |
| Page.SearchDispatch | primerpedia.js:35-45 | `search()` writes the box's raw text into the src string, so its `gsrsearch=` piece holds the text up to the first `&`; an empty box is cleared and the random query's src is written |
| Page.SearchSrcParams | primerpedia.js:43-54 | a search's src has the extracts shape, and its eighth `&`-piece is `gsrsearch=` plus the term up to its first `&` |
| Page.TimeoutOnlyUnregisters | primerpedia.js:58-67 | a timer leaves content, links and elements as they are (the spinner stays) and only unregisters; a cleared timer does nothing |
| Page.ResponseOutcomes | primerpedia.js:69-75 | the four outcomes of a response: article shown, not-found shown, suggestion dispatched with its callback then deleted, TypeError with the slot kept |
| Page.NetworkEventsCannotRender | primerpedia.js:58-75 | with the slot empty, no sequence of responses and timeouts changes what the page shows |
| Page.SuggestionDropped | primerpedia.js:72-74 | as written, after a suggestion the spinner stays whatever the network does next |
| Page.ReorderedResponseKeepsWellFormed | primerpedia.js:69-75 | the corrected order keeps the invariant |
| Page.ReorderedResponseStep | primerpedia.js:69-75 | corrected order: the slot ends holding a callback exactly when a suggestion was followed, and otherwise timer `d` is cleared |
| Page.ReorderingKeepsRendering | primerpedia.js:69-75 | for an article or not-found payload, the corrected order ends in the same state as the original |
| Page.ReorderedSuggestionStep | primerpedia.js:136-139 | in the corrected order, a suggestion leaves the follow-up request's callback in the slot |
| Page.ReorderedSuggestionRenders | primerpedia.js:136-139 | in the corrected order, the follow-up request's response renders its article |
| Page.ReorderedSuggestionAdvances | primerpedia.js:136-139 | each suggestion takes one fresh dispatch and leaves its callback in the slot |
| Page.ReorderedFollowsEverySuggestion | primerpedia.js:136-139 | in the corrected order, suggestions are followed with no depth bound: after any chain of them, a request for the last one is pending |
| Page.EarlierTimerDropsLaterCallback | primerpedia.js:58-67 | the timer of an earlier dispatch empties the slot that a later dispatch filled, and the later response is then ignored |
| Page.StaleResponseRendered | primerpedia.js:69-75 | with two requests pending, the first response is handled by the second callback; the first request's timer and script stay, and the other response is ignored |
| Page.DeepLinkSearches | primerpedia.js:174-179 | loading `?search=` followed by an encoded term searches for the term with its line breaks stripped by the box; a non-empty term without CR or LF is searched for exactly, with the raw-term query |
| Page.BareSearchParameterSearchesUndefined | primerpedia.js:174-179 | loading `?search` with no `=` searches for "undefined" |
| Page.LoadSearchesValue | primerpedia.js:174-179 | a `search` value without line breaks is searched for as it is, with the raw-term query when it is non-empty |
| Page.LoadWithoutSearchChangesNothing | primerpedia.js:174-179 | without a `search` parameter, or with one that fails to decode, loading changes nothing |

## Left out

- DOM operations (`createElement`, `appendChild`, `cloneNode`/`replaceChild` in `clearNode`,
  `innerHTML`, `style`) are not modelled. The content area is a tag (initial, spinner,
  extract HTML, not-found text), and each toggled element is present or absent with a
  visibility flag. `clearNode` has no behaviour left at this level.
- The element lookups of `window.onload` are not modelled. The search box, content area and
  links are assumed to exist; only the three toggled elements may be absent.
- The network, JSONP loading and real time are left out. A response and a timer firing are
  explicit events. The 3000 ms delay is kept only as the constant `RequestTimeoutInMs`.
  Browser timer ids are replaced by dispatch numbers.
- Strings are sequences of Unicode scalar values, not UTF-16 code units. Lone surrogates
  cannot occur, so the URIError that `encodeURIComponent` throws on them is not modelled.
- The payload always has `pageids` and every article has a `title` and an `extract`. The
  model does not cover payloads without them, which the page would read as `undefined`.
  An empty `pageids` is covered: it looks up the key "undefined".
- The extract is opaque HTML, and is neither parsed nor sanitised.
- How the browser and the MediaWiki server parse the src URL is not modelled beyond its
  fragment (`Api.BeforeFragment`). The model reads the src string's `&`-pieces; `+` read as
  a space and the server's percent-decoding of parameter values are left out.
- Page.SearchStep: keeps the source's raw term in the search query, so the as-written
  behaviour stays checkable. The encoded query is `Api.EncodedSearchQuery`.
- Api.ViewOf: keeps the source's `&amp;` in the edit URL. The corrected suffix is
  `Api.CorrectedEditSuffix`.
- Page.App.Response: keeps the source's order (`onCompleted` after handling), so the
  as-written behaviour stays checkable. The corrected order is
  `Page.App.ResponseCompletingFirst`.

## Findings

| source | as written | input that shows it | evidently intended | confidence | as-written member | corrected member |
|---|---|---|---|---|---|---|
| primerpedia.js:72-74 | the callback runs `onCompleted` after `handleRequestResult`, and `onCompleted` deletes whatever callback is in the slot, including one that `handleRequestResult` just registered by following a suggestion | a search payload with `totalhits` 0 and a `suggestion`: the follow-up request is sent, but its callback is already gone when its response arrives, so the page keeps showing the spinner | the follow-up search's article is shown | high; not executed | Page.SuggestionDropped | Page.ReorderedSuggestionRenders |
| primerpedia.js:43 | the search term is appended to the query without `encodeURIComponent`, and the src URL ends with `&callback=requestCallback` | the term `C#`: the browser does not send the fragment, so the request asks for `gsrsearch=C` without a callback parameter, the JSONP reply never calls `requestCallback`, and the spinner stays | the whole term is searched for and the reply calls back | high; not executed | Api.FragmentCutsSearchRequest | Api.EncodedSearchKeepsCallback |
| primerpedia.js:99 | the edit link is built with `&amp;` inside a JavaScript string and set through `setAttribute`, so it keeps `&amp;` literally | any article: the edit link's query is `action=edit` and `amp;section=0`, with no `section` parameter, so the whole article opens for editing | the link edits section 0, the introduction shown | high; not executed | Api.EditLinkHasNoSectionParameter | Api.CorrectedEditLinkNamesSection |

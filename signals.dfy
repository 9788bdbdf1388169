/**
 * What the content script reads from the page to decide which rule applies:
 * the video id in the current URL, the match key, the title and the channel
 * candidates. The page itself is given as values: a parsed URL and the texts
 * and attributes the script's selectors would find.
 */
module Signals {
  import opened Wrappers
  import opened Text
  import opened JsSet

  datatype QueryParam = QueryParam(name: string, value: string)

  /**
   * A parsed URL as `new URL(href)` exposes it: the hostname (which the URL
   * parser has already lower-cased), the path and the decoded query
   * parameters in order.
   */
  datatype Url = Url(href: string, hostname: string, pathname: string, query: seq<QueryParam>)

  /** Index `k` holds the first parameter called `name`. */
  predicate FirstNamed(query: seq<QueryParam>, name: string, k: nat) {
    k < |query| && query[k].name == name && forall j | 0 <= j < k :: query[j].name != name
  }

  /** `searchParams.get(name)`: the value of the first parameter with that name. */
  function QueryGet(query: seq<QueryParam>, name: string): (r: Option<string>)
    ensures r.None? <==> forall k | 0 <= k < |query| :: query[k].name != name
    ensures r.Some? ==> exists k: nat :: FirstNamed(query, name, k) && query[k].value == r.value
    decreases |query|
  {
    if query == [] then None
    else if query[0].name == name then
      assert FirstNamed(query, name, 0);
      Some(query[0].value)
    else
      var rest := QueryGet(query[1..], name);
      if rest.Some? then
        var k: nat :| FirstNamed(query[1..], name, k) && query[1..][k].value == rest.value;
        assert FirstNamed(query, name, k + 1);
        rest
      else
        rest
  }

  /** The characters at which a video id taken from a path ends: /[?&#/]/. */
  const IdStops: set<char> := {'?', '&', '#', '/'}

  /** `segment.split(/[?&#/]/)[0]`. */
  function CutAtStops(segment: string): string {
    Split(segment, IdStops)[0]
  }

  /** The `youtu.be` form: `pathname.split('/')[1]?.split(/[?&#/]/)[0] || ''`. */
  function ShortenerId(pathname: string): string {
    var segments := Split(pathname, {'/'});
    if |segments| > 1 then CutAtStops(segments[1]) else ""
  }

  /**
   * The `/shorts/<id>` form: `pathname.split('/shorts/')[1].split(/[?&#/]/)[0]`.
   * The piece after the leading "/shorts/" ends at the next "/shorts/", whose
   * first character is itself a stop, so cutting the rest of the path at the
   * first stop yields the same id.
   */
  function ShortsId(pathname: string): string
    requires StartsWith(pathname, "/shorts/")
  {
    CutAtStops(pathname[8..])
  }

  /**
   * `getVideoIdFromUrl` of the content script: on `youtu.be` the first path
   * segment; otherwise a non-empty `v` parameter; otherwise the id of a
   * `/shorts/` path; otherwise the empty string.
   */
  function VideoIdFromUrl(url: Url): string {
    if url.hostname == "youtu.be" then ShortenerId(url.pathname)
    else
      var v := QueryGet(url.query, "v");
      if v.Some? && v.value != "" then v.value
      else if StartsWith(url.pathname, "/shorts/") then ShortsId(url.pathname)
      else ""
  }

  /** `getMatchKey`: the video id, or the whole URL when there is none. */
  function MatchKey(url: Url): string {
    var id := VideoIdFromUrl(url);
    if id != "" then id else url.href
  }

  /** The id cut from a path is its longest prefix free of stops. */
  lemma CutAtStopsSpec(s: string)
    ensures StartsWith(s, CutAtStops(s))
    ensures forall c | c in CutAtStops(s) :: c !in IdStops
    ensures |CutAtStops(s)| < |s| ==> s[|CutAtStops(s)|] in IdStops
  {
    SplitFirstPiece(s, IdStops);
    if |Split(s, IdStops)| == 1 {
      assert CutAtStops(s) == s;
    }
  }

  /** On `youtu.be`, the id is the start of the path after its leading '/', up to the first stop. */
  lemma ShortenerIdSpec(pathname: string)
    requires StartsWith(pathname, "/")
    ensures ShortenerId(pathname) == CutAtStops(pathname[1..])
  {
    assert pathname == [] + ['/'] + pathname[1..];
    SplitAtSeparator([], '/', pathname[1..], {'/'});
    SplitFirstPieceNarrower(pathname[1..], {'/'}, IdStops);
  }

  /** The precedence of the three sources of a video id. */
  lemma VideoIdSources(url: Url)
    ensures url.hostname == "youtu.be" && StartsWith(url.pathname, "/") ==>
      VideoIdFromUrl(url) == CutAtStops(url.pathname[1..])
    ensures url.hostname != "youtu.be" && QueryGet(url.query, "v").Some? && QueryGet(url.query, "v").value != "" ==>
      VideoIdFromUrl(url) == QueryGet(url.query, "v").value
    ensures url.hostname != "youtu.be" && (QueryGet(url.query, "v").None? || QueryGet(url.query, "v").value == "") ==>
      VideoIdFromUrl(url) == (if StartsWith(url.pathname, "/shorts/") then CutAtStops(url.pathname[8..]) else "")
    ensures (url.hostname != "youtu.be" && !StartsWith(url.pathname, "/shorts/") &&
      forall k | 0 <= k < |url.query| :: url.query[k].name != "v") ==> VideoIdFromUrl(url) == ""
  {
    if url.hostname == "youtu.be" && StartsWith(url.pathname, "/") {
      ShortenerIdSpec(url.pathname);
    }
  }

  /** A match key is never empty for a non-empty URL, and is the video id whenever there is one. */
  lemma MatchKeySpec(url: Url)
    ensures url.href != "" ==> MatchKey(url) != ""
    ensures VideoIdFromUrl(url) != "" ==> MatchKey(url) == VideoIdFromUrl(url)
    ensures VideoIdFromUrl(url) == "" ==> MatchKey(url) == url.href
  {
  }

  /** What the selectors of `getTitle` and `getChannelCandidates` find on the page. */
  datatype PageSignals = PageSignals(
    heading: string,         // textContent of the `h1` title element, "" when absent
    documentTitle: string,   // document.title
    nameTexts: seq<string>,  // textContent of each channel-name node, "" where null
    ownerHrefs: seq<string>, // href of each owner or channel-name link, "" where missing
    authorMeta: string,      // content of meta[itemprop="author"], "" when absent
    channelIdMeta: string,   // content of meta[itemprop="channelId"], "" when absent
    playerAuthor: string)    // ytInitialPlayerResponse.videoDetails.author, "" when absent

  /** The suffix the site appends to the document title. */
  const TitleSuffix := " - YouTube"

  /**
   * `getTitle`: the heading text when there is one, otherwise the document
   * title with its first " - YouTube" removed; trimmed either way.
   */
  function Title(p: PageSignals): string {
    if p.heading != "" then Trim(p.heading)
    else Trim(ReplaceFirst(p.documentTitle, TitleSuffix, ""))
  }

  /** The title is trimmed: it neither begins nor ends with whitespace. */
  lemma TitleIsTrimmed(p: PageSignals)
    ensures var r := Title(p); r == [] || (!IsSpace(r[0]) && !IsSpace(r[|r| - 1]))
  {
    if p.heading != "" {
      TrimSpec(p.heading);
    } else {
      TrimSpec(ReplaceFirst(p.documentTitle, TitleSuffix, ""));
    }
  }

  /** The characters at which a handle or channel id in a link ends: [^/?#]. */
  const HrefStops: set<char> := {'/', '?', '#'}

  /** `href.match(/\/(@[^/?#]+)/)` can start its match at index `i`. */
  predicate HandleAt(href: string, i: nat) {
    i + 2 < |href| && href[i] == '/' && href[i + 1] == '@' && href[i + 2] !in HrefStops
  }

  /** `href.match(/\/channel\/([^/?#]+)/)` can start its match at index `i`. */
  predicate ChannelAt(href: string, i: nat) {
    i + 9 < |href| && href[i..i + 9] == "/channel/" && href[i + 9] !in HrefStops
  }

  /** The leftmost start of a handle match at or after `from`, found by scanning. */
  function HandleIndexFrom(href: string, from: nat): (r: Option<nat>)
    ensures r.None? ==> forall i | from <= i :: !HandleAt(href, i)
    ensures r.Some? ==> from <= r.value && HandleAt(href, r.value)
    ensures r.Some? ==> forall i | from <= i < r.value :: !HandleAt(href, i)
    decreases |href| - from
  {
    if from + 2 >= |href| then None
    else if HandleAt(href, from) then Some(from)
    else HandleIndexFrom(href, from + 1)
  }

  /** The leftmost start of a channel-id match at or after `from`, found by scanning. */
  function ChannelIndexFrom(href: string, from: nat): (r: Option<nat>)
    ensures r.None? ==> forall i | from <= i :: !ChannelAt(href, i)
    ensures r.Some? ==> from <= r.value && ChannelAt(href, r.value)
    ensures r.Some? ==> forall i | from <= i < r.value :: !ChannelAt(href, i)
    decreases |href| - from
  {
    if from + 9 >= |href| then None
    else if ChannelAt(href, from) then Some(from)
    else ChannelIndexFrom(href, from + 1)
  }

  /** The greedy run of [^/?#] characters starting at index `k`. */
  function RunFrom(href: string, k: nat): string
    requires k <= |href|
  {
    Split(href[k..], HrefStops)[0]
  }

  /** The first capture group of the handle pattern: "@" and the name after it. */
  function HandleOf(href: string): Option<string> {
    match HandleIndexFrom(href, 0)
    case None => None
    case Some(i) => Some("@" + RunFrom(href, i + 2))
  }

  /** The first capture group of the channel pattern: the id after "/channel/". */
  function ChannelOf(href: string): Option<string> {
    match ChannelIndexFrom(href, 0)
    case None => None
    case Some(i) => Some(RunFrom(href, i + 9))
  }

  /** The run starting at a character that is not a stop is non-empty, stop-free and in place. */
  lemma RunFromSpec(href: string, k: nat)
    requires k < |href| && href[k] !in HrefStops
    ensures RunFrom(href, k) != ""
    ensures forall c | c in RunFrom(href, k) :: c !in HrefStops
    ensures OccursAt(href, RunFrom(href, k), k)
  {
    var rest := href[k..];
    SplitFirstPiece(rest, HrefStops);
    var run := RunFrom(href, k);
    assert rest[..|run|] == run;
    assert href[k..k + |run|] == run;
  }

  /**
   * A handle found in a link is "@" followed by a non-empty name free of
   * '/', '?' and '#', and it stands in the link right after a '/'.
   */
  lemma HandleOfSpec(href: string)
    ensures HandleOf(href).None? <==> forall i :: !HandleAt(href, i)
    ensures HandleOf(href).Some? ==>
      var h := HandleOf(href).value;
      |h| >= 2 && h[0] == '@' && (forall c | c in h[1..] :: c !in HrefStops) && Contains(href, "/" + h)
  {
    var r := HandleIndexFrom(href, 0);
    if r.Some? {
      var i := r.value;
      RunFromSpec(href, i + 2);
      var run := RunFrom(href, i + 2);
      var h := "@" + run;
      assert h[1..] == run;
      assert href[i..i + |h| + 1] == "/" + h by {
        assert href[i..i + 2] == "/@";
        assert href[i + 2..i + 2 + |run|] == run;
        assert href[i..i + |h| + 1] == href[i..i + 2] + href[i + 2..i + 2 + |run|];
      }
      assert OccursAt(href, "/" + h, i);
    }
  }

  /** A channel id found in a link is non-empty, free of '/', '?' and '#', and follows "/channel/". */
  lemma ChannelOfSpec(href: string)
    ensures ChannelOf(href).None? <==> forall i :: !ChannelAt(href, i)
    ensures ChannelOf(href).Some? ==>
      var c := ChannelOf(href).value;
      c != "" && (forall x | x in c :: x !in HrefStops) && Contains(href, "/channel/" + c)
  {
    var r := ChannelIndexFrom(href, 0);
    if r.Some? {
      var i := r.value;
      RunFromSpec(href, i + 9);
      var c := RunFrom(href, i + 9);
      assert href[i..i + 9 + |c|] == "/channel/" + c by {
        assert href[i + 9..i + 9 + |c|] == c;
        assert href[i..i + 9 + |c|] == href[i..i + 9] + href[i + 9..i + 9 + |c|];
      }
      assert OccursAt(href, "/channel/" + c, i);
    }
  }

  /** `if (node && node.textContent) candidates.add(node.textContent.trim())`, for each node. */
  function TextCandidates(texts: seq<string>): seq<string>
    decreases |texts|
  {
    if texts == [] then []
    else TextCandidates(texts[..|texts| - 1]) + Present(texts[|texts| - 1])
  }

  /** A present (truthy) string contributes its trimmed form. */
  function Present(s: string): seq<string> {
    if s != "" then [Trim(s)] else []
  }

  function OptionList(o: Option<string>): seq<string> {
    if o.Some? then [o.value] else []
  }

  /** The handle, then the channel id, of one link. */
  function LinkCandidate(href: string): seq<string> {
    OptionList(HandleOf(href)) + OptionList(ChannelOf(href))
  }

  function LinkCandidates(hrefs: seq<string>): seq<string>
    decreases |hrefs|
  {
    if hrefs == [] then []
    else LinkCandidates(hrefs[..|hrefs| - 1]) + LinkCandidate(hrefs[|hrefs| - 1])
  }

  /** Everything `getChannelCandidates` adds to its set, in the order it adds it. */
  function RawCandidates(p: PageSignals): seq<string> {
    TextCandidates(p.nameTexts) + LinkCandidates(p.ownerHrefs)
    + Present(p.authorMeta) + Present(p.channelIdMeta) + Present(p.playerAuthor)
  }

  lemma {:induction false} NonEmptyKeepsDistinct(xs: seq<string>)
    requires Distinct(xs)
    ensures Distinct(NonEmpty(xs))
    decreases |xs|
  {
    if xs != [] {
      NonEmptyKeepsDistinct(xs[1..]);
      assert xs[0] !in xs[1..];
    }
  }

  /**
   * The candidates: what was added, each once, in first-insertion order,
   * without the empty string.
   */
  function ChannelCandidates(p: PageSignals): (r: seq<string>)
    ensures Distinct(r)
    ensures forall x :: x in r <==> x in RawCandidates(p) && x != ""
  {
    var added := AddAll([], RawCandidates(p));
    AddAllSpec([], RawCandidates(p));
    NonEmptyKeepsDistinct(added);
    NonEmpty(added)
  }

  lemma {:induction false} AddAllConcat<T>(s: seq<T>, xs: seq<T>, ys: seq<T>)
    ensures AddAll(s, xs + ys) == AddAll(AddAll(s, xs), ys)
    decreases |xs|
  {
    if xs != [] {
      assert (xs + ys)[0] == xs[0] && (xs + ys)[1..] == xs[1..] + ys;
      AddAllConcat(Add(s, xs[0]), xs[1..], ys);
    } else {
      assert xs + ys == ys;
    }
  }

  lemma TextStep(texts: seq<string>, i: nat)
    requires i < |texts|
    ensures TextCandidates(texts[..i + 1]) == TextCandidates(texts[..i]) + Present(texts[i])
  {
    assert texts[..i + 1][..i] == texts[..i];
  }

  lemma LinkStep(hrefs: seq<string>, j: nat)
    requires j < |hrefs|
    ensures LinkCandidates(hrefs[..j + 1]) == LinkCandidates(hrefs[..j]) + OptionList(HandleOf(hrefs[j])) + OptionList(ChannelOf(hrefs[j]))
  {
    assert hrefs[..j + 1][..j] == hrefs[..j];
  }

  /** Adding a present string is adding its trimmed form, or nothing. */
  lemma AddPresent(s: seq<string>, prefix: seq<string>, x: string)
    requires s == AddAll([], prefix)
    ensures AddAll([], prefix + Present(x)) == (if x != "" then Add(s, Trim(x)) else s)
  {
    AddAllConcat([], prefix, Present(x));
  }

  lemma AddOption(s: seq<string>, prefix: seq<string>, o: Option<string>)
    requires s == AddAll([], prefix)
    ensures AddAll([], prefix + OptionList(o)) == (if o.Some? then Add(s, o.value) else s)
  {
    AddAllConcat([], prefix, OptionList(o));
  }

  /** `LinkStep` after the channel-name texts. */
  lemma PrefixedLinkStep(texts: seq<string>, hrefs: seq<string>, j: nat)
    requires j < |hrefs|
    ensures texts + LinkCandidates(hrefs[..j + 1])
      == texts + LinkCandidates(hrefs[..j]) + OptionList(HandleOf(hrefs[j])) + OptionList(ChannelOf(hrefs[j]))
  {
    LinkStep(hrefs, j);
  }

  /** One pass of the owner-link loop adds the link's handle, then its channel id. */
  lemma LinkLoopStep(candidates: seq<string>, texts: seq<string>, hrefs: seq<string>, j: nat)
    requires j < |hrefs|
    requires candidates == AddAll([], texts + LinkCandidates(hrefs[..j]))
    ensures var handle := HandleOf(hrefs[j]);
      var channel := ChannelOf(hrefs[j]);
      var middle := if handle.Some? then Add(candidates, handle.value) else candidates;
      AddAll([], texts + LinkCandidates(hrefs[..j + 1]))
        == if channel.Some? then Add(middle, channel.value) else middle
  {
    var href := hrefs[j];
    var handle := HandleOf(href);
    var channel := ChannelOf(href);
    var before := texts + LinkCandidates(hrefs[..j]);
    PrefixedLinkStep(texts, hrefs, j);
    AddOption(candidates, before, handle);
    var middle := if handle.Some? then Add(candidates, handle.value) else candidates;
    AddOption(middle, before + OptionList(handle), channel);
  }

  /**
   * `getChannelCandidates`: fills a set from the channel-name texts, the
   * handles and channel ids in owner links, the two meta tags and the
   * player's author field, then drops empty strings.
   */
  method GetChannelCandidates(p: PageSignals) returns (r: seq<string>)
    ensures r == ChannelCandidates(p)
  {
    ghost var texts := TextCandidates(p.nameTexts);
    var candidates := AddNameTexts(p.nameTexts);
    candidates := AddOwnerLinks(candidates, texts, p.ownerHrefs);
    ghost var links := texts + LinkCandidates(p.ownerHrefs);
    ghost var c1 := if p.authorMeta != "" then Add(candidates, Trim(p.authorMeta)) else candidates;
    assert c1 == AddAll([], links + Present(p.authorMeta)) by {
      AddPresent(candidates, links, p.authorMeta);
    }
    if p.authorMeta != "" {
      candidates := Add(candidates, Trim(p.authorMeta));
    }
    ghost var c2 := if p.channelIdMeta != "" then Add(candidates, Trim(p.channelIdMeta)) else candidates;
    assert c2 == AddAll([], links + Present(p.authorMeta) + Present(p.channelIdMeta)) by {
      AddPresent(candidates, links + Present(p.authorMeta), p.channelIdMeta);
    }
    if p.channelIdMeta != "" {
      candidates := Add(candidates, Trim(p.channelIdMeta));
    }
    ghost var c3 := if p.playerAuthor != "" then Add(candidates, Trim(p.playerAuthor)) else candidates;
    assert c3 == AddAll([], RawCandidates(p)) by {
      AddPresent(candidates, links + Present(p.authorMeta) + Present(p.channelIdMeta), p.playerAuthor);
    }
    if p.playerAuthor != "" {
      candidates := Add(candidates, Trim(p.playerAuthor));
    }
    r := NonEmpty(candidates);
  }
  /** The loop over the channel-name texts: each present text, trimmed. */
  method AddNameTexts(nameTexts: seq<string>) returns (candidates: seq<string>)
    ensures candidates == AddAll([], TextCandidates(nameTexts))
  {
    candidates := [];
    var i := 0;
    while i < |nameTexts|
      invariant 0 <= i <= |nameTexts|
      invariant candidates == AddAll([], TextCandidates(nameTexts[..i]))
    {
      var text := nameTexts[i];
      ghost var next := if text != "" then Add(candidates, Trim(text)) else candidates;
      assert next == AddAll([], TextCandidates(nameTexts[..i + 1])) by {
        TextStep(nameTexts, i);
        AddPresent(candidates, TextCandidates(nameTexts[..i]), text);
      }
      if text != "" {
        candidates := Add(candidates, Trim(text));
      }
      i := i + 1;
    }
    assert nameTexts[..i] == nameTexts;
  }

  /** The loop over the owner links, after the texts: each link's handle, then its channel id. */
  method AddOwnerLinks(start: seq<string>, ghost texts: seq<string>, hrefs: seq<string>) returns (candidates: seq<string>)
    requires start == AddAll([], texts)
    ensures candidates == AddAll([], texts + LinkCandidates(hrefs))
  {
    candidates := start;
    assert texts + LinkCandidates(hrefs[..0]) == texts;
    var j := 0;
    while j < |hrefs|
      invariant 0 <= j <= |hrefs|
      invariant candidates == AddAll([], texts + LinkCandidates(hrefs[..j]))
    {
      var href := hrefs[j];
      var handle := HandleOf(href);
      var channel := ChannelOf(href);
      LinkLoopStep(candidates, texts, hrefs, j);
      if handle.Some? {
        candidates := Add(candidates, handle.value);
      }
      if channel.Some? {
        candidates := Add(candidates, channel.value);
      }
      j := j + 1;
    }
    assert hrefs[..j] == hrefs;
  }
}

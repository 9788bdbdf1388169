/**
 * The earlier content script, kept beside the current one: three
 * comma- or newline-separated lists (channels, titles, video ids) and one
 * playback speed, applied to every video element of any page whose
 * hostname contains "youtube.com" when some entry of some list matches.
 * It reads the page with the same title and channel-candidate logic as the
 * current script (`Signals.Title`, `Signals.ChannelCandidates`), but its
 * video id ignores `youtu.be` addresses.
 */
module Legacy {
  import opened Wrappers
  import opened Text
  import opened JsSet
  import opened Page
  import opened Signals
  import opened Rules
  import Domains

  /** Delay of the debounced evaluation. */
  const EvaluateDelayMs: nat := 150
  /** The start-up poll stops after this many ticks (one every 500 ms). */
  const StartupPollLimit: nat := 20
  /** The separators of a settings list: /[,\n]/. */
  const ListSeparators: set<char> := {',', '\n'}
  /** The storage keys of the four settings. */
  const SettingKeys: set<string> := {"channelMatches", "titleMatches", "videoIdMatches", "playbackSpeed"}

  /** The four settings, each a string ("" when unset). */
  datatype Settings = Settings(channelMatches: string, videoIdMatches: string, titleMatches: string, playbackSpeed: string)

  /** What a storage read returns per key: the stored string, or nothing when the key is absent. */
  datatype StoredSettings = StoredSettings(
    channelMatches: Option<string>, videoIdMatches: Option<string>, titleMatches: Option<string>, playbackSpeed: Option<string>)

  // Parsing the lists.

  /** `parseList`: split at commas and newlines, trim each piece, drop the empty ones. */
  function ParseList(raw: string): seq<string> {
    NonEmpty(TrimAll(Split(raw, ListSeparators)))
  }

  /** An entry as `parseList` yields it: non-empty, trimmed, free of separators. */
  predicate IsEntry(x: string) {
    x != "" && Trim(x) == x && forall c | c in x :: c !in ListSeparators
  }

  /** Every entry of a parsed list is non-empty, trimmed and free of separators. */
  lemma ParseListEntries(raw: string)
    ensures forall k | 0 <= k < |ParseList(raw)| :: IsEntry(ParseList(raw)[k])
  {
    var pieces := Split(raw, ListSeparators);
    var trimmed := TrimAll(pieces);
    forall k | 0 <= k < |ParseList(raw)|
      ensures IsEntry(ParseList(raw)[k])
    {
      var x := ParseList(raw)[k];
      assert x in trimmed;
      var j :| 0 <= j < |trimmed| && trimmed[j] == x;
      assert x == Trim(pieces[j]);
      TrimIdempotent(pieces[j]);
      TrimKeepsChars(pieces[j]);
    }
  }

  /** A list without empty strings is kept whole by `filter(Boolean)`. */
  lemma {:induction false} NonEmptyKeepsAll(xs: seq<string>)
    requires forall k | 0 <= k < |xs| :: xs[k] != ""
    ensures NonEmpty(xs) == xs
    decreases |xs|
  {
    if xs != [] {
      NonEmptyKeepsAll(xs[1..]);
      assert [xs[0]] + xs[1..] == xs;
    }
  }

  /** The list a user types as entries joined by commas (or newlines) parses back to those entries. */
  lemma ParseListOfJoined(entries: seq<string>, sep: char)
    requires sep in ListSeparators
    requires forall k | 0 <= k < |entries| :: IsEntry(entries[k])
    ensures ParseList(Join(entries, sep)) == entries
  {
    if entries == [] {
      assert Split("", ListSeparators) == [""];
      assert TrimAll([""]) == [""];
    } else {
      SplitJoin(entries, sep, ListSeparators);
      assert TrimAll(entries) == entries;
      NonEmptyKeepsAll(entries);
    }
  }

  /** `parseList` yields the same list again when its entries are joined and parsed. */
  lemma ParseListStable(raw: string)
    ensures ParseList(Join(ParseList(raw), ',')) == ParseList(raw)
  {
    ParseListEntries(raw);
    ParseListOfJoined(ParseList(raw), ',');
  }

  // Matching.

  /** The channel list matches: some entry, lower-cased, occurs in some lower-cased candidate. */
  predicate ChannelListMatches(list: seq<string>, channels: seq<string>) {
    |list| > 0 && |channels| > 0 && exists i | 0 <= i < |list| :: SomeCandidateContains(channels, Lower(list[i]))
  }

  /** The title list matches: the title is present and contains some entry, ignoring case. */
  predicate TitleListMatches(list: seq<string>, title: string) {
    |list| > 0 && title != "" && exists i | 0 <= i < |list| :: Contains(Lower(title), Lower(list[i]))
  }

  /** The video-id list matches: the video id is present and is an entry, exactly. */
  predicate VideoIdListMatches(list: seq<string>, videoId: string) {
    |list| > 0 && videoId != "" && exists i | 0 <= i < |list| :: list[i] == videoId
  }

  /** `hasMatch`: any of the three lists matches what the page shows. */
  predicate HasMatch(s: Settings, ctx: MatchContext) {
    || ChannelListMatches(ParseList(s.channelMatches), ctx.channels)
    || TitleListMatches(ParseList(s.titleMatches), ctx.title)
    || VideoIdListMatches(ParseList(s.videoIdMatches), ctx.videoId)
  }

  /** Each entry of a list as a rule of one type with the one speed. */
  function AsRules(list: seq<string>, kind: RuleType, speed: string): (r: seq<Rule>)
    ensures |r| == |list|
  {
    seq(|list|, i requires 0 <= i < |list| => Rule("", kind, list[i], speed))
  }

  /** The legacy settings as a list of rules of the current script: channels, then titles, then video ids. */
  function AsRuleList(s: Settings): seq<Rule> {
    RulesOf(ParseList(s.channelMatches), ParseList(s.titleMatches), ParseList(s.videoIdMatches), s.playbackSpeed)
  }

  function RulesOf(channels: seq<string>, titles: seq<string>, videoIds: seq<string>, speed: string): seq<Rule> {
    AsRules(channels, Channel, speed) + AsRules(titles, Title, speed) + AsRules(videoIds, VideoId, speed)
  }

  predicate SomeRuleMatches(rules: seq<Rule>, ctx: MatchContext) {
    exists j | 0 <= j < |rules| :: MatchesRule(rules[j], ctx)
  }

  lemma SomeRuleMatchesConcat(a: seq<Rule>, b: seq<Rule>, ctx: MatchContext)
    ensures SomeRuleMatches(a + b, ctx) <==> SomeRuleMatches(a, ctx) || SomeRuleMatches(b, ctx)
  {
    var ab := a + b;
    if SomeRuleMatches(ab, ctx) {
      var j :| 0 <= j < |ab| && MatchesRule(ab[j], ctx);
      if j < |a| {
        assert ab[j] == a[j];
      } else {
        assert ab[j] == b[j - |a|];
      }
    }
    if SomeRuleMatches(a, ctx) {
      var j :| 0 <= j < |a| && MatchesRule(a[j], ctx);
      assert ab[j] == a[j];
    }
    if SomeRuleMatches(b, ctx) {
      var j :| 0 <= j < |b| && MatchesRule(b[j], ctx);
      assert ab[|a| + j] == b[j];
    }
  }

  /** A list of channel entries matches exactly when one of its rules would. */
  lemma ChannelRulesMatch(list: seq<string>, speed: string, ctx: MatchContext)
    requires forall k | 0 <= k < |list| :: list[k] != ""
    ensures SomeRuleMatches(AsRules(list, Channel, speed), ctx) <==> ChannelListMatches(list, ctx.channels)
  {
    var rules := AsRules(list, Channel, speed);
    if ChannelListMatches(list, ctx.channels) {
      var i :| 0 <= i < |list| && SomeCandidateContains(ctx.channels, Lower(list[i]));
      assert MatchesRule(rules[i], ctx);
    }
    if SomeRuleMatches(rules, ctx) {
      var j :| 0 <= j < |rules| && MatchesRule(rules[j], ctx);
      assert SomeCandidateContains(ctx.channels, Lower(list[j]));
    }
  }

  /** A list of title entries matches exactly when one of its rules would. */
  lemma TitleRulesMatch(list: seq<string>, speed: string, ctx: MatchContext)
    requires forall k | 0 <= k < |list| :: list[k] != ""
    ensures SomeRuleMatches(AsRules(list, Title, speed), ctx) <==> TitleListMatches(list, ctx.title)
  {
    var rules := AsRules(list, Title, speed);
    if TitleListMatches(list, ctx.title) {
      var i :| 0 <= i < |list| && Contains(Lower(ctx.title), Lower(list[i]));
      assert MatchesRule(rules[i], ctx);
    }
    if SomeRuleMatches(rules, ctx) {
      var j :| 0 <= j < |rules| && MatchesRule(rules[j], ctx);
      assert Contains(Lower(ctx.title), Lower(list[j]));
    }
  }

  /** A list of video-id entries matches exactly when one of its rules would. */
  lemma VideoIdRulesMatch(list: seq<string>, speed: string, ctx: MatchContext)
    requires forall k | 0 <= k < |list| :: list[k] != "" && Trim(list[k]) == list[k]
    ensures SomeRuleMatches(AsRules(list, VideoId, speed), ctx) <==> VideoIdListMatches(list, ctx.videoId)
  {
    var rules := AsRules(list, VideoId, speed);
    if VideoIdListMatches(list, ctx.videoId) {
      var i :| 0 <= i < |list| && list[i] == ctx.videoId;
      VideoIdMatchIsExact(rules[i], ctx);
    }
    if SomeRuleMatches(rules, ctx) {
      var j :| 0 <= j < |rules| && MatchesRule(rules[j], ctx);
      VideoIdMatchIsExact(rules[j], ctx);
    }
  }

  /** The settings match a page exactly when one of the rules made of their entries does. */
  lemma HasMatchAsRules(s: Settings, ctx: MatchContext)
    ensures HasMatch(s, ctx) <==> SomeRuleMatches(AsRuleList(s), ctx)
  {
    ChannelPart(s, ctx);
    TitlePart(s, ctx);
    VideoIdPart(s, ctx);
    SomeRuleMatchesThree(AsRules(ParseList(s.channelMatches), Channel, s.playbackSpeed),
      AsRules(ParseList(s.titleMatches), Title, s.playbackSpeed),
      AsRules(ParseList(s.videoIdMatches), VideoId, s.playbackSpeed), ctx);
  }

  lemma ChannelPart(s: Settings, ctx: MatchContext)
    ensures SomeRuleMatches(AsRules(ParseList(s.channelMatches), Channel, s.playbackSpeed), ctx)
      <==> ChannelListMatches(ParseList(s.channelMatches), ctx.channels)
  {
    ParseListEntries(s.channelMatches);
    ChannelRulesMatch(ParseList(s.channelMatches), s.playbackSpeed, ctx);
  }

  lemma TitlePart(s: Settings, ctx: MatchContext)
    ensures SomeRuleMatches(AsRules(ParseList(s.titleMatches), Title, s.playbackSpeed), ctx)
      <==> TitleListMatches(ParseList(s.titleMatches), ctx.title)
  {
    ParseListEntries(s.titleMatches);
    TitleRulesMatch(ParseList(s.titleMatches), s.playbackSpeed, ctx);
  }

  lemma VideoIdPart(s: Settings, ctx: MatchContext)
    ensures SomeRuleMatches(AsRules(ParseList(s.videoIdMatches), VideoId, s.playbackSpeed), ctx)
      <==> VideoIdListMatches(ParseList(s.videoIdMatches), ctx.videoId)
  {
    ParseListEntries(s.videoIdMatches);
    VideoIdRulesMatch(ParseList(s.videoIdMatches), s.playbackSpeed, ctx);
  }

  lemma SomeRuleMatchesThree(c: seq<Rule>, t: seq<Rule>, v: seq<Rule>, ctx: MatchContext)
    ensures SomeRuleMatches(c + t + v, ctx)
      <==> SomeRuleMatches(c, ctx) || SomeRuleMatches(t, ctx) || SomeRuleMatches(v, ctx)
  {
    SomeRuleMatchesConcat(c, t, ctx);
    SomeRuleMatchesConcat(c + t, v, ctx);
  }

  /**
   * The legacy matcher agrees with the current one: the settings match a
   * page exactly when the rule list made of their entries has a first
   * match, and every such rule carries the one legacy speed.
   */
  lemma HasMatchIsFirstMatch(s: Settings, ctx: MatchContext)
    ensures HasMatch(s, ctx) <==> FirstMatch(AsRuleList(s), ctx).Some?
    ensures forall j | 0 <= j < |AsRuleList(s)| :: AsRuleList(s)[j].speed == s.playbackSpeed
  {
    HasMatchAsRules(s, ctx);
    FirstMatchFound(AsRuleList(s), ctx);
    RulesOfSpeeds(ParseList(s.channelMatches), ParseList(s.titleMatches), ParseList(s.videoIdMatches), s.playbackSpeed);
  }

  lemma FirstMatchFound(rules: seq<Rule>, ctx: MatchContext)
    ensures FirstMatch(rules, ctx).Some? <==> SomeRuleMatches(rules, ctx)
  {
    if SomeRuleMatches(rules, ctx) {
      var j :| 0 <= j < |rules| && MatchesRule(rules[j], ctx);
    }
  }

  lemma RulesOfSpeeds(channels: seq<string>, titles: seq<string>, videoIds: seq<string>, speed: string)
    ensures forall j | 0 <= j < |RulesOf(channels, titles, videoIds, speed)| :: RulesOf(channels, titles, videoIds, speed)[j].speed == speed
  {
  }

  /** With every list empty (or only separators and spaces), nothing ever matches. */
  lemma EmptyListsNeverMatch(s: Settings, ctx: MatchContext)
    requires ParseList(s.channelMatches) == [] && ParseList(s.titleMatches) == [] && ParseList(s.videoIdMatches) == []
    ensures !HasMatch(s, ctx)
  {
  }

  /** A page without candidates, title or video id never matches, whatever the lists. */
  lemma EmptyPageNeverMatches(s: Settings, ctx: MatchContext)
    requires ctx.channels == [] && ctx.title == "" && ctx.videoId == ""
    ensures !HasMatch(s, ctx)
  {
  }

  // The page.

  /** `getVideoIdFromUrl` of this script: a non-empty `v` parameter, else the id of a `/shorts/` path, else "". */
  function LegacyVideoId(url: Url): string {
    var v := QueryGet(url.query, "v");
    if v.Some? && v.value != "" then v.value
    else if StartsWith(url.pathname, "/shorts/") then ShortsId(url.pathname)
    else ""
  }

  /** Off `youtu.be` both scripts find the same video id. */
  lemma LegacyVideoIdAgrees(url: Url)
    requires url.hostname != "youtu.be"
    ensures LegacyVideoId(url) == VideoIdFromUrl(url)
  {
  }

  /** On a `youtu.be` address without a `v` parameter this script finds no video id; the current one does. */
  lemma ShortenerIgnoredExample()
    ensures LegacyVideoId(Url("https://youtu.be/abc", "youtu.be", "/abc", [])) == ""
    ensures VideoIdFromUrl(Url("https://youtu.be/abc", "youtu.be", "/abc", [])) == "abc"
  {
    assert !StartsWith("/abc", "/shorts/");
    ShortenerAbc();
  }

  /** The current script reads the id of `youtu.be/abc` as "abc". */
  lemma ShortenerAbc()
    ensures ShortenerId("/abc") == "abc"
  {
    var path := "/abc";
    ShortenerIdSpec(path);
    assert path[1..] == "abc";
    SplitNoSeparator("abc", IdStops);
  }

  /** `hostname.includes("youtube.com")`: this script's test for a YouTube page. */
  predicate OnYouTubeHost(hostname: string) {
    Contains(hostname, "youtube.com")
  }

  /** The substring test accepts a host that the current script's domain list does not. */
  lemma GuardWiderExample()
    ensures OnYouTubeHost("evilyoutube.com") && !Domains.IsRecognizedHost("evilyoutube.com")
  {
    assert OccursAt("evilyoutube.com", "youtube.com", 4);
    Domains.BareSuffixExample();
  }

  // Applying the speed.

  /** What one `forEach` body does to an element's rate: set it when it differs. */
  function SetIfDiffers(video: Video, s: real): Video {
    if video.rate != s then video.(rate := s) else video
  }

  /** The rates after the `forEach` over `vs`. */
  function RateAll(videos: map<VideoRef, Video>, vs: seq<VideoRef>, s: real): (r: map<VideoRef, Video>)
    requires forall v | v in vs :: v in videos
    ensures r.Keys == videos.Keys
    decreases |vs|
  {
    if vs == [] then videos
    else
      var mid := RateAll(videos, vs[..|vs| - 1], s);
      var last := vs[|vs| - 1];
      mid[last := SetIfDiffers(mid[last], s)]
  }

  /** The speeds waiting in an element's one-shot `loadedmetadata` listeners. */
  function Pending(m: map<VideoRef, seq<real>>, v: VideoRef): seq<real> {
    if v in m then m[v] else []
  }

  /** The listeners after the `forEach` over `vs`: one more, with speed `s`, on each element. */
  function DeferAll(m: map<VideoRef, seq<real>>, vs: seq<VideoRef>, s: real): (r: map<VideoRef, seq<real>>)
    decreases |vs|
  {
    if vs == [] then m
    else
      var mid := DeferAll(m, vs[..|vs| - 1], s);
      var last := vs[|vs| - 1];
      mid[last := Pending(mid, last) + [s]]
  }

  /** The pass only adds listeners to listed elements. */
  lemma {:induction false} DeferAllKeys(m: map<VideoRef, seq<real>>, vs: seq<VideoRef>, s: real)
    ensures forall v | v in DeferAll(m, vs, s) :: v in m || v in vs
    decreases |vs|
  {
    if vs != [] {
      DeferAllKeys(m, vs[..|vs| - 1], s);
      assert forall v | v in vs[..|vs| - 1] :: v in vs;
    }
  }

  /** After the pass every listed element plays at `s`, and only their rates changed. */
  lemma {:induction false} RateAllSpec(videos: map<VideoRef, Video>, vs: seq<VideoRef>, s: real)
    requires forall v | v in vs :: v in videos
    ensures forall u | u in videos :: RateAll(videos, vs, s)[u] == (if u in vs then videos[u].(rate := s) else videos[u])
    decreases |vs|
  {
    if vs != [] {
      RateAllSpec(videos, vs[..|vs| - 1], s);
      forall u | u in videos
        ensures RateAll(videos, vs, s)[u] == (if u in vs then videos[u].(rate := s) else videos[u])
      {
        if u != vs[|vs| - 1] && u in vs {
          var j :| 0 <= j < |vs| && vs[j] == u;
          assert vs[..|vs| - 1][j] == u;
        }
      }
    }
  }

  /** After the pass each listed element, listed once, has one more listener; the others none. */
  lemma {:induction false} DeferAllSpec(m: map<VideoRef, seq<real>>, vs: seq<VideoRef>, s: real, u: VideoRef)
    requires Distinct(vs)
    ensures Pending(DeferAll(m, vs, s), u) == Pending(m, u) + (if u in vs then [s] else [])
    decreases |vs|
  {
    if vs != [] {
      var prefix := vs[..|vs| - 1];
      assert Distinct(prefix) by {
        forall i, j | 0 <= i < j < |prefix| ensures prefix[i] != prefix[j] {
          assert prefix[i] == vs[i] && prefix[j] == vs[j];
        }
      }
      DeferAllSpec(m, prefix, s, u);
      if u == vs[|vs| - 1] {
        forall j | 0 <= j < |prefix| ensures prefix[j] != u {
          assert prefix[j] == vs[j];
        }
      } else if u in vs {
        var j :| 0 <= j < |vs| && vs[j] == u;
        assert prefix[j] == u;
      }
    }
  }

  /** How one evaluation ended. */
  datatype Outcome = NotYouTube | NoMatch | Matched(applied: bool)

  /** The one debug message the script writes: what it saw, and whether it matched. */
  datatype DebugEntry = NoMatchLogged(seen: MatchContext, settings: Settings) | MatchLogged(seen: MatchContext, speed: string)

  /** What `hasMatch` is given: `getChannelCandidates`, `getTitle` and `getVideoIdFromUrl` of the page. */
  function ContextOf(page: PageSignals, location: Url): MatchContext {
    MatchContext(ChannelCandidates(page), Signals.Title(page), LegacyVideoId(location))
  }

  /**
   * How `evaluateAndApply` ends: off a YouTube host nothing happens; without
   * a match nothing is applied; on a match the speed is applied when
   * `applies` (a valid speed and at least one video).
   */
  function OutcomeOf(hostname: string, s: Settings, ctx: MatchContext, applies: bool): (r: Outcome)
    ensures r.NotYouTube? <==> !OnYouTubeHost(hostname)
    ensures r.NoMatch? <==> OnYouTubeHost(hostname) && !HasMatch(s, ctx)
    ensures r.Matched? ==> HasMatch(s, ctx) && r.applied == applies
  {
    if !OnYouTubeHost(hostname) then NotYouTube
    else if !HasMatch(s, ctx) then NoMatch
    else Matched(applies)
  }

  /** The debug log after an evaluation: the first one past the host check writes what it saw. */
  function LogAfter(log: seq<DebugEntry>, logged: bool, outcome: Outcome, ctx: MatchContext, s: Settings): seq<DebugEntry> {
    if logged || outcome.NotYouTube? then log
    else if outcome.NoMatch? then [NoMatchLogged(ctx, s)]
    else [MatchLogged(ctx, s.playbackSpeed)]
  }

  /** A storage change makes the script re-read its settings only for one of the four keys in the sync area. */
  predicate RefreshesOnChange(area: string, changed: set<string>) {
    area == "sync" && changed * SettingKeys != {}
  }

  /** `data.x || ""`, where a read falls back to the default it was given for an absent key. */
  function Fetched(stored: Option<string>, default: string): string {
    var v := if stored.Some? then stored.value else default;
    if v != "" then v else ""
  }

  function FetchedSettings(stored: StoredSettings, defaults: Settings): Settings {
    Settings(Fetched(stored.channelMatches, defaults.channelMatches),
             Fetched(stored.videoIdMatches, defaults.videoIdMatches),
             Fetched(stored.titleMatches, defaults.titleMatches),
             Fetched(stored.playbackSpeed, defaults.playbackSpeed))
  }

  /** A stored value replaces a setting; an absent key keeps the default the read was given. */
  lemma FetchedSettingsSpec(stored: StoredSettings, defaults: Settings)
    ensures var r := FetchedSettings(stored, defaults);
      && r.channelMatches == stored.channelMatches.GetOr(defaults.channelMatches)
      && r.videoIdMatches == stored.videoIdMatches.GetOr(defaults.videoIdMatches)
      && r.titleMatches == stored.titleMatches.GetOr(defaults.titleMatches)
      && r.playbackSpeed == stored.playbackSpeed.GetOr(defaults.playbackSpeed)
  {
  }

  /**
   * The legacy content script. The page is part of its state; the browser's
   * timers are `pendingCheckDue` and `startupArmed`, the outstanding storage
   * reads `pendingReads`, each with the defaults it was issued with.
   */
  class LegacyScript {
    /** `Number()` applied to a speed string. */
    const toNumber: string -> JsNumber

    // The page.
    var location: Url
    var page: PageSignals
    /** The connected video elements in document order. */
    var dom: seq<VideoRef>
    /** Every video element the script has seen, connected or not. */
    var videos: map<VideoRef, Video>

    // The script's state.
    var settings: Settings
    /** The speeds of the pending one-shot `loadedmetadata` listeners, per element. */
    var onMetadata: map<VideoRef, seq<real>>
    var pendingCheckDue: Option<nat>
    var hasLoggedDebug: bool
    /** The debug messages written so far. */
    var debugLog: seq<DebugEntry>
    /** The storage reads not yet answered: the settings object each was given as defaults. */
    var pendingReads: seq<Settings>
    var startupAttempts: nat
    var startupArmed: bool

    /** Elements are known and connected once; at most one debug message is ever written. */
    predicate Valid()
      reads this`dom, this`videos, this`onMetadata, this`hasLoggedDebug, this`debugLog,
            this`startupAttempts, this`startupArmed
    {
      (forall v | v in dom :: v in videos) && Distinct(dom)
      && (forall v | v in onMetadata :: v in videos)
      && (hasLoggedDebug <==> debugLog != []) && |debugLog| <= 1
      && startupAttempts <= StartupPollLimit
      && (startupArmed <==> startupAttempts < StartupPollLimit)
    }

    /** The script as loaded: settings empty, their first read outstanding, the start-up poll armed. */
    constructor (toNumber: string -> JsNumber, location: Url, page: PageSignals,
                 dom: seq<VideoRef>, videos: map<VideoRef, Video>)
      requires (forall v | v in dom :: v in videos) && Distinct(dom)
      ensures Valid()
      ensures this.toNumber == toNumber && this.location == location && this.page == page
      ensures this.dom == dom && this.videos == videos
      ensures settings == Settings("", "", "", "")
      ensures onMetadata == map[] && pendingCheckDue == None && !hasLoggedDebug && debugLog == []
      ensures pendingReads == [Settings("", "", "", "")]
      ensures startupAttempts == 0 && startupArmed
    {
      this.toNumber := toNumber;
      this.location := location;
      this.page := page;
      this.dom := dom;
      this.videos := videos;
      settings := Settings("", "", "", "");
      onMetadata := map[];
      pendingCheckDue := None;
      hasLoggedDebug := false;
      debugLog := [];
      pendingReads := [Settings("", "", "", "")];
      startupAttempts := 0;
      startupArmed := true;
    }

    /** The body of the `forEach` for element `v`: set its rate if it differs, add a one-shot listener. */
    method ApplyToVideo(v: VideoRef, s: real)
      requires v in videos
      modifies this`videos, this`onMetadata
      ensures videos == old(videos)[v := SetIfDiffers(old(videos)[v], s)]
      ensures onMetadata == old(onMetadata)[v := Pending(old(onMetadata), v) + [s]]
    {
      if videos[v].rate != s {
        videos := videos[v := videos[v].(rate := s)];
      }
      onMetadata := onMetadata[v := Pending(onMetadata, v) + [s]];
    }

    /**
     * `applyPlaybackRate`: with a speed that converts to a finite number
     * above zero and at least one video, every connected video is set to it
     * and gets one more one-shot `loadedmetadata` listener; otherwise nothing.
     */
    method ApplyPlaybackRate() returns (applied: bool)
      requires Valid()
      modifies this`videos, this`onMetadata
      ensures Valid()
      ensures applied <==> ValidSpeed(settings.playbackSpeed, toNumber) && |dom| > 0
      ensures applied ==>
        var s := SpeedValue(settings.playbackSpeed, toNumber);
        videos == RateAll(old(videos), dom, s) && onMetadata == DeferAll(old(onMetadata), dom, s)
      ensures !applied ==> videos == old(videos) && onMetadata == old(onMetadata)
    {
      if settings.playbackSpeed == "" {
        return false;
      }
      var n := toNumber(settings.playbackSpeed);
      if !n.Finite? || n.value <= 0.0 {
        return false;
      }
      if |dom| == 0 {
        return false;
      }
      ApplyToAll(n.value);
      applied := true;
    }

    /** The `forEach` over the connected videos, in document order. */
    method ApplyToAll(s: real)
      requires Valid()
      modifies this`videos, this`onMetadata
      ensures Valid()
      ensures videos == RateAll(old(videos), dom, s) && onMetadata == DeferAll(old(onMetadata), dom, s)
    {
      var i := 0;
      while i < |dom|
        invariant 0 <= i <= |dom|
        invariant videos == RateAll(old(videos), dom[..i], s)
        invariant onMetadata == DeferAll(old(onMetadata), dom[..i], s)
      {
        assert dom[..i + 1][..i] == dom[..i];
        ApplyToVideo(dom[i], s);
        i := i + 1;
      }
      assert dom[..i] == dom;
      DeferAllKeys(old(onMetadata), dom, s);
    }

    /** The `loadedmetadata` event of element `v`: each one-shot listener sets its speed if it differs, and is removed. */
    method OnLoadedMetadata(v: VideoRef)
      requires Valid() && v in videos
      modifies this`onMetadata, this`videos
      ensures Valid()
      ensures onMetadata == old(onMetadata) - {v}
      ensures var speeds := Pending(old(onMetadata), v);
        videos == (if speeds == [] then old(videos) else old(videos)[v := old(videos)[v].(rate := speeds[|speeds| - 1])])
    {
      var speeds := Pending(onMetadata, v);
      onMetadata := onMetadata - {v};
      var k := 0;
      while k < |speeds|
        invariant 0 <= k <= |speeds|
        invariant v in videos && onMetadata == old(onMetadata) - {v}
        invariant videos == (if k == 0 then old(videos) else old(videos)[v := old(videos)[v].(rate := speeds[k - 1])])
      {
        if videos[v].rate != speeds[k] {
          videos := videos[v := videos[v].(rate := speeds[k])];
        }
        k := k + 1;
      }
    }

    /** The first evaluation to get past the host check writes the one debug message. */
    method LogOnce(entry: DebugEntry)
      requires Valid()
      modifies this`hasLoggedDebug, this`debugLog
      ensures Valid() && hasLoggedDebug
      ensures debugLog == (if old(hasLoggedDebug) then old(debugLog) else [entry])
    {
      if !hasLoggedDebug {
        hasLoggedDebug := true;
        debugLog := [entry];
      }
    }

    /**
     * `evaluateAndApply`: on a host containing "youtube.com", match the page
     * against the three lists, log once, and apply the speed on a match.
     */
    method EvaluateAndApply() returns (outcome: Outcome)
      requires Valid()
      modifies this`videos, this`onMetadata, this`hasLoggedDebug, this`debugLog
      ensures Valid()
      ensures outcome == OutcomeOf(location.hostname, old(settings), ContextOf(page, location), ValidSpeed(settings.playbackSpeed, toNumber) && |dom| > 0)
      ensures hasLoggedDebug == (old(hasLoggedDebug) || !outcome.NotYouTube?)
      ensures debugLog == LogAfter(old(debugLog), old(hasLoggedDebug), outcome, ContextOf(page, location), old(settings))
      ensures outcome == Matched(true) ==>
        var s := SpeedValue(settings.playbackSpeed, toNumber);
        videos == RateAll(old(videos), dom, s) && onMetadata == DeferAll(old(onMetadata), dom, s)
      ensures outcome != Matched(true) ==> videos == old(videos) && onMetadata == old(onMetadata)
    {
      if !OnYouTubeHost(location.hostname) {
        return NotYouTube;
      }
      outcome := MatchAndApply(ContextOf(page, location));
    }

    /** The part of `evaluateAndApply` after the host check. */
    method MatchAndApply(ctx: MatchContext) returns (outcome: Outcome)
      requires Valid()
      modifies this`videos, this`onMetadata, this`hasLoggedDebug, this`debugLog
      ensures Valid() && hasLoggedDebug && !outcome.NotYouTube?
      ensures outcome.NoMatch? <==> !HasMatch(old(settings), ctx)
      ensures outcome.Matched? ==> (outcome.applied <==> ValidSpeed(settings.playbackSpeed, toNumber) && |dom| > 0)
      ensures debugLog == (if old(hasLoggedDebug) then old(debugLog)
                           else if outcome.NoMatch? then [NoMatchLogged(ctx, old(settings))]
                           else [MatchLogged(ctx, old(settings.playbackSpeed))])
      ensures outcome.Matched? && outcome.applied ==>
        var s := SpeedValue(settings.playbackSpeed, toNumber);
        videos == RateAll(old(videos), dom, s) && onMetadata == DeferAll(old(onMetadata), dom, s)
      ensures !(outcome.Matched? && outcome.applied) ==> videos == old(videos) && onMetadata == old(onMetadata)
    {
      if !HasMatch(settings, ctx) {
        LogOnce(NoMatchLogged(ctx, settings));
        return NoMatch;
      }
      var applied := LogAndApply(ctx);
      outcome := Matched(applied);
    }

    /** A match: log once, then apply the speed. */
    method LogAndApply(ctx: MatchContext) returns (applied: bool)
      requires Valid()
      modifies this`videos, this`onMetadata, this`hasLoggedDebug, this`debugLog
      ensures Valid() && hasLoggedDebug
      ensures applied <==> ValidSpeed(settings.playbackSpeed, toNumber) && |dom| > 0
      ensures debugLog == (if old(hasLoggedDebug) then old(debugLog) else [MatchLogged(ctx, settings.playbackSpeed)])
      ensures applied ==>
        var s := SpeedValue(settings.playbackSpeed, toNumber);
        videos == RateAll(old(videos), dom, s) && onMetadata == DeferAll(old(onMetadata), dom, s)
      ensures !applied ==> videos == old(videos) && onMetadata == old(onMetadata)
    {
      LogOnce(MatchLogged(ctx, settings.playbackSpeed));
      applied := ApplyPlaybackRate();
    }

    /** `scheduleEvaluate`: arms the 150 ms check unless one is pending. */
    method ScheduleEvaluate(now: nat)
      modifies this`pendingCheckDue
      ensures pendingCheckDue == (if old(pendingCheckDue).Some? then old(pendingCheckDue) else Some(now + EvaluateDelayMs))
    {
      if pendingCheckDue.Some? {
        return;
      }
      pendingCheckDue := Some(now + EvaluateDelayMs);
    }

    /** The pending check fires: it disarms itself and evaluates. */
    method OnPendingCheck(now: nat) returns (outcome: Outcome)
      requires Valid() && pendingCheckDue.Some? && pendingCheckDue.value <= now
      modifies this`pendingCheckDue, this`videos, this`onMetadata, this`hasLoggedDebug, this`debugLog
      ensures Valid() && pendingCheckDue == None
      ensures outcome == OutcomeOf(location.hostname, settings, ContextOf(page, location), ValidSpeed(settings.playbackSpeed, toNumber) && |dom| > 0)
      ensures hasLoggedDebug == (old(hasLoggedDebug) || !outcome.NotYouTube?)
      ensures debugLog == LogAfter(old(debugLog), old(hasLoggedDebug), outcome, ContextOf(page, location), settings)
      ensures outcome == Matched(true) ==>
        var s := SpeedValue(settings.playbackSpeed, toNumber);
        videos == RateAll(old(videos), dom, s) && onMetadata == DeferAll(old(onMetadata), dom, s)
      ensures outcome != Matched(true) ==> videos == old(videos) && onMetadata == old(onMetadata)
    {
      pendingCheckDue := None;
      outcome := EvaluateAndApply();
    }

    /** `refreshSettings`: a storage read is issued with the current settings as its defaults. */
    method RefreshSettings()
      modifies this`pendingReads
      ensures pendingReads == old(pendingReads) + [settings]
    {
      pendingReads := pendingReads + [settings];
    }

    /**
     * Read `k` is answered: each setting becomes its stored value, or the
     * read's default when absent, and the page is evaluated at once.
     */
    method OnSettingsLoaded(k: nat, stored: StoredSettings) returns (outcome: Outcome)
      requires Valid() && k < |pendingReads|
      modifies this`pendingReads, this`settings, this`videos, this`onMetadata, this`hasLoggedDebug, this`debugLog
      ensures Valid()
      ensures pendingReads == old(pendingReads[..k] + pendingReads[k + 1..])
      ensures settings == FetchedSettings(stored, old(pendingReads[k]))
      ensures outcome == OutcomeOf(location.hostname, settings, ContextOf(page, location), ValidSpeed(settings.playbackSpeed, toNumber) && |dom| > 0)
      ensures hasLoggedDebug == (old(hasLoggedDebug) || !outcome.NotYouTube?)
      ensures debugLog == LogAfter(old(debugLog), old(hasLoggedDebug), outcome, ContextOf(page, location), settings)
      ensures outcome == Matched(true) ==>
        var s := SpeedValue(settings.playbackSpeed, toNumber);
        videos == RateAll(old(videos), dom, s) && onMetadata == DeferAll(old(onMetadata), dom, s)
      ensures outcome != Matched(true) ==> videos == old(videos) && onMetadata == old(onMetadata)
    {
      var loaded := FetchedSettings(stored, pendingReads[k]);
      pendingReads := pendingReads[..k] + pendingReads[k + 1..];
      settings := loaded;
      outcome := EvaluateAndApply();
    }

    /** The `chrome.storage.onChanged` listener: re-read the settings when one of the four changed in sync storage. */
    method OnStorageChanged(area: string, changed: set<string>)
      modifies this`pendingReads
      ensures pendingReads == old(pendingReads) + (if RefreshesOnChange(area, changed) then [settings] else [])
    {
      if area != "sync" {
        return;
      }
      if "channelMatches" in changed || "titleMatches" in changed || "videoIdMatches" in changed
         || "playbackSpeed" in changed {
        assert RefreshesOnChange(area, changed) by {
          var key :| key in changed && key in SettingKeys;
          assert key in changed * SettingKeys;
        }
        RefreshSettings();
      } else {
        assert changed * SettingKeys == {} by {
          forall key | key in changed * SettingKeys ensures false {
          }
        }
      }
    }

    /** A tick of the start-up poll: schedule a check; the poll disarms itself after its 20th tick. */
    method OnStartupTick(now: nat)
      requires Valid() && startupArmed
      modifies this`startupAttempts, this`startupArmed, this`pendingCheckDue
      ensures Valid()
      ensures startupAttempts == old(startupAttempts) + 1
      ensures startupArmed <==> startupAttempts < StartupPollLimit
      ensures pendingCheckDue == (if old(pendingCheckDue).Some? then old(pendingCheckDue) else Some(now + EvaluateDelayMs))
    {
      ScheduleEvaluate(now);
      startupAttempts := startupAttempts + 1;
      if startupAttempts >= StartupPollLimit {
        startupArmed := false;
      }
    }

    // The environment.

    /** The page navigates: a new address and new text signals. */
    method Navigate(url: Url, signals: PageSignals)
      modifies this`location, this`page
      ensures location == url && page == signals
    {
      location := url;
      page := signals;
    }

    /** The page's video elements change; elements the script has seen stay known. */
    method ReplaceVideos(connected: seq<VideoRef>, elements: map<VideoRef, Video>)
      requires Valid()
      requires (forall v | v in connected :: v in elements) && Distinct(connected)
      requires forall v | v in videos :: v in elements
      modifies this`dom, this`videos
      ensures Valid() && dom == connected && videos == elements
    {
      dom := connected;
      videos := elements;
    }
  }
}

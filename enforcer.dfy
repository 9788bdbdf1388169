/**
 * The content script's enforcement state machine: when the page changes, it
 * finds the first rule that matches, sets the speed on every video element,
 * keeps re-asserting it for a while (the player tends to reset it), and backs
 * off for an element whose speed the user changes by hand.
 */
module Enforcer {
  import opened Wrappers
  import opened JsSet
  import opened Page
  import opened Signals
  import opened Rules
  import Domains

  /** The retry loop gives up after this many attempts (one every 350 ms). */
  const MaxSyncAttempts: nat := 30
  /** A rate change this soon after a programmatic set is taken to be the script's own. */
  const ManualChangeWindowMs: nat := 400
  /** Delay of the debounced re-evaluation. */
  const EvaluateDelayMs: nat := 150
  /** The start-up poll stops after this many ticks (one every 500 ms). */
  const StartupPollLimit: nat := 20

  /** The state of one retry loop: the call it belongs to, its speed, the attempts made. */
  datatype SyncLoop = SyncLoop(token: nat, speed: real, attempts: nat)

  /** The retry loops' bookkeeping and the rates posted to the page, as one value. */
  datatype RetryState = RetryState(
    token: nat, intervalId: Option<nat>, intervals: map<nat, SyncLoop>, nextTimerId: nat, pageRequests: seq<real>)

  /** What the matcher sees of the page. */
  function ContextOf(page: PageSignals, location: Url): MatchContext {
    MatchContext(ChannelCandidates(page), Signals.Title(page), VideoIdFromUrl(location))
  }

  /** A video-id rule applies to a page exactly when its trimmed value is the id the page's address gives. */
  lemma VideoIdRuleOnPage(rule: Rule, page: PageSignals, location: Url)
    requires rule.kind == VideoId
    ensures MatchesRule(rule, ContextOf(page, location))
      <==> VideoIdFromUrl(location) != "" && Text.Trim(rule.value) == VideoIdFromUrl(location)
  {
    VideoIdMatchIsExact(rule, ContextOf(page, location));
  }

  /** The addresses of the example below and the ids they give. */
  const ShortUrl := Url("https://youtu.be/abc?t=5", "youtu.be", "/abc", [QueryParam("t", "5")])
  const WatchUrl := Url("https://www.youtube.com/watch?v=abc", "www.youtube.com", "/watch", [QueryParam("v", "abc")])
  const ShortsUrl := Url("https://www.youtube.com/shorts/ABC", "www.youtube.com", "/shorts/ABC", [])

  lemma ShortUrlId()
    ensures VideoIdFromUrl(ShortUrl) == "abc"
  {
    assert Text.Split("/abc", {'/'}) == ["", "abc"] by {
      assert "/abc" == "" + ['/'] + "abc";
      Text.SplitAtSeparator("", '/', "abc", {'/'});
      Text.SplitNoSeparator("abc", {'/'});
    }
    Text.SplitNoSeparator("abc", IdStops);
  }

  lemma WatchUrlId()
    ensures VideoIdFromUrl(WatchUrl) == "abc"
  {
    assert QueryGet(WatchUrl.query, "v") == Some("abc");
  }

  lemma ShortsUrlId()
    ensures VideoIdFromUrl(ShortsUrl) == "ABC"
  {
    assert Text.StartsWith("/shorts/ABC", "/shorts/");
    assert "/shorts/ABC"[8..] == "ABC";
    Text.SplitNoSeparator("ABC", IdStops);
  }

  lemma TrimmedAbc()
    ensures Text.Trim(" abc ") == "abc"
  {
    assert Text.TrimStart(" abc ") == "abc ";
    assert Text.TrimEnd("abc ") == "abc";
  }

  /** The rule " abc " applies on `youtu.be/abc` and on `watch?v=abc`, but not on `/shorts/ABC`: ids keep their case. */
  lemma VideoIdRuleExample(page: PageSignals)
    ensures var rule := Rule("", VideoId, " abc ", "2");
      && MatchesRule(rule, ContextOf(page, ShortUrl))
      && MatchesRule(rule, ContextOf(page, WatchUrl))
      && !MatchesRule(rule, ContextOf(page, ShortsUrl))
  {
    var rule := Rule("", VideoId, " abc ", "2");
    ShortUrlId();
    WatchUrlId();
    ShortsUrlId();
    TrimmedAbc();
    VideoIdRuleOnPage(rule, page, ShortUrl);
    VideoIdRuleOnPage(rule, page, WatchUrl);
    VideoIdRuleOnPage(rule, page, ShortsUrl);
  }

  /**
   * What `applyPlaybackRateOnce` does once its checks pass with speed `s`,
   * from elements `e0` and retry state `r0` to `e1` and `r1`: the pass over
   * the connected videos `dom` (`TouchAll`), then a new retry loop whose
   * first attempt posts the rate and sets the first video, unless that video
   * is overridden.
   */
  predicate Applies(e0: Enforced, r0: RetryState, dom: seq<VideoRef>, s: real, now: nat, overridden: bool,
                    e1: Enforced, r1: RetryState)
    requires forall v | v in dom :: v in e0.videos
  {
    var e := TouchAll(e0, dom, s, now);
    && |dom| > 0
    && r1.token == r0.token + 1 && r1.nextTimerId == r0.nextTimerId + 1 && r1.intervalId == Some(r0.nextTimerId)
    && r1.intervals == Cleared(r0.intervals, r0.intervalId)[r0.nextTimerId := SyncLoop(r1.token, s, 1)]
    && (overridden ==> e1 == e && r1.pageRequests == r0.pageRequests)
    && (!overridden ==>
          && e1 == e.(videos := SetRate(e.videos, dom[0], s), lastSet := Stamp(e.videos, dom[0], s, e.lastSet, now))
          && r1.pageRequests == r0.pageRequests + [s])
  }

  /** How one evaluation ended. */
  datatype Outcome = NotYouTube | AlreadyApplied | NoMatch | Matched(index: nat, applied: bool)

  /** `document.querySelector('video')`: the first connected video element. */
  function FirstVideo(dom: seq<VideoRef>): Option<VideoRef> {
    if |dom| == 0 then None else Some(dom[0])
  }

  /** The speeds waiting in an element's one-shot listeners of one kind. */
  function Pending(m: map<VideoRef, seq<real>>, v: VideoRef): seq<real> {
    if v in m then m[v] else []
  }

  /** Adds a one-shot listener with speed `x` to element `v`. */
  function Defer(m: map<VideoRef, seq<real>>, v: VideoRef, x: real): map<VideoRef, seq<real>> {
    m[v := Pending(m, v) + [x]]
  }

  /** A deferred listener is added to its own element only. */
  lemma PendingDefer(m: map<VideoRef, seq<real>>, v: VideoRef, x: real, u: VideoRef)
    ensures Pending(Defer(m, v, x), u) == Pending(m, u) + (if u == v then [x] else [])
  { }

  /** `registerRateChangeListener`: an element keeps the target of its first registration. */
  function Register(listeners: map<VideoRef, real>, v: VideoRef, target: real): map<VideoRef, real> {
    if v in listeners then listeners else listeners[v := target]
  }

  /** The element map after `setVideoPlaybackRate`: only the rate of `v` is `speed` (it may have been already). */
  function SetRate(videos: map<VideoRef, Video>, v: VideoRef, speed: real): map<VideoRef, Video>
    requires v in videos
  {
    videos[v := videos[v].(rate := speed)]
  }

  /** The clock stamp after `setVideoPlaybackRate`: moved to `now` only when the rate changes. */
  function Stamp(videos: map<VideoRef, Video>, v: VideoRef, speed: real, last: nat, now: nat): nat
    requires v in videos
  {
    if videos[v].rate == speed then last else now
  }

  /** The part of the script's state one pass of `applyPlaybackRateOnce` over the elements changes. */
  datatype Enforced = Enforced(
    videos: map<VideoRef, Video>,
    rateListeners: map<VideoRef, real>,
    onMetadata: map<VideoRef, seq<real>>,
    onPlaying: map<VideoRef, seq<real>>,
    lastSet: nat)

  predicate Ready(videos: map<VideoRef, Video>, v: VideoRef)
    requires v in videos
  {
    videos[v].readyState >= 1
  }

  /**
   * The body of the `forEach` in `applyPlaybackRateOnce` for one element:
   * register the rate-change listener, then set the rate now when metadata is
   * loaded, or leave it to one-shot `loadedmetadata` and `playing` listeners.
   */
  function TouchOne(e: Enforced, v: VideoRef, speed: real, now: nat): Enforced
    requires v in e.videos
  {
    var registered := e.(rateListeners := Register(e.rateListeners, v, speed));
    if Ready(e.videos, v) then
      registered.(videos := SetRate(e.videos, v, speed), lastSet := Stamp(e.videos, v, speed, e.lastSet, now))
    else
      registered.(onMetadata := Defer(e.onMetadata, v, speed), onPlaying := Defer(e.onPlaying, v, speed))
  }

  /** The whole `forEach`, element by element in document order. */
  function TouchAll(e: Enforced, vs: seq<VideoRef>, speed: real, now: nat): (r: Enforced)
    requires forall v | v in vs :: v in e.videos
    ensures r.videos.Keys == e.videos.Keys
    decreases |vs|
  {
    if vs == [] then e
    else
      var mid := TouchAll(e, vs[..|vs| - 1], speed, now);
      TouchOne(mid, vs[|vs| - 1], speed, now)
  }

  /** The pass changes rates only, never an element's `readyState`. */
  lemma {:induction false} TouchAllKeepsReadiness(e: Enforced, vs: seq<VideoRef>, speed: real, now: nat)
    requires forall v | v in vs :: v in e.videos
    ensures forall u | u in e.videos :: TouchAll(e, vs, speed, now).videos[u].readyState == e.videos[u].readyState
    decreases |vs|
  {
    if vs != [] {
      TouchAllKeepsReadiness(e, vs[..|vs| - 1], speed, now);
    }
  }

  /** Some element of `vs` is ready and not yet at `speed`. */
  predicate ChangesSomeRate(videos: map<VideoRef, Video>, vs: seq<VideoRef>, speed: real)
    requires forall v | v in vs :: v in videos
  {
    exists k | 0 <= k < |vs| :: Ready(videos, vs[k]) && videos[vs[k]].rate != speed
  }

  /** After the pass, every ready element runs at `speed`; all other rates are as before. */
  lemma {:induction false} TouchAllRates(e: Enforced, vs: seq<VideoRef>, speed: real, now: nat)
    requires forall v | v in vs :: v in e.videos
    ensures forall u | u in e.videos ::
      TouchAll(e, vs, speed, now).videos[u].rate
        == (if u in vs && Ready(e.videos, u) then speed else e.videos[u].rate)
    decreases |vs|
  {
    if vs != [] {
      var prefix := vs[..|vs| - 1];
      TouchAllRates(e, prefix, speed, now);
      TouchAllKeepsReadiness(e, prefix, speed, now);
      assert forall u | u in vs :: u in prefix || u == vs[|vs| - 1];
    }
  }

  /**
   * After the pass, every element of `vs` has a rate-change listener; an
   * element that had one keeps its first target, a new one gets `speed`, and
   * no other element gains one.
   */
  lemma {:induction false} TouchAllListeners(e: Enforced, vs: seq<VideoRef>, speed: real, now: nat)
    requires forall v | v in vs :: v in e.videos
    ensures forall u :: u in TouchAll(e, vs, speed, now).rateListeners <==> u in e.rateListeners || u in vs
    ensures forall u | u in TouchAll(e, vs, speed, now).rateListeners ::
      TouchAll(e, vs, speed, now).rateListeners[u] == (if u in e.rateListeners then e.rateListeners[u] else speed)
    decreases |vs|
  {
    if vs != [] {
      var prefix := vs[..|vs| - 1];
      var mid := TouchAll(e, prefix, speed, now);
      TouchAllListeners(e, prefix, speed, now);
      TouchAllKeepsReadiness(e, prefix, speed, now);
      assert TouchAll(e, vs, speed, now).rateListeners == Register(mid.rateListeners, vs[|vs| - 1], speed);
      assert forall u | u in vs :: u in prefix || u == vs[|vs| - 1];
    }
  }

  /** Dropping the last element of a list without repeats. */
  lemma DistinctPrefix<T>(vs: seq<T>)
    requires vs != [] && Distinct(vs)
    ensures Distinct(vs[..|vs| - 1]) && vs[|vs| - 1] !in vs[..|vs| - 1]
  {
    var prefix := vs[..|vs| - 1];
    assert forall j | 0 <= j < |prefix| :: prefix[j] == vs[j];
  }

  /** Each element without metadata gains exactly one `loadedmetadata` listener. */
  lemma {:induction false} TouchAllDeferredMetadata(e: Enforced, vs: seq<VideoRef>, speed: real, now: nat)
    requires forall v | v in vs :: v in e.videos
    requires Distinct(vs)
    ensures forall u | u in e.videos ::
      Pending(TouchAll(e, vs, speed, now).onMetadata, u)
        == Pending(e.onMetadata, u) + (if u in vs && !Ready(e.videos, u) then [speed] else [])
    decreases |vs|
  {
    if vs != [] {
      var prefix := vs[..|vs| - 1];
      var last := vs[|vs| - 1];
      DistinctPrefix(vs);
      TouchAllDeferredMetadata(e, prefix, speed, now);
      TouchAllKeepsReadiness(e, prefix, speed, now);
      var mid := TouchAll(e, prefix, speed, now);
      var r := TouchAll(e, vs, speed, now);
      assert r.onMetadata == (if Ready(e.videos, last) then mid.onMetadata else Defer(mid.onMetadata, last, speed));
      forall u | u in e.videos
        ensures Pending(r.onMetadata, u) == Pending(e.onMetadata, u) + (if u in vs && !Ready(e.videos, u) then [speed] else [])
      {
        if !Ready(e.videos, last) {
          PendingDefer(mid.onMetadata, last, speed, u);
        }
        if u != last {
          assert u in vs <==> u in prefix;
        }
      }
    }
  }

  /** Each element without metadata gains exactly one `playing` listener. */
  lemma {:induction false} TouchAllDeferredPlaying(e: Enforced, vs: seq<VideoRef>, speed: real, now: nat)
    requires forall v | v in vs :: v in e.videos
    requires Distinct(vs)
    ensures forall u | u in e.videos ::
      Pending(TouchAll(e, vs, speed, now).onPlaying, u)
        == Pending(e.onPlaying, u) + (if u in vs && !Ready(e.videos, u) then [speed] else [])
    decreases |vs|
  {
    if vs != [] {
      var prefix := vs[..|vs| - 1];
      var last := vs[|vs| - 1];
      DistinctPrefix(vs);
      TouchAllDeferredPlaying(e, prefix, speed, now);
      TouchAllKeepsReadiness(e, prefix, speed, now);
      var mid := TouchAll(e, prefix, speed, now);
      var r := TouchAll(e, vs, speed, now);
      assert r.onPlaying == (if Ready(e.videos, last) then mid.onPlaying else Defer(mid.onPlaying, last, speed));
      forall u | u in e.videos
        ensures Pending(r.onPlaying, u) == Pending(e.onPlaying, u) + (if u in vs && !Ready(e.videos, u) then [speed] else [])
      {
        if !Ready(e.videos, last) {
          PendingDefer(mid.onPlaying, last, speed, u);
        }
        if u != last {
          assert u in vs <==> u in prefix;
        }
      }
    }
  }

  /** Extending the elements by one. */
  lemma ChangesSomeRateSnoc(videos: map<VideoRef, Video>, vs: seq<VideoRef>, speed: real)
    requires vs != [] && forall v | v in vs :: v in videos
    ensures ChangesSomeRate(videos, vs, speed)
      <==> ChangesSomeRate(videos, vs[..|vs| - 1], speed)
           || (Ready(videos, vs[|vs| - 1]) && videos[vs[|vs| - 1]].rate != speed)
  {
    var prefix := vs[..|vs| - 1];
    assert forall j | 0 <= j < |prefix| :: prefix[j] == vs[j];
  }

  /** The pass stamps the clock exactly when it changes the rate of some ready element. */
  lemma {:induction false} TouchAllClock(e: Enforced, vs: seq<VideoRef>, speed: real, now: nat)
    requires forall v | v in vs :: v in e.videos
    ensures TouchAll(e, vs, speed, now).lastSet == (if ChangesSomeRate(e.videos, vs, speed) then now else e.lastSet)
    decreases |vs|
  {
    if vs != [] {
      var prefix := vs[..|vs| - 1];
      var last := vs[|vs| - 1];
      TouchAllClock(e, prefix, speed, now);
      TouchAllKeepsReadiness(e, prefix, speed, now);
      TouchAllRates(e, prefix, speed, now);
      ChangesSomeRateSnoc(e.videos, vs, speed);
      if last in prefix && Ready(e.videos, last) {
        var j :| 0 <= j < |prefix| && prefix[j] == last;
      }
    }
  }

  /** `intervals` after `clearInterval(syncIntervalId)`. */
  function Cleared(intervals: map<nat, SyncLoop>, id: Option<nat>): map<nat, SyncLoop> {
    if id.Some? then intervals - {id.value} else intervals
  }

  /** The rate-change handler's test for a change made by the user. */
  predicate IsManualChange(connected: bool, rate: real, target: real, now: nat, lastSet: nat) {
    connected && rate != target && now - lastSet >= ManualChangeWindowMs as int
  }

  /** The connected elements are known and listed once; listeners are on known elements. */
  predicate ElementsValid(dom: seq<VideoRef>, videos: map<VideoRef, Video>, rateListeners: map<VideoRef, real>) {
    (forall v | v in dom :: v in videos) && Distinct(dom)
    && (forall v | v in rateListeners :: v in videos)
  }

  /**
   * The retry loops: timer ids are fresh, tokens never exceed the current
   * one, and the interval of the current call, if still armed, is the one
   * `syncIntervalId` names and has attempts left.
   */
  predicate SyncValid(syncToken: nat, syncIntervalId: Option<nat>, intervals: map<nat, SyncLoop>, nextTimerId: nat) {
    (forall id | id in intervals ::
       id < nextTimerId && intervals[id].token <= syncToken && intervals[id].attempts >= 1)
    && (syncIntervalId.Some? ==>
          syncIntervalId.value in intervals
          && intervals[syncIntervalId.value].token == syncToken
          && intervals[syncIntervalId.value].attempts < MaxSyncAttempts)
    && (forall id | id in intervals && intervals[id].token == syncToken :: syncIntervalId == Some(id))
  }

  /** The outstanding reads once read `k` is answered: the others, in the order they were issued. */
  function Answered(issued: seq<seq<Rule>>, k: nat): (r: seq<seq<Rule>>)
    requires k < |issued|
    ensures |r| == |issued| - 1
    ensures forall j | 0 <= j < |r| :: r[j] == if j < k then issued[j] else issued[j + 1]
  {
    issued[..k] + issued[k + 1..]
  }

  /** A change in `chrome.storage` makes the script re-read its settings only when `rules` changed in the sync area. */
  predicate RefreshesOnChange(area: string, changed: set<string>) {
    area == "sync" && "rules" in changed
  }

  /** Setting the rate to each of `speeds` in turn, from `rate`, changes it at some step. */
  predicate SomeStepChanges(rate: real, speeds: seq<real>) {
    exists k | 0 <= k < |speeds| :: StepChanges(rate, speeds, k)
  }

  /** Step `k` of setting the rate to each of `speeds` in turn, from `rate`, changes it. */
  predicate StepChanges(rate: real, speeds: seq<real>, k: nat)
    requires k < |speeds|
  {
    speeds[k] != (if k == 0 then rate else speeds[k - 1])
  }

  /**
   * The content script. The page (address, text signals, video elements) is
   * part of its state, changed by the environment methods at the end; the
   * browser's timers are the fields `intervals`, `pendingCheckDue` and
   * `startupArmed`, which the tick methods consume.
   */
  class ContentScript {
    /** `Number()` applied to a speed string. */
    const toNumber: string -> JsNumber
    /** The generated list of domains the script is built with. */
    const recognizedDomains: seq<string>

    // The page.
    var location: Url
    var page: PageSignals
    /** The connected video elements in document order. */
    var dom: seq<VideoRef>
    /** Every video element the script has seen, connected or not. */
    var videos: map<VideoRef, Video>

    // The script's state.
    var rules: seq<Rule>
    var appliedForKey: Option<string>
    var appliedForVideo: Option<VideoRef>
    var manualOverrideForVideo: Option<VideoRef>
    var lastProgrammaticRateSet: nat
    /** The elements with a rate-change listener, each with the target it captured. */
    var rateListeners: map<VideoRef, real>
    /** The speeds of the pending one-shot `loadedmetadata` listeners, per element. */
    var onMetadata: map<VideoRef, seq<real>>
    /** The speeds of the pending one-shot `playing` listeners, per element. */
    var onPlaying: map<VideoRef, seq<real>>
    var syncToken: nat
    var syncIntervalId: Option<nat>
    /** The armed retry-loop intervals, by timer id. */
    var intervals: map<nat, SyncLoop>
    var nextTimerId: nat
    /** The rates posted to the page bridge, oldest first. */
    var pageRequests: seq<real>
    /** When the debounced evaluation is due, if one is armed. */
    var pendingCheckDue: Option<nat>
    /** The storage reads not yet answered: the rules each was given as defaults. */
    var pendingReads: seq<seq<Rule>>
    var startupAttempts: nat
    var startupArmed: bool

    predicate Valid()
      reads this`dom, this`videos, this`rateListeners, this`syncToken, this`syncIntervalId, this`intervals,
            this`nextTimerId, this`startupAttempts, this`startupArmed
    {
      ElementsValid(dom, videos, rateListeners)
      && SyncValid(syncToken, syncIntervalId, intervals, nextTimerId)
      && startupAttempts <= StartupPollLimit
      && (startupArmed <==> startupAttempts < StartupPollLimit)
    }

    /** The state one pass of `applyPlaybackRateOnce` over the elements changes. */
    function Snapshot(): Enforced
      reads this`videos, this`rateListeners, this`onMetadata, this`onPlaying, this`lastProgrammaticRateSet
    {
      Enforced(videos, rateListeners, onMetadata, onPlaying, lastProgrammaticRateSet)
    }

    /** `isYouTubeHost(window.location.hostname)`. */
    predicate OnYouTube()
      reads this`location
    {
      Domains.RecognizedIn(location.hostname, recognizedDomains)
    }

    /** The early return of `evaluateAndApply`: same key, and the rate was applied to the current video. */
    predicate AlreadyDone()
      reads this`appliedForKey, this`location, this`appliedForVideo, this`dom
    {
      appliedForKey == Some(MatchKey(location)) && appliedForVideo.Some? && appliedForVideo == FirstVideo(dom)
    }

    /** The override after `evaluateAndApply`'s check: cleared when the key is the same but the video is not. */
    function OverrideAfterCheck(): Option<VideoRef>
      reads this`appliedForKey, this`location, this`appliedForVideo, this`dom, this`manualOverrideForVideo
    {
      if appliedForKey == Some(MatchKey(location)) && FirstVideo(dom).Some? && appliedForVideo != FirstVideo(dom)
      then None
      else manualOverrideForVideo
    }

    /** The user changed the current video's rate by hand. */
    predicate Overridden()
      reads this`manualOverrideForVideo, this`dom
    {
      manualOverrideForVideo.Some? && manualOverrideForVideo == FirstVideo(dom)
    }

    /** The state of the retry loops and of the page bridge. */
    function Retry(): RetryState
      reads this`syncToken, this`syncIntervalId, this`intervals, this`nextTimerId, this`pageRequests
    {
      RetryState(syncToken, syncIntervalId, intervals, nextTimerId, pageRequests)
    }

    /** The script as loaded: no rules yet (the settings read is outstanding), the start-up poll armed. */
    constructor (toNumber: string -> JsNumber, location: Url, page: PageSignals,
                 dom: seq<VideoRef>, videos: map<VideoRef, Video>)
      requires (forall v | v in dom :: v in videos) && Distinct(dom)
      ensures Valid()
      ensures this.toNumber == toNumber && recognizedDomains == Domains.YouTubeDomains
      ensures this.location == location && this.page == page
      ensures this.dom == dom && this.videos == videos
      ensures rules == [] && appliedForKey == None && appliedForVideo == None && manualOverrideForVideo == None
      ensures rateListeners == map[] && onMetadata == map[] && onPlaying == map[]
      ensures syncToken == 0 && syncIntervalId == None && intervals == map[] && pageRequests == []
      ensures pendingCheckDue == None && startupAttempts == 0 && startupArmed
      ensures pendingReads == [[]]
    {
      this.toNumber := toNumber;
      recognizedDomains := Domains.YouTubeDomains;
      this.location := location;
      this.page := page;
      this.dom := dom;
      this.videos := videos;
      rules := [];
      appliedForKey := None;
      appliedForVideo := None;
      manualOverrideForVideo := None;
      lastProgrammaticRateSet := 0;
      rateListeners := map[];
      onMetadata := map[];
      onPlaying := map[];
      syncToken := 0;
      syncIntervalId := None;
      intervals := map[];
      nextTimerId := 1;
      pageRequests := [];
      pendingCheckDue := None;
      startupAttempts := 0;
      startupArmed := true;
      pendingReads := [[]];
    }

    /** `setVideoPlaybackRate`: sets the rate, and stamps the clock, only when it differs. */
    method SetVideoPlaybackRate(v: VideoRef, speed: real, now: nat)
      requires Valid() && v in videos
      modifies this`videos, this`lastProgrammaticRateSet
      ensures Valid()
      ensures videos == SetRate(old(videos), v, speed)
      ensures lastProgrammaticRateSet == Stamp(old(videos), v, speed, old(lastProgrammaticRateSet), now)
    {
      if videos[v].rate == speed {
        return;
      }
      lastProgrammaticRateSet := now;
      videos := videos[v := videos[v].(rate := speed)];
    }

    /** `registerRateChangeListener`: at most one listener per element, keeping its first target. */
    method RegisterRateChangeListener(v: VideoRef, target: real)
      requires Valid() && v in videos
      modifies this`rateListeners
      ensures Valid()
      ensures rateListeners == Register(old(rateListeners), v, target)
    {
      if v in rateListeners {
        return;
      }
      rateListeners := rateListeners[v := target];
    }

    /** `clearInterval(syncIntervalId); syncIntervalId = null`. */
    method ClearSyncInterval()
      requires Valid()
      modifies this`syncIntervalId, this`intervals
      ensures Valid()
      ensures syncIntervalId == None && intervals == Cleared(old(intervals), old(syncIntervalId))
    {
      if syncIntervalId.Some? {
        intervals := intervals - {syncIntervalId.value};
        syncIntervalId := None;
      }
    }

    /**
     * The `ratechange` listener of element `v`: a change that is not to the
     * captured target and comes at least 400 ms after the last programmatic
     * set marks the element as overridden and stops the retry loop.
     */
    method OnRateChange(v: VideoRef, now: nat)
      requires Valid() && v in rateListeners
      modifies this`manualOverrideForVideo, this`syncIntervalId, this`intervals
      ensures Valid()
      ensures IsManualChange(v in dom, videos[v].rate, rateListeners[v], now, lastProgrammaticRateSet) ==>
        manualOverrideForVideo == Some(v) && syncIntervalId == None
        && intervals == Cleared(old(intervals), old(syncIntervalId))
      ensures !IsManualChange(v in dom, videos[v].rate, rateListeners[v], now, lastProgrammaticRateSet) ==>
        unchanged(this`manualOverrideForVideo, this`syncIntervalId, this`intervals)
    {
      if v !in dom {
        return;
      }
      if videos[v].rate == rateListeners[v] {
        return;
      }
      if now - lastProgrammaticRateSet < ManualChangeWindowMs as int {
        return;
      }
      manualOverrideForVideo := Some(v);
      ClearSyncInterval();
    }

    /**
     * One attempt of a retry loop (the `trySync` closure), given the loop's
     * state before it; returns the loop's attempt count after it. An attempt
     * of an earlier call does nothing. Otherwise, unless the current video is
     * overridden (which stops the loop), it posts the rate to the page and
     * sets it on the current video; the loop stops after its 30th attempt.
     */
    method TrySync(loop: SyncLoop, now: nat) returns (attempts: nat)
      requires Valid()
      modifies this`videos, this`lastProgrammaticRateSet, this`pageRequests, this`syncIntervalId, this`intervals
      ensures Valid()
      ensures loop.token != syncToken ==>
        attempts == loop.attempts
        && unchanged(this`videos, this`lastProgrammaticRateSet, this`pageRequests, this`syncIntervalId, this`intervals)
      ensures loop.token == syncToken ==> attempts == loop.attempts + 1
      ensures loop.token == syncToken && Overridden() ==>
        && syncIntervalId == None && intervals == Cleared(old(intervals), old(syncIntervalId))
        && unchanged(this`videos, this`lastProgrammaticRateSet, this`pageRequests)
      ensures loop.token == syncToken && !Overridden() ==>
        && pageRequests == old(pageRequests) + [loop.speed]
        && videos == (if dom == [] then old(videos) else SetRate(old(videos), dom[0], loop.speed))
        && lastProgrammaticRateSet == (if dom == [] then old(lastProgrammaticRateSet)
             else Stamp(old(videos), dom[0], loop.speed, old(lastProgrammaticRateSet), now))
        && (attempts >= MaxSyncAttempts ==>
              syncIntervalId == None && intervals == Cleared(old(intervals), old(syncIntervalId)))
        && (attempts < MaxSyncAttempts ==> unchanged(this`syncIntervalId, this`intervals))
    {
      if loop.token != syncToken {
        return loop.attempts;
      }
      attempts := loop.attempts + 1;
      var video := FirstVideo(dom);
      if manualOverrideForVideo.Some? && manualOverrideForVideo == video {
        ClearSyncInterval();
        return;
      }
      pageRequests := pageRequests + [loop.speed];
      if video.Some? && videos[video.value].rate != loop.speed {
        SetVideoPlaybackRate(video.value, loop.speed, now);
      }
      if attempts >= MaxSyncAttempts {
        ClearSyncInterval();
      }
    }

    /**
     * The armed interval `id` fires. A tick of a loop that a later call
     * replaced changes nothing; a tick of the current loop is one more
     * attempt, recorded in the interval while it stays armed.
     */
    method OnSyncTick(id: nat, now: nat)
      requires Valid() && id in intervals
      modifies this`videos, this`lastProgrammaticRateSet, this`pageRequests, this`syncIntervalId, this`intervals
      ensures Valid()
      ensures old(intervals[id].token) != syncToken ==>
        unchanged(this`videos, this`lastProgrammaticRateSet, this`pageRequests, this`syncIntervalId, this`intervals)
      ensures var loop := old(intervals[id]);
        loop.token == syncToken ==>
        && old(syncIntervalId) == Some(id)
        && (Overridden() ==>
              syncIntervalId == None && intervals == old(intervals) - {id}
              && unchanged(this`videos, this`lastProgrammaticRateSet, this`pageRequests))
        && (!Overridden() ==>
              && pageRequests == old(pageRequests) + [loop.speed]
              && videos == (if dom == [] then old(videos) else SetRate(old(videos), dom[0], loop.speed))
              && (loop.attempts + 1 >= MaxSyncAttempts ==> syncIntervalId == None && intervals == old(intervals) - {id})
              && (loop.attempts + 1 < MaxSyncAttempts ==>
                    syncIntervalId == Some(id) && intervals == old(intervals)[id := loop.(attempts := loop.attempts + 1)]))
    {
      var loop := intervals[id];
      var attempts := TrySync(loop, now);
      if loop.token == syncToken && id in intervals {
        intervals := intervals[id := loop.(attempts := attempts)];
      }
    }

    /** The start of `syncPlaybackRateWithPlayer`: a new token, and the current loop's interval cleared. */
    method BeginSync()
      requires Valid()
      modifies this`syncToken, this`syncIntervalId, this`intervals
      ensures Valid()
      ensures syncToken == old(syncToken) + 1
      ensures syncIntervalId == None && intervals == Cleared(old(intervals), old(syncIntervalId))
      ensures forall id | id in intervals :: intervals[id].token < syncToken
    {
      syncToken := syncToken + 1;
      if syncIntervalId.Some? {
        intervals := intervals - {syncIntervalId.value};
        syncIntervalId := None;
      }
    }

    /** `syncIntervalId = window.setInterval(trySync, 350)`: arms a fresh interval for `loop`. */
    method ArmSyncInterval(loop: SyncLoop)
      requires Valid()
      requires syncIntervalId == None && loop.token == syncToken && 1 <= loop.attempts < MaxSyncAttempts
      modifies this`nextTimerId, this`syncIntervalId, this`intervals
      ensures Valid()
      ensures nextTimerId == old(nextTimerId) + 1
      ensures syncIntervalId == Some(old(nextTimerId)) && intervals == old(intervals)[old(nextTimerId) := loop]
    {
      var id := nextTimerId;
      nextTimerId := nextTimerId + 1;
      intervals := intervals[id := loop];
      syncIntervalId := Some(id);
    }

    /**
     * `syncPlaybackRateWithPlayer`: a new call (a new token) replaces the
     * retry loop, makes its first attempt at once and arms an interval for
     * the rest, even when that first attempt found the video overridden.
     */
    method SyncPlaybackRateWithPlayer(speed: real, now: nat)
      requires Valid()
      modifies this`syncToken, this`nextTimerId, this`syncIntervalId, this`intervals,
               this`videos, this`lastProgrammaticRateSet, this`pageRequests
      ensures Valid()
      ensures syncToken == old(syncToken) + 1 && nextTimerId == old(nextTimerId) + 1
      ensures syncIntervalId == Some(old(nextTimerId))
      ensures intervals == Cleared(old(intervals), old(syncIntervalId))[old(nextTimerId) := SyncLoop(syncToken, speed, 1)]
      ensures Overridden() ==> unchanged(this`videos, this`lastProgrammaticRateSet, this`pageRequests)
      ensures Synced(videos, lastProgrammaticRateSet, Retry())
        == SyncOnce(Synced(old(videos), old(lastProgrammaticRateSet), old(Retry())), dom, Overridden(), speed, now)
      ensures !Overridden() ==>
        && pageRequests == old(pageRequests) + [speed]
        && videos == (if dom == [] then old(videos) else SetRate(old(videos), dom[0], speed))
        && lastProgrammaticRateSet == (if dom == [] then old(lastProgrammaticRateSet)
             else Stamp(old(videos), dom[0], speed, old(lastProgrammaticRateSet), now))
    {
      BeginSync();
      var attempts := TrySync(SyncLoop(syncToken, speed, 0), now);
      ArmSyncInterval(SyncLoop(syncToken, speed, attempts));
    }

    /** The body of `applyPlaybackRateOnce`'s `forEach` for element `v`. */
    method TouchVideo(v: VideoRef, speed: real, now: nat)
      requires Valid() && v in videos
      modifies this`videos, this`lastProgrammaticRateSet, this`rateListeners, this`onMetadata, this`onPlaying
      ensures Valid()
      ensures Snapshot() == TouchOne(old(Snapshot()), v, speed, now)
    {
      RegisterRateChangeListener(v, speed);
      if videos[v].readyState >= 1 {
        SetVideoPlaybackRate(v, speed, now);
      } else {
        onMetadata := Defer(onMetadata, v, speed);
        onPlaying := Defer(onPlaying, v, speed);
      }
    }

    /** The `forEach` of `applyPlaybackRateOnce`; `applied` is set by every element's pass. */
    method TouchVideos(speed: real, now: nat) returns (applied: bool)
      requires Valid()
      modifies this`videos, this`lastProgrammaticRateSet, this`rateListeners, this`onMetadata, this`onPlaying
      ensures Valid()
      ensures applied <==> |dom| > 0
      ensures Snapshot() == TouchAll(old(Snapshot()), dom, speed, now)
    {
      applied := false;
      var i := 0;
      while i < |dom|
        invariant 0 <= i <= |dom|
        invariant Valid()
        invariant forall v | v in dom :: v in old(videos)
        invariant Snapshot() == TouchAll(old(Snapshot()), dom[..i], speed, now)
        invariant applied <==> i > 0
      {
        TouchVideo(dom[i], speed, now);
        applied := true;
        assert dom[..i + 1][..i] == dom[..i];
        i := i + 1;
      }
      assert dom[..i] == dom;
    }

    /**
     * `applyPlaybackRateOnce`: for a valid speed and at least one video,
     * makes the pass over all connected videos, starts a retry loop and
     * records the first video; otherwise does nothing and returns false.
     */
    method ApplyPlaybackRateOnce(speed: string, now: nat) returns (applied: bool)
      requires Valid()
      modifies this`videos, this`lastProgrammaticRateSet, this`rateListeners, this`onMetadata, this`onPlaying,
               this`syncToken, this`nextTimerId, this`syncIntervalId, this`intervals, this`pageRequests,
               this`appliedForVideo
      ensures Valid()
      ensures applied <==> ValidSpeed(speed, toNumber) && |dom| > 0
      ensures !applied ==>
        unchanged(this`videos, this`lastProgrammaticRateSet, this`rateListeners, this`onMetadata, this`onPlaying,
                  this`syncToken, this`nextTimerId, this`syncIntervalId, this`intervals, this`pageRequests,
                  this`appliedForVideo)
      ensures applied ==>
        Applies(old(Snapshot()), old(Retry()), dom, SpeedValue(speed, toNumber), now, Overridden(), Snapshot(), Retry())
        && appliedForVideo == Some(dom[0])
    {
      if speed == "" {
        return false;
      }
      var n := toNumber(speed);
      if !n.Finite? || n.value <= 0.0 {
        return false;
      }
      if |dom| == 0 {
        return false;
      }
      ApplySpeed(n.value, now);
      return true;
    }

    /** The part of `applyPlaybackRateOnce` after its checks: the pass, the retry loop, the recorded video. */
    method ApplySpeed(s: real, now: nat)
      requires Valid() && |dom| > 0
      modifies this`videos, this`lastProgrammaticRateSet, this`rateListeners, this`onMetadata, this`onPlaying,
               this`syncToken, this`nextTimerId, this`syncIntervalId, this`intervals, this`pageRequests,
               this`appliedForVideo
      ensures Valid() && Applies(old(Snapshot()), old(Retry()), dom, s, now, Overridden(), Snapshot(), Retry())
        && appliedForVideo == Some(dom[0])
    {
      var _ := TouchVideos(s, now);
      StartSync(s, now);
    }

    /** The end of `applyPlaybackRateOnce`: the retry loop started and the first video recorded. */
    method StartSync(s: real, now: nat)
      requires Valid() && |dom| > 0
      modifies this`videos, this`lastProgrammaticRateSet, this`syncToken, this`nextTimerId, this`syncIntervalId,
               this`intervals, this`pageRequests, this`appliedForVideo
      ensures Valid()
      ensures appliedForVideo == Some(dom[0])
      ensures syncToken == old(syncToken) + 1 && nextTimerId == old(nextTimerId) + 1
      ensures syncIntervalId == Some(old(nextTimerId))
      ensures intervals == Cleared(old(intervals), old(syncIntervalId))[old(nextTimerId) := SyncLoop(syncToken, s, 1)]
      ensures Overridden() ==>
        videos == old(videos) && lastProgrammaticRateSet == old(lastProgrammaticRateSet) && pageRequests == old(pageRequests)
      ensures !Overridden() ==>
        && videos == SetRate(old(videos), dom[0], s)
        && lastProgrammaticRateSet == Stamp(old(videos), dom[0], s, old(lastProgrammaticRateSet), now)
        && pageRequests == old(pageRequests) + [s]
    {
      SyncPlaybackRateWithPlayer(s, now);
      RecordVideo(dom[0]);
    }

    /** `appliedForVideo = video`. */
    method RecordVideo(v: VideoRef)
      requires Valid()
      modifies this`appliedForVideo
      ensures Valid() && appliedForVideo == Some(v)
    {
      appliedForVideo := Some(v);
    }

    /** `evaluateAndApply`'s reset: for the same key but another first video, the override is forgotten. */
    method ForgetOverride(key: string)
      requires Valid()
      modifies this`manualOverrideForVideo
      ensures Valid()
      ensures manualOverrideForVideo
        == (if old(appliedForKey) == Some(key) && FirstVideo(dom).Some? && appliedForVideo != FirstVideo(dom)
            then None else old(manualOverrideForVideo))
      ensures Snapshot() == old(Snapshot()) && Retry() == old(Retry())
    {
      var current := FirstVideo(dom);
      if appliedForKey == Some(key) && current.Some? && appliedForVideo != current {
        manualOverrideForVideo := None;
      }
    }

    /** `appliedForKey = key`. */
    method RecordKey(key: string)
      requires Valid()
      modifies this`appliedForKey
      ensures Valid() && appliedForKey == Some(key)
      ensures Snapshot() == old(Snapshot()) && Retry() == old(Retry()) && Overridden() == old(Overridden())
    {
      appliedForKey := Some(key);
    }

    /**
     * The end of `evaluateAndApply`: the page's channels, title and video id
     * are read, and the first rule that matches them is applied; the key is
     * remembered when that succeeds.
     */
    method ApplyFirstMatch(key: string, now: nat) returns (outcome: Outcome)
      requires Valid()
      modifies this`videos, this`lastProgrammaticRateSet, this`rateListeners, this`onMetadata, this`onPlaying,
               this`syncToken, this`nextTimerId, this`syncIntervalId, this`intervals, this`pageRequests,
               this`appliedForVideo, this`appliedForKey
      ensures Valid()
      ensures outcome.NoMatch? || outcome.Matched?
      ensures outcome.NoMatch? <==> FirstMatch(old(rules), ContextOf(page, location)).None?
      ensures outcome.Matched? ==>
        && FirstMatch(old(rules), ContextOf(page, location)) == Some(outcome.index)
        && (outcome.applied <==> ValidSpeed(old(rules)[outcome.index].speed, toNumber) && |old(dom)| > 0)
        && appliedForKey == (if outcome.applied then Some(key) else old(appliedForKey))
      ensures outcome.NoMatch? || (outcome.Matched? && !outcome.applied) ==>
        unchanged(this`videos, this`lastProgrammaticRateSet, this`rateListeners, this`onMetadata, this`onPlaying,
                  this`syncToken, this`nextTimerId, this`syncIntervalId, this`intervals, this`pageRequests,
                  this`appliedForVideo, this`appliedForKey)
      ensures outcome.Matched? && outcome.applied ==>
        Applies(old(Snapshot()), old(Retry()), dom, SpeedValue(old(rules)[outcome.index].speed, toNumber), now, Overridden(),
                Snapshot(), Retry())
        && appliedForVideo == Some(dom[0])
    {
      var channels := GetChannelCandidates(page);
      var ctx := MatchContext(channels, Signals.Title(page), VideoIdFromUrl(location));
      var found := FindFirstMatch(rules, ctx);
      if found.None? {
        return NoMatch;
      }
      var i := found.value;
      var applied := ApplyRule(rules[i].speed, key, now);
      return Matched(i, applied);
    }

    /** `const applied = applyPlaybackRateOnce(rule.speed); if (applied) appliedForKey = key`. */
    method ApplyRule(speed: string, key: string, now: nat) returns (applied: bool)
      requires Valid()
      modifies this`videos, this`lastProgrammaticRateSet, this`rateListeners, this`onMetadata, this`onPlaying,
               this`syncToken, this`nextTimerId, this`syncIntervalId, this`intervals, this`pageRequests,
               this`appliedForVideo, this`appliedForKey
      ensures Valid()
      ensures applied <==> ValidSpeed(speed, toNumber) && |dom| > 0
      ensures appliedForKey == (if applied then Some(key) else old(appliedForKey))
      ensures !applied ==>
        unchanged(this`videos, this`lastProgrammaticRateSet, this`rateListeners, this`onMetadata, this`onPlaying,
                  this`syncToken, this`nextTimerId, this`syncIntervalId, this`intervals, this`pageRequests,
                  this`appliedForVideo)
      ensures applied ==>
        Applies(old(Snapshot()), old(Retry()), dom, SpeedValue(speed, toNumber), now, Overridden(), Snapshot(), Retry())
        && appliedForVideo == Some(dom[0])
    {
      applied := ApplyPlaybackRateOnce(speed, now);
      if applied {
        RecordKey(key);
      }
    }

    /**
     * `evaluateAndApply`: on a recognised host, unless the rate was already
     * applied for this key and this video, applies the speed of the first
     * matching rule and, when that succeeds, remembers the key.
     */
    method EvaluateAndApply(now: nat) returns (outcome: Outcome)
      requires Valid()
      modifies this`videos, this`lastProgrammaticRateSet, this`rateListeners, this`onMetadata, this`onPlaying,
               this`syncToken, this`nextTimerId, this`syncIntervalId, this`intervals, this`pageRequests,
               this`appliedForVideo, this`appliedForKey, this`manualOverrideForVideo
      ensures Valid()
      ensures outcome.NotYouTube? <==> !old(OnYouTube())
      ensures outcome.AlreadyApplied? <==> old(OnYouTube()) && old(AlreadyDone())
      ensures outcome.NoMatch? <==>
        old(OnYouTube()) && !old(AlreadyDone()) && FirstMatch(old(rules), ContextOf(page, location)).None?
      ensures outcome.Matched? ==>
        && old(OnYouTube()) && !old(AlreadyDone())
        && FirstMatch(old(rules), ContextOf(page, location)) == Some(outcome.index)
        && (outcome.applied <==> ValidSpeed(old(rules)[outcome.index].speed, toNumber) && |old(dom)| > 0)
        && appliedForKey == (if outcome.applied then Some(old(MatchKey(location))) else old(appliedForKey))
      ensures outcome.NotYouTube? || outcome.AlreadyApplied? ==>
        unchanged(this`videos, this`lastProgrammaticRateSet, this`rateListeners, this`onMetadata, this`onPlaying,
                  this`syncToken, this`nextTimerId, this`syncIntervalId, this`intervals, this`pageRequests,
                  this`appliedForVideo, this`appliedForKey, this`manualOverrideForVideo)
      ensures outcome.NoMatch? || outcome.Matched? ==> manualOverrideForVideo == old(OverrideAfterCheck())
      ensures outcome.NoMatch? || (outcome.Matched? && !outcome.applied) ==>
        unchanged(this`videos, this`lastProgrammaticRateSet, this`rateListeners, this`onMetadata, this`onPlaying,
                  this`syncToken, this`nextTimerId, this`syncIntervalId, this`intervals, this`pageRequests,
                  this`appliedForVideo, this`appliedForKey)
      ensures outcome.Matched? && outcome.applied ==>
        Applies(old(Snapshot()), old(Retry()), dom, SpeedValue(old(rules)[outcome.index].speed, toNumber), now, Overridden(),
                Snapshot(), Retry())
        && appliedForVideo == Some(dom[0])
    {
      var recognized := Domains.IsHostIn(location.hostname, recognizedDomains);
      if !recognized {
        return NotYouTube;
      }
      var key := MatchKey(location);
      var current := FirstVideo(dom);
      if appliedForKey == Some(key) && appliedForVideo.Some? && current.Some? && appliedForVideo == current
         && current.value in dom {
        return AlreadyApplied;
      }
      outcome := ApplyForKey(key, now);
    }

    /** `evaluateAndApply` once its early returns are passed, for the page's key `key`. */
    method ApplyForKey(key: string, now: nat) returns (outcome: Outcome)
      requires Valid()
      modifies this`videos, this`lastProgrammaticRateSet, this`rateListeners, this`onMetadata, this`onPlaying,
               this`syncToken, this`nextTimerId, this`syncIntervalId, this`intervals, this`pageRequests,
               this`appliedForVideo, this`appliedForKey, this`manualOverrideForVideo
      ensures Valid()
      ensures outcome.NoMatch? || outcome.Matched?
      ensures manualOverrideForVideo
        == (if old(appliedForKey) == Some(key) && FirstVideo(dom).Some? && old(appliedForVideo) != FirstVideo(dom)
            then None else old(manualOverrideForVideo))
      ensures outcome.NoMatch? <==> FirstMatch(old(rules), ContextOf(page, location)).None?
      ensures outcome.Matched? ==>
        && FirstMatch(old(rules), ContextOf(page, location)) == Some(outcome.index)
        && (outcome.applied <==> ValidSpeed(old(rules)[outcome.index].speed, toNumber) && |old(dom)| > 0)
        && appliedForKey == (if outcome.applied then Some(key) else old(appliedForKey))
      ensures outcome.NoMatch? || (outcome.Matched? && !outcome.applied) ==>
        unchanged(this`videos, this`lastProgrammaticRateSet, this`rateListeners, this`onMetadata, this`onPlaying,
                  this`syncToken, this`nextTimerId, this`syncIntervalId, this`intervals, this`pageRequests,
                  this`appliedForVideo, this`appliedForKey)
      ensures outcome.Matched? && outcome.applied ==>
        Applies(old(Snapshot()), old(Retry()), dom, SpeedValue(old(rules)[outcome.index].speed, toNumber), now, Overridden(),
                Snapshot(), Retry())
        && appliedForVideo == Some(dom[0])
    {
      ForgetOverride(key);
      outcome := ApplyFirstMatch(key, now);
    }

    /** `scheduleEvaluate`: arms the 150 ms check unless one is pending; a pending one is not restarted. */
    method ScheduleEvaluate(now: nat)
      modifies this`pendingCheckDue
      ensures old(pendingCheckDue).Some? ==> pendingCheckDue == old(pendingCheckDue)
      ensures old(pendingCheckDue).None? ==> pendingCheckDue == Some(now + EvaluateDelayMs)
    {
      if pendingCheckDue.Some? {
        return;
      }
      pendingCheckDue := Some(now + EvaluateDelayMs);
    }

    /** The pending check fires: it disarms itself and evaluates. */
    method OnPendingCheck(now: nat) returns (outcome: Outcome)
      requires Valid() && pendingCheckDue.Some? && pendingCheckDue.value <= now
      modifies this`videos, this`lastProgrammaticRateSet, this`rateListeners, this`onMetadata, this`onPlaying,
               this`syncToken, this`nextTimerId, this`syncIntervalId, this`intervals, this`pageRequests,
               this`appliedForVideo, this`appliedForKey, this`manualOverrideForVideo, this`pendingCheckDue
      ensures Valid()
      ensures pendingCheckDue == None
      ensures outcome.NotYouTube? <==> !old(OnYouTube())
      ensures outcome.AlreadyApplied? <==> old(OnYouTube()) && old(AlreadyDone())
      ensures outcome.NoMatch? <==>
        old(OnYouTube()) && !old(AlreadyDone()) && FirstMatch(old(rules), ContextOf(page, location)).None?
      ensures outcome.Matched? ==>
        && FirstMatch(old(rules), ContextOf(page, location)) == Some(outcome.index)
        && (outcome.applied <==> ValidSpeed(old(rules)[outcome.index].speed, toNumber) && |old(dom)| > 0)
        && appliedForKey == (if outcome.applied then Some(old(MatchKey(location))) else old(appliedForKey))
      ensures outcome.NotYouTube? || outcome.AlreadyApplied? ==>
        unchanged(this`videos, this`lastProgrammaticRateSet, this`rateListeners, this`onMetadata, this`onPlaying,
                  this`syncToken, this`nextTimerId, this`syncIntervalId, this`intervals, this`pageRequests,
                  this`appliedForVideo, this`appliedForKey, this`manualOverrideForVideo)
      ensures outcome.NoMatch? || outcome.Matched? ==> manualOverrideForVideo == old(OverrideAfterCheck())
      ensures outcome.NoMatch? || (outcome.Matched? && !outcome.applied) ==>
        unchanged(this`videos, this`lastProgrammaticRateSet, this`rateListeners, this`onMetadata, this`onPlaying,
                  this`syncToken, this`nextTimerId, this`syncIntervalId, this`intervals, this`pageRequests,
                  this`appliedForVideo, this`appliedForKey)
      ensures outcome.Matched? && outcome.applied ==>
        Applies(old(Snapshot()), old(Retry()), dom, SpeedValue(old(rules)[outcome.index].speed, toNumber), now, Overridden(),
                Snapshot(), Retry())
        && appliedForVideo == Some(dom[0])
    {
      pendingCheckDue := None;
      outcome := EvaluateAndApply(now);
    }

    /** The `yt-navigate-finish` listener: forget what was applied, then schedule a check. */
    method OnNavigateFinish(now: nat)
      requires Valid()
      modifies this`appliedForKey, this`appliedForVideo, this`manualOverrideForVideo, this`pendingCheckDue
      ensures Valid()
      ensures appliedForKey == None && appliedForVideo == None && manualOverrideForVideo == None
      ensures pendingCheckDue == (if old(pendingCheckDue).Some? then old(pendingCheckDue) else Some(now + EvaluateDelayMs))
    {
      appliedForKey := None;
      appliedForVideo := None;
      manualOverrideForVideo := None;
      ScheduleEvaluate(now);
    }

    /** `refreshSettings`: a storage read is issued with the current rules as its defaults. */
    method RefreshSettings()
      modifies this`pendingReads
      ensures pendingReads == old(pendingReads) + [rules]
    {
      pendingReads := pendingReads + [rules];
    }

    /** The `chrome.storage.onChanged` listener: re-read the settings when `rules` changed in sync storage. */
    method OnStorageChanged(area: string, changed: set<string>)
      modifies this`pendingReads
      ensures pendingReads == old(pendingReads) + (if RefreshesOnChange(area, changed) then [rules] else [])
    {
      if area != "sync" {
        return;
      }
      if "rules" in changed {
        RefreshSettings();
      }
    }

    /**
     * Read `k` is answered: the stored rules, or the read's default when the
     * key is absent, replace the current ones, what was applied is
     * forgotten, and the page is evaluated at once, which can then never end
     * early.
     */
    method OnSettingsLoaded(k: nat, stored: Option<seq<Rule>>, now: nat) returns (outcome: Outcome)
      requires Valid() && k < |pendingReads|
      modifies this`pendingReads, this`rules, this`videos, this`lastProgrammaticRateSet, this`rateListeners, this`onMetadata,
               this`onPlaying, this`syncToken, this`nextTimerId, this`syncIntervalId, this`intervals,
               this`pageRequests, this`appliedForVideo, this`appliedForKey, this`manualOverrideForVideo
      ensures Valid()
      ensures pendingReads == Answered(old(pendingReads), k)
      ensures rules == stored.GetOr(old(pendingReads[k]))
      ensures !outcome.AlreadyApplied?
      ensures outcome.NotYouTube? <==> !OnYouTube()
      ensures outcome.NoMatch? <==> OnYouTube() && FirstMatch(rules, ContextOf(page, location)).None?
      ensures outcome.Matched? ==>
        && FirstMatch(rules, ContextOf(page, location)) == Some(outcome.index)
        && (outcome.applied <==> ValidSpeed(rules[outcome.index].speed, toNumber) && |dom| > 0)
      ensures manualOverrideForVideo == None
      ensures outcome.Matched? && outcome.applied ==>
        Applies(old(Snapshot()), old(Retry()), dom, SpeedValue(rules[outcome.index].speed, toNumber), now, false,
                Snapshot(), Retry())
        && appliedForKey == Some(MatchKey(location)) && appliedForVideo == Some(dom[0])
      ensures !(outcome.Matched? && outcome.applied) ==>
        Snapshot() == old(Snapshot()) && Retry() == old(Retry()) && appliedForKey == None && appliedForVideo == None
    {
      LoadRules(k, stored);
      outcome := EvaluateReset(now);
    }

    /** The second half of the settings callback: `evaluateAndApply` with nothing remembered as applied. */
    method EvaluateReset(now: nat) returns (outcome: Outcome)
      requires Valid() && appliedForKey == None && appliedForVideo == None && manualOverrideForVideo == None
      modifies this`videos, this`lastProgrammaticRateSet, this`rateListeners, this`onMetadata, this`onPlaying,
               this`syncToken, this`nextTimerId, this`syncIntervalId, this`intervals, this`pageRequests,
               this`appliedForVideo, this`appliedForKey, this`manualOverrideForVideo
      ensures Valid()
      ensures !outcome.AlreadyApplied?
      ensures outcome.NotYouTube? <==> !OnYouTube()
      ensures outcome.NoMatch? <==> OnYouTube() && FirstMatch(rules, ContextOf(page, location)).None?
      ensures outcome.Matched? ==>
        && FirstMatch(rules, ContextOf(page, location)) == Some(outcome.index)
        && (outcome.applied <==> ValidSpeed(rules[outcome.index].speed, toNumber) && |dom| > 0)
      ensures manualOverrideForVideo == None
      ensures outcome.Matched? && outcome.applied ==>
        Applies(old(Snapshot()), old(Retry()), dom, SpeedValue(rules[outcome.index].speed, toNumber), now, false,
                Snapshot(), Retry())
        && appliedForKey == Some(MatchKey(location)) && appliedForVideo == Some(dom[0])
      ensures !(outcome.Matched? && outcome.applied) ==>
        Snapshot() == old(Snapshot()) && Retry() == old(Retry()) && appliedForKey == None && appliedForVideo == None
    {
      outcome := EvaluateAndApply(now);
    }

    /** The first half of the settings callback: read `k` taken, the rules replaced and what was applied forgotten. */
    method LoadRules(k: nat, stored: Option<seq<Rule>>)
      requires Valid() && k < |pendingReads|
      modifies this`pendingReads, this`rules, this`appliedForKey, this`appliedForVideo, this`manualOverrideForVideo
      ensures Valid()
      ensures pendingReads == Answered(old(pendingReads), k)
      ensures rules == stored.GetOr(old(pendingReads[k]))
      ensures appliedForKey == None && appliedForVideo == None && manualOverrideForVideo == None
      ensures Snapshot() == old(Snapshot()) && Retry() == old(Retry())
    {
      var loaded := stored.GetOr(pendingReads[k]);
      pendingReads := Answered(pendingReads, k);
      rules := loaded;
      appliedForKey := None;
      appliedForVideo := None;
      manualOverrideForVideo := None;
    }

    /** A tick of the start-up poll: schedule a check; the poll disarms itself after its 20th tick. */
    method OnStartupTick(now: nat)
      requires Valid() && startupArmed
      modifies this`startupAttempts, this`startupArmed, this`pendingCheckDue
      ensures Valid()
      ensures startupAttempts == old(startupAttempts) + 1
      ensures startupArmed <==> startupAttempts < StartupPollLimit
      ensures pendingCheckDue == (if old(pendingCheckDue).Some? then old(pendingCheckDue) else Some(now + EvaluateDelayMs))
    {
      ScheduleEvaluate(now);
      startupAttempts := startupAttempts + 1;
      if startupAttempts >= StartupPollLimit {
        startupArmed := false;
      }
    }

    /**
     * The `loadedmetadata` event of element `v`: its one-shot listeners run
     * in the order they were added, each setting its speed, and are removed.
     */
    method OnLoadedMetadata(v: VideoRef, now: nat)
      requires Valid() && v in videos
      modifies this`onMetadata, this`videos, this`lastProgrammaticRateSet
      ensures Valid()
      ensures onMetadata == old(onMetadata) - {v}
      ensures var speeds := Pending(old(onMetadata), v);
        && videos == (if speeds == [] then old(videos) else old(videos)[v := old(videos)[v].(rate := speeds[|speeds| - 1])])
        && lastProgrammaticRateSet
           == (if SomeStepChanges(old(videos)[v].rate, speeds) then now else old(lastProgrammaticRateSet))
    {
      var speeds := Pending(onMetadata, v);
      onMetadata := onMetadata - {v};
      var k := 0;
      while k < |speeds|
        invariant 0 <= k <= |speeds|
        invariant Valid() && v in videos && onMetadata == old(onMetadata) - {v}
        invariant videos == (if k == 0 then old(videos) else old(videos)[v := old(videos)[v].(rate := speeds[k - 1])])
        invariant lastProgrammaticRateSet
          == (if SomeStepChanges(old(videos)[v].rate, speeds[..k]) then now else old(lastProgrammaticRateSet))
      {
        StepChangesSnoc(old(videos)[v].rate, speeds, k);
        SetVideoPlaybackRate(v, speeds[k], now);
        k := k + 1;
      }
      assert speeds[..k] == speeds;
    }

    /**
     * The `playing` event of element `v`: each of its one-shot listeners
     * runs a full synchronisation with its speed, in insertion order, and
     * they are removed. The whole new state is the fold `SyncAll` of those
     * calls; in particular only the loop of the last one stays armed and every
     * speed is asked of the page unless a suspended rule is active.
     */
    method OnPlaying(v: VideoRef, now: nat)
      requires Valid()
      modifies this`onPlaying, this`syncToken, this`nextTimerId, this`syncIntervalId, this`intervals,
               this`videos, this`lastProgrammaticRateSet, this`pageRequests
      ensures Valid()
      ensures onPlaying == old(onPlaying) - {v}
      ensures Synced(videos, lastProgrammaticRateSet, Retry())
        == SyncAll(Synced(old(videos), old(lastProgrammaticRateSet), old(Retry())), dom, Overridden(), Pending(old(onPlaying), v), now)
      ensures var speeds := Pending(old(onPlaying), v);
        && pageRequests == old(pageRequests) + (if Overridden() then [] else speeds)
        && (speeds != [] ==>
              syncIntervalId == Some(nextTimerId - 1)
              && intervals == Cleared(old(intervals), old(syncIntervalId))[nextTimerId - 1 := SyncLoop(syncToken, speeds[|speeds| - 1], 1)])
    {
      var speeds := Pending(onPlaying, v);
      onPlaying := onPlaying - {v};
      ghost var s0 := Synced(videos, lastProgrammaticRateSet, Retry());
      SyncAllRetry(s0, dom, Overridden(), speeds, now);
      SyncEach(speeds, now);
    }

    /** `syncPlaybackRateWithPlayer` for each of `speeds` in turn. */
    method SyncEach(speeds: seq<real>, now: nat)
      requires Valid()
      modifies this`syncToken, this`nextTimerId, this`syncIntervalId, this`intervals,
               this`videos, this`lastProgrammaticRateSet, this`pageRequests
      ensures Valid()
      ensures Synced(videos, lastProgrammaticRateSet, Retry())
        == SyncAll(Synced(old(videos), old(lastProgrammaticRateSet), old(Retry())), dom, Overridden(), speeds, now)
    {
      ghost var s0 := Synced(videos, lastProgrammaticRateSet, Retry());
      var k := 0;
      while k < |speeds|
        invariant 0 <= k <= |speeds|
        invariant Valid() && s0.videos.Keys == videos.Keys
        invariant Synced(videos, lastProgrammaticRateSet, Retry()) == SyncAll(s0, dom, Overridden(), speeds[..k], now)
      {
        assert speeds[..k + 1][..k] == speeds[..k];
        assert SyncAll(s0, dom, Overridden(), speeds[..k + 1], now)
          == SyncOnce(SyncAll(s0, dom, Overridden(), speeds[..k], now), dom, Overridden(), speeds[k], now);
        SyncPlaybackRateWithPlayer(speeds[k], now);
        k := k + 1;
      }
      assert speeds[..k] == speeds;
    }

    // The environment.

    /** The page navigates: a new address and new text signals. */
    method Navigate(url: Url, signals: PageSignals)
      requires Valid()
      modifies this`location, this`page
      ensures Valid() && location == url && page == signals
    {
      location := url;
      page := signals;
    }

    /** The page's video elements change; elements the script has seen stay known. */
    method ReplaceVideos(connected: seq<VideoRef>, elements: map<VideoRef, Video>)
      requires Valid()
      requires (forall v | v in connected :: v in elements) && Distinct(connected)
      requires forall v | v in videos :: v in elements
      modifies this`dom, this`videos
      ensures Valid() && dom == connected && videos == elements
    {
      dom := connected;
      videos := elements;
    }

    /** The user (or the player) sets an element's rate; its `ratechange` event follows. */
    method UserSetsRate(v: VideoRef, rate: real)
      requires Valid() && v in videos
      modifies this`videos
      ensures Valid() && videos == old(videos)[v := old(videos)[v].(rate := rate)]
    {
      videos := videos[v := videos[v].(rate := rate)];
    }
  }

  /** The rule loop of `evaluateAndApply`: stops at the first rule that matches. */
  method FindFirstMatch(rules: seq<Rule>, ctx: MatchContext) returns (r: Option<nat>)
    ensures r == FirstMatch(rules, ctx)
  {
    var i := 0;
    while i < |rules|
      invariant 0 <= i <= |rules|
      invariant forall j | 0 <= j < i :: !MatchesRule(rules[j], ctx)
    {
      if MatchesRule(rules[i], ctx) {
        FirstMatchUnique(rules, ctx, i);
        return Some(i);
      }
      i := i + 1;
    }
    return None;
  }

  /** The step when one more speed is set. */
  lemma StepChangesSnoc(rate: real, speeds: seq<real>, k: nat)
    requires k < |speeds|
    ensures SomeStepChanges(rate, speeds[..k + 1]) <==> SomeStepChanges(rate, speeds[..k]) || StepChanges(rate, speeds, k)
  {
    var longer := speeds[..k + 1];
    var shorter := speeds[..k];
    if SomeStepChanges(rate, longer) {
      var j :| 0 <= j < |longer| && StepChanges(rate, longer, j);
      if j < k {
        assert StepChanges(rate, shorter, j);
      } else {
        assert StepChanges(rate, speeds, k);
      }
    }
    if SomeStepChanges(rate, shorter) {
      var j :| 0 <= j < |shorter| && StepChanges(rate, shorter, j);
      assert StepChanges(rate, longer, j);
    }
    if StepChanges(rate, speeds, k) {
      assert StepChanges(rate, longer, k);
    }
  }

  /** The rates, the clock stamp and the retry loops: what `syncPlaybackRateWithPlayer` changes. */
  datatype Synced = Synced(videos: map<VideoRef, Video>, lastSet: nat, retry: RetryState)

  /**
   * One call `syncPlaybackRateWithPlayer(speed)` over the connected videos
   * `dom`: a new token, the armed loop's interval cleared and a fresh one
   * armed after the first attempt, which posts the rate to the page and sets
   * it on the first video unless that video is overridden.
   */
  function SyncOnce(s: Synced, dom: seq<VideoRef>, overridden: bool, speed: real, now: nat): (r: Synced)
    requires dom != [] ==> dom[0] in s.videos
    ensures r.videos.Keys == s.videos.Keys
  {
    var r0 := s.retry;
    var r1 := RetryState(r0.token + 1, Some(r0.nextTimerId),
      Cleared(r0.intervals, r0.intervalId)[r0.nextTimerId := SyncLoop(r0.token + 1, speed, 1)],
      r0.nextTimerId + 1, if overridden then r0.pageRequests else r0.pageRequests + [speed]);
    if overridden || dom == [] then Synced(s.videos, s.lastSet, r1)
    else Synced(SetRate(s.videos, dom[0], speed), Stamp(s.videos, dom[0], speed, s.lastSet, now), r1)
  }

  /** `syncPlaybackRateWithPlayer` called once for each of `speeds`, in order. */
  function SyncAll(s: Synced, dom: seq<VideoRef>, overridden: bool, speeds: seq<real>, now: nat): (r: Synced)
    requires dom != [] ==> dom[0] in s.videos
    ensures r.videos.Keys == s.videos.Keys
    decreases |speeds|
  {
    if speeds == [] then s
    else SyncOnce(SyncAll(s, dom, overridden, speeds[..|speeds| - 1], now), dom, overridden, speeds[|speeds| - 1], now)
  }

  /**
   * After one or more calls only the last call's loop is armed: every
   * earlier interval, the one armed before and those the calls armed
   * themselves, is cleared. Each call takes a token and a timer id, and each
   * posts its rate unless the video is overridden.
   */
  lemma {:induction false} SyncAllRetry(s: Synced, dom: seq<VideoRef>, overridden: bool, speeds: seq<real>, now: nat)
    requires dom != [] ==> dom[0] in s.videos
    requires forall id | id in s.retry.intervals :: id < s.retry.nextTimerId
    ensures var r := SyncAll(s, dom, overridden, speeds, now).retry;
      && r.token == s.retry.token + |speeds| && r.nextTimerId == s.retry.nextTimerId + |speeds|
      && r.pageRequests == s.retry.pageRequests + (if overridden then [] else speeds)
      && (speeds == [] ==> r == s.retry)
      && (speeds != [] ==>
            r.intervalId == Some(r.nextTimerId - 1)
            && r.intervals == Cleared(s.retry.intervals, s.retry.intervalId)[r.nextTimerId - 1 := SyncLoop(r.token, speeds[|speeds| - 1], 1)])
    decreases |speeds|
  {
    if speeds != [] {
      var init := speeds[..|speeds| - 1];
      SyncAllRetry(s, dom, overridden, init, now);
      var a := SyncAll(s, dom, overridden, init, now).retry;
      var base := Cleared(s.retry.intervals, s.retry.intervalId);
      if init != [] {
        var n := a.nextTimerId - 1;
        assert n !in base;
        RearmCleared(base, n, SyncLoop(a.token, init[|init| - 1], 1));
        assert init + [speeds[|speeds| - 1]] == speeds;
      }
    }
  }

  /** Clearing an interval armed under a fresh id leaves the intervals as they were. */
  lemma RearmCleared(base: map<nat, SyncLoop>, n: nat, loop: SyncLoop)
    requires n !in base
    ensures Cleared(base[n := loop], Some(n)) == base
  {
    assert base[n := loop] - {n} == base;
  }

  /**
   * After the calls, the first video runs at the last speed, unless it is
   * overridden (or there is no video or no speed) and nothing changes; the
   * clock is stamped exactly when some call changed its rate.
   */
  lemma {:induction false} SyncAllRates(s: Synced, dom: seq<VideoRef>, overridden: bool, speeds: seq<real>, now: nat)
    requires dom != [] ==> dom[0] in s.videos
    ensures var r := SyncAll(s, dom, overridden, speeds, now);
      if overridden || dom == [] then r.videos == s.videos && r.lastSet == s.lastSet
      else
        && r.videos == (if speeds == [] then s.videos else s.videos[dom[0] := s.videos[dom[0]].(rate := speeds[|speeds| - 1])])
        && r.lastSet == (if SomeStepChanges(s.videos[dom[0]].rate, speeds) then now else s.lastSet)
    decreases |speeds|
  {
    if speeds != [] && !overridden && dom != [] {
      var k := |speeds| - 1;
      SyncAllRates(s, dom, overridden, speeds[..k], now);
      StepChangesSnoc(s.videos[dom[0]].rate, speeds, k);
      assert speeds[..k + 1] == speeds;
    } else if speeds != [] {
      SyncAllRates(s, dom, overridden, speeds[..|speeds| - 1], now);
    }
  }
}

/**
 * The bundled popup: which tabs it treats as YouTube, the video id and the
 * channel it offers for a quick-add rule, the debounced save of the rule
 * list, and the index a dragged row lands at.
 */
module BundledPopup {
  import opened Wrappers
  import opened Text
  import opened Signals
  import opened Rules
  import opened RuleEditing
  import Domains

  // ---- Tab URLs --------------------------------------------------------

  /**
   * `isYouTubeUrl`: false for an empty URL and for one `new URL` rejects
   * (`parse` returning None); otherwise whether the host is recognised.
   */
  predicate IsYouTubeUrl(url: string, parse: string -> Option<Url>) {
    url != "" && parse(url).Some? && Domains.IsRecognizedHost(parse(url).value.hostname)
  }

  /**
   * `getVideoIdFromUrl(url)` of the popup: the empty string for an empty or
   * unparseable URL, otherwise the id the content script finds in the
   * parsed URL.
   */
  function TabVideoId(url: string, parse: string -> Option<Url>): string {
    if url == "" then ""
    else
      match parse(url)
      case None => ""
      case Some(u) =>
        if u.hostname == "youtu.be" then ShortenerId(u.pathname)
        else
          var v := QueryGet(u.query, "v");
          if v.Some? && v.value != "" then v.value
          else if StartsWith(u.pathname, "/shorts/") then CutAtStops(u.pathname[8..])
          else ""
  }

  /** The three ways `isYouTubeUrl` can answer. */
  lemma IsYouTubeUrlCases(url: string, parse: string -> Option<Url>)
    ensures url == "" ==> !IsYouTubeUrl(url, parse)
    ensures parse(url).None? ==> !IsYouTubeUrl(url, parse)
    ensures url != "" && parse(url).Some? ==>
      (IsYouTubeUrl(url, parse) <==> Domains.IsRecognizedHost(parse(url).value.hostname))
  {
  }

  /** A tab on a host that only ends in a listed name, without the dot, is not YouTube. */
  lemma LookalikeTabExample(url: string, parse: string -> Option<Url>)
    requires parse(url).Some? && parse(url).value.hostname == "evilyoutube.com"
    ensures !IsYouTubeUrl(url, parse)
  {
    Domains.BareSuffixExample();
  }

  /**
   * The popup and the content script read the same id from a URL: the
   * youtu.be path, then a non-empty `v`, then a `/shorts/` path; an empty or
   * unparseable URL has none.
   */
  lemma TabVideoIdAgrees(url: string, parse: string -> Option<Url>)
    ensures url == "" || parse(url).None? ==> TabVideoId(url, parse) == ""
    ensures url != "" && parse(url).Some? ==> TabVideoId(url, parse) == VideoIdFromUrl(parse(url).value)
  {
  }

  // ---- The channel for a quick-add rule ---------------------------------

  /** `value.startsWith('@')`. */
  predicate IsHandle(s: string) {
    StartsWith(s, "@")
  }

  /** The characters of `[\w-]`. */
  predicate IsIdChar(c: char) {
    ('a' <= c <= 'z') || ('A' <= c <= 'Z') || ('0' <= c <= '9') || c == '_' || c == '-'
  }

  /** `/^UC[\w-]{10,}$/.test(value)`. */
  predicate IsChannelId(s: string) {
    |s| >= 12 && s[0] == 'U' && s[1] == 'C' && forall i | 2 <= i < |s| :: IsIdChar(s[i])
  }

  /** `xs.find(p)`: the first element that satisfies `p`. */
  function Find(xs: seq<string>, p: string -> bool): (r: Option<string>)
    ensures r.None? <==> forall k | 0 <= k < |xs| :: !p(xs[k])
    ensures r.Some? ==> p(r.value) && r.value in xs
    decreases |xs|
  {
    if xs == [] then None
    else if p(xs[0]) then Some(xs[0])
    else Find(xs[1..], p)
  }

  /** `find` answers the element at the first index that satisfies `p`. */
  lemma {:induction false} FindFirst(xs: seq<string>, p: string -> bool, k: nat)
    requires k < |xs| && p(xs[k]) && forall j | 0 <= j < k :: !p(xs[j])
    ensures Find(xs, p) == Some(xs[k])
    decreases k
  {
    if k > 0 {
      FindFirst(xs[1..], p, k - 1);
    }
  }

  /** Dropping empty strings does not change what `find` answers when `p` rejects them. */
  lemma {:induction false} FindNonEmpty(xs: seq<string>, p: string -> bool)
    requires !p("")
    ensures Find(NonEmpty(xs), p) == Find(xs, p)
    decreases |xs|
  {
    if xs != [] {
      FindNonEmpty(xs[1..], p);
      if xs[0] != "" {
        assert NonEmpty(xs) == [xs[0]] + NonEmpty(xs[1..]);
        assert NonEmpty(xs)[1..] == NonEmpty(xs[1..]);
      } else {
        assert NonEmpty(xs) == NonEmpty(xs[1..]);
      }
    }
  }

  /** `candidates.map((value) => value.trim()).filter(Boolean)`. */
  function Cleaned(candidates: seq<string>): seq<string> {
    NonEmpty(TrimAll(candidates))
  }

  /** The choice of `pickChannelCandidate` among cleaned candidates. */
  function PickFrom(cleaned: seq<string>): string {
    var handle := Find(cleaned, IsHandle);
    var channelId := Find(cleaned, IsChannelId);
    if handle.Some? then handle.value
    else if channelId.Some? then channelId.value
    else if |cleaned| > 0 then cleaned[0]
    else ""
  }

  /**
   * `pickChannelCandidate`: among the trimmed, non-empty candidates, the
   * first `@handle`, else the first channel id, else the first of them,
   * else the empty string.
   */
  function PickChannelCandidate(candidates: seq<string>): string {
    PickFrom(Cleaned(candidates))
  }

  /** Among non-empty strings, something is picked exactly when there is one, and it is one of them. */
  lemma PickFromCleaned(cleaned: seq<string>)
    requires forall k | 0 <= k < |cleaned| :: cleaned[k] != ""
    ensures PickFrom(cleaned) == "" <==> cleaned == []
    ensures cleaned != [] ==> PickFrom(cleaned) in cleaned
  {
    if cleaned != [] {
      var handle := Find(cleaned, IsHandle);
      var channelId := Find(cleaned, IsChannelId);
      if handle.None? && channelId.None? {
        assert PickFrom(cleaned) == cleaned[0];
      }
    }
  }

  /** Something is picked exactly when some string is non-empty, and it is one of them. */
  lemma PickFromSome(xs: seq<string>)
    ensures PickFrom(NonEmpty(xs)) == "" <==> forall k | 0 <= k < |xs| :: xs[k] == ""
    ensures PickFrom(NonEmpty(xs)) in xs || PickFrom(NonEmpty(xs)) == ""
  {
    var cleaned := NonEmpty(xs);
    PickFromCleaned(cleaned);
    if exists k | 0 <= k < |xs| :: xs[k] != "" {
      var k :| 0 <= k < |xs| && xs[k] != "";
      assert xs[k] in cleaned;
    }
  }

  /** A handle among the strings is what is picked. */
  lemma PickFromHandle(xs: seq<string>, k: nat)
    requires k < |xs| && IsHandle(xs[k])
    ensures IsHandle(PickFrom(NonEmpty(xs)))
  {
    assert xs[k] in NonEmpty(xs);
  }

  /** Without a handle, a channel id among the strings is what is picked. */
  lemma PickFromChannelId(xs: seq<string>, k: nat)
    requires forall j | 0 <= j < |xs| :: !IsHandle(xs[j])
    requires k < |xs| && IsChannelId(xs[k])
    ensures IsChannelId(PickFrom(NonEmpty(xs)))
  {
    var cleaned := NonEmpty(xs);
    NoHandleLeft(xs);
    var i := NonEmptyIndex(xs, k);
    PickWithoutHandle(cleaned, i);
  }

  /** Dropping empty strings brings in no handle. */
  lemma NoHandleLeft(xs: seq<string>)
    requires forall j | 0 <= j < |xs| :: !IsHandle(xs[j])
    ensures forall j | 0 <= j < |NonEmpty(xs)| :: !IsHandle(NonEmpty(xs)[j])
  {
    var cleaned := NonEmpty(xs);
    forall j | 0 <= j < |cleaned| ensures !IsHandle(cleaned[j]) {
      assert cleaned[j] in xs;
    }
  }

  /** Where a non-empty string of `xs` sits once the empty ones are dropped. */
  lemma NonEmptyIndex(xs: seq<string>, k: nat) returns (i: nat)
    requires k < |xs| && xs[k] != ""
    ensures i < |NonEmpty(xs)| && NonEmpty(xs)[i] == xs[k]
  {
    assert xs[k] in NonEmpty(xs);
    i :| 0 <= i < |NonEmpty(xs)| && NonEmpty(xs)[i] == xs[k];
  }

  /** Among strings without a handle, a channel id at `i` means a channel id is picked. */
  lemma PickWithoutHandle(cleaned: seq<string>, i: nat)
    requires forall j | 0 <= j < |cleaned| :: !IsHandle(cleaned[j])
    requires i < |cleaned| && IsChannelId(cleaned[i])
    ensures IsChannelId(PickFrom(cleaned))
  {
    assert Find(cleaned, IsHandle).None?;
    assert Find(cleaned, IsChannelId).Some?;
  }

  /**
   * What is picked: nothing exactly when every candidate trims to nothing;
   * otherwise a trimmed candidate, a handle when there is one, and a channel
   * id when there is one but no handle.
   */
  lemma PickChannelCandidateSpec(candidates: seq<string>)
    ensures var r := PickChannelCandidate(candidates);
      && (r == "" <==> forall k | 0 <= k < |candidates| :: Trim(candidates[k]) == "")
      && (r != "" ==> exists k | 0 <= k < |candidates| :: Trim(candidates[k]) == r)
      && ((exists k | 0 <= k < |candidates| :: IsHandle(Trim(candidates[k]))) ==> IsHandle(r))
      && (((forall k | 0 <= k < |candidates| :: !IsHandle(Trim(candidates[k])))
           && exists k | 0 <= k < |candidates| :: IsChannelId(Trim(candidates[k])))
          ==> IsChannelId(r))
  {
    PickedIsCandidate(candidates);
    PickedHandle(candidates);
    PickedChannelId(candidates);
  }

  /** The emptiness and membership halves of `PickChannelCandidateSpec`. */
  lemma PickedIsCandidate(candidates: seq<string>)
    ensures var r := PickChannelCandidate(candidates);
      && (r == "" <==> forall k | 0 <= k < |candidates| :: Trim(candidates[k]) == "")
      && (r != "" ==> exists k | 0 <= k < |candidates| :: Trim(candidates[k]) == r)
  {
    var trimmed := TrimAll(candidates);
    assert forall k | 0 <= k < |candidates| :: trimmed[k] == Trim(candidates[k]);
    PickFromSome(trimmed);
    var r := PickChannelCandidate(candidates);
    if r != "" {
      var k :| 0 <= k < |trimmed| && trimmed[k] == r;
    }
  }

  /** The handle half of `PickChannelCandidateSpec`. */
  lemma PickedHandle(candidates: seq<string>)
    ensures (exists k | 0 <= k < |candidates| :: IsHandle(Trim(candidates[k])))
      ==> IsHandle(PickChannelCandidate(candidates))
  {
    if exists k | 0 <= k < |candidates| :: IsHandle(Trim(candidates[k])) {
      var k :| 0 <= k < |candidates| && IsHandle(Trim(candidates[k]));
      var trimmed := TrimAll(candidates);
      assert trimmed[k] == Trim(candidates[k]);
      PickFromHandle(trimmed, k);
    }
  }

  /** The channel-id half of `PickChannelCandidateSpec`. */
  lemma PickedChannelId(candidates: seq<string>)
    ensures ((forall k | 0 <= k < |candidates| :: !IsHandle(Trim(candidates[k])))
             && exists k | 0 <= k < |candidates| :: IsChannelId(Trim(candidates[k])))
      ==> IsChannelId(PickChannelCandidate(candidates))
  {
    if (forall k | 0 <= k < |candidates| :: !IsHandle(Trim(candidates[k])))
       && exists k | 0 <= k < |candidates| :: IsChannelId(Trim(candidates[k])) {
      var k :| 0 <= k < |candidates| && IsChannelId(Trim(candidates[k]));
      PickedChannelIdAt(candidates, k);
    }
  }

  /** Without a handle, a candidate at `k` that trims to a channel id means a channel id is picked. */
  lemma PickedChannelIdAt(candidates: seq<string>, k: nat)
    requires forall j | 0 <= j < |candidates| :: !IsHandle(Trim(candidates[j]))
    requires k < |candidates| && IsChannelId(Trim(candidates[k]))
    ensures IsChannelId(PickChannelCandidate(candidates))
  {
    var trimmed := TrimAll(candidates);
    forall j | 0 <= j < |trimmed| ensures !IsHandle(trimmed[j]) {
      assert trimmed[j] == Trim(candidates[j]);
    }
    assert trimmed[k] == Trim(candidates[k]);
    PickFromChannelId(trimmed, k);
  }

  /** The first candidate that trims to a handle is the one picked. */
  lemma PickFirstHandle(candidates: seq<string>, k: nat)
    requires k < |candidates| && IsHandle(Trim(candidates[k]))
    requires forall j | 0 <= j < k :: !IsHandle(Trim(candidates[j]))
    ensures PickChannelCandidate(candidates) == Trim(candidates[k])
  {
    var trimmed := TrimAll(candidates);
    FindFirst(trimmed, IsHandle, k);
    FindNonEmpty(trimmed, IsHandle);
  }

  /** Without a handle, the first candidate that trims to a channel id is the one picked. */
  lemma PickFirstChannelId(candidates: seq<string>, k: nat)
    requires forall j | 0 <= j < |candidates| :: !IsHandle(Trim(candidates[j]))
    requires k < |candidates| && IsChannelId(Trim(candidates[k]))
    requires forall j | 0 <= j < k :: !IsChannelId(Trim(candidates[j]))
    ensures PickChannelCandidate(candidates) == Trim(candidates[k])
  {
    var trimmed := TrimAll(candidates);
    FindFirst(trimmed, IsChannelId, k);
    FindNonEmpty(trimmed, IsChannelId);
    FindNonEmpty(trimmed, IsHandle);
  }

  /** A handle wins over the channel ids listed before it. */
  lemma HandleBeatsEarlierChannelId(candidates: seq<string>, k: nat)
    requires k < |candidates| && IsHandle(Trim(candidates[k]))
    requires forall j | 0 <= j < k :: IsChannelId(Trim(candidates[j]))
    ensures PickChannelCandidate(candidates) == Trim(candidates[k])
  {
    forall j | 0 <= j < k ensures !IsHandle(Trim(candidates[j])) {
      ChannelIdIsNoHandle(Trim(candidates[j]));
    }
    PickFirstHandle(candidates, k);
  }

  /** A channel id starts with `U`, so it is not a handle. */
  lemma ChannelIdIsNoHandle(s: string)
    requires IsChannelId(s)
    ensures !IsHandle(s)
  {
    assert s[..1][0] == 'U';
  }

  // ---- The popup's state ------------------------------------------------

  /** A child of the rules list: the "no rules" hint, or a row with its element identity and `data-index`. */
  datatype Child = Hint | Row(elem: nat, index: Option<nat>)

  /** The rows `renderRules` appends for the first `n` rules, numbered from `base`. */
  function RowsUpTo(n: nat, base: nat): seq<Child> {
    seq(n, i requires 0 <= i < n => Row(base + i, Some(i)))
  }

  /** `renderRules`: a fresh row per rule, numbered from `base`, or the hint when there are none. */
  function Rendered(n: nat, base: nat): seq<Child> {
    if n == 0 then [Hint] else RowsUpTo(n, base)
  }

  /**
   * The `for` loop of `finalizeDrag`: the rows before the placeholder
   * `placeholder`, the hidden source row not counted.
   */
  function TargetIndex(children: seq<Child>, source: Option<nat>, placeholder: nat): (r: nat)
    ensures r <= |children|
    decreases |children|
  {
    if children == [] then 0
    else if children[0].Row? && children[0].elem == placeholder then 0
    else (if children[0].Row? && Some(children[0].elem) != source then 1 else 0)
         + TargetIndex(children[1..], source, placeholder)
  }

  /** The children without the element `e` (the placeholder taken out of the list). */
  function Without(children: seq<Child>, e: nat): seq<Child>
    decreases |children|
  {
    if children == [] then []
    else (if children[0].Row? && children[0].elem == e then [] else [children[0]]) + Without(children[1..], e)
  }

  /** Taking `e` out keeps exactly the other children. */
  lemma {:induction false} WithoutMembers(children: seq<Child>, e: nat)
    ensures forall c :: c in Without(children, e) <==> c in children && !(c.Row? && c.elem == e)
    decreases |children|
  {
    if children != [] {
      WithoutMembers(children[1..], e);
      assert children == [children[0]] + children[1..];
    }
  }

  /** The placeholder `Row(placeholder, None)` put back in at position `p`, after the last child at most. */
  function PlacedAt(children: seq<Child>, placeholder: nat, p: nat): seq<Child> {
    var rest := Without(children, placeholder);
    var at := if p <= |rest| then p else |rest|;
    rest[..at] + [Row(placeholder, None)] + rest[at..]
  }

  /** The rows other than `source` in a list of rows with distinct elements. */
  function OtherRows(rows: seq<Child>, source: Option<nat>): nat
    decreases |rows|
  {
    if rows == [] then 0
    else (if rows[0].Row? && Some(rows[0].elem) != source then 1 else 0) + OtherRows(rows[1..], source)
  }

  /** Counting stops at the placeholder: only the rows before it count. */
  lemma {:induction false} TargetIndexBefore(rows: seq<Child>, tail: seq<Child>, source: Option<nat>, q: nat)
    requires forall k | 0 <= k < |rows| :: !(rows[k].Row? && rows[k].elem == q)
    requires tail != [] && tail[0] == Row(q, None)
    ensures TargetIndex(rows + tail, source, q) == OtherRows(rows, source)
    decreases |rows|
  {
    if rows == [] {
      assert rows + tail == tail;
    } else {
      assert (rows + tail)[1..] == rows[1..] + tail;
      TargetIndexBefore(rows[1..], tail, source, q);
    }
  }

  /** Among the first `p` freshly rendered rows, all count but the source row `i`. */
  lemma {:induction false} OtherRenderedRows(n: nat, base: nat, i: nat, p: nat, from: nat)
    requires from <= p <= n
    ensures OtherRows(Rendered(n, base)[from..p], Some(base + i))
      == (p - from) - (if from <= i < p then 1 else 0)
    decreases p - from
  {
    if from < p {
      var rows := Rendered(n, base)[from..p];
      assert rows[0] == Row(base + from, Some(from));
      assert rows[1..] == Rendered(n, base)[from + 1..p];
      OtherRenderedRows(n, base, i, p, from + 1);
    }
  }

  /**
   * A drop over freshly rendered rows: with the placeholder at position
   * `p`, the dragged row `i` lands at `p`, less one when it was taken out
   * from before the placeholder.
   */
  lemma DropIndexAtGap(n: nat, base: nat, i: nat, q: nat, p: nat)
    requires i < n && p <= n && (q < base || q >= base + n)
    ensures var rows := Rendered(n, base);
      TargetIndex(rows[..p] + [Row(q, None)] + rows[p..], Some(base + i), q) == (if i < p then p - 1 else p)
  {
    var rows := Rendered(n, base);
    assert rows[..p] + [Row(q, None)] + rows[p..] == rows[..p] + ([Row(q, None)] + rows[p..]);
    TargetIndexBefore(rows[..p], [Row(q, None)] + rows[p..], Some(base + i), q);
    assert rows[..p] == rows[0..p];
    OtherRenderedRows(n, base, i, p, 0);
  }

  /** A row dropped where it was picked up (the placeholder just before it) moves nowhere. */
  lemma DropInPlace(n: nat, base: nat, i: nat, q: nat)
    requires i < n && (q < base || q >= base + n)
    ensures var rows := Rendered(n, base);
      TargetIndex(rows[..i] + [Row(q, None)] + rows[i..], Some(base + i), q) == i
  {
    DropIndexAtGap(n, base, i, q, i);
  }

  /** The armed save timer is the only one: an earlier timer of a burst has been cleared. */
  predicate TimerValid(saveTimer: Option<nat>, armed: set<nat>, nextTimerId: nat) {
    armed == (if saveTimer.Some? then {saveTimer.value} else {})
    && forall id | id in armed :: id < nextTimerId
  }

  /** Element identities are handed out in order. */
  predicate ElementsValid(children: seq<Child>, placeholder: Option<nat>, nextElem: nat) {
    (forall k | 0 <= k < |children| :: children[k].Row? ==> children[k].elem < nextElem)
    && (placeholder.Some? ==> placeholder.value < nextElem)
  }

  /**
   * `Number(row.dataset.index)`: the position of a rendered row, or NaN for
   * a row without `data-index` (a drag placeholder).
   */
  datatype IndexValue = Index(n: nat) | NaN

  /** Where `splice(from, 1)` starts: NaN counts as 0. */
  function SpliceStart(from: IndexValue): nat {
    if from.Index? then from.n else 0
  }

  /**
   * The part of the popup a drop reads and writes. `hole` is where the list
   * holds an absent entry (`undefined`), after a move whose `splice` took
   * nothing out.
   */
  datatype DragView = DragView(
    rules: seq<Rule>, children: seq<Child>, nextElem: nat,
    saveTimer: Option<nat>, armed: set<nat>, nextTimerId: nat,
    dragIndex: Option<IndexValue>, dragPointer: Option<nat>, dragSource: Option<nat>, dragPlaceholder: Option<nat>,
    hole: Option<nat>)

  /**
   * `moveRule(from, to)` takes no rule out: `from` is past the end, so
   * `undefined` goes in at `to` and `renderRules` throws at it.
   */
  predicate SpliceMissesAll(v: DragView, from: IndexValue, to: int) {
    0 <= to < |v.rules| && SpliceStart(from) >= |v.rules|
  }

  /**
   * `moveRule(from, to)`: a target outside the list changes nothing; a rule
   * taken out is put back at `to`, the list rendered and a save scheduled;
   * when nothing was taken out, `renderRules` stops with a TypeError at the
   * absent entry, after the rows before it, and no save is scheduled.
   */
  function MoveView(v: DragView, from: IndexValue, to: int): DragView {
    if !(0 <= to < |v.rules|) then v
    else if SpliceMissesAll(v, from, to) then
      v.(children := RowsUpTo(to, v.nextElem), nextElem := v.nextElem + to + 1, hole := Some(to))
    else
      v.(rules := Moved(v.rules, SpliceStart(from), to),
         children := Rendered(|v.rules|, v.nextElem), nextElem := v.nextElem + |v.rules|,
         saveTimer := Some(v.nextTimerId), armed := {v.nextTimerId}, nextTimerId := v.nextTimerId + 1)
  }

  /** `cleanupDrag`: the placeholder leaves the list and the drag is forgotten. */
  function CleanupView(v: DragView): DragView {
    v.(children := if v.dragPlaceholder.Some? then Without(v.children, v.dragPlaceholder.value) else v.children,
       dragIndex := None, dragPointer := None, dragSource := None, dragPlaceholder := None)
  }

  /**
   * `finalizeDrag`: without a drag nothing happens; with a placeholder the
   * rule moves to the drop index when `dragIndex !== toIndex` (always, for
   * NaN); the drag is then cleaned up, unless the move threw.
   */
  function Finalized(v: DragView): DragView {
    if v.dragIndex.None? then v
    else if v.dragPlaceholder.None? then CleanupView(v)
    else
      var to := TargetIndex(v.children, v.dragSource, v.dragPlaceholder.value);
      if v.dragIndex.value == Index(to) then CleanupView(v)
      else if SpliceMissesAll(v, v.dragIndex.value, to) then MoveView(v, v.dragIndex.value, to)
      else CleanupView(MoveView(v, v.dragIndex.value, to))
  }

  /** Taking out an element that is not there changes nothing. */
  lemma {:induction false} WithoutAbsent(children: seq<Child>, e: nat)
    requires forall k | 0 <= k < |children| :: !(children[k].Row? && children[k].elem == e)
    ensures Without(children, e) == children
    decreases |children|
  {
    if children != [] {
      WithoutAbsent(children[1..], e);
    }
  }

  /**
   * A drop over freshly rendered rows, the row `i` dragged and the
   * placeholder left at position `p`: the rule lands at `p`, less one when
   * it came from above; when that is where it was nothing moves and only the
   * placeholder goes, otherwise the list is rendered anew and a save
   * scheduled. Either way the drag is over.
   */
  lemma DropOnRenderedRows(v: DragView, i: nat, p: nat, base: nat)
    requires v.hole.None? && i < |v.rules| && p <= |v.rules|
    requires v.dragIndex == Some(Index(i)) && v.dragSource == Some(base + i) && v.dragPlaceholder.Some?
    requires var q := v.dragPlaceholder.value;
      (q < base || q >= base + |v.rules|) && q < v.nextElem
      && v.children == Rendered(|v.rules|, base)[..p] + [Row(q, None)] + Rendered(|v.rules|, base)[p..]
    ensures var to := if i < p then p - 1 else p;
      var r := Finalized(v);
      && r.dragIndex.None? && r.dragPointer.None? && r.dragSource.None? && r.dragPlaceholder.None? && r.hole.None?
      && (to == i ==>
            r.rules == v.rules && r.children == Rendered(|v.rules|, base)
            && r.saveTimer == v.saveTimer && r.armed == v.armed && r.nextElem == v.nextElem)
      && (to != i ==>
            r.rules == Moved(v.rules, i, to) && r.children == Rendered(|v.rules|, v.nextElem)
            && r.saveTimer == Some(v.nextTimerId) && r.armed == {v.nextTimerId})
  {
    var n := |v.rules|;
    var q := v.dragPlaceholder.value;
    DropIndexAtGap(n, base, i, q, p);
    var to := if i < p then p - 1 else p;
    assert TargetIndex(v.children, v.dragSource, q) == to;
    if to == i {
      WithoutPlacedRendered(n, base, q, p);
    } else {
      WithoutFreshRows(n, v.nextElem, q);
    }
  }

  /** The placeholder, put among rendered rows and taken out again, leaves them as they were. */
  lemma WithoutPlacedRendered(n: nat, base: nat, q: nat, p: nat)
    requires 0 < n && p <= n && (q < base || q >= base + n)
    ensures var rows := Rendered(n, base);
      Without(rows[..p] + [Row(q, None)] + rows[p..], q) == rows
  {
    RenderedLacks(n, base, q);
    WithoutPlacedAmong(Rendered(n, base), q, p);
  }

  /** Rendered rows numbered outside a range do not hold an element of it. */
  lemma RenderedLacks(n: nat, base: nat, q: nat)
    requires q < base || q >= base + n
    ensures var rows := Rendered(n, base);
      forall k | 0 <= k < |rows| :: !(rows[k].Row? && rows[k].elem == q)
  {
  }

  /** The placeholder, put among rows without it and taken out again, leaves them as they were. */
  lemma WithoutPlacedAmong(rows: seq<Child>, q: nat, p: nat)
    requires p <= |rows|
    requires forall k | 0 <= k < |rows| :: !(rows[k].Row? && rows[k].elem == q)
    ensures Without(rows[..p] + [Row(q, None)] + rows[p..], q) == rows
  {
    AbsentSlices(rows, q, p);
    WithoutAbsent(rows[..p], q);
    WithoutAbsent(rows[p..], q);
    WithoutBetween(rows[..p], rows[p..], q);
    assert rows[..p] + rows[p..] == rows;
  }

  /** Both parts of rows without an element are without it. */
  lemma AbsentSlices(rows: seq<Child>, q: nat, p: nat)
    requires p <= |rows|
    requires forall k | 0 <= k < |rows| :: !(rows[k].Row? && rows[k].elem == q)
    ensures forall k | 0 <= k < p :: !(rows[..p][k].Row? && rows[..p][k].elem == q)
    ensures forall k | 0 <= k < |rows| - p :: !(rows[p..][k].Row? && rows[p..][k].elem == q)
  {
    assert forall k | 0 <= k < |rows| - p :: rows[p..][k] == rows[p + k];
  }

  /** Rows rendered after the placeholder was made do not hold it. */
  lemma WithoutFreshRows(n: nat, base: nat, q: nat)
    requires q < base
    ensures Without(Rendered(n, base), q) == Rendered(n, base)
  {
    WithoutAbsent(Rendered(n, base), q);
  }

  /** Taking an element out of two lists joined is taking it out of each. */
  lemma {:induction false} WithoutConcat(a: seq<Child>, b: seq<Child>, e: nat)
    ensures Without(a + b, e) == Without(a, e) + Without(b, e)
    decreases |a|
  {
    if a == [] {
      assert a + b == b;
    } else {
      var ab := a + b;
      assert ab[0] == a[0] && ab[1..] == a[1..] + b;
      var h := if a[0].Row? && a[0].elem == e then [] else [a[0]];
      assert Without(ab, e) == h + Without(a[1..] + b, e);
      WithoutConcat(a[1..], b, e);
      assert Without(a, e) == h + Without(a[1..], e);
    }
  }

  /** The placeholder alone, taken out, leaves nothing. */
  lemma WithoutItself(q: nat)
    ensures Without([Row(q, None)], q) == []
  {
    assert [Row(q, None)][1..] == [];
  }

  /** The placeholder put between two lists, taken out again, leaves them joined as they are without it. */
  lemma WithoutBetween(a: seq<Child>, b: seq<Child>, q: nat)
    ensures Without(a + [Row(q, None)] + b, q) == Without(a, q) + Without(b, q)
  {
    calc {
      Without(a + [Row(q, None)] + b, q);
    == { WithoutConcat(a + [Row(q, None)], b, q); }
      Without(a + [Row(q, None)], q) + Without(b, q);
    == { WithoutConcat(a, [Row(q, None)], q); WithoutItself(q); }
      Without(a, q) + [] + Without(b, q);
    == { assert Without(a, q) + [] == Without(a, q); }
      Without(a, q) + Without(b, q);
    }
  }

  /**
   * A drop whose dragged index is past the end of the list (the list grew
   * shorter during the drag, when a save's callback re-rendered it): when the
   * drop index is inside the list, nothing is taken out, `undefined` goes in
   * at the drop index and rendering throws there, leaving the rows before it,
   * the old rules around the absent entry, no new save, and the drag still
   * recorded; otherwise the drag is only cleaned up.
   */
  lemma DropPastEnd(v: DragView, i: nat)
    requires v.dragIndex == Some(Index(i)) && |v.rules| <= i && v.dragPlaceholder.Some?
    ensures var to := TargetIndex(v.children, v.dragSource, v.dragPlaceholder.value);
      var r := Finalized(v);
      if to < |v.rules| then
        && r.rules == v.rules && r.hole == Some(to) && r.children == RowsUpTo(to, v.nextElem)
        && r.nextElem == v.nextElem + to + 1
        && r.saveTimer == v.saveTimer && r.armed == v.armed && r.nextTimerId == v.nextTimerId
        && r.dragIndex == v.dragIndex && r.dragPointer == v.dragPointer
        && r.dragSource == v.dragSource && r.dragPlaceholder == v.dragPlaceholder
      else
        && r.rules == v.rules && r.hole == v.hole && r.saveTimer == v.saveTimer
        && r.children == Without(v.children, v.dragPlaceholder.value)
        && r.dragIndex.None? && r.dragPointer.None? && r.dragPlaceholder.None?
  {
    var to := TargetIndex(v.children, v.dragSource, v.dragPlaceholder.value);
    if to < |v.rules| {
      assert v.dragIndex.value != Index(to);
      assert SpliceMissesAll(v, v.dragIndex.value, to);
    }
  }

  /**
   * A drag begun on a placeholder has index NaN: `dragIndex !== toIndex`
   * always holds and `splice(NaN, 1)` takes out the first rule, so a drop
   * inside the list moves the first rule to the drop index.
   */
  lemma DropFromPlaceholder(v: DragView)
    requires v.dragIndex == Some(NaN) && v.dragPlaceholder.Some?
    ensures var to := TargetIndex(v.children, v.dragSource, v.dragPlaceholder.value);
      var r := Finalized(v);
      && r.dragIndex.None? && r.dragPointer.None? && r.dragPlaceholder.None? && r.hole == v.hole
      && (to < |v.rules| ==>
            r.rules == Moved(v.rules, 0, to) && r.saveTimer == Some(v.nextTimerId)
            && r.children == Without(Rendered(|v.rules|, v.nextElem), v.dragPlaceholder.value))
      && (to >= |v.rules| ==> r.rules == v.rules && r.saveTimer == v.saveTimer)
  {
    var to := TargetIndex(v.children, v.dragSource, v.dragPlaceholder.value);
    assert v.dragIndex.value != Index(to);
    if to < |v.rules| {
      assert !SpliceMissesAll(v, v.dragIndex.value, to);
    }
  }

  /**
   * The list `[a]`, once two rows long, with row 1 dragged and the
   * placeholder moved to the top: the drop throws, leaving no row and an
   * absent entry at position 0.
   */
  lemma ShortenedDropExample(a: Rule)
    ensures var v := DragView([a], [Row(4, None), Row(5, Some(0))], 6, None, {}, 1,
                              Some(Index(1)), Some(7), Some(3), Some(4), None);
      var r := Finalized(v);
      r.hole == Some(0) && r.children == [] && r.rules == [a] && r.dragPointer == Some(7)
  {
    var v := DragView([a], [Row(4, None), Row(5, Some(0))], 6, None, {}, 1,
                      Some(Index(1)), Some(7), Some(3), Some(4), None);
    assert TargetIndex(v.children, v.dragSource, 4) == 0;
    DropPastEnd(v, 1);
  }

  /** What `requestQuickAddData` answers: the page's video id and channel candidates. */
  datatype QuickAddData = QuickAddData(videoId: string, channelCandidates: seq<string>)

  const AddMissingMessage := "Add a match and speed"
  const OpenYouTubeMessage := "Open a YouTube tab"
  const NoChannelMessage := "Channel not found"
  const NoVideoIdMessage := "Video ID not found"
  const SavedMessage := "Saved"

  /** The id for the video quick-add: the page's answer when non-empty, else the tab URL's. */
  function QuickAddVideoId(tabUrl: string, data: Option<QuickAddData>, parse: string -> Option<Url>): string {
    if data.Some? && data.value.videoId != "" then data.value.videoId else TabVideoId(tabUrl, parse)
  }

  /** The channel for the channel quick-add: picked from the page's candidates, if it answered. */
  function QuickAddChannel(data: Option<QuickAddData>): string {
    PickChannelCandidate(if data.Some? then data.value.channelCandidates else [])
  }

  /**
   * The popup. `children` is what `rulesBody` holds; `saveTimer`, `armed`
   * and `nextTimerId` are the browser's timeouts; `writes` are the store
   * writes whose callbacks have not run yet, oldest first.
   */
  class Popup {
    /** `new URL(url)`: None where it throws. */
    const parse: string -> Option<Url>
    /** `crypto.randomUUID()` for the rule at position `k` of a save. */
    const uuid: nat -> string

    var rules: seq<Rule>
    var children: seq<Child>
    var nextElem: nat
    var saveTimer: Option<nat>
    var armed: set<nat>
    var nextTimerId: nat
    var writes: seq<seq<Rule>>
    var status: string
    var newType: string
    var newValue: string
    var newSpeed: string
    var editorVisible: bool
    var quickAddChannelDisabled: bool
    var quickAddVideoDisabled: bool
    // The drag in progress.
    var dragIndex: Option<IndexValue>
    var dragPointer: Option<nat>
    var dragSource: Option<nat>
    var dragPlaceholder: Option<nat>
    /** Where the list holds an absent entry, after a drop whose `splice` took nothing out. */
    var hole: Option<nat>

    /** The timers and element identities are in order. */
    predicate Consistent()
      reads this`saveTimer, this`armed, this`nextTimerId, this`children, this`dragPlaceholder, this`nextElem
    {
      TimerValid(saveTimer, armed, nextTimerId) && ElementsValid(children, dragPlaceholder, nextElem)
    }

    /** Consistent, and every entry of the list is a rule. */
    predicate Valid()
      reads this`saveTimer, this`armed, this`nextTimerId, this`children, this`dragPlaceholder, this`nextElem, this`hole
    {
      Consistent() && hole.None?
    }

    /** The part of the state a drop reads and writes. */
    function DragState(): DragView
      reads this`rules, this`children, this`nextElem, this`saveTimer, this`armed, this`nextTimerId,
            this`dragIndex, this`dragPointer, this`dragSource, this`dragPlaceholder, this`hole
    {
      DragView(rules, children, nextElem, saveTimer, armed, nextTimerId,
               dragIndex, dragPointer, dragSource, dragPlaceholder, hole)
    }

    /** The popup as opened: no rules yet, nothing armed, no drag. */
    constructor (parse: string -> Option<Url>, uuid: nat -> string)
      ensures Valid()
      ensures this.parse == parse && this.uuid == uuid
      ensures rules == [] && children == [] && writes == [] && status == ""
      ensures saveTimer == None && dragIndex == None && dragPlaceholder == None
      ensures newType == "channel" && newValue == "" && newSpeed == ""
    {
      this.parse := parse;
      this.uuid := uuid;
      rules := [];
      children := [];
      nextElem := 0;
      saveTimer := None;
      armed := {};
      nextTimerId := 1;
      writes := [];
      status := "";
      newType := "channel";
      newValue := "";
      newSpeed := "";
      editorVisible := false;
      quickAddChannelDisabled := false;
      quickAddVideoDisabled := false;
      dragIndex := None;
      dragPointer := None;
      dragSource := None;
      dragPlaceholder := None;
      hole := None;
    }

    /** `renderRules`: the list rebuilt with fresh rows. */
    method Render()
      requires Valid()
      modifies this`children, this`nextElem
      ensures Valid()
      ensures children == Rendered(|rules|, old(nextElem)) && nextElem == old(nextElem) + |rules|
    {
      children := Rendered(|rules|, nextElem);
      nextElem := nextElem + |rules|;
    }

    /** `scheduleSave`: the pending timeout, if any, is cleared and a new one armed. */
    method ScheduleSave()
      requires Consistent()
      modifies this`saveTimer, this`armed, this`nextTimerId
      ensures Consistent()
      ensures saveTimer == Some(old(nextTimerId)) && armed == {old(nextTimerId)} && nextTimerId == old(nextTimerId) + 1
      ensures old(saveTimer).Some? ==> old(saveTimer).value !in armed
    {
      if saveTimer.Some? {
        armed := armed - {saveTimer.value};
      }
      var id := nextTimerId;
      nextTimerId := nextTimerId + 1;
      armed := armed + {id};
      saveTimer := Some(id);
    }

    /**
     * The save timeout `id` fires: the timer is forgotten and the normalised
     * list is written; over a list with an absent entry `normalizeRules`
     * throws and nothing is written.
     */
    method OnSaveTimer(id: nat)
      requires Consistent() && id in armed
      modifies this`saveTimer, this`armed, this`writes
      ensures Consistent()
      ensures old(saveTimer) == Some(id)
      ensures saveTimer == None && armed == {}
      ensures writes == old(writes) + (if hole.None? then [NormalizeRules(rules, uuid)] else [])
    {
      armed := armed - {id};
      saveTimer := None;
      if hole.None? {
        writes := writes + [NormalizeRules(rules, uuid)];
      }
    }

    /**
     * The store's callback for the oldest write: the list becomes what was
     * written, which also replaces a list with an absent entry, and "Saved"
     * shows.
     */
    method OnStoreWritten()
      requires Consistent() && writes != []
      modifies this`rules, this`writes, this`children, this`nextElem, this`status, this`hole
      ensures Valid()
      ensures rules == old(writes[0]) && writes == old(writes[1..]) && status == SavedMessage
      ensures children == Rendered(|rules|, old(nextElem)) && nextElem == old(nextElem) + |rules|
    {
      rules := writes[0];
      writes := writes[1..];
      hole := None;
      Render();
      status := SavedMessage;
    }

    /** The answer to the initial store read: its rules, or none. */
    method OnLoaded(stored: Option<seq<Rule>>)
      requires Consistent()
      modifies this`rules, this`children, this`nextElem, this`hole
      ensures Valid()
      ensures rules == stored.GetOr([]) && children == Rendered(|rules|, old(nextElem))
      ensures nextElem == old(nextElem) + |rules|
    {
      rules := stored.GetOr([]);
      hole := None;
      Render();
    }

    /**
     * `moveRule`: a target outside the list changes nothing; a rule taken
     * out at `from` is moved, the list rendered and a save scheduled; a
     * `from` past the end takes nothing out, and rendering throws at the
     * absent entry put in at `to`.
     */
    method MoveRule(from: IndexValue, to: int)
      requires Valid()
      modifies this`rules, this`children, this`nextElem, this`saveTimer, this`armed, this`nextTimerId, this`hole
      ensures Consistent()
      ensures DragState() == MoveView(old(DragState()), from, to)
      ensures !(0 <= to < |old(rules)|) ==> unchanged(this`rules, this`children, this`nextElem, this`saveTimer, this`armed, this`nextTimerId, this`hole)
      ensures 0 <= to < |old(rules)| && SpliceStart(from) < |old(rules)| ==>
        && rules == Moved(old(rules), SpliceStart(from), to) && hole.None?
        && children == Rendered(|rules|, old(nextElem))
        && saveTimer == Some(old(nextTimerId)) && armed == {old(nextTimerId)}
      ensures 0 <= to < |old(rules)| && SpliceStart(from) >= |old(rules)| ==>
        && rules == old(rules) && hole == Some(to)
        && children == RowsUpTo(to, old(nextElem))
        && unchanged(this`saveTimer, this`armed, this`nextTimerId)
    {
      if to < 0 || to >= |rules| {
        return;
      }
      if SpliceStart(from) >= |rules| {
        children := RowsUpTo(to, nextElem);
        nextElem := nextElem + to + 1;
        hole := Some(to);
        return;
      }
      rules := Moved(rules, SpliceStart(from), to);
      Render();
      ScheduleSave();
    }

    /** The delete button of row `index`: the rule is filtered out, the list rendered, a save scheduled. */
    method DeleteRow(index: int)
      requires Valid()
      modifies this`rules, this`children, this`nextElem, this`saveTimer, this`armed, this`nextTimerId
      ensures Valid()
      ensures rules == Deleted(old(rules), index) && children == Rendered(|rules|, old(nextElem))
      ensures saveTimer == Some(old(nextTimerId)) && armed == {old(nextTimerId)}
    {
      DeleteRuleSpec(rules, index);
      rules := DeleteRule(rules, index);
      Render();
      ScheduleSave();
    }

    /** An `input` event in row `index` on the field `field`: the rule is updated and a save scheduled. */
    method EditField(index: int, field: string, value: string)
      requires Valid()
      modifies this`rules, this`saveTimer, this`armed, this`nextTimerId
      ensures Valid()
      ensures field == "" ==> unchanged(this`rules, this`saveTimer, this`armed, this`nextTimerId)
      ensures field != "" ==>
        rules == UpdateRule(old(rules), index, field, value)
        && saveTimer == Some(old(nextTimerId)) && armed == {old(nextTimerId)}
    {
      if field == "" {
        return;
      }
      rules := UpdateRule(rules, index, field, value);
      ScheduleSave();
    }

    /**
     * The add button: refused with a message when the trimmed match or speed
     * is empty; otherwise one rule appended, the inputs cleared, the list
     * rendered and a save scheduled.
     */
    method AddClicked(freshId: string)
      requires Valid()
      modifies this`rules, this`newValue, this`newSpeed, this`status, this`children, this`nextElem,
               this`saveTimer, this`armed, this`nextTimerId
      ensures Valid()
      ensures var added := NewRule(newType, old(newValue), old(newSpeed), freshId);
        if added.None? then
          status == AddMissingMessage
          && unchanged(this`rules, this`newValue, this`newSpeed, this`children, this`nextElem,
                       this`saveTimer, this`armed, this`nextTimerId)
        else
          && rules == old(rules) + [added.value] && newValue == "" && newSpeed == "" && status == old(status)
          && children == Rendered(|rules|, old(nextElem))
          && saveTimer == Some(old(nextTimerId)) && armed == {old(nextTimerId)}
    {
      var added := NewRule(newType, newValue, newSpeed, freshId);
      ApplyAdd(added);
    }

    /** The add button's outcome, given the rule it built or none. */
    method ApplyAdd(added: Option<Rule>)
      requires Valid()
      modifies this`rules, this`newValue, this`newSpeed, this`status, this`children, this`nextElem,
               this`saveTimer, this`armed, this`nextTimerId
      ensures Valid()
      ensures added.None? ==>
        status == AddMissingMessage
        && unchanged(this`rules, this`newValue, this`newSpeed, this`children, this`nextElem,
                     this`saveTimer, this`armed, this`nextTimerId)
      ensures added.Some? ==>
        && rules == old(rules) + [added.value] && newValue == "" && newSpeed == "" && status == old(status)
        && children == Rendered(|rules|, old(nextElem))
        && saveTimer == Some(old(nextTimerId)) && armed == {old(nextTimerId)}
    {
      if added.None? {
        status := AddMissingMessage;
      } else {
        AppendRule(added.value);
      }
    }

    /** The accepted add: the rule appended, the inputs cleared, the list rendered, a save scheduled. */
    method AppendRule(rule: Rule)
      requires Valid()
      modifies this`rules, this`newValue, this`newSpeed, this`children, this`nextElem,
               this`saveTimer, this`armed, this`nextTimerId
      ensures Valid()
      ensures rules == old(rules) + [rule] && newValue == "" && newSpeed == ""
      ensures children == Rendered(|rules|, old(nextElem))
      ensures saveTimer == Some(old(nextTimerId)) && armed == {old(nextTimerId)}
    {
      rules := rules + [rule];
      newValue := "";
      newSpeed := "";
      Render();
      ScheduleSave();
    }

    /** `refreshActiveTabState`: the editor shows only for a YouTube tab. */
    method RefreshActiveTabState(tabUrl: string)
      modifies this`editorVisible
      ensures editorVisible == IsYouTubeUrl(tabUrl, parse)
    {
      editorVisible := IsYouTubeUrl(tabUrl, parse);
    }

    /**
     * `refreshQuickAddState` for the active tab (`tabUrl` when there is one)
     * and the page's answer: both buttons off away from YouTube, otherwise
     * each on when it has something to add.
     */
    method RefreshQuickAddState(tabUrl: Option<string>, data: Option<QuickAddData>)
      modifies this`quickAddChannelDisabled, this`quickAddVideoDisabled
      ensures tabUrl.None? || !IsYouTubeUrl(tabUrl.value, parse) ==> quickAddChannelDisabled && quickAddVideoDisabled
      ensures tabUrl.Some? && IsYouTubeUrl(tabUrl.value, parse) ==>
        && (quickAddVideoDisabled <==> QuickAddVideoId(tabUrl.value, data, parse) == "")
        && (quickAddChannelDisabled <==> QuickAddChannel(data) == "")
    {
      if tabUrl.None? || !IsYouTubeUrl(tabUrl.value, parse) {
        quickAddChannelDisabled := true;
        quickAddVideoDisabled := true;
        return;
      }
      var videoId := QuickAddVideoId(tabUrl.value, data, parse);
      var channel := QuickAddChannel(data);
      quickAddVideoDisabled := videoId == "";
      quickAddChannelDisabled := channel == "";
    }

    /** The channel quick-add button: fills the inputs for a channel rule, or says why it cannot. */
    method QuickAddChannelClicked(tabUrl: Option<string>, data: Option<QuickAddData>)
      modifies this`status, this`newType, this`newValue
      ensures tabUrl.None? || !IsYouTubeUrl(tabUrl.value, parse) ==>
        status == OpenYouTubeMessage && unchanged(this`newType, this`newValue)
      ensures tabUrl.Some? && IsYouTubeUrl(tabUrl.value, parse) && QuickAddChannel(data) == "" ==>
        status == NoChannelMessage && unchanged(this`newType, this`newValue)
      ensures tabUrl.Some? && IsYouTubeUrl(tabUrl.value, parse) && QuickAddChannel(data) != "" ==>
        newType == "channel" && newValue == QuickAddChannel(data) && unchanged(this`status)
    {
      if tabUrl.None? || !IsYouTubeUrl(tabUrl.value, parse) {
        status := OpenYouTubeMessage;
        return;
      }
      var channel := QuickAddChannel(data);
      if channel == "" {
        status := NoChannelMessage;
        return;
      }
      newType := "channel";
      newValue := channel;
    }

    /** The video quick-add button: fills the inputs for a video-id rule, or says why it cannot. */
    method QuickAddVideoClicked(tabUrl: Option<string>, data: Option<QuickAddData>)
      modifies this`status, this`newType, this`newValue
      ensures tabUrl.None? || !IsYouTubeUrl(tabUrl.value, parse) ==>
        status == OpenYouTubeMessage && unchanged(this`newType, this`newValue)
      ensures tabUrl.Some? && IsYouTubeUrl(tabUrl.value, parse) && QuickAddVideoId(tabUrl.value, data, parse) == "" ==>
        status == NoVideoIdMessage && unchanged(this`newType, this`newValue)
      ensures tabUrl.Some? && IsYouTubeUrl(tabUrl.value, parse) && QuickAddVideoId(tabUrl.value, data, parse) != "" ==>
        newType == "videoId" && newValue == QuickAddVideoId(tabUrl.value, data, parse) && unchanged(this`status)
    {
      if tabUrl.None? || !IsYouTubeUrl(tabUrl.value, parse) {
        status := OpenYouTubeMessage;
        return;
      }
      var videoId := QuickAddVideoId(tabUrl.value, data, parse);
      if videoId == "" {
        status := NoVideoIdMessage;
        return;
      }
      newType := "videoId";
      newValue := videoId;
    }

    /**
     * `beginDrag` on the row at position `k` of the list (the row under the
     * pointer; a placeholder, which has no `data-index`, gives NaN): the drag
     * is recorded and a placeholder, a fresh element, is put in just before
     * that row.
     */
    method BeginDrag(k: nat, pointerId: nat)
      requires Consistent() && k < |children| && children[k].Row?
      modifies this`dragIndex, this`dragPointer, this`dragSource, this`dragPlaceholder, this`children, this`nextElem
      ensures Consistent()
      ensures dragIndex == Some(if old(children[k].index).Some? then Index(old(children[k].index).value) else NaN)
      ensures dragPointer == Some(pointerId)
      ensures dragSource == Some(old(children[k].elem)) && dragPlaceholder == Some(old(nextElem))
      ensures children == old(children[..k]) + [Row(old(nextElem), None)] + old(children[k..])
      ensures nextElem == old(nextElem) + 1
    {
      dragIndex := Some(if children[k].index.Some? then Index(children[k].index.value) else NaN);
      dragPointer := Some(pointerId);
      dragSource := Some(children[k].elem);
      dragPlaceholder := Some(nextElem);
      children := children[..k] + [Row(nextElem, None)] + children[k..];
      nextElem := nextElem + 1;
    }

    /**
     * A `pointermove` of the dragging pointer: `updatePlaceholder` puts the
     * placeholder at position `p` of the list without it (the position the
     * pointer's height selects; past the end means last).
     */
    method PointerMove(pointerId: nat, p: nat)
      requires Consistent()
      modifies this`children
      ensures Consistent()
      ensures dragPointer == Some(pointerId) && dragPlaceholder.Some? ==>
        children == PlacedAt(old(children), dragPlaceholder.value, p)
      ensures !(dragPointer == Some(pointerId) && dragPlaceholder.Some?) ==> children == old(children)
    {
      if dragPointer != Some(pointerId) || dragPlaceholder.None? {
        return;
      }
      WithoutMembers(children, dragPlaceholder.value);
      children := PlacedAt(children, dragPlaceholder.value, p);
    }

    /** The loop of `finalizeDrag`: the rows before the placeholder, the source row not counted. */
    method DropIndex() returns (toIndex: nat)
      requires dragPlaceholder.Some?
      ensures toIndex == TargetIndex(children, dragSource, dragPlaceholder.value)
    {
      var q := dragPlaceholder.value;
      toIndex := 0;
      var k := 0;
      while k < |children|
        invariant 0 <= k <= |children|
        invariant toIndex + TargetIndex(children[k..], dragSource, q) == TargetIndex(children, dragSource, q)
      {
        var child := children[k];
        assert children[k..][1..] == children[k + 1..];
        if child.Row? && child.elem == q {
          break;
        }
        if child.Row? && Some(child.elem) != dragSource {
          toIndex := toIndex + 1;
        }
        k := k + 1;
      }
    }

    /** `cleanupDrag`: the placeholder leaves the list and the drag is forgotten. */
    method CleanupDrag()
      requires Consistent()
      modifies this`children, this`dragIndex, this`dragPointer, this`dragSource, this`dragPlaceholder
      ensures Consistent()
      ensures DragState() == CleanupView(old(DragState()))
      ensures children == (if old(dragPlaceholder).Some? then Without(old(children), old(dragPlaceholder).value) else old(children))
      ensures dragIndex == None && dragPointer == None && dragSource == None && dragPlaceholder == None
    {
      if dragPlaceholder.Some? {
        WithoutMembers(children, dragPlaceholder.value);
        children := Without(children, dragPlaceholder.value);
      }
      dragIndex := None;
      dragPointer := None;
      dragSource := None;
      dragPlaceholder := None;
    }

    /**
     * `finalizeDrag`: the whole new state is `Finalized` of the old one; its
     * lemmas say what a drop does.
     */
    method FinalizeDrag()
      requires Valid()
      modifies this`rules, this`children, this`nextElem, this`saveTimer, this`armed, this`nextTimerId,
               this`dragIndex, this`dragPointer, this`dragSource, this`dragPlaceholder, this`hole
      ensures Consistent()
      ensures DragState() == Finalized(old(DragState()))
    {
      if dragIndex.None? {
        return;
      }
      if dragPlaceholder.Some? {
        var toIndex := DropIndex();
        if dragIndex.value != Index(toIndex) {
          MoveRule(dragIndex.value, toIndex);
          if hole.Some? {
            // `renderRules` threw: `cleanupDrag` does not run.
            return;
          }
        }
      }
      CleanupDrag();
    }

    /** `pointerup` of the dragging pointer finishes the drag; any other pointer is ignored. */
    method PointerUp(pointerId: nat)
      requires Valid()
      modifies this`rules, this`children, this`nextElem, this`saveTimer, this`armed, this`nextTimerId,
               this`dragIndex, this`dragPointer, this`dragSource, this`dragPlaceholder, this`hole
      ensures Consistent()
      ensures old(dragPointer) == Some(pointerId) ==> DragState() == Finalized(old(DragState()))
      ensures old(dragPointer) != Some(pointerId) ==> DragState() == old(DragState())
    {
      if dragPointer != Some(pointerId) {
        return;
      }
      FinalizeDrag();
    }

    /** `pointercancel` of the dragging pointer drops the drag without moving anything. */
    method PointerCancel(pointerId: nat)
      requires Consistent()
      modifies this`children, this`dragIndex, this`dragPointer, this`dragSource, this`dragPlaceholder
      ensures Consistent()
      ensures old(dragPointer) != Some(pointerId) ==>
        unchanged(this`children, this`dragIndex, this`dragPointer, this`dragSource, this`dragPlaceholder)
      ensures old(dragPointer) == Some(pointerId) ==> DragState() == CleanupView(old(DragState()))
      ensures old(dragPointer) == Some(pointerId) ==>
        children == (if old(dragPlaceholder).Some? then Without(old(children), old(dragPlaceholder).value) else old(children))
      ensures old(dragPointer) == Some(pointerId) ==>
        dragIndex == None && dragPointer == None && dragSource == None && dragPlaceholder == None
    {
      if dragPointer != Some(pointerId) {
        return;
      }
      CleanupDrag();
    }
  }
}

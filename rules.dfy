/**
 * The user's speed rules and the content script's matcher: which rule, if
 * any, applies to what the page shows.
 */
module Rules {
  import opened Wrappers
  import opened Text

  /**
   * The type of a rule. Stored rules are plain objects, so a type outside
   * the three the editor offers can reach the matcher; it never matches.
   */
  datatype RuleType = Channel | Title | VideoId | Other(name: string)

  /** The `type` strings of the three rule types. */
  function ParseRuleType(s: string): (r: RuleType)
    ensures r.Other? <==> s !in {"channel", "title", "videoId"}
    ensures r.Other? ==> r.name == s
  {
    if s == "channel" then Channel
    else if s == "title" then Title
    else if s == "videoId" then VideoId
    else Other(s)
  }

  function RuleTypeName(t: RuleType): string {
    match t
    case Channel => "channel"
    case Title => "title"
    case VideoId => "videoId"
    case Other(name) => name
  }

  lemma RuleTypeRoundTrip(t: RuleType)
    requires t.Other? ==> t.name !in {"channel", "title", "videoId"}
    ensures ParseRuleType(RuleTypeName(t)) == t
  {
  }

  /**
   * A rule. Its `id` is the empty string when the stored object has none
   * (the code treats a missing and an empty id alike).
   */
  datatype Rule = Rule(id: string, kind: RuleType, value: string, speed: string)

  /** What one evaluation matches against. */
  datatype MatchContext = MatchContext(channels: seq<string>, title: string, videoId: string)

  /** Some candidate, lower-cased, contains `needle`. */
  predicate SomeCandidateContains(channels: seq<string>, needle: string) {
    exists k | 0 <= k < |channels| :: Contains(Lower(channels[k]), needle)
  }

  /**
   * `matchesRule`: an empty value never matches; a channel or title rule
   * matches when its lower-cased value occurs in a lower-cased candidate or
   * in the lower-cased title; a video-id rule matches when its trimmed value
   * is the video id; any other type never matches.
   */
  predicate MatchesRule(rule: Rule, ctx: MatchContext) {
    if rule.value == "" then false
    else
      var ruleValue := Lower(rule.value);
      match rule.kind
      case Channel => |ctx.channels| > 0 && SomeCandidateContains(ctx.channels, ruleValue)
      case Title => ctx.title != "" && Contains(Lower(ctx.title), ruleValue)
      case VideoId => ctx.videoId != "" && Trim(rule.value) == ctx.videoId
      case Other(_) => false
  }

  /** The rules that never match, whatever the page shows. */
  lemma NeverMatches(rule: Rule, ctx: MatchContext)
    requires rule.value == "" || rule.kind.Other?
      || (rule.kind == Channel && ctx.channels == [])
      || (rule.kind == Title && ctx.title == "")
      || (rule.kind == VideoId && ctx.videoId == "")
    ensures !MatchesRule(rule, ctx)
  {
  }

  /** A candidate or title that contains the value as typed matches, whatever the case of either. */
  lemma ContainedValueMatches(rule: Rule, ctx: MatchContext, k: nat)
    requires rule.value != ""
    requires rule.kind == Channel ==> k < |ctx.channels| && Contains(ctx.channels[k], rule.value)
    requires rule.kind == Title ==> Contains(ctx.title, rule.value)
    requires rule.kind == Channel || rule.kind == Title
    ensures MatchesRule(rule, ctx)
  {
    var s := if rule.kind == Channel then ctx.channels[k] else ctx.title;
    var i :| 0 <= i <= |s| && OccursAt(s, rule.value, i);
    LowerOccursAt(s, rule.value, i);
  }

  /** Channel and title rules ignore case on both sides. */
  lemma MatchIgnoresCase(rule: Rule, ctx: MatchContext)
    requires rule.kind == Channel || rule.kind == Title
    ensures MatchesRule(rule, ctx) == MatchesRule(rule.(value := Lower(rule.value)), ctx)
    ensures MatchesRule(rule, ctx)
      == MatchesRule(rule, ctx.(channels := seq(|ctx.channels|, i requires 0 <= i < |ctx.channels| => Lower(ctx.channels[i])),
                                 title := Lower(ctx.title)))
  {
    LowerIdempotent(rule.value);
    LowerIdempotent(ctx.title);
    var lowered := seq(|ctx.channels|, i requires 0 <= i < |ctx.channels| => Lower(ctx.channels[i]));
    forall k | 0 <= k < |ctx.channels|
      ensures Lower(lowered[k]) == Lower(ctx.channels[k])
    {
      LowerIdempotent(ctx.channels[k]);
    }
    assert SomeCandidateContains(ctx.channels, Lower(rule.value))
      == SomeCandidateContains(lowered, Lower(rule.value));
  }

  /** More channel candidates never turn a match off. */
  lemma MoreCandidatesKeepMatch(rule: Rule, ctx: MatchContext, more: seq<string>)
    requires forall c | c in ctx.channels :: c in more
    requires MatchesRule(rule, ctx)
    ensures MatchesRule(rule, ctx.(channels := more))
  {
    if rule.kind == Channel {
      var k :| 0 <= k < |ctx.channels| && Contains(Lower(ctx.channels[k]), Lower(rule.value));
      assert ctx.channels[k] in more;
      var m :| 0 <= m < |more| && more[m] == ctx.channels[k];
    }
  }

  /** Video-id rules compare exactly: the case of the id matters, surrounding spaces in the rule do not. */
  lemma VideoIdMatchIsExact(rule: Rule, ctx: MatchContext)
    requires rule.kind == VideoId
    ensures MatchesRule(rule, ctx) <==> ctx.videoId != "" && Trim(rule.value) == ctx.videoId
  {
  }

  /** Index `i` holds the first rule that matches. */
  predicate IsFirstMatch(rules: seq<Rule>, ctx: MatchContext, i: nat) {
    i < |rules| && MatchesRule(rules[i], ctx) && forall j | 0 <= j < i :: !MatchesRule(rules[j], ctx)
  }

  /** The earliest index at or after `from` whose element satisfies `p`. */
  function FirstFrom<T>(xs: seq<T>, p: T -> bool, from: nat): (r: Option<nat>)
    requires from <= |xs|
    ensures r.None? <==> forall j | from <= j < |xs| :: !p(xs[j])
    ensures r.Some? ==> from <= r.value < |xs| && p(xs[r.value])
    ensures r.Some? ==> forall j | from <= j < r.value :: !p(xs[j])
    decreases |xs| - from
  {
    if from == |xs| then None
    else if p(xs[from]) then Some(from)
    else FirstFrom(xs, p, from + 1)
  }

  /** `matchesRule` against one context, as a test on rules. */
  function Matcher(ctx: MatchContext): Rule -> bool {
    rule => MatchesRule(rule, ctx)
  }

  /** The first-match-wins policy: the index of the earliest matching rule, if any. */
  function FirstMatch(rules: seq<Rule>, ctx: MatchContext): (r: Option<nat>)
    ensures r.None? <==> forall j | 0 <= j < |rules| :: !MatchesRule(rules[j], ctx)
    ensures r.Some? ==> IsFirstMatch(rules, ctx, r.value)
  {
    FirstFrom(rules, Matcher(ctx), 0)
  }

  /** There is only one first match. */
  lemma FirstMatchUnique(rules: seq<Rule>, ctx: MatchContext, i: nat)
    requires IsFirstMatch(rules, ctx, i)
    ensures FirstMatch(rules, ctx) == Some(i)
  {
  }

  /** Rules added after a matching rule never take effect. */
  lemma FirstMatchAppendKept(rules: seq<Rule>, more: seq<Rule>, ctx: MatchContext)
    requires FirstMatch(rules, ctx).Some?
    ensures FirstMatch(rules + more, ctx) == FirstMatch(rules, ctx)
  {
    var all := rules + more;
    var i := FirstMatch(rules, ctx).value;
    assert forall j | 0 <= j <= i :: all[j] == rules[j];
    FirstMatchUnique(all, ctx, i);
  }

  /**
   * Without a hit in `xs`, the first hit in `xs + ys` is the first hit in
   * `ys`, shifted by `|xs|`: for `FirstMatch`, rules appended after a list
   * with no match are tried in their own order.
   */
  lemma FirstFromAppendShifted<T>(xs: seq<T>, ys: seq<T>, p: T -> bool)
    requires FirstFrom(xs, p, 0).None? && FirstFrom(ys, p, 0).Some?
    ensures FirstFrom(xs + ys, p, 0) == Some(|xs| + FirstFrom(ys, p, 0).value)
  {
    var all := xs + ys;
    var i := FirstFrom(ys, p, 0).value;
    forall j | 0 <= j < |xs| + i ensures !p(all[j]) {
      if j < |xs| {
        assert all[j] == xs[j];
      } else {
        assert all[j] == ys[j - |xs|];
      }
    }
    assert all[|xs| + i] == ys[i];
    FirstFromUnique(all, p, |xs| + i);
  }

  /** The first hit is the only index with a hit and none before it. */
  lemma FirstFromUnique<T>(xs: seq<T>, p: T -> bool, i: nat)
    requires i < |xs| && p(xs[i]) && forall j | 0 <= j < i :: !p(xs[j])
    ensures FirstFrom(xs, p, 0) == Some(i)
  {
  }

  /** Two lists without a matching rule make one. */
  lemma FirstMatchAppendNone(rules: seq<Rule>, more: seq<Rule>, ctx: MatchContext)
    requires FirstMatch(rules, ctx).None? && FirstMatch(more, ctx).None?
    ensures FirstMatch(rules + more, ctx).None?
  {
    var all := rules + more;
    forall j | 0 <= j < |all| ensures !MatchesRule(all[j], ctx) {
      if j < |rules| {
        assert all[j] == rules[j];
      } else {
        assert all[j] == more[j - |rules|];
      }
    }
  }

  /** A rule moved to the front wins as soon as it matches. */
  lemma MatchingRuleFirstWins(rule: Rule, rules: seq<Rule>, ctx: MatchContext)
    requires MatchesRule(rule, ctx)
    ensures FirstMatch([rule] + rules, ctx) == Some(0)
  {
    FirstMatchUnique([rule] + rules, ctx, 0);
  }

  /** A channel rule matches a candidate that contains its value in another case. */
  lemma ChannelCaseExample()
    ensures MatchesRule(Rule("", Channel, "ACME", "1.5"), MatchContext(["acme gaming"], "", ""))
  {
    assert Lower("ACME") == "acme";
    assert Lower("acme gaming")[0..4] == "acme";
    assert OccursAt(Lower(["acme gaming"][0]), Lower("ACME"), 0);
  }

  /** Two rules match; the earlier one in the list is the one chosen. */
  lemma EarlierRuleWinsExample()
    ensures
      var rules := [Rule("", VideoId, "abc123", "2"), Rule("", Channel, "acme", "1.5")];
      var ctx := MatchContext(["ACME Inc"], "x", "abc123");
      MatchesRule(rules[1], ctx) && FirstMatch(rules, ctx) == Some(0)
  {
    var rules := [Rule("", VideoId, "abc123", "2"), Rule("", Channel, "acme", "1.5")];
    var ctx := MatchContext(["ACME Inc"], "x", "abc123");
    assert Lower("acme") == "acme";
    assert Lower("ACME Inc")[0..4] == "acme";
    assert OccursAt(Lower(ctx.channels[0]), Lower("acme"), 0);
    assert Trim("abc123") == "abc123" by { TrimOfTrimmed("abc123"); }
    FirstMatchUnique(rules, ctx, 0);
  }
}

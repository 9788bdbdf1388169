/**
 * The popup's rule editor: the list operations behind its buttons and
 * inputs (move, delete, update, add), the normalisation applied on save, and
 * the editor state those handlers change.
 */
module RuleEditing {
  import opened Wrappers
  import opened Text
  import opened Rules

  /** A rule whose value and speed are both present: the only kind a save keeps. */
  predicate Complete(rule: Rule) {
    rule.value != "" && rule.speed != ""
  }

  /** One rule as saved: an id filled in when it has none, value and speed trimmed. */
  function Normalized(rule: Rule, freshId: string): (r: Rule)
    ensures r.kind == rule.kind
    ensures rule.id != "" ==> r.id == rule.id
    ensures rule.id == "" ==> r.id == freshId
    ensures r.value == Trim(rule.value) && r.speed == Trim(rule.speed)
  {
    Rule(if rule.id != "" then rule.id else freshId, rule.kind, Trim(rule.value), Trim(rule.speed))
  }

  /** `filter((rule) => rule.value && rule.speed)`. */
  function KeepComplete(rules: seq<Rule>): (r: seq<Rule>)
    ensures |r| <= |rules|
    ensures forall x :: x in r <==> x in rules && Complete(x)
    decreases |rules|
  {
    if rules == [] then []
    else (if Complete(rules[0]) then [rules[0]] else []) + KeepComplete(rules[1..])
  }

  /** `list.map(...)`: each rule normalised, `uuid(k)` standing for the id generated at position `k`. */
  function Filled(list: seq<Rule>, uuid: nat -> string): (r: seq<Rule>)
    ensures |r| == |list|
    ensures forall k | 0 <= k < |list| :: r[k] == Normalized(list[k], uuid(k))
  {
    seq(|list|, k requires 0 <= k < |list| => Normalized(list[k], uuid(k)))
  }

  /**
   * `normalizeRules`: normalise every rule, then keep those with a value and
   * a speed. `uuid(k)` is the id `crypto.randomUUID()` would give the rule at
   * position `k` if it has none.
   */
  function NormalizeRules(list: seq<Rule>, uuid: nat -> string): seq<Rule> {
    KeepComplete(Filled(list, uuid))
  }

  /** A rule as a save leaves it: with an id, with a value and speed, both trimmed. */
  predicate Saved(rule: Rule) {
    rule.id != "" && Complete(rule) && Trim(rule.value) == rule.value && Trim(rule.speed) == rule.speed
  }

  /** A normalised rule with a value and a speed is in saved form. */
  lemma NormalizedSaved(rule: Rule, freshId: string)
    requires freshId != ""
    requires Complete(Normalized(rule, freshId))
    ensures Saved(Normalized(rule, freshId))
  {
    TrimIdempotent(rule.value);
    TrimIdempotent(rule.speed);
  }

  /**
   * What a save keeps: every rule comes from one of the list's rules (same
   * type, same id when it had one); exactly the rules whose trimmed value and
   * speed are non-empty survive; and every survivor is in saved form.
   */
  lemma NormalizeRulesSpec(list: seq<Rule>, uuid: nat -> string)
    requires forall k: nat :: uuid(k) != ""
    ensures |NormalizeRules(list, uuid)| <= |list|
    ensures forall x | x in NormalizeRules(list, uuid) :: Saved(x)
    ensures forall x | x in NormalizeRules(list, uuid) ::
      exists k | 0 <= k < |list| :: x == Normalized(list[k], uuid(k))
    ensures forall k | 0 <= k < |list| ::
      Normalized(list[k], uuid(k)) in NormalizeRules(list, uuid) <==> Complete(Normalized(list[k], uuid(k)))
  {
    var filled := Filled(list, uuid);
    forall x | x in NormalizeRules(list, uuid)
      ensures Saved(x) && exists k | 0 <= k < |list| :: x == Normalized(list[k], uuid(k))
    {
      var k :| 0 <= k < |filled| && filled[k] == x;
      NormalizedSaved(list[k], uuid(k));
    }
    forall k | 0 <= k < |list|
      ensures Normalized(list[k], uuid(k)) in NormalizeRules(list, uuid) <==> Complete(Normalized(list[k], uuid(k)))
    {
      assert filled[k] == Normalized(list[k], uuid(k));
    }
  }

  /** Keeping the complete rules of a list where all are complete changes nothing. */
  lemma {:induction false} KeepCompleteAll(rules: seq<Rule>)
    requires forall x | x in rules :: Complete(x)
    ensures KeepComplete(rules) == rules
    decreases |rules|
  {
    if rules != [] {
      assert rules[0] in rules;
      KeepCompleteAll(rules[1..]);
      assert [rules[0]] + rules[1..] == rules;
    }
  }

  /** Filtering keeps the order: it distributes over concatenation. */
  lemma {:induction false} KeepCompleteConcat(a: seq<Rule>, b: seq<Rule>)
    ensures KeepComplete(a + b) == KeepComplete(a) + KeepComplete(b)
    decreases |a|
  {
    if a != [] {
      KeepCompleteConcat(a[1..], b);
      assert (a + b)[1..] == a[1..] + b;
    } else {
      assert a + b == b;
    }
  }

  /** Normalising a saved rule changes nothing. */
  lemma NormalizedOfSaved(rule: Rule, freshId: string)
    requires Saved(rule)
    ensures Normalized(rule, freshId) == rule
  {
  }

  /** Saving a saved list again gives the same list, whatever ids would be generated. */
  lemma NormalizeRulesIdempotent(list: seq<Rule>, uuid: nat -> string, uuid2: nat -> string)
    requires forall k: nat :: uuid(k) != ""
    ensures NormalizeRules(NormalizeRules(list, uuid), uuid2) == NormalizeRules(list, uuid)
  {
    var once := NormalizeRules(list, uuid);
    NormalizeRulesSpec(list, uuid);
    var filled := Filled(once, uuid2);
    forall k | 0 <= k < |once| ensures filled[k] == once[k] {
      assert once[k] in once;
      NormalizedOfSaved(once[k], uuid2(k));
    }
    assert filled == once;
    forall x | x in once ensures Complete(x) {
    }
    KeepCompleteAll(once);
  }

  /** `[...s].splice(i, 1)` for an index in range; any other index leaves `s` as it is. */
  function Deleted<T>(s: seq<T>, i: int): (r: seq<T>)
    ensures 0 <= i < |s| ==> |r| == |s| - 1
    ensures 0 <= i < |s| ==> forall k | 0 <= k < |r| :: r[k] == if k < i then s[k] else s[k + 1]
    ensures !(0 <= i < |s|) ==> r == s
  {
    if 0 <= i < |s| then s[..i] + s[i + 1..] else s
  }

  /** Deleting takes exactly one copy of the element out. */
  lemma DeletedMultiset<T>(s: seq<T>, i: nat)
    requires i < |s|
    ensures multiset(Deleted(s, i)) + multiset{s[i]} == multiset(s)
  {
    assert s == s[..i] + [s[i]] + s[i + 1..];
  }

  /** `deleteRule`: `filter((_, idx) => idx !== index)`, written as the filter. */
  function DeleteRule<T>(rules: seq<T>, index: int): seq<T>
    decreases |rules|
  {
    if rules == [] then []
    else (if index == 0 then [] else [rules[0]]) + DeleteRule(rules[1..], index - 1)
  }

  /** The filter removes exactly the element at the index and keeps the others in order. */
  lemma {:induction false} DeleteRuleSpec<T>(rules: seq<T>, index: int)
    ensures DeleteRule(rules, index) == Deleted(rules, index)
    decreases |rules|
  {
    if rules != [] {
      var tail := rules[1..];
      DeleteRuleSpec(tail, index - 1);
      if index == 0 {
        assert DeleteRule(rules, index) == Deleted(tail, -1) == tail;
      } else if 0 < index < |rules| {
        assert DeleteRule(rules, index) == [rules[0]] + (tail[..index - 1] + tail[index..]);
        assert tail[..index - 1] == rules[1..index];
        assert tail[index..] == rules[index + 1..];
        assert rules[..index] == [rules[0]] + rules[1..index];
      } else {
        assert DeleteRule(rules, index) == [rules[0]] + tail;
        assert [rules[0]] + tail == rules;
      }
    }
  }

  /**
   * `moveRule`: unless `to` is outside the list, take the element out at
   * `from` and put it back in at `to`.
   */
  function Moved<T>(s: seq<T>, from: nat, to: int): seq<T>
    requires from < |s|
  {
    if to < 0 || to >= |s| then s
    else
      var rest := Deleted(s, from);
      rest[..to] + [s[from]] + rest[to..]
  }

  /**
   * A move outside the list changes nothing; otherwise the result is a
   * permutation with the moved element at `to`, and taking it out again gives
   * the other elements in their original order.
   */
  lemma MovedSpec<T>(s: seq<T>, from: nat, to: int)
    requires from < |s|
    ensures !(0 <= to < |s|) ==> Moved(s, from, to) == s
    ensures 0 <= to < |s| ==>
      var r := Moved(s, from, to);
      |r| == |s| && r[to] == s[from] && multiset(r) == multiset(s) && Deleted(r, to) == Deleted(s, from)
  {
    if 0 <= to < |s| {
      var rest := Deleted(s, from);
      var r := Moved(s, from, to);
      assert r == rest[..to] + [s[from]] + rest[to..];
      assert rest == rest[..to] + rest[to..];
      DeletedMultiset(s, from);
      assert multiset(r) == multiset(rest[..to]) + multiset{s[from]} + multiset(rest[to..]);
      assert Deleted(r, to) == rest[..to] + rest[to..];
    }
  }

  /** Moving an element to where it is changes nothing. */
  lemma MovedInPlace<T>(s: seq<T>, i: nat)
    requires i < |s|
    ensures Moved(s, i, i) == s
  {
    var rest := Deleted(s, i);
    assert rest[..i] == s[..i];
    assert rest[i..] == s[i + 1..];
    assert s == s[..i] + [s[i]] + s[i + 1..];
  }

  /** "Up" on the first row and "down" on the last row change nothing. */
  lemma UpDownAtEnds<T>(s: seq<T>)
    requires |s| > 0
    ensures Moved(s, 0, -1) == s
    ensures Moved(s, |s| - 1, |s|) == s
  {
  }

  /**
   * `{ ...rule, [field]: value }` for a field name from a row's input: the
   * type (parsed), the match value, the speed or the id. A property the rule
   * record does not have is ignored by everything that reads rules.
   */
  function SetField(rule: Rule, field: string, value: string): (r: Rule)
    ensures field == "type" ==> r == rule.(kind := ParseRuleType(value))
    ensures field == "value" ==> r == rule.(value := value)
    ensures field == "speed" ==> r == rule.(speed := value)
    ensures field == "id" ==> r == rule.(id := value)
    ensures field !in {"type", "value", "speed", "id"} ==> r == rule
  {
    if field == "type" then rule.(kind := ParseRuleType(value))
    else if field == "value" then rule.(value := value)
    else if field == "speed" then rule.(speed := value)
    else if field == "id" then rule.(id := value)
    else rule
  }

  /** `updateRule`: the rule at the index gets the new field; nothing else changes. */
  function UpdateRule(rules: seq<Rule>, index: int, field: string, value: string): (r: seq<Rule>)
    ensures |r| == |rules|
    ensures forall k | 0 <= k < |rules| && k != index :: r[k] == rules[k]
    ensures 0 <= index < |rules| ==> r[index] == SetField(rules[index], field, value)
  {
    seq(|rules|, k requires 0 <= k < |rules| => if k == index then SetField(rules[k], field, value) else rules[k])
  }

  /** Editing a row's value changes only that rule's value: its id, type and speed stay. */
  lemma UpdateValueOnly(rules: seq<Rule>, index: nat, value: string)
    requires index < |rules|
    ensures var r := UpdateRule(rules, index, "value", value);
      r[index].value == value && r[index].id == rules[index].id
      && r[index].kind == rules[index].kind && r[index].speed == rules[index].speed
  {
  }

  /** Writing back the value a field already has changes nothing. */
  lemma UpdateSameValue(rules: seq<Rule>, index: nat)
    requires index < |rules|
    ensures UpdateRule(rules, index, "value", rules[index].value) == rules
    ensures UpdateRule(rules, index, "speed", rules[index].speed) == rules
  {
  }

  /**
   * The rule the "add" button builds from its three inputs, or None when the
   * trimmed match or speed is empty.
   */
  function NewRule(typeName: string, value: string, speed: string, freshId: string): (r: Option<Rule>)
    ensures r.None? <==> Trim(value) == "" || Trim(speed) == ""
    ensures r.Some? ==> r.value.id == freshId && r.value.kind == ParseRuleType(typeName)
    ensures r.Some? ==> r.value.value == Trim(value) && r.value.speed == Trim(speed)
  {
    var v := Trim(value);
    var s := Trim(speed);
    if v == "" || s == "" then None else Some(Rule(freshId, ParseRuleType(typeName), v, s))
  }

  /** An added rule is already in saved form: a later save keeps it as it is. */
  lemma NewRuleIsSaved(typeName: string, value: string, speed: string, freshId: string)
    requires freshId != ""
    requires NewRule(typeName, value, speed, freshId).Some?
    ensures Saved(NewRule(typeName, value, speed, freshId).value)
    ensures forall id :: Normalized(NewRule(typeName, value, speed, freshId).value, id) == NewRule(typeName, value, speed, freshId).value
  {
    TrimIdempotent(value);
    TrimIdempotent(speed);
  }

  /** The status text after a rejected add. */
  const MissingFieldsMessage := "Add a match and speed"

  /** The popup's editor: the rule list and the add-rule inputs. */
  class RuleEditor {
    var rules: seq<Rule>
    var newType: string
    var newValue: string
    var newSpeed: string
    var status: string
    /** What the settings store holds. */
    var stored: seq<Rule>
    /** The saves whose store callbacks have not run yet, oldest first. */
    var writes: seq<seq<Rule>>

    constructor ()
      ensures rules == [] && stored == [] && writes == []
      ensures newType == "channel" && newValue == "" && newSpeed == "" && status == ""
    {
      rules := [];
      newType := "channel";
      newValue := "";
      newSpeed := "";
      status := "";
      stored := [];
      writes := [];
    }

    /** The store's answer to the initial read: its rules, or none. */
    method OnLoaded(data: seq<Rule>)
      modifies this
      ensures rules == data
      ensures newType == old(newType) && newValue == old(newValue) && newSpeed == old(newSpeed)
      ensures status == old(status) && stored == old(stored)
      ensures writes == old(writes)
    {
      rules := data;
    }

    /** `moveRule(from, to)` on the editor's list. */
    method MoveRule(from: nat, to: int)
      requires from < |rules|
      modifies this
      ensures rules == Moved(old(rules), from, to)
      ensures newType == old(newType) && newValue == old(newValue) && newSpeed == old(newSpeed)
      ensures status == old(status) && stored == old(stored)
      ensures writes == old(writes)
    {
      if to < 0 || to >= |rules| {
        return;
      }
      rules := Moved(rules, from, to);
    }

    /** The "up" button of row `index`. */
    method ClickUp(index: nat)
      requires index < |rules|
      modifies this
      ensures rules == Moved(old(rules), index, index - 1)
      ensures index == 0 ==> rules == old(rules)
      ensures newType == old(newType) && newValue == old(newValue) && newSpeed == old(newSpeed)
      ensures status == old(status) && stored == old(stored)
      ensures writes == old(writes)
    {
      MoveRule(index, index - 1);
    }

    /** The "down" button of row `index`. */
    method ClickDown(index: nat)
      requires index < |rules|
      modifies this
      ensures rules == Moved(old(rules), index, index + 1)
      ensures index == |old(rules)| - 1 ==> rules == old(rules)
      ensures newType == old(newType) && newValue == old(newValue) && newSpeed == old(newSpeed)
      ensures status == old(status) && stored == old(stored)
      ensures writes == old(writes)
    {
      MoveRule(index, index + 1);
    }

    /** The "delete" button of row `index`. */
    method DeleteRowRule(index: int)
      modifies this
      ensures rules == Deleted(old(rules), index)
      ensures newType == old(newType) && newValue == old(newValue) && newSpeed == old(newSpeed)
      ensures status == old(status) && stored == old(stored)
      ensures writes == old(writes)
    {
      DeleteRuleSpec(rules, index);
      rules := DeleteRule(rules, index);
    }

    /** An edit in a row's input named `field`. */
    method EditField(index: int, field: string, value: string)
      modifies this
      ensures field == "" ==> rules == old(rules)
      ensures field != "" ==> rules == UpdateRule(old(rules), index, field, value)
      ensures newType == old(newType) && newValue == old(newValue) && newSpeed == old(newSpeed)
      ensures status == old(status) && stored == old(stored)
      ensures writes == old(writes)
    {
      if field == "" {
        return;
      }
      rules := UpdateRule(rules, index, field, value);
    }

    /**
     * The "add" button: refused with a status message when the trimmed
     * match or speed is empty; otherwise one rule is appended and both
     * inputs are cleared.
     */
    method AddClicked(freshId: string)
      modifies this
      ensures NewRule(old(newType), old(newValue), old(newSpeed), freshId).None? ==>
        rules == old(rules) && status == MissingFieldsMessage
        && newValue == old(newValue) && newSpeed == old(newSpeed)
      ensures NewRule(old(newType), old(newValue), old(newSpeed), freshId).Some? ==>
        rules == old(rules) + [NewRule(old(newType), old(newValue), old(newSpeed), freshId).value]
        && status == old(status) && newValue == "" && newSpeed == ""
      ensures newType == old(newType) && stored == old(stored)
      ensures writes == old(writes)
    {
      var added := NewRule(newType, newValue, newSpeed, freshId);
      ApplyAdd(added);
    }

    /** The add button's outcome, given the rule it built or none. */
    method ApplyAdd(added: Option<Rule>)
      modifies this
      ensures added.None? ==>
        rules == old(rules) && status == MissingFieldsMessage
        && newValue == old(newValue) && newSpeed == old(newSpeed)
      ensures added.Some? ==>
        rules == old(rules) + [added.value]
        && status == old(status) && newValue == "" && newSpeed == ""
      ensures newType == old(newType) && stored == old(stored)
      ensures writes == old(writes)
    {
      if added.None? {
        status := MissingFieldsMessage;
      } else {
        rules := rules + [added.value];
        newValue := "";
        newSpeed := "";
      }
    }

    /** The "save" button: the normalised list is written to the store. */
    method SaveClicked(uuid: nat -> string)
      modifies this
      ensures stored == NormalizeRules(old(rules), uuid)
      ensures writes == old(writes) + [stored]
      ensures rules == old(rules) && status == old(status)
      ensures newType == old(newType) && newValue == old(newValue) && newSpeed == old(newSpeed)
    {
      var normalized := NormalizeRules(rules, uuid);
      Store(normalized);
    }

    /** The save's bookkeeping: `list` is written and its callback awaited after the earlier ones. */
    method Store(list: seq<Rule>)
      modifies this
      ensures stored == list && writes == old(writes) + [list]
      ensures rules == old(rules) && status == old(status)
      ensures newType == old(newType) && newValue == old(newValue) && newSpeed == old(newSpeed)
    {
      stored := list;
      writes := writes + [list];
    }

    /**
     * The store's callback for the oldest save still in flight: the editor
     * shows the list that save normalised, replacing any edit made since.
     */
    method OnSaved()
      requires writes != []
      modifies this
      ensures rules == old(writes[0]) && status == "Saved" && writes == old(writes[1..])
      ensures stored == old(stored)
      ensures newType == old(newType) && newValue == old(newValue) && newSpeed == old(newSpeed)
    {
      rules := writes[0];
      status := "Saved";
      writes := writes[1..];
    }
  }
}

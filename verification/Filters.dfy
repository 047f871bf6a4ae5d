/**
 Subscription rules: the matcher that decides which rule an event triggers, and the resolvers
 that turn the same rules into relay subscriptions.
 */
module Filters {
  import opened Text
  import opened Wrappers

  datatype Uuid = Uuid(bits: nat)

  /** How channel ids are written and read; reading accepts more spellings than are written. */
  datatype Spelling = Spelling(parse: string -> Option<Uuid>, show: Uuid -> string)

  ghost predicate Readable(u: Spelling) { forall id :: u.parse(u.show(id)) == Some(id) }

  datatype Scope = All(word: string) | Listed(ids: seq<string>)

  datatype Rule = Rule(
    name: string, channels: Scope, kinds: seq<nat>, requireMention: bool, hasFilter: bool, promptTag: Option<string>)

  /** An event as the rules see it: kind, whether it mentions the agent, and its channel. */
  datatype Event = Event(kind: nat, mentions: bool, channel: Uuid)

  // ---- The matcher -----------------------------------------------------------------

  /** `ChannelScope::matches`: compares spellings. */
  predicate ScopeMatches(u: Spelling, scope: Scope, channel: Uuid) {
    match scope
    case All(word) => word == "all"
    case Listed(ids) => u.show(channel) in ids
  }

  /** Everything a rule tests before its filter expression. */
  predicate Eligible(u: Spelling, rule: Rule, e: Event) {
    && ScopeMatches(u, rule.channels, e.channel)
    && (rule.kinds == [] || e.kind in rule.kinds)
    && (rule.requireMention ==> e.mentions)
  }

  datatype Outcome = True | False | TimedOut | Failed

  const MAX_CONSECUTIVE_TIMEOUTS := 5

  datatype Matched = Matched(index: nat, promptTag: string)

  /** Can rule i pass the event on to the rules after it? */
  predicate Passes(u: Spelling, rules: seq<Rule>, counts: seq<nat>, e: Event, eval: nat -> Outcome, i: nat)
    requires i < |rules| == |counts|
  {
    !Eligible(u, rules[i], e)
    || (rules[i].hasFilter && counts[i] < MAX_CONSECUTIVE_TIMEOUTS && eval(i) == False)
  }

  predicate Wins(u: Spelling, rules: seq<Rule>, counts: seq<nat>, e: Event, eval: nat -> Outcome, i: nat)
    requires i < |rules| == |counts|
  {
    && Eligible(u, rules[i], e)
    && (rules[i].hasFilter ==> counts[i] < MAX_CONSECUTIVE_TIMEOUTS && eval(i) == True)
  }

  /** The first rule from i on that does not pass the event on, or the number of rules. */
  function From(u: Spelling, rules: seq<Rule>, counts: seq<nat>, e: Event, eval: nat -> Outcome, i: nat): (r: nat)
    requires i <= |rules| == |counts|
    ensures i <= r <= |rules|
    ensures forall j :: i <= j < r ==> Passes(u, rules, counts, e, eval, j)
    ensures r < |rules| ==> !Passes(u, rules, counts, e, eval, r)
    decreases |rules| - i
  {
    if i == |rules| then i
    else if Passes(u, rules, counts, e, eval, i) then From(u, rules, counts, e, eval, i + 1)
    else i
  }

  function Match(u: Spelling, rules: seq<Rule>, counts: seq<nat>, e: Event, eval: nat -> Outcome): Option<nat>
    requires |rules| == |counts|
  {
    var i := From(u, rules, counts, e, eval, 0);
    if i < |rules| && Wins(u, rules, counts, e, eval, i) then Some(i) else None
  }

  /** A rule's timeout counter after the matcher visited it. */
  function Visited(rule: Rule, eligible: bool, count: nat, outcome: Outcome): nat {
    if !eligible || !rule.hasFilter || count >= MAX_CONSECUTIVE_TIMEOUTS then count
    else match outcome
      case True => 0
      case False => 0
      case TimedOut => count + 1
      case Failed => count
  }

  /** The counters after one event: only rules up to the stopping one are visited. */
  function NextCount(u: Spelling, rules: seq<Rule>, counts: seq<nat>, e: Event, eval: nat -> Outcome, i: nat): nat
    requires i < |rules| == |counts|
  {
    if i <= From(u, rules, counts, e, eval, 0)
    then Visited(rules[i], Eligible(u, rules[i], e), counts[i], eval(i)) else counts[i]
  }

  function NextCounts(u: Spelling, rules: seq<Rule>, counts: seq<nat>, e: Event, eval: nat -> Outcome): (r: seq<nat>)
    requires |rules| == |counts|
    ensures |r| == |counts| && forall i :: 0 <= i < |r| ==> r[i] == NextCount(u, rules, counts, e, eval, i)
  {
    seq(|counts|, i requires 0 <= i < |counts| => NextCount(u, rules, counts, e, eval, i))
  }

  class Matcher {
    const rules: seq<Rule>
    var timeouts: seq<nat>

    ghost predicate Valid() reads this { |timeouts| == |rules| }

    constructor (rules: seq<Rule>)
      ensures this.rules == rules && Valid() && forall i :: 0 <= i < |timeouts| ==> timeouts[i] == 0
    {
      this.rules := rules;
      timeouts := seq(|rules|, i => 0);
    }

    /** `match_event`: rules in order, first match wins, any filter error ends the search. */
    method MatchEvent(u: Spelling, e: Event, eval: nat -> Outcome) returns (r: Option<Matched>)
      requires Valid()
      modifies this`timeouts
      ensures Valid()
      ensures r.Some? <==> Match(u, rules, old(timeouts), e, eval).Some?
      ensures r.Some? ==>
        && r.value.index == Match(u, rules, old(timeouts), e, eval).value
        && r.value.promptTag == (if rules[r.value.index].promptTag.Some? then rules[r.value.index].promptTag.value
                                 else rules[r.value.index].name)
      ensures timeouts == NextCounts(u, rules, old(timeouts), e, eval)
    {
      ghost var before := timeouts;
      var i := 0;
      while i < |rules|
        invariant 0 <= i <= |rules| && |timeouts| == |rules|
        invariant From(u, rules, before, e, eval, 0) == From(u, rules, before, e, eval, i)
        invariant forall j :: i <= j < |rules| ==> timeouts[j] == before[j]
        invariant forall j :: 0 <= j < i ==>
                                timeouts[j] == Visited(rules[j], Eligible(u, rules[j], e), before[j], eval(j))
      {
        var rule := rules[i];
        if Eligible(u, rule, e) {
          if !rule.hasFilter {
            return Some(Matched(i, if rule.promptTag.Some? then rule.promptTag.value else rule.name));
          }
          assert i <= From(u, rules, before, e, eval, 0);
          if timeouts[i] >= MAX_CONSECUTIVE_TIMEOUTS {
            assert NextCount(u, rules, before, e, eval, i) == timeouts[i];
            return None;
          }
          match eval(i) {
            case True =>
              timeouts := timeouts[i := 0];
              return Some(Matched(i, if rule.promptTag.Some? then rule.promptTag.value else rule.name));
            case False => timeouts := timeouts[i := 0];
            case TimedOut =>
              timeouts := timeouts[i := timeouts[i] + 1];
              return None;
            case Failed => return None;
          }
        }
        i := i + 1;
      }
      return None;
    }
  }

  // ---- What is matched, from the fields alone --------------------------------------

  /** The rule is for this channel, this kind and this event's mentions. */
  predicate Wants(u: Spelling, rule: Rule, e: Event) {
    && (rule.channels == All("all")
        || (rule.channels.Listed?
            && exists k :: 0 <= k < |rule.channels.ids| && rule.channels.ids[k] == u.show(e.channel)))
    && (|rule.kinds| == 0 || exists k :: 0 <= k < |rule.kinds| && rule.kinds[k] == e.kind)
    && (e.mentions || !rule.requireMention)
  }

  lemma WantsIsEligible(u: Spelling, rule: Rule, e: Event)
    ensures Wants(u, rule, e) <==> Eligible(u, rule, e)
  {
  }

  /** Every earlier rule does not want the event, or has a filter below five timeouts that says no. */
  predicate Reached(u: Spelling, rules: seq<Rule>, counts: seq<nat>, e: Event, eval: nat -> Outcome, i: nat)
    requires i < |rules| == |counts|
  {
    forall j :: 0 <= j < i && Wants(u, rules[j], e) ==> rules[j].hasFilter && counts[j] < 5 && eval(j) == False
  }

  lemma ReachedMeansFrom(u: Spelling, rules: seq<Rule>, counts: seq<nat>, e: Event, eval: nat -> Outcome, i: nat)
    requires i < |rules| == |counts|
    ensures Reached(u, rules, counts, e, eval, i) <==> i <= From(u, rules, counts, e, eval, 0)
  {
    hide Wants, Eligible;
    forall j | 0 <= j < |rules| ensures Passes(u, rules, counts, e, eval, j) <==>
      (Wants(u, rules[j], e) ==> rules[j].hasFilter && counts[j] < 5 && eval(j) == False)
    {
      WantsIsEligible(u, rules[j], e);
    }
    var stop := From(u, rules, counts, e, eval, 0);
    if stop < i {
      assert !Passes(u, rules, counts, e, eval, stop);
    } else {
      forall j | 0 <= j < i && Wants(u, rules[j], e) ensures rules[j].hasFilter && counts[j] < 5 && eval(j) == False {
        assert Passes(u, rules, counts, e, eval, j);
      }
    }
  }

  /**
   The matcher answers with rule i exactly when rule i wants the event and has no filter, or one
   below five timeouts that says yes, and every earlier rule does not want it or has a filter
   below five timeouts that says no.
   */
  lemma MatchExact(u: Spelling, rules: seq<Rule>, counts: seq<nat>, e: Event, eval: nat -> Outcome, i: nat)
    requires |rules| == |counts|
    ensures Match(u, rules, counts, e, eval) == Some(i) <==>
      && i < |rules| && Wants(u, rules[i], e)
      && (rules[i].hasFilter ==> counts[i] < 5 && eval(i) == True)
      && Reached(u, rules, counts, e, eval, i)
  {
    hide Wants, Eligible, Reached;
    if i < |rules| {
      WantsIsEligible(u, rules[i], e);
      ReachedMeansFrom(u, rules, counts, e, eval, i);
      if i < From(u, rules, counts, e, eval, 0) { assert Passes(u, rules, counts, e, eval, i); }
    }
  }

  /**
   How a counter moves: where the filter of a rule that is reached, wants the event and is not
   disabled was evaluated, an answer resets it, a timeout raises it by one and an error leaves
   it; every other counter stays.
   */
  lemma CounterMoves(u: Spelling, rules: seq<Rule>, counts: seq<nat>, e: Event, eval: nat -> Outcome, i: nat)
    requires i < |rules| == |counts|
    ensures NextCounts(u, rules, counts, e, eval)[i] ==
      if Reached(u, rules, counts, e, eval, i) && Wants(u, rules[i], e) && rules[i].hasFilter && counts[i] < 5 then
        (match eval(i) case True => 0 case False => 0 case TimedOut => counts[i] + 1 case Failed => counts[i])
      else counts[i]
  {
    hide Wants, Eligible, Reached;
    WantsIsEligible(u, rules[i], e);
    ReachedMeansFrom(u, rules, counts, e, eval, i);
  }

  /** Five timeouts in a row on events that reach a rule's filter, starting from zero, disable it. */
  lemma {:induction false} TimeoutsDisable(u: Spelling, rules: seq<Rule>, counts: seq<nat>, steps: seq<Step>, i: nat)
    requires i < |rules| == |counts| && counts[i] == 0 && rules[i].hasFilter && |steps| <= 5
    requires forall k :: 0 <= k < |steps| ==>
      && steps[k].eval(i) == TimedOut && Wants(u, rules[i], steps[k].event)
      && Reached(u, rules, RunCounts(u, rules, counts, steps[..k]), steps[k].event, steps[k].eval, i)
    ensures RunCounts(u, rules, counts, steps)[i] == |steps|
  {
    hide Wants, Reached, NextCounts;
    if steps != [] {
      var n := |steps| - 1;
      var front := steps[..n];
      forall k | 0 <= k < n ensures front[k] == steps[k] && front[..k] == steps[..k] {
      }
      TimeoutsDisable(u, rules, counts, front, i);
      CounterMoves(u, rules, RunCounts(u, rules, counts, front), steps[n].event, steps[n].eval, i);
    }
  }

  // ---- Failing closed --------------------------------------------------------------

  /** eval' differs from eval only where it reports an error or a timeout instead. */
  ghost predicate Breaks(eval: nat -> Outcome, eval': nat -> Outcome) {
    forall i: nat :: eval'(i) == eval(i) || eval'(i) == TimedOut || eval'(i) == Failed
  }

  /** Breaking any filter outcomes leaves the match alone or removes it: never a later rule. */
  lemma FailsClosed(u: Spelling, rules: seq<Rule>, counts: seq<nat>, e: Event, eval: nat -> Outcome, eval': nat -> Outcome)
    requires |rules| == |counts| && Breaks(eval, eval')
    ensures Match(u, rules, counts, e, eval') == Match(u, rules, counts, e, eval)
            || Match(u, rules, counts, e, eval') == None
  {
    var i, i' := From(u, rules, counts, e, eval, 0), From(u, rules, counts, e, eval', 0);
    forall j | 0 <= j < i' ensures Passes(u, rules, counts, e, eval, j) {
      assert Passes(u, rules, counts, e, eval', j);
    }
    if i' < i { assert Passes(u, rules, counts, e, eval, i'); }
  }

  // ---- Runs of events --------------------------------------------------------------

  datatype Step = Step(event: Event, eval: nat -> Outcome)

  function RunCounts(u: Spelling, rules: seq<Rule>, counts: seq<nat>, steps: seq<Step>): (r: seq<nat>)
    requires |rules| == |counts|
    ensures |r| == |rules|
  {
    if steps == [] then counts
    else
      var before := RunCounts(u, rules, counts, steps[..|steps| - 1]);
      NextCounts(u, rules, before, steps[|steps| - 1].event, steps[|steps| - 1].eval)
  }

  function Zeros(n: nat): seq<nat> { seq(n, i => 0) }

  /** In every run from zero no counter passes the threshold. */
  lemma {:induction false} CountsStayBounded(u: Spelling, rules: seq<Rule>, steps: seq<Step>)
    ensures forall i :: 0 <= i < |rules| ==>
      RunCounts(u, rules, Zeros(|rules|), steps)[i] <= MAX_CONSECUTIVE_TIMEOUTS
  {
    if steps != [] {
      CountsStayBounded(u, rules, steps[..|steps| - 1]);
      var before, last := RunCounts(u, rules, Zeros(|rules|), steps[..|steps| - 1]), steps[|steps| - 1];
      forall i | 0 <= i < |rules|
        ensures NextCount(u, rules, before, last.event, last.eval, i) <= MAX_CONSECUTIVE_TIMEOUTS
      {
        assert before[i] <= MAX_CONSECUTIVE_TIMEOUTS;
      }
    }
  }

  /** A disabled rule stays disabled through any further run. */
  lemma {:induction false} DisabledForGood(u: Spelling, rules: seq<Rule>, counts: seq<nat>, steps: seq<Step>, i: nat)
    requires i < |rules| == |counts| && counts[i] >= MAX_CONSECUTIVE_TIMEOUTS
    ensures RunCounts(u, rules, counts, steps)[i] == counts[i]
  {
    if steps != [] {
      DisabledForGood(u, rules, counts, steps[..|steps| - 1], i);
      var before, last := RunCounts(u, rules, counts, steps[..|steps| - 1]), steps[|steps| - 1];
      assert NextCounts(u, rules, before, last.event, last.eval)[i] == before[i];
    }
  }

  /** From then on, every event that reaches the disabled rule matches nothing. */
  lemma DisabledRuleBlocks(u: Spelling, rules: seq<Rule>, counts: seq<nat>, steps: seq<Step>, i: nat,
                           e: Event, eval: nat -> Outcome)
    requires i < |rules| == |counts| && counts[i] >= MAX_CONSECUTIVE_TIMEOUTS && rules[i].hasFilter
    requires Eligible(u, rules[i], e)
    ensures var after := RunCounts(u, rules, counts, steps);
      var m := Match(u, rules, after, e, eval);
      (forall j :: 0 <= j < i ==> Passes(u, rules, after, e, eval, j)) ==> m == None
    ensures var after := RunCounts(u, rules, counts, steps);
      var m := Match(u, rules, after, e, eval);
      m.Some? ==> m.value < i
  {
    DisabledForGood(u, rules, counts, steps, i);
    var after := RunCounts(u, rules, counts, steps);
    var stop := From(u, rules, after, e, eval, 0);
    assert !Passes(u, rules, after, e, eval, i);
    assert stop <= i;
  }

  // ---- Subscriptions ---------------------------------------------------------------

  datatype ChannelFilter = ChannelFilter(kinds: Option<seq<nat>>, requireMention: bool)

  predicate Admits(f: ChannelFilter, e: Event) {
    (f.kinds.None? || e.kind in f.kinds.value) && (f.requireMention ==> e.mentions)
  }

  /** `rule_applies_to_channel`: parses spellings. */
  predicate Applies(u: Spelling, rule: Rule, channel: Uuid) {
    match rule.channels
    case All(word) => word == "all"
    case Listed(ids) => exists i :: 0 <= i < |ids| && u.parse(ids[i]) == Some(channel)
  }

  lemma MatchesImpliesApplies(u: Spelling, rule: Rule, channel: Uuid)
    requires Readable(u) && ScopeMatches(u, rule.channels, channel)
    ensures Applies(u, rule, channel)
  {
    if rule.channels.Listed? {
      var i :| 0 <= i < |rule.channels.ids| && rule.channels.ids[i] == u.show(channel);
      assert u.parse(rule.channels.ids[i]) == Some(channel);
    }
  }

  /** Whatever channel a listed spelling reads as, that channel's own spelling is listed too. */
  predicate ListsOwnSpellings(u: Spelling, ids: seq<string>) {
    forall i :: 0 <= i < |ids| && u.parse(ids[i]).Some? ==> u.show(u.parse(ids[i]).value) in ids
  }

  /**
   The two scope tests agree on every channel exactly when the rule is for all channels or its
   list is closed under the spelling the matcher compares with, which the author of the rule can
   check without knowing the channels.
   */
  lemma ScopesAgreeWhen(u: Spelling, rule: Rule)
    requires Readable(u)
    ensures (forall c :: Applies(u, rule, c) <==> ScopeMatches(u, rule.channels, c)) <==>
      rule.channels.All? || ListsOwnSpellings(u, rule.channels.ids)
  {
    if rule.channels.Listed? {
      var ids := rule.channels.ids;
      if ListsOwnSpellings(u, ids) {
        forall c ensures Applies(u, rule, c) <==> ScopeMatches(u, rule.channels, c) {
          if ScopeMatches(u, rule.channels, c) { MatchesImpliesApplies(u, rule, c); }
        }
      } else {
        var i :| 0 <= i < |ids| && u.parse(ids[i]).Some? && u.show(u.parse(ids[i]).value) !in ids;
        var c := u.parse(ids[i]).value;
        assert Applies(u, rule, c) && !ScopeMatches(u, rule.channels, c);
      }
    }
  }

  /**
   They differ on every second spelling of a channel, such as a UUID in upper case or in braces:
   a rule that lists only that one subscribes to the channel and never matches on it.
   */
  lemma ScopesDiffer(u: Spelling, spelling: string, e: Event, count: nat, eval: nat -> Outcome)
    requires u.parse(spelling) == Some(e.channel) && spelling != u.show(e.channel)
    ensures var rule := Rule("r", Listed([spelling]), [], false, false, None);
      && Applies(u, rule, e.channel) && !ScopeMatches(u, rule.channels, e.channel)
      && Merged(u, [rule], e.channel) == Some(ChannelFilter(None, false))
      && Match(u, [rule], [count], e, eval) == None
  {
    var rule := Rule("r", Listed([spelling]), [], false, false, None);
    assert u.parse(rule.channels.ids[0]) == Some(e.channel);
    assert [rule][..0] == [] && Merged(u, [], e.channel) == None;
  }

  /** Ids written in decimal and also read in braces, as UUIDs are. */
  function Braced(): Spelling {
    Spelling(s => if Canonical(s) then Some(Uuid(Value(s)))
                  else if |s| > 2 && s[0] == '{' && s[|s| - 1] == '}' && Canonical(s[1..|s| - 1])
                  then Some(Uuid(Value(s[1..|s| - 1]))) else None,
             (id: Uuid) => Decimal(id.bits))
  }

  /** Reading may take every id back and still know second spellings. */
  lemma SecondSpellingsExist(id: Uuid)
    ensures Readable(Braced())
    ensures var spelling := "{" + Decimal(id.bits) + "}";
      Braced().parse(spelling) == Some(id) && spelling != Braced().show(id)
  {
    forall id: Uuid ensures Braced().parse(Braced().show(id)) == Some(id) { ValueOfDecimal(id.bits); }
    var spelling := "{" + Decimal(id.bits) + "}";
    assert spelling[1..|spelling| - 1] == Decimal(id.bits);
    assert !Canonical(spelling) by { assert !IsDigit(spelling[0]); }
  }

  function AddAll(kinds: seq<nat>, more: seq<nat>): (r: seq<nat>)
    decreases more
    ensures forall k :: k in r <==> k in kinds || k in more
    ensures NoDuplicates(kinds) ==> NoDuplicates(r)
  {
    if more == [] then kinds
    else AddAll(if more[0] in kinds then kinds else kinds + [more[0]], more[1..])
  }

  predicate NoDuplicates(s: seq<nat>) { forall i, j :: 0 <= i < j < |s| ==> s[i] != s[j] }

  /** The merge over a prefix of the rules; None while no rule applies. */
  function Merged(u: Spelling, rules: seq<Rule>, channel: Uuid): Option<ChannelFilter> {
    if rules == [] then None
    else
      var before, rule := Merged(u, rules[..|rules| - 1], channel), rules[|rules| - 1];
      if !Applies(u, rule, channel) then before
      else
        var f := if before.None? then ChannelFilter(Some([]), true) else before.value;
        Some(ChannelFilter(if rule.kinds == [] || f.kinds.None? then None else Some(AddAll(f.kinds.value, rule.kinds)),
                           f.requireMention && rule.requireMention))
  }

  /** The merge loop both resolvers run. */
  method MergeRules(u: Spelling, rules: seq<Rule>, channel: Uuid) returns (f: Option<ChannelFilter>)
    ensures f == Merged(u, rules, channel)
  {
    var mergedKinds: Option<seq<nat>>, requireMention, hasRule := Some([]), true, false;
    for i := 0 to |rules|
      invariant Merged(u, rules[..i], channel) ==
        if hasRule then Some(ChannelFilter(mergedKinds, requireMention)) else None
      invariant !hasRule ==> mergedKinds == Some([]) && requireMention
    {
      assert rules[..i + 1][..i] == rules[..i];
      var rule := rules[i];
      if Applies(u, rule, channel) {
        hasRule := true;
        if rule.kinds == [] {
          mergedKinds := None;
        } else if mergedKinds.Some? {
          var kinds := mergedKinds.value;
          for j := 0 to |rule.kinds|
            invariant AddAll(kinds, rule.kinds[j..]) == AddAll(mergedKinds.value, rule.kinds)
          {
            if rule.kinds[j] !in kinds {
              kinds := kinds + [rule.kinds[j]];
            }
          }
          mergedKinds := Some(kinds);
        }
        if !rule.requireMention {
          requireMention := false;
        }
      }
    }
    assert rules[..|rules|] == rules;
    f := if hasRule then Some(ChannelFilter(mergedKinds, requireMention)) else None;
  }

  predicate SomeApplies(u: Spelling, rules: seq<Rule>, channel: Uuid) {
    exists i :: 0 <= i < |rules| && Applies(u, rules[i], channel)
  }

  predicate SomeWild(u: Spelling, rules: seq<Rule>, channel: Uuid) {
    exists i :: 0 <= i < |rules| && Applies(u, rules[i], channel) && rules[i].kinds == []
  }

  predicate SomeLists(u: Spelling, rules: seq<Rule>, channel: Uuid, k: nat) {
    exists i :: 0 <= i < |rules| && Applies(u, rules[i], channel) && k in rules[i].kinds
  }

  predicate SomeOpen(u: Spelling, rules: seq<Rule>, channel: Uuid) {
    exists i :: 0 <= i < |rules| && Applies(u, rules[i], channel) && !rules[i].requireMention
  }

  /** What the merge means, with no order in it: the union of kinds and the weakest mention demand. */
  lemma {:induction false} MergedMeaning(u: Spelling, rules: seq<Rule>, channel: Uuid)
    ensures Merged(u, rules, channel).Some? <==> SomeApplies(u, rules, channel)
    ensures Merged(u, rules, channel).Some? ==>
      var f := Merged(u, rules, channel).value;
      && (f.kinds.None? <==> SomeWild(u, rules, channel))
      && (f.kinds.Some? ==> NoDuplicates(f.kinds.value)
                            && forall k :: k in f.kinds.value <==> SomeLists(u, rules, channel, k))
      && (f.requireMention <==> !SomeOpen(u, rules, channel))
  {
    if rules != [] {
      MergedMeaning(u, rules[..|rules| - 1], channel);
    }
  }

  /** Equal up to the order of the kinds. */
  ghost predicate SameFilter(f: Option<ChannelFilter>, g: Option<ChannelFilter>) {
    if f.None? || g.None? then f == g
    else
      && f.value.requireMention == g.value.requireMention
      && (f.value.kinds.None? <==> g.value.kinds.None?)
      && (f.value.kinds.Some? ==> forall k :: k in f.value.kinds.value <==> k in g.value.kinds.value)
  }

  /** The merge does not depend on the order (or repetition) of the rules. */
  lemma MergeIgnoresOrder(u: Spelling, rules: seq<Rule>, rules': seq<Rule>, channel: Uuid)
    requires forall r :: r in rules <==> r in rules'
    ensures SameFilter(Merged(u, rules, channel), Merged(u, rules', channel))
  {
    hide Merged, SomeApplies, SomeWild, SomeLists, SomeOpen, NoDuplicates;
    MergedMeaning(u, rules, channel);
    MergedMeaning(u, rules', channel);
    MoreRules(u, rules, rules', channel);
    MoreRules(u, rules', rules, channel);
  }

  lemma MoreRules(u: Spelling, rules: seq<Rule>, rules': seq<Rule>, channel: Uuid)
    requires forall r :: r in rules ==> r in rules'
    ensures SomeApplies(u, rules, channel) ==> SomeApplies(u, rules', channel)
    ensures SomeWild(u, rules, channel) ==> SomeWild(u, rules', channel)
    ensures SomeOpen(u, rules, channel) ==> SomeOpen(u, rules', channel)
    ensures forall k :: SomeLists(u, rules, channel, k) ==> SomeLists(u, rules', channel, k)
  {
    hide Applies;
    forall i | 0 <= i < |rules| ensures exists j :: 0 <= j < |rules'| && rules'[j] == rules[i] {
      assert rules[i] in rules;
    }
  }

  /** Whatever the matcher accepts, the channel's merged subscription delivers. */
  lemma MatchedIsSubscribed(u: Spelling, rules: seq<Rule>, counts: seq<nat>, e: Event, eval: nat -> Outcome)
    requires Readable(u) && |rules| == |counts| && Match(u, rules, counts, e, eval).Some?
    ensures Merged(u, rules, e.channel).Some? && Admits(Merged(u, rules, e.channel).value, e)
  {
    hide Merged;
    var i := Match(u, rules, counts, e, eval).value;
    MatchesImpliesApplies(u, rules[i], e.channel);
    MergedMeaning(u, rules, e.channel);
  }

  /**
   Where every list names channels by their own spelling and no rule has a filter, an event is
   matched exactly when the subscription some single rule asks for admits it.
   */
  lemma SubscribedIsMatched(u: Spelling, rules: seq<Rule>, counts: seq<nat>, e: Event, eval: nat -> Outcome)
    requires Readable(u) && |rules| == |counts|
    requires forall i :: 0 <= i < |rules| ==>
      !rules[i].hasFilter && (rules[i].channels.Listed? ==> ListsOwnSpellings(u, rules[i].channels.ids))
    ensures Match(u, rules, counts, e, eval).Some? <==> exists i :: 0 <= i < |rules| && SubscribedBy(u, rules[i], e)
  {
    hide ListsOwnSpellings, SubscribedBy, Eligible;
    forall i | 0 <= i < |rules| ensures SubscribedBy(u, rules[i], e) <==> Eligible(u, rules[i], e) {
      SubscribedIsEligible(u, rules[i], e);
    }
    var stop := From(u, rules, counts, e, eval, 0);
    if stop < |rules| {
      assert !Passes(u, rules, counts, e, eval, stop);
    } else {
      forall i | 0 <= i < |rules| ensures !Eligible(u, rules[i], e) { assert Passes(u, rules, counts, e, eval, i); }
    }
  }

  /** The rule on its own would subscribe to the event. */
  predicate SubscribedBy(u: Spelling, rule: Rule, e: Event) {
    Merged(u, [rule], e.channel).Some? && Admits(Merged(u, [rule], e.channel).value, e)
  }

  lemma SubscribedIsEligible(u: Spelling, rule: Rule, e: Event)
    requires Readable(u) && (rule.channels.Listed? ==> ListsOwnSpellings(u, rule.channels.ids))
    ensures SubscribedBy(u, rule, e) <==> Eligible(u, rule, e)
  {
    ScopesAgreeWhen(u, rule);
    assert Applies(u, rule, e.channel) <==> ScopeMatches(u, rule.channels, e.channel);
    hide Applies, ScopeMatches;
    assert [rule][..0] == [] && Merged(u, [], e.channel) == None;
    assert AddAll([], rule.kinds) == AddAll([], rule.kinds);
  }

  // ---- The two resolvers -----------------------------------------------------------

  datatype Mode = Mentions | AllMessages | ConfigRules

  datatype Config = Config(
    mode: Mode, channelsOverride: Option<seq<string>>, kindsOverride: Option<seq<nat>>, noMentionFilter: bool)

  const KIND_STREAM_MESSAGE := 9
  const KIND_STREAM_REMINDER := 40007
  const KIND_WORKFLOW_APPROVAL_REQUESTED := 46010

  predicate Allowed(u: Spelling, config: Config, channel: Uuid) {
    config.channelsOverride.None? ||
    exists i :: 0 <= i < |config.channelsOverride.value| && u.parse(config.channelsOverride.value[i]) == Some(channel)
  }

  /** The subscription a channel should get, if any. */
  function FilterFor(u: Spelling, config: Config, rules: seq<Rule>, channel: Uuid): Option<ChannelFilter> {
    match config.mode
    case ConfigRules => Merged(u, rules, channel)
    case Mentions =>
      if !Allowed(u, config, channel) then None
      else Some(ChannelFilter(Some(if config.kindsOverride.Some? then config.kindsOverride.value
                                   else [KIND_STREAM_MESSAGE, KIND_WORKFLOW_APPROVAL_REQUESTED, KIND_STREAM_REMINDER]),
                              !config.noMentionFilter))
    case AllMessages =>
      if !Allowed(u, config, channel) then None else Some(ChannelFilter(config.kindsOverride, false))
  }

  predicate Delivers(f: Option<ChannelFilter>, e: Event) { f.Some? && Admits(f.value, e) }

  /** No channels were configured, or a configured one reads as this channel. */
  predicate NamedOrOpen(u: Spelling, config: Config, channel: Uuid) {
    match config.channelsOverride
    case None => true
    case Some(names) => exists name :: name in names && u.parse(name) == Some(channel)
  }

  /**
   What each mode delivers. By mention: allowed channels, the configured kinds or else stream
   messages (9), approval requests (46010) and reminders (40007), with a mention unless that is
   waived. All messages: allowed channels and the configured kinds or else every kind. By rules:
   what some rule for the channel asks for, at its weakest.
   */
  lemma DeliveredWhen(u: Spelling, config: Config, rules: seq<Rule>, e: Event)
    ensures var delivered := Delivers(FilterFor(u, config, rules, e.channel), e);
      match config.mode
      case Mentions =>
        delivered <==>
        && NamedOrOpen(u, config, e.channel) && (e.mentions || config.noMentionFilter)
        && (if config.kindsOverride.Some? then e.kind in config.kindsOverride.value else e.kind in {9, 46010, 40007})
      case AllMessages =>
        delivered <==>
        && NamedOrOpen(u, config, e.channel)
        && (config.kindsOverride.Some? ==> e.kind in config.kindsOverride.value)
      case ConfigRules =>
        delivered <==>
        && SomeApplies(u, rules, e.channel)
        && (SomeWild(u, rules, e.channel) || SomeLists(u, rules, e.channel, e.kind))
        && (e.mentions || SomeOpen(u, rules, e.channel))
  {
    hide Merged, SomeApplies, SomeWild, SomeLists, SomeOpen, NoDuplicates;
    MergedMeaning(u, rules, e.channel);
  }

  /** `resolve_dynamic_channel_filter`: one channel, discovered later. */
  method ResolveDynamic(u: Spelling, config: Config, channel: Uuid, rules: seq<Rule>) returns (f: Option<ChannelFilter>)
    ensures f == FilterFor(u, config, rules, channel)
  {
    if config.mode != ConfigRules && config.channelsOverride.Some? {
      var overrides := config.channelsOverride.value;
      if !exists i :: 0 <= i < |overrides| && u.parse(overrides[i]) == Some(channel) { return None; }
    }
    match config.mode {
      case Mentions =>
        var kinds := if config.kindsOverride.Some? then config.kindsOverride.value
                     else [KIND_STREAM_MESSAGE, KIND_WORKFLOW_APPROVAL_REQUESTED, KIND_STREAM_REMINDER];
        f := Some(ChannelFilter(Some(kinds), !config.noMentionFilter));
      case AllMessages => f := Some(ChannelFilter(config.kindsOverride, false));
      case ConfigRules => f := MergeRules(u, rules, channel);
    }
  }

  /** The override list as channels, keeping those discovered. */
  method TargetChannels(u: Spelling, config: Config, discovered: seq<Uuid>) returns (targets: seq<Uuid>)
    ensures forall c :: c in targets <==> c in discovered && Allowed(u, config, c)
  {
    if config.channelsOverride.None? { return discovered; }
    var overrides := config.channelsOverride.value;
    targets := [];
    for i := 0 to |overrides|
      invariant forall c :: c in targets <==>
        c in discovered && exists j :: 0 <= j < i && u.parse(overrides[j]) == Some(c)
    {
      var id := u.parse(overrides[i]);
      if id.Some? && id.value in discovered {
        targets := targets + [id.value];
      }
    }
  }

  /** `resolve_channel_filters`: every channel discovered at start-up. */
  method ResolveStatic(u: Spelling, config: Config, discovered: seq<Uuid>, rules: seq<Rule>)
    returns (result: map<Uuid, ChannelFilter>)
    ensures forall c :: c in result <==> c in discovered && FilterFor(u, config, rules, c).Some?
    ensures forall c :: c in result ==> Some(result[c]) == FilterFor(u, config, rules, c)
  {
    hide Merged;
    result := map[];
    if config.mode == ConfigRules {
      for i := 0 to |discovered|
        invariant forall c :: c in result <==> c in discovered[..i] && FilterFor(u, config, rules, c).Some?
        invariant forall c :: c in result ==> Some(result[c]) == FilterFor(u, config, rules, c)
      {
        var f := MergeRules(u, rules, discovered[i]);
        if f.Some? { result := result[discovered[i] := f.value]; }
      }
    } else {
      var targets := TargetChannels(u, config, discovered);
      var f := if config.mode == Mentions
        then ChannelFilter(Some(if config.kindsOverride.Some? then config.kindsOverride.value
                                else [KIND_STREAM_MESSAGE, KIND_WORKFLOW_APPROVAL_REQUESTED, KIND_STREAM_REMINDER]),
                           !config.noMentionFilter)
        else ChannelFilter(config.kindsOverride, false);
      for i := 0 to |targets|
        invariant forall c :: c in result <==> c in targets[..i]
        invariant forall c :: c in result ==> result[c] == f
      {
        result := result[targets[i] := f];
      }
    }
  }

  /** In every mode, for every discovered channel, the two resolvers give the same answer. */
  method ResolversAgree(u: Spelling, config: Config, discovered: seq<Uuid>, rules: seq<Rule>, channel: Uuid)
    returns (fromStatic: Option<ChannelFilter>, fromDynamic: Option<ChannelFilter>)
    requires channel in discovered
    ensures fromStatic == fromDynamic == FilterFor(u, config, rules, channel)
  {
    var all := ResolveStatic(u, config, discovered, rules);
    fromStatic := if channel in all then Some(all[channel]) else None;
    fromDynamic := ResolveDynamic(u, config, channel, rules);
  }
}

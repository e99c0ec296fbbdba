/** The quantifier rewriter (handle_repetitions): `S*`, `S+`, `S?` and
    `S{m,n}` become references to freshly generated rules. */
module Repetition {
  import opened GrammarTypes
  import opened Scanner
  import opened Symbols

  /** The number of nested optional rules a bounded quantifier creates. */
  function OptionalCount(minTimes: nat, maxTimes: int): nat
    requires maxTimes < 0 || minTimes <= maxTimes
  {
    if maxTimes < 0 then 0 else maxTimes - minTimes
  }

  /** What the sub rule `S'` holds after its `min` content references: a
      reference to the star rule (unbounded), to the outermost optional
      rule (bounded with max > min), or nothing (max == min). */
  function SubTail(sub: nat, minTimes: nat, maxTimes: int): seq<Element>
    requires maxTimes < 0 || minTimes <= maxTimes
  {
    if maxTimes < 0 then [Ref(sub + 1)]
    else if minTimes < maxTimes then [Ref(sub + OptionalCount(minTimes, maxTimes))]
    else []
  }

  /** 2^64: the range of `size_t` on a 64-bit target. */
  const SizeRange: nat := 0x1_0000_0000_0000_0000

  /** The largest value of a 32-bit `int`. */
  const IntMax: nat := 0x7FFF_FFFF

  /** `n_opt` as line 204 computes it: `max_times - min_times` evaluated in
      `size_t`, so a maximum below the minimum wraps around. */
  function OptionalCountAsWritten(minTimes: nat, maxTimes: nat): (n: nat)
    requires minTimes < SizeRange && maxTimes <= IntMax
    ensures n < SizeRange
    ensures minTimes <= maxTimes ==> n == OptionalCount(minTimes, maxTimes)
  {
    (maxTimes - minTimes) % SizeRange
  }

  /** With `{m,n}` and n < m, the `int` loop at line 205 must count past
      INT_MAX before `i < n_opt` fails: it generates more than 2^31 rules
      and overflows its counter. */
  lemma InvertedBoundsOverrun(minTimes: nat, maxTimes: nat)
    requires maxTimes < minTimes <= IntMax
    ensures OptionalCountAsWritten(minTimes, maxTimes) > IntMax
  {
    assert OptionalCountAsWritten(minTimes, maxTimes) == SizeRange - (minTimes - maxTimes);
  }

  /** The body of the sub rule `S'`. */
  function SubBody(content: nat, sub: nat, minTimes: nat, maxTimes: int): (body: seq<Element>)
    requires maxTimes < 0 || minTimes <= maxTimes
    ensures WellFormedBody(body)
    ensures forall i :: 0 <= i < |body| && body[i].kind == RuleRef ==>
      body[i].value == content
      || sub < body[i].value <= sub + (if maxTimes < 0 then 1 else OptionalCount(minTimes, maxTimes))
    ensures |body| == minTimes + if maxTimes < 0 || minTimes < maxTimes then 2 else 1
    ensures forall i :: 0 <= i < minTimes ==> body[i] == Ref(content)
  {
    var s := Repeat(Ref(content), minTimes) + SubTail(sub, minTimes, maxTimes);
    assert Fragment(s);
    FragmentClose(s);
    s + [EndElement]
  }

  /** The star rule `Sstar ::= Scopy Sstar |`. */
  function StarBody(content: nat, star: nat): (body: seq<Element>)
    ensures WellFormedBody(body)
    ensures forall i :: 0 <= i < |body| && body[i].kind == RuleRef ==>
      body[i].value == content || body[i].value == star
  {
    [Ref(content), Ref(star), AltElement, EndElement]
  }

  /** The optional rule `S(j)` generated at id `sub + j`: `Scopy |` for
      j == 1, otherwise `Scopy S(j-1) |`. */
  function ChainBody(content: nat, sub: nat, j: nat): (body: seq<Element>)
    requires j >= 1
    ensures WellFormedBody(body)
    ensures forall i :: 0 <= i < |body| && body[i].kind == RuleRef ==>
      body[i].value == content || sub < body[i].value < sub + j
  {
    if j == 1 then [Ref(content), AltElement, EndElement]
    else [Ref(content), Ref(sub + j - 1), AltElement, EndElement]
  }

  /** The chain of optional rules `S(1) .. S(count)`, at ids `sub + 1 ..`. */
  function OptionalRules(content: nat, sub: nat, count: nat): (chain: seq<seq<Element>>)
    ensures |chain| == count
    ensures forall j :: 1 <= j <= count ==> chain[j - 1] == ChainBody(content, sub, j)
  {
    if count == 0 then [] else OptionalRules(content, sub, count - 1) + [ChainBody(content, sub, count)]
  }

  lemma OptionalRulesSnoc(content: nat, sub: nat, count: nat)
    ensures OptionalRules(content, sub, count + 1)
      == OptionalRules(content, sub, count) + [ChainBody(content, sub, count + 1)]
  {
  }

  /** One step of the optional chain: storing `S(i+1)` right after
      `S(1) .. S(i)` extends the chain by one rule. */
  lemma ChainStep(rules0: seq<seq<Element>>, before: seq<seq<Element>>, after: seq<seq<Element>>,
                  content: nat, sub: nat, i: nat)
    requires |rules0| <= sub + 1
    requires i == 0 ==> before == rules0
    requires i > 0 ==> before == Pad(rules0, sub + 1) + OptionalRules(content, sub, i)
    requires |before| <= sub + 1 + i
    requires after == Pad(before, sub + 1 + i) + [ChainBody(content, sub, i + 1)]
    ensures after == Pad(rules0, sub + 1) + OptionalRules(content, sub, i + 1)
  {
    OptionalRulesSnoc(content, sub, i);
    if i > 0 {
      PadNoop(before);
    } else {
      assert OptionalRules(content, sub, 0) == [];
    }
  }

  lemma ChainBodyOk(content: nat, sub: nat, j: nat, n: nat)
    requires j >= 1 && content < n && sub + j <= n
    ensures RuleOk(ChainBody(content, sub, j), n)
  {
  }

  /** The rules a quantifier generates from the sub rule onwards: the sub
      rule, then the star rule or the chain of optional rules. */
  function GeneratedRules(content: nat, sub: nat, minTimes: nat, maxTimes: int): seq<seq<Element>>
    requires maxTimes < 0 || minTimes <= maxTimes
  {
    [SubBody(content, sub, minTimes, maxTimes)] + TailRules(content, sub, minTimes, maxTimes)
  }

  /** The rules generated after the sub rule: the star rule, or the chain
      of optional rules. */
  function TailRules(content: nat, sub: nat, minTimes: nat, maxTimes: int): seq<seq<Element>>
    requires maxTimes < 0 || minTimes <= maxTimes
  {
    if maxTimes < 0 then [StarBody(content, sub + 1)]
    else OptionalRules(content, sub, OptionalCount(minTimes, maxTimes))
  }

  lemma SubBodyOk(content: nat, sub: nat, minTimes: nat, maxTimes: int, n: nat)
    requires maxTimes < 0 || minTimes <= maxTimes
    requires content < n && sub + (if maxTimes < 0 then 1 else OptionalCount(minTimes, maxTimes)) < n
    ensures RuleOk(SubBody(content, sub, minTimes, maxTimes), n)
  {
  }

  /** The table after the sub rule is stored: appended when nothing was
      generated after it, written over its placeholder otherwise. */
  lemma SubRuleTable(rules0: seq<seq<Element>>, rules2: seq<seq<Element>>, after: seq<seq<Element>>,
                     sub: nat, body: seq<Element>, tail: seq<seq<Element>>)
    requires |rules0| <= sub
    requires tail == [] ==> rules2 == rules0 && after == Pad(rules2, sub) + [body]
    requires tail != [] ==> rules2 == Pad(rules0, sub + 1) + tail && after == rules2[sub := body]
    ensures after == Pad(rules0, sub) + ([body] + tail)
  {
    if tail == [] {
      assert [body] + tail == [body];
    }
  }

  /** The content rule: the repeated term itself when it starts with a
      rule reference, otherwise the copy rule registered under id `n0`. */
  function ContentId(first: Element, n0: nat): nat {
    if first.kind == RuleRef then first.value else n0
  }

  /** The id of the sub rule: the first id after the content rule's. */
  function SubId(first: Element, n0: nat): nat {
    if first.kind == RuleRef then n0 else n0 + 1
  }

  /** The copy rule `Scopy ::= S` the repeated term needs, if any. */
  function CopyRules(term: seq<Element>): seq<seq<Element>> {
    if |term| > 0 && term[0].kind == RuleRef then [] else [term + [EndElement]]
  }

  /** The table after generate_symbol_id was called once per base, in order. */
  function GenerateAll(ids: map<string, nat>, bases: seq<string>): map<string, nat> {
    if bases == [] then ids
    else Generate(GenerateAll(ids, bases[..|bases| - 1]), bases[|bases| - 1])
  }

  /** The bases of the optional rules `S(1) .. S(count)`: `<rule>_1`, `<rule>_2`, ... */
  function ChainBases(ruleName: string, count: nat): (bases: seq<string>)
    ensures |bases| == count
  {
    if count == 0 then [] else ChainBases(ruleName, count - 1) + [ruleName + "_" + NatToString(count)]
  }

  /** The bases of the rules generated after the sub rule. */
  function TailBases(ruleName: string, minTimes: nat, maxTimes: int): seq<string>
    requires maxTimes < 0 || minTimes <= maxTimes
  {
    if maxTimes < 0 then [ruleName + "_star"] else ChainBases(ruleName, OptionalCount(minTimes, maxTimes))
  }

  /** The symbol table after handle_repetitions on a term that starts with
      `first`: the copy rule's name unless the term starts with a rule
      reference, then the sub rule's, then those of the tail rules. */
  function RepetitionIds(ids: map<string, nat>, ruleName: string, first: Element,
                         minTimes: nat, maxTimes: int): map<string, nat>
    requires maxTimes < 0 || minTimes <= maxTimes
  {
    var copied := if first.kind == RuleRef then ids else Generate(ids, ruleName);
    GenerateAll(Generate(copied, ruleName), TailBases(ruleName, minTimes, maxTimes))
  }

  /** The tables after handle_repetitions on the last term `term`: the
      names of RepetitionIds, and the rules padded to the old number of
      ids, followed by the copy rule if any and the generated rules. */
  function RepetitionTables(t: Tables, ruleName: string, term: seq<Element>, minTimes: nat, maxTimes: int): Tables
    requires |term| > 0 && (maxTimes < 0 || minTimes <= maxTimes)
  {
    var n := |t.ids|;
    Tables(RepetitionIds(t.ids, ruleName, term[0], minTimes, maxTimes),
           Grown(t.rules, n) + CopyRules(term) + GeneratedRules(ContentId(term[0], n), SubId(term[0], n), minTimes, maxTimes))
  }

  /** The tables handle_repetitions leaves, spelled out, are RepetitionTables. */
  lemma RepetitionTablesIs(t: Tables, ruleName: string, term: seq<Element>, minTimes: nat, maxTimes: int,
                           ids: map<string, nat>, rules: seq<seq<Element>>)
    requires |term| > 0 && (maxTimes < 0 || minTimes <= maxTimes) && |t.rules| <= |t.ids|
    requires ids == RepetitionIds(t.ids, ruleName, term[0], minTimes, maxTimes)
    requires rules == Pad(t.rules, |t.ids|) + CopyRules(term)
                      + GeneratedRules(ContentId(term[0], |t.ids|), SubId(term[0], |t.ids|), minTimes, maxTimes)
    ensures Tables(ids, rules) == RepetitionTables(t, ruleName, term, minTimes, maxTimes)
  {
  }

  /** Lines 181-185: the copy rule `Scopy ::= S`, under a fresh id. */
  method AddCopyRule(state: ParseState, ruleName: string, term: seq<Element>) returns (id: nat)
    requires state.Valid()
    requires Fragment(term) && RefsBelow(term, |state.symbolIds|)
    requires |term| > 0 ==> !IsContinuation(term[0])
    modifies state
    ensures state.Valid()
    ensures id == old(|state.symbolIds|) && |state.symbolIds| == id + 1
    ensures state.rules == Pad(old(state.rules), id) + [term + [EndElement]]
    ensures state.symbolIds == Generate(old(state.symbolIds), ruleName)
    ensures KeepsIds(old(state.symbolIds), state.symbolIds)
  {
    id := state.GenerateSymbolId(ruleName);
    FragmentClose(term);
    state.AddRule(id, term + [EndElement]);
  }

  /** Lines 194-200: the star rule `Sstar ::= Scopy Sstar |`. */
  method AddStarRule(state: ParseState, ruleName: string, content: nat) returns (id: nat)
    requires state.Valid() && content < |state.symbolIds|
    modifies state
    ensures state.Valid()
    ensures id == old(|state.symbolIds|) && |state.symbolIds| == id + 1
    ensures state.rules == Pad(old(state.rules), id) + [StarBody(content, id)]
    ensures state.symbolIds == Generate(old(state.symbolIds), ruleName + "_star")
    ensures KeepsIds(old(state.symbolIds), state.symbolIds)
  {
    id := state.GenerateSymbolId(ruleName + "_star");
    state.AddRule(id, StarBody(content, id));
  }

  /** Lines 206-220: the optional rule `S(i+1)`, under a fresh id. */
  method AddChainRule(state: ParseState, ruleName: string, content: nat, sub: nat, i: nat, lastRecId: nat)
      returns (recId: nat)
    requires state.Valid() && content < |state.symbolIds| && |state.symbolIds| == sub + 1 + i
    requires i > 0 ==> lastRecId == sub + i
    modifies state
    ensures state.Valid()
    ensures recId == sub + 1 + i && |state.symbolIds| == recId + 1
    ensures state.rules == Pad(old(state.rules), recId) + [ChainBody(content, sub, i + 1)]
    ensures state.symbolIds == Generate(old(state.symbolIds), ruleName + "_" + NatToString(i + 1))
    ensures KeepsIds(old(state.symbolIds), state.symbolIds)
  {
    var body := if i == 0 then [Ref(content), AltElement, EndElement]
                else [Ref(content), Ref(lastRecId), AltElement, EndElement];
    assert body == ChainBody(content, sub, i + 1);
    recId := state.GenerateSymbolId(ruleName + "_" + NatToString(i + 1));
    ChainBodyOk(content, sub, i + 1, |state.symbolIds|);
    state.AddRule(recId, body);
  }

  /** Lines 203-222: the chain of `count` nested optional rules, generated
      right after the sub rule `sub`; returns the id of the outermost one. */
  method AddOptionalRules(state: ParseState, ruleName: string, content: nat, sub: nat, count: nat)
      returns (lastRecId: nat)
    requires state.Valid() && content < |state.symbolIds| && sub + 1 == |state.symbolIds|
    modifies state
    ensures state.Valid()
    ensures |state.symbolIds| == sub + 1 + count
    ensures count > 0 ==> lastRecId == sub + count
    ensures count == 0 ==> state.rules == old(state.rules)
    ensures count > 0 ==> state.rules == Pad(old(state.rules), sub + 1) + OptionalRules(content, sub, count)
    ensures state.symbolIds == GenerateAll(old(state.symbolIds), ChainBases(ruleName, count))
    ensures KeepsIds(old(state.symbolIds), state.symbolIds)
  {
    ghost var rules0 := state.rules;
    ghost var ids0 := state.symbolIds;
    lastRecId := 0;
    for i := 0 to count
      invariant state.Valid()
      invariant |state.symbolIds| == sub + 1 + i
      invariant i == 0 ==> state.rules == rules0
      invariant i > 0 ==> state.rules == Pad(rules0, sub + 1) + OptionalRules(content, sub, i)
      invariant i > 0 ==> lastRecId == sub + i
      invariant state.symbolIds == GenerateAll(ids0, ChainBases(ruleName, i))
      invariant KeepsIds(ids0, state.symbolIds)
    {
      ghost var before := state.rules;
      ghost var idsBefore := state.symbolIds;
      lastRecId := AddChainRule(state, ruleName, content, sub, i, lastRecId);
      ChainStep(rules0, before, state.rules, content, sub, i);
      KeepsIdsTrans(ids0, idsBefore, state.symbolIds);
      assert ChainBases(ruleName, i + 1)[..i] == ChainBases(ruleName, i);
    }
  }

  /** Lines 189-192: `min` references to the content rule. */
  method RepeatRef(content: nat, minTimes: nat) returns (refs: seq<Element>)
    ensures refs == Repeat(Ref(content), minTimes)
  {
    refs := [];
    for i := 0 to minTimes
      invariant |refs| == i
      invariant forall k :: 0 <= k < i ==> refs[k] == Ref(content)
    {
      refs := refs + [Ref(content)];
    }
    assert refs == Repeat(Ref(content), minTimes);
  }

  /** The sub rule ends with a reference to the outermost optional rule,
      if there is one. */
  lemma ChainTail(sub: nat, minTimes: nat, maxTimes: nat, lastRecId: nat)
    requires minTimes <= maxTimes
    requires maxTimes - minTimes > 0 ==> lastRecId == sub + (maxTimes - minTimes)
    ensures SubTail(sub, minTimes, maxTimes) == if maxTimes - minTimes > 0 then [Ref(lastRecId)] else []
  {
  }

  /** Lines 193-222: the star rule or the chain of optional rules after
      the sub rule `sub`, and the reference the sub rule ends with. */
  method AddTailRules(state: ParseState, ruleName: string, content: nat, sub: nat, minTimes: nat, maxTimes: int)
      returns (tailRef: seq<Element>)
    requires state.Valid() && content < |state.symbolIds| && sub + 1 == |state.symbolIds|
    requires maxTimes < 0 || minTimes <= maxTimes
    modifies state
    ensures state.Valid()
    ensures tailRef == SubTail(sub, minTimes, maxTimes)
    ensures |state.symbolIds| == sub + 1 + |TailRules(content, sub, minTimes, maxTimes)|
    ensures TailRules(content, sub, minTimes, maxTimes) == [] ==> state.rules == old(state.rules)
    ensures TailRules(content, sub, minTimes, maxTimes) != [] ==>
      state.rules == Pad(old(state.rules), sub + 1) + TailRules(content, sub, minTimes, maxTimes)
    ensures state.symbolIds == GenerateAll(old(state.symbolIds), TailBases(ruleName, minTimes, maxTimes))
    ensures KeepsIds(old(state.symbolIds), state.symbolIds)
  {
    if maxTimes < 0 {
      ghost var ids0 := state.symbolIds;
      var starId := AddStarRule(state, ruleName, content);
      assert [ruleName + "_star"][..0] == [];
      assert state.symbolIds == GenerateAll(ids0, [ruleName + "_star"]);
      tailRef := [Ref(starId)];
    } else {
      var nOpt := maxTimes - minTimes;
      var lastRecId := AddOptionalRules(state, ruleName, content, sub, nOpt);
      tailRef := if nOpt > 0 then [Ref(lastRecId)] else [];
      ChainTail(sub, minTimes, maxTimes, lastRecId);
    }
  }

  /** Lines 188-228: the sub rule `S'` under a fresh id, followed by the
      star rule or the chain of optional rules. */
  method AddSubRule(state: ParseState, ruleName: string, content: nat, minTimes: nat, maxTimes: int)
      returns (subId: nat)
    requires state.Valid() && content < |state.symbolIds|
    requires maxTimes < 0 || minTimes <= maxTimes
    modifies state
    ensures state.Valid()
    ensures subId == old(|state.symbolIds|)
    ensures |state.symbolIds| == |state.rules|
    ensures state.rules == Pad(old(state.rules), subId) + GeneratedRules(content, subId, minTimes, maxTimes)
    ensures state.symbolIds == GenerateAll(Generate(old(state.symbolIds), ruleName), TailBases(ruleName, minTimes, maxTimes))
    ensures KeepsIds(old(state.symbolIds), state.symbolIds)
  {
    ghost var rules0 := state.rules;
    ghost var ids0 := state.symbolIds;
    subId := state.GenerateSymbolId(ruleName);
    ghost var ids1 := state.symbolIds;
    var refs := RepeatRef(content, minTimes);
    var tailRef := AddTailRules(state, ruleName, content, subId, minTimes, maxTimes);
    var subRule := refs + tailRef + [EndElement];
    ghost var rules2 := state.rules;
    KeepsIdsTrans(ids0, ids1, state.symbolIds);
    SubBodyOk(content, subId, minTimes, maxTimes, |state.symbolIds|);
    state.AddRule(subId, subRule);
    SubRuleTable(rules0, rules2, state.rules, subId, subRule, TailRules(content, subId, minTimes, maxTimes));
  }

  /** handle_repetitions(min_times, max_times) applied to the term of `out`
      that starts at `lastSymStart`; a negative `maxTimes` means unbounded.
      The term is replaced by one reference to the sub rule; the content
      rule is the term itself when it starts with a rule reference and a
      new copy rule otherwise. The rule table grows by exactly the copy
      rule, the sub rule and the star rule or optional chain, in id order. */
  method HandleRepetitions(state: ParseState, ruleName: string, out: seq<Element>,
                           lastSymStart: nat, minTimes: nat, maxTimes: int)
      returns (r: Result<seq<Element>>)
    requires state.Valid()
    requires lastSymStart <= |out|
    requires Fragment(out) && RefsBelow(out, |state.symbolIds|)
    requires lastSymStart < |out| ==> !IsContinuation(out[lastSymStart])
    modifies state
    ensures state.Valid()
    ensures lastSymStart == |out| ==> r == Err(DanglingQuantifier)
    ensures lastSymStart < |out| && 0 <= maxTimes < minTimes ==> r == Err(InvertedBounds)
    ensures r.Err? ==> unchanged(state)
    ensures lastSymStart < |out| && (maxTimes < 0 || minTimes <= maxTimes) ==> r.Ok?
    ensures r.Ok? ==> maxTimes < 0 || minTimes <= maxTimes
    ensures r.Ok? ==>
      r.value == out[..lastSymStart] + [Ref(SubId(out[lastSymStart], old(|state.symbolIds|)))]
    ensures r.Ok? ==> Fragment(r.value) && RefsBelow(r.value, |state.symbolIds|)
    ensures r.Ok? ==> |state.symbolIds| == |state.rules|
    ensures r.Ok? ==> state.symbolIds == RepetitionIds(old(state.symbolIds), ruleName, out[lastSymStart], minTimes, maxTimes)
    ensures r.Ok? ==>
      state.rules == Pad(old(state.rules), old(|state.symbolIds|))
        + CopyRules(out[lastSymStart..])
        + GeneratedRules(ContentId(out[lastSymStart], old(|state.symbolIds|)),
                         SubId(out[lastSymStart], old(|state.symbolIds|)), minTimes, maxTimes)
    ensures r.Ok? ==>
      state.Snapshot() == RepetitionTables(old(state.Snapshot()), ruleName, out[lastSymStart..], minTimes, maxTimes)
    ensures KeepsIds(old(state.symbolIds), state.symbolIds)
    ensures old(state.rules) <= state.rules
  {
    if lastSymStart == |out| {
      return Err(DanglingQuantifier);
    }
    if 0 <= maxTimes < minTimes {
      return Err(InvertedBounds);
    }
    ghost var rules0 := state.rules;
    ghost var ids0 := state.symbolIds;
    var contentId: nat;
    ghost var copied: seq<seq<Element>>;
    if out[lastSymStart].kind == RuleRef {
      contentId := out[lastSymStart].value;
      copied := [];
      assert Pad(rules0, |ids0|) + copied == Pad(rules0, |ids0|);
      assert copied == CopyRules(out[lastSymStart..]);
    } else {
      FragmentSuffix(out, lastSymStart);
      contentId := AddCopyRule(state, ruleName, out[lastSymStart..]);
      copied := [out[lastSymStart..] + [EndElement]];
      PadNoop(state.rules);
      assert copied == CopyRules(out[lastSymStart..]);
    }
    ghost var rules1 := state.rules;
    ghost var ids1 := state.symbolIds;
    var subId := AddSubRule(state, ruleName, contentId, minTimes, maxTimes);
    KeepsIdsTrans(ids0, ids1, state.symbolIds);
    assert state.rules == Pad(rules1, subId) + GeneratedRules(contentId, subId, minTimes, maxTimes);
    assert Pad(rules1, subId) == Pad(rules0, |ids0|) + copied;
    assert contentId == ContentId(out[lastSymStart], |ids0|) && subId == SubId(out[lastSymStart], |ids0|);
    assert state.rules == Pad(rules0, |ids0|) + copied + GeneratedRules(contentId, subId, minTimes, maxTimes);

    ReplaceTail(out, lastSymStart, subId, |ids0|, |state.symbolIds|);
    RepetitionTablesIs(Tables(ids0, rules0), ruleName, out[lastSymStart..], minTimes, maxTimes, state.symbolIds, state.rules);
    ConcatAssoc(Pad(rules0, |ids0|), copied, GeneratedRules(contentId, subId, minTimes, maxTimes));
    PadPrefix(rules0, |ids0|, copied + GeneratedRules(contentId, subId, minTimes, maxTimes));
    r := Ok(out[..lastSymStart] + [Ref(subId)]);
  }
}

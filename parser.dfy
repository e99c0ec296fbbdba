/** The recursive-descent compiler: parse_sequence, parse_alternates,
    parse_rule and parse, with the final check that every referenced rule
    is defined. */
module Parser {
  import opened GrammarTypes
  import opened Scanner
  import opened Symbols
  import opened Repetition
  import opened Terms
  import opened ParserSpec

  /** What parse_sequence keeps true of its output: it extends the elements
      it was given, stays a fragment over registered ids, adds no ALT, and
      both its first own element and the last term (from `last` on) start
      with an element that opens a term. */
  predicate SeqInv(out0: seq<Element>, out: seq<Element>, last: nat, n: nat) {
    && |out0| <= last <= |out|
    && out[..|out0|] == out0
    && Fragment(out)
    && RefsBelow(out, n)
    && (last < |out| ==> !IsContinuation(out[last]))
    && (|out0| < |out| ==> !IsContinuation(out[|out0|]))
    && (forall i :: |out0| <= i < |out| ==> out[i].kind != Alt)
  }

  /** Appending a whole term keeps the sequence invariant, with the term as
      the new last one. */
  lemma AppendTerm(out0: seq<Element>, out: seq<Element>, last: nat, n: nat, t: seq<Element>)
    requires SeqInv(out0, out, last, n)
    requires Fragment(t) && RefsBelow(t, n) && |t| > 0 && !IsContinuation(t[0])
    requires forall i :: 0 <= i < |t| ==> t[i].kind != Alt
    ensures SeqInv(out0, out + t, |out|, n)
  {
    FragmentAppend(out, t);
    assert (out + t)[..|out0|] == out[..|out0|];
    assert (out + t)[|out|] == t[0];
    forall i | |out| <= i < |out + t| ensures (out + t)[i].kind != Alt {
      assert (out + t)[i] == t[i - |out|];
    }
  }

  lemma SeqInvGrow(out0: seq<Element>, out: seq<Element>, last: nat, n: nat, m: nat)
    requires SeqInv(out0, out, last, n) && n <= m
    ensures SeqInv(out0, out, last, m)
  {
  }

  /** Appending a reference to a registered id, after the table grew. */
  lemma AppendRef(out0: seq<Element>, out: seq<Element>, last: nat, n: nat, m: nat, id: nat)
    requires SeqInv(out0, out, last, n) && n <= m && id < m
    ensures SeqInv(out0, out + [Ref(id)], |out|, m)
  {
    SeqInvGrow(out0, out, last, n, m);
    AppendTerm(out0, out, last, m, [Ref(id)]);
  }

  /** A quoted literal at `pos` (lines 236-244). */
  method ParseLiteralTerm(src: seq<char>, pos: nat, isNested: bool) returns (r: Result<(seq<Element>, nat)>)
    requires IsCString(src) && pos < |src| && src[pos] == '"'
    ensures r == LiteralTermAt(src, pos, isNested)
  {
    var lit := ParseLiteral(src, pos + 1);
    if lit.Err? {
      return Err(lit.error);
    }
    var next := ParseSpace(src, lit.value.1 + 1, isNested);
    return Ok((lit.value.0, next));
  }

  /** A character class at `pos` (lines 245-267). */
  method ParseClassTerm(src: seq<char>, pos: nat, isNested: bool) returns (r: Result<(seq<Element>, nat)>)
    requires IsCString(src) && pos < |src| && src[pos] == '['
    ensures r == ClassTermAt(src, pos, isNested)
  {
    var cls := ParseCharClass(src, pos + 1);
    if cls.Err? {
      return Err(cls.error);
    }
    var next := ParseSpace(src, cls.value.1 + 1, isNested);
    assert ClassTermAt(src, pos, isNested) == Ok((cls.value.0, next));
    return Ok((cls.value.0, next));
  }

  /** The elements before `k` and from `k` on make up `s`. */
  lemma SliceJoin(s: seq<Element>, k: nat)
    requires k <= |s|
    ensures s[..k] + s[k..] == s
  {
  }

  /** What a sequence appends to `out0` holds no ALT. */
  lemma SeqInvAltFree(out0: seq<Element>, out: seq<Element>, last: nat, n: nat)
    requires SeqInv(out0, out, last, n)
    ensures AltFree(out[|out0|..])
  {
    assert forall i :: 0 <= i < |out| - |out0| ==> out[|out0|..][i] == out[|out0| + i];
  }

  /** After `out + term`, the last term starts at the old end of `out`,
      and `out` is what it was before, head and last term together. */
  lemma AppendSlices(out: seq<Element>, last: nat, term: seq<Element>)
    requires last <= |out|
    ensures (out + term)[..|out|] == out && (out + term)[|out|..] == term
    ensures out[..last] + out[last..] == out
  {
  }

  /* ---------------------------------------------------------------------
     The outcome of a parsing method, as the value of its specification
     function: the method's result together with the tables it leaves
     --------------------------------------------------------------------- */

  function StepOf(r: Result<(nat, seq<Element>, nat)>, t: Tables): Result<Step>
    requires r.Ok? ==> r.value.2 <= |r.value.1|
  {
    if r.Err? then Err(r.error) else Ok(Step(r.value.0, r.value.1[..r.value.2], r.value.1[r.value.2..], t))
  }

  function RunOf(r: Result<(nat, seq<Element>)>, t: Tables): Result<Run> {
    if r.Err? then Err(r.error) else Ok(Run(r.value.0, r.value.1, t))
  }

  function AtOf(r: Result<nat>, t: Tables): Result<At> {
    if r.Err? then Err(r.error) else Ok(At(r.value, t))
  }

  function HeadOf(r: Result<(nat, nat)>, t: Tables): Result<(nat, nat, Tables)> {
    if r.Err? then Err(r.error) else Ok((r.value.0, r.value.1, t))
  }

  /** A literal or a character class at `pos`, appended to `out`; the last
      term now starts at the old end of `out`, even when the literal or
      class is empty, so a quantifier right after `""` has nothing to
      repeat. The tables `t` are untouched. */
  method AppendCharTerm(src: seq<char>, pos: nat, ghost out0: seq<Element>, out: seq<Element>, last: nat,
                        ghost n: nat, ghost t: Tables, isNested: bool)
      returns (r: Result<(nat, seq<Element>, nat)>)
    requires IsCString(src) && pos < |src| && (src[pos] == '"' || src[pos] == '[')
    requires SeqInv(out0, out, last, n)
    ensures r.Ok? ==> pos < r.value.0 < |src| && SeqInv(out0, r.value.1, r.value.2, n)
    ensures StepOf(r, t) == CharTermSpec(src, pos, out[..last], out[last..], t, isNested)
  {
    var ct;
    if src[pos] == '"' {
      ct := ParseLiteralTerm(src, pos, isNested);
    } else {
      ct := ParseClassTerm(src, pos, isNested);
    }
    if ct.Err? {
      return Err(ct.error);
    }
    assert out[..last] + out[last..] == out;
    if ct.value.0 == [] {
      assert out + ct.value.0 == out;
      assert out[..|out|] == out && out[|out|..] == ct.value.0;
      return Ok((ct.value.1, out, |out|));
    }
    AppendTerm(out0, out, last, n, ct.value.0);
    AppendSlices(out, last, ct.value.0);
    return Ok((ct.value.1, out + ct.value.0, |out|));
  }

  /** A rule reference at `pos` (lines 268-273): the name is interned and
      its id appended. */
  method ParseRefTerm(state: ParseState, src: seq<char>, pos: nat,
                      out0: seq<Element>, out: seq<Element>, last: nat, isNested: bool)
      returns (r: Result<(nat, seq<Element>, nat)>)
    requires state.Valid() && IsCString(src) && pos < |src| && IsWordChar(src[pos])
    requires SeqInv(out0, out, last, |state.symbolIds|)
    modifies state
    ensures state.Valid()
    ensures KeepsIds(old(state.symbolIds), state.symbolIds)
    ensures state.rules == old(state.rules)
    ensures r.Ok? && pos < r.value.0 < |src| && SeqInv(out0, r.value.1, r.value.2, |state.symbolIds|)
    ensures StepOf(r, state.Snapshot())
      == Ok(RefTermSpec(src, pos, out[..last], out[last..], old(state.Snapshot()), isNested))
  {
    ghost var ids0 := state.symbolIds;
    var nameEnd := ParseName(src, pos);
    NameEndIs(src, pos, nameEnd.value);
    var refId := state.GetSymbolId(src[pos..nameEnd.value]);
    assert state.symbolIds == Intern(ids0, src[pos..nameEnd.value]);
    var next := ParseSpace(src, nameEnd.value, isNested);
    KeepsIdsSize(ids0, state.symbolIds);
    AppendRef(out0, out, last, |ids0|, |state.symbolIds|, refId);
    AppendSlices(out, last, [Ref(refId)]);
    r := Ok((next, out + [Ref(refId)], |out|));
  }

  /** A parenthesised group at `pos` (lines 274-286): its alternates become
      a new generated rule, referenced in place of the group. */
  method ParseGroup(state: ParseState, src: seq<char>, pos: nat, ruleName: string,
                    out0: seq<Element>, out: seq<Element>, last: nat, isNested: bool)
      returns (r: Result<(nat, seq<Element>, nat)>)
    requires state.Valid() && IsCString(src) && pos < |src| && src[pos] == '('
    requires SeqInv(out0, out, last, |state.symbolIds|)
    modifies state
    ensures state.Valid()
    ensures KeepsIds(old(state.symbolIds), state.symbolIds)
    ensures r.Ok? ==> pos < r.value.0 < |src| && SeqInv(out0, r.value.1, r.value.2, |state.symbolIds|)
    ensures StepOf(r, state.Snapshot())
      == GroupTermSpec(src, pos, ruleName, out[..last], out[last..], old(state.Snapshot()), isNested)
    ensures old(state.rules) <= state.rules
    decreases |src| - pos, 1
  {
    ghost var ids0 := state.symbolIds;
    var subId, g := ParseGroupRule(state, src, pos, ruleName, isNested);
    if g.Err? {
      return Err(g.error);
    }
    AppendRef(out0, out, last, |ids0|, |state.symbolIds|, subId);
    AppendSlices(out, last, [Ref(subId)]);
    return Ok((g.value, out + [Ref(subId)], |out|));
  }

  /** The rule a group generates: `<rule name>_<id>` under the next id, a
      name no rule had, defined by the alternates up to the closing `)`.
      Returns the id and the position after `)` and the blanks that
      follow. */
  method ParseGroupRule(state: ParseState, src: seq<char>, pos: nat, ruleName: string, isNested: bool)
      returns (subId: nat, r: Result<nat>)
    requires state.Valid() && IsCString(src) && pos < |src| && src[pos] == '('
    modifies state
    ensures state.Valid()
    ensures KeepsIds(old(state.symbolIds), state.symbolIds)
    ensures old(state.rules) <= state.rules
    ensures subId == old(|state.symbolIds|) && subId < |state.symbolIds|
    ensures SyntheticName(ruleName, subId) !in old(state.symbolIds)
    ensures AtOf(r, state.Snapshot()) == GroupSpec(src, pos, ruleName, old(state.Snapshot()), isNested)
    ensures r.Ok? ==> pos < r.value < |src| && subId < |state.rules| && WellFormedBody(state.rules[subId])
    decreases |src| - pos, 0
  {
    ghost var ids0 := state.symbolIds;
    ghost var rules0 := state.rules;
    ghost var t0 := state.Snapshot();
    var inner := ParseSpace(src, pos + 1, true);
    subId := state.GenerateSymbolId(ruleName);
    ghost var ids1 := state.symbolIds;
    assert state.Snapshot() == Tables(Generate(t0.ids, ruleName), t0.rules);
    var alt := ParseAlternates(state, src, inner, ruleName, subId, true);
    KeepsIdsTrans(ids0, ids1, state.symbolIds);
    KeepsIdsSize(ids1, state.symbolIds);
    KeepsRulesPrefix(rules0, state.rules, subId);
    r := CloseGroup(src, alt, state.Snapshot(), isNested);
  }

  /** The end of a group (lines 282-285): `)` and the blanks after it. */
  method CloseGroup(src: seq<char>, alt: Result<nat>, ghost t: Tables, isNested: bool) returns (r: Result<nat>)
    requires IsCString(src) && (alt.Ok? ==> alt.value < |src|)
    ensures AtOf(r, t) == GroupCloseSpec(src, AtOf(alt, t), isNested)
  {
    if alt.Err? {
      return Err(alt.error);
    }
    if src[alt.value] != ')' {
      return Err(UnbalancedGroup);
    }
    var next := ParseSpace(src, alt.value + 1, isNested);
    return Ok(next);
  }

  /** A quantifier `*`, `+`, `?` or `{...}` at `pos` (lines 287-327): the
      bounds it stands for are handed to handle_repetitions, which replaces
      the last term, from `last` on, by a reference to its sub rule. */
  method ParseQuantifier(state: ParseState, src: seq<char>, pos: nat, ruleName: string,
                         out0: seq<Element>, out: seq<Element>, last: nat, isNested: bool)
      returns (r: Result<(nat, seq<Element>, nat)>)
    requires state.Valid() && IsCString(src) && pos < |src| && IsQuantifierChar(src[pos])
    requires SeqInv(out0, out, last, |state.symbolIds|)
    modifies state
    ensures state.Valid()
    ensures KeepsIds(old(state.symbolIds), state.symbolIds)
    ensures old(state.rules) <= state.rules
    ensures src[pos] != '{' && last == |out| ==> r == Err(DanglingQuantifier)
    ensures r.Ok? ==> pos < r.value.0 < |src| && SeqInv(out0, r.value.1, last, |state.symbolIds|)
    ensures r.Ok? ==> r.value.2 == last
    ensures StepOf(r, state.Snapshot())
      == QuantifierSpec(src, pos, ruleName, out[..last], out[last..], old(state.Snapshot()), isNested)
  {
    ghost var ids0 := state.symbolIds;
    ghost var rules0 := state.rules;
    var b := ParseQuantifierBounds(src, pos, isNested);
    if b.Err? {
      return Err(b.error);
    }
    assert out[last..] == [] <==> last == |out|;
    var rep := HandleRepetitions(state, ruleName, out, last, b.value.0, b.value.1);
    if rep.Err? {
      return Err(rep.error);
    }
    KeepsIdsSize(ids0, state.symbolIds);
    assert rep.value[..last] == out[..last] && rep.value[last..] == [Ref(SubId(out[last..][0], |ids0|))];
    SeqInvGrow(out0, out, last, |ids0|, |state.symbolIds|);
    RepetitionKeepsSeq(out0, out, last, |state.symbolIds|, rep.value);
    return Ok((b.value.2, rep.value, last));
  }

  /** One term or quantifier of a sequence at `pos` (one pass of the loop
      at lines 235-330), appended to `out`. Returns the new position, the
      new elements and the start of the last term. */
  method ParseTerm(state: ParseState, src: seq<char>, pos: nat, ruleName: string,
                   out0: seq<Element>, out: seq<Element>, last: nat, isNested: bool)
      returns (r: Result<(nat, seq<Element>, nat)>)
    requires state.Valid() && IsCString(src) && pos < |src| && StartsTerm(src[pos])
    requires SeqInv(out0, out, last, |state.symbolIds|)
    modifies state
    ensures state.Valid()
    ensures KeepsIds(old(state.symbolIds), state.symbolIds)
    ensures r.Ok? ==> pos < r.value.0 < |src| && SeqInv(out0, r.value.1, r.value.2, |state.symbolIds|)
    ensures StepOf(r, state.Snapshot())
      == TermSpec(src, pos, ruleName, out[..last], out[last..], old(state.Snapshot()), isNested)
    ensures old(state.rules) <= state.rules
    decreases |src| - pos, 2
  {
    var c := src[pos];
    if c == '"' || c == '[' {
      r := AppendCharTerm(src, pos, out0, out, last, |state.symbolIds|, state.Snapshot(), isNested);
    } else if IsWordChar(c) {
      r := ParseRefTerm(state, src, pos, out0, out, last, isNested);
    } else if c == '(' {
      r := ParseGroup(state, src, pos, ruleName, out0, out, last, isNested);
    } else {
      r := ParseQuantifier(state, src, pos, ruleName, out0, out, last, isNested);
    }
  }

  /** Replacing the last term by a reference to its generated rule keeps
      the sequence invariant. */
  lemma RepetitionKeepsSeq(out0: seq<Element>, out: seq<Element>, last: nat, n: nat, replaced: seq<Element>)
    requires SeqInv(out0, out, last, n) && last < |out|
    requires Fragment(replaced) && RefsBelow(replaced, n)
    requires |replaced| == last + 1 && replaced[..last] == out[..last] && replaced[last].kind == RuleRef
    ensures SeqInv(out0, replaced, last, n)
  {
    assert replaced[..|out0|] == replaced[..last][..|out0|];
    assert out[..|out0|] == out[..last][..|out0|];
    if |out0| < last {
      assert replaced[|out0|] == replaced[..last][|out0|];
    }
    forall i | |out0| <= i < last ensures replaced[i].kind != Alt {
      assert replaced[i] == replaced[..last][i] == out[..last][i];
    }
  }

  /** parse_sequence (lines 147-333): terms and quantifiers appended to
      `out` until a character that starts neither. */
  method ParseSequence(state: ParseState, src: seq<char>, start: nat, ruleName: string,
                       out: seq<Element>, isNested: bool)
      returns (r: Result<(nat, seq<Element>)>)
    requires state.Valid() && IsCString(src) && start < |src|
    requires Fragment(out) && RefsBelow(out, |state.symbolIds|)
    modifies state
    ensures state.Valid()
    ensures KeepsIds(old(state.symbolIds), state.symbolIds)
    ensures RunOf(r, state.Snapshot()) == SequenceSpec(src, start, ruleName, out, old(state.Snapshot()), isNested)
    ensures r.Ok? ==> start <= r.value.0 < |src| && !StartsTerm(src[r.value.0])
    ensures r.Ok? ==> |out| <= |r.value.1| && r.value.1[..|out|] == out
    ensures r.Ok? ==> Fragment(r.value.1) && RefsBelow(r.value.1, |state.symbolIds|)
    ensures r.Ok? && |out| < |r.value.1| ==> !IsContinuation(r.value.1[|out|])
    ensures r.Ok? ==> AltFree(r.value.1[|out|..])
    ensures old(state.rules) <= state.rules
    decreases |src| - start, 3
  {
    ghost var ids0 := state.symbolIds;
    ghost var rules0 := state.rules;
    ghost var t0 := state.Snapshot();
    var pos := start;
    var elems := out;
    var last: nat := |out|;
    assert elems[..last] == out && elems[last..] == [];
    while StartsTerm(src[pos])
      invariant start <= pos < |src|
      invariant state.Valid()
      invariant KeepsIds(ids0, state.symbolIds)
      invariant rules0 <= state.rules
      invariant SeqInv(out, elems, last, |state.symbolIds|)
      invariant SequenceFrom(src, start, ruleName, out, [], t0, isNested)
        == SequenceFrom(src, pos, ruleName, elems[..last], elems[last..], state.Snapshot(), isNested)
      decreases |src| - pos
    {
      ghost var ids1 := state.symbolIds;
      ghost var rules1 := state.rules;
      var step := ParseTerm(state, src, pos, ruleName, out, elems, last, isNested);
      KeepsIdsTrans(ids0, ids1, state.symbolIds);
      PrefixTrans(rules0, rules1, state.rules);
      if step.Err? {
        return Err(step.error);
      }
      pos, elems, last := step.value.0, step.value.1, step.value.2;
    }
    SeqInvAltFree(out, elems, last, |state.symbolIds|);
    SliceJoin(elems, last);
    return Ok((pos, elems));
  }

  /** parse_alternates (lines 335-352): sequences separated by `|`, each
      closed off by ALT, the whole closed by END and stored as rule
      `ruleId`. */
  method ParseAlternates(state: ParseState, src: seq<char>, start: nat, ruleName: string,
                         ruleId: nat, isNested: bool)
      returns (r: Result<nat>)
    requires state.Valid() && IsCString(src) && start < |src|
    requires ruleId < |state.symbolIds|
    modifies state
    ensures state.Valid()
    ensures KeepsIds(old(state.symbolIds), state.symbolIds)
    ensures KeepsRulesBut(old(state.rules), state.rules, ruleId)
    ensures AtOf(r, state.Snapshot()) == AlternatesSpec(src, start, ruleName, ruleId, old(state.Snapshot()), isNested)
    ensures r.Ok? ==> start <= r.value < |src| && !StartsTerm(src[r.value]) && src[r.value] != '|'
    ensures r.Ok? ==> ruleId < |state.rules| && WellFormedBody(state.rules[ruleId])
    decreases |src| - start, 5
  {
    ghost var ids0 := state.symbolIds;
    ghost var rules0 := state.rules;
    var seq0 := ParseSequence(state, src, start, ruleName, [], isNested);
    if seq0.Err? {
      return Err(seq0.error);
    }
    ghost var ids1 := state.symbolIds;
    ghost var rules1 := state.rules;
    var more := ParseMoreAlternates(state, src, seq0.value.0, ruleName, seq0.value.1, isNested);
    KeepsIdsTrans(ids0, ids1, state.symbolIds);
    PrefixTrans(rules0, rules1, state.rules);
    if more.Err? {
      return Err(more.error);
    }
    KeepsIdsSize(ids0, state.symbolIds);
    ghost var rules2 := state.rules;
    CloseRule(state, ruleId, more.value.1);
    KeepsRulesAfterPrefix(rules0, rules2, state.rules, ruleId);
    return Ok(more.value.0);
  }

  /** The loop of parse_alternates (lines 342-348): while a `|` follows,
      ALT and the next sequence are joined to `rule`. Returns the position
      where no `|` follows and the joined elements. */
  method ParseMoreAlternates(state: ParseState, src: seq<char>, pos: nat, ruleName: string,
                             rule: seq<Element>, isNested: bool)
      returns (r: Result<(nat, seq<Element>)>)
    requires state.Valid() && IsCString(src) && pos < |src| && !StartsTerm(src[pos])
    requires Fragment(rule) && RefsBelow(rule, |state.symbolIds|)
    modifies state
    ensures state.Valid()
    ensures KeepsIds(old(state.symbolIds), state.symbolIds)
    ensures old(state.rules) <= state.rules
    ensures RunOf(r, state.Snapshot()) == MoreAlternatesSpec(src, pos, ruleName, rule, old(state.Snapshot()), isNested)
    ensures r.Ok? ==> pos <= r.value.0 < |src| && !StartsTerm(src[r.value.0]) && src[r.value.0] != '|'
    ensures r.Ok? ==> Fragment(r.value.1) && RefsBelow(r.value.1, |state.symbolIds|)
    decreases |src| - pos, 4
  {
    ghost var ids0 := state.symbolIds;
    ghost var rules0 := state.rules;
    ghost var t0 := state.Snapshot();
    var p, elems := pos, rule;
    while src[p] == '|'
      invariant pos <= p < |src|
      invariant state.Valid()
      invariant KeepsIds(ids0, state.symbolIds)
      invariant rules0 <= state.rules
      invariant Fragment(elems) && RefsBelow(elems, |state.symbolIds|)
      invariant !StartsTerm(src[p])
      invariant MoreAlternatesSpec(src, pos, ruleName, rule, t0, isNested)
        == MoreAlternatesSpec(src, p, ruleName, elems, state.Snapshot(), isNested)
      decreases |src| - p
    {
      ghost var ids1 := state.symbolIds;
      ghost var rules1 := state.rules;
      var alt := ParseAlternative(state, src, p, ruleName, elems, isNested);
      KeepsIdsTrans(ids0, ids1, state.symbolIds);
      PrefixTrans(rules0, rules1, state.rules);
      if alt.Err? {
        return Err(alt.error);
      }
      p, elems := alt.value.0, alt.value.1;
    }
    return Ok((p, elems));
  }

  /** Lines 345-347: the `|` at `pos` appends ALT, and the next sequence
      follows it. */
  method ParseAlternative(state: ParseState, src: seq<char>, pos: nat, ruleName: string,
                          rule: seq<Element>, isNested: bool)
      returns (r: Result<(nat, seq<Element>)>)
    requires state.Valid() && IsCString(src) && pos < |src| && src[pos] == '|'
    requires Fragment(rule) && RefsBelow(rule, |state.symbolIds|)
    modifies state
    ensures state.Valid()
    ensures KeepsIds(old(state.symbolIds), state.symbolIds)
    ensures RunOf(r, state.Snapshot())
      == SequenceSpec(src, SkipSpace(src, pos + 1, true), ruleName, rule + [AltElement], old(state.Snapshot()), isNested)
    ensures r.Ok? ==> pos < r.value.0 < |src| && !StartsTerm(src[r.value.0])
    ensures r.Ok? ==> |rule| < |r.value.1| && r.value.1 == rule + [AltElement] + r.value.1[|rule| + 1..]
    ensures r.Ok? ==> AltFree(r.value.1[|rule| + 1..])
    ensures r.Ok? ==> Fragment(r.value.1) && RefsBelow(r.value.1, |state.symbolIds|)
    ensures old(state.rules) <= state.rules
    decreases |src| - pos, 3
  {
    FragmentAppend(rule, [AltElement]);
    var next := ParseSpace(src, pos + 1, true);
    r := ParseSequence(state, src, next, ruleName, rule + [AltElement], isNested);
    if r.Ok? {
      assert r.value.1 == r.value.1[..|rule| + 1] + r.value.1[|rule| + 1..];
    }
  }

  /** Lines 349-350: END closes the alternates and the body is stored as
      rule `ruleId`. */
  method CloseRule(state: ParseState, ruleId: nat, rule: seq<Element>)
    requires state.Valid() && ruleId < |state.symbolIds|
    requires Fragment(rule) && RefsBelow(rule, |state.symbolIds|)
    modifies state
    ensures state.Valid()
    ensures state.symbolIds == old(state.symbolIds)
    ensures state.rules == SetRule(old(state.rules), ruleId, rule + [EndElement])
    ensures ruleId < |state.rules| && state.rules[ruleId] == rule + [EndElement]
    ensures KeepsRulesBut(old(state.rules), state.rules, ruleId)
    ensures WellFormedBody(state.rules[ruleId])
  {
    FragmentClose(rule);
    state.AddRule(ruleId, rule + [EndElement]);
  }

  /** The head of a rule (lines 355-365): its name, interned, then `::=`
      and the blanks after it. Returns the rule's id and the position of its
      alternates. */
  method ParseRuleHead(state: ParseState, src: seq<char>, start: nat) returns (r: Result<(nat, nat)>)
    requires state.Valid() && IsCString(src) && start < |src|
    modifies state
    ensures state.Valid()
    ensures KeepsIds(old(state.symbolIds), state.symbolIds)
    ensures state.rules == old(state.rules)
    ensures HeadOf(r, state.Snapshot()) == RuleHeadSpec(src, start, old(state.Snapshot()))
    ensures !IsWordChar(src[start]) ==> r == Err(ExpectedName)
    ensures r.Ok? ==> start < r.value.1 < |src|
    ensures r.Ok? ==>
      var name := src[start..NameEnd(src, start)];
      name in state.symbolIds && state.symbolIds[name] == r.value.0
  {
    ghost var ids0 := state.symbolIds;
    ghost var t0 := state.Snapshot();
    var nameEnd := ParseName(src, start);
    if nameEnd.Err? {
      return Err(nameEnd.error);
    }
    NameEndIs(src, start, nameEnd.value);
    var pos := ParseSpace(src, nameEnd.value, false);
    var name := src[start..nameEnd.value];
    RuleHeadSpecOf(src, start, t0, nameEnd.value, pos);
    ghost var ids1 := Intern(ids0, name);
    var ruleId := state.GetSymbolId(name);
    assert state.symbolIds == ids1;
    var body := ParseDefinitionMark(src, pos);
    if body.Err? {
      return Err(body.error);
    }
    return Ok((ruleId, body.value));
  }

  /** Lines 361-364: `::=` and the blanks and line breaks after it. */
  method ParseDefinitionMark(src: seq<char>, pos: nat) returns (r: Result<nat>)
    requires IsCString(src) && pos < |src|
    ensures r.Ok? <==> pos + 3 < |src| && src[pos..pos + 3] == "::="
    ensures r.Ok? ==> r.value == SkipSpace(src, pos + 3, true)
    ensures r.Err? ==> r.error == ExpectedDefinition
  {
    if !(src[pos] == ':' && src[pos + 1] == ':' && src[pos + 2] == '=') {
      return Err(ExpectedDefinition);
    }
    var next := ParseSpace(src, pos + 3, true);
    return Ok(next);
  }

  /** The end of a rule (lines 369-375): a line break (`\r`, `\r\n` or
      `\n`) or the end of the text, then blanks and line breaks. */
  method ParseRuleEnd(src: seq<char>, pos: nat) returns (r: Result<nat>)
    requires IsCString(src) && pos < |src|
    ensures r == RuleEndSpec(src, pos)
  {
    var next := pos;
    if src[pos] == '\r' {
      next := pos + if src[pos + 1] == '\n' then 2 else 1;
    } else if src[pos] == '\n' {
      next := pos + 1;
    } else if src[pos] != NUL {
      return Err(ExpectedNewline);
    }
    next := ParseSpace(src, next, true);
    return Ok(next);
  }

  /** parse_rule (lines 354-375): `name ::= alternates` and a line break
      or the end of the text, then blanks. */
  method ParseRule(state: ParseState, src: seq<char>, start: nat) returns (r: Result<nat>)
    requires state.Valid() && IsCString(src) && start < |src|
    modifies state
    ensures state.Valid()
    ensures KeepsIds(old(state.symbolIds), state.symbolIds)
    ensures AtOf(r, state.Snapshot()) == RuleSpec(src, start, old(state.Snapshot()))
    ensures !IsWordChar(src[start]) ==> r == Err(ExpectedName)
    ensures r.Ok? ==> start < r.value < |src| && !IsSpaceStart(src[r.value], true)
    ensures r.Ok? ==>
      var name := src[start..NameEnd(src, start)];
      && name in state.symbolIds
      && state.symbolIds[name] < |state.rules|
      && WellFormedBody(state.rules[state.symbolIds[name]])
      && KeepsRulesBut(old(state.rules), state.rules, state.symbolIds[name])
  {
    ghost var ids0 := state.symbolIds;
    var head := ParseRuleHead(state, src, start);
    if head.Err? {
      return Err(head.error);
    }
    ghost var ids1 := state.symbolIds;
    var alt := ParseAlternates(state, src, head.value.1, src[start..NameEnd(src, start)], head.value.0, false);
    KeepsIdsTrans(ids0, ids1, state.symbolIds);
    if alt.Err? {
      return Err(alt.error);
    }
    r := ParseRuleEnd(src, alt.value);
  }

  /* ---------------------------------------------------------------------
     The definedness check and the entry point
     --------------------------------------------------------------------- */

  /** Rule `v` has no body: beyond the table, or an empty placeholder. */
  predicate Undefined(rules: seq<seq<Element>>, v: nat) {
    v >= |rules| || rules[v] == []
  }

  /** Some name is registered under id `v`. */
  predicate Named(ids: map<string, nat>, v: nat) {
    exists name :: name in ids && ids[name] == v
  }

  /** Some rule body refers to rule `v`. */
  predicate Referenced(rules: seq<seq<Element>>, v: nat) {
    exists i, j :: 0 <= i < |rules| && 0 <= j < |rules[i]| && rules[i][j] == Ref(v)
  }

  /** The check passes at element j of rule i: it is not a reference to an
      undefined rule that has a name. */
  predicate RefChecked(rules: seq<seq<Element>>, ids: map<string, nat>, i: nat, j: nat)
    requires i < |rules| && j < |rules[i]|
  {
    rules[i][j].kind == RuleRef && Undefined(rules, rules[i][j].value) ==> !Named(ids, rules[i][j].value)
  }

  predicate AllRefsChecked(rules: seq<seq<Element>>, ids: map<string, nat>) {
    forall i, j :: 0 <= i < |rules| && 0 <= j < |rules[i]| ==> RefChecked(rules, ids, i, j)
  }

  /** Element j of rule i is the first, in the order the check scans rules
      and then their elements, at which the check fails. */
  predicate FirstUnchecked(rules: seq<seq<Element>>, ids: map<string, nat>, i: nat, j: nat) {
    && i < |rules| && j < |rules[i]| && !RefChecked(rules, ids, i, j)
    && (forall i', j' :: 0 <= i' < i && 0 <= j' < |rules[i']| ==> RefChecked(rules, ids, i', j'))
    && (forall j' :: 0 <= j' < j ==> RefChecked(rules, ids, i, j'))
  }

  /** There is at most one first failing element. */
  lemma FirstUncheckedUnique(rules: seq<seq<Element>>, ids: map<string, nat>, i: nat, j: nat, k: nat, l: nat)
    requires FirstUnchecked(rules, ids, i, j) && FirstUnchecked(rules, ids, k, l)
    ensures i == k && j == l
  {
  }

  /** The scan of symbol_ids for the name registered under `v` (lines
      389-393). */
  method FindName(ids: map<string, nat>, v: nat) returns (name: Option<string>)
    ensures name.Some? ==> name.value in ids && ids[name.value] == v
    ensures name.None? <==> !Named(ids, v)
  {
    var rest := ids.Keys;
    while rest != {}
      invariant rest <= ids.Keys
      invariant forall n :: n in ids.Keys - rest ==> ids[n] != v
      decreases |rest|
    {
      var n :| n in rest;
      if ids[n] == v {
        return Some(n);
      }
      rest := rest - {n};
    }
    return None;
  }

  /** The definedness check of parse (lines 383-397): every reference to a
      rule with no body is reported by the rule's name; a reference whose id
      has no name passes. */
  method Validate(rules: seq<seq<Element>>, ids: map<string, nat>) returns (r: Result<()>)
    ensures r.Ok? <==> AllRefsChecked(rules, ids)
    ensures r.Err? ==>
      && r.error.UndefinedRule?
      && r.error.name in ids
      && Undefined(rules, ids[r.error.name])
      && Referenced(rules, ids[r.error.name])
      && exists i: nat, j: nat :: FirstUnchecked(rules, ids, i, j) && rules[i][j] == Ref(ids[r.error.name])
  {
    for i := 0 to |rules|
      invariant forall i', j :: 0 <= i' < i && 0 <= j < |rules[i']| ==> RefChecked(rules, ids, i', j)
    {
      for j := 0 to |rules[i]|
        invariant forall i', j' :: 0 <= i' < i && 0 <= j' < |rules[i']| ==> RefChecked(rules, ids, i', j')
        invariant forall j' :: 0 <= j' < j ==> RefChecked(rules, ids, i, j')
      {
        var e := rules[i][j];
        if e.kind == RuleRef && (e.value >= |rules| || rules[e.value] == []) {
          var name := FindName(ids, e.value);
          if name.Some? {
            assert rules[i][j] == Ref(e.value);
            assert Named(ids, e.value) by {
              assert name.value in ids && ids[name.value] == e.value;
            }
            assert FirstUnchecked(rules, ids, i, j);
            return Err(UndefinedRule(name.value));
          }
        }
      }
    }
    return Ok(());
  }

  /** In a valid state every id below the table size has a name, so the
      check passes exactly when every reference has a body. */
  lemma ValidatedIsClosed(rules: seq<seq<Element>>, ids: map<string, nat>, names: seq<string>)
    requires SymbolTableValid(ids, names)
    requires forall i :: 0 <= i < |rules| ==> RefsBelow(rules[i], |ids|)
    ensures AllRefsChecked(rules, ids) <==> Closed(rules)
  {
    if AllRefsChecked(rules, ids) {
      forall i, j | 0 <= i < |rules| && 0 <= j < |rules[i]| && rules[i][j].kind == RuleRef
        ensures rules[i][j].value < |rules| && rules[rules[i][j].value] != []
      {
        var v := rules[i][j].value;
        assert RefChecked(rules, ids, i, j);
        assert RefsBelow(rules[i], |ids|);
        assert names[v] in ids && ids[names[v]] == v;
      }
    }
  }

  /** parse (lines 377-403): rules until the end of the text, then the
      definedness check. Any error yields an empty state, and `err` carries
      what would be written to the error stream. Without an error the tables
      are those the rules of the text compile to. */
  method Parse(src: seq<char>) returns (state: ParseState, err: Option<ParseError>)
    requires IsCString(src)
    ensures fresh(state) && state.Valid()
    ensures Closed(state.rules)
    ensures err.Some? ==> state.rules == [] && state.symbolIds == map[]
    ensures GrammarSpec(src).Err? ==> err == Some(GrammarSpec(src).error)
    ensures GrammarSpec(src).Ok? && AllRefsChecked(GrammarSpec(src).value.rules, GrammarSpec(src).value.ids) ==>
      err.None? && state.Snapshot() == GrammarSpec(src).value
    ensures GrammarSpec(src).Ok? && !AllRefsChecked(GrammarSpec(src).value.rules, GrammarSpec(src).value.ids) ==>
      var g := GrammarSpec(src).value;
      && err.Some? && err.value.UndefinedRule?
      && err.value.name in g.ids
      && Undefined(g.rules, g.ids[err.value.name])
      && Referenced(g.rules, g.ids[err.value.name])
      && exists i: nat, j: nat :: FirstUnchecked(g.rules, g.ids, i, j) && g.rules[i][j] == Ref(g.ids[err.value.name])
    ensures src[SkipSpace(src, 0, true)] == NUL ==> err.None? && state.rules == []
    ensures !IsWordChar(src[SkipSpace(src, 0, true)]) && src[SkipSpace(src, 0, true)] != NUL ==>
      err == Some(ExpectedName)
  {
    state := new ParseState();
    var pos := ParseSpace(src, 0, true);
    ghost var first := pos;
    while src[pos] != NUL
      invariant first <= pos < |src|
      invariant fresh(state) && state.Valid()
      invariant pos == first || IsWordChar(src[first])
      invariant src[first] == NUL ==> state.rules == []
      invariant GrammarSpec(src) == RulesSpec(src, pos, state.Snapshot())
      decreases |src| - pos
    {
      var r := ParseRule(state, src, pos);
      if r.Err? {
        state := new ParseState();
        return state, Some(r.error);
      }
      pos := r.value;
    }
    var check := Validate(state.rules, state.symbolIds);
    if check.Err? {
      state := new ParseState();
      return state, Some(check.error);
    }
    ValidatedIsClosed(state.rules, state.symbolIds, state.names);
    return state, None;
  }
}

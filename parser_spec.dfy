/** The compiler as functions of the grammar text: what parse_sequence,
    parse_alternates, parse_rule and parse compute, threading the symbol
    table and the rule table through each step. The methods of module
    Parser are proved equal to these functions. */
module ParserSpec {
  import opened GrammarTypes
  import opened Scanner
  import opened Symbols
  import opened Repetition
  import opened Terms

  /** The characters at which parse_sequence reads another term or
      quantifier; at any other character the sequence ends. */
  predicate StartsTerm(c: char) {
    c == '"' || c == '[' || IsWordChar(c) || c == '(' || c == '*' || c == '+' || c == '?' || c == '{'
  }

  /** A run of CHAR elements is a fragment with no references. */
  lemma CharsFragment(t: seq<Element>, n: nat)
    requires forall i :: 0 <= i < |t| ==> t[i].kind == Char
    ensures Fragment(t) && RefsBelow(t, n)
  {
  }

  /** A quoted literal at `pos`: its CHAR elements and the position after
      the closing quote and the blanks that follow. */
  function LiteralTermAt(src: seq<char>, pos: nat, isNested: bool): (r: Result<(seq<Element>, nat)>)
    requires IsCString(src) && pos < |src| && src[pos] == '"'
    ensures r.Ok? ==> pos < r.value.1 < |src|
    ensures r.Ok? ==> Fragment(r.value.0) && RefsBelow(r.value.0, 0)
    ensures r.Ok? && |r.value.0| > 0 ==> !IsContinuation(r.value.0[0])
    ensures r.Ok? ==> forall i :: 0 <= i < |r.value.0| ==> IsCharElement(r.value.0[i])
    ensures r.Err? <==> LiteralSpec(src, pos + 1).Err?
  {
    var lit := LiteralSpec(src, pos + 1);
    if lit.Err? then Err(lit.error)
    else
      CharsFragment(lit.value.0, 0);
      Ok((lit.value.0, SkipSpace(src, lit.value.1 + 1, isNested)))
  }

  /** A character class at `pos`: its elements and the position after the
      closing bracket and the blanks that follow. */
  function ClassTermAt(src: seq<char>, pos: nat, isNested: bool): (r: Result<(seq<Element>, nat)>)
    requires IsCString(src) && pos < |src| && src[pos] == '['
    ensures r.Ok? ==> pos < r.value.1 < |src|
    ensures r.Ok? ==> Fragment(r.value.0) && RefsBelow(r.value.0, 0)
    ensures r.Ok? && |r.value.0| > 0 ==> !IsContinuation(r.value.0[0])
    ensures r.Ok? ==> forall i :: 0 <= i < |r.value.0| ==> IsCharElement(r.value.0[i])
    ensures r.Err? <==> ClassTerm(src, pos + 1).Err?
  {
    var cls := ClassTerm(src, pos + 1);
    if cls.Err? then Err(cls.error)
    else
      ClassFragment(cls.value.0, if src[pos + 1] == '^' then CharNot else Char);
      Ok((cls.value.0, SkipSpace(src, cls.value.1 + 1, isNested)))
  }

  /** The end of the name at `p`: the first position that is not a name
      character. */
  function NameEnd(src: seq<char>, p: nat): (q: nat)
    requires IsCString(src) && p < |src|
    ensures p <= q < |src| && !IsWordChar(src[q])
    ensures forall i :: p <= i < q ==> IsWordChar(src[i])
    decreases |src| - p
  {
    if IsWordChar(src[p]) then NameEnd(src, p + 1) else p
  }

  /** parse_name stops at NameEnd, and what it spans is a name the grammar
      can spell. */
  lemma {:induction false} NameEndIs(src: seq<char>, p: nat, q: nat)
    requires IsCString(src) && p <= q < |src|
    requires forall i :: p <= i < q ==> IsWordChar(src[i])
    requires !IsWordChar(src[q])
    ensures NameEnd(src, p) == q
    ensures IsUserName(src[p..q])
    decreases q - p
  {
    if p < q {
      NameEndIs(src, p + 1, q);
    }
    assert forall i :: 0 <= i < q - p ==> src[p..q][i] == src[p + i];
  }

  /** No element of `s` is an ALT. */
  predicate AltFree(s: seq<Element>) {
    forall i :: 0 <= i < |s| ==> s[i].kind != Alt
  }

  /** No alternative of `alts` holds an ALT. */
  predicate AllAltFree(alts: seq<seq<Element>>) {
    forall k :: 0 <= k < |alts| ==> AltFree(alts[k])
  }

  /** Alternatives joined by ALT separators, as parse_alternates emits them. */
  function JoinAlts(alts: seq<seq<Element>>): seq<Element>
    requires |alts| > 0
  {
    if |alts| == 1 then alts[0] else JoinAlts(alts[..|alts| - 1]) + [AltElement] + alts[|alts| - 1]
  }

  /** A body cut at its ALT elements: the alternatives, in order. */
  function SplitAlts(s: seq<Element>): (parts: seq<seq<Element>>)
    ensures |parts| > 0
  {
    if s == [] then [[]]
    else
      var init := SplitAlts(s[..|s| - 1]);
      if s[|s| - 1].kind == Alt then init + [[]]
      else init[..|init| - 1] + [init[|init| - 1] + [s[|s| - 1]]]
  }

  /** An element other than ALT extends the last alternative. */
  lemma SplitNonAlt(s: seq<Element>, e: Element, init: seq<seq<Element>>, lastPart: seq<Element>)
    requires SplitAlts(s) == init + [lastPart] && e.kind != Alt
    ensures SplitAlts(s + [e]) == init + [lastPart + [e]]
  {
    assert (s + [e])[..|s|] == s;
    assert (init + [lastPart])[..|init|] == init;
  }

  /** Appending ALT-free elements extends the last alternative. */
  lemma {:induction false} SplitAltFree(s: seq<Element>, t: seq<Element>, init: seq<seq<Element>>, lastPart: seq<Element>)
    requires SplitAlts(s) == init + [lastPart] && AltFree(t)
    ensures SplitAlts(s + t) == init + [lastPart + t]
    decreases |t|
  {
    if t == [] {
      assert s + t == s;
      assert lastPart + t == lastPart;
    } else {
      var u, e := t[..|t| - 1], t[|t| - 1];
      assert AltFree(u) by {
        assert forall i :: 0 <= i < |u| ==> u[i] == t[i];
      }
      SplitAltFree(s, u, init, lastPart);
      SplitNonAlt(s + u, e, init, lastPart + u);
      assert s + t == s + u + [e];
      assert lastPart + u + [e] == lastPart + t;
    }
  }

  /** An ALT element opens a new, empty alternative. */
  lemma SplitAfterAlt(s: seq<Element>)
    ensures SplitAlts(s + [AltElement]) == SplitAlts(s) + [[]]
  {
    assert (s + [AltElement])[..|s|] == s;
  }

  /** Joining one more alternative puts ALT and that alternative after the
      joined ones. */
  lemma JoinSnoc(alts: seq<seq<Element>>, next: seq<Element>)
    requires |alts| > 0
    ensures JoinAlts(alts + [next]) == JoinAlts(alts) + [AltElement] + next
  {
    assert (alts + [next])[..|alts|] == alts;
  }

  /** ALT and an ALT-free alternative after a body add that alternative to
      its cut. */
  lemma SplitAltStep(j: seq<Element>, parts: seq<seq<Element>>, last: seq<Element>)
    requires SplitAlts(j) == parts && AltFree(last)
    ensures SplitAlts(j + [AltElement] + last) == parts + [last]
  {
    SplitAfterAlt(j);
    SplitAltFree(j + [AltElement], last, parts, []);
    assert [] + last == last;
  }

  /** Dropping the last alternative keeps the rest ALT-free. */
  lemma AllAltFreeInit(alts: seq<seq<Element>>)
    requires |alts| > 0 && AllAltFree(alts)
    ensures AllAltFree(alts[..|alts| - 1]) && AltFree(alts[|alts| - 1])
  {
    assert forall k :: 0 <= k < |alts| - 1 ==> alts[..|alts| - 1][k] == alts[k];
  }

  /** Cutting a joined body at its ALT elements gives the alternatives
      back, when none of them holds an ALT. */
  lemma {:induction false} SplitJoin(alts: seq<seq<Element>>)
    requires |alts| > 0 && AllAltFree(alts)
    ensures SplitAlts(JoinAlts(alts)) == alts
    decreases |alts|
  {
    var n := |alts|;
    if n == 1 {
      assert AltFree(alts[0]);
      assert SplitAlts([]) == [] + [[]];
      SplitAltFree([], alts[0], [], []);
      assert [] + alts[0] == alts[0];
    } else {
      var init, last := alts[..n - 1], alts[n - 1];
      AllAltFreeInit(alts);
      SplitJoin(init);
      SplitAltStep(JoinAlts(init), init, last);
      assert init + [last] == alts;
    }
  }

  /* ---------------------------------------------------------------------
     The compiler, one function per parsing routine
     --------------------------------------------------------------------- */

  /** Where parse_sequence stands after a term: the position, the elements
      so far as `head + term` where `term` is the last term (empty when
      there is none to repeat), and the tables. */
  datatype Step = Step(pos: nat, head: seq<Element>, term: seq<Element>, tables: Tables)

  /** Elements compiled up to a position, and the tables there. */
  datatype Run = Run(pos: nat, out: seq<Element>, tables: Tables)

  /** A position reached, and the tables there. */
  datatype At = At(pos: nat, tables: Tables)

  /** The rule table after add_rule(id, body). */
  function SetRule(rules: seq<seq<Element>>, id: nat, body: seq<Element>): (rules': seq<seq<Element>>)
    ensures |rules'| == if |rules| <= id then id + 1 else |rules|
    ensures rules'[id] == body
    ensures forall i :: 0 <= i < |rules| && i != id ==> rules'[i] == rules[i]
    ensures forall i :: |rules| <= i < |rules'| && i != id ==> rules'[i] == []
  {
    if |rules| <= id then Pad(rules, id) + [body] else rules[id := body]
  }

  /** A literal or a character class at `pos` (lines 236-267): its
      elements become the last term. */
  function CharTermSpec(src: seq<char>, pos: nat, head: seq<Element>, term: seq<Element>, t: Tables,
                        isNested: bool): Result<Step>
    requires IsCString(src) && pos < |src| && (src[pos] == '"' || src[pos] == '[')
  {
    var ct := if src[pos] == '"' then LiteralTermAt(src, pos, isNested) else ClassTermAt(src, pos, isNested);
    if ct.Err? then Err(ct.error) else Ok(Step(ct.value.1, head + term, ct.value.0, t))
  }

  /** A rule reference at `pos` (lines 268-273): the name is interned and
      a reference to its id becomes the last term. */
  function RefTermSpec(src: seq<char>, pos: nat, head: seq<Element>, term: seq<Element>, t: Tables,
                       isNested: bool): Step
    requires IsCString(src) && pos < |src| && IsWordChar(src[pos])
  {
    var name := src[pos..NameEnd(src, pos)];
    var ids := Intern(t.ids, name);
    Step(SkipSpace(src, NameEnd(src, pos), isNested), head + term, [Ref(ids[name])], Tables(ids, t.rules))
  }

  /** The rule a group at `pos` generates (lines 274-285): `<rule name>_<id>`
      under the next id, defined by the alternates inside the parentheses,
      which must stop at `)`. */
  function GroupSpec(src: seq<char>, pos: nat, ruleName: string, t: Tables, isNested: bool): (r: Result<At>)
    requires IsCString(src) && pos < |src| && src[pos] == '('
    ensures r.Ok? ==> pos < r.value.pos < |src|
    decreases |src| - pos, 0
  {
    GroupCloseSpec(src, AlternatesSpec(src, SkipSpace(src, pos + 1, true), ruleName, |t.ids|,
                                       Tables(Generate(t.ids, ruleName), t.rules), true), isNested)
  }

  /** The end of a group (lines 282-285): the alternates `a` inside it must
      stop at `)`, after which the blanks are skipped. */
  function GroupCloseSpec(src: seq<char>, a: Result<At>, isNested: bool): (r: Result<At>)
    requires IsCString(src) && (a.Ok? ==> a.value.pos < |src|)
    ensures r.Ok? ==> a.Ok? && a.value.pos < r.value.pos < |src| && r.value.tables == a.value.tables
    ensures a.Ok? && src[a.value.pos] != ')' ==> r == Err(UnbalancedGroup)
    ensures a.Err? ==> r == Err(a.error)
  {
    if a.Err? then Err(a.error)
    else if src[a.value.pos] != ')' then Err(UnbalancedGroup)
    else Ok(At(SkipSpace(src, a.value.pos + 1, isNested), a.value.tables))
  }

  /** A group at `pos` as a term: a reference to the rule it generates
      becomes the last term. */
  function GroupTermSpec(src: seq<char>, pos: nat, ruleName: string, head: seq<Element>, term: seq<Element>,
                         t: Tables, isNested: bool): (r: Result<Step>)
    requires IsCString(src) && pos < |src| && src[pos] == '('
    ensures r.Ok? ==> pos < r.value.pos < |src|
    decreases |src| - pos, 1
  {
    var g := GroupSpec(src, pos, ruleName, t, isNested);
    if g.Err? then Err(g.error) else Ok(Step(g.value.pos, head + term, [Ref(|t.ids|)], g.value.tables))
  }

  /** A quantifier at `pos` (lines 287-327), after the elements `head` and
      the last term `term`: an error in its braces, a dangling quantifier
      when there is no last term, inverted bounds, or the last term
      replaced by a reference to the sub rule, with the rules
      handle_repetitions generates and their names. */
  function QuantifierSpec(src: seq<char>, pos: nat, ruleName: string, head: seq<Element>, term: seq<Element>,
                          t: Tables, isNested: bool): Result<Step>
    requires IsCString(src) && pos < |src| && IsQuantifierChar(src[pos])
  {
    var b := QuantifierBounds(src, pos, isNested);
    if b.Err? then Err(b.error)
    else if term == [] then Err(DanglingQuantifier)
    else if 0 <= b.value.1 < b.value.0 then Err(InvertedBounds)
    else Ok(Step(b.value.2, head, [Ref(SubId(term[0], |t.ids|))],
                 RepetitionTables(t, ruleName, term, b.value.0, b.value.1)))
  }

  /** One term or quantifier at `pos`: one pass of the loop of
      parse_sequence (lines 235-330). */
  function TermSpec(src: seq<char>, pos: nat, ruleName: string, head: seq<Element>, term: seq<Element>,
                    t: Tables, isNested: bool): (r: Result<Step>)
    requires IsCString(src) && pos < |src| && StartsTerm(src[pos])
    ensures r.Ok? ==> pos < r.value.pos < |src|
    decreases |src| - pos, 2
  {
    var c := src[pos];
    if c == '"' || c == '[' then CharTermSpec(src, pos, head, term, t, isNested)
    else if IsWordChar(c) then Ok(RefTermSpec(src, pos, head, term, t, isNested))
    else if c == '(' then GroupTermSpec(src, pos, ruleName, head, term, t, isNested)
    else QuantifierSpec(src, pos, ruleName, head, term, t, isNested)
  }

  /** The loop of parse_sequence from `pos`, after the elements `head` and
      the last term `term`: terms until a character that starts none. */
  function SequenceFrom(src: seq<char>, pos: nat, ruleName: string, head: seq<Element>, term: seq<Element>,
                        t: Tables, isNested: bool): (r: Result<Step>)
    requires IsCString(src) && pos < |src|
    ensures r.Ok? ==> pos <= r.value.pos < |src| && !StartsTerm(src[r.value.pos])
    decreases |src| - pos, 3
  {
    if !StartsTerm(src[pos]) then Ok(Step(pos, head, term, t))
    else
      var s := TermSpec(src, pos, ruleName, head, term, t, isNested);
      if s.Err? then Err(s.error)
      else SequenceFrom(src, s.value.pos, ruleName, s.value.head, s.value.term, s.value.tables, isNested)
  }

  /** parse_sequence (lines 147-333) on the elements `out`, none of which
      counts as the last term. */
  function SequenceSpec(src: seq<char>, pos: nat, ruleName: string, out: seq<Element>,
                        t: Tables, isNested: bool): (r: Result<Run>)
    requires IsCString(src) && pos < |src|
    ensures r.Ok? ==> pos <= r.value.pos < |src| && !StartsTerm(src[r.value.pos])
    decreases |src| - pos, 4
  {
    var s := SequenceFrom(src, pos, ruleName, out, [], t, isNested);
    if s.Err? then Err(s.error) else Ok(Run(s.value.pos, s.value.head + s.value.term, s.value.tables))
  }

  /** The loop of parse_alternates (lines 342-348): while `|` follows, ALT
      and the next sequence are compiled onto `rule`. */
  function MoreAlternatesSpec(src: seq<char>, pos: nat, ruleName: string, rule: seq<Element>,
                              t: Tables, isNested: bool): (r: Result<Run>)
    requires IsCString(src) && pos < |src| && !StartsTerm(src[pos])
    ensures r.Ok? ==> pos <= r.value.pos < |src| && !StartsTerm(src[r.value.pos]) && src[r.value.pos] != '|'
    decreases |src| - pos, 5
  {
    if src[pos] != '|' then Ok(Run(pos, rule, t))
    else
      var s := SequenceSpec(src, SkipSpace(src, pos + 1, true), ruleName, rule + [AltElement], t, isNested);
      if s.Err? then Err(s.error)
      else MoreAlternatesSpec(src, s.value.pos, ruleName, s.value.out, s.value.tables, isNested)
  }

  /** parse_alternates (lines 335-352): the sequences separated by `|`,
      closed by END and stored as rule `ruleId`. */
  function AlternatesSpec(src: seq<char>, start: nat, ruleName: string, ruleId: nat,
                          t: Tables, isNested: bool): (r: Result<At>)
    requires IsCString(src) && start < |src|
    ensures r.Ok? ==> start <= r.value.pos < |src| && !StartsTerm(src[r.value.pos]) && src[r.value.pos] != '|'
    decreases |src| - start, 6
  {
    var s := SequenceSpec(src, start, ruleName, [], t, isNested);
    if s.Err? then Err(s.error)
    else
      var m := MoreAlternatesSpec(src, s.value.pos, ruleName, s.value.out, s.value.tables, isNested);
      if m.Err? then Err(m.error)
      else Ok(At(m.value.pos, Tables(m.value.tables.ids, SetRule(m.value.tables.rules, ruleId, m.value.out + [EndElement]))))
  }

  /** The head of a rule (lines 355-365): its name, interned, then `::=`.
      Gives the rule's id, the position after `::=` and the blanks and line
      breaks after it, and the tables. */
  function RuleHeadSpec(src: seq<char>, start: nat, t: Tables): (r: Result<(nat, nat, Tables)>)
    requires IsCString(src) && start < |src|
    ensures !IsWordChar(src[start]) ==> r == Err(ExpectedName)
    ensures r.Err? ==> r.error == ExpectedName || r.error == ExpectedDefinition
    ensures r.Ok? ==> start < r.value.1 < |src|
    ensures r.Ok? ==>
      var name := src[start..NameEnd(src, start)];
      name in r.value.2.ids && r.value.2.ids[name] == r.value.0 && KeepsIds(t.ids, r.value.2.ids)
  {
    if !IsWordChar(src[start]) then Err(ExpectedName)
    else
      var name := src[start..NameEnd(src, start)];
      var ids := Intern(t.ids, name);
      var p := SkipSpace(src, NameEnd(src, start), false);
      if !(p + 3 < |src| && src[p..p + 3] == "::=") then Err(ExpectedDefinition)
      else Ok((ids[name], SkipSpace(src, p + 3, true), Tables(ids, t.rules)))
  }

  /** RuleHeadSpec once the name is known to end at `e` and the blanks
      after it at `p`. */
  lemma RuleHeadSpecOf(src: seq<char>, start: nat, t: Tables, e: nat, p: nat)
    requires IsCString(src) && start < |src| && IsWordChar(src[start])
    requires e == NameEnd(src, start) && p == SkipSpace(src, e, false)
    ensures var name := src[start..e];
      RuleHeadSpec(src, start, t)
        == if !(p + 3 < |src| && src[p..p + 3] == "::=") then Err(ExpectedDefinition)
           else Ok((Intern(t.ids, name)[name], SkipSpace(src, p + 3, true), Tables(Intern(t.ids, name), t.rules)))
  {
  }

  /** The end of a rule (lines 369-375): `\r`, `\r\n`, `\n` or the end of
      the text, then blanks and line breaks. */
  function RuleEndSpec(src: seq<char>, pos: nat): (r: Result<nat>)
    requires IsCString(src) && pos < |src|
    ensures r.Ok? <==> src[pos] == '\r' || src[pos] == '\n' || src[pos] == NUL
    ensures r.Err? ==> r.error == ExpectedNewline
    ensures r.Ok? ==> pos <= r.value < |src| && !IsSpaceStart(src[r.value], true)
    ensures r.Ok? && src[pos] != NUL ==> pos < r.value
    ensures r.Ok? && src[pos] == NUL ==> r.value == pos
  {
    if src[pos] == '\r' then Ok(SkipSpace(src, if src[pos + 1] == '\n' then pos + 2 else pos + 1, true))
    else if src[pos] == '\n' then Ok(SkipSpace(src, pos + 1, true))
    else if src[pos] == NUL then Ok(SkipSpace(src, pos, true))
    else Err(ExpectedNewline)
  }

  /** parse_rule (lines 354-375). */
  function RuleSpec(src: seq<char>, start: nat, t: Tables): (r: Result<At>)
    requires IsCString(src) && start < |src|
    ensures !IsWordChar(src[start]) ==> r == Err(ExpectedName)
    ensures r.Ok? ==> start < r.value.pos < |src| && !IsSpaceStart(src[r.value.pos], true)
  {
    var h := RuleHeadSpec(src, start, t);
    if h.Err? then Err(h.error)
    else
      var a := AlternatesSpec(src, h.value.1, src[start..NameEnd(src, start)], h.value.0, h.value.2, false);
      if a.Err? then Err(a.error)
      else
        var e := RuleEndSpec(src, a.value.pos);
        if e.Err? then Err(e.error) else Ok(At(e.value, a.value.tables))
  }

  /** The loop of parse (lines 381-382): rules until the end of the text. */
  function RulesSpec(src: seq<char>, pos: nat, t: Tables): Result<Tables>
    requires IsCString(src) && pos < |src|
    decreases |src| - pos
  {
    if src[pos] == NUL then Ok(t)
    else
      var r := RuleSpec(src, pos, t);
      if r.Err? then Err(r.error) else RulesSpec(src, r.value.pos, r.value.tables)
  }

  /** The tables parse builds from `src` before its definedness check. */
  function GrammarSpec(src: seq<char>): Result<Tables>
    requires IsCString(src)
  {
    RulesSpec(src, SkipSpace(src, 0, true), Tables(map[], []))
  }

  /* ---------------------------------------------------------------------
     A sequence does not depend on the elements before it, and a body is
     its alternatives joined by ALT
     --------------------------------------------------------------------- */

  /** `r` with `prefix` put before its elements. */
  function Shifted(r: Result<Step>, prefix: seq<Element>): Result<Step> {
    if r.Err? then r else Ok(Step(r.value.pos, prefix + r.value.head, r.value.term, r.value.tables))
  }

  /** A term compiles the same after any elements put before the ones it
      sees: only the last term is ever rewritten. */
  lemma TermShift(src: seq<char>, pos: nat, ruleName: string, prefix: seq<Element>, head: seq<Element>,
                  term: seq<Element>, t: Tables, isNested: bool)
    requires IsCString(src) && pos < |src| && StartsTerm(src[pos])
    ensures TermSpec(src, pos, ruleName, prefix + head, term, t, isNested)
      == Shifted(TermSpec(src, pos, ruleName, head, term, t, isNested), prefix)
  {
    assert (prefix + head) + term == prefix + (head + term);
  }

  /** A whole sequence compiles the same after any elements put before the
      ones it sees. */
  lemma {:induction false} SequenceShift(src: seq<char>, pos: nat, ruleName: string, prefix: seq<Element>,
                                         head: seq<Element>, term: seq<Element>, t: Tables, isNested: bool)
    requires IsCString(src) && pos < |src|
    ensures SequenceFrom(src, pos, ruleName, prefix + head, term, t, isNested)
      == Shifted(SequenceFrom(src, pos, ruleName, head, term, t, isNested), prefix)
    decreases |src| - pos
  {
    if StartsTerm(src[pos]) {
      TermShift(src, pos, ruleName, prefix, head, term, t, isNested);
      var s := TermSpec(src, pos, ruleName, head, term, t, isNested);
      if s.Ok? {
        SequenceShift(src, s.value.pos, ruleName, prefix, s.value.head, s.value.term, s.value.tables, isNested);
      }
    }
  }

  /** parse_sequence on the elements `rule` appends what it compiles from
      no elements. */
  lemma SequenceAfter(src: seq<char>, pos: nat, ruleName: string, rule: seq<Element>, t: Tables, isNested: bool)
    requires IsCString(src) && pos < |src|
    ensures var s := SequenceSpec(src, pos, ruleName, [], t, isNested);
      SequenceSpec(src, pos, ruleName, rule, t, isNested)
        == if s.Err? then s else Ok(Run(s.value.pos, rule + s.value.out, s.value.tables))
  {
    SequenceShift(src, pos, ruleName, rule, [], [], t, isNested);
    assert rule + [] == rule;
    var f := SequenceFrom(src, pos, ruleName, [], [], t, isNested);
    if f.Ok? {
      assert (rule + f.value.head) + f.value.term == rule + (f.value.head + f.value.term);
    }
  }

  lemma AltFreeAppend(a: seq<Element>, b: seq<Element>)
    requires AltFree(a) && AltFree(b)
    ensures AltFree(a + b)
  {
    assert forall i :: |a| <= i < |a + b| ==> (a + b)[i] == b[i - |a|];
  }

  /** A term adds no ALT. */
  lemma TermAltFree(src: seq<char>, pos: nat, ruleName: string, head: seq<Element>, term: seq<Element>,
                    t: Tables, isNested: bool)
    requires IsCString(src) && pos < |src| && StartsTerm(src[pos]) && AltFree(head) && AltFree(term)
    ensures var r := TermSpec(src, pos, ruleName, head, term, t, isNested);
      r.Ok? ==> AltFree(r.value.head) && AltFree(r.value.term)
  {
    var c := src[pos];
    if c == '"' || c == '[' {
      AltFreeAppend(head, term);
      CharTermAltFree(src, pos, isNested);
    } else if IsWordChar(c) {
      AltFreeAppend(head, term);
      var name := src[pos..NameEnd(src, pos)];
      RefAltFree(Intern(t.ids, name)[name]);
    } else if c == '(' {
      AltFreeAppend(head, term);
      RefAltFree(|t.ids|);
    } else if term != [] {
      RefAltFree(SubId(term[0], |t.ids|));
    }
  }

  lemma RefAltFree(id: nat)
    ensures AltFree([Ref(id)])
  {
  }

  /** A literal or a character class holds only character elements. */
  lemma CharTermAltFree(src: seq<char>, pos: nat, isNested: bool)
    requires IsCString(src) && pos < |src| && (src[pos] == '"' || src[pos] == '[')
    ensures var ct := if src[pos] == '"' then LiteralTermAt(src, pos, isNested) else ClassTermAt(src, pos, isNested);
      ct.Ok? ==> AltFree(ct.value.0)
  {
  }

  /** A sequence adds no ALT. */
  lemma {:induction false} SequenceAltFree(src: seq<char>, pos: nat, ruleName: string, head: seq<Element>,
                                           term: seq<Element>, t: Tables, isNested: bool)
    requires IsCString(src) && pos < |src| && AltFree(head) && AltFree(term)
    ensures var r := SequenceFrom(src, pos, ruleName, head, term, t, isNested);
      r.Ok? ==> AltFree(r.value.head + r.value.term)
    decreases |src| - pos
  {
    if StartsTerm(src[pos]) {
      TermAltFree(src, pos, ruleName, head, term, t, isNested);
      var s := TermSpec(src, pos, ruleName, head, term, t, isNested);
      if s.Ok? {
        SequenceAltFree(src, s.value.pos, ruleName, s.value.head, s.value.term, s.value.tables, isNested);
      }
    } else {
      AltFreeAppend(head, term);
    }
  }

  /** The alternatives after `pos`: each sequence after a `|`, compiled on
      its own; with the position after the last one and the tables. */
  function AlternativesAfter(src: seq<char>, pos: nat, ruleName: string, t: Tables, isNested: bool)
      : (r: Result<(nat, seq<seq<Element>>, Tables)>)
    requires IsCString(src) && pos < |src| && !StartsTerm(src[pos])
    ensures r.Ok? ==> AllAltFree(r.value.1)
    decreases |src| - pos
  {
    if src[pos] != '|' then Ok((pos, [], t))
    else
      var s := SequenceSpec(src, SkipSpace(src, pos + 1, true), ruleName, [], t, isNested);
      if s.Err? then Err(s.error)
      else
        var rest := AlternativesAfter(src, s.value.pos, ruleName, s.value.tables, isNested);
        if rest.Err? then rest
        else
          SequenceAltFree(src, SkipSpace(src, pos + 1, true), ruleName, [], [], t, isNested);
          assert forall k :: 1 <= k < |rest.value.1| + 1 ==> ([s.value.out] + rest.value.1)[k] == rest.value.1[k - 1];
          Ok((rest.value.0, [s.value.out] + rest.value.1, rest.value.2))
  }

  /** The alternatives of parse_alternates at `start`, each compiled on its
      own, in the order of the text. */
  function Alternatives(src: seq<char>, start: nat, ruleName: string, t: Tables, isNested: bool)
      : (r: Result<(nat, seq<seq<Element>>, Tables)>)
    requires IsCString(src) && start < |src|
    ensures r.Ok? ==> |r.value.1| > 0 && AllAltFree(r.value.1)
  {
    var s := SequenceSpec(src, start, ruleName, [], t, isNested);
    if s.Err? then Err(s.error)
    else
      var rest := AlternativesAfter(src, s.value.pos, ruleName, s.value.tables, isNested);
      if rest.Err? then rest
      else
        SequenceAltFree(src, start, ruleName, [], [], t, isNested);
        assert forall k :: 1 <= k < |rest.value.1| + 1 ==> ([s.value.out] + rest.value.1)[k] == rest.value.1[k - 1];
        Ok((rest.value.0, [s.value.out] + rest.value.1, rest.value.2))
  }

  /** The loop of parse_alternates joins, after the alternatives `alts`
      already compiled, exactly the alternatives that follow in the text. */
  lemma {:induction false} MoreAlternativesJoin(src: seq<char>, pos: nat, ruleName: string,
                                                alts: seq<seq<Element>>, t: Tables, isNested: bool)
    requires IsCString(src) && pos < |src| && !StartsTerm(src[pos]) && |alts| > 0
    ensures var m := MoreAlternatesSpec(src, pos, ruleName, JoinAlts(alts), t, isNested);
      var l := AlternativesAfter(src, pos, ruleName, t, isNested);
      && (m.Err? <==> l.Err?)
      && (m.Err? ==> m.error == l.error)
      && (m.Ok? ==> m.value == Run(l.value.0, JoinAlts(alts + l.value.1), l.value.2))
    decreases |src| - pos
  {
    if src[pos] != '|' {
      assert alts + [] == alts;
    } else {
      var p := SkipSpace(src, pos + 1, true);
      SequenceAfter(src, p, ruleName, JoinAlts(alts) + [AltElement], t, isNested);
      var s := SequenceSpec(src, p, ruleName, [], t, isNested);
      if s.Ok? {
        JoinSnoc(alts, s.value.out);
        MoreAlternativesJoin(src, s.value.pos, ruleName, alts + [s.value.out], s.value.tables, isNested);
        var l := AlternativesAfter(src, s.value.pos, ruleName, s.value.tables, isNested);
        if l.Ok? {
          ConcatAssoc(alts, [s.value.out], l.value.1);
        }
      }
    }
  }

  /** The body parse_alternates stores is its alternatives, each compiled
      on its own and in the order of the text, joined by ALT and closed by
      END; and since none holds an ALT, the body gives them back. */
  lemma AlternatesJoin(src: seq<char>, start: nat, ruleName: string, ruleId: nat, t: Tables, isNested: bool)
    requires IsCString(src) && start < |src|
    ensures var a := AlternatesSpec(src, start, ruleName, ruleId, t, isNested);
      var l := Alternatives(src, start, ruleName, t, isNested);
      && (a.Err? <==> l.Err?)
      && (a.Err? ==> a.error == l.error)
      && (a.Ok? ==> a.value == At(l.value.0, Tables(l.value.2.ids,
                                    SetRule(l.value.2.rules, ruleId, JoinAlts(l.value.1) + [EndElement]))))
      && (a.Ok? ==> SplitAlts(JoinAlts(l.value.1)) == l.value.1)
  {
    var s := SequenceSpec(src, start, ruleName, [], t, isNested);
    if s.Ok? {
      MoreAlternativesJoin(src, s.value.pos, ruleName, [s.value.out], s.value.tables, isNested);
      var l := Alternatives(src, start, ruleName, t, isNested);
      if l.Ok? {
        SplitJoin(l.value.1);
      }
    }
  }

  /** A plain ASCII literal term is one CHAR per character, and ends after
      the blanks that follow its closing quote. */
  lemma {:induction false} PlainLiteralTerm(src: seq<char>, pos: nat, e: nat, isNested: bool)
    requires IsCString(src) && pos < e < |src| && src[pos] == '"' && src[e] == '"'
    requires forall i :: pos < i < e ==> IsPlainLiteralChar(src[i])
    ensures LiteralTermAt(src, pos, isNested) == Ok((Chars(src[pos + 1..e]), SkipSpace(src, e + 1, isNested)))
  {
    PlainLiteral(src, pos + 1, e);
  }

  /** A sequence that is one plain ASCII literal compiles to one CHAR per
      character, and leaves the tables alone. */
  lemma {:induction false} PlainLiteralSequence(src: seq<char>, pos: nat, e: nat, ruleName: string, t: Tables, isNested: bool)
    requires IsCString(src) && pos < e < |src| && src[pos] == '"' && src[e] == '"'
    requires forall i :: pos < i < e ==> IsPlainLiteralChar(src[i])
    requires !StartsTerm(src[SkipSpace(src, e + 1, isNested)])
    ensures SequenceSpec(src, pos, ruleName, [], t, isNested)
      == Ok(Run(SkipSpace(src, e + 1, isNested), Chars(src[pos + 1..e]), t))
  {
    var q, elems := SkipSpace(src, e + 1, isNested), Chars(src[pos + 1..e]);
    PlainLiteralTerm(src, pos, e, isNested);
    var none: seq<Element> := [];
    assert none + none == none;
    assert CharTermSpec(src, pos, none, none, t, isNested) == Ok(Step(q, none, elems, t));
    assert TermSpec(src, pos, ruleName, none, none, t, isNested) == Ok(Step(q, none, elems, t));
    assert none + elems == elems;
    assert SequenceFrom(src, q, ruleName, [], elems, t, isNested) == Ok(Step(q, [], elems, t));
  }
}

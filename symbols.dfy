/** The compiler state (parse_state): the name-to-id symbol table and the
    id-indexed rule table, both grown in place while a grammar is parsed. */
module Symbols {
  import opened GrammarTypes
  import opened Scanner

  /** A name the grammar text can spell: rule names are runs of name
      characters, which never include '_'. */
  predicate IsUserName(name: string) {
    forall i :: 0 <= i < |name| ==> IsWordChar(name[i])
  }

  /** The name generate_symbol_id registers: `<base>_<id>`. */
  function SyntheticName(base: string, id: nat): string {
    base + "_" + NatToString(id)
  }

  /** The table after get_symbol_id(name): unchanged when the name is
      registered, otherwise the name added under the old size. */
  function Intern(ids: map<string, nat>, name: string): (ids': map<string, nat>)
    ensures name in ids' && KeepsIds(ids, ids')
  {
    if name in ids then ids else ids[name := |ids|]
  }

  /** The table after generate_symbol_id(base): `<base>_<size>` registered
      under the old size. */
  function Generate(ids: map<string, nat>, base: string): map<string, nat> {
    ids[SyntheticName(base, |ids|) := |ids|]
  }

  /** `name` ends in "_" followed by the decimal spelling of `id`. */
  predicate HasIdSuffix(name: string, id: nat) {
    var d := "_" + NatToString(id);
    |d| <= |name| && name[|name| - |d|..] == d
  }

  /** Reading a suffix back at an offset. */
  lemma SuffixIndex(name: string, d: string, j: int)
    ensures |d| <= |name| && name[|name| - |d|..] == d && 0 <= j < |d| ==>
      name[|name| - |d| + j] == d[j]
  {
    if |d| <= |name| && name[|name| - |d|..] == d && 0 <= j < |d| {
      assert name[|name| - |d|..][j] == d[j];
    }
  }

  /** A name carries at most one id suffix. */
  lemma IdSuffixUnique(name: string, a: nat, b: nat)
    requires HasIdSuffix(name, a) && HasIdSuffix(name, b)
    ensures a == b
  {
    var da := "_" + NatToString(a);
    var db := "_" + NatToString(b);
    if |da| < |db| {
      SuffixIndex(name, da, 0);
      SuffixIndex(name, db, |db| - |da|);
      assert false;
    } else if |db| < |da| {
      SuffixIndex(name, db, 0);
      SuffixIndex(name, da, |da| - |db|);
      assert false;
    }
    assert da == db;
    assert NatToString(a) == da[1..] == db[1..] == NatToString(b);
    NatToStringInjective(a, b);
  }

  /** The symbol table invariant: `names` is its inverse, so ids are
      exactly 0 .. |ids| - 1, one per name; every name is either one the
      grammar spells or a synthetic name ending in its own id. */
  ghost predicate SymbolTableValid(ids: map<string, nat>, names: seq<string>) {
    && |names| == |ids|
    && (forall i :: 0 <= i < |names| ==> names[i] in ids && ids[names[i]] == i)
    && (forall n :: n in ids ==> ids[n] < |names| && names[ids[n]] == n)
    && (forall n :: n in ids ==> IsUserName(n) || HasIdSuffix(n, ids[n]))
  }

  /** The name generate_symbol_id mints is never already registered, so
      its assignment through operator[] never overwrites an entry. */
  lemma SyntheticNameFresh(ids: map<string, nat>, names: seq<string>, base: string)
    requires SymbolTableValid(ids, names)
    ensures SyntheticName(base, |ids|) !in ids
  {
    var s := SyntheticName(base, |ids|);
    var d := "_" + NatToString(|ids|);
    assert s == base + d;
    assert s[|s| - |d|..] == d;
    if s in ids {
      assert s[|base|] == '_';
      assert !IsUserName(s);
      IdSuffixUnique(s, ids[s], |ids|);
      assert false;
    }
  }

  /** The synthetic name ends in its own id. */
  lemma SyntheticNameSuffix(base: string, id: nat)
    ensures HasIdSuffix(SyntheticName(base, id), id)
  {
    var name := SyntheticName(base, id);
    var d := "_" + NatToString(id);
    assert name == base + d;
    assert name[|name| - |d|..] == d;
  }

  /** Registering a fresh name under the next id keeps the table valid. */
  lemma TableGrow(ids: map<string, nat>, names: seq<string>, name: string)
    requires SymbolTableValid(ids, names) && name !in ids
    requires IsUserName(name) || HasIdSuffix(name, |ids|)
    ensures SymbolTableValid(ids[name := |ids|], names + [name])
    ensures |ids[name := |ids|]| == |ids| + 1
  {
  }

  /** Every name registered in `before` keeps its id in `after`. */
  ghost predicate KeepsIds(before: map<string, nat>, after: map<string, nat>) {
    forall name :: name in before ==> name in after && after[name] == before[name]
  }

  lemma KeepsIdsTrans(a: map<string, nat>, b: map<string, nat>, c: map<string, nat>)
    requires KeepsIds(a, b) && KeepsIds(b, c)
    ensures KeepsIds(a, c)
  {
  }

  lemma SubsetSize<T>(a: set<T>, b: set<T>)
    requires a <= b
    ensures |a| <= |b|
    decreases |a|
  {
    if a != {} {
      var x :| x in a;
      SubsetSize(a - {x}, b - {x});
    }
  }

  /** A table that keeps every id of another is at least as large. */
  lemma KeepsIdsSize(before: map<string, nat>, after: map<string, nat>)
    requires KeepsIds(before, after)
    ensures |before| <= |after|
  {
    assert before.Keys <= after.Keys;
    SubsetSize(before.Keys, after.Keys);
  }

  /** `rules` grown with empty placeholders to length `n` (vector::resize). */
  function Pad(rules: seq<seq<Element>>, n: nat): (padded: seq<seq<Element>>)
    requires |rules| <= n
    ensures |padded| == n
    ensures forall k :: 0 <= k < |rules| ==> padded[k] == rules[k]
    ensures forall k :: |rules| <= k < n ==> padded[k] == []
    decreases n - |rules|
  {
    if |rules| == n then rules else Pad(rules + [[]], n)
  }

  /** `rules` with `n` slots at least: the resize of add_rule. A valid
      state never has more rules than ids, so there this is Pad. */
  function Grown(rules: seq<seq<Element>>, n: nat): (grown: seq<seq<Element>>)
    ensures rules <= grown && |grown| == if |rules| <= n then n else |rules|
  {
    if |rules| <= n then Pad(rules, n) else rules
  }

  lemma PadNoop(rules: seq<seq<Element>>)
    ensures Pad(rules, |rules|) == rules
  {
  }

  /** `rules` keeps every rule of `rules0` in place, except rule `id`. */
  ghost predicate KeepsRulesBut(rules0: seq<seq<Element>>, rules: seq<seq<Element>>, id: nat) {
    |rules0| <= |rules| && forall i :: 0 <= i < |rules0| && i != id ==> rules[i] == rules0[i]
  }

  /** Keeping every rule but one beyond the end of `rules0` keeps all of
      `rules0` as a prefix. */
  lemma KeepsRulesPrefix(rules0: seq<seq<Element>>, rules: seq<seq<Element>>, id: nat)
    requires KeepsRulesBut(rules0, rules, id) && |rules0| <= id
    ensures rules0 <= rules
  {
    assert rules[..|rules0|] == rules0;
  }

  lemma PrefixTrans(a: seq<seq<Element>>, b: seq<seq<Element>>, c: seq<seq<Element>>)
    requires a <= b && b <= c
    ensures a <= c
  {
    assert c[..|a|] == c[..|b|][..|a|];
  }

  lemma KeepsRulesAfterPrefix(a: seq<seq<Element>>, b: seq<seq<Element>>, c: seq<seq<Element>>, id: nat)
    requires a <= b && KeepsRulesBut(b, c, id)
    ensures KeepsRulesBut(a, c, id)
  {
    forall i | 0 <= i < |a| && i != id ensures c[i] == a[i] {
      assert b[..|a|][i] == b[i];
    }
  }

  /** Growing a table and appending rules keeps the old table as a prefix. */
  lemma PadPrefix(rules: seq<seq<Element>>, n: nat, extra: seq<seq<Element>>)
    requires |rules| <= n
    ensures rules <= Pad(rules, n) + extra
  {
    assert (Pad(rules, n) + extra)[..|rules|] == rules;
  }

  lemma RuleOkGrow(body: seq<Element>, n: nat, m: nat)
    requires RuleOk(body, n) && n <= m
    ensures RuleOk(body, m)
  {
  }

  /** The two tables of a parse state, as values. */
  datatype Tables = Tables(ids: map<string, nat>, rules: seq<seq<Element>>)

  /** parse_state. */
  class ParseState {
    var symbolIds: map<string, nat>
    var rules: seq<seq<Element>>
    /** The inverse of symbolIds: names[id] is the name registered for id. */
    ghost var names: seq<string>

    /** The table invariant kept by every step of the parser: a dense,
        injective symbol table, no rule slot beyond the registered ids, and
        every slot an empty placeholder or a well-formed body whose
        references stay below the number of registered ids. */
    ghost predicate Valid()
      reads this
    {
      && SymbolTableValid(symbolIds, names)
      && |rules| <= |symbolIds|
      && forall i :: 0 <= i < |rules| ==> RuleOk(rules[i], |symbolIds|)
    }

    /** The two tables as they stand. */
    function Snapshot(): Tables
      reads this
    {
      Tables(symbolIds, rules)
    }

    constructor ()
      ensures Valid()
      ensures symbolIds == map[] && rules == [] && names == []
    {
      symbolIds := map[];
      rules := [];
      names := [];
    }

    /** get_symbol_id: interning. A registered name keeps its id and the
        table is unchanged; a new name gets the old table size as its id
        and the table grows by exactly one entry. */
    method GetSymbolId(name: string) returns (id: nat)
      modifies this
      ensures rules == old(rules)
      ensures name in old(symbolIds) ==>
        id == old(symbolIds)[name] && symbolIds == old(symbolIds) && names == old(names)
      ensures name !in old(symbolIds) ==>
        && id == old(|symbolIds|)
        && symbolIds == old(symbolIds)[name := id]
        && |symbolIds| == old(|symbolIds|) + 1
        && names == old(names) + [name]
      ensures old(Valid()) && IsUserName(name) ==> Valid()
    {
      var nextId := |symbolIds|;
      if name in symbolIds {
        id := symbolIds[name];
      } else {
        symbolIds := symbolIds[name := nextId];
        names := names + [name];
        id := nextId;
      }
      if old(Valid()) && IsUserName(name) {
        forall i | 0 <= i < |rules| ensures RuleOk(rules[i], |symbolIds|) {
          RuleOkGrow(rules[i], old(|symbolIds|), |symbolIds|);
        }
      }
    }

    /** generate_symbol_id: registers `<base>_<size>` under id = the old
        table size, by assignment. In a valid table that name is always
        fresh, so the table stays a bijection and grows by one. */
    method GenerateSymbolId(baseName: string) returns (id: nat)
      modifies this
      ensures id == old(|symbolIds|)
      ensures symbolIds == old(symbolIds)[SyntheticName(baseName, id) := id]
      ensures rules == old(rules)
      ensures old(Valid()) ==>
        && Valid()
        && SyntheticName(baseName, id) !in old(symbolIds)
        && |symbolIds| == id + 1
        && names == old(names) + [SyntheticName(baseName, id)]
        && KeepsIds(old(symbolIds), symbolIds)
    {
      var nextId := |symbolIds|;
      var name := SyntheticName(baseName, nextId);
      names := if name in symbolIds then names else names + [name];
      symbolIds := symbolIds[name := nextId];
      id := nextId;
      if old(Valid()) {
        SyntheticNameFresh(old(symbolIds), old(names), baseName);
        SyntheticNameSuffix(baseName, id);
        TableGrow(old(symbolIds), old(names), name);
        forall i | 0 <= i < |rules| ensures RuleOk(rules[i], |symbolIds|) {
          RuleOkGrow(rules[i], old(|symbolIds|), |symbolIds|);
        }
      }
    }

    /** add_rule: grows the table with empty placeholders up to `ruleId`
        and overwrites that slot. */
    method AddRule(ruleId: nat, rule: seq<Element>)
      modifies this
      ensures |rules| == if old(|rules|) <= ruleId then ruleId + 1 else old(|rules|)
      ensures rules[ruleId] == rule
      ensures forall i :: 0 <= i < old(|rules|) && i != ruleId ==> rules[i] == old(rules)[i]
      ensures forall i :: old(|rules|) <= i < |rules| && i != ruleId ==> rules[i] == []
      ensures old(|rules|) <= ruleId ==> rules == Pad(old(rules), ruleId) + [rule]
      ensures ruleId < old(|rules|) ==> rules == old(rules)[ruleId := rule]
      ensures symbolIds == old(symbolIds) && names == old(names)
      ensures old(Valid()) && ruleId < |symbolIds| && RuleOk(rule, |symbolIds|) ==> Valid()
    {
      if |rules| <= ruleId {
        rules := Pad(rules, ruleId + 1);
      }
      rules := rules[ruleId := rule];
    }
  }
}

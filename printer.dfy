/** The grammar printer: print_rule and print_grammar render compiled rules
    back into GBNF-like text. The output stream becomes a returned string,
    and an error caught by print_grammar becomes a returned error next to
    the text written before it. */
module Printer {
  import opened GrammarTypes
  import opened Scanner
  import opened Symbols

  /** print_grammar_char: printable ASCII as itself, anything else as
      `<U+XXXX>`: upper-case hex digits spelling the code point, four of
      them, or more only when the value needs them (no leading zero). */
  function GrammarChar(c: nat): (s: string)
    ensures 0x20 <= c <= 0x7F ==> s == [c as char]
    ensures !(0x20 <= c <= 0x7F) ==>
      && |s| >= 8
      && s[..3] == "<U+" && s[|s| - 1] == '>'
      && AllHex(s[3..|s| - 1]) && |s[3..|s| - 1]| >= 4
      && HexValue(s[3..|s| - 1]) == c
      && (forall i :: 3 <= i < |s| - 1 ==> IsUpperHexDigit(s[i]))
      && (|s| > 8 ==> s[3] != '0')
  {
    if 0x20 <= c <= 0x7F then [c as char]
    else
      var digits := PadHex(c, 4);
      var s := "<U+" + digits + ">";
      assert s[3..|s| - 1] == digits;
      s
  }

  /** Text written so far, followed by the outcome of the rest. */
  function Join(text: string, rest: (string, Option<ParseError>)): (string, Option<ParseError>) {
    (text + rest.0, rest.1)
  }

  lemma JoinTwice(a: string, b: string, rest: (string, Option<ParseError>))
    ensures Join(a, Join(b, rest)) == Join(a + b, rest)
  {
    assert a + (b + rest.0) == a + b + rest.0;
  }

  /** The "] " that closes a character class after element `i` when the
      next element does not continue it. */
  function ClassClose(rule: seq<Element>, i: nat): string
    requires i + 1 < |rule|
  {
    if IsCharElement(rule[i]) && !IsContinuation(rule[i + 1]) then "] " else ""
  }

  /** What element `i` of a rule body is printed as, or the error raised
      before it is printed. */
  function ElementText(rule: seq<Element>, i: nat, ruleId: nat, names: map<nat, string>): (r: Result<string>)
    requires i + 1 < |rule|
    ensures r.Err? <==> !ElementPrintable(rule, i, names)
  {
    var e := rule[i];
    match e.kind
    case End => Err(UnexpectedEndOfRule(ruleId, i))
    case Alt => Ok("| ")
    case RuleRef => if e.value in names then Ok(names[e.value] + " ") else Err(MissingName(e.value))
    case Char => Ok("[" + GrammarChar(e.value))
    case CharNot => Ok("[^" + GrammarChar(e.value))
    case CharRngUpper =>
      if i == 0 || !IsCharElement(rule[i - 1]) then Err(RangeWithoutChar(ruleId, i))
      else Ok("-" + GrammarChar(e.value))
    case CharAlt =>
      if i == 0 || !IsCharElement(rule[i - 1]) then Err(AltWithoutChar(ruleId, i))
      else Ok(GrammarChar(e.value))
  }

  /** Element `i` can be printed: it is not END, a continuation follows a
      character element, and a reference has a name. */
  predicate ElementPrintable(rule: seq<Element>, i: nat, names: map<nat, string>)
    requires i < |rule|
  {
    rule[i].kind != End && ContinuationOk(rule, i) && (rule[i].kind == RuleRef ==> rule[i].value in names)
  }

  /** The text of elements i .. |rule| - 2 and the newline after them, up
      to the first element that raises an error. */
  function RenderFrom(rule: seq<Element>, i: nat, ruleId: nat, names: map<nat, string>): (string, Option<ParseError>)
    requires |rule| > 0
    decreases |rule| - i
  {
    if i + 1 >= |rule| then ("\n", None)
    else
      match ElementText(rule, i, ruleId, names)
      case Err(e) => ("", Some(e))
      case Ok(t) => Join(t + ClassClose(rule, i), RenderFrom(rule, i + 1, ruleId, names))
  }

  /** print_rule's output: `name ::= ` and the elements before the final
      END; a rule that does not end with END, or whose id has no name, is
      rejected before anything is written. */
  function RenderRule(ruleId: nat, rule: seq<Element>, names: map<nat, string>): (string, Option<ParseError>) {
    if rule == [] || rule[|rule| - 1].kind != End then ("", Some(MalformedRule(ruleId)))
    else if ruleId !in names then ("", Some(MissingName(ruleId)))
    else Join(names[ruleId] + " ::= ", RenderFrom(rule, 0, ruleId, names))
  }

  /** The switch of print_rule over one element (lines 468-513). */
  method PrintElement(rule: seq<Element>, i: nat, ruleId: nat, names: map<nat, string>)
      returns (r: Result<string>)
    requires i + 1 < |rule|
    ensures r == ElementText(rule, i, ruleId, names)
  {
    var elem := rule[i];
    match elem.kind {
      case End =>
        return Err(UnexpectedEndOfRule(ruleId, i));
      case Alt =>
        return Ok("| ");
      case RuleRef =>
        if elem.value !in names {
          return Err(MissingName(elem.value));
        }
        return Ok(names[elem.value] + " ");
      case Char =>
        return Ok("[" + GrammarChar(elem.value));
      case CharNot =>
        return Ok("[^" + GrammarChar(elem.value));
      case CharRngUpper =>
        if i == 0 || !IsCharElement(rule[i - 1]) {
          return Err(RangeWithoutChar(ruleId, i));
        }
        return Ok("-" + GrammarChar(elem.value));
      case CharAlt =>
        if i == 0 || !IsCharElement(rule[i - 1]) {
          return Err(AltWithoutChar(ruleId, i));
        }
        return Ok(GrammarChar(elem.value));
    }
  }

  /** print_rule (lines 456-516). */
  method PrintRule(ruleId: nat, rule: seq<Element>, names: map<nat, string>)
      returns (text: string, err: Option<ParseError>)
    ensures (text, err) == RenderRule(ruleId, rule, names)
  {
    if rule == [] || rule[|rule| - 1].kind != End {
      return "", Some(MalformedRule(ruleId));
    }
    if ruleId !in names {
      return "", Some(MissingName(ruleId));
    }
    text := names[ruleId] + " ::= ";
    var i := 0;
    while i < |rule| - 1
      invariant 0 <= i <= |rule| - 1
      invariant RenderRule(ruleId, rule, names) == Join(text, RenderFrom(rule, i, ruleId, names))
    {
      var piece := PrintElement(rule, i, ruleId, names);
      if piece.Err? {
        assert text + "" == text;
        return text, Some(piece.error);
      }
      var close := if IsCharElement(rule[i]) && !IsContinuation(rule[i + 1]) then "] " else "";
      JoinTwice(text, piece.value + close, RenderFrom(rule, i + 1, ruleId, names));
      text := text + (piece.value + close);
      i := i + 1;
    }
    text, err := text + "\n", None;
  }

  /** Every element from `i` on prints exactly when the rendering from `i`
      raises no error. */
  lemma {:induction false} RenderFromOk(rule: seq<Element>, i: nat, ruleId: nat, names: map<nat, string>)
    requires |rule| > 0
    ensures RenderFrom(rule, i, ruleId, names).1.None? <==>
      forall k :: i <= k < |rule| - 1 ==> ElementPrintable(rule, k, names)
    decreases |rule| - i
  {
    if i + 1 < |rule| {
      RenderFromOk(rule, i + 1, ruleId, names);
      RenderFromStep(rule, i, ruleId, names);
      assert (forall k :: i <= k < |rule| - 1 ==> ElementPrintable(rule, k, names)) <==>
        ElementPrintable(rule, i, names) && forall k :: i + 1 <= k < |rule| - 1 ==> ElementPrintable(rule, k, names);
    }
  }

  /** One element: the rendering from `i` is error-free exactly when
      element `i` prints and so does the rest. */
  lemma RenderFromStep(rule: seq<Element>, i: nat, ruleId: nat, names: map<nat, string>)
    requires i + 1 < |rule|
    ensures RenderFrom(rule, i, ruleId, names).1.None? <==>
      ElementPrintable(rule, i, names) && RenderFrom(rule, i + 1, ruleId, names).1.None?
  {
  }

  /** Every rule reference in `body` has a name. */
  predicate RefsNamed(body: seq<Element>, names: map<nat, string>) {
    forall k :: 0 <= k < |body| && body[k].kind == RuleRef ==> body[k].value in names
  }

  /** Every element before the final one prints exactly when they form a
      fragment whose references have names. */
  lemma PrintableIffFragment(rule: seq<Element>, names: map<nat, string>)
    requires |rule| > 0
    ensures (forall k :: 0 <= k < |rule| - 1 ==> ElementPrintable(rule, k, names)) <==>
      Fragment(rule[..|rule| - 1]) && RefsNamed(rule[..|rule| - 1], names)
  {
    var body := rule[..|rule| - 1];
    if forall k :: 0 <= k < |rule| - 1 ==> ElementPrintable(rule, k, names) {
      forall k | 0 <= k < |body| ensures body[k].kind != End && ContinuationOk(body, k) {
        assert ElementPrintable(rule, k, names);
        if k > 0 {
          assert body[k - 1] == rule[k - 1];
        }
      }
      forall k | 0 <= k < |body| && body[k].kind == RuleRef ensures body[k].value in names {
        assert ElementPrintable(rule, k, names);
      }
    }
    if Fragment(body) && RefsNamed(body, names) {
      forall k | 0 <= k < |rule| - 1 ensures ElementPrintable(rule, k, names) {
        assert body[k] == rule[k];
        assert body[k].kind != End && ContinuationOk(body, k);
        if k > 0 {
          assert body[k - 1] == rule[k - 1];
        }
      }
    }
  }

  /** print_rule succeeds exactly on a well-formed body whose rule and
      references all have names. */
  lemma RenderRuleOk(ruleId: nat, rule: seq<Element>, names: map<nat, string>)
    ensures RenderRule(ruleId, rule, names).1.None? <==>
      WellFormedBody(rule) && ruleId in names && RefsNamed(rule, names)
  {
    if rule != [] && rule[|rule| - 1].kind == End && ruleId in names {
      RenderFromOk(rule, 0, ruleId, names);
      PrintableIffFragment(rule, names);
      RefsNamedBody(rule, names);
    }
  }

  /** The final END is not a reference, so only the body matters. */
  lemma RefsNamedBody(rule: seq<Element>, names: map<nat, string>)
    requires rule != [] && rule[|rule| - 1].kind == End
    ensures RefsNamed(rule[..|rule| - 1], names) <==> RefsNamed(rule, names)
  {
    var body := rule[..|rule| - 1];
    assert forall k :: 0 <= k < |body| ==> body[k] == rule[k];
  }

  /* ---------------------------------------------------------------------
     print_grammar
     --------------------------------------------------------------------- */

  /** `names` inverts the symbol table: every id maps back to a name
      registered under it. */
  predicate InvertsTable(ids: map<string, nat>, names: map<nat, string>) {
    && (forall n :: n in ids ==> ids[n] in names)
    && (forall v :: v in names ==> names[v] in ids && ids[names[v]] == v)
  }

  /** The id-to-name map of a valid table. */
  function NamesMap(symbolNames: seq<string>): map<nat, string> {
    map v: nat | v < |symbolNames| :: symbolNames[v]
  }

  /** Building symbol_id_names (lines 520-523). */
  method InvertSymbols(ids: map<string, nat>) returns (names: map<nat, string>)
    ensures InvertsTable(ids, names)
  {
    names := map[];
    var rest := ids.Keys;
    while rest != {}
      invariant rest <= ids.Keys
      invariant forall n :: n in ids.Keys - rest ==> ids[n] in names
      invariant forall v :: v in names ==> names[v] in ids.Keys - rest && ids[names[v]] == v
      decreases |rest|
    {
      var n :| n in rest;
      names := names[ids[n] := n];
      rest := rest - {n};
    }
  }

  /** In a valid table the inverse is unique, whatever order the entries
      were visited in. */
  lemma InverseUnique(ids: map<string, nat>, symbolNames: seq<string>, names: map<nat, string>)
    requires SymbolTableValid(ids, symbolNames) && InvertsTable(ids, names)
    ensures names == NamesMap(symbolNames)
  {
    var m := NamesMap(symbolNames);
    forall v | v in names ensures v in m && m[v] == names[v] {
      assert symbolNames[ids[names[v]]] == names[v];
    }
    forall v | v in m ensures v in names {
      assert ids[symbolNames[v]] == v;
    }
  }

  /** The text of rules i .. |rules| - 1, stopping at the first rule that
      raises an error. */
  function RenderRules(rules: seq<seq<Element>>, names: map<nat, string>, i: nat): (string, Option<ParseError>)
    decreases |rules| - i
  {
    if i >= |rules| then ("", None)
    else
      var r := RenderRule(i, rules[i], names);
      if r.1.Some? then r else Join(r.0, RenderRules(rules, names, i + 1))
  }

  /** The rule loop of print_grammar (lines 524-529). */
  method PrintRules(rules: seq<seq<Element>>, names: map<nat, string>) returns (text: string, err: Option<ParseError>)
    ensures (text, err) == RenderRules(rules, names, 0)
  {
    text := "";
    assert text + RenderRules(rules, names, 0).0 == RenderRules(rules, names, 0).0;
    for i := 0 to |rules|
      invariant RenderRules(rules, names, 0) == Join(text, RenderRules(rules, names, i))
    {
      var t, e := PrintRule(i, rules[i], names);
      JoinTwice(text, t, RenderRules(rules, names, i + 1));
      text := text + t;
      if e.Some? {
        return text, e;
      }
    }
    assert text + "" == text;
    err := None;
  }

  /** print_grammar (lines 518-533). */
  method PrintGrammar(state: ParseState) returns (text: string, err: Option<ParseError>)
    ensures state.Valid() ==> (text, err) == RenderRules(state.rules, NamesMap(state.names), 0)
  {
    var names := InvertSymbols(state.symbolIds);
    if state.Valid() {
      InverseUnique(state.symbolIds, state.names, names);
    }
    text, err := PrintRules(state.rules, names);
  }

  /** Rendering from rule `i` raises no error exactly when every rule from
      `i` on prints. */
  lemma {:induction false} RenderRulesOk(rules: seq<seq<Element>>, names: map<nat, string>, i: nat)
    ensures RenderRules(rules, names, i).1.None? <==>
      forall k :: i <= k < |rules| ==> RenderRule(k, rules[k], names).1.None?
    decreases |rules| - i
  {
    if i < |rules| {
      RenderRulesOk(rules, names, i + 1);
      assert RenderRules(rules, names, i).1.None? <==>
        RenderRule(i, rules[i], names).1.None? && RenderRules(rules, names, i + 1).1.None?;
      assert (forall k :: i <= k < |rules| ==> RenderRule(k, rules[k], names).1.None?) <==>
        RenderRule(i, rules[i], names).1.None? &&
        forall k :: i + 1 <= k < |rules| ==> RenderRule(k, rules[k], names).1.None?;
    }
  }

  /** A grammar in a valid compiler state prints without error exactly when
      it has no empty rule slot. A slot stays empty when its id was
      registered by a reference that a later redefinition of the referring
      rule dropped, and a higher id was then defined; the definedness check
      of parse does not see it, but print_grammar stops there. */
  lemma PrintValidGrammar(ids: map<string, nat>, symbolNames: seq<string>, rules: seq<seq<Element>>)
    requires SymbolTableValid(ids, symbolNames)
    requires |rules| <= |ids| && forall i :: 0 <= i < |rules| ==> RuleOk(rules[i], |ids|)
    ensures RenderRules(rules, NamesMap(symbolNames), 0).1.None? <==>
      forall i :: 0 <= i < |rules| ==> rules[i] != []
  {
    var names := NamesMap(symbolNames);
    RenderRulesOk(rules, names, 0);
    forall k | 0 <= k < |rules|
      ensures RenderRule(k, rules[k], names).1.None? <==> rules[k] != []
    {
      RenderRuleOk(k, rules[k], names);
      assert RuleOk(rules[k], |ids|);
    }
  }
}

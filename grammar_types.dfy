/** Compiled grammar elements, the error kinds of the compiler, and the
    structural predicates that every compiled rule body satisfies. */
module GrammarTypes {

  /** The terminator of the C string the compiler scans. */
  const NUL: char := '\0'

  /** The grammar text as the compiler sees it: a NUL-terminated string of
      bytes. Every scanner reads at most up to the first NUL, so only the
      final one matters for bounds. */
  predicate IsCString(src: seq<char>) {
    && |src| > 0
    && src[|src| - 1] == NUL
    && forall i :: 0 <= i < |src| ==> src[i] as int < 256
  }

  /** The kinds of a compiled element (llama_gretype). */
  datatype ElementType = End | Alt | RuleRef | Char | CharNot | CharRngUpper | CharAlt

  /** One compiled element: a kind and a code point or rule id. */
  datatype Element = Element(kind: ElementType, value: nat)

  /** The error kinds the compiler can raise, one per throw site. */
  datatype ParseError =
    | ExpectedName
    | ExpectedInteger
    | UnknownEscape
    | UnexpectedEnd
    | MalformedEscape
    | UnbalancedGroup
    | DanglingQuantifier
    | ExpectedIntOrComma
    | ExpectedComma
    | ExpectedCloseBrace
    | InvertedBounds
    | ExpectedDefinition
    | ExpectedNewline
    | UndefinedRule(name: string)
    | MalformedRule(ruleId: nat)
    | UnexpectedEndOfRule(ruleId: nat, index: nat)
    | RangeWithoutChar(ruleId: nat, index: nat)
    | AltWithoutChar(ruleId: nat, index: nat)
    | MissingName(id: nat)

  /** An exception-free stand-in for the thrown runtime errors. */
  datatype Result<T> = Ok(value: T) | Err(error: ParseError) {
    predicate IsFailure() { Err? }
    function PropagateFailure<U>(): Result<U> requires Err? { Err(error) }
    function Extract(): T requires Ok? { value }
  }

  datatype Option<T> = None | Some(value: T)

  function Ref(id: nat): Element { Element(RuleRef, id) }
  const AltElement: Element := Element(Alt, 0)
  const EndElement: Element := Element(End, 0)

  /** is_char_element: the four kinds that make up a character class. */
  predicate IsCharElement(e: Element) {
    e.kind == Char || e.kind == CharNot || e.kind == CharAlt || e.kind == CharRngUpper
  }

  /** Kinds that continue the character class opened just before them. */
  predicate IsContinuation(e: Element) {
    e.kind == CharAlt || e.kind == CharRngUpper
  }

  /** A continuation element must directly follow a character element. */
  predicate ContinuationOk(s: seq<Element>, i: nat)
    requires i < |s|
  {
    IsContinuation(s[i]) ==> i > 0 && IsCharElement(s[i - 1])
  }

  /** A rule body under construction: no terminator yet, and every
      continuation element attached to a character element. */
  predicate Fragment(s: seq<Element>) {
    forall i :: 0 <= i < |s| ==> s[i].kind != End && ContinuationOk(s, i)
  }

  /** A complete rule body: a fragment closed by exactly one END. */
  predicate WellFormedBody(body: seq<Element>) {
    |body| > 0 && body[|body| - 1].kind == End && Fragment(body[..|body| - 1])
  }

  /** Every rule reference in `s` names an id below `n`. */
  predicate RefsBelow(s: seq<Element>, n: nat) {
    forall i :: 0 <= i < |s| && s[i].kind == RuleRef ==> s[i].value < n
  }

  /** What a rule-table slot may hold: an empty placeholder or a
      well-formed body, referring only to registered ids. */
  predicate RuleOk(body: seq<Element>, n: nat) {
    RefsBelow(body, n) && (body == [] || WellFormedBody(body))
  }

  /** Every rule reference in the table targets a defined (non-empty) rule. */
  predicate Closed(rules: seq<seq<Element>>) {
    forall i, j :: 0 <= i < |rules| && 0 <= j < |rules[i]| && rules[i][j].kind == RuleRef ==>
      rules[i][j].value < |rules| && rules[rules[i][j].value] != []
  }

  function Repeat<T>(x: T, n: nat): (s: seq<T>)
    ensures |s| == n && forall i :: 0 <= i < n ==> s[i] == x
  {
    if n == 0 then [] else [x] + Repeat(x, n - 1)
  }

  lemma FragmentPrefix(s: seq<Element>, k: nat)
    requires Fragment(s) && k <= |s|
    ensures Fragment(s[..k])
  {
    forall i | 0 <= i < k ensures s[..k][i].kind != End && ContinuationOk(s[..k], i) {
      assert ContinuationOk(s, i);
    }
  }

  lemma FragmentAppend(s: seq<Element>, t: seq<Element>)
    requires Fragment(s) && Fragment(t)
    requires |t| > 0 ==> !IsContinuation(t[0])
    ensures Fragment(s + t)
  {
    var u := s + t;
    forall i | 0 <= i < |u| ensures u[i].kind != End && ContinuationOk(u, i) {
      if i < |s| {
        assert ContinuationOk(s, i);
      } else {
        assert ContinuationOk(t, i - |s|);
      }
    }
  }

  lemma FragmentClose(s: seq<Element>)
    requires Fragment(s)
    ensures WellFormedBody(s + [EndElement])
  {
    assert (s + [EndElement])[..|s|] == s;
  }

  lemma FragmentSuffix(s: seq<Element>, k: nat)
    requires Fragment(s) && k <= |s|
    requires k < |s| ==> !IsContinuation(s[k])
    ensures Fragment(s[k..])
  {
    forall i | 0 <= i < |s| - k ensures s[k..][i].kind != End && ContinuationOk(s[k..], i) {
      assert ContinuationOk(s, k + i);
    }
  }

  /** Replacing the tail of a fragment from `k` on by one rule reference
      keeps it a fragment. */
  lemma ReplaceTail(s: seq<Element>, k: nat, id: nat, n: nat, m: nat)
    requires Fragment(s) && RefsBelow(s, n) && k <= |s| && n <= m && id < m
    ensures Fragment(s[..k] + [Ref(id)]) && RefsBelow(s[..k] + [Ref(id)], m)
  {
    FragmentPrefix(s, k);
    FragmentAppend(s[..k], [Ref(id)]);
    var t := s[..k] + [Ref(id)];
    forall i | 0 <= i < |t| && t[i].kind == RuleRef ensures t[i].value < m {
      if i < k {
        assert t[i] == s[i];
      }
    }
  }

  lemma ConcatAssoc<T>(a: seq<T>, b: seq<T>, c: seq<T>)
    ensures a + b + c == a + (b + c)
  {
  }
}

/** The scanners for the terms of a sequence that need no symbol table:
    quoted literals, character classes and the `{m,n}` quantifier. */
module Terms {
  import opened GrammarTypes
  import opened Scanner

  /** Elements `acc` emitted before a scan whose own outcome is `r`. */
  function Prepend(acc: seq<Element>, r: Result<(seq<Element>, nat)>): Result<(seq<Element>, nat)> {
    if r.Ok? then Ok((acc + r.value.0, r.value.1)) else r
  }

  lemma PrependTwice(a: seq<Element>, b: seq<Element>, r: Result<(seq<Element>, nat)>)
    ensures Prepend(a, Prepend(b, r)) == Prepend(a + b, r)
  {
    if r.Ok? {
      assert a + (b + r.value.0) == a + b + r.value.0;
    }
  }

  lemma PrependNil(acc: seq<Element>, r: Result<(seq<Element>, nat)>, p: nat)
    ensures Prepend([], r) == r
    ensures Prepend(acc, Ok(([], p))) == Ok((acc, p))
  {
    if r.Ok? {
      assert [] + r.value.0 == r.value.0;
    }
    assert acc + [] == acc;
  }

  /* ---------------------------------------------------------------------
     Literals
     --------------------------------------------------------------------- */

  /** The body of a `"..."` literal starting at `p`: one CHAR per character
      up to the closing quote, and the position of that quote. A missing
      closing quote reaches the terminator, where parse_char fails. */
  function LiteralSpec(src: seq<char>, p: nat): (r: Result<(seq<Element>, nat)>)
    requires IsCString(src) && p < |src|
    ensures r.Ok? ==> p <= r.value.1 && r.value.1 + 1 < |src| && src[r.value.1] == '"'
    ensures r.Ok? ==> forall i :: 0 <= i < |r.value.0| ==> r.value.0[i].kind == Char
    ensures r.Err? ==> r.error == UnknownEscape || r.error == MalformedEscape || r.error == UnexpectedEnd
    decreases |src| - p
  {
    if src[p] == '"' then Ok(([], p))
    else
      var c :- CharSpec(src, p);
      Prepend([Element(Char, c.0)], LiteralSpec(src, c.1))
  }

  /** The loop of parse_sequence over a literal's characters (lines 237-243). */
  method ParseLiteral(src: seq<char>, p: nat) returns (r: Result<(seq<Element>, nat)>)
    requires IsCString(src) && p < |src|
    ensures r == LiteralSpec(src, p)
  {
    var elems: seq<Element> := [];
    var pos := p;
    PrependNil(elems, LiteralSpec(src, pos), pos);
    while src[pos] != '"'
      invariant p <= pos < |src|
      invariant LiteralSpec(src, p) == Prepend(elems, LiteralSpec(src, pos))
      decreases |src| - pos
    {
      var c := ParseChar(src, pos);
      if c.Err? {
        return Err(c.error);
      }
      PrependTwice(elems, [Element(Char, c.value.0)], LiteralSpec(src, c.value.1));
      elems := elems + [Element(Char, c.value.0)];
      pos := c.value.1;
    }
    PrependNil(elems, LiteralSpec(src, pos), pos);
    return Ok((elems, pos));
  }

  /** The CHAR elements of plain text, one per character. */
  function Chars(s: seq<char>): (elems: seq<Element>)
    ensures |elems| == |s|
    ensures forall i :: 0 <= i < |s| ==> elems[i] == Element(Char, s[i] as nat)
  {
    seq(|s|, i requires 0 <= i < |s| => Element(Char, s[i] as nat))
  }

  /** A character that stands for itself inside a literal. */
  predicate IsPlainLiteralChar(c: char) {
    0 < c as int < 0x80 && c != '"' && c != '\\'
  }

  /** A literal of plain ASCII text, at p .. e - 1, compiles to one CHAR
      per character and stops at the closing quote at `e`. */
  lemma {:induction false} PlainLiteral(src: seq<char>, p: nat, e: nat)
    requires IsCString(src) && p <= e < |src|
    requires forall i :: p <= i < e ==> IsPlainLiteralChar(src[i])
    requires src[e] == '"'
    ensures LiteralSpec(src, p) == Ok((Chars(src[p..e]), e))
    decreases e - p
  {
    if p == e {
      assert src[p..e] == [];
    } else {
      PlainLiteralStep(src, p);
      PlainLiteral(src, p + 1, e);
      CharsCons(src, p, e);
    }
  }

  lemma CharsCons(src: seq<char>, p: nat, e: nat)
    requires p < e <= |src|
    ensures Chars(src[p..e]) == [Element(Char, src[p] as nat)] + Chars(src[p + 1..e])
  {
    var a := Chars(src[p..e]);
    var b := [Element(Char, src[p] as nat)] + Chars(src[p + 1..e]);
    assert |a| == |b|;
    forall i | 0 <= i < |a| ensures a[i] == b[i] {
      if i > 0 {
        assert src[p + 1..e][i - 1] == src[p..e][i];
      }
    }
  }

  /** A plain character is one CHAR element, and the literal goes on
      right after it. */
  lemma PlainLiteralStep(src: seq<char>, p: nat)
    requires IsCString(src) && p < |src| && IsPlainLiteralChar(src[p])
    ensures p + 1 < |src|
    ensures LiteralSpec(src, p) == Prepend([Element(Char, src[p] as nat)], LiteralSpec(src, p + 1))
  {
    assert CharSpec(src, p) == Ok((src[p] as nat, p + 1));
  }

  /* ---------------------------------------------------------------------
     Character classes
     --------------------------------------------------------------------- */

  /** Element `i` (not the first) of a compiled class continues it: a
      CHAR_ALT, or a CHAR_RNG_UPPER that does not follow another upper bound. */
  predicate ClassContinues(elems: seq<Element>, i: nat)
    requires 0 < i < |elems|
  {
    elems[i].kind == CharAlt || (elems[i].kind == CharRngUpper && elems[i - 1].kind != CharRngUpper)
  }

  /** The shape of a compiled class: the first element has kind `first`
      and every later one continues the class. */
  predicate ClassBody(elems: seq<Element>, first: ElementType) {
    && (|elems| > 0 ==> elems[0].kind == first)
    && forall i :: 0 < i < |elems| ==> ClassContinues(elems, i)
  }

  /** Putting one class member (a character, or a character and its upper
      bound) in front of the rest of the class keeps the shape. */
  lemma ClassBodyCons(member: seq<Element>, rest: seq<Element>, kind: ElementType)
    requires kind != CharRngUpper && 1 <= |member| <= 2 && member[0].kind == kind
    requires |member| == 2 ==> member[1].kind == CharRngUpper
    requires ClassBody(rest, CharAlt)
    ensures ClassBody(member + rest, kind)
  {
    var u := member + rest;
    forall i | 0 < i < |u| ensures ClassContinues(u, i) {
      if i >= |member| && i - |member| > 0 {
        assert ClassContinues(rest, i - |member|);
        assert u[i] == rest[i - |member|] && u[i - 1] == rest[i - |member| - 1];
      }
    }
  }

  /** One member of a class at `p`: a character of kind `kind`, followed by
      a CHAR_RNG_UPPER bound when the character is followed by `-` and the
      `-` is not the last thing before `]`. */
  function ClassMember(src: seq<char>, p: nat, kind: ElementType): (r: Result<(seq<Element>, nat)>)
    requires IsCString(src) && p < |src|
    ensures r.Ok? ==> p < r.value.1 < |src|
    ensures r.Ok? ==> 1 <= |r.value.0| <= 2 && r.value.0[0] == Element(kind, r.value.0[0].value)
    ensures r.Ok? && |r.value.0| == 2 ==> r.value.0[1].kind == CharRngUpper
    ensures r.Err? ==> r.error == UnknownEscape || r.error == MalformedEscape || r.error == UnexpectedEnd
  {
    var c :- CharSpec(src, p);
    var q := c.1;
    if src[q] == '-' && src[q + 1] != ']' then
      var e :- CharSpec(src, q + 1);
      Ok(([Element(kind, c.0), Element(CharRngUpper, e.0)], e.1))
    else
      Ok(([Element(kind, c.0)], q))
  }

  /** The members of a class starting at `p` (after `[` and any `^`): the
      first member has kind `startKind` when `first` and CHAR_ALT otherwise.
      The scan ends at the closing `]`. */
  function ClassSpec(src: seq<char>, p: nat, startKind: ElementType, first: bool): (r: Result<(seq<Element>, nat)>)
    requires IsCString(src) && p < |src|
    requires startKind == Char || startKind == CharNot
    ensures r.Ok? ==> p <= r.value.1 && r.value.1 + 1 < |src| && src[r.value.1] == ']'
    ensures r.Ok? ==> ClassBody(r.value.0, if first then startKind else CharAlt)
    ensures r.Err? ==> r.error == UnknownEscape || r.error == MalformedEscape || r.error == UnexpectedEnd
    decreases |src| - p
  {
    if src[p] == ']' then Ok(([], p))
    else
      var kind := if first then startKind else CharAlt;
      var m :- ClassMember(src, p, kind);
      var rest := ClassSpec(src, m.1, startKind, false);
      if rest.Err? then rest
      else
        ClassBodyCons(m.0, rest.value.0, kind);
        Prepend(m.0, rest)
  }

  /** One member of a class: lines 254-264. */
  method ParseClassMember(src: seq<char>, p: nat, kind: ElementType) returns (r: Result<(seq<Element>, nat)>)
    requires IsCString(src) && p < |src|
    ensures r == ClassMember(src, p, kind)
  {
    var c := ParseChar(src, p);
    if c.Err? {
      return Err(c.error);
    }
    var pos := c.value.1;
    if src[pos] == '-' && src[pos + 1] != ']' {
      var e := ParseChar(src, pos + 1);
      if e.Err? {
        return Err(e.error);
      }
      return Ok(([Element(kind, c.value.0), Element(CharRngUpper, e.value.0)], e.value.1));
    }
    return Ok(([Element(kind, c.value.0)], pos));
  }

  /** A whole class from just after `[`: a leading `^` makes the first
      member CHAR_NOT, otherwise it is CHAR. */
  function ClassTerm(src: seq<char>, p: nat): (r: Result<(seq<Element>, nat)>)
    requires IsCString(src) && p < |src|
    ensures r.Ok? ==> p <= r.value.1 && r.value.1 + 1 < |src| && src[r.value.1] == ']'
    ensures r.Ok? ==> ClassBody(r.value.0, if src[p] == '^' then CharNot else Char)
  {
    if src[p] == '^' then ClassSpec(src, p + 1, CharNot, true) else ClassSpec(src, p, Char, true)
  }

  /** The class loop of parse_sequence (lines 245-266), from just after `[`. */
  method ParseCharClass(src: seq<char>, p: nat) returns (r: Result<(seq<Element>, nat)>)
    requires IsCString(src) && p < |src|
    ensures r == ClassTerm(src, p)
  {
    var pos := p;
    var startKind := Char;
    if src[pos] == '^' {
      pos := pos + 1;
      startKind := CharNot;
    }
    ghost var p0 := pos;
    var elems: seq<Element> := [];
    PrependNil(elems, ClassSpec(src, pos, startKind, true), pos);
    while src[pos] != ']'
      invariant p0 <= pos < |src|
      invariant ClassSpec(src, p0, startKind, true) == Prepend(elems, ClassSpec(src, pos, startKind, elems == []))
      decreases |src| - pos
    {
      var kind := if elems == [] then startKind else CharAlt;
      var m := ParseClassMember(src, pos, kind);
      if m.Err? {
        return Err(m.error);
      }
      PrependTwice(elems, m.value.0, ClassSpec(src, m.value.1, startKind, false));
      elems := elems + m.value.0;
      pos := m.value.1;
    }
    PrependNil(elems, ClassSpec(src, pos, startKind, elems == []), pos);
    return Ok((elems, pos));
  }

  /** A compiled class is a fragment of character elements: every
      continuation follows a character element. */
  lemma ClassFragment(elems: seq<Element>, startKind: ElementType)
    requires startKind == Char || startKind == CharNot
    requires ClassBody(elems, startKind)
    ensures Fragment(elems) && RefsBelow(elems, 0)
    ensures forall i :: 0 <= i < |elems| ==> IsCharElement(elems[i])
    ensures |elems| > 0 ==> !IsContinuation(elems[0])
  {
    forall i | 0 <= i < |elems|
      ensures IsCharElement(elems[i]) && elems[i].kind != End && ContinuationOk(elems, i)
    {
      if i > 0 {
        assert ClassContinues(elems, i);
        if i > 1 {
          assert ClassContinues(elems, i - 1);
        }
      }
    }
  }

  /** A character that stands for itself inside a class. */
  predicate IsPlainClassChar(c: char) {
    0 < c as int < 0x80 && c != ']' && c != '\\'
  }

  /** The elements of a class whose members are the plain characters `s`:
      the first member has kind `kind` and later ones CHAR_ALT, and a `-`
      with a character after it (not the closing bracket) makes a range
      whose upper bound is that character. */
  function PlainClassElems(s: seq<char>, kind: ElementType): seq<Element>
    decreases |s|
  {
    if s == [] then []
    else if |s| >= 3 && s[1] == '-' then
      [Element(kind, s[0] as nat), Element(CharRngUpper, s[2] as nat)] + PlainClassElems(s[3..], CharAlt)
    else
      [Element(kind, s[0] as nat)] + PlainClassElems(s[1..], CharAlt)
  }

  /** A class of plain characters at p .. e - 1, closed by `]` at `e`,
      compiles to `PlainClassElems` of its text. */
  lemma {:induction false} PlainClass(src: seq<char>, p: nat, e: nat, startKind: ElementType, first: bool)
    requires IsCString(src) && p <= e < |src|
    requires startKind == Char || startKind == CharNot
    requires forall i :: p <= i < e ==> IsPlainClassChar(src[i])
    requires src[e] == ']'
    ensures ClassSpec(src, p, startKind, first)
         == Ok((PlainClassElems(src[p..e], if first then startKind else CharAlt), e))
    decreases e - p
  {
    var kind := if first then startKind else CharAlt;
    if p == e {
      assert src[p..e] == [];
    } else if p + 2 < e && src[p + 1] == '-' {
      PlainRangeStep(src, p, startKind, first);
      PlainClass(src, p + 3, e, startKind, false);
      PlainClassElemsRange(src, p, e, kind);
    } else {
      PlainMemberStep(src, p, startKind, first);
      PlainClass(src, p + 1, e, startKind, false);
      PlainClassElemsSingle(src, p, e, kind);
    }
  }

  /** A plain character, `-` and a plain upper bound make one range member. */
  lemma PlainRangeStep(src: seq<char>, p: nat, startKind: ElementType, first: bool)
    requires startKind == Char || startKind == CharNot
    requires IsCString(src) && p + 2 < |src|
    requires IsPlainClassChar(src[p]) && src[p + 1] == '-' && IsPlainClassChar(src[p + 2])
    ensures p + 3 < |src|
    ensures ClassSpec(src, p, startKind, first)
         == Prepend([Element(if first then startKind else CharAlt, src[p] as nat), Element(CharRngUpper, src[p + 2] as nat)],
                    ClassSpec(src, p + 3, startKind, false))
  {
    var kind := if first then startKind else CharAlt;
    PlainRange(src, p, kind);
    assert src[p] != ']';
  }

  lemma PlainRange(src: seq<char>, p: nat, kind: ElementType)
    requires IsCString(src) && p + 2 < |src|
    requires IsPlainClassChar(src[p]) && src[p + 1] == '-' && IsPlainClassChar(src[p + 2])
    ensures p + 3 < |src|
    ensures ClassMember(src, p, kind)
         == Ok(([Element(kind, src[p] as nat), Element(CharRngUpper, src[p + 2] as nat)], p + 3))
  {
    assert CharSpec(src, p) == Ok((src[p] as nat, p + 1));
    assert CharSpec(src, p + 2) == Ok((src[p + 2] as nat, p + 3));
  }

  /** A plain character not starting a range is a member on its own. */
  lemma PlainMemberStep(src: seq<char>, p: nat, startKind: ElementType, first: bool)
    requires startKind == Char || startKind == CharNot
    requires IsCString(src) && p + 1 < |src| && IsPlainClassChar(src[p])
    requires src[p + 1] == '-' ==> src[p + 2] == ']'
    ensures ClassSpec(src, p, startKind, first)
         == Prepend([Element(if first then startKind else CharAlt, src[p] as nat)], ClassSpec(src, p + 1, startKind, false))
  {
    PlainMember(src, p, if first then startKind else CharAlt);
  }

  lemma PlainMember(src: seq<char>, p: nat, kind: ElementType)
    requires IsCString(src) && p + 1 < |src| && IsPlainClassChar(src[p])
    requires src[p + 1] == '-' ==> src[p + 2] == ']'
    ensures ClassMember(src, p, kind) == Ok(([Element(kind, src[p] as nat)], p + 1))
  {
    assert CharSpec(src, p) == Ok((src[p] as nat, p + 1));
  }

  lemma PlainClassElemsRange(src: seq<char>, p: nat, e: nat, kind: ElementType)
    requires p + 2 < e <= |src| && src[p + 1] == '-'
    ensures PlainClassElems(src[p..e], kind)
         == [Element(kind, src[p] as nat), Element(CharRngUpper, src[p + 2] as nat)] + PlainClassElems(src[p + 3..e], CharAlt)
  {
    assert src[p..e][3..] == src[p + 3..e];
  }

  lemma PlainClassElemsSingle(src: seq<char>, p: nat, e: nat, kind: ElementType)
    requires p < e <= |src| && !(p + 2 < e && src[p + 1] == '-')
    ensures PlainClassElems(src[p..e], kind) == [Element(kind, src[p] as nat)] + PlainClassElems(src[p + 1..e], CharAlt)
  {
    assert src[p..e][1..] == src[p + 1..e];
  }

  /** A whole class of plain characters, from just after `[`: `[abc]`
      compiles to CHAR a, CHAR_ALT b, CHAR_ALT c; `[^a-c]` to CHAR_NOT a,
      CHAR_RNG_UPPER c; and `[a-]` to CHAR a, CHAR_ALT `-`. */
  lemma PlainClassTerm(src: seq<char>, p: nat, e: nat)
    requires IsCString(src) && p <= e < |src|
    requires forall i :: p <= i < e ==> IsPlainClassChar(src[i])
    requires src[e] == ']'
    ensures var b := if src[p] == '^' then p + 1 else p;
      ClassTerm(src, p) == Ok((PlainClassElems(src[b..e], if src[p] == '^' then CharNot else Char), e))
  {
    if src[p] == '^' {
      PlainClass(src, p + 1, e, CharNot, true);
    } else {
      PlainClass(src, p, e, Char, true);
    }
  }

  /* ---------------------------------------------------------------------
     The {m,n} quantifier
     --------------------------------------------------------------------- */

  /** The end of the run of decimal digits at `p`. */
  function DigitEnd(src: seq<char>, p: nat): (q: nat)
    requires IsCString(src) && p < |src|
    ensures p <= q < |src| && !IsDigitChar(src[q])
    ensures forall i :: p <= i < q ==> IsDigitChar(src[i])
    decreases |src| - p
  {
    if IsDigitChar(src[p]) then DigitEnd(src, p + 1) else p
  }

  /** The end of a digit run is the first non-digit: any position with only
      digits before it and a non-digit at it is DigitEnd. */
  lemma {:induction false} DigitEndUnique(src: seq<char>, p: nat, q: nat)
    requires IsCString(src) && p <= q < |src|
    requires forall i :: p <= i < q ==> IsDigitChar(src[i])
    requires !IsDigitChar(src[q])
    ensures DigitEnd(src, p) == q
    decreases q - p
  {
    if p < q {
      DigitEndUnique(src, p + 1, q);
    }
  }

  /** The number spelled by the digit run at `p`, and the position after
      the blanks that follow it. */
  function NumberAt(src: seq<char>, p: nat, newlineOk: bool): (nat, nat)
    requires IsCString(src) && p < |src|
  {
    var e := DigitEnd(src, p);
    (DecimalValue(src[p..e]), SkipSpace(src, e, newlineOk))
  }

  /** The bounds of a `{...}` quantifier whose body starts at `p` (just
      after `{`), and the position after the closing `}` and the blanks that
      follow. A maximum of -1 means unbounded: `{m}` is (m, m), `{m,}` is
      (m, -1), `{,n}` is (0, n) and `{m,n}` is (m, n). */
  function BracesSpec(src: seq<char>, p: nat, newlineOk: bool): (r: Result<(nat, int, nat)>)
    requires IsCString(src) && p < |src|
    ensures r.Ok? ==> p < r.value.2 < |src| && r.value.1 >= -1
    ensures r.Err? ==> r.error == ExpectedIntOrComma || r.error == ExpectedComma || r.error == ExpectedCloseBrace
  {
    var q := SkipSpace(src, p, newlineOk);
    if IsDigitChar(src[q]) then
      var (minTimes, q1) := NumberAt(src, q, newlineOk);
      BracesAfterMin(src, q1, minTimes, newlineOk)
    else if src[q] == ',' then BracesAfterMin(src, q, 0, newlineOk)
    else Err(ExpectedIntOrComma)
  }

  /** The optional maximum after the comma of a quantifier, at `q`: a
      number, or -1 (unbounded) when no digit follows. */
  function MaxAt(src: seq<char>, q: nat, newlineOk: bool): (r: (int, nat))
    requires IsCString(src) && q < |src|
    ensures q <= r.1 < |src| && r.0 >= -1
    ensures r.0 == -1 <==> !IsDigitChar(src[q])
  {
    if IsDigitChar(src[q]) then
      var (n, e) := NumberAt(src, q, newlineOk);
      (n as int, e)
    else (-1, q)
  }

  /** The rest of a quantifier once its minimum is known, from `q`: either
      `}` (an exact count) or `,` and an optional maximum before `}`. */
  function BracesAfterMin(src: seq<char>, q: nat, minTimes: nat, newlineOk: bool): (r: Result<(nat, int, nat)>)
    requires IsCString(src) && q < |src|
    ensures r.Ok? ==> q < r.value.2 < |src| && r.value.1 >= -1 && r.value.0 == minTimes
    ensures r.Ok? && src[q] == '}' ==> r.value.1 == minTimes
    ensures r.Err? ==> r.error == ExpectedComma || r.error == ExpectedCloseBrace
  {
    if src[q] == '}' then Ok((minTimes, minTimes as int, SkipSpace(src, q + 1, newlineOk)))
    else if src[q] == ',' then UpperBound(src, SkipSpace(src, q + 1, newlineOk), minTimes, newlineOk)
    else Err(ExpectedComma)
  }

  /** The optional maximum at `q`, after the comma and its blanks, and the
      closing brace that must follow it. */
  function UpperBound(src: seq<char>, q: nat, minTimes: nat, newlineOk: bool): (r: Result<(nat, int, nat)>)
    requires IsCString(src) && q < |src|
    ensures r.Ok? ==> q < r.value.2 < |src| && r.value.1 >= -1 && r.value.0 == minTimes
    ensures r.Ok? ==> (r.value.1 == -1 <==> !IsDigitChar(src[q]))
    ensures r.Err? ==> r.error == ExpectedCloseBrace
  {
    var (maxTimes, q3) := MaxAt(src, q, newlineOk);
    if src[q3] != '}' then Err(ExpectedCloseBrace)
    else Ok((minTimes, maxTimes, SkipSpace(src, q3 + 1, newlineOk)))
  }

  /** Positions p .. e - 1 hold decimal digits. */
  predicate DigitRun(src: seq<char>, p: nat, e: nat) {
    p <= e <= |src| && forall i :: p <= i < e ==> IsDigitChar(src[i])
  }

  /** The number spelled by the digits at p .. e - 1. */
  function RunValue(src: seq<char>, p: nat, e: nat): nat
    requires DigitRun(src, p, e)
  {
    assert AllDigits(src[p..e]) by {
      assert forall i :: 0 <= i < e - p ==> src[p..e][i] == src[p + i];
    }
    DecimalValue(src[p..e])
  }

  /** Blanks are skipped only where they are. */
  lemma NoSpace(src: seq<char>, q: nat, newlineOk: bool)
    requires IsCString(src) && q < |src| && !IsSpaceStart(src[q], newlineOk)
    ensures SkipSpace(src, q, newlineOk) == q
  {
  }

  /** A run of digits up to `e`, which is not a digit, is read back as its
      value, stopping after the blanks that follow it. */
  lemma NumberAtRun(src: seq<char>, p: nat, e: nat, newlineOk: bool)
    requires IsCString(src) && p < e < |src| && DigitRun(src, p, e) && !IsDigitChar(src[e])
    ensures NumberAt(src, p, newlineOk) == (RunValue(src, p, e), SkipSpace(src, e, newlineOk))
  {
    DigitEndUnique(src, p, e);
  }

  /** A minimum whose digits run from `q`, the first non-blank after `{`,
      up to `e` is read as their value, and the rest of the quantifier is
      taken after the blanks that follow it. */
  lemma SpecAfterDigits(src: seq<char>, p: nat, q: nat, e: nat, newlineOk: bool)
    requires IsCString(src) && p < |src| && q == SkipSpace(src, p, newlineOk)
    requires q < e < |src| && DigitRun(src, q, e) && !IsDigitChar(src[e])
    ensures BracesSpec(src, p, newlineOk)
         == BracesAfterMin(src, SkipSpace(src, e, newlineOk), RunValue(src, q, e), newlineOk)
  {
    assert IsDigitChar(src[q]);
    NumberAtRun(src, q, e, newlineOk);
  }

  /** A comma directly followed by a non-blank hands over to the maximum. */
  lemma AfterMinComma(src: seq<char>, c: nat, minTimes: nat, newlineOk: bool)
    requires IsCString(src) && c + 1 < |src| && src[c] == ','
    requires !IsSpaceStart(src[c + 1], newlineOk)
    ensures BracesAfterMin(src, c, minTimes, newlineOk) == UpperBound(src, c + 1, minTimes, newlineOk)
  {
    NoSpace(src, c + 1, newlineOk);
  }

  /** `n }` after the comma, digits from `q` up to `e`, reads as the
      maximum n and ends after the blanks that follow `}`. */
  lemma UpperRun(src: seq<char>, q: nat, e: nat, minTimes: nat, newlineOk: bool)
    requires IsCString(src) && q < e < |src| && DigitRun(src, q, e) && !IsDigitChar(src[e])
    requires src[SkipSpace(src, e, newlineOk)] == '}'
    ensures UpperBound(src, q, minTimes, newlineOk)
         == Ok((minTimes, RunValue(src, q, e) as int, SkipSpace(src, SkipSpace(src, e, newlineOk) + 1, newlineOk)))
  {
    assert IsDigitChar(src[q]);
    NumberAtRun(src, q, e, newlineOk);
  }

  /** `{ m }`, digits from `q`, the first non-blank after `{`, up to `e`,
      reads as the bounds (m, m) and ends after the blanks that follow `}`. */
  lemma BracesExact(src: seq<char>, p: nat, q: nat, e: nat, newlineOk: bool)
    requires IsCString(src) && p < |src| && q == SkipSpace(src, p, newlineOk)
    requires q < e < |src| && DigitRun(src, q, e) && !IsDigitChar(src[e])
    requires src[SkipSpace(src, e, newlineOk)] == '}'
    ensures BracesSpec(src, p, newlineOk)
         == Ok((RunValue(src, q, e), RunValue(src, q, e) as int, SkipSpace(src, SkipSpace(src, e, newlineOk) + 1, newlineOk)))
  {
    SpecAfterDigits(src, p, q, e, newlineOk);
  }

  /** A comma directly followed by `}`: no upper bound. */
  lemma UpperNone(src: seq<char>, q: nat, minTimes: nat, newlineOk: bool)
    requires IsCString(src) && q < |src| && src[q] == '}'
    ensures UpperBound(src, q, minTimes, newlineOk) == Ok((minTimes, -1, SkipSpace(src, q + 1, newlineOk)))
  {
  }

  /** Reads one integer of a `{...}` quantifier and the blanks after it. */
  method ParseNumber(src: seq<char>, p: nat, newlineOk: bool) returns (n: nat, pos: nat)
    requires IsCString(src) && p < |src| && IsDigitChar(src[p])
    ensures (n, pos) == NumberAt(src, p, newlineOk)
  {
    var intEnd := ParseInt(src, p);
    DigitEndUnique(src, p, intEnd.value);
    n := DecimalValue(src[p..intEnd.value]);
    pos := ParseSpace(src, intEnd.value, newlineOk);
  }

  /** The `{` branch of parse_sequence (lines 296-326), from just after `{`. */
  method ParseBraces(src: seq<char>, p: nat, newlineOk: bool) returns (r: Result<(nat, int, nat)>)
    requires IsCString(src) && p < |src|
    ensures r == BracesSpec(src, p, newlineOk)
  {
    var pos := ParseSpace(src, p, newlineOk);
    var minTimes: nat := 0;
    if IsDigitChar(src[pos]) {
      minTimes, pos := ParseNumber(src, pos, newlineOk);
    } else if src[pos] != ',' {
      return Err(ExpectedIntOrComma);
    }
    r := ParseBoundsTail(src, pos, minTimes, newlineOk);
  }

  /** Lines 310-325: the closing brace, or a comma and an optional maximum. */
  method ParseBoundsTail(src: seq<char>, q: nat, minTimes: nat, newlineOk: bool) returns (r: Result<(nat, int, nat)>)
    requires IsCString(src) && q < |src|
    ensures r == BracesAfterMin(src, q, minTimes, newlineOk)
  {
    if src[q] == '}' {
      var pos := ParseSpace(src, q + 1, newlineOk);
      return Ok((minTimes, minTimes as int, pos));
    } else if src[q] != ',' {
      return Err(ExpectedComma);
    }
    var afterComma := ParseSpace(src, q + 1, newlineOk);
    r := ParseUpper(src, afterComma, minTimes, newlineOk);
  }

  /** Lines 312-324: the optional maximum and the closing brace. */
  method ParseUpper(src: seq<char>, q: nat, minTimes: nat, newlineOk: bool) returns (r: Result<(nat, int, nat)>)
    requires IsCString(src) && q < |src|
    ensures r == UpperBound(src, q, minTimes, newlineOk)
  {
    var maxTimes, pos := ParseMax(src, q, newlineOk);
    if src[pos] != '}' {
      return Err(ExpectedCloseBrace);
    }
    pos := ParseSpace(src, pos + 1, newlineOk);
    return Ok((minTimes, maxTimes, pos));
  }

  /** Lines 313-317: the optional maximum after the comma. */
  method ParseMax(src: seq<char>, q: nat, newlineOk: bool) returns (maxTimes: int, pos: nat)
    requires IsCString(src) && q < |src|
    ensures (maxTimes, pos) == MaxAt(src, q, newlineOk)
  {
    if IsDigitChar(src[q]) {
      var n;
      n, pos := ParseNumber(src, q, newlineOk);
      maxTimes := n;
    } else {
      maxTimes, pos := -1, q;
    }
  }

  /* ---------------------------------------------------------------------
     Quantifiers
     --------------------------------------------------------------------- */

  /** The characters that open a quantifier. */
  predicate IsQuantifierChar(c: char) {
    c == '*' || c == '+' || c == '?' || c == '{'
  }

  /** The bounds a quantifier at `p` stands for, and the position after it
      and the blanks that follow. A maximum of -1 means unbounded. */
  function QuantifierBounds(src: seq<char>, p: nat, newlineOk: bool): (r: Result<(nat, int, nat)>)
    requires IsCString(src) && p < |src| && IsQuantifierChar(src[p])
    ensures r.Ok? ==> p < r.value.2 < |src| && r.value.1 >= -1
    ensures src[p] != '{' ==> r.Ok?
  {
    if src[p] == '{' then BracesSpec(src, p + 1, newlineOk)
    else
      var minTimes: nat := if src[p] == '+' then 1 else 0;
      var maxTimes := if src[p] == '?' then 1 else -1;
      Ok((minTimes, maxTimes, SkipSpace(src, p + 1, newlineOk)))
  }

  /** The quantifier branches of parse_sequence up to handle_repetitions
      (lines 287-322). */
  method ParseQuantifierBounds(src: seq<char>, p: nat, newlineOk: bool) returns (r: Result<(nat, int, nat)>)
    requires IsCString(src) && p < |src| && IsQuantifierChar(src[p])
    ensures r == QuantifierBounds(src, p, newlineOk)
  {
    var c := src[p];
    if c == '{' {
      r := ParseBraces(src, p + 1, newlineOk);
    } else {
      var next := ParseSpace(src, p + 1, newlineOk);
      var minTimes: nat := if c == '+' then 1 else 0;
      var maxTimes := if c == '?' then 1 else -1;
      r := Ok((minTimes, maxTimes, next));
    }
  }

  /** `*` stands for zero or more, `+` for one or more and `?` for zero or
      one (-1 meaning unbounded); each moves past the symbol and the
      blanks after it. */
  lemma ShorthandBounds(src: seq<char>, p: nat, newlineOk: bool)
    requires IsCString(src) && p < |src| && (src[p] == '*' || src[p] == '+' || src[p] == '?')
    ensures var r := QuantifierBounds(src, p, newlineOk);
      && (src[p] == '*' ==> r == Ok((0, -1, SkipSpace(src, p + 1, newlineOk))))
      && (src[p] == '+' ==> r == Ok((1, -1, SkipSpace(src, p + 1, newlineOk))))
      && (src[p] == '?' ==> r == Ok((0, 1, SkipSpace(src, p + 1, newlineOk))))
  {
  }

  /** The braces a shorthand quantifier abbreviates: `*` is `{0,}`, `+` is
      `{1,}` and `?` is `{0,1}`. */
  function ShorthandBraces(c: char): string
    requires c == '*' || c == '+' || c == '?'
  {
    if c == '*' then "{0,}" else if c == '+' then "{1,}" else "{0,1}"
  }

  /** A single digit spells its own value. */
  lemma OneDigit(src: seq<char>, q: nat)
    requires q < |src| && IsDigitChar(src[q])
    ensures DigitRun(src, q, q + 1) && RunValue(src, q, q + 1) == src[q] as int - '0' as int
  {
    var s := src[q..q + 1];
    assert s == [src[q]] && s[..0] == [];
    assert AllDigits(s);
    assert DecimalValue(s) == DecimalValue(s[..0]) * 10 + (s[0] as int - '0' as int);
  }

  /** A single-digit maximum directly followed by `}`. */
  lemma UpperOneDigit(src: seq<char>, q: nat, minTimes: nat, newlineOk: bool)
    requires IsCString(src) && q + 1 < |src| && IsDigitChar(src[q]) && src[q + 1] == '}'
    ensures UpperBound(src, q, minTimes, newlineOk)
         == Ok((minTimes, src[q] as int - '0' as int, SkipSpace(src, q + 2, newlineOk)))
  {
    OneDigit(src, q);
    NumberAtRun(src, q, q + 1, newlineOk);
    NoSpace(src, q + 1, newlineOk);
  }

  /** A quantifier opening with `{` is read by BracesSpec. */
  lemma QuantifierBraces(src: seq<char>, p: nat, newlineOk: bool)
    requires IsCString(src) && p < |src| && src[p] == '{'
    ensures QuantifierBounds(src, p, newlineOk) == BracesSpec(src, p + 1, newlineOk)
  {
  }

  /** `,}` after the minimum: no upper bound. */
  lemma CommaClose(src: seq<char>, q: nat, minTimes: nat, newlineOk: bool)
    requires IsCString(src) && q + 1 < |src| && src[q] == ',' && src[q + 1] == '}'
    ensures BracesAfterMin(src, q, minTimes, newlineOk) == Ok((minTimes, -1, SkipSpace(src, q + 2, newlineOk)))
  {
    AfterMinComma(src, q, minTimes, newlineOk);
    UpperNone(src, q + 1, minTimes, newlineOk);
  }

  /** `{d,}` for a single digit d, at `p`. */
  lemma BracesOneDigitOpen(src: seq<char>, p: nat, newlineOk: bool)
    requires IsCString(src) && p + 3 < |src| && src[p] == '{'
    requires IsDigitChar(src[p + 1]) && src[p + 2] == ',' && src[p + 3] == '}'
    ensures DigitRun(src, p + 1, p + 2)
    ensures BracesSpec(src, p + 1, newlineOk) == Ok((RunValue(src, p + 1, p + 2), -1, SkipSpace(src, p + 4, newlineOk)))
  {
    assert DigitRun(src, p + 1, p + 2);
    NoSpace(src, p + 1, newlineOk);
    NoSpace(src, p + 2, newlineOk);
    SpecAfterDigits(src, p + 1, p + 1, p + 2, newlineOk);
    CommaClose(src, p + 2, RunValue(src, p + 1, p + 2), newlineOk);
  }

  /** `,d}` after the minimum, for a single digit d: the upper bound d. */
  lemma CommaDigitClose(src: seq<char>, q: nat, minTimes: nat, newlineOk: bool)
    requires IsCString(src) && q + 2 < |src| && src[q] == ','
    requires IsDigitChar(src[q + 1]) && src[q + 2] == '}'
    ensures DigitRun(src, q + 1, q + 2)
    ensures BracesAfterMin(src, q, minTimes, newlineOk)
         == Ok((minTimes, RunValue(src, q + 1, q + 2) as int, SkipSpace(src, q + 3, newlineOk)))
  {
    assert DigitRun(src, q + 1, q + 2);
    AfterMinComma(src, q, minTimes, newlineOk);
    NumberAtRun(src, q + 1, q + 2, newlineOk);
    NoSpace(src, q + 2, newlineOk);
  }

  /** `{d,e}` for single digits d and e, at `p`. */
  lemma BracesOneDigitPair(src: seq<char>, p: nat, newlineOk: bool)
    requires IsCString(src) && p + 4 < |src| && src[p] == '{'
    requires IsDigitChar(src[p + 1]) && src[p + 2] == ',' && IsDigitChar(src[p + 3]) && src[p + 4] == '}'
    ensures DigitRun(src, p + 1, p + 2) && DigitRun(src, p + 3, p + 4)
    ensures BracesSpec(src, p + 1, newlineOk)
         == Ok((RunValue(src, p + 1, p + 2), RunValue(src, p + 3, p + 4) as int, SkipSpace(src, p + 5, newlineOk)))
  {
    assert DigitRun(src, p + 1, p + 2);
    NoSpace(src, p + 1, newlineOk);
    NoSpace(src, p + 2, newlineOk);
    SpecAfterDigits(src, p + 1, p + 1, p + 2, newlineOk);
    CommaDigitClose(src, p + 2, RunValue(src, p + 1, p + 2), newlineOk);
  }

  /** `{d,}` written out at `p`, for d == 0 or d == 1. */
  lemma OpenBracesAt(long: seq<char>, p: nat, d: nat, newlineOk: bool)
    requires d <= 1 && IsCString(long) && p + 4 < |long|
    requires long[p..p + 4] == ['{', (d + '0' as int) as char, ',', '}']
    ensures long[p] == '{'
    ensures BracesSpec(long, p + 1, newlineOk) == Ok((d, -1, SkipSpace(long, p + 4, newlineOk)))
  {
    var w := long[p..p + 4];
    assert long[p] == w[0] && long[p + 1] == w[1] && long[p + 2] == w[2] && long[p + 3] == w[3];
    OneDigit(long, p + 1);
    BracesOneDigitOpen(long, p, newlineOk);
  }

  /** `{0,1}` written out at `p`. */
  lemma OptionalBracesAt(long: seq<char>, p: nat, newlineOk: bool)
    requires IsCString(long) && p + 5 < |long| && long[p..p + 5] == "{0,1}"
    ensures long[p] == '{'
    ensures BracesSpec(long, p + 1, newlineOk) == Ok((0, 1, SkipSpace(long, p + 5, newlineOk)))
  {
    var w := long[p..p + 5];
    assert long[p] == w[0] && long[p + 1] == w[1] && long[p + 2] == w[2] && long[p + 3] == w[3];
    assert long[p + 4] == w[4];
    OneDigit(long, p + 1);
    OneDigit(long, p + 3);
    BracesOneDigitPair(long, p, newlineOk);
  }

  /** A shorthand quantifier at `p` in `src`, and the braces it
      abbreviates written at `q` in `long`, stand for the same bounds. */
  lemma ShorthandAsBraces(src: seq<char>, p: nat, long: seq<char>, q: nat, newlineOk: bool)
    requires IsCString(src) && p < |src| && (src[p] == '*' || src[p] == '+' || src[p] == '?')
    requires IsCString(long) && q + |ShorthandBraces(src[p])| < |long|
    requires long[q..q + |ShorthandBraces(src[p])|] == ShorthandBraces(src[p])
    ensures long[q] == '{'
    ensures QuantifierBounds(long, q, newlineOk).Ok?
    ensures QuantifierBounds(long, q, newlineOk).value.0 == QuantifierBounds(src, p, newlineOk).value.0
    ensures QuantifierBounds(long, q, newlineOk).value.1 == QuantifierBounds(src, p, newlineOk).value.1
    ensures QuantifierBounds(long, q, newlineOk).value.2
         == SkipSpace(long, q + |ShorthandBraces(src[p])|, newlineOk)
  {
    var w := ShorthandBraces(src[p]);
    if src[p] == '?' {
      OptionalShorthandAt(long, q, w, newlineOk);
    } else {
      OpenShorthandAt(long, q, w, if src[p] == '+' then 1 else 0, newlineOk);
    }
  }

  /** `{0,}` or `{1,}` as `w`, written at `q`: at least `lo`, no maximum. */
  lemma OpenShorthandAt(long: seq<char>, q: nat, w: string, lo: nat, newlineOk: bool)
    requires lo <= 1 && w == ['{', (lo + '0' as int) as char, ',', '}']
    requires IsCString(long) && q + |w| < |long| && long[q..q + |w|] == w
    ensures long[q] == '{'
    ensures QuantifierBounds(long, q, newlineOk) == Ok((lo, -1, SkipSpace(long, q + |w|, newlineOk)))
  {
    OpenBracesAt(long, q, lo, newlineOk);
    QuantifierBraces(long, q, newlineOk);
  }

  /** `{0,1}` as `w`, written at `q`: at most once. */
  lemma OptionalShorthandAt(long: seq<char>, q: nat, w: string, newlineOk: bool)
    requires w == "{0,1}"
    requires IsCString(long) && q + |w| < |long| && long[q..q + |w|] == w
    ensures long[q] == '{'
    ensures QuantifierBounds(long, q, newlineOk) == Ok((0, 1, SkipSpace(long, q + |w|, newlineOk)))
  {
    OptionalBracesAt(long, q, newlineOk);
    QuantifierBraces(long, q, newlineOk);
  }
}

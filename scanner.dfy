/** The character-level scanners of the grammar compiler. Each scanner
    works on a NUL-terminated byte string and a position in it, and is a
    loop (as in the source) proved equal to a specification function or
    against a direct statement of what it consumes. */
module Scanner {
  import opened GrammarTypes

  predicate IsDigitChar(c: char) {
    '0' <= c <= '9'
  }

  /** Characters allowed in a rule name: letters, digits and '-'. */
  predicate IsWordChar(c: char) {
    ('a' <= c <= 'z') || ('A' <= c <= 'Z') || c == '-' || IsDigitChar(c)
  }

  predicate IsNewline(c: char) {
    c == '\r' || c == '\n'
  }

  /* ---------------------------------------------------------------------
     UTF-8 decoding
     --------------------------------------------------------------------- */

  /** Sequence length announced by a lead byte, looked up by its top nibble. */
  function Utf8Length(lead: nat): (n: nat)
    requires lead < 256
    ensures 1 <= n <= 4
    ensures lead < 0x80 ==> n == 1
    ensures lead >= 0xF0 ==> n == 4
  {
    var lookup := [1, 1, 1, 1, 1, 1, 1, 1, 1, 1, 1, 1, 2, 2, 3, 4];
    var high := lead / 16;
    assert forall k :: 0 <= k < 16 ==> 1 <= lookup[k] <= 4;
    assert high < 8 ==> lookup[high] == 1;
    lookup[high]
  }

  /** The payload bits of a lead byte: `lead & ((1 << (8 - len)) - 1)`. */
  function LeadBits(lead: nat, len: nat): nat
    requires 1 <= len <= 4
  {
    lead % [128, 64, 32, 16][len - 1]
  }

  /** Where the continuation bytes stop: at `end`, or earlier at a NUL. */
  function ContinuationEnd(src: seq<char>, p: nat, end: nat): (q: nat)
    requires IsCString(src) && p < |src|
    ensures p <= q < |src|
    ensures q <= end || q == p
    ensures forall i :: p <= i < q ==> src[i] != NUL
    ensures q < end ==> src[q] == NUL
    decreases end - p
  {
    if p < end && src[p] != NUL then ContinuationEnd(src, p + 1, end) else p
  }

  /** Folds continuation bytes into a code point, six bits each. */
  function Accumulate(v: nat, bytes: seq<char>): nat {
    if bytes == [] then v
    else Accumulate(v, bytes[..|bytes| - 1]) * 64 + (bytes[|bytes| - 1] as int) % 64
  }

  /** The code point and the next position that decoding the character at
      `pos` yields. The bytes are not validated; a NUL ends the character
      early, so decoding never moves past the terminator. */
  function Utf8Decode(src: seq<char>, pos: nat): (r: (nat, nat))
    requires IsCString(src) && pos < |src| && src[pos] != NUL
    ensures var len := Utf8Length(src[pos] as int);
      && pos < r.1 <= pos + len
      && r.1 < |src|
      && (forall i :: pos < i < r.1 ==> src[i] != NUL)
      && (r.1 < pos + len ==> src[r.1] == NUL)
    ensures src[pos] as int < 0x80 ==> r == (src[pos] as int, pos + 1)
  {
    var lead := src[pos] as int;
    var len := Utf8Length(lead);
    var next := ContinuationEnd(src, pos + 1, pos + len);
    (Accumulate(LeadBits(lead, len), src[pos + 1..next]), next)
  }

  /** One more continuation byte folds six more bits in. */
  lemma AccumulateStep(v: nat, src: seq<char>, a: nat, b: nat)
    requires a <= b < |src|
    ensures Accumulate(v, src[a..b + 1]) == Accumulate(v, src[a..b]) * 64 + (src[b] as int) % 64
  {
    assert src[a..b + 1][..b - a] == src[a..b];
  }

  /** decode_utf8: the lookup, the mask and the continuation loop. */
  method DecodeUtf8(src: seq<char>, pos: nat) returns (value: nat, next: nat)
    requires IsCString(src) && pos < |src| && src[pos] != NUL
    ensures (value, next) == Utf8Decode(src, pos)
  {
    var first := src[pos] as int;
    var len := Utf8Length(first);
    value := LeadBits(first, len);
    var end := pos + len;
    next := pos + 1;
    while next < end && src[next] != NUL
      invariant pos + 1 <= next < |src|
      invariant ContinuationEnd(src, next, end) == ContinuationEnd(src, pos + 1, end)
      invariant value == Accumulate(LeadBits(first, len), src[pos + 1..next])
      decreases end - next
    {
      AccumulateStep(LeadBits(first, len), src, pos + 1, next);
      value := value * 64 + (src[next] as int) % 64;
      next := next + 1;
    }
  }

  /** The UTF-8 encoding of a code point (RFC 3629, section 3): a reference
      definition against which the decoder is checked. */
  function EncodeUtf8(cp: nat): (s: seq<char>)
    requires cp < 0x110000
    ensures 1 <= |s| <= 4
  {
    if cp < 0x80 then [cp as char]
    else if cp < 0x800 then [(0xC0 + cp / 64) as char, (0x80 + cp % 64) as char]
    else if cp < 0x10000 then
      [(0xE0 + cp / 4096) as char, (0x80 + cp / 64 % 64) as char, (0x80 + cp % 64) as char]
    else
      [(0xF0 + cp / 262144) as char, (0x80 + cp / 4096 % 64) as char,
       (0x80 + cp / 64 % 64) as char, (0x80 + cp % 64) as char]
  }

  /** Decoding the encoding of any non-NUL code point gives it back and
      consumes exactly its bytes, whatever follows. */
  lemma DecodeEncode(cp: nat, rest: seq<char>)
    requires 0 < cp < 0x110000
    requires IsCString(EncodeUtf8(cp) + rest)
    ensures Utf8Decode(EncodeUtf8(cp) + rest, 0) == (cp, |EncodeUtf8(cp)|)
  {
    var e := EncodeUtf8(cp);
    var src := e + rest;
    var n := |e|;
    assert src[..n] == e;
    assert Utf8Length(src[0] as int) == n;
    assert ContinuationEnd(src, 1, n) == n by {
      if n >= 2 { assert src[1] != NUL; }
      if n >= 3 { assert src[2] != NUL; }
      if n >= 4 { assert src[3] != NUL; }
    }
    assert src[1..n] == e[1..];
    if n == 1 {
      assert e[1..] == [];
    } else if n == 2 {
      AccumulateTwo(cp);
    } else if n == 3 {
      AccumulateThree(cp);
    } else {
      AccumulateFour(cp);
    }
  }

  lemma AccumulateTwo(cp: nat)
    requires 0x80 <= cp < 0x800
    ensures Accumulate(LeadBits(0xC0 + cp / 64, 2), [(0x80 + cp % 64) as char]) == cp
  {
    var s := [(0x80 + cp % 64) as char];
    assert s[..0] == [];
  }

  lemma AccumulateThree(cp: nat)
    requires 0x800 <= cp < 0x10000
    ensures Accumulate(LeadBits(0xE0 + cp / 4096, 3),
                       [(0x80 + cp / 64 % 64) as char, (0x80 + cp % 64) as char]) == cp
  {
    var s := [(0x80 + cp / 64 % 64) as char, (0x80 + cp % 64) as char];
    var bits := LeadBits(0xE0 + cp / 4096, 3);
    assert bits == cp / 4096;
    assert s[..1] == [s[0]] && s[..1][..0] == [];
    assert Accumulate(bits, s[..1]) == bits * 64 + cp / 64 % 64;
    assert cp / 64 == (cp / 4096) * 64 + cp / 64 % 64;
  }

  lemma AccumulateFour(cp: nat)
    requires 0x10000 <= cp < 0x110000
    ensures Accumulate(LeadBits(0xF0 + cp / 262144, 4),
                       [(0x80 + cp / 4096 % 64) as char, (0x80 + cp / 64 % 64) as char,
                        (0x80 + cp % 64) as char]) == cp
  {
    var s := [(0x80 + cp / 4096 % 64) as char, (0x80 + cp / 64 % 64) as char, (0x80 + cp % 64) as char];
    var bits := LeadBits(0xF0 + cp / 262144, 4);
    assert bits == cp / 262144;
    assert s[..2] == [s[0], s[1]] && s[..2][..1] == [s[0]] && s[..2][..1][..0] == [];
    assert Accumulate(bits, s[..2][..1]) == cp / 4096 by {
      assert cp / 4096 == (cp / 262144) * 64 + cp / 4096 % 64;
    }
    assert Accumulate(bits, s[..2]) == cp / 64 by {
      assert cp / 64 == (cp / 4096) * 64 + cp / 64 % 64;
    }
  }

  /* ---------------------------------------------------------------------
     Hexadecimal digits
     --------------------------------------------------------------------- */

  predicate IsHexDigit(c: char) {
    ('a' <= c <= 'f') || ('A' <= c <= 'F') || ('0' <= c <= '9')
  }

  predicate AllHex(s: seq<char>) {
    forall i :: 0 <= i < |s| ==> IsHexDigit(s[i])
  }

  function HexDigitValue(c: char): (d: nat)
    requires IsHexDigit(c)
    ensures d < 16
  {
    if 'a' <= c <= 'f' then c as int - 'a' as int + 10
    else if 'A' <= c <= 'F' then c as int - 'A' as int + 10
    else c as int - '0' as int
  }

  /** The base-16 number a run of hex digits spells. */
  function HexValue(s: seq<char>): nat
    requires AllHex(s)
  {
    if s == [] then 0 else HexValue(s[..|s| - 1]) * 16 + HexDigitValue(s[|s| - 1])
  }

  const U32: nat := 0x1_0000_0000

  /** The `n` characters at `pos` are all hex digits. */
  predicate HexRun(src: seq<char>, pos: nat, n: nat) {
    pos + n <= |src| && AllHex(src[pos..pos + n])
  }

  /** What parse_hex yields: the 32-bit value of exactly `n` hex digits and
      the position after them, or a malformed-escape error. */
  function HexEscape(src: seq<char>, pos: nat, n: nat): (r: Result<(nat, nat)>)
    requires IsCString(src) && pos < |src|
    ensures r.Ok? ==> r.value.1 == pos + n && r.value.1 < |src|
  {
    if HexRun(src, pos, n) then
      assert n > 0 ==> src[pos..pos + n][n - 1] == src[pos + n - 1];
      Ok((HexValue(src[pos..pos + n]) % U32, pos + n))
    else Err(MalformedEscape)
  }

  lemma ShiftAddMod(h: nat, d: nat)
    requires d < 16
    ensures ((h % U32) * 16 % U32 + d) % U32 == (h * 16 + d) % U32
  {
    var r := h % U32;
    var q := h / U32;
    assert h * 16 + d == (r * 16 + d) + (q * 16) * U32;
    var r16 := r * 16;
    assert r16 == r16 % U32 + (r16 / U32) * U32;
    assert r * 16 + d == (r16 % U32 + d) + (r16 / U32) * U32;
  }

  /** One more hex digit extends the run and its value. */
  lemma HexStep(src: seq<char>, pos: nat, p: nat)
    requires pos <= p < |src| && AllHex(src[pos..p]) && IsHexDigit(src[p])
    ensures AllHex(src[pos..p + 1])
    ensures HexValue(src[pos..p + 1]) == HexValue(src[pos..p]) * 16 + HexDigitValue(src[p])
  {
    assert src[pos..p + 1][..p - pos] == src[pos..p];
  }

  /** parse_hex: reads exactly `size` hex digits (either case). It succeeds
      exactly when they are all there; the value is their base-16 number
      (in 32 bits) and the position advances by exactly `size`. */
  method ParseHex(src: seq<char>, pos: nat, size: nat) returns (r: Result<(nat, nat)>)
    requires IsCString(src) && pos < |src|
    ensures r == HexEscape(src, pos, size)
    ensures r.Ok? <==> HexRun(src, pos, size)
    ensures r.Ok? ==> r.value == (HexValue(src[pos..pos + size]) % U32, pos + size)
    ensures r.Err? ==> r.error == MalformedEscape
  {
    var p := pos;
    var end := pos + size;
    var value := 0;
    while p < end && src[p] != NUL
      invariant pos <= p <= end && p < |src|
      invariant AllHex(src[pos..p])
      invariant value == HexValue(src[pos..p]) % U32
      decreases end - p
    {
      var c := src[p];
      if !IsHexDigit(c) {
        break;
      }
      HexStep(src, pos, p);
      ShiftAddMod(HexValue(src[pos..p]), HexDigitValue(c));
      value := value * 16 % U32;
      value := (value + HexDigitValue(c)) % U32;
      p := p + 1;
    }
    if p != end {
      assert !IsHexDigit(src[p]);
      if end <= |src| {
        assert src[pos..end][p - pos] == src[p];
      }
      return Err(MalformedEscape);
    }
    return Ok((value, p));
  }

  /** Up to eight hex digits always fit in the 32-bit accumulator, so the
      wrap-around of parse_hex never shows for the \x, \u and \U escapes. */
  lemma {:induction false} HexValueFits(s: seq<char>)
    requires AllHex(s) && |s| <= 8
    ensures HexValue(s) < U32
  {
    HexValueBound(s);
    var p := Pow16(|s|);
    if |s| < 8 { Pow16Monotone(|s|, 8); }
    assert Pow16(8) == U32;
  }

  function Pow16(k: nat): nat {
    if k == 0 then 1 else 16 * Pow16(k - 1)
  }

  lemma {:induction false} Pow16Monotone(a: nat, b: nat)
    requires a <= b
    ensures Pow16(a) <= Pow16(b)
    decreases b - a
  {
    if a < b { Pow16Monotone(a, b - 1); }
  }

  lemma {:induction false} HexValueBound(s: seq<char>)
    requires AllHex(s)
    ensures HexValue(s) < Pow16(|s|)
  {
    if s != [] {
      HexValueBound(s[..|s| - 1]);
    }
  }

  predicate IsUpperHexDigit(c: char) {
    ('0' <= c <= '9') || ('A' <= c <= 'F')
  }

  function HexDigitChar(d: nat): (c: char)
    requires d < 16
    ensures IsHexDigit(c) && IsUpperHexDigit(c) && HexDigitValue(c) == d
  {
    if d < 10 then ('0' as int + d) as char else ('A' as int + d - 10) as char
  }

  /** The shortest upper-case hex spelling of `n` ("0" for zero). */
  function HexDigits(n: nat): (s: seq<char>)
    ensures |s| >= 1 && AllHex(s) && HexValue(s) == n
    ensures forall i :: 0 <= i < |s| ==> IsUpperHexDigit(s[i])
    ensures |s| > 1 ==> s[0] != '0'
  {
    if n < 16 then
      [HexDigitChar(n)]
    else
      var hi := HexDigits(n / 16);
      var s := hi + [HexDigitChar(n % 16)];
      assert s[..|s| - 1] == hi;
      s
  }

  lemma {:induction false} HexValueLeadingZeros(z: nat, s: seq<char>)
    requires AllHex(s)
    ensures AllHex(Repeat('0', z) + s)
    ensures HexValue(Repeat('0', z) + s) == HexValue(s)
    decreases |s|, z
  {
    var t := Repeat('0', z) + s;
    assert forall i :: 0 <= i < |t| ==> IsHexDigit(t[i]) by {
      forall i | 0 <= i < |t| ensures IsHexDigit(t[i]) {
        if i >= z { assert t[i] == s[i - z]; }
      }
    }
    if s == [] {
      assert t == Repeat('0', z);
      if z > 0 {
        assert t[..|t| - 1] == Repeat('0', z - 1);
        HexValueLeadingZeros(z - 1, []);
        assert Repeat('0', z - 1) + [] == Repeat('0', z - 1);
      }
    } else {
      assert t[..|t| - 1] == Repeat('0', z) + s[..|s| - 1];
      HexValueLeadingZeros(z, s[..|s| - 1]);
    }
  }

  /** printf's "%0<width>X": upper-case hex, zero-padded to `width`. */
  function PadHex(n: nat, width: nat): (s: seq<char>)
    ensures |s| >= width && AllHex(s) && HexValue(s) == n
    ensures forall i :: 0 <= i < |s| ==> IsUpperHexDigit(s[i])
    ensures |s| > width ==> s == HexDigits(n)
  {
    var d := HexDigits(n);
    if |d| >= width then d
    else
      HexValueLeadingZeros(width - |d|, d);
      var s := Repeat('0', width - |d|) + d;
      assert forall i :: 0 <= i < |s| ==> IsUpperHexDigit(s[i]) by {
        forall i | 0 <= i < |s| ensures IsUpperHexDigit(s[i]) {
          if i >= width - |d| { assert s[i] == d[i - (width - |d|)]; }
        }
      }
      s
  }

  /* ---------------------------------------------------------------------
     Blanks and comments
     --------------------------------------------------------------------- */

  /** Characters at which parse_space keeps going. */
  predicate IsSpaceStart(c: char, newlineOk: bool) {
    c == ' ' || c == '\t' || c == '#' || (newlineOk && IsNewline(c))
  }

  /** The end of a `#` comment: the next line break or the terminator. */
  function CommentEnd(src: seq<char>, p: nat): (q: nat)
    requires IsCString(src) && p < |src|
    ensures p <= q < |src| && (src[q] == NUL || IsNewline(src[q]))
    ensures forall i :: p <= i < q ==> src[i] != NUL && !IsNewline(src[i])
    decreases |src| - p
  {
    if src[p] != NUL && !IsNewline(src[p]) then CommentEnd(src, p + 1) else p
  }

  /** The comment loop of parse_space (lines 84-86). */
  method SkipComment(src: seq<char>, start: nat) returns (pos: nat)
    requires IsCString(src) && start < |src|
    ensures pos == CommentEnd(src, start)
  {
    pos := start;
    while src[pos] != NUL && src[pos] != '\r' && src[pos] != '\n'
      invariant start <= pos < |src|
      invariant CommentEnd(src, pos) == CommentEnd(src, start)
      decreases |src| - pos
    {
      pos := pos + 1;
    }
  }

  /** The position parse_space stops at. It stops at a character that
      neither starts a blank nor a comment, never passes the terminator, and
      skips no line break unless `newlineOk`. */
  function SkipSpace(src: seq<char>, p: nat, newlineOk: bool): (q: nat)
    requires IsCString(src) && p < |src|
    ensures p <= q < |src|
    ensures !IsSpaceStart(src[q], newlineOk)
    ensures forall i :: p <= i < q ==> src[i] != NUL
    ensures !newlineOk ==> forall i :: p <= i < q ==> !IsNewline(src[i])
    decreases |src| - p
  {
    var c := src[p];
    if c == '#' then SkipSpace(src, CommentEnd(src, p), newlineOk)
    else if IsSpaceStart(c, newlineOk) then SkipSpace(src, p + 1, newlineOk)
    else p
  }

  /** Position `i` lies inside a `#` comment that starts at or after `p`. */
  predicate InComment(src: seq<char>, p: nat, i: nat)
    requires IsCString(src) && i < |src|
  {
    exists j :: p <= j < i && src[j] == '#' && i < CommentEnd(src, j)
  }

  /** parse_space passes nothing but blanks, allowed line breaks and
      comment text: every character it skips starts a blank or lies inside
      a comment. */
  lemma {:induction false} SkipSpaceOnlyBlanks(src: seq<char>, p: nat, newlineOk: bool)
    requires IsCString(src) && p < |src|
    ensures forall i :: p <= i < SkipSpace(src, p, newlineOk) ==>
      IsSpaceStart(src[i], newlineOk) || InComment(src, p, i)
    decreases |src| - p
  {
    var c := src[p];
    var q := SkipSpace(src, p, newlineOk);
    if c == '#' {
      var e := CommentEnd(src, p);
      SkipSpaceOnlyBlanks(src, e, newlineOk);
      forall i | p <= i < q ensures IsSpaceStart(src[i], newlineOk) || InComment(src, p, i) {
        if p < i < e {
          assert p < i < CommentEnd(src, p);
        } else if e <= i && !IsSpaceStart(src[i], newlineOk) {
          InCommentWiden(src, p, e, i);
        }
      }
    } else if IsSpaceStart(c, newlineOk) {
      SkipSpaceOnlyBlanks(src, p + 1, newlineOk);
      forall i | p < i < q && !IsSpaceStart(src[i], newlineOk) ensures InComment(src, p, i) {
        InCommentWiden(src, p, p + 1, i);
      }
    }
  }

  /** A comment that starts after `q` also starts after any `p <= q`. */
  lemma InCommentWiden(src: seq<char>, p: nat, q: nat, i: nat)
    requires IsCString(src) && p <= q && i < |src| && InComment(src, q, i)
    ensures InComment(src, p, i)
  {
    var j :| q <= j < i && src[j] == '#' && i < CommentEnd(src, j);
    assert p <= j < i && src[j] == '#' && i < CommentEnd(src, j);
  }

  /** parse_space: skips blanks and comments, and line breaks only when
      `newlineOk`. */
  method ParseSpace(src: seq<char>, start: nat, newlineOk: bool) returns (pos: nat)
    requires IsCString(src) && start < |src|
    ensures pos == SkipSpace(src, start, newlineOk)
  {
    pos := start;
    while src[pos] == ' ' || src[pos] == '\t' || src[pos] == '#' ||
          (newlineOk && (src[pos] == '\r' || src[pos] == '\n'))
      invariant start <= pos < |src|
      invariant SkipSpace(src, pos, newlineOk) == SkipSpace(src, start, newlineOk)
      decreases |src| - pos
    {
      if src[pos] == '#' {
        pos := SkipComment(src, pos);
      } else {
        pos := pos + 1;
      }
    }
  }

  /* ---------------------------------------------------------------------
     Names and integers
     --------------------------------------------------------------------- */

  /** parse_name: the maximal non-empty run of name characters at `start`;
      an empty run is an error. */
  method ParseName(src: seq<char>, start: nat) returns (r: Result<nat>)
    requires IsCString(src) && start < |src|
    ensures r.Ok? <==> IsWordChar(src[start])
    ensures r.Ok? ==> start < r.value < |src|
    ensures r.Ok? ==> forall i :: start <= i < r.value ==> IsWordChar(src[i])
    ensures r.Ok? ==> !IsWordChar(src[r.value])
    ensures r.Err? ==> r.error == ExpectedName
  {
    var pos := start;
    while IsWordChar(src[pos])
      invariant start <= pos < |src|
      invariant forall i :: start <= i < pos ==> IsWordChar(src[i])
      decreases |src| - pos
    {
      pos := pos + 1;
    }
    if pos == start {
      return Err(ExpectedName);
    }
    return Ok(pos);
  }

  /** parse_int: the maximal non-empty run of decimal digits at `start`. */
  method ParseInt(src: seq<char>, start: nat) returns (r: Result<nat>)
    requires IsCString(src) && start < |src|
    ensures r.Ok? <==> IsDigitChar(src[start])
    ensures r.Ok? ==> start < r.value < |src|
    ensures r.Ok? ==> forall i :: start <= i < r.value ==> IsDigitChar(src[i])
    ensures r.Ok? ==> !IsDigitChar(src[r.value])
    ensures r.Err? ==> r.error == ExpectedInteger
  {
    var pos := start;
    while IsDigitChar(src[pos])
      invariant start <= pos < |src|
      invariant forall i :: start <= i < pos ==> IsDigitChar(src[i])
      decreases |src| - pos
    {
      pos := pos + 1;
    }
    if pos == start {
      return Err(ExpectedInteger);
    }
    return Ok(pos);
  }

  predicate AllDigits(s: seq<char>) {
    forall i :: 0 <= i < |s| ==> IsDigitChar(s[i])
  }

  /** The number a run of decimal digits spells (std::stoul, without its
      overflow check). */
  function DecimalValue(s: seq<char>): nat
    requires AllDigits(s)
  {
    if s == [] then 0 else DecimalValue(s[..|s| - 1]) * 10 + (s[|s| - 1] as int - '0' as int)
  }

  /** std::to_string on a non-negative number. */
  function NatToString(n: nat): (s: string)
    ensures |s| >= 1 && AllDigits(s)
    ensures DecimalValue(s) == n
  {
    var d := ('0' as int + n % 10) as char;
    if n < 10 then
      [d]
    else
      var hi := NatToString(n / 10);
      var s := hi + [d];
      assert s[..|s| - 1] == hi;
      s
  }

  /** Decimal spellings are unique: std::to_string is injective. */
  lemma NatToStringInjective(a: nat, b: nat)
    requires NatToString(a) == NatToString(b)
    ensures a == b
  {
  }

  /* ---------------------------------------------------------------------
     One grammar character
     --------------------------------------------------------------------- */

  /** The one-letter escapes of parse_char and the code points they stand for. */
  function EscapeValue(c: char): Option<nat> {
    match c
    case 't' => Some(9)
    case 'r' => Some(13)
    case 'n' => Some(10)
    case '\\' => Some('\\' as int)
    case '"' => Some('"' as int)
    case '[' => Some('[' as int)
    case ']' => Some(']' as int)
    case _ => None
  }

  /** What parse_char yields at `pos`: an escape (\x, \u, \U with 2, 4 or 8
      hex digits, or one of \t \r \n \\ \" \[ \]), otherwise one UTF-8
      character; an unknown escape letter and the terminator are errors. */
  function CharSpec(src: seq<char>, pos: nat): (r: Result<(nat, nat)>)
    requires IsCString(src) && pos < |src|
    ensures r.Ok? ==> pos < r.value.1 < |src|
    ensures r.Err? ==> r.error == UnknownEscape || r.error == MalformedEscape || r.error == UnexpectedEnd
    ensures src[pos] == NUL ==> r == Err(UnexpectedEnd)
    ensures src[pos] != '\\' && src[pos] != NUL ==> r.Ok?
    ensures src[pos] == '\\' && r.Ok? ==> r.value.1 >= pos + 2
  {
    if src[pos] == '\\' then
      var e := src[pos + 1];
      if e == 'x' then HexEscape(src, pos + 2, 2)
      else if e == 'u' then HexEscape(src, pos + 2, 4)
      else if e == 'U' then HexEscape(src, pos + 2, 8)
      else match EscapeValue(e) {
        case Some(v) => Ok((v, pos + 2))
        case None => Err(UnknownEscape)
      }
    else if src[pos] != NUL then
      Ok(Utf8Decode(src, pos))
    else
      Err(UnexpectedEnd)
  }

  /** parse_char. */
  method ParseChar(src: seq<char>, pos: nat) returns (r: Result<(nat, nat)>)
    requires IsCString(src) && pos < |src|
    ensures r == CharSpec(src, pos)
  {
    if src[pos] == '\\' {
      var e := src[pos + 1];
      if e == 'x' {
        r := ParseHex(src, pos + 2, 2);
      } else if e == 'u' {
        r := ParseHex(src, pos + 2, 4);
      } else if e == 'U' {
        r := ParseHex(src, pos + 2, 8);
      } else {
        match EscapeValue(e) {
          case Some(v) => r := Ok((v, pos + 2));
          case None => r := Err(UnknownEscape);
        }
      }
    } else if src[pos] != NUL {
      var value, next := DecodeUtf8(src, pos);
      r := Ok((value, next));
    } else {
      r := Err(UnexpectedEnd);
    }
  }

  /** The width of the hex escape introduced by `letter`: 2 for \x, 4 for
      \u, 8 for \U. */
  predicate HexEscapeLetter(letter: char, width: nat) {
    (letter == 'x' && width == 2) || (letter == 'u' && width == 4) || (letter == 'U' && width == 8)
  }

  /** The spelling of a code point as the hex escape `\<letter>` with
      `width` zero-padded upper-case digits. */
  function EscapeText(letter: char, width: nat, cp: nat): (s: seq<char>)
    requires HexEscapeLetter(letter, width) && cp < Pow16(width)
  {
    ['\\', letter] + PadHex(cp, width)
  }

  /** Every value that fits an escape's digits, written as that escape,
      reads back as itself, and parse_char consumes exactly the escape:
      `\xHH`, `\uHHHH` and `\UHHHHHHHH` alike. */
  lemma EscapeRoundTrip(letter: char, width: nat, cp: nat, rest: seq<char>)
    requires HexEscapeLetter(letter, width) && cp < Pow16(width)
    requires IsCString(EscapeText(letter, width, cp) + rest)
    ensures CharSpec(EscapeText(letter, width, cp) + rest, 0) == Ok((cp, width + 2))
  {
    var src := EscapeText(letter, width, cp) + rest;
    EscapeDigits(letter, width, cp, rest);
    Pow16Monotone(width, 8);
    assert Pow16(8) == U32;
    assert HexEscape(src, 2, width) == Ok((cp, width + 2));
  }

  /** The characters after the escape letter are the hex spelling of `cp`. */
  lemma EscapeDigits(letter: char, width: nat, cp: nat, rest: seq<char>)
    requires HexEscapeLetter(letter, width) && cp < Pow16(width)
    ensures |EscapeText(letter, width, cp) + rest| >= width + 2
    ensures (EscapeText(letter, width, cp) + rest)[..2] == ['\\', letter]
    ensures (EscapeText(letter, width, cp) + rest)[2..width + 2] == PadHex(cp, width)
  {
    PadHexWidth(cp, width);
  }

  /** A value below 16^width needs no more than `width` hex digits. */
  lemma PadHexWidth(cp: nat, width: nat)
    requires width >= 1 && cp < Pow16(width)
    ensures |PadHex(cp, width)| == width
  {
    var d := HexDigits(cp);
    LeadingHexDigitNonZero(cp);
    if |d| > width {
      Pow16Monotone(width, |d| - 1);
    }
  }

  /** Every non-NUL code point other than the backslash, written in UTF-8,
      is read by parse_char as itself, consuming exactly its bytes. */
  lemma PlainCharRoundTrip(cp: nat, rest: seq<char>)
    requires 0 < cp < 0x110000 && cp != '\\' as nat
    requires IsCString(EncodeUtf8(cp) + rest)
    ensures CharSpec(EncodeUtf8(cp) + rest, 0) == Ok((cp, |EncodeUtf8(cp)|))
  {
    var src := EncodeUtf8(cp) + rest;
    assert src[0] == EncodeUtf8(cp)[0];
    DecodeEncode(cp, rest);
  }

  /** The one-letter escapes: \t, \r and \n stand for tab, carriage
      return and line feed, \\ \" \[ \] for the character itself; any
      other letter except x, u and U is an unknown escape. */
  lemma ShortEscape(c: char, rest: seq<char>)
    requires c != 'x' && c != 'u' && c != 'U'
    requires IsCString(['\\', c] + rest)
    ensures var r := CharSpec(['\\', c] + rest, 0);
      && (c == 't' ==> r == Ok(('\t' as nat, 2)))
      && (c == 'r' ==> r == Ok(('\r' as nat, 2)))
      && (c == 'n' ==> r == Ok(('\n' as nat, 2)))
      && (c == '\\' || c == '"' || c == '[' || c == ']' ==> r == Ok((c as nat, 2)))
      && (c !in "trn\\\"[]" ==> r == Err(UnknownEscape))
  {
    var src := ['\\', c] + rest;
    assert src[0] == '\\' && src[1] == c;
  }

  /** The leading digit of the shortest spelling is non-zero, so a spelling
      of k > 1 digits stands for at least 16^(k-1). */
  lemma {:induction false} LeadingHexDigitNonZero(n: nat)
    ensures var d := HexDigits(n); |d| > 1 ==> n >= Pow16(|d| - 1)
  {
    if n >= 16 {
      LeadingHexDigitNonZero(n / 16);
    }
  }
}

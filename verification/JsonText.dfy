/**
 * Texts as UTF-16 code units, their order, and the quoting of strings in JSON (RFC 8259, section 7)
 * the way JSON.stringify does it.
 */
module JsonText {
  type CodeUnit = x: int | 0 <= x < 0x10000

  type Text = seq<CodeUnit>

  const QUOTE: CodeUnit := 34
  const BACKSLASH: CodeUnit := 92
  const COMMA: CodeUnit := 44
  const COLON: CodeUnit := 58
  const LBRACKET: CodeUnit := 91
  const RBRACKET: CodeUnit := 93
  const LBRACE: CodeUnit := 123
  const RBRACE: CodeUnit := 125

  // ---------------------------------------------------------------- order

  /** Strictly before, comparing code unit by code unit. */
  predicate Before(a: Text, b: Text) {
    b != [] && (a == [] || a[0] < b[0] || (a[0] == b[0] && Before(a[1..], b[1..])))
  }

  lemma {:induction false} BeforeTotal(a: Text, b: Text)
    ensures Before(a, b) || Before(b, a) || a == b
    ensures !(Before(a, b) && Before(b, a)) && !Before(a, a)
  {
    if a != [] {
      if b != [] {
        BeforeTotal(a[1..], b[1..]);
        assert a == [a[0]] + a[1..] && b == [b[0]] + b[1..];
      }
      BeforeTotal(a[1..], a[1..]);
    }
  }

  lemma {:induction false} BeforeTransitive(a: Text, b: Text, c: Text)
    requires Before(a, b) && Before(b, c)
    ensures Before(a, c)
  {
    if a != [] && a[0] == b[0] == c[0] {
      BeforeTransitive(a[1..], b[1..], c[1..]);
    }
  }

  // ---------------------------------------------------------------- string escapes

  function HexDigit(d: int): CodeUnit
    requires 0 <= d < 16
  {
    if d < 10 then 48 + d else 87 + d
  }

  function Hex4(c: CodeUnit): Text {
    [HexDigit(c / 4096), HexDigit(c / 256 % 16), HexDigit(c / 16 % 16), HexDigit(c % 16)]
  }

  predicate IsHigh(c: CodeUnit) {
    0xD800 <= c < 0xDC00
  }

  predicate IsLow(c: CodeUnit) {
    0xDC00 <= c < 0xE000
  }

  /** One code unit that is not half of a surrogate pair. */
  function EscapeUnit(c: CodeUnit): Text {
    if c == QUOTE || c == BACKSLASH then [BACKSLASH, c]
    else if c == 8 then [BACKSLASH, 98]
    else if c == 9 then [BACKSLASH, 116]
    else if c == 10 then [BACKSLASH, 110]
    else if c == 12 then [BACKSLASH, 102]
    else if c == 13 then [BACKSLASH, 114]
    else if c < 32 || IsHigh(c) || IsLow(c) then [BACKSLASH, 117] + Hex4(c)
    else [c]
  }

  /** Code units of the first code point: two for a surrogate pair. */
  function Width(s: Text): (n: nat)
    requires s != []
    ensures 1 <= n <= 2 && n <= |s|
  {
    if |s| >= 2 && IsHigh(s[0]) && IsLow(s[1]) then 2 else 1
  }

  function Chunk(s: Text): Text
    requires s != []
  {
    if Width(s) == 2 then s[..2] else EscapeUnit(s[0])
  }

  function Escape(s: Text): Text {
    if s == [] then [] else Chunk(s) + Escape(s[Width(s)..])
  }

  function Quoted(s: Text): Text {
    [QUOTE] + Escape(s) + [QUOTE]
  }

  lemma HexDigitInjective(a: int, b: int, x: CodeUnit, y: CodeUnit)
    requires 0 <= a < 16 && 0 <= b < 16 && x == HexDigit(a) && y == HexDigit(b) && x == y
    ensures a == b
  {
  }

  lemma Nibbles(c: CodeUnit)
    ensures c == 4096 * (c / 4096) + 256 * (c / 256 % 16) + 16 * (c / 16 % 16) + c % 16
  {
    var a, b := c / 16, c / 256;
    assert b == a / 16 && c / 4096 == b / 16;
    assert c == 16 * a + c % 16 && a == 16 * b + a % 16 && b == 16 * (b / 16) + b % 16;
  }

  lemma Hex4Injective(c: CodeUnit, d: CodeUnit)
    requires Hex4(c) == Hex4(d)
    ensures c == d
  {
    Nibbles(c);
    Nibbles(d);
    HexDigitInjective(c / 4096, d / 4096, Hex4(c)[0], Hex4(d)[0]);
    HexDigitInjective(c / 256 % 16, d / 256 % 16, Hex4(c)[1], Hex4(d)[1]);
    HexDigitInjective(c / 16 % 16, d / 16 % 16, Hex4(c)[2], Hex4(d)[2]);
    HexDigitInjective(c % 16, d % 16, Hex4(c)[3], Hex4(d)[3]);
  }

  lemma EscapeUnitInjective(c: CodeUnit, d: CodeUnit, r: Text, q: Text)
    requires EscapeUnit(c) + r == EscapeUnit(d) + q
    ensures c == d && r == q
  {
    var u, w := EscapeUnit(c), EscapeUnit(d);
    assert (u + r)[0] == u[0] && (w + q)[0] == w[0];
    if u[0] == BACKSLASH {
      assert (u + r)[1] == u[1] && (w + q)[1] == w[1];
    }
    assert |u| == |w|;
    assert u == (u + r)[..|u|] && w == (w + q)[..|w|];
    assert r == (u + r)[|u|..] && q == (w + q)[|w|..];
    if |u| == 6 {
      assert Hex4(c) == u[2..] && Hex4(d) == w[2..];
      Hex4Injective(c, d);
    }
  }

  /** A code point can be read back off the front of its escaped form, whatever follows. */
  lemma ChunkInjective(s: Text, t: Text, r: Text, q: Text)
    requires s != [] && t != [] && Chunk(s) + r == Chunk(t) + q
    ensures Width(s) == Width(t) && s[..Width(s)] == t[..Width(t)] && r == q
  {
    var u, w := Chunk(s), Chunk(t);
    assert (u + r)[0] == u[0] && (w + q)[0] == w[0];
    if Width(s) == 2 {
      assert IsHigh(w[0]);
      assert u == (u + r)[..2] && w == (w + q)[..2];
      assert r == (u + r)[2..] && q == (w + q)[2..];
    } else {
      assert Width(t) == 1;
      EscapeUnitInjective(s[0], t[0], r, q);
      assert s[..1] == [s[0]] && t[..1] == [t[0]];
    }
  }

  /** Only the end of a string starts with the closing quote. */
  lemma EscapeStart(s: Text, r: Text)
    ensures (Escape(s) + [QUOTE] + r)[0] == QUOTE <==> s == []
    ensures s == [] ==> (Escape(s) + [QUOTE] + r)[1..] == r
    ensures s != [] ==> Escape(s) + [QUOTE] + r == Chunk(s) + (Escape(s[Width(s)..]) + [QUOTE] + r)
  {
    if s == [] {
      assert Escape(s) + [QUOTE] + r == [QUOTE] + r;
    } else {
      ChunkStart(s);
      Regroup(Chunk(s), Escape(s[Width(s)..]), [QUOTE], r);
    }
  }

  lemma ChunkStart(s: Text)
    requires s != []
    ensures Chunk(s) != [] && Chunk(s)[0] != QUOTE
  {
  }

  lemma Regroup(p: Text, x: Text, y: Text, r: Text)
    ensures (p + x) + y + r == p + (x + y + r)
  {
  }

  lemma FirstChunk(s: Text, t: Text, r: Text, q: Text)
    requires s != [] && t != [] && Escape(s) + [QUOTE] + r == Escape(t) + [QUOTE] + q
    ensures Width(s) == Width(t) && s[..Width(s)] == t[..Width(t)]
    ensures Escape(s[Width(s)..]) + [QUOTE] + r == Escape(t[Width(t)..]) + [QUOTE] + q
  {
    EscapeStart(s, r);
    EscapeStart(t, q);
    ChunkInjective(s, t, Escape(s[Width(s)..]) + [QUOTE] + r, Escape(t[Width(t)..]) + [QUOTE] + q);
  }

  /** An escaped string can be read back up to its closing quote, whatever follows. */
  lemma {:induction false} EscapeInjective(s: Text, t: Text, r: Text, q: Text)
    requires Escape(s) + [QUOTE] + r == Escape(t) + [QUOTE] + q
    ensures s == t && r == q
    decreases |s|
  {
    EscapeStart(s, r);
    EscapeStart(t, q);
    if s != [] && t != [] {
      FirstChunk(s, t, r, q);
      EscapeInjective(s[Width(s)..], t[Width(t)..], r, q);
      assert s == s[..Width(s)] + s[Width(s)..] && t == t[..Width(t)] + t[Width(t)..];
    }
  }

  lemma QuotedInjective(s: Text, t: Text, r: Text, q: Text)
    requires Quoted(s) + r == Quoted(t) + q
    ensures s == t && r == q
  {
    var a, b := Quoted(s) + r, Quoted(t) + q;
    assert a[1..] == Escape(s) + [QUOTE] + r;
    assert b[1..] == Escape(t) + [QUOTE] + q;
    EscapeInjective(s, t, r, q);
  }
}

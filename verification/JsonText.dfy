/**
  JsonEscape of RuntimeStatus.cpp on bytes, and a reader of string literals by section 7 of RFC 8259 to hold it
  against. Bytes of 0x80 and more belong to UTF-8 sequences and pass through both.
 */
module JsonText {
  import opened Protocol

  type Octet = n: nat | n < 256

  const QUOTE: Octet := 0x22
  const BACKSLASH: Octet := 0x5C

  function HexDigit(n: nat): Octet
    requires n < 16
  {
    if n < 10 then 0x30 + n else 0x61 + n - 10
  }

  /** What one byte becomes. */
  function Escaped(c: Octet): seq<Octet> {
    if c == QUOTE then [BACKSLASH, QUOTE]
    else if c == BACKSLASH then [BACKSLASH, BACKSLASH]
    else if c == 0x08 then [BACKSLASH, 0x62]
    else if c == 0x0C then [BACKSLASH, 0x66]
    else if c == 0x0A then [BACKSLASH, 0x6E]
    else if c == 0x0D then [BACKSLASH, 0x72]
    else if c == 0x09 then [BACKSLASH, 0x74]
    else if c < 0x20 then [BACKSLASH, 0x75, 0x30, 0x30, HexDigit(c / 16), HexDigit(c % 16)]
    else [c]
  }

  function Escape(s: seq<Octet>): seq<Octet> {
    if s == [] then [] else Escaped(s[0]) + Escape(s[1..])
  }

  /** Quote, backslash and control bytes are escaped, and no other byte is touched; five controls have short forms. */
  lemma EscapedExactly(c: Octet)
    ensures c >= 0x20 && c != QUOTE && c != BACKSLASH <==> Escaped(c) == [c]
    ensures c in {QUOTE, BACKSLASH, 0x08, 0x09, 0x0A, 0x0C, 0x0D} <==> |Escaped(c)| == 2
    ensures |Escaped(c)| in {1, 2, 6}
  {
  }

  /** The switch on one byte. */
  method EscapeByte(c: Octet) returns (output: seq<Octet>)
    ensures output == Escaped(c)
  {
    if c == QUOTE {
      output := [BACKSLASH, QUOTE];
    } else if c == BACKSLASH {
      output := [BACKSLASH, BACKSLASH];
    } else if c == 0x08 {
      output := [BACKSLASH, 0x62];
    } else if c == 0x0C {
      output := [BACKSLASH, 0x66];
    } else if c == 0x0A {
      output := [BACKSLASH, 0x6E];
    } else if c == 0x0D {
      output := [BACKSLASH, 0x72];
    } else if c == 0x09 {
      output := [BACKSLASH, 0x74];
    } else if c < 0x20 {
      output := [BACKSLASH, 0x75];
      output := output + [0x30, 0x30];
      output := output + [HexDigit(c / 16 % 16)];
      output := output + [HexDigit(c % 16)];
    } else {
      output := [c];
    }
  }

  method JsonEscape(value: seq<Octet>) returns (output: seq<Octet>)
    ensures output == Escape(value)
    ensures Literal(output + [QUOTE]) == Some((value, []))
  {
    output := [];
    for i := 0 to |value|
      invariant output + Escape(value[i..]) == Escape(value)
    {
      var escaped := EscapeByte(value[i]);
      assert value[i..][1..] == value[i + 1..];
      output := output + escaped;
    }
    assert output == Escape(value);
    EscapeReadsBack(value, []);
    assert output + [QUOTE] == Escape(value) + [QUOTE] + [];
  }

  // ---- reading a literal back ----

  /** A hexadecimal digit of either case. */
  function HexValue(c: Octet): Option<nat> {
    if 0x30 <= c <= 0x39 then Some(c - 0x30)
    else if 0x41 <= c <= 0x46 then Some(c - 0x41 + 10)
    else if 0x61 <= c <= 0x66 then Some(c - 0x61 + 10)
    else None
  }

  /** The code unit of four hexadecimal digits. */
  function CodeUnit(s: seq<Octet>): Option<nat> {
    if |s| < 4 then None
    else
      match (HexValue(s[0]), HexValue(s[1]), HexValue(s[2]), HexValue(s[3]))
      case (Some(a), Some(b), Some(c), Some(d)) => Some(((a * 16 + b) * 16 + c) * 16 + d)
      case _ => None
  }

  /** A code point in UTF-8. */
  function Utf8(point: nat): seq<Octet>
    requires point < 0x11_0000
  {
    if point < 0x80 then [point]
    else if point < 0x800 then [0xC0 + point / 64, 0x80 + point % 64]
    else if point < 0x1_0000 then [0xE0 + point / 4096, 0x80 + point / 64 % 64, 0x80 + point % 64]
    else [0xF0 + point / 262144, 0x80 + point / 4096 % 64, 0x80 + point / 64 % 64, 0x80 + point % 64]
  }

  /** What an escape stands for, and how many bytes follow its backslash; surrogates come in pairs. */
  function Unescaped(s: seq<Octet>): Option<(seq<Octet>, nat)>
    ensures Unescaped(s).Some? ==> 1 <= Unescaped(s).value.1 <= |s|
  {
    if s == [] then None
    else if s[0] == QUOTE || s[0] == BACKSLASH || s[0] == 0x2F then Some(([s[0]], 1))
    else if s[0] == 0x62 then Some(([0x08], 1))
    else if s[0] == 0x66 then Some(([0x0C], 1))
    else if s[0] == 0x6E then Some(([0x0A], 1))
    else if s[0] == 0x72 then Some(([0x0D], 1))
    else if s[0] == 0x74 then Some(([0x09], 1))
    else if s[0] == 0x75 then
      match CodeUnit(s[1..])
      case None => None
      case Some(unit) =>
        if unit >= 0x1_0000 || 0xDC00 <= unit < 0xE000 then None
        else if unit < 0xD800 || unit >= 0xE000 then Some((Utf8(unit), 5))
        else if |s| < 11 || s[5] != BACKSLASH || s[6] != 0x75 then None
        else
          match CodeUnit(s[7..])
          case None => None
          case Some(low) =>
            if 0xDC00 <= low < 0xE000 then Some((Utf8(0x1_0000 + (unit - 0xD800) * 1024 + (low - 0xDC00)), 11))
            else None
    else None
  }

  /** The rest of a literal after its opening quote: its bytes, and what follows its closing quote. */
  function Literal(s: seq<Octet>): Option<(seq<Octet>, seq<Octet>)>
    decreases |s|
  {
    if s == [] || s[0] < 0x20 then None
    else if s[0] == QUOTE then Some(([], s[1..]))
    else if s[0] != BACKSLASH then
      match Literal(s[1..])
      case None => None
      case Some((content, rest)) => Some(([s[0]] + content, rest))
    else
      match Unescaped(s[1..])
      case None => None
      case Some((bytes, used)) =>
        match Literal(s[1 + used..])
        case None => None
        case Some((content, rest)) => Some((bytes + content, rest))
  }

  lemma HexRoundTrip(n: nat)
    requires n < 16
    ensures HexValue(HexDigit(n)) == Some(n)
  {
  }

  lemma ControlEscape(c: Octet, s: seq<Octet>)
    requires c < 0x20 && |s| >= 5
    requires s[..5] == [0x75, 0x30, 0x30, HexDigit(c / 16), HexDigit(c % 16)]
    ensures Unescaped(s) == Some(([c], 5))
  {
    HexRoundTrip(c / 16);
    HexRoundTrip(c % 16);
    assert s[0] == s[..5][0] && s[1] == s[..5][1] && s[2] == s[..5][2] && s[3] == s[..5][3] && s[4] == s[..5][4];
    var digits := s[1..];
    assert digits[0] == s[1] && digits[1] == s[2] && digits[2] == s[3] && digits[3] == s[4];
    assert CodeUnit(digits) == Some(c / 16 * 16 + c % 16);
  }

  /** One escaped byte in front of a literal reads back as that byte in front of its content. */
  lemma ByteReadsBack(c: Octet, tail: seq<Octet>)
    ensures Literal(Escaped(c) + tail) ==
              match Literal(tail)
              case None => None
              case Some((content, rest)) => Some(([c] + content, rest))
  {
    var s := Escaped(c) + tail;
    if |Escaped(c)| == 1 {
      assert s[1..] == tail;
    } else if |Escaped(c)| == 2 {
      assert s[1..][0] == s[1] && s[1 + 1..] == tail;
      assert Unescaped(s[1..]) == Some(([c], 1));
    } else {
      assert s[1..][..5] == Escaped(c)[1..];
      ControlEscape(c, s[1..]);
      assert s[1 + 5..] == tail;
    }
  }

  /**
    For every byte string, its escape followed by a quote reads as one literal holding exactly that string, whatever
    comes after: no quote inside ends it early.
   */
  lemma {:induction false} EscapeReadsBack(value: seq<Octet>, after: seq<Octet>)
    ensures Literal(Escape(value) + [QUOTE] + after) == Some((value, after))
  {
    if value == [] {
      assert Escape(value) + [QUOTE] + after == [QUOTE] + after;
    } else {
      EscapeReadsBack(value[1..], after);
      ByteReadsBack(value[0], Escape(value[1..]) + [QUOTE] + after);
      Regroup(Escaped(value[0]), Escape(value[1..]), [QUOTE], after);
      assert value == [value[0]] + value[1..];
    }
  }

  lemma Regroup(a: seq<Octet>, b: seq<Octet>, c: seq<Octet>, d: seq<Octet>)
    ensures a + b + c + d == a + (b + c + d)
  {
  }

  /** No control byte is left raw. */
  lemma {:induction false} NoControlLeft(value: seq<Octet>, i: nat)
    requires i < |Escape(value)|
    ensures Escape(value)[i] >= 0x20
  {
    var first := Escaped(value[0]);
    if i >= |first| {
      NoControlLeft(value[1..], i - |first|);
    }
  }

  predicate RawQuote(text: seq<Octet>, i: nat)
    requires i < |text|
  {
    text[i] == QUOTE && Backslashes(text, i) % 2 == 0
  }

  /** How many backslashes stand right before position i. */
  function Backslashes(text: seq<Octet>, i: nat): nat
    requires i <= |text|
  {
    if i == 0 || text[i - 1] != BACKSLASH then 0 else Backslashes(text, i - 1) + 1
  }

  lemma {:induction false} BackslashesAfter(first: seq<Octet>, text: seq<Octet>, i: nat)
    requires i <= |text|
    requires Backslashes(first, |first|) % 2 == 0
    ensures Backslashes(first + text, |first| + i) % 2 == Backslashes(text, i) % 2
  {
    if i == 0 {
      BackslashesWithin(first, text, |first|);
    } else if text[i - 1] == BACKSLASH {
      BackslashesAfter(first, text, i - 1);
    }
  }

  lemma {:induction false} BackslashesWithin(first: seq<Octet>, text: seq<Octet>, i: nat)
    requires i <= |first|
    ensures Backslashes(first + text, i) == Backslashes(first, i)
  {
    if i > 0 {
      BackslashesWithin(first, text, i - 1);
    }
  }

  lemma EscapedByteBackslashes(c: Octet)
    ensures Backslashes(Escaped(c), |Escaped(c)|) % 2 == 0
    ensures forall i :: 0 <= i < |Escaped(c)| ==> !RawQuote(Escaped(c), i)
  {
    var e := Escaped(c);
    if c == BACKSLASH {
      assert Backslashes(e, 1) == 1;
    } else if c == QUOTE {
      assert Backslashes(e, 0) == 0 && Backslashes(e, 1) == 1;
    } else if |e| > 2 {
      assert e[|e| - 1] == HexDigit(c % 16);
    }
  }

  /** No quote is left raw either: each is behind an odd number of backslashes. */
  lemma {:induction false} NoRawQuote(value: seq<Octet>, i: nat)
    requires i < |Escape(value)|
    ensures !RawQuote(Escape(value), i)
  {
    var first, tail := Escaped(value[0]), Escape(value[1..]);
    EscapedByteBackslashes(value[0]);
    if i < |first| {
      BackslashesWithin(first, tail, i);
    } else {
      NoRawQuote(value[1..], i - |first|);
      BackslashesAfter(first, tail, i - |first|);
    }
  }

  /** Different strings have different escapes. */
  lemma EscapeInjective(a: seq<Octet>, b: seq<Octet>)
    requires Escape(a) == Escape(b)
    ensures a == b
  {
    EscapeReadsBack(a, []);
    EscapeReadsBack(b, []);
  }
}

/** JSON strings as json.dumps writes them by default: everything but printable ASCII is escaped,
    characters above U+FFFF as surrogate pairs (section 7 of RFC 8259).  A char is a Unicode
    scalar value, so no string holds a lone surrogate. */
module AsciiJson {

  function Digit(n: nat): (c: char)
    requires n < 16
    ensures c != '"' && c != '\\'
  {
    "0123456789abcdef"[n]
  }

  lemma {:induction false} DigitIsInjective(n: nat, m: nat)
    requires n < 16 && m < 16 && Digit(n) == Digit(m)
    ensures n == m
  {}

  /** Four hexadecimal digits. */
  function Hex(n: nat): (s: string)
    requires n < 0x10000
    ensures |s| == 4
  {
    [Digit(n / 16 / 16 / 16), Digit(n / 16 / 16 % 16), Digit(n / 16 % 16), Digit(n % 16)]
  }

  lemma {:induction false} HexIsInjective(n: nat, m: nat)
    requires n < 0x10000 && m < 0x10000 && Hex(n) == Hex(m)
    ensures n == m
  {
    var s, t := Hex(n), Hex(m);
    assert s[0] == t[0] && s[1] == t[1] && s[2] == t[2] && s[3] == t[3];
    DigitIsInjective(n / 16 / 16 / 16, m / 16 / 16 / 16);
    DigitIsInjective(n / 16 / 16 % 16, m / 16 / 16 % 16);
    DigitIsInjective(n / 16 % 16, m / 16 % 16);
    DigitIsInjective(n % 16, m % 16);
    SameDigit(n / 16 / 16, m / 16 / 16);
    SameDigit(n / 16, m / 16);
    SameDigit(n, m);
  }

  lemma {:induction false} SameDigit(n: nat, m: nat)
    requires n / 16 == m / 16 && n % 16 == m % 16
    ensures n == m
  {}

  /** The letter of a two-character escape, or 'u' for the others. */
  function Letter(c: char): char {
    if c == '"' then '"'
    else if c == '\\' then '\\'
    else if c == '\n' then 'n'
    else if c == '\r' then 'r'
    else if c == '\t' then 't'
    else if c == '\U{0C}' then 'f'
    else if c == '\U{08}' then 'b'
    else 'u'
  }

  predicate IsPlain(c: char) { ' ' <= c <= '~' && c != '"' && c != '\\' }

  /** The UTF-16 code unit that the first \u escape of a character names. */
  function FirstUnit(c: char): (n: nat)
    ensures n < 0x10000
    ensures 0xD800 <= n < 0xDC00 <==> c as int >= 0x10000
  {
    if c as int < 0x10000 then c as int else 0xD800 + (c as int - 0x10000) / 0x400
  }

  /** The second surrogate of a character above U+FFFF. */
  function SecondUnit(c: char): (n: nat)
    requires c as int >= 0x10000
    ensures n < 0x10000
  {
    0xDC00 + (c as int - 0x10000) % 0x400
  }

  function Unit(n: nat): (s: string)
    requires n < 0x10000
    ensures |s| == 6 && s[0] == '\\' && s[1] == 'u'
  {
    ['\\', 'u'] + Hex(n)
  }

  function Escape(c: char): (s: string)
    ensures s != "" && s[0] != '"'
    ensures s[0] == '\\' <==> !IsPlain(c)
  {
    if IsPlain(c) then [c]
    else if Letter(c) != 'u' then ['\\', Letter(c)]
    else if c as int < 0x10000 then Unit(FirstUnit(c))
    else Unit(FirstUnit(c)) + Unit(SecondUnit(c))
  }

  lemma {:induction false} UnitIsInjective(n: nat, m: nat)
    requires n < 0x10000 && m < 0x10000 && Unit(n) == Unit(m)
    ensures n == m
  {
    assert Unit(n)[2..] == Hex(n) && Unit(m)[2..] == Hex(m);
    HexIsInjective(n, m);
  }

  lemma {:induction false} UnicodeEscapeBegins(c: char, x: string)
    requires !IsPlain(c) && Letter(c) == 'u'
    ensures |Escape(c) + x| >= 6 && (Escape(c) + x)[..6] == Unit(FirstUnit(c))
    ensures c as int >= 0x10000 ==> |Escape(c) + x| >= 12 && (Escape(c) + x)[6..12] == Unit(SecondUnit(c))
  {}

  lemma {:induction false} UnitsDetermine(c: char, d: char)
    requires FirstUnit(c) == FirstUnit(d)
    ensures c as int >= 0x10000 <==> d as int >= 0x10000
    ensures c as int >= 0x10000 && SecondUnit(c) == SecondUnit(d) ==> c == d
    ensures c as int < 0x10000 ==> c == d
  {}

  lemma {:induction false} UnicodeEscapeSplits(c: char, d: char, x: string, y: string)
    requires !IsPlain(c) && Letter(c) == 'u' && !IsPlain(d) && Letter(d) == 'u'
    requires Escape(c) + x == Escape(d) + y
    ensures c == d
  {
    UnicodeEscapeBegins(c, x);
    UnicodeEscapeBegins(d, y);
    UnitIsInjective(FirstUnit(c), FirstUnit(d));
    UnitsDetermine(c, d);
    if c as int >= 0x10000 {
      UnitIsInjective(SecondUnit(c), SecondUnit(d));
    }
  }

  /** No escape is the beginning of another. */
  lemma {:induction false} EscapeSplits(c: char, d: char, x: string, y: string)
    requires Escape(c) + x == Escape(d) + y
    ensures c == d && x == y
  {
    var s := Escape(c) + x;
    assert s[0] == Escape(c)[0] == Escape(d)[0];
    if IsPlain(c) {
      assert Escape(c) == [c] && Escape(d) == [d];
    } else {
      assert s[1] == Letter(c) == Letter(d);
      if Letter(c) == 'u' {
        UnicodeEscapeSplits(c, d, x, y);
      }
    }
    Peel(Escape(c), x, y);
  }

  lemma {:induction false} Peel(common: string, x: string, y: string)
    requires common + x == common + y
    ensures x == y
  {
    assert x == (common + x)[|common|..];
  }

  function Escaped(s: string): string { if s == "" then "" else Escape(s[0]) + Escaped(s[1..]) }

  /** A JSON string with its quotes, followed by more text. */
  function Quoted(s: string, rest: string): string { "\"" + (Escaped(s) + ("\"" + rest)) }

  lemma {:induction false} EscapedHead(s: string, rest: string)
    requires s != ""
    ensures Escaped(s) + rest == Escape(s[0]) + (Escaped(s[1..]) + rest)
  {}

  lemma {:induction false} EscapedSplits(s: string, t: string, x: string, y: string)
    requires Escaped(s) + ("\"" + x) == Escaped(t) + ("\"" + y)
    ensures s == t && x == y
  {
    var all := Escaped(s) + ("\"" + x);
    if s == "" || t == "" {
      assert all[0] == '"';
      if s != "" { EscapedHead(s, "\"" + x); }
      if t != "" { EscapedHead(t, "\"" + y); }
      assert s == "" && t == "";
      assert "" + ("\"" + x) == "\"" + x && "" + ("\"" + y) == "\"" + y;
      Peel("\"", x, y);
    } else {
      EscapedHead(s, "\"" + x);
      EscapedHead(t, "\"" + y);
      EscapeSplits(s[0], t[0], Escaped(s[1..]) + ("\"" + x), Escaped(t[1..]) + ("\"" + y));
      EscapedSplits(s[1..], t[1..], x, y);
      assert s == [s[0]] + s[1..] && t == [t[0]] + t[1..];
    }
  }

  /** A quoted string and what follows it can be told apart. */
  lemma {:induction false} QuotedSplits(s: string, t: string, x: string, y: string)
    requires Quoted(s, x) == Quoted(t, y)
    ensures s == t && x == y
  {
    Peel("\"", Escaped(s) + ("\"" + x), Escaped(t) + ("\"" + y));
    EscapedSplits(s, t, x, y);
  }

  predicate IsAscii(s: string) { forall i | 0 <= i < |s| :: ' ' <= s[i] <= '~' }

  lemma {:induction false} UnitIsAscii(n: nat)
    requires n < 0x10000
    ensures IsAscii(Unit(n))
  {}

  lemma {:induction false} EscapeIsAscii(c: char)
    ensures IsAscii(Escape(c))
  {
    if !IsPlain(c) && Letter(c) == 'u' {
      UnitIsAscii(FirstUnit(c));
      if c as int >= 0x10000 {
        UnitIsAscii(SecondUnit(c));
        AsciiConcat(Unit(FirstUnit(c)), Unit(SecondUnit(c)));
      }
    }
  }

  lemma {:induction false} AsciiConcat(s: string, t: string)
    requires IsAscii(s) && IsAscii(t)
    ensures IsAscii(s + t)
  {}

  /** The text is printable ASCII, so its bytes are its characters. */
  lemma {:induction false} EscapedIsAscii(s: string)
    ensures IsAscii(Escaped(s))
  {
    if s != "" {
      EscapeIsAscii(s[0]);
      EscapedIsAscii(s[1..]);
    }
  }
}

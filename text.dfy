/**
 * The string operations the sources rely on: JavaScript `split`/`join`/`trim`/`startsWith`,
 * Python `split`/`strip`/`startswith`/`int()`, and zero-padded decimal formatting as
 * `strftime` writes it.
 */
module Text {
  import opened Wrappers

  predicate IsDigit(c: char) {
    '0' <= c <= '9'
  }

  /** Whose rules a string function follows: JavaScript's or Python's. */
  datatype Lang = Js | Py

  /**
   * The white space each language skips. JavaScript's `trim`, `Number` and
   * `parseInt` skip the WhiteSpace and LineTerminator characters of ECMA-262
   * (sections 12.2 and 12.3), which include U+FEFF; Python's `str.strip()` and
   * `int()` skip what `str.isspace` accepts, which includes U+001C..U+001F and
   * U+0085 instead. Both include the Unicode space separators.
   */
  function Spaces(lang: Lang): seq<char> {
    var common := ['\t', '\n', '\U{B}', '\U{C}', '\r', ' ', '\U{A0}', '\U{1680}',
      '\U{2000}', '\U{2001}', '\U{2002}', '\U{2003}', '\U{2004}', '\U{2005}', '\U{2006}',
      '\U{2007}', '\U{2008}', '\U{2009}', '\U{200A}',
      '\U{2028}', '\U{2029}', '\U{202F}', '\U{205F}', '\U{3000}'];
    match lang
    case Js => common + ['\U{FEFF}']
    case Py => common + ['\U{1C}', '\U{1D}', '\U{1E}', '\U{1F}', '\U{85}']
  }

  /** Whether `c` is one of `chars`. */
  predicate Among(c: char, chars: seq<char>) {
    chars != [] && (chars[0] == c || Among(c, chars[1..]))
  }

  predicate IsWhitespace(c: char, lang: Lang) {
    Among(c, Spaces(lang))
  }

  /** A character in the printable ranges no white space falls in. */
  predicate OutsideSpaces(c: char) {
    ('!' <= c <= '\U{84}') || ('\U{A1}' <= c <= '\U{167F}')
  }

  lemma {:induction false} NotAmong(c: char, chars: seq<char>)
    requires OutsideSpaces(c) && forall k :: 0 <= k < |chars| ==> !OutsideSpaces(chars[k])
    ensures !Among(c, chars)
  {
    if chars != [] {
      NotAmong(c, chars[1..]);
    }
  }

  /** Digits, letters, the point and the underscore are not white space. */
  lemma NotWhitespace(c: char, lang: Lang)
    requires IsPyDigit(c) || RadixDigitValue(c) < 36 || c == '_' || c == '.'
    ensures !IsWhitespace(c, lang)
  {
    var spaces := Spaces(lang);
    assert forall k :: 0 <= k < |spaces| ==> !OutsideSpaces(spaces[k]);
    NotAmong(c, spaces);
  }

  predicate StartsWith(s: string, prefix: string) {
    |prefix| <= |s| && s[..|prefix|] == prefix
  }

  /** The number of occurrences of `c` in `s`. */
  function CountChar(s: string, c: char): nat {
    if s == [] then 0 else (if s[0] == c then 1 else 0) + CountChar(s[1..], c)
  }

  lemma {:induction false} CountCharZero(s: string, c: char)
    ensures CountChar(s, c) == 0 <==> c !in s
  {
    if s != [] {
      CountCharZero(s[1..], c);
      assert s == [s[0]] + s[1..];
    }
  }

  /** `s.split(sep)` for a one-character separator: the pieces between occurrences of `sep`. */
  function Split(s: string, sep: char): (parts: seq<string>)
    ensures |parts| == CountChar(s, sep) + 1
    ensures forall i :: 0 <= i < |parts| ==> sep !in parts[i]
  {
    if s == [] then [""]
    else
      var rest := Split(s[1..], sep);
      if s[0] == sep then [""] + rest
      else [[s[0]] + rest[0]] + rest[1..]
  }

  /** `parts.join(sep)`. */
  function Join(parts: seq<string>, sep: char): string {
    if |parts| == 0 then ""
    else if |parts| == 1 then parts[0]
    else parts[0] + [sep] + Join(parts[1..], sep)
  }

  lemma JoinConsFirst(c: char, parts: seq<string>, sep: char)
    requires |parts| >= 1
    ensures Join([[c] + parts[0]] + parts[1..], sep) == [c] + Join(parts, sep)
  {
    var q := [[c] + parts[0]] + parts[1..];
    assert q[1..] == parts[1..];
  }

  /** Joining the pieces of a split gives the original string back. */
  lemma {:induction false} JoinSplit(s: string, sep: char)
    ensures Join(Split(s, sep), sep) == s
  {
    if s != [] {
      var rest := Split(s[1..], sep);
      JoinSplit(s[1..], sep);
      if s[0] == sep {
        assert ([""] + rest)[1..] == rest;
      } else {
        JoinConsFirst(s[0], rest, sep);
      }
      assert s == [s[0]] + s[1..];
    }
  }

  /** The first `c` of a text is the one right after a prefix without `c`. */
  lemma {:induction false} IndexOfAfter(a: string, b: string, c: char)
    requires c !in a
    ensures c in a + [c] + b && IndexOf(a + [c] + b, c) == |a|
  {
    var s := a + [c] + b;
    assert s[|a|] == c;
    if a != [] {
      IndexOfAfter(a[1..], b, c);
      assert s[1..] == a[1..] + [c] + b;
    }
  }

  /** A string without the separator splits into itself alone. */
  lemma {:induction false} SplitWithoutSeparator(s: string, sep: char)
    requires sep !in s
    ensures Split(s, sep) == [s]
  {
    if s != [] {
      SplitWithoutSeparator(s[1..], sep);
      assert s == [s[0]] + s[1..];
    }
  }

  /** Splitting at the first separator: the piece before it, then the split of the rest. */
  lemma {:induction false} SplitAtFirst(a: string, b: string, sep: char)
    requires sep !in a
    ensures Split(a + [sep] + b, sep) == [a] + Split(b, sep)
  {
    var s := a + [sep] + b;
    if a == [] {
      assert s[1..] == b;
    } else {
      assert s[1..] == a[1..] + [sep] + b;
      SplitAtFirst(a[1..], b, sep);
      assert [a[0]] + a[1..] == a;
    }
  }

  /** Two separator-free pieces with one separator between them split back into the two. */
  lemma SplitPair(a: string, b: string, sep: char)
    requires sep !in a && sep !in b
    ensures Split(a + [sep] + b, sep) == [a, b]
  {
    SplitAtFirst(a, b, sep);
    SplitWithoutSeparator(b, sep);
  }

  /** Splitting a join of separator-free pieces gives the pieces back. */
  lemma {:induction false} SplitJoin(parts: seq<string>, sep: char)
    requires |parts| >= 1
    requires forall i :: 0 <= i < |parts| ==> sep !in parts[i]
    ensures Split(Join(parts, sep), sep) == parts
  {
    if |parts| == 1 {
      SplitWithoutSeparator(parts[0], sep);
    } else {
      SplitJoin(parts[1..], sep);
      SplitAtFirst(parts[0], Join(parts[1..], sep), sep);
      assert [parts[0]] + parts[1..] == parts;
    }
  }

  /** The index of the first occurrence of `c` in `s`. */
  function IndexOf(s: string, c: char): (i: nat)
    requires c in s
    ensures i < |s| && s[i] == c && c !in s[..i]
  {
    if s[0] == c then 0 else 1 + IndexOf(s[1..], c)
  }

  /** `s` without leading white space. */
  function TrimStart(s: string, lang: Lang): (r: string)
    ensures |r| <= |s| && r == s[|s| - |r|..]
    ensures r != [] ==> !IsWhitespace(r[0], lang)
    ensures forall i :: 0 <= i < |s| - |r| ==> IsWhitespace(s[i], lang)
  {
    if s != [] && IsWhitespace(s[0], lang) then
      var r := TrimStart(s[1..], lang);
      assert r == s[|s| - |r|..];
      assert forall i :: 0 <= i < |s| - |r| ==> IsWhitespace(s[i], lang) by {
        forall i | 1 <= i < |s| - |r|
          ensures IsWhitespace(s[i], lang)
        {
          assert s[i] == s[1..][i - 1];
        }
      }
      r
    else s
  }

  /** `s` without trailing white space. */
  function TrimEnd(s: string, lang: Lang): (r: string)
    ensures |r| <= |s| && r == s[..|r|]
    ensures r != [] ==> !IsWhitespace(r[|r| - 1], lang)
    ensures forall i :: |r| <= i < |s| ==> IsWhitespace(s[i], lang)
  {
    if s != [] && IsWhitespace(s[|s| - 1], lang) then
      var r := TrimEnd(s[..|s| - 1], lang);
      assert r == s[..|r|];
      assert r != [] ==> !IsWhitespace(r[|r| - 1], lang);
      assert forall i :: |r| <= i < |s| ==> IsWhitespace(s[i], lang) by {
        forall i | |r| <= i < |s| - 1
          ensures IsWhitespace(s[i], lang)
        {
          assert s[i] == s[..|s| - 1][i];
        }
      }
      r
    else s
  }

  /** JavaScript `trim()` (for Js) and Python `strip()` (for Py): both ends cleared of white space. */
  function Trim(s: string, lang: Lang): (r: string)
    ensures r != [] ==> !IsWhitespace(r[0], lang) && !IsWhitespace(r[|r| - 1], lang)
    ensures (s == [] || (!IsWhitespace(s[0], lang) && !IsWhitespace(s[|s| - 1], lang))) ==> r == s
  {
    TrimEnd(TrimStart(s, lang), lang)
  }

  /** `parts.map(part => part.trim())` and `[x.strip() for x in parts]`. */
  function TrimAll(parts: seq<string>, lang: Lang): (r: seq<string>)
    ensures |r| == |parts|
    ensures forall i :: 0 <= i < |r| ==> r[i] == Trim(parts[i], lang)
  {
    if parts == [] then [] else [Trim(parts[0], lang)] + TrimAll(parts[1..], lang)
  }

  /** A string of digits has no white space at either end. */
  lemma TrimDigits(s: string, lang: Lang)
    requires AllDigits(s)
    ensures Trim(s, lang) == s
  {
    if s != [] {
      NotWhitespace(s[0], lang);
      NotWhitespace(s[|s| - 1], lang);
    }
  }


  function DigitValue(c: char): nat
    requires IsDigit(c)
  {
    (c as int - '0' as int) as nat
  }

  function DigitChar(d: nat): (c: char)
    requires d < 10
    ensures IsDigit(c) && DigitValue(c) == d
  {
    ('0' as int + d) as char
  }

  predicate AllDigits(s: string) {
    forall i :: 0 <= i < |s| ==> IsDigit(s[i])
  }

  /** The number written in decimal by the digit string `s`. */
  function DecimalValue(s: string): nat
    requires AllDigits(s)
  {
    if s == [] then 0 else DecimalValue(s[..|s| - 1]) * 10 + DigitValue(s[|s| - 1])
  }

  /** The decimal value of a digit string with one more digit at the end. */
  lemma DecimalValueSnoc(s: string, c: char)
    requires AllDigits(s) && IsDigit(c)
    ensures AllDigits(s + [c]) && DecimalValue(s + [c]) == DecimalValue(s) * 10 + DigitValue(c)
  {
    assert (s + [c])[..|s|] == s;
  }

  /** JavaScript `n.toString()` for a non-negative integer: its decimal digits, without leading zeros. */
  function NatToString(n: nat): (r: string)
    ensures r != [] && AllDigits(r) && DecimalValue(r) == n
    ensures r[0] == '0' ==> r == "0"
  {
    if n < 10 then [DigitChar(n)]
    else
      var prefix := NatToString(n / 10);
      DecimalValueSnoc(prefix, DigitChar(n % 10));
      prefix + [DigitChar(n % 10)]
  }

  /** The value of `c` as a digit in radices up to 36: 0-9, then the letters in either case; 36 for any other character. */
  function RadixDigitValue(c: char): (d: nat)
    ensures d <= 36
    ensures d < 10 <==> IsDigit(c)
    ensures IsDigit(c) ==> d == DigitValue(c)
  {
    if '0' <= c <= '9' then c as int - '0' as int
    else if 'a' <= c <= 'z' then c as int - 'a' as int + 10
    else if 'A' <= c <= 'Z' then c as int - 'A' as int + 10
    else 36
  }

  predicate AllRadix(s: string, radix: nat) {
    forall i :: 0 <= i < |s| ==> RadixDigitValue(s[i]) < radix
  }

  /** The number written by the digit string `s` in radix `radix`. */
  function RadixValue(s: string, radix: nat): nat {
    if s == [] then 0 else RadixValue(s[..|s| - 1], radix) * radix + RadixDigitValue(s[|s| - 1])
  }

  /** In radix ten the reading is the decimal one. */
  lemma {:induction false} RadixTenIsDecimal(s: string)
    requires AllDigits(s)
    ensures RadixValue(s, 10) == DecimalValue(s)
  {
    if s != [] {
      RadixTenIsDecimal(s[..|s| - 1]);
    }
  }

  /** The longest prefix of `s` made of digits of radix `radix`. */
  function RadixPrefix(s: string, radix: nat): (r: string)
    ensures StartsWith(s, r) && AllRadix(r, radix)
    ensures |r| < |s| ==> RadixDigitValue(s[|r|]) >= radix
  {
    if s != [] && RadixDigitValue(s[0]) < radix then [s[0]] + RadixPrefix(s[1..], radix) else []
  }

  /** A string that starts with radix digits up to a non-digit has those digits as its prefix. */
  lemma {:induction false} RadixPrefixOf(ds: string, rest: string, radix: nat)
    requires AllRadix(ds, radix) && (rest == [] || RadixDigitValue(rest[0]) >= radix)
    ensures RadixPrefix(ds + rest, radix) == ds
  {
    if ds != [] {
      assert (ds + rest)[1..] == ds[1..] + rest;
      RadixPrefixOf(ds[1..], rest, radix);
      assert [ds[0]] + ds[1..] == ds;
    } else {
      assert ds + rest == rest;
    }
  }

  /**
   * JavaScript `parseInt(s)` without a radix: leading white space is skipped, an
   * optional sign may follow, then "0x" or "0X" selects radix 16 and otherwise the
   * radix is ten, and the longest run of digits of that radix is read; no digit at
   * all gives NaN, here None. Whatever follows the digits is ignored.
   */
  function JsParseInt(s: string): (r: Option<int>)
    ensures r.Some? ==> TrimStart(s, Js) != []
  {
    var t := TrimStart(s, Js);
    var u := if t != [] && (t[0] == '-' || t[0] == '+') then t[1..] else t;
    var hex := |u| >= 2 && u[0] == '0' && (u[1] == 'x' || u[1] == 'X');
    var radix := if hex then 16 else 10;
    var ds := RadixPrefix(if hex then u[2..] else u, radix);
    if ds == [] then None
    else if t[0] == '-' then Some(-(RadixValue(ds, radix) as int))
    else Some(RadixValue(ds, radix) as int)
  }

  /**
   * `parseInt` reads the leading decimal digits and ignores the rest, unless the
   * digits are a lone "0" followed by "x" or "X".
   */
  lemma JsParseIntLeadingDigits(ds: string, rest: string)
    requires ds != [] && AllDigits(ds) && (rest == [] || !IsDigit(rest[0]))
    requires !(ds == "0" && rest != [] && (rest[0] == 'x' || rest[0] == 'X'))
    ensures JsParseInt(ds + rest) == Some(DecimalValue(ds) as int)
  {
    var s := ds + rest;
    assert s[0] == ds[0] && IsDigit(s[0]);
    NotWhitespace(s[0], Js);
    assert TrimStart(s, Js) == s;
    assert !(|s| >= 2 && s[0] == '0' && (s[1] == 'x' || s[1] == 'X')) by {
      if |ds| >= 2 {
        assert s[1] == ds[1];
      } else if |s| >= 2 {
        assert s[1] == rest[0];
      }
    }
    assert s[0] != '-' && s[0] != '+';
    DecimalPrefix(ds, rest);
  }

  /** Leading decimal digits up to a non-digit are the radix-10 prefix, worth their decimal value. */
  lemma DecimalPrefix(ds: string, rest: string)
    requires AllDigits(ds) && (rest == [] || !IsDigit(rest[0]))
    ensures RadixPrefix(ds + rest, 10) == ds && RadixValue(ds, 10) == DecimalValue(ds)
  {
    assert AllRadix(ds, 10) by {
      assert forall i :: 0 <= i < |ds| ==> IsDigit(ds[i]);
    }
    RadixPrefixOf(ds, rest, 10);
    RadixTenIsDecimal(ds);
  }

  /** `parseInt` of "0x" and hexadecimal digits is their hexadecimal value. */
  lemma JsParseIntHex(h: string)
    requires h != [] && AllRadix(h, 16)
    ensures JsParseInt("0x" + h) == Some(RadixValue(h, 16) as int)
  {
    var s := "0x" + h;
    assert s[0] == '0' && s[1] == 'x' && s[2..] == h;
    NotWhitespace(s[0], Js);
    assert TrimStart(s, Js) == s;
    RadixPrefixOf(h, [], 16);
    assert h + [] == h;
  }

  /**
   * A character Python's `int()` reads as a decimal digit: an ASCII digit, an
   * Arabic-Indic digit (U+0660..U+0669) or an Extended Arabic-Indic digit
   * (U+06F0..U+06F9).
   */
  predicate IsPyDigit(c: char) {
    IsDigit(c) || ('\U{660}' <= c <= '\U{669}') || ('\U{6F0}' <= c <= '\U{6F9}')
  }

  function PyDigitValue(c: char): (d: nat)
    requires IsPyDigit(c)
    ensures d < 10
    ensures IsDigit(c) ==> d == DigitValue(c)
  {
    if IsDigit(c) then DigitValue(c)
    else if c <= '\U{669}' then c as int - 0x660
    else c as int - 0x6F0
  }

  /**
   * The digits `int()` accepts after the sign: ASCII digits and the Arabic-Indic
   * and Extended Arabic-Indic digits (U+0660..U+0669, U+06F0..U+06F9), with single
   * underscores between two digits. Their value, the underscores skipped, or
   * None when `ds` is not such a run. The other Unicode decimal digits are not
   * part of this model.
   */
  function PyDigits(ds: string): Option<nat> {
    if ds == [] || !IsPyDigit(ds[|ds| - 1]) then None
    else
      var init := ds[..|ds| - 1];
      var d := PyDigitValue(ds[|ds| - 1]);
      if init == [] then Some(d)
      else
        var prefix := if init[|init| - 1] == '_' then init[..|init| - 1] else init;
        match PyDigits(prefix)
        case None => None
        case Some(v) => Some(v * 10 + d)
  }

  /**
   * Python `int(s)` on a string: surrounding white space is ignored, an optional
   * sign may come first, and a run of decimal digits with single underscores
   * between digits must follow; anything else raises ValueError, here None.
   */
  function PyInt(s: string): (r: Option<int>)
    ensures r.Some? ==> Trim(s, Py) != []
  {
    var t := Trim(s, Py);
    if t == [] then None
    else
      var ds := if t[0] == '-' || t[0] == '+' then t[1..] else t;
      match PyDigits(ds)
      case None => None
      case Some(v) => Some(if t[0] == '-' then -(v as int) else v as int)
  }

  /** An ASCII digit string is a run `int()` accepts, worth its decimal value. */
  lemma {:induction false} AsciiPyDigits(ds: string)
    requires ds != [] && AllDigits(ds)
    ensures PyDigits(ds) == Some(DecimalValue(ds))
  {
    var init := ds[..|ds| - 1];
    if init != [] {
      AsciiPyDigits(init);
    }
  }

  /** Python `int()` of ASCII digits is their decimal value. */
  lemma PyIntOfDigits(ds: string)
    requires ds != [] && AllDigits(ds)
    ensures PyInt(ds) == Some(DecimalValue(ds) as int)
  {
    TrimDigits(ds, Py);
    assert IsDigit(ds[0]);
    AsciiPyDigits(ds);
  }

  /** Python `int()` of two digits. */
  lemma PyIntTwoDigits(s: string)
    requires |s| == 2 && AllDigits(s)
    ensures PyInt(s) == Some(DigitValue(s[0]) * 10 + DigitValue(s[1]))
  {
    var v := DigitValue(s[0]) * 10 + DigitValue(s[1]);
    TwoDigitValue(s);
    assert DecimalValue(s) as int == v;
    PyIntOfDigits(s);
  }

  lemma TwoDigitValue(s: string)
    requires |s| == 2 && AllDigits(s)
    ensures DecimalValue(s) == DigitValue(s[0]) * 10 + DigitValue(s[1])
  {
    var first := s[..1];
    assert first[..0] == [] && first[0] == s[0];
    assert DecimalValue(first) == DigitValue(s[0]);
    assert s[..|s| - 1] == first;
  }

  /** The Arabic-Indic digits (U+0660..U+0669) for an ASCII digit string. */
  function ArabicIndic(ds: string): (r: string)
    requires AllDigits(ds)
    ensures |r| == |ds|
    ensures forall i :: 0 <= i < |r| ==> '\U{660}' <= r[i] <= '\U{669}' && r[i] as int - 0x660 == DigitValue(ds[i])
  {
    seq(|ds|, i requires 0 <= i < |ds| => (0x660 + DigitValue(ds[i])) as char)
  }

  lemma {:induction false} ArabicIndicValue(ds: string)
    requires ds != [] && AllDigits(ds)
    ensures PyDigits(ArabicIndic(ds)) == Some(DecimalValue(ds))
  {
    var a := ArabicIndic(ds);
    var init := ds[..|ds| - 1];
    assert a[..|a| - 1] == ArabicIndic(init);
    assert IsPyDigit(a[|a| - 1]) && PyDigitValue(a[|a| - 1]) == DigitValue(ds[|ds| - 1]);
    if init != [] {
      ArabicIndicValue(init);
      assert a[|a| - 2] != '_';
    }
  }

  /** Python `int()` reads Arabic-Indic digits as their ASCII counterparts: "٢٠" is 20. */
  lemma PyIntArabicIndic(ds: string)
    requires ds != [] && AllDigits(ds)
    ensures PyInt(ArabicIndic(ds)) == Some(DecimalValue(ds) as int)
  {
    var a := ArabicIndic(ds);
    NotWhitespace(a[0], Py);
    NotWhitespace(a[|a| - 1], Py);
    assert Trim(a, Py) == a;
    assert a[0] != '-' && a[0] != '+';
    ArabicIndicValue(ds);
  }

  /** One more digit after a run that is not left open by an underscore. */
  lemma PyDigitsLast(ds: string)
    requires |ds| >= 2 && IsDigit(ds[|ds| - 1]) && ds[|ds| - 2] != '_' && PyDigits(ds[..|ds| - 1]).Some?
    ensures PyDigits(ds) == Some(PyDigits(ds[..|ds| - 1]).value * 10 + DigitValue(ds[|ds| - 1]))
  {
  }

  /** An underscore and one more digit after a run. */
  lemma PyDigitsUnderscoreSnoc(p: string, c: char)
    requires p != [] && PyDigits(p).Some? && IsDigit(c)
    ensures PyDigits(p + "_" + [c]) == Some(PyDigits(p).value * 10 + DigitValue(c))
  {
    var s := p + "_" + [c];
    assert s[..|s| - 1] == p + "_";
    assert (p + "_")[..|p|] == p;
  }

  /** An underscore between two digit strings is skipped. */
  lemma {:induction false} UnderscoreSkipped(a: string, b: string)
    requires a != [] && b != [] && AllDigits(a) && AllDigits(b)
    ensures AllDigits(a + b) && PyDigits(a + "_" + b) == Some(DecimalValue(a + b))
    decreases |b|
  {
    var c, b' := b[|b| - 1], b[..|b| - 1];
    var s := a + "_" + b;
    assert IsDigit(c) && AllDigits(b');
    assert s == (a + "_" + b') + [c];
    assert a + b == (a + b') + [c];
    DecimalValueSnoc(a + b', c);
    if b' == [] {
      AsciiPyDigits(a);
      assert a + "_" + b' == a + "_" && a + b' == a;
      PyDigitsUnderscoreSnoc(a, c);
    } else {
      UnderscoreSkipped(a, b');
      assert s[..|s| - 1] == a + "_" + b' && s[|s| - 2] == b'[|b'| - 1];
      PyDigitsLast(s);
    }
    assert PyDigits(s) == Some(DecimalValue(a + b') * 10 + DigitValue(c));
  }

  /** Python `int()` skips an underscore between digits: "1_000" is 1000. */
  lemma PyIntUnderscore(a: string, b: string)
    requires a != [] && b != [] && AllDigits(a) && AllDigits(b)
    ensures PyInt(a + "_" + b) == PyInt(a + b)
  {
    var s := a + "_" + b;
    UnderscoreSkipped(a, b);
    assert s[0] == a[0] && s[|s| - 1] == b[|b| - 1];
    NotWhitespace(s[0], Py);
    NotWhitespace(s[|s| - 1], Py);
    assert Trim(s, Py) == s;
    assert s[0] != '-' && s[0] != '+';
    PyIntOfDigits(a + b);
  }

  function Pow10(n: nat): (r: nat)
    ensures r >= 1
  {
    if n == 0 then 1 else 10 * Pow10(n - 1)
  }

  /** The last `width` decimal digits of `n`, zero-padded on the left (`%02d`, `%04d`). */
  function Pad(n: nat, width: nat): (r: string)
    ensures |r| == width && AllDigits(r)
  {
    if width == 0 then "" else Pad(n / 10, width - 1) + [DigitChar(n % 10)]
  }

  /** For numbers that fit the width, the padded form determines the number. */
  lemma {:induction false} PadInjective(a: nat, b: nat, width: nat)
    requires a < Pow10(width) && b < Pow10(width)
    requires Pad(a, width) == Pad(b, width)
    ensures a == b
  {
    if width > 0 {
      var pa, pb := Pad(a / 10, width - 1), Pad(b / 10, width - 1);
      assert Pad(a, width) == pa + [DigitChar(a % 10)];
      assert Pad(b, width) == pb + [DigitChar(b % 10)];
      assert pa == Pad(a, width)[..width - 1] == Pad(b, width)[..width - 1] == pb;
      assert DigitChar(a % 10) == Pad(a, width)[width - 1] == DigitChar(b % 10);
      assert a % 10 == DigitValue(DigitChar(a % 10)) == b % 10;
      PadInjective(a / 10, b / 10, width - 1);
    }
  }
}

/** String and integer helpers shared by the model: the handful of Python `str`
    and `int` behaviours the core relies on (`str(n)`, `int(s)`, `in` on strings,
    `startswith`, `count`, `split`, `strip`), each stated as a function with the
    property the code depends on. */
module Text {

  datatype Option<T> = None | Some(value: T)

  // ---------------------------------------------------------------------------
  // Decimal digits and str(n)

  predicate IsDigit(c: char) { '0' <= c <= '9' }

  function DigitChar(d: nat): (c: char)
    requires d < 10
    ensures IsDigit(c)
  {
    "0123456789"[d]
  }

  function DigitValue(c: char): (d: nat)
    requires IsDigit(c)
    ensures d < 10
  {
    (c as int - '0' as int) as nat
  }

  predicate AllDigits(s: string) { forall k :: 0 <= k < |s| ==> IsDigit(s[k]) }

  /** The value of a string of decimal digits, most significant first. */
  function DigitsValue(s: string): nat
    requires AllDigits(s)
  {
    if s == [] then 0 else DigitsValue(s[..|s| - 1]) * 10 + DigitValue(s[|s| - 1])
  }

  /** Python's `str(n)` for a natural number. */
  function NatToString(n: nat): (r: string)
    ensures r != [] && AllDigits(r)
    decreases n
  {
    if n < 10 then [DigitChar(n)] else NatToString(n / 10) + [DigitChar(n % 10)]
  }

  /** Python's `str(i)` for any integer: a minus sign before negative values. */
  function IntToString(i: int): (r: string)
    ensures r != []
    ensures i >= 0 ==> r == NatToString(i)
    ensures i < 0 ==> r == "-" + NatToString(-i)
  {
    if i < 0 then "-" + NatToString(-i) else NatToString(i)
  }

  /** Reading back the digits written by `NatToString` gives the number. */
  lemma {:induction false} NatToStringValue(n: nat)
    ensures DigitsValue(NatToString(n)) == n
    decreases n
  {
    var r := NatToString(n);
    if n < 10 {
      assert r[..|r| - 1] == [];
    } else {
      NatToStringValue(n / 10);
      assert r[..|r| - 1] == NatToString(n / 10);
    }
  }

  // ---------------------------------------------------------------------------
  // int(s) after strip(): an optional sign, then decimal digits where single
  // underscores may separate two digits (Python accepts "1_000").

  predicate ValidDigitGroups(b: string)
  {
    && b != []
    && IsDigit(b[0]) && IsDigit(b[|b| - 1])
    && (forall k :: 0 <= k < |b| ==> IsDigit(b[k]) || b[k] == '_')
    && (forall k :: 0 <= k < |b| - 1 ==> !(b[k] == '_' && b[k + 1] == '_'))
  }

  /** The characters of `s` with every underscore removed. */
  function WithoutUnderscores(s: string): (r: string)
    ensures |r| <= |s|
    ensures (forall k :: 0 <= k < |s| ==> IsDigit(s[k]) || s[k] == '_') ==> AllDigits(r)
    ensures AllDigits(s) ==> r == s
  {
    if s == [] then []
    else if s[0] == '_' then WithoutUnderscores(s[1..])
    else [s[0]] + WithoutUnderscores(s[1..])
  }

  /** `s` without its leading sign, if it has one. */
  function Unsigned(s: string): string
  {
    if s != [] && (s[0] == '-' || s[0] == '+') then s[1..] else s
  }

  /** Python's `int(s)` on a string that has no surrounding white space:
      `None` stands for the `ValueError` it raises. It succeeds exactly on an
      optional sign followed by digits that single underscores may separate,
      and then reads the digits without the underscores; anything holding
      another character, such as a letter, raises. */
  function ParseInt(s: string): (r: Option<int>)
    ensures r.Some? <==> s != [] && ValidDigitGroups(Unsigned(s))
    ensures r.Some? ==> var v: int := DigitsValue(WithoutUnderscores(Unsigned(s)));
                        r.value == if s[0] == '-' then -v else v
    ensures r.Some? ==> forall k :: 0 <= k < |s| ==> IsDigit(s[k]) || s[k] == '_' || (k == 0 && (s[k] == '-' || s[k] == '+'))
    ensures s != [] && AllDigits(s) ==> r == Some(DigitsValue(s))
    ensures s != [] && (s[0] == '-' || s[0] == '+') && AllDigits(s[1..]) && |s| > 1 ==>
              var v: int := DigitsValue(s[1..]);
              r == Some(if s[0] == '-' then -v else v)
  {
    if s == [] then None
    else
      var body := Unsigned(s);
      UnsignedShape(s);
      DigitsAreGroups(body);
      if !ValidDigitGroups(body) then None
      else
        var v: int := DigitsValue(WithoutUnderscores(body));
        Some(if s[0] == '-' then -v else v)
  }

  /** Without its sign, `s` is the rest of it from the first or the second
      character. */
  lemma UnsignedShape(s: string)
    requires s != []
    ensures var b := Unsigned(s);
            && (if s[0] == '-' || s[0] == '+' then b == s[1..] else b == s)
            && forall k :: 0 <= k < |b| ==> b[k] == s[k + |s| - |b|]
  {
  }

  /** Plain digits are valid digit groups with nothing to remove. */
  lemma DigitsAreGroups(b: string)
    ensures b != [] && AllDigits(b) ==> ValidDigitGroups(b) && WithoutUnderscores(b) == b
  {
  }

  /** A text holding no digit at all, such as "abc", makes `int()` raise,
      whatever white space surrounds it. */
  lemma NoDigitRaises(s: string)
    requires forall k :: 0 <= k < |s| ==> !IsDigit(s[k])
    ensures ParseInt(Strip(s)).None?
  {
    StripSlice(s);
    var i, j :| 0 <= i <= j <= |s| && Strip(s) == s[i..j];
    NoDigitNoInt(s[i..j]);
  }

  lemma NoDigitNoInt(t: string)
    requires forall k :: 0 <= k < |t| ==> !IsDigit(t[k])
    ensures ParseInt(t).None?
  {
    var b := Unsigned(t);
    if b != [] {
      assert b[0] == t[0] || b[0] == t[1];
    }
  }

  /** `int("+5")` is 5: a plus sign before the digits is accepted. */
  lemma PlusSignParses(n: nat)
    ensures ParseInt("+" + NatToString(n)) == Some(n)
  {
    var digits := NatToString(n);
    var s := "+" + digits;
    NatToStringValue(n);
    assert ValidDigitGroups(digits);
    assert WithoutUnderscores(digits) == digits;
    assert s[0] == '+' && s[1..] == digits;
  }

  /** `ParseInt` reads back what `IntToString` writes. */
  lemma IntToStringParses(i: int)
    ensures ParseInt(IntToString(i)) == Some(i)
  {
    var n: nat := if i < 0 then -i else i;
    var digits := NatToString(n);
    NatToStringValue(n);
    assert ValidDigitGroups(digits);
    assert WithoutUnderscores(digits) == digits;
    var s := IntToString(i);
    if i < 0 {
      assert s[0] == '-' && s[1..] == digits;
    } else {
      assert s == digits && s[0] != '-' && s[0] != '+';
    }
  }

  // ---------------------------------------------------------------------------
  // Substrings

  /** Python's `sub in s` for strings. */
  predicate Contains(s: string, sub: string)
    decreases |s|
  {
    |sub| <= |s| && (s[..|sub|] == sub || Contains(s[1..], sub))
  }

  /** A string contains every piece it is glued from. */
  lemma {:induction false} ContainsMiddle(a: string, b: string, c: string)
    ensures Contains(a + b + c, b)
    decreases |a|
  {
    var s := a + b + c;
    if a == [] {
      assert s[..|b|] == b;
    } else {
      assert s[1..] == a[1..] + b + c;
      ContainsMiddle(a[1..], b, c);
    }
  }

  /** Python's `s.startswith(prefix)`. */
  predicate StartsWith(s: string, prefix: string)
  {
    |prefix| <= |s| && s[..|prefix|] == prefix
  }

  /** Python's `s.count(c)` for a single character. */
  function CountChar(s: string, c: char): (n: nat)
    ensures n <= |s|
    ensures n == 0 <==> c !in s
  {
    if s == [] then 0 else (if s[0] == c then 1 else 0) + CountChar(s[1..], c)
  }

  // ---------------------------------------------------------------------------
  // split on one character

  /** The position of the first `c` in `s`. */
  function IndexOf(s: string, c: char): (i: nat)
    requires c in s
    ensures i < |s| && s[i] == c && c !in s[..i]
  {
    if s[0] == c then 0 else 1 + IndexOf(s[1..], c)
  }

  /** The inverse of `Split`: the pieces glued back with the separator. */
  function Join(parts: seq<string>, sep: char): string
  {
    if parts == [] then []
    else if |parts| == 1 then parts[0]
    else parts[0] + [sep] + Join(parts[1..], sep)
  }

  /** Python's `s.split(sep)` for a one-character separator: always at least one
      piece, no piece holds the separator, and gluing the pieces back with the
      separator gives `s`. */
  function Split(s: string, sep: char): (parts: seq<string>)
    ensures |parts| == CountChar(s, sep) + 1
    ensures forall k :: 0 <= k < |parts| ==> sep !in parts[k]
    ensures Join(parts, sep) == s
    decreases |s|
  {
    if sep !in s then [s]
    else
      var i := IndexOf(s, sep);
      var rest := Split(s[i + 1..], sep);
      assert s == s[..i] + [sep] + s[i + 1..];
      CountSplit(s, sep, i);
      [s[..i]] + rest
  }

  lemma {:induction false} CountSplit(s: string, c: char, i: nat)
    requires i < |s| && s[i] == c && c !in s[..i]
    ensures CountChar(s, c) == 1 + CountChar(s[i + 1..], c)
    decreases i
  {
    if i > 0 {
      assert s[1..][..i - 1] == s[..i][1..];
      CountSplit(s[1..], c, i - 1);
      assert s[1..][i..] == s[i + 1..];
    }
  }

  /** The first piece of a split is the text before the first separator. */
  lemma SplitFirst(s: string, sep: char)
    requires sep in s
    ensures Split(s, sep)[0] == s[..IndexOf(s, sep)]
  {
  }

  /** The second piece of a split is the text after the first separator, up
      to the next one or the end. */
  lemma SplitSecond(s: string, sep: char)
    requires sep in s
    ensures |Split(s, sep)| >= 2
    ensures var rest := s[IndexOf(s, sep) + 1..];
            Split(s, sep)[1] == if sep in rest then rest[..IndexOf(rest, sep)] else rest
  {
    var rest := s[IndexOf(s, sep) + 1..];
    if sep in rest {
      SplitFirst(rest, sep);
    }
  }

  /** A piece without the separator appended after one more separator is one
      more piece. */
  lemma {:induction false} SplitAppend(s: string, sep: char, t: string)
    requires sep !in t
    ensures Split(s + [sep] + t, sep) == Split(s, sep) + [t]
    decreases |s|
  {
    var u := s + [sep] + t;
    if sep !in s {
      SplitTwo(s, t, sep);
    } else {
      var i := IndexOf(s, sep);
      assert u[..i] == s[..i] && u[i] == sep;
      IndexOfFirst(u, sep, i);
      assert u[i + 1..] == s[i + 1..] + [sep] + t;
      SplitAppend(s[i + 1..], sep, t);
      var rest := Split(s[i + 1..], sep);
      assert sep in u;
      assert Split(u, sep) == [s[..i]] + (rest + [t]);
      assert Split(s, sep) == [s[..i]] + rest;
      ConsSnoc(s[..i], rest, t);
    }
  }

  lemma NotInConcat<T>(a: seq<T>, b: seq<T>, c: seq<T>, x: T)
    requires x !in a && x !in b && x !in c
    ensures x !in a + b + c
  {
  }

  lemma ConsSnoc<T>(x: T, r: seq<T>, y: T)
    ensures [x] + (r + [y]) == ([x] + r) + [y]
  {
  }

  lemma ConsConcat<T>(x: T, r: seq<T>, q: seq<T>)
    ensures [x] + (r + q) == ([x] + r) + q
  {
  }

  /** Splitting "g:n" when neither part holds the separator gives back the parts. */
  lemma SplitTwo(g: string, n: string, sep: char)
    requires sep !in g && sep !in n
    ensures Split(g + [sep] + n, sep) == [g, n]
  {
    var s := g + [sep] + n;
    assert s[|g|] == sep && s[..|g|] == g;
    assert IndexOf(s, sep) == |g| by { IndexOfFirst(s, sep, |g|); }
    assert s[|g| + 1..] == n;
  }

  /** `Split` undoes `Join` when no piece holds the separator. */
  lemma {:induction false} SplitJoin(parts: seq<string>, sep: char)
    requires parts != []
    requires forall k :: 0 <= k < |parts| ==> sep !in parts[k]
    ensures Split(Join(parts, sep), sep) == parts
    decreases |parts|
  {
    if |parts| > 1 {
      var rest := Join(parts[1..], sep);
      var s := parts[0] + [sep] + rest;
      assert s[|parts[0]|] == sep && s[..|parts[0]|] == parts[0];
      IndexOfFirst(s, sep, |parts[0]|);
      assert s[|parts[0]| + 1..] == rest;
      SplitJoin(parts[1..], sep);
    }
  }

  lemma {:induction false} IndexOfFirst(s: string, c: char, i: nat)
    requires i < |s| && s[i] == c && c !in s[..i]
    ensures IndexOf(s, c) == i
    decreases i
  {
    if i > 0 {
      assert s[0] in s[..i];
      assert s[1..][..i - 1] == s[..i][1..];
      IndexOfFirst(s[1..], c, i - 1);
    }
  }

  // ---------------------------------------------------------------------------
  // strip()

  /** Python's `str.isspace` for one character, by code point: U+0009-U+000D,
      U+001C-U+0020, U+0085, U+00A0, U+1680, U+2000-U+200A, U+2028, U+2029,
      U+202F, U+205F and U+3000. */
  predicate IsSpace(c: char)
  {
    var n := c as int;
    || 0x09 <= n <= 0x0D || 0x1C <= n <= 0x20 || n == 0x85 || n == 0xA0 || n == 0x1680
    || 0x2000 <= n <= 0x200A || n == 0x2028 || n == 0x2029 || n == 0x202F || n == 0x205F
    || n == 0x3000
  }

  predicate AllSpace(s: string) { forall k :: 0 <= k < |s| ==> IsSpace(s[k]) }

  /** Neither end of `s` is white space. */
  predicate NoOuterSpace(s: string) { s != [] ==> !IsSpace(s[0]) && !IsSpace(s[|s| - 1]) }

  function TrimStart(s: string): (r: string)
    ensures |r| <= |s| && r == s[|s| - |r|..]
    ensures AllSpace(s[..|s| - |r|])
    ensures r != [] ==> !IsSpace(r[0])
  {
    if s != [] && IsSpace(s[0]) then
      var r := TrimStart(s[1..]);
      assert s[..|s| - |r|] == [s[0]] + s[1..][..|s| - 1 - |r|];
      r
    else s
  }

  function TrimEnd(s: string): (r: string)
    ensures |r| <= |s| && r == s[..|r|]
    ensures AllSpace(s[|r|..])
    ensures r != [] ==> !IsSpace(r[|r| - 1])
  {
    if s != [] && IsSpace(s[|s| - 1]) then
      var r := TrimEnd(s[..|s| - 1]);
      assert s[|r|..] == s[..|s| - 1][|r|..] + [s[|s| - 1]];
      r
    else s
  }

  /** Python's `s.strip()`: a slice of `s` with white space around it removed;
      it starts and ends with a character that is not white space. */
  function Strip(s: string): (r: string)
    ensures |r| <= |s|
    ensures NoOuterSpace(r)
  {
    TrimEnd(TrimStart(s))
  }

  /** What `Strip` removes is white space on either side of a slice. */
  lemma StripSlice(s: string)
    ensures exists i, j :: 0 <= i <= j <= |s| && Strip(s) == s[i..j]
                           && AllSpace(s[..i]) && AllSpace(s[j..])
  {
    var t := TrimStart(s);
    var r := TrimEnd(t);
    var i := |s| - |t|;
    assert r == s[i..i + |r|];
    assert s[i + |r|..] == t[|r|..];
  }

  /** Stripping leaves nothing exactly when every character is white space. */
  lemma StripEmpty(s: string)
    ensures Strip(s) == [] <==> AllSpace(s)
  {
    var t := TrimStart(s);
    if TrimEnd(t) == [] {
      assert t[0..] == t;
      assert s == s[..|s| - |t|] + t;
    }
  }

  lemma {:induction false} TrimStartPadded(pre: string, x: string)
    requires AllSpace(pre) && x != [] && !IsSpace(x[0])
    ensures TrimStart(pre + x) == x
    decreases |pre|
  {
    if pre != [] {
      assert (pre + x)[0] == pre[0] && (pre + x)[1..] == pre[1..] + x;
      TrimStartPadded(pre[1..], x);
    } else {
      assert pre + x == x;
    }
  }

  lemma {:induction false} TrimEndPadded(x: string, post: string)
    requires AllSpace(post) && x != [] && !IsSpace(x[|x| - 1])
    ensures TrimEnd(x + post) == x
    decreases |post|
  {
    var s := x + post;
    if post != [] {
      assert s[|s| - 1] == post[|post| - 1] && s[..|s| - 1] == x + post[..|post| - 1];
      TrimEndPadded(x, post[..|post| - 1]);
    } else {
      assert s == x;
    }
  }

  /** White space around a text that neither starts nor ends with white space
      is exactly what `strip()` removes. */
  lemma StripPadded(pre: string, x: string, post: string)
    requires AllSpace(pre) && AllSpace(post) && x != [] && NoOuterSpace(x)
    ensures Strip(pre + x + post) == x
  {
    assert pre + x + post == pre + (x + post);
    TrimStartPadded(pre, x + post);
    TrimEndPadded(x, post);
  }

  /** A string with no white space at either end strips to itself. */
  lemma StripTrimmed(s: string)
    requires NoOuterSpace(s)
    ensures Strip(s) == s
  {
  }
}

/** The pure parts of utils/message_helper.py: the remaining-time text, the
    MarkdownV2 escaping, the text clean-up `send_formatted` applies before it
    sends, and the progress-bar arithmetic. */
module MessageHelper {
  import opened Text

  // ---------------------------------------------------------------------------
  // format_time_remaining (message_helper.py:279-302)

  datatype Clock = Clock(hours: nat, minutes: nat, seconds: nat)

  /** `s // 3600`, `(s % 3600) // 60` and `s % 60`. */
  function Decompose(s: nat): (c: Clock)
    ensures c.minutes < 60 && c.seconds < 60
    ensures c.hours * 3600 + c.minutes * 60 + c.seconds == s
  {
    Clock(s / 3600, (s % 3600) / 60, s % 60)
  }

  /** The hours, minutes and seconds of a duration are unique, so `Decompose`
      is the only split with minutes and seconds below 60. */
  lemma DecomposeUnique(s: nat, c: Clock)
    requires c.minutes < 60 && c.seconds < 60
    requires c.hours * 3600 + c.minutes * 60 + c.seconds == s
    ensures c == Decompose(s)
  {
    var d := Decompose(s);
    var low := c.minutes * 60 + c.seconds;
    var dlow := d.minutes * 60 + d.seconds;
    assert low < 3600 && dlow < 3600;
    assert (c.hours - d.hours) * 3600 == dlow - low;
    assert c.hours == d.hours;
    assert (c.minutes - d.minutes) * 60 == d.seconds - c.seconds;
    assert c.minutes == d.minutes;
  }

  const Done := "Готово"

  /** "Готово" for a non-positive duration; otherwise the two largest units
      starting at the largest one that is not zero. */
  function FormatTimeRemaining(seconds: int): (r: string)
    ensures seconds <= 0 <==> r == Done
    ensures seconds > 0 && Decompose(seconds).hours > 0 ==>
              r == NatToString(Decompose(seconds).hours) + "ч " + NatToString(Decompose(seconds).minutes) + "мин"
    ensures seconds > 0 && Decompose(seconds).hours == 0 && Decompose(seconds).minutes > 0 ==>
              r == NatToString(Decompose(seconds).minutes) + "мин " + NatToString(Decompose(seconds).seconds) + "с"
    ensures 0 < seconds < 60 ==> r == NatToString(seconds) + "с"
  {
    if seconds <= 0 then Done
    else
      var c := Decompose(seconds);
      var r :=
        if c.hours > 0 then NatToString(c.hours) + "ч " + NatToString(c.minutes) + "мин"
        else if c.minutes > 0 then NatToString(c.minutes) + "мин " + NatToString(c.seconds) + "с"
        else NatToString(c.seconds) + "с";
      assert IsDigit(r[0]) && !IsDigit(Done[0]);
      r
  }

  // ---------------------------------------------------------------------------
  // escape_markdown_v2 (message_helper.py:228-244)

  /** `special_chars`, in the order they are replaced. */
  const SpecialChars: seq<char> :=
    ['_', '*', '[', ']', '(', ')', '~', '`', '>', '#', '+', '-', '=', '|', '{', '}', '.', '!']

  predicate IsSpecial(c: char) { c in SpecialChars }

  /** Python's `s.replace(c, rep)` for a one-character pattern. */
  function Replace(s: string, c: char, rep: string): (r: string)
    ensures c !in s ==> r == s
  {
    if s == [] then [] else (if s[0] == c then rep else [s[0]]) + Replace(s[1..], c, rep)
  }

  lemma {:induction false} ReplaceConcat(a: string, b: string, c: char, rep: string)
    ensures Replace(a + b, c, rep) == Replace(a, c, rep) + Replace(b, c, rep)
    decreases |a|
  {
    if a == [] {
      assert a + b == b;
    } else {
      assert (a + b)[0] == a[0] && (a + b)[1..] == a[1..] + b;
      ReplaceConcat(a[1..], b, c, rep);
    }
  }

  /** Every character of `s` in `escaped` gets a backslash before it. */
  function EscapeWith(s: string, escaped: seq<char>): (r: string)
    ensures |r| >= |s|
  {
    if s == [] then []
    else (if s[0] in escaped then ['\\', s[0]] else [s[0]]) + EscapeWith(s[1..], escaped)
  }

  /** MarkdownV2 escaping as a per-character map. */
  function Escape(s: string): (r: string)
    ensures |r| >= |s|
    ensures r == [] <==> s == []
  {
    EscapeWith(s, SpecialChars)
  }

  /** Replacing one more character, never a backslash, on a text where some
      characters are already escaped escapes that character too. */
  lemma {:induction false} ReplaceStep(s: string, escaped: seq<char>, c: char)
    requires c !in escaped && c != '\\'
    ensures Replace(EscapeWith(s, escaped), c, ['\\', c]) == EscapeWith(s, escaped + [c])
    decreases |s|
  {
    if s != [] {
      var head := if s[0] in escaped then ['\\', s[0]] else [s[0]];
      ReplaceConcat(head, EscapeWith(s[1..], escaped), c, ['\\', c]);
      ReplaceStep(s[1..], escaped, c);
      if s[0] in escaped {
        assert Replace(head, c, ['\\', c]) == head by {
          assert head[1..] == [s[0]];
        }
      }
    }
  }

  /** No special character is listed twice. */
  lemma SpecialCharsDistinct(i: nat)
    requires i < |SpecialChars|
    ensures SpecialChars[i] !in SpecialChars[..i]
  {
  }

  /** `escape_markdown_v2`: the loop of `replace` calls over `special_chars`. */
  method EscapeMarkdownV2(text: string) returns (r: string)
    ensures r == Escape(text)
  {
    r := text;
    assert r == EscapeWith(text, SpecialChars[..0]) by { EscapeNothing(text); }
    for i := 0 to |SpecialChars|
      invariant r == EscapeWith(text, SpecialChars[..i])
    {
      SpecialCharsDistinct(i);
      ReplaceStep(text, SpecialChars[..i], SpecialChars[i]);
      r := Replace(r, SpecialChars[i], ['\\', SpecialChars[i]]);
      assert SpecialChars[..i + 1] == SpecialChars[..i] + [SpecialChars[i]];
    }
    assert SpecialChars[..|SpecialChars|] == SpecialChars;
  }

  lemma {:induction false} EscapeNothing(s: string)
    ensures EscapeWith(s, []) == s
    decreases |s|
  {
    if s != [] {
      EscapeNothing(s[1..]);
    }
  }

  /** The number of special characters in `s`. */
  function SpecialCount(s: string): nat
  {
    if s == [] then 0 else (if IsSpecial(s[0]) then 1 else 0) + SpecialCount(s[1..])
  }

  /** Escaping adds exactly one character per special character. */
  lemma {:induction false} EscapeLength(s: string)
    ensures |Escape(s)| == |s| + SpecialCount(s)
    decreases |s|
  {
    if s != [] {
      EscapeLength(s[1..]);
    }
  }

  /** Escaping works character by character, so it distributes over
      concatenation. */
  lemma {:induction false} EscapeConcat(a: string, b: string)
    ensures Escape(a + b) == Escape(a) + Escape(b)
    decreases |a|
  {
    if a == [] {
      assert a + b == b;
    } else {
      assert (a + b)[0] == a[0] && (a + b)[1..] == a[1..] + b;
      EscapeConcat(a[1..], b);
    }
  }

  /** Removes each backslash that stands before a special character. */
  function Unescape(t: string): string
  {
    if t == [] then []
    else if |t| >= 2 && t[0] == '\\' && IsSpecial(t[1]) then [t[1]] + Unescape(t[2..])
    else [t[0]] + Unescape(t[1..])
  }

  /** An escaped text never starts with a special character. */
  lemma EscapeStartsPlain(s: string)
    requires s != []
    ensures !IsSpecial(Escape(s)[0])
  {
  }

  /** Escaping loses nothing: unescaping gives the original text back. */
  lemma {:induction false} UnescapeEscape(s: string)
    ensures Unescape(Escape(s)) == s
    decreases |s|
  {
    if s != [] {
      var rest := Escape(s[1..]);
      UnescapeEscape(s[1..]);
      if IsSpecial(s[0]) {
        assert Escape(s) == ['\\', s[0]] + rest;
        assert (['\\', s[0]] + rest)[2..] == rest;
      } else {
        assert Escape(s) == [s[0]] + rest;
        if rest != [] {
          EscapeStartsPlain(s[1..]);
        }
        assert ([s[0]] + rest)[1..] == rest;
      }
    }
  }

  // ---------------------------------------------------------------------------
  // The text check of send_formatted (message_helper.py:44-51)

  const EmptyNotice := "⚠️ Пустое сообщение"
  const MaxMessageLength := 4096
  const KeptLength := 4090

  /** Empty or blank text becomes the notice; text over 4096 characters keeps
      its first 4090 and gets "..."; anything else is sent as it is. */
  function NormalizeText(text: string): (r: string)
    ensures 0 < |r| <= MaxMessageLength
    ensures AllSpace(text) ==> r == EmptyNotice
    ensures !AllSpace(text) && |text| <= MaxMessageLength ==> r == text
    ensures !AllSpace(text) && |text| > MaxMessageLength ==> r == text[..KeptLength] + "..."
  {
    var blank := text == [] || Strip(text) == [];
    assert blank <==> AllSpace(text) by { StripEmpty(text); }
    Clip(if blank then EmptyNotice else text)
  }

  /** The length limit: a longer text keeps its first 4090 characters and
      gets "...". */
  function Clip(t: string): (r: string)
    requires t != []
    ensures 0 < |r| <= MaxMessageLength
    ensures |t| <= MaxMessageLength ==> r == t
    ensures |t| > MaxMessageLength ==> r == t[..KeptLength] + "..."
  {
    if |t| > MaxMessageLength then t[..KeptLength] + "..." else t
  }

  /** Sending an already cleaned text changes nothing. */
  lemma NormalizeIdempotent(text: string)
    ensures NormalizeText(NormalizeText(text)) == NormalizeText(text)
  {
    var r := NormalizeText(text);
    assert !AllSpace(r) by {
      if AllSpace(text) {
        assert r[0] == '⚠' && !IsSpace(r[0]);
      } else if |text| > MaxMessageLength {
        assert r[|r| - 1] == '.' && !IsSpace(r[|r| - 1]);
      }
    }
  }

  // ---------------------------------------------------------------------------
  // The progress bar of send_progress_message (message_helper.py:361-372)

  /** `int(x)` for the quotient `a / b`: rounds toward zero. */
  function TruncDiv(a: int, b: int): (q: int)
    requires b > 0
    ensures a >= 0 ==> q * b <= a < (q + 1) * b
    ensures a < 0 ==> (q - 1) * b < a <= q * b && q <= 0
  {
    if a >= 0 then a / b else -((-a) / b)
  }

  /** `min(100, int(current / total * 100))`, on exact quotients; 0 when
      `total <= 0`. */
  function Percentage(current: int, total: int): (p: int)
    ensures p <= 100
    ensures total <= 0 ==> p == 0
    ensures total > 0 && current >= 0 ==> 0 <= p
    ensures total > 0 && 0 <= current <= total ==> p * total <= current * 100 < (p + 1) * total
    ensures total > 0 && current >= total ==> p == 100
  {
    if total <= 0 then 0 else Min(100, TruncDiv(current * 100, total))
  }

  /** A negative `current` gives the quotient truncated toward zero, which is
      never positive. */
  lemma NegativePercentage(current: int, total: int)
    requires total > 0 && current < 0
    ensures Percentage(current, total) == TruncDiv(current * 100, total) <= 0
  {
    assert TruncDiv(current * 100, total) <= 0;
  }

  function Min(a: int, b: int): int { if a <= b then a else b }

  /** Python's `s * n`: empty for `n <= 0`. */
  function Repeat(s: string, n: int): (r: string)
    ensures n <= 0 ==> r == []
    ensures n >= 0 ==> |r| == n * |s|
    decreases if n <= 0 then 0 else n
  {
    if n <= 0 then [] else s + Repeat(s, n - 1)
  }

  const Filled := "🟩"
  const Blank := "⬜"

  datatype Bar = Bar(percentage: int, filled: int, empty: int, text: string)

  /** The bar for `current` of `total`: `percentage // 10` green squares and
      the rest of ten white. */
  function ProgressBar(current: int, total: int): (b: Bar)
    ensures b.percentage == Percentage(current, total)
    ensures b.filled + b.empty == 10 && b.filled <= 10
    ensures b.percentage >= 0 ==> 0 <= b.filled && b.filled * 10 <= b.percentage < (b.filled + 1) * 10
    ensures b.percentage >= 0 ==> |b.text| == 10
    ensures b.percentage >= 0 ==> forall k :: 0 <= k < |b.text| ==> (b.text[k] == Filled[0] <==> k < b.filled)
  {
    var p := Percentage(current, total);
    var filled := TruncDiv(p, 10);
    var text := Repeat(Filled, filled) + Repeat(Blank, 10 - filled);
    RepeatChar(Filled, filled);
    RepeatChar(Blank, 10 - filled);
    Bar(p, filled, 10 - filled, text)
  }

  lemma {:induction false} RepeatChar(s: string, n: int)
    requires |s| == 1
    ensures forall k :: 0 <= k < |Repeat(s, n)| ==> Repeat(s, n)[k] == s[0]
    decreases if n <= 0 then 0 else n
  {
    if n > 0 {
      RepeatChar(s, n - 1);
    }
  }

  /** A negative `current` gives a negative percentage and a bar of more than
      ten white squares, since Python's `"🟩" * n` is empty for `n <= 0`. */
  lemma NegativeProgressWidensBar()
    ensures Percentage(-5, 10) == -50
    ensures ProgressBar(-5, 10).filled == -5
    ensures |ProgressBar(-5, 10).text| == 15
  {
    assert TruncDiv(-500, 10) == -50;
    assert TruncDiv(-50, 10) == -5;
    assert Repeat(Filled, -5) == [];
    assert |Repeat(Blank, 15)| == 15;
  }

  /** `f"{description}\n{progress_bar}\n{current}/{total} ({percentage}%)"`:
      the description and the bar on lines of their own, then the counts
      `current/total`, and the percentage last. */
  function ProgressText(description: string, current: int, total: int): (r: string)
    ensures var b := ProgressBar(current, total);
            var head := description + "\n" + b.text + "\n";
            var tail := " (" + IntToString(b.percentage) + "%)";
            && |r| > |head| + |tail|
            && r[..|head|] == head
            && r[|r| - |tail|..] == tail
            && r[|head|..|r| - |tail|] == IntToString(current) + "/" + IntToString(total)
  {
    var b := ProgressBar(current, total);
    var head := description + "\n" + b.text + "\n";
    var middle := IntToString(current) + "/" + IntToString(total);
    var tail := " (" + IntToString(b.percentage) + "%)";
    var r := head + middle + tail;
    assert r[..|head|] == head && r[|r| - |tail|..] == tail;
    assert r[|head|..|r| - |tail|] == middle;
    r
  }
}

/**
 * ImageAnnotationsSavingSuccessfulEvent: the status message after a save,
 * "Successfully saved <n> image-annotation[s] in <seconds> sec.", the noun plural unless
 * n is 1 and the seconds written with exactly three decimals. The time taken is a whole
 * number of milliseconds, so the seconds are ms div 1000, a '.', and ms mod 1000 in three digits.
 */
module SavingEvent {
  import opened Wrappers

  predicate IsDigit(c: char)
  {
    '0' <= c <= '9'
  }

  predicate AllDigits(s: string)
  {
    forall i :: 0 <= i < |s| ==> IsDigit(s[i])
  }

  function DigitChar(d: nat): (c: char)
    requires d < 10
    ensures IsDigit(c) && c as int - '0' as int == d
  {
    (('0' as int) + d) as char
  }

  /** The number a string of decimal digits stands for. */
  function DigitsValue(s: string): nat
    requires AllDigits(s)
  {
    if s == [] then 0 else 10 * DigitsValue(s[..|s| - 1]) + (s[|s| - 1] as int - '0' as int)
  }

  /** The decimal digits of n, with no leading zero; the digits stand for n again. */
  function NatToString(n: nat): (s: string)
    ensures s != [] && AllDigits(s)
    ensures DigitsValue(s) == n
    ensures s[0] == '0' <==> n == 0
    ensures |s| == 1 || s[0] != '0'
  {
    if n < 10 then [DigitChar(n)]
    else
      var high := NatToString(n / 10);
      var s := high + [DigitChar(n % 10)];
      assert s[..|s| - 1] == high && s[0] == high[0];
      s
  }

  /**
   * Java's decimal rendering of an int: the digits of its magnitude without a leading zero,
   * after a '-' exactly when it is negative.
   */
  function IntToString(n: int): (s: string)
    ensures s != [] && (s[0] == '-' <==> n < 0)
    ensures n >= 0 ==> AllDigits(s) && DigitsValue(s) == n && (|s| == 1 || s[0] != '0')
    ensures n < 0 ==> |s| >= 2 && AllDigits(s[1..]) && DigitsValue(s[1..]) == -n && s[1] != '0'
  {
    if n < 0 then
      var digits := NatToString(-n);
      assert ("-" + digits)[1..] == digits;
      "-" + digits
    else
      var digits := NatToString(n);
      assert IsDigit(digits[0]);
      digits
  }

  /** n < 1000 in exactly three digits, zero-padded on the left. */
  function Pad3(n: nat): (s: string)
    requires n < 1000
    ensures |s| == 3 && AllDigits(s) && DigitsValue(s) == n
  {
    var s := [DigitChar(n / 100), DigitChar(n / 10 % 10), DigitChar(n % 10)];
    assert s[..2][..1] == [s[0]] && s[..2] == [s[0], s[1]] && [s[0]][..0] == [];
    assert DigitsValue([s[0]]) == n / 100;
    assert DigitsValue(s[..2]) == 10 * (n / 100) + n / 10 % 10 == n / 10;
    assert DigitsValue(s) == 10 * (n / 10) + n % 10;
    s
  }

  /**
   * String.format("%.3f", ms / 1000.0) for a whole number of milliseconds: a '.' and three
   * digits at the end, a '-' exactly for a negative time, whole seconds without a leading
   * zero, and read back it gives ms exactly.
   */
  function Seconds(ms: int): (s: string)
    ensures |s| >= 5 && s[|s| - 4] == '.' && AllDigits(s[|s| - 3..])
    ensures ParseSeconds(s) == Some(ms)
    ensures ms >= 0 ==> s[0] != '-' && (s[0] == '0' ==> |s| == 5)
    ensures ms < 0 ==> |s| >= 6 && s[0] == '-' && (s[1] == '0' ==> |s| == 6)
  {
    if ms < 0 then NegativeSeconds(-ms) else UnsignedSeconds(ms)
  }

  /** The seconds of a negative time -n: a '-' before the seconds of n. */
  function NegativeSeconds(n: nat): (s: string)
    requires n > 0
    ensures |s| >= 6 && s[0] == '-' && s[|s| - 4] == '.' && AllDigits(s[|s| - 3..])
    ensures ParseSeconds(s) == Some(-(n as int))
    ensures s[1] == '0' ==> |s| == 6
  {
    var u := UnsignedSeconds(n);
    MinusBefore(u, n);
    "-" + u
  }

  /** A '-' before unsigned seconds that read back to n reads back to -n. */
  lemma MinusBefore(u: string, n: nat)
    requires |u| >= 5 && u[|u| - 4] == '.' && AllDigits(u[|u| - 3..])
    requires ParseUnsignedSeconds(u) == Some(n)
    ensures var s := "-" + u;
      && s[0] == '-' && s[1..] == u && s[|s| - 4] == '.' && AllDigits(s[|s| - 3..])
      && ParseSeconds(s) == Some(-(n as int))
  {
    var s := "-" + u;
    assert s[1..] == u;
    assert s[|s| - 3..] == u[|u| - 3..];
  }

  /** The seconds of a non-negative time, without a leading zero in the whole seconds. */
  function UnsignedSeconds(ms: nat): (s: string)
    ensures |s| >= 5 && s[|s| - 4] == '.' && IsDigit(s[0])
    ensures AllDigits(s[..|s| - 4]) && AllDigits(s[|s| - 3..])
    ensures ParseUnsignedSeconds(s) == Some(ms)
    ensures s[0] == '0' ==> |s| == 5
  {
    var whole, fraction := NatToString(ms / 1000), Pad3(ms % 1000);
    var s := whole + "." + fraction;
    assert s[..|s| - 4] == whole;
    assert s[|s| - 3..] == fraction;
    assert s[0] == whole[0];
    s
  }

  /** The noun, plural unless the count is exactly 1. */
  function Noun(count: int): (s: string)
    ensures |s| == if count != 1 then 18 else 17
    ensures s[..17] == " image-annotation"
    ensures count != 1 ==> s[17] == 's'
  {
    " image-annotation" + (if count != 1 then "s" else "")
  }

  const Prefix := "Successfully saved "
  const Suffix := " sec."

  /** The message of the event for count saved annotations and ms milliseconds taken. */
  function Message(count: int, ms: int): string
  {
    Prefix + (IntToString(count) + Tail(count, ms)) + Suffix
  }

  /** What follows the count: the noun, " in ", and the seconds. */
  function Tail(count: int, ms: int): string
  {
    Noun(count) + " in " + Seconds(ms)
  }

  /** A string of digits, read back as a number. */
  function ParseNat(s: string): (r: Option<nat>)
    ensures r.Some? <==> s != [] && AllDigits(s)
  {
    if s != [] && AllDigits(s) then Some(DigitsValue(s)) else None
  }

  /** An optional '-' and a string of digits, read back as a number. */
  function ParseInt(s: string): Option<int>
  {
    if s != [] && s[0] == '-' then
      match ParseNat(s[1..])
      case None => None
      case Some(n) => Some(-(n as int))
    else
      match ParseNat(s)
      case None => None
      case Some(n) => Some(n)
  }

  /** Seconds with three decimals, read back as milliseconds. */
  function ParseSeconds(s: string): Option<int>
  {
    if s != [] && s[0] == '-' then
      match ParseUnsignedSeconds(s[1..])
      case None => None
      case Some(n) => Some(-(n as int))
    else
      match ParseUnsignedSeconds(s)
      case None => None
      case Some(n) => Some(n)
  }

  function ParseUnsignedSeconds(s: string): Option<nat>
  {
    if |s| >= 5 && s[|s| - 4] == '.' then
      match (ParseNat(s[..|s| - 4]), ParseNat(s[|s| - 3..]))
      case (Some(whole), Some(fraction)) => Some(1000 * whole + fraction)
      case _ => None
    else None
  }

  /** The leading part of s up to its first space. */
  function Token(s: string): (t: string)
    ensures |t| <= |s| && t == s[..|t|]
  {
    if s == [] || s[0] == ' ' then [] else [s[0]] + Token(s[1..])
  }

  /**
   * Reads a message back into the count and the milliseconds: the fixed prefix and suffix,
   * the count up to the first space, the noun that count calls for, " in ", and the seconds.
   */
  function ParseMessage(m: string): Option<(int, int)>
  {
    if |m| < |Prefix| + |Suffix| || m[..|Prefix|] != Prefix || m[|m| - |Suffix|..] != Suffix then None
    else ParseBody(m[|Prefix|..|m| - |Suffix|])
  }

  /** The part of a message between the prefix and the suffix, read back. */
  function ParseBody(body: string): Option<(int, int)>
  {
    var countText := Token(body);
    match ParseInt(countText)
    case None => None
    case Some(count) => ParseTail(count, body[|countText|..])
  }

  /** The part of a message after the count, read back: the noun the count calls for, " in ", and the seconds. */
  function ParseTail(count: int, rest: string): Option<(int, int)>
  {
    var middle := Noun(count) + " in ";
    if |rest| < |middle| || rest[..|middle|] != middle then None
    else
      match ParseSeconds(rest[|middle|..])
      case None => None
      case Some(ms) => Some((count, ms))
  }

  lemma {:induction false} ParseIntOfIntToString(n: int)
    ensures ParseInt(IntToString(n)) == Some(n)
    ensures forall i :: 0 <= i < |IntToString(n)| ==> IntToString(n)[i] != ' '
  {
    var s := IntToString(n);
    if n < 0 {
      assert s[1..] == NatToString(-n);
    } else {
      assert IsDigit(s[0]);
    }
  }

  lemma {:induction false} TokenStopsAtSpace(a: string, b: string)
    requires forall i :: 0 <= i < |a| ==> a[i] != ' '
    requires b != [] && b[0] == ' '
    ensures Token(a + b) == a
  {
    if a == [] {
      assert a + b == b;
    } else {
      assert (a + b)[1..] == a[1..] + b;
      TokenStopsAtSpace(a[1..], b);
      assert a == [a[0]] + a[1..];
    }
  }

  lemma ParseFrame(body: string)
    ensures ParseMessage(Prefix + body + Suffix) == ParseBody(body)
  {
    var m := Prefix + body + Suffix;
    assert m[..|Prefix|] == Prefix;
    assert m[|m| - |Suffix|..] == Suffix;
    assert m[|Prefix|..|m| - |Suffix|] == body;
  }

  /** What follows the count reads back to the count and the time. */
  lemma ParseTailRoundTrip(count: int, ms: int)
    ensures ParseTail(count, Tail(count, ms)) == Some((count, ms))
  {
    var middle, seconds := Noun(count) + " in ", Seconds(ms);
    assert Tail(count, ms) == middle + seconds;
    assert (middle + seconds)[..|middle|] == middle;
    assert (middle + seconds)[|middle|..] == seconds;
  }

  lemma ParseBodyRoundTrip(count: int, ms: int)
    ensures ParseBody(IntToString(count) + Tail(count, ms)) == Some((count, ms))
  {
    var countText, rest := IntToString(count), Tail(count, ms);
    ParseIntOfIntToString(count);
    assert rest[0] == ' ';
    TokenStopsAtSpace(countText, rest);
    assert (countText + rest)[|countText|..] == rest;
    ParseTailRoundTrip(count, ms);
  }

  /** The message determines the count and the time it was built from: reading it back gives both. */
  lemma MessageRoundTrip(count: int, ms: int)
    ensures ParseMessage(Message(count, ms)) == Some((count, ms))
  {
    ParseFrame(IntToString(count) + Tail(count, ms));
    ParseBodyRoundTrip(count, ms);
  }

  /** Different counts or times never give the same message. */
  lemma MessageIsInjective(c1: int, ms1: int, c2: int, ms2: int)
    ensures Message(c1, ms1) == Message(c2, ms2) ==> c1 == c2 && ms1 == ms2
  {
    MessageRoundTrip(c1, ms1);
    MessageRoundTrip(c2, ms2);
  }

  /** The message opens with "Successfully saved " followed by the count, and closes with " sec.". */
  lemma MessageFrame(count: int, ms: int)
    ensures var m := Message(count, ms);
      && |m| > |Prefix| + |IntToString(count)| + |Suffix|
      && m[..|Prefix| + |IntToString(count)|] == Prefix + IntToString(count)
      && m[|m| - |Suffix|..] == Suffix
  {
    FramedParts(Prefix, IntToString(count), Tail(count, ms), Suffix);
  }

  /** Where the parts of a string built as p + (a + b) + q lie in it. */
  lemma FramedParts(p: string, a: string, b: string, q: string)
    ensures var m := p + (a + b) + q;
      && m[..|p| + |a|] == p + a
      && m[|m| - |q|..] == q
      && forall j :: 0 <= j < |b| ==> m[|p| + |a| + j] == b[j]
  {
    var m := p + (a + b) + q;
    assert m == (p + a) + b + q;
    assert m[..|p| + |a|] == p + a;
  }

  lemma TailPlural(count: int, ms: int)
    ensures |Tail(count, ms)| > 17 && (Tail(count, ms)[17] == 's' <==> count != 1)
  {
    var rest := " in " + Seconds(ms);
    assert Tail(count, ms) == Noun(count) + rest;
    NounBeforeSpace(count, rest);
  }

  /** After the noun comes a space, so position 17 holds an 's' exactly for a plural. */
  lemma NounBeforeSpace(count: int, rest: string)
    requires rest != [] && rest[0] == ' '
    ensures |Noun(count) + rest| > 17 && ((Noun(count) + rest)[17] == 's' <==> count != 1)
  {
    var noun := Noun(count);
    var word := " image-annotation";
    assert |word| == 17;
    assert noun == word + (if count != 1 then "s" else "");
    if count != 1 {
      assert noun[17] == 's';
    } else {
      assert noun == word;
    }
  }

  lemma MessageAt(count: int, ms: int, j: nat)
    requires j < |Tail(count, ms)|
    ensures |Prefix| + |IntToString(count)| + j < |Message(count, ms)|
    ensures Message(count, ms)[|Prefix| + |IntToString(count)| + j] == Tail(count, ms)[j]
  {
    FramedParts(Prefix, IntToString(count), Tail(count, ms), Suffix);
  }

  /**
   * The character right after " image-annotation" is 's' exactly when the count is not 1:
   * 0 and every count above 1 read as plural.
   */
  lemma PluralUnlessOne(count: int, ms: int)
    ensures var k := |Prefix| + |IntToString(count)| + |" image-annotation"|;
      && k < |Message(count, ms)|
      && (Message(count, ms)[k] == 's' <==> count != 1)
  {
    assert |" image-annotation"| == 17;
    TailPlural(count, ms);
    MessageAt(count, ms, 17);
  }

  /**
   * The seconds end in a '.' followed by exactly three digits, after the digits of the whole
   * seconds as Java writes them, with no leading zero.
   */
  lemma SecondsHaveThreeDecimals(ms: nat)
    ensures var s := Seconds(ms);
      && |s| >= 5 && s[|s| - 4] == '.'
      && s[..|s| - 4] == NatToString(ms / 1000)
      && ParseNat(s[..|s| - 4]) == Some(ms / 1000)
      && ParseNat(s[|s| - 3..]) == Some(ms % 1000)
  {
    var s := Seconds(ms);
    assert s == NatToString(ms / 1000) + "." + Pad3(ms % 1000);
    assert s[..|s| - 4] == NatToString(ms / 1000);
    assert s[|s| - 3..] == Pad3(ms % 1000);
  }

  /** A negative time is written as its magnitude after a '-'. */
  lemma SecondsOfNegative(ms: int)
    requires ms < 0
    ensures Seconds(ms) == "-" + Seconds(-ms)
  {
  }
}

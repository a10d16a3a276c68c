/** Operator text: white space, and integers in Python's spellings. */
module Texts {
  import opened Results

  /** `str.isspace()` for one character. */
  predicate IsSpace(c: char) {
    var n := c as int;
    || 9 <= n <= 13 || 28 <= n <= 32 || n == 0x85 || n == 0xA0 || n == 0x1680 || 0x2000 <= n <= 0x200A
    || n == 0x2028 || n == 0x2029 || n == 0x202F || n == 0x205F || n == 0x3000
  }

  function StripLeft(s: string): string {
    if s != "" && IsSpace(s[0]) then StripLeft(s[1..]) else s
  }

  function StripRight(s: string): string {
    if s != "" && IsSpace(s[|s| - 1]) then StripRight(s[..|s| - 1]) else s
  }

  /** `str.strip()`. */
  function Strip(s: string): string {
    StripRight(StripLeft(s))
  }

  /** Nothing to strip from a text that begins and ends with other characters. */
  lemma NothingToStrip(s: string)
    requires s != "" && !IsSpace(s[0]) && !IsSpace(s[|s| - 1])
    ensures Strip(s) == s && StripRight(s) == s && StripRight(s + " ") == s
  {
  }

  lemma {:induction false} StripShortens(s: string)
    ensures |StripLeft(s)| <= |s| && |StripRight(s)| <= |s|
    ensures |StripLeft(s)| == |s| <==> StripLeft(s) == s
    ensures |StripRight(s)| == |s| <==> StripRight(s) == s
    ensures StripLeft(s) == s <==> s == "" || !IsSpace(s[0])
    ensures StripRight(s) == s <==> s == "" || !IsSpace(s[|s| - 1])
  {
    if s != "" {
      StripShortens(s[1..]);
      StripShortens(s[..|s| - 1]);
    }
  }

  /** A text is stripped as it stands exactly when no white space is at its ends; otherwise it gets shorter. */
  lemma StripKeeps(s: string)
    ensures Strip(s) == s <==> s == "" || (!IsSpace(s[0]) && !IsSpace(s[|s| - 1]))
    ensures Strip(s) == s || |Strip(s)| < |s|
  {
    StripShortens(s);
    StripShortens(StripLeft(s));
  }

  function Lower(s: string): (r: string)
    ensures |r| == |s|
  {
    if s == "" then "" else [if 'A' <= s[0] <= 'Z' then (s[0] as int + 32) as char else s[0]] + Lower(s[1..])
  }

  predicate IsSmall(c: char) {
    'a' <= c <= 'z'
  }

  /** `c`, or its capital. */
  predicate InEitherCase(given: char, c: char) {
    given == c || given as int == c as int - 'a' as int + 'A' as int
  }

  /** A text lowers to a word of small letters exactly when it is that word in small and capital letters. */
  lemma LowersTo(s: string, word: string)
    requires forall i :: 0 <= i < |word| ==> IsSmall(word[i])
    ensures Lower(s) == word <==> |s| == |word| && forall i :: 0 <= i < |s| ==> InEitherCase(s[i], word[i])
  {
    hide Lower, IsSmall, InEitherCase;
    if |s| == |word| {
      forall i | 0 <= i < |s|
        ensures Lower(s)[i] == word[i] <==> InEitherCase(s[i], word[i])
      {
        LowerAt(s, i, word[i]);
      }
    }
  }

  lemma {:induction false} LowerAt(s: string, i: nat, c: char)
    requires i < |s| && IsSmall(c)
    ensures Lower(s)[i] == c <==> InEitherCase(s[i], c)
  {
    if i > 0 {
      LowerAt(s[1..], i - 1, c);
    }
  }

  // ---------------------------------------------------------------- integers

  function DigitIn(c: char, base: nat): Option<nat> {
    var d :=
      if '0' <= c <= '9' then c as int - '0' as int
      else if 'a' <= c <= 'z' then c as int - 'a' as int + 10
      else if 'A' <= c <= 'Z' then c as int - 'A' as int + 10
      else base;
    if d < base then Some(d) else None
  }

  /** Digits, with single underscores between them. */
  function DigitsValue(s: string, base: nat): Option<nat> {
    if s == "" then
      None
    else
      var n := |s| - 1;
      match DigitIn(s[n], base)
      case None => None
      case Some(d) =>
        if n == 0 then Some(d)
        else
          match DigitsValue(if s[n - 1] == '_' then s[..n - 1] else s[..n], base)
          case None => None
          case Some(v) => Some(v * base + d)
  }

  /** After a prefix such as `0x`, where an underscore may come first. */
  function Prefixed(s: string, base: nat): Option<nat> {
    DigitsValue(if s != "" && s[0] == '_' then s[1..] else s, base)
  }

  function UnsignedValue(s: string): Option<nat> {
    if |s| >= 2 && s[0] == '0' && s[1] in "xX" then Prefixed(s[2..], 16)
    else if |s| >= 2 && s[0] == '0' && s[1] in "oO" then Prefixed(s[2..], 8)
    else if |s| >= 2 && s[0] == '0' && s[1] in "bB" then Prefixed(s[2..], 2)
    else if |s| >= 2 && s[0] == '0' then (if DigitsValue(s, 10) == Some(0) then Some(0) else None)
    else DigitsValue(s, 10)
  }

  /** `int(s, 0)`; None where it raises. */
  function IntegerValue(s: string): Option<int> {
    if s != "" && s[0] in "+-" then
      (match UnsignedValue(s[1..])
       case None => None
       case Some(n) =>
         var i: int := n;
         Some(if s[0] == '-' then -i else i))
    else
      match UnsignedValue(s)
      case None => None
      case Some(n) => Some(n)
  }

  /** A digit as it may be written: capital or small from ten on, and with an underscore before it unless it is first. */
  datatype Digit = Digit(value: nat, capital: bool, mark: bool) {
    function Char(): char
      requires value < 36
    {
      if value < 10 then ('0' as int + value) as char
      else ((if capital then 'A' else 'a') as int + value - 10) as char
    }
  }

  predicate DigitsBelow(ds: seq<Digit>, base: nat) {
    forall d :: d in ds ==> d.value < base
  }

  function Spelled(ds: seq<Digit>): string
    requires DigitsBelow(ds, 36)
  {
    if ds == [] then ""
    else
      var n := |ds| - 1;
      Spelled(ds[..n]) + (if n > 0 && ds[n].mark then "_" else "") + [ds[n].Char()]
  }

  function Number(ds: seq<Digit>, base: nat): nat {
    if ds == [] then 0 else Number(ds[..|ds| - 1], base) * base + ds[|ds| - 1].value
  }

  lemma DigitChars(d: Digit, base: nat)
    requires d.value < base <= 36
    ensures DigitIn(d.Char(), base) == Some(d.value) && d.Char() != '_'
  {
  }

  /** Every spelling of digits is read to its number. */
  lemma {:induction false} SpelledIsRead(ds: seq<Digit>, base: nat)
    requires ds != [] && base <= 36 && DigitsBelow(ds, base)
    ensures DigitsValue(Spelled(ds), base) == Some(Number(ds, base))
    ensures Spelled(ds) != "" && Spelled(ds)[0] == ds[0].Char() && (|Spelled(ds)| == 1 <==> |ds| == 1)
    ensures Spelled(ds)[|Spelled(ds)| - 1] != '_'
  {
    var n := |ds| - 1;
    var s := Spelled(ds);
    DigitChars(ds[n], base);
    if n > 0 {
      var front := Spelled(ds[..n]);
      SpelledIsRead(ds[..n], base);
      assert ds[..n][0] == ds[0] && |front| >= 1;
      if ds[n].mark {
        assert s == front + "_" + [ds[n].Char()];
        assert s[|s| - 2] == '_' && s[..|s| - 2] == front;
      } else {
        assert s == front + [ds[n].Char()];
        assert s[|s| - 2] == front[|front| - 1] && s[..|s| - 1] == front;
      }
    } else {
      assert Spelled(ds[..0]) == "" && s == [ds[0].Char()];
      assert Number(ds[..0], base) == 0;
    }
  }

  /** Whatever is read is such a spelling. */
  lemma {:induction false} ReadIsSpelled(s: string, base: nat) returns (ds: seq<Digit>)
    requires base <= 36 && DigitsValue(s, base).Some?
    ensures ds != [] && DigitsBelow(ds, base) && Spelled(ds) == s && DigitsValue(s, base) == Some(Number(ds, base))
  {
    hide Spelled, Number, Digit.Char, DigitIn;
    var n := |s| - 1;
    var mark := n > 0 && s[n - 1] == '_';
    var last := DigitOf(s[n], base, mark);
    if n == 0 {
      ds := [] + [last];
      AddDigit([], last);
      assert s == [s[0]];
    } else {
      var before := ReadIsSpelled(if mark then s[..n - 1] else s[..n], base);
      ds := before + [last];
      AddDigit(before, last);
      assert s == (if mark then s[..n - 1] + "_" else s[..n]) + [s[n]];
    }
    SpelledIsRead(ds, base);
  }

  lemma DigitOf(c: char, base: nat, mark: bool) returns (d: Digit)
    requires base <= 36 && DigitIn(c, base).Some?
    ensures d.mark == mark && d.value < base && d.Char() == c
  {
    d := Digit(DigitIn(c, base).value, 'A' <= c <= 'Z', mark);
  }

  lemma AddDigit(before: seq<Digit>, last: Digit)
    requires DigitsBelow(before, 36) && last.value < 36
    ensures Spelled(before + [last]) == Spelled(before) + (if before != [] && last.mark then "_" else "") + [last.Char()]
    ensures Spelled([]) == ""
  {
    hide Digit.Char;
    assert (before + [last])[..|before|] == before;
  }

  /** Spellings after `0x`, `0o` and `0b`, in either case and with or without an underscore first, are read in their
      base. */
  lemma UnsignedIsRead(ds: seq<Digit>, mark: bool)
    requires ds != [] && DigitsBelow(ds, 16)
    ensures var text := (if mark then "_" else "") + Spelled(ds);
            && UnsignedValue("0x" + text) == UnsignedValue("0X" + text) == Some(Number(ds, 16))
            && (DigitsBelow(ds, 8) ==> UnsignedValue("0o" + text) == UnsignedValue("0O" + text) == Some(Number(ds, 8)))
            && (DigitsBelow(ds, 2) ==> UnsignedValue("0b" + text) == UnsignedValue("0B" + text) == Some(Number(ds, 2)))
  {
    hide DigitsValue, Number, Spelled, UnsignedValue, Prefixed;
    PrefixedIsRead(ds, 16, mark);
    if DigitsBelow(ds, 8) {
      PrefixedIsRead(ds, 8, mark);
    }
    if DigitsBelow(ds, 2) {
      PrefixedIsRead(ds, 2, mark);
    }
    AllPrefixes((if mark then "_" else "") + Spelled(ds));
  }

  /** Without a prefix a spelling is decimal, and one that begins with a zero is refused unless it is nothing but zeros. */
  lemma DecimalIsRead(ds: seq<Digit>)
    requires ds != [] && DigitsBelow(ds, 10)
    ensures UnsignedValue(Spelled(ds)) ==
            if |ds| > 1 && ds[0].value == 0 && Number(ds, 10) != 0 then None else Some(Number(ds, 10))
  {
    hide DigitsValue, Number, Spelled, Prefixed;
    SpelledIsRead(ds, 10);
    DecimalSecond(ds);
    assert ds[0] in ds;
    assert Spelled(ds)[0] == '0' <==> ds[0].value == 0;
    if |Spelled(ds)| > 1 {
      assert Spelled(ds)[1] in Spelled(ds);
    }
  }

  lemma AllPrefixes(text: string)
    ensures UnsignedValue("0x" + text) == UnsignedValue("0X" + text) == Prefixed(text, 16)
    ensures UnsignedValue("0o" + text) == UnsignedValue("0O" + text) == Prefixed(text, 8)
    ensures UnsignedValue("0b" + text) == UnsignedValue("0B" + text) == Prefixed(text, 2)
  {
    hide Prefixed;
    assert forall p: string :: |p| == 2 ==> (p + text)[2..] == text && (p + text)[0] == p[0] && (p + text)[1] == p[1];
  }

  lemma PrefixedIsRead(ds: seq<Digit>, base: nat, mark: bool)
    requires ds != [] && base <= 36 && DigitsBelow(ds, base)
    ensures Prefixed((if mark then "_" else "") + Spelled(ds), base) == Some(Number(ds, base))
  {
    hide DigitsValue, Number, Spelled;
    SpelledIsRead(ds, base);
    DigitChars(ds[0], base);
    assert mark ==> ("_" + Spelled(ds))[1..] == Spelled(ds);
    assert "" + Spelled(ds) == Spelled(ds);
  }

  /** The second character of a decimal spelling is no letter. */
  lemma {:induction false} DecimalSecond(ds: seq<Digit>)
    requires ds != [] && DigitsBelow(ds, 10)
    ensures forall c :: c in Spelled(ds) ==> c == '_' || '0' <= c <= '9'
  {
    var n := |ds| - 1;
    if n > 0 {
      DecimalSecond(ds[..n]);
    }
  }

  /** How `ds` may stand after its prefix. */
  function PrefixBase(s: string): nat {
    if |s| >= 2 && s[0] == '0' then
      (if s[1] in "xX" then 16 else if s[1] in "oO" then 8 else if s[1] in "bB" then 2 else 10)
    else 10
  }

  /** No other text is read. */
  lemma OnlyTheseAreRead(s: string) returns (ds: seq<Digit>, mark: bool)
    requires UnsignedValue(s).Some?
    ensures var base := PrefixBase(s);
            && ds != [] && DigitsBelow(ds, base) && UnsignedValue(s) == Some(Number(ds, base))
            && s == if base == 10 then Spelled(ds) else s[..2] + (if mark then "_" else "") + Spelled(ds)
  {
    hide DigitsValue, Number, Spelled;
    var base := PrefixBase(s);
    if base == 10 {
      ds := ReadIsSpelled(s, 10);
      mark := false;
    } else {
      mark := |s| > 2 && s[2] == '_';
      var digits := if mark then s[3..] else s[2..];
      ds := ReadIsSpelled(digits, base);
      assert s == s[..2] + (if mark then "_" else "") + digits;
    }
  }

  function DecimalDigit(d: nat): char
    requires d < 10
  {
    ('0' as int + d) as char
  }

  function DecimalText(n: nat): (s: string)
    ensures s != ""
  {
    if n < 10 then [DecimalDigit(n)] else DecimalText(n / 10) + [DecimalDigit(n % 10)]
  }

  /** `str(i)`. */
  function IntegerText(i: int): string {
    if i < 0 then "-" + DecimalText(-i) else DecimalText(i)
  }

  lemma {:induction false} DecimalRoundTrip(n: nat)
    ensures DigitsValue(DecimalText(n), 10) == Some(n)
    ensures DecimalText(n)[0] == '0' <==> n == 0
    ensures forall c :: c in DecimalText(n) ==> '0' <= c <= '9'
  {
    if n >= 10 {
      DecimalRoundTrip(n / 10);
      var s, front := DecimalText(n), DecimalText(n / 10);
      assert s[..|s| - 1] == front && s[|s| - 1] == DecimalDigit(n % 10);
      assert s[|s| - 2] == front[|front| - 1] && front[|front| - 1] in front;
    }
  }

  /** Every integer is read back from its text, which has no white space around it. */
  lemma IntegerRoundTrip(i: int)
    ensures Strip(IntegerText(i)) == IntegerText(i)
    ensures IntegerValue(IntegerText(i)) == Some(i)
    ensures IntegerText(i)[0] == '-' <==> i < 0
  {
    hide Strip, StripLeft, StripRight, DigitsValue, Prefixed;
    var n := if i < 0 then -i else i;
    var d, s := DecimalText(n), IntegerText(i);
    DecimalRoundTrip(n);
    assert d[0] in d && d[|d| - 1] in d;
    if |d| >= 2 {
      assert n >= 10;
    }
    if i < 0 {
      assert s[0] == '-' && s[1..] == d && s[|s| - 1] == d[|d| - 1];
    }
    NothingToStrip(s);
  }
}

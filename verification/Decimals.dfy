/** `str(n)` and `int(s)` on integers, over ASCII digits. */
module Decimals {
  import opened Wrappers
  import opened Text

  predicate IsDigit(c: char) { '0' <= c <= '9' }

  function Digit(d: int): (c: char)
    requires 0 <= d < 10
    ensures IsDigit(c) && c as int - '0' as int == d
  {
    (d + '0' as int) as char
  }

  function PrintNat(n: nat): (s: string)
    ensures s != "" && forall c :: c in s ==> IsDigit(c)
    ensures |s| > 1 ==> s[0] != '0'
    ensures n > 0 ==> s[0] != '0'
  {
    if n < 10 then [Digit(n)] else PrintNat(n / 10) + [Digit(n % 10)]
  }

  /** `str(n)`. */
  function Print(n: int): (s: string)
    ensures n >= 0 ==> s != "" && forall c :: c in s ==> IsDigit(c)
    ensures n < 0 ==> |s| > 1 && s[0] == '-' && forall c :: c in s[1..] ==> IsDigit(c)
  {
    if n < 0 then "-" + PrintNat(-n) else PrintNat(n)
  }

  /** Digits, single underscores allowed between them. */
  function ParseDigits(s: string): Option<int> {
    var n := |s| - 1;
    if s == "" || !IsDigit(s[n]) then None
    else
      var d := s[n] as int - '0' as int;
      if n == 0 then Some(d)
      else
        var rest := ParseDigits(if s[n - 1] == '_' then s[..n - 1] else s[..n]);
        if rest.None? then None else Some(10 * rest.value + d)
  }

  function ParseSigned(s: string): Option<int> {
    var signed := s != "" && s[0] in {'-', '+'};
    var size := ParseDigits(if signed then s[1..] else s);
    if size.None? then None
    else Some(if signed && s[0] == '-' then -size.value else size.value)
  }

  /** `int(s)`; None is its ValueError. */
  function Parse(s: string): Option<int> {
    ParseSigned(Strip(s))
  }

  lemma {:induction false} ParsesPrintedNat(n: nat)
    ensures ParseDigits(PrintNat(n)) == Some(n)
  {
    if n >= 10 {
      ParsesPrintedNat(n / 10);
      var s := PrintNat(n);
      var k := |s| - 1;
      assert s[..k] == PrintNat(n / 10);
      assert s[k - 1] in PrintNat(n / 10);
    }
  }

  lemma PrintedIsStripped(n: int)
    ensures Strip(Print(n)) == Print(n)
  {
    var digits := PrintNat(if n < 0 then -n else n);
    assert digits[0] in digits && digits[|digits| - 1] in digits;
    StripPlain(Print(n));
  }

  /** Reading what was printed gives the number. */
  lemma ParsesPrinted(n: int)
    ensures Parse(Print(n)) == Some(n)
  {
    PrintedIsStripped(n);
    var digits := PrintNat(if n < 0 then -n else n);
    ParsesPrintedNat(if n < 0 then -n else n);
    assert digits[0] in digits;
    assert n < 0 ==> Print(n)[1..] == digits;
  }

  lemma {:induction false} DigitsHaveNoBar(s: string)
    requires '|' in s
    ensures ParseDigits(s).None?
  {
    var n := |s| - 1;
    if IsDigit(s[n]) && n > 0 {
      assert s == s[..n] + [s[n]];
      if s[n - 1] == '_' {
        assert s[..n] == s[..n - 1] + ['_'];
        DigitsHaveNoBar(s[..n - 1]);
      } else {
        DigitsHaveNoBar(s[..n]);
      }
    }
  }

  /** Text with a bar in it is no number. */
  lemma NumbersHaveNoBar(s: string)
    requires '|' in s
    ensures Parse(s).None?
  {
    StripLeftKeeps(s, '|');
    StripRightKeeps(StripLeft(s), '|');
    var t := Strip(s);
    assert t == [t[0]] + t[1..];
    if t[0] == '-' || t[0] == '+' {
      DigitsHaveNoBar(t[1..]);
    } else {
      DigitsHaveNoBar(t);
    }
  }

  lemma PrintedHasNoBar(n: int)
    ensures Without(Print(n), '|')
  {
    if '|' in Print(n) {
      NumbersHaveNoBar(Print(n));
      ParsesPrinted(n);
      assert false;
    }
  }
}

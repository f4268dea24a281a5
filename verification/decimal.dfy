/** Unsigned decimal numbers as the selection prompt reads and prints them:
    `str::parse::<usize>` on the reading side, `format!("{}", n)` on the
    printing side. `usize` is taken to be 64 bits wide. */
module Decimal {
  import opened Optional

  /** `usize::MAX` on a 64-bit target. */
  const UsizeMax: nat := 0xFFFF_FFFF_FFFF_FFFF

  predicate IsDigit(c: char) {
    '0' <= c <= '9'
  }

  predicate AllDigits(s: string) {
    forall k :: 0 <= k < |s| ==> IsDigit(s[k])
  }

  function DigitValue(c: char): (d: nat)
    requires IsDigit(c)
    ensures d < 10
  {
    c as int - '0' as int
  }

  function DigitChar(d: nat): (c: char)
    requires d < 10
    ensures IsDigit(c) && DigitValue(c) == d
  {
    ('0' as int + d) as char
  }

  /** The number a string of decimal digits denotes (most significant digit first),
      with no bound on its size. */
  function Value(s: string): nat
    requires AllDigits(s)
  {
    if s == [] then 0 else Value(s[..|s| - 1]) * 10 + DigitValue(s[|s| - 1])
  }

  /** The digits `parse` looks at: one leading `+` is allowed for an unsigned type. */
  function Unsigned(s: string): string {
    if |s| > 0 && s[0] == '+' then s[1..] else s
  }

  /** The conversion loop of `usize::from_str_radix`: left to right, each step a
      checked multiplication by ten and a checked addition of the next digit;
      a non-digit or an overflow ends the parse with an error. */
  function Accumulate(acc: nat, s: string): Option<nat>
    requires acc <= UsizeMax
    decreases |s|
  {
    if s == [] then Some(acc)
    else if !IsDigit(s[0]) then None
    else if acc * 10 > UsizeMax then None
    else if acc * 10 + DigitValue(s[0]) > UsizeMax then None
    else Accumulate(acc * 10 + DigitValue(s[0]), s[1..])
  }

  /** Appending digits never makes a number smaller. */
  lemma {:induction false} ValueGrows(p: string, t: string)
    requires AllDigits(p + t)
    ensures AllDigits(p) && Value(p) <= Value(p + t)
  {
    assert forall k :: 0 <= k < |p| ==> p[k] == (p + t)[k];
    if t != [] {
      var u := p + t;
      var w := p + t[..|t| - 1];
      assert u[..|u| - 1] == w;
      assert AllDigits(w);
      ValueGrows(p, t[..|t| - 1]);
      assert Value(u) == Value(w) * 10 + DigitValue(u[|u| - 1]);
    } else {
      assert p + t == p;
    }
  }

  /** The checked left-to-right loop agrees with the unbounded value: it succeeds
      exactly when the whole string is digits and the number fits in a `usize`. */
  lemma {:induction false} AccumulateValue(p: string, s: string)
    requires AllDigits(p) && Value(p) <= UsizeMax
    ensures Accumulate(Value(p), s).Some? <==> AllDigits(p + s) && Value(p + s) <= UsizeMax
    ensures Accumulate(Value(p), s).Some? ==> Accumulate(Value(p), s).value == Value(p + s)
    decreases |s|
  {
    if s == [] {
      assert p + s == p;
    } else {
      var q := p + [s[0]];
      assert p + s == q + s[1..];
      if IsDigit(s[0]) {
        assert q[..|q| - 1] == p;
        assert AllDigits(q);
        assert Value(q) == Value(p) * 10 + DigitValue(s[0]);
        if Value(q) > UsizeMax {
          if AllDigits(q + s[1..]) {
            ValueGrows(q, s[1..]);
          }
        } else {
          AccumulateValue(q, s[1..]);
        }
      } else {
        assert (p + s)[|p|] == s[0];
      }
    }
  }

  /** `str::parse::<usize>`: at most one leading `+`, then the checked loop
      over a non-empty run of characters. */
  function ParseUsize(s: string): Option<nat> {
    var digits := Unsigned(s);
    if digits == [] then None else Accumulate(0, digits)
  }

  /** `parse::<usize>` succeeds exactly when, after at most one leading `+`, the
      string is a non-empty run of decimal digits whose value fits in a `usize`,
      and then yields that value. */
  lemma ParseUsizeSpec(s: string)
    ensures ParseUsize(s).Some? <==> |Unsigned(s)| > 0 && AllDigits(Unsigned(s)) && Value(Unsigned(s)) <= UsizeMax
    ensures ParseUsize(s).Some? ==> ParseUsize(s).value == Value(Unsigned(s)) && ParseUsize(s).value <= UsizeMax
  {
    var digits := Unsigned(s);
    AccumulateValue([], digits);
    assert [] + digits == digits;
  }

  /** `format!("{}", n)`: the shortest decimal rendering of `n`. */
  function Render(n: nat): (s: string)
    ensures |s| > 0 && AllDigits(s)
    ensures s[0] == '0' ==> n == 0
  {
    if n < 10 then [DigitChar(n)] else Render(n / 10) + [DigitChar(n % 10)]
  }

  /** Rendering and valuation are inverse. */
  lemma {:induction false} ValueOfRender(n: nat)
    ensures Value(Render(n)) == n
  {
    var s := Render(n);
    if n >= 10 {
      assert s[..|s| - 1] == Render(n / 10);
      ValueOfRender(n / 10);
    }
  }

  /** Round trip: parsing what is printed for `n` gives back `n`, with or without
      a leading `+`, whenever `n` fits in a `usize`. */
  lemma ParseRender(n: nat)
    requires n <= UsizeMax
    ensures ParseUsize(Render(n)) == Some(n)
    ensures ParseUsize("+" + Render(n)) == Some(n)
  {
    ValueOfRender(n);
    ParseUsizeSpec(Render(n));
    ParseUsizeSpec("+" + Render(n));
    assert Unsigned("+" + Render(n)) == Render(n);
  }

  /** A number too wide for a `usize` does not parse, however it is written. */
  lemma ParseOverflow(n: nat)
    requires n > UsizeMax
    ensures ParseUsize(Render(n)) == None
    ensures ParseUsize("+" + Render(n)) == None
  {
    ValueOfRender(n);
    ParseUsizeSpec(Render(n));
    ParseUsizeSpec("+" + Render(n));
    assert Unsigned("+" + Render(n)) == Render(n);
  }

  /** Text that is not an unsigned decimal number does not parse. */
  lemma ParseRejects()
    ensures ParseUsize("") == None
    ensures ParseUsize("+") == None
    ensures ParseUsize("-1") == None
    ensures ParseUsize("abc") == None
    ensures ParseUsize("1 2") == None
  {
  }
}

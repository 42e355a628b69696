/**
  Order numbers of the form YYYYMMDD-NNNN (pedidos/models.py, Pedido.gerar_numero).

  A number is today's date stamp, a dash, and a per-day sequence number
  zero-padded to four digits. The source finds the next sequence number by
  taking the LEXICOGRAPHICALLY greatest existing number with today's prefix
  and adding one to its numeric suffix. `GenerateNumber` models that as
  written; `NextNumber` takes the NUMERIC greatest suffix instead, which is
  what the scheme needs once a day has ten thousand orders.
*/
module Numbering {
  import opened Wrappers

  // ---------------------------------------------------------------------
  // Decimal digit strings
  // ---------------------------------------------------------------------

  predicate IsDigit(c: char) { '0' <= c <= '9' }

  predicate AllDigits(s: string) { forall i | 0 <= i < |s| :: IsDigit(s[i]) }

  /** What strftime("%Y%m%d") produces: eight ASCII digits. */
  predicate IsDayStamp(d: string) { |d| == 8 && AllDigits(d) }

  function Pow10(n: nat): (r: nat)
    ensures r >= 1
  {
    if n == 0 then 1 else 10 * Pow10(n - 1)
  }

  function DigitValue(c: char): nat
    requires IsDigit(c)
  {
    c as int - '0' as int
  }

  function DigitChar(d: nat): (c: char)
    requires d < 10
    ensures IsDigit(c) && DigitValue(c) == d
  {
    ('0' as int + d) as char
  }

  /** The value of a digit string, most significant digit first. */
  function Value(s: string): nat
    requires AllDigits(s)
  {
    if |s| == 0 then 0 else 10 * Value(s[..|s| - 1]) + DigitValue(s[|s| - 1])
  }

  /** The `w` least significant decimal digits of `n`, most significant first. */
  function Digits(n: nat, w: nat): (r: string)
    ensures |r| == w && AllDigits(r)
  {
    if w == 0 then "" else Digits(n / 10, w - 1) + [DigitChar(n % 10)]
  }

  /** The number of decimal digits `n` needs (one for zero). */
  function Width(n: nat): (w: nat)
    ensures 1 <= w && n < Pow10(w)
  {
    if n < 10 then 1 else 1 + Width(n / 10)
  }

  lemma {:induction false} DigitsValue(n: nat, w: nat)
    requires n < Pow10(w)
    ensures Value(Digits(n, w)) == n
  {
    if w > 0 {
      var r := Digits(n, w);
      var q, d := n / 10, n % 10;
      assert n == 10 * q + d;
      assert q < Pow10(w - 1);
      assert r[..|r| - 1] == Digits(q, w - 1);
      assert DigitValue(r[|r| - 1]) == d;
      DigitsValue(q, w - 1);
    }
  }

  /** Written in exactly its width, a positive number has no leading zero. */
  lemma {:induction false} DigitsNoLeadingZero(n: nat)
    requires n >= 1
    ensures Digits(n, Width(n))[0] != '0'
  {
    if n >= 10 {
      DigitsNoLeadingZero(n / 10);
      assert Digits(n, Width(n)) == Digits(n / 10, Width(n / 10)) + [DigitChar(n % 10)];
    }
  }

  /**
    Python's f"{n:04d}" for n >= 0: the digits of n, zero-padded to four;
    from 10000 on, the plain digits with no padding (Format04Wide).
  */
  function Format04(n: nat): (r: string)
    ensures AllDigits(r) && |r| >= 1
    ensures n < 10000 ==> |r| == 4
    ensures Value(r) == n
  {
    assert Pow10(4) == 10000 by {
      assert Pow10(2) == 100;
    }
    DigitsValue(n, if n < 10000 then 4 else Width(n));
    if n < 10000 then Digits(n, 4) else Digits(n, Width(n))
  }

  /** From 10000 on, `{n:04d}` writes n in its own width, with no leading zero. */
  lemma Format04Wide(n: nat)
    requires n >= 10000
    ensures |Format04(n)| == Width(n) && Format04(n)[0] != '0'
  {
    DigitsNoLeadingZero(n);
  }

  /**
    Python's int() applied to a numeric field, for the inputs this model
    admits: a nonempty run of ASCII digits. Anything else raises ValueError,
    modelled as None.
  */
  function ParseNat(s: string): (r: Option<nat>)
    ensures r.Some? <==> |s| > 0 && AllDigits(s)
    ensures r.Some? ==> r.value == Value(s)
  {
    if |s| > 0 && AllDigits(s) then Some(Value(s)) else None
  }

  /** Parsing what Format04 printed gives back the number. */
  lemma ParseFormat04(n: nat)
    ensures ParseNat(Format04(n)) == Some(n)
  {
  }

  // ---------------------------------------------------------------------
  // Python's str.split("-")[1] and str ordering
  // ---------------------------------------------------------------------

  /** What follows the first dash ("" when there is none). */
  function AfterDash(s: string): string
    decreases |s|
  {
    if |s| == 0 then "" else if s[0] == '-' then s[1..] else AfterDash(s[1..])
  }

  /** The longest dash-free prefix. */
  function BeforeDash(s: string): (r: string)
    ensures r <= s && '-' !in r
    decreases |s|
  {
    if |s| == 0 || s[0] == '-' then "" else [s[0]] + BeforeDash(s[1..])
  }

  /** s.split("-")[1] for a string that contains a dash. */
  function SecondField(s: string): string
  {
    BeforeDash(AfterDash(s))
  }

  lemma {:induction false} BeforeDashOfDigits(s: string)
    requires AllDigits(s)
    ensures BeforeDash(s) == s
    decreases |s|
  {
    if |s| > 0 {
      BeforeDashOfDigits(s[1..]);
      assert [s[0]] + s[1..] == s;
    }
  }

  lemma {:induction false} AfterDashOfDay(today: string, x: string)
    requires AllDigits(today)
    ensures AfterDash(today + "-" + x) == x
    decreases |today|
  {
    if |today| == 0 {
      assert today + "-" + x == ['-'] + x;
    } else {
      assert (today + "-" + x)[1..] == today[1..] + "-" + x;
      AfterDashOfDay(today[1..], x);
    }
  }

  /** The numeric suffix of an order number, or None when int() would raise. */
  function SuffixValue(number: string): Option<nat>
  {
    ParseNat(SecondField(number))
  }

  /** A number built from today's stamp and a digit string has that string as its suffix. */
  lemma SuffixOfDay(today: string, digits: string)
    requires IsDayStamp(today) && |digits| > 0 && AllDigits(digits)
    ensures SuffixValue(today + "-" + digits) == Some(Value(digits))
  {
    AfterDashOfDay(today, digits);
    BeforeDashOfDigits(digits);
  }

  /** Python's `a < b` on str: code-point lexicographic order. */
  predicate LexLess(a: string, b: string)
    decreases |a|
  {
    |b| > 0 && (|a| == 0 || a[0] < b[0] || (a[0] == b[0] && LexLess(a[1..], b[1..])))
  }

  predicate LexLe(a: string, b: string)
  {
    a == b || LexLess(a, b)
  }

  lemma {:induction false} LexLessIrreflexive(a: string)
    ensures !LexLess(a, a)
    decreases |a|
  {
    if |a| > 0 {
      LexLessIrreflexive(a[1..]);
    }
  }

  lemma {:induction false} LexTotal(a: string, b: string)
    ensures a == b || LexLess(a, b) || LexLess(b, a)
    decreases |a|
  {
    if |a| > 0 && |b| > 0 && a[0] == b[0] {
      LexTotal(a[1..], b[1..]);
      if a[1..] == b[1..] {
        assert a == [a[0]] + a[1..] && b == [b[0]] + b[1..];
      }
    }
  }

  lemma {:induction false} LexLessTransitive(a: string, b: string, c: string)
    requires LexLess(a, b) && LexLess(b, c)
    ensures LexLess(a, c)
    decreases |a|
  {
    if |a| > 0 && a[0] == b[0] && b[0] == c[0] {
      LexLessTransitive(a[1..], b[1..], c[1..]);
    }
  }

  lemma LexLessAsymmetric(a: string, b: string)
    requires LexLess(a, b)
    ensures !LexLess(b, a)
  {
    if LexLess(b, a) {
      LexLessTransitive(a, b, a);
      LexLessIrreflexive(a);
    }
  }

  lemma {:induction false} LexLessCommonPrefix(p: string, a: string, b: string)
    ensures LexLess(p + a, p + b) <==> LexLess(a, b)
    decreases |p|
  {
    if |p| == 0 {
      assert p + a == a && p + b == b;
    } else {
      var pa, pb := p + a, p + b;
      assert pa[0] == pb[0] == p[0];
      assert pa[1..] == p[1..] + a;
      assert pb[1..] == p[1..] + b;
      LexLessCommonPrefix(p[1..], a, b);
      assert LexLess(pa, pb) <==> LexLess(pa[1..], pb[1..]);
    }
  }

  /** Splits off the most significant digit. */
  lemma {:induction false} ValueFront(s: string)
    requires AllDigits(s) && |s| > 0
    ensures Value(s) == DigitValue(s[0]) * Pow10(|s| - 1) + Value(s[1..])
    decreases |s|
  {
    if |s| > 1 {
      var init, tail := s[..|s| - 1], s[1..];
      var d0, dl, p := DigitValue(s[0]), DigitValue(s[|s| - 1]), Pow10(|s| - 2);
      assert init[0] == s[0];
      assert init[1..] == tail[..|tail| - 1];
      ValueFront(init);
      assert Value(init) == d0 * p + Value(init[1..]);
      assert Value(tail) == 10 * Value(init[1..]) + dl;
      assert Value(s) == 10 * Value(init) + dl;
      assert 10 * (d0 * p) == d0 * (10 * p);
    } else {
      assert s[..0] == "";
    }
  }

  lemma {:induction false} ValueBound(s: string)
    requires AllDigits(s)
    ensures Value(s) < Pow10(|s|)
    decreases |s|
  {
    if |s| > 0 {
      ValueBound(s[..|s| - 1]);
    }
  }

  /** A smaller leading digit outweighs anything the lower digits hold. */
  lemma LeadingDigit(da: nat, db: nat, ra: nat, rb: nat, p: nat)
    requires da < db && ra < p
    ensures da * p + ra < db * p + rb
  {
    assert (da + 1) * p <= db * p;
  }

  /** Equal-length digit strings: a smaller first digit means a smaller value. */
  lemma FrontDigitOrder(a: string, b: string)
    requires AllDigits(a) && AllDigits(b) && |a| == |b| > 0 && a[0] < b[0]
    ensures Value(a) < Value(b)
  {
    ValueFront(a);
    ValueFront(b);
    ValueBound(a[1..]);
    LeadingDigit(DigitValue(a[0]), DigitValue(b[0]), Value(a[1..]), Value(b[1..]), Pow10(|a| - 1));
  }

  /** Equal-length digit strings with the same first digit are ordered by the rest. */
  lemma RestDigitOrder(a: string, b: string)
    requires AllDigits(a) && AllDigits(b) && |a| == |b| > 0 && a[0] == b[0]
    requires Value(a[1..]) < Value(b[1..])
    ensures Value(a) < Value(b)
  {
    ValueFront(a);
    ValueFront(b);
  }

  /** On digit strings of one length, string order is numeric order. */
  lemma {:induction false} LexLessDigits(a: string, b: string)
    requires AllDigits(a) && AllDigits(b) && |a| == |b|
    requires LexLess(a, b)
    ensures Value(a) < Value(b)
    decreases |a|
  {
    if a[0] < b[0] {
      FrontDigitOrder(a, b);
    } else {
      LexLessDigits(a[1..], b[1..]);
      RestDigitOrder(a, b);
    }
  }

  // ---------------------------------------------------------------------
  // The generator
  // ---------------------------------------------------------------------

  /** The existing numbers that start with `base`, in their original order. */
  function SameDay(existing: seq<string>, base: string): (r: seq<string>)
    ensures forall x :: x in r <==> x in existing && base <= x
  {
    if |existing| == 0 then []
    else
      var rest := SameDay(existing[..|existing| - 1], base);
      var x := existing[|existing| - 1];
      assert existing == existing[..|existing| - 1] + [x];
      if base <= x then rest + [x] else rest
  }

  lemma {:induction false} SameDayNone(existing: seq<string>, base: string)
    requires forall x | x in existing :: !(base <= x)
    ensures SameDay(existing, base) == []
  {
    if |existing| > 0 {
      var init, last := existing[..|existing| - 1], existing[|existing| - 1];
      assert existing == init + [last];
      assert last in existing && forall x | x in init :: x in existing;
      SameDayNone(init, base);
      assert !(base <= last);
    }
  }

  /** The last element of a list sorted by Python's str order (order_by(...).last()). */
  function LexMax(xs: seq<string>): (r: string)
    requires |xs| > 0
    ensures r in xs
  {
    if |xs| == 1 then xs[0]
    else
      var m := LexMax(xs[1..]);
      if LexLess(m, xs[0]) then xs[0] else m
  }

  lemma {:induction false} LexMaxGreatest(xs: seq<string>)
    requires |xs| > 0
    ensures forall x | x in xs :: LexLe(x, LexMax(xs))
  {
    if |xs| > 1 {
      var m := LexMax(xs[1..]);
      LexMaxGreatest(xs[1..]);
      forall x | x in xs
        ensures LexLe(x, LexMax(xs))
      {
        if x == xs[0] {
          LexTotal(x, m);
        } else {
          assert x in xs[1..];
          if LexLess(m, xs[0]) && x != m {
            LexLessTransitive(x, m, xs[0]);
          }
        }
      }
    }
  }

  /**
    Pedido.gerar_numero as written: today's prefix plus one more than the
    suffix of the lexicographically greatest same-day number, or "0001" when
    there is none. Err(n) is the ValueError raised when the suffix of that
    greatest number `n` is not a decimal integer.
  */
  function GenerateNumber(today: string, existing: seq<string>): Result<string, string>
  {
    var base := today + "-";
    var same := SameDay(existing, base);
    if |same| == 0 then Ok(base + "0001")
    else
      var last := LexMax(same);
      match SuffixValue(last)
      case None => Err(last)
      case Some(n) => Ok(base + Format04(n + 1))
  }

  /** The first order of a day gets sequence number 0001. */
  lemma FirstNumberOfDay(today: string, existing: seq<string>)
    requires forall x | x in existing :: !(today + "-" <= x)
    ensures GenerateNumber(today, existing) == Ok(today + "-0001")
  {
    SameDayNone(existing, today + "-");
    assert today + "-" + "0001" == today + "-0001";
  }

  /**
    Otherwise the result is determined by the greatest same-day number `g`
    alone: its suffix plus one, zero-padded, or a ValueError naming `g`.
  */
  lemma NextAfterGreatest(today: string, existing: seq<string>, g: string)
    requires g in existing && today + "-" <= g
    requires forall x | x in existing && today + "-" <= x :: LexLe(x, g)
    ensures SuffixValue(g).None? ==> GenerateNumber(today, existing) == Err(g)
    ensures SuffixValue(g).Some? ==>
      GenerateNumber(today, existing) == Ok(today + "-" + Format04(SuffixValue(g).value + 1))
  {
    var same := SameDay(existing, today + "-");
    assert g in same;
    var last := LexMax(same);
    LexMaxGreatest(same);
    assert LexLe(g, last) && LexLe(last, g);
    if g != last {
      LexLessAsymmetric(g, last);
    }
  }

  /** The largest well-formed suffix among `nums` (0 when there is none). */
  function MaxSuffix(nums: seq<string>): (m: nat)
    ensures forall i | 0 <= i < |nums| && SuffixValue(nums[i]).Some? :: SuffixValue(nums[i]).value <= m
    ensures m == 0 || exists i | 0 <= i < |nums| :: SuffixValue(nums[i]) == Some(m)
  {
    if |nums| == 0 then 0
    else
      var m := MaxSuffix(nums[..|nums| - 1]);
      match SuffixValue(nums[|nums| - 1])
      case Some(v) => if v > m then v else m
      case None => m
  }

  lemma MaxSuffixBounds(nums: seq<string>)
    ensures forall x | x in nums && SuffixValue(x).Some? :: SuffixValue(x).value <= MaxSuffix(nums)
  {
    forall x | x in nums && SuffixValue(x).Some?
      ensures SuffixValue(x).value <= MaxSuffix(nums)
    {
      var i :| 0 <= i < |nums| && nums[i] == x;
    }
  }

  /**
    The per-day number with the intended meaning: one more than the NUMERIC
    greatest same-day suffix. It is never one of the existing numbers,
    whatever they are.
  */
  function NextNumber(today: string, existing: seq<string>): (r: string)
    requires IsDayStamp(today)
    ensures today + "-" <= r
    ensures r !in existing
  {
    var same := SameDay(existing, today + "-");
    var n := MaxSuffix(same) + 1;
    var r := today + "-" + Format04(n);
    SuffixOfDay(today, Format04(n));
    MaxSuffixBounds(same);
    r
  }

  /** A same-day number as the source expects it: four digits below 9999. */
  predicate InRange(today: string, x: string)
  {
    |x| == 13 && x[..9] == today + "-" && AllDigits(x[9..]) && Value(x[9..]) < 9999
  }

  /** The first sequence number of a day, zero-padded. */
  lemma Format0001()
    ensures Format04(1) == "0001"
  {
    assert Digits(0, 0) == "" && Digits(0, 1) == "0" && Digits(0, 2) == "00";
    assert Digits(0, 3) == "000" && Digits(1, 4) == "0001";
  }

  /** Among in-range numbers of one day, string order bounds the suffixes. */
  lemma InRangeSuffix(today: string, x: string, g: string)
    requires IsDayStamp(today) && InRange(today, x) && InRange(today, g)
    requires LexLe(x, g)
    ensures SuffixValue(x) == Some(Value(x[9..]))
    ensures Value(x[9..]) <= Value(g[9..])
  {
    var base := today + "-";
    assert x == base + x[9..] && g == base + g[9..];
    SuffixOfDay(today, x[9..]);
    if x != g {
      LexLessCommonPrefix(base, x[9..], g[9..]);
      LexLessDigits(x[9..], g[9..]);
    }
  }

  /** Among in-range numbers, the string-greatest one carries the numerically greatest suffix. */
  lemma MaxSuffixInRange(today: string, same: seq<string>, g: string)
    requires IsDayStamp(today) && g in same && InRange(today, g)
    requires forall x | x in same :: InRange(today, x) && LexLe(x, g)
    ensures SuffixValue(g) == Some(Value(g[9..]))
    ensures MaxSuffix(same) == Value(g[9..])
  {
    var m := MaxSuffix(same);
    InRangeSuffix(today, g, g);
    forall x | x in same
      ensures SuffixValue(x) == Some(Value(x[9..])) && Value(x[9..]) <= Value(g[9..])
    {
      InRangeSuffix(today, x, g);
    }
    MaxSuffixBounds(same);
    if m != 0 {
      var i :| 0 <= i < |same| && SuffixValue(same[i]) == Some(m);
      assert same[i] in same;
    }
  }

  /**
    While every same-day number has a four-digit suffix below 9999, string
    order agrees with numeric order, so the source's generator returns the
    numerically next number, which is not taken and still has four digits.
  */
  lemma GenerateNumberFresh(today: string, existing: seq<string>)
    requires IsDayStamp(today)
    requires forall x | x in existing && today + "-" <= x :: InRange(today, x)
    ensures GenerateNumber(today, existing) == Ok(NextNumber(today, existing))
    ensures |NextNumber(today, existing)| == 13
  {
    var base := today + "-";
    var same := SameDay(existing, base);
    var m := MaxSuffix(same);
    assert NextNumber(today, existing) == base + Format04(m + 1);
    if |same| == 0 {
      Format0001();
      assert GenerateNumber(today, existing) == Ok(base + "0001");
    } else {
      var g := LexMax(same);
      LexMaxGreatest(same);
      assert InRange(today, g);
      MaxSuffixInRange(today, same, g);
      assert m + 1 < 10000;
      GenerateFromGreatest(today, existing, m);
    }
  }

  /** Unfolds the generator once the greatest same-day number's suffix is known. */
  lemma GenerateFromGreatest(today: string, existing: seq<string>, n: nat)
    requires |SameDay(existing, today + "-")| > 0
    requires SuffixValue(LexMax(SameDay(existing, today + "-"))) == Some(n)
    ensures GenerateNumber(today, existing) == Ok(today + "-" + Format04(n + 1))
  {
    var same := SameDay(existing, today + "-");
    var last := LexMax(same);
    assert SuffixValue(last) == Some(n);
  }

  lemma Value9999()
    ensures AllDigits("9999") && Value("9999") == 9999
  {
    assert "9999"[..3] == "999" && "999"[..2] == "99" && "99"[..1] == "9" && "9"[..0] == "";
  }

  lemma Format10000()
    ensures Format04(10000) == "10000"
  {
    assert Width(1) == 1;
    assert Width(10) == 2;
    assert Width(100) == 3;
    assert Width(1000) == 4;
    assert Width(10000) == 5;
    assert Digits(0, 0) == "";
    assert Digits(1, 1) == "1";
    assert Digits(10, 2) == "10";
    assert Digits(100, 3) == "100";
    assert Digits(1000, 4) == "1000";
    assert Digits(10000, 5) == "10000";
  }

  /**
    Once a day reaches "-10000", "-9999" stays the greatest string, so the
    source's generator hands out "-10000" a second time.
  */
  lemma {:induction false} GenerateNumberRepeats(today: string)
    requires IsDayStamp(today)
    ensures GenerateNumber(today, [today + "-" + "9999", today + "-" + "10000"]) == Ok(today + "-" + "10000")
  {
    var base := today + "-";
    var a, b := base + "9999", base + "10000";
    assert base <= a && base <= b;
    assert SameDay([a, b], base) == [a, b] by {
      assert [a, b][..1] == [a];
      assert [a][..0] == [];
      assert SameDay([a], base) == [a];
    }
    assert LexMax([a, b]) == a by {
      LexLessCommonPrefix(base, "10000", "9999");
      assert [a, b][1..] == [b];
    }
    Value9999();
    SuffixOfDay(today, "9999");
    Format10000();
  }
}

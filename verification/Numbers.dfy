/** Numbers as the shell writes and reads them, in 32-bit two's complement. */
module Numbers {
  import opened Words

  type Int32 = n: int | -0x8000_0000 <= n < 0x8000_0000

  /** What is left of a result in 32 bits. */
  function Wrap(n: int): (r: Int32)
    ensures (n - r) % 0x1_0000_0000 == 0
  {
    (n + 0x8000_0000) % 0x1_0000_0000 - 0x8000_0000
  }

  predicate Isdigit(c: int)
  {
    '0' as int <= c <= '9' as int
  }

  predicate AllDigits(w: Word)
  {
    forall k :: 0 <= k < |w| ==> Isdigit(w[k])
  }

  /** The number a string of digits denotes. */
  function Denotes(w: Word): int
  {
    if w == [] then 0 else Denotes(w[..|w| - 1]) * 10 + (w[|w| - 1] - '0' as int)
  }

  /** `putn1`: the digits of `n`. */
  function Digits(n: nat): (w: Word)
    ensures w != [] && AllDigits(w)
  {
    (if n > 9 then Digits(n / 10) else []) + [n % 10 + '0' as int]
  }

  lemma {:induction false} DigitsDenote(n: nat)
    ensures Denotes(Digits(n)) == n
  {
    var w := Digits(n);
    if n > 9 {
      DigitsDenote(n / 10);
      assert w[..|w| - 1] == Digits(n / 10);
    }
  }

  /** `putn`. */
  function Putn(n: Int32): Word
  {
    var sign: Word := if n < 0 then ['-' as int] else [];
    var m := if n < 0 then Wrap(-(n as int)) else n;
    var unsigned := m % 0x1_0000_0000;
    if unsigned == 0x8000_0000 then sign + ['2' as int] + Digits(unsigned - 2_000_000_000)
    else sign + Digits(unsigned)
  }

  /** Where the digits start: after a plus that is not alone, and after a minus. */
  function Start(w: Word): nat
  {
    var p := if At(w, 0) == '+' as int && At(w, 1) != 0 then 1 else 0;
    if At(w, p) == '-' as int then p + 1 else p
  }

  predicate Negative(w: Word)
  {
    Start(w) > 0 && At(w, Start(w) - 1) == '-' as int
  }

  /** What the string stands for, in 32 bits; nothing if it is no number. */
  function Numeral(w: Word): Option<Int32>
  {
    var d := Start(w);
    if d > |w| || !AllDigits(w[d..]) || (Negative(w) && d == |w|) then None
    else Some(if Negative(w) then Wrap(-Denotes(w[d..])) else Wrap(Denotes(w[d..])))
  }

  /** `getn`. */
  method Getn(w: Word) returns (r: Option<Int32>)
    ensures r == Numeral(w)
  {
    hide Wrap, Denotes;
    var cp, sign := 0, false;
    if At(w, 0) == '+' as int && At(w, 1) != 0 {
      cp := cp + 1;
    }
    if At(w, cp) == '-' as int {
      sign := true;
      cp := cp + 1;
      if !Isdigit(At(w, cp)) {
        return None;
      }
    }
    r := Magnitude(w, cp);
    if r.Some? && sign {
      WrapNegative(Denotes(w[cp..]));
      r := Some(Wrap(-(r.value as int)));
    }
  }

  /** The digits from `d` to the end. */
  method Magnitude(w: Word, d: nat) returns (r: Option<Int32>)
    requires d <= |w|
    ensures r == if AllDigits(w[d..]) then Some(Wrap(Denotes(w[d..]))) else None
  {
    hide Denotes, Wrap;
    var cp, n: Int32 := d, 0;
    Zero();
    assert w[d..d] == [];
    while cp < |w| && Isdigit(w[cp])
      invariant d <= cp <= |w| && AllDigits(w[d..cp]) && n == Wrap(Denotes(w[d..cp]))
    {
      DenotesStep(w, d, cp);
      assert w[d..cp + 1] == w[d..cp] + [w[cp]];
      WrapStep(Denotes(w[d..cp]), w[cp]);
      n := Wrap(n * 10 + w[cp] - '0' as int);
      cp := cp + 1;
    }
    if cp < |w| {
      assert w[d..][cp - d] == w[cp];
      return None;
    }
    assert w[d..cp] == w[d..];
    return Some(n);
  }

  lemma {:induction false} Zero()
    ensures Wrap(Denotes([])) == 0
  {
  }

  lemma {:induction false} DenotesStep(w: Word, d: nat, cp: nat)
    requires d <= cp < |w|
    ensures Denotes(w[d..cp + 1]) == Denotes(w[d..cp]) * 10 + (w[cp] - '0' as int)
  {
    var u := w[d..cp + 1];
    assert u[..|u| - 1] == w[d..cp];
  }

  lemma {:induction false} WrapStep(v: int, c: int)
    ensures Wrap(Wrap(v) * 10 + c - '0' as int) == Wrap(v * 10 + (c - '0' as int))
  {
  }

  lemma {:induction false} WrapNegative(v: int)
    ensures Wrap(-(Wrap(v) as int)) == Wrap(-v)
  {
  }

  function Pow10(n: nat): int
  {
    if n == 0 then 1 else 10 * Pow10(n - 1)
  }

  lemma {:induction false} Shifted(c: Char, w: Word)
    ensures Denotes([c] + w) == (c - '0' as int) * Pow10(|w|) + Denotes(w)
    decreases |w|
  {
    if w != [] {
      Shifted(c, w[..|w| - 1]);
      assert ([c] + w)[..|w|] == [c] + w[..|w| - 1];
    }
  }

  /** Every 32-bit number is read back as it was written, the smallest one included. */
  lemma {:induction false} RoundTrip(n: Int32)
    ensures Numeral(Putn(n)) == Some(n)
  {
    hide Digits, Denotes;
    var w := Putn(n);
    DigitsDenote(if n < 0 then -(n as int) else n);
    if n < 0 {
      var m := Wrap(-(n as int)) % 0x1_0000_0000;
      var digits := if m == 0x8000_0000 then ['2' as int] + Digits(m - 2_000_000_000) else Digits(m);
      if m == 0x8000_0000 {
        Smallest(m - 2_000_000_000);
      }
      assert w == ['-' as int] + digits;
      assert w[1..] == digits;
    } else {
      assert w == Digits(n);
      assert w[0..] == w;
    }
  }

  lemma {:induction false} Smallest(m: nat)
    requires m == 147483648
    ensures var d := ['2' as int] + Digits(m); AllDigits(d) && Denotes(d) == 0x8000_0000
  {
    hide Digits, Denotes;
    Billion();
    Long(m, 9);
    DigitsDenote(m);
    Shifted('2' as int, Digits(m));
  }

  lemma {:induction false} Billion()
    ensures Pow10(8) == 100_000_000 && Pow10(9) == 1_000_000_000
  {
  }

  /** How many digits a number has. */
  lemma {:induction false} Long(n: nat, k: nat)
    requires k > 0 && Pow10(k - 1) <= n < Pow10(k)
    ensures |Digits(n)| == k
    decreases k
  {
    if n > 9 {
      Long(n / 10, k - 1);
    }
  }

  // What is written and read, character by character

  lemma {:induction false} PutnNatural(n: Int32)
    requires n >= 0
    ensures Putn(n) == Digits(n)
  {
    hide Digits;
  }

  /** A number is written in decimal, the last digit behind the others and a minus in front; the smallest one too. */
  lemma {:induction false} PutnIsDecimal(n: Int32)
    ensures n >= 0 ==> Putn(n) == (if n > 9 then Putn(n / 10) else []) + ['0' as int + n % 10]
    ensures -0x8000_0000 < n < 0 ==> Putn(n) == ['-' as int] + Putn(-n)
    ensures n == -0x8000_0000 ==> Putn(n) == ['-' as int] + Putn(214_748_364) + ['8' as int]
  {
    hide Putn, Digits;
    if n >= 0 {
      PutnNatural(n);
      PutnNatural(n / 10);
      LastDigit(n);
    } else if n > -0x8000_0000 {
      PutnNegative(n);
      PutnNatural(-n);
    } else {
      PutnNegative(n);
      PutnNatural(214_748_364);
      TwoBillion();
    }
  }

  lemma {:induction false} LastDigit(n: nat)
    ensures Digits(n) == (if n > 9 then Digits(n / 10) else []) + ['0' as int + n % 10]
  {
  }

  lemma {:induction false} TwoBillion()
    ensures ['2' as int] + Digits(147_483_648) == Digits(214_748_364) + ['8' as int]
  {
    hide Digits;
    Billion();
    InFront(14_748_364, 8);
    LastDigit(147_483_648);
    assert ['2' as int] + (Digits(14_748_364) + ['8' as int]) == (['2' as int] + Digits(14_748_364)) + ['8' as int];
  }

  lemma {:induction false} PutnNegative(n: Int32)
    requires n < 0
    ensures Putn(n) == ['-' as int] +
      (if n == -0x8000_0000 then ['2' as int] + Digits(147_483_648) else Digits(-n))
  {
    hide Digits;
  }

  /** A 2 in front of `k` digits. */
  lemma {:induction false} InFront(m: nat, k: nat)
    requires k > 0 && Pow10(k - 1) <= m < Pow10(k)
    ensures ['2' as int] + Digits(m) == Digits(2 * Pow10(k) + m)
    decreases k
  {
    var n := 2 * Pow10(k) + m;
    if k > 1 {
      InFront(m / 10, k - 1);
      assert n / 10 == 2 * Pow10(k - 1) + m / 10;
    } else {
      assert n / 10 == 2 && Digits(2) == [] + ['2' as int];
    }
    assert Digits(n) == Digits(n / 10) + [n % 10 + '0' as int];
  }

  /** What `getn` takes, by shape: digits, with a plus, a minus or a plus and a minus in front. The empty word is 0; a
      sign needs a digit behind it. */
  lemma {:induction false} Signs(w: Word)
    requires AllDigits(w)
    ensures Numeral(w) == Some(Wrap(Denotes(w)))
    ensures Numeral(['+' as int] + w) == if w == [] then None else Some(Wrap(Denotes(w)))
    ensures Numeral(['-' as int] + w) == if w == [] then None else Some(Wrap(-Denotes(w)))
    ensures Numeral(['+' as int, '-' as int] + w) == if w == [] then None else Some(Wrap(-Denotes(w)))
  {
    hide Denotes, Wrap;
    assert w[0..] == w && (['+' as int] + w)[1..] == w && (['-' as int] + w)[1..] == w;
    assert (['+' as int, '-' as int] + w)[2..] == w;
    assert !AllDigits(['+' as int]) by { assert !Isdigit(['+' as int][0]); }
  }

  /** Nothing else is a number. */
  lemma {:induction false} OnlySigns(w: Word)
    requires Numeral(w).Some?
    ensures var d := Start(w);
      && d <= 2 && d <= |w| && AllDigits(w[d..])
      && (d == 1 ==> w[0] == '+' as int || w[0] == '-' as int)
      && (d == 2 ==> w[0] == '+' as int && w[1] == '-' as int)
  {
    hide Denotes, Wrap;
  }

  // Octal numbers, which the manual page promises for a leading 0

  function Octal(w: Word): int
  {
    if w == [] then 0 else Octal(w[..|w| - 1]) * 8 + (w[|w| - 1] - '0' as int)
  }

  predicate OctalDigits(w: Word)
  {
    forall k :: 0 <= k < |w| ==> '0' as int <= w[k] <= '7' as int
  }

  /** Read as the program does, in decimal, a string of octal digits denotes its octal value exactly if only its last
      digit counts. */
  lemma {:induction false} OctalIsDecimal(w: Word)
    requires OctalDigits(w)
    ensures 0 <= Octal(w) <= Denotes(w)
    ensures Denotes(w) == Octal(w) <==> forall k :: 0 <= k < |w| - 1 ==> w[k] == '0' as int
    ensures Denotes(w) == 0 <==> forall k :: 0 <= k < |w| ==> w[k] == '0' as int
  {
    if w != [] {
      var v := w[..|w| - 1];
      OctalIsDecimal(v);
      assert forall k :: 0 <= k < |v| ==> v[k] == w[k];
    }
  }

  /** `010` is ten. */
  method LeadingZero() returns (r: Option<Int32>)
    ensures r == Some(10)
  {
    var w: Word := ['0' as int, '1' as int, '0' as int];
    assert Denotes([]) == 0;
    hide Denotes;
    assert w[0..0] == [] && w[0..3] == w;
    DenotesStep(w, 0, 0);
    DenotesStep(w, 0, 1);
    DenotesStep(w, 0, 2);
    Signs(w);
    r := Getn(w);
  }
}

/** The number printer and the decimal reader of vsprintf. */
module Printf {
  import opened Wrappers

  const TWO_31: nat := 0x8000_0000
  const TWO_32: nat := 0x1_0000_0000

  /** The flag bits of a conversion. */
  datatype Flags = Flags(zeropad: bool, sign: bool, plus: bool, space: bool, left: bool, special: bool, small: bool)

  // ---- digits ------------------------------------------------------------------------

  const CAPITALS: string := "0123456789ABCDEFGHIJKLMNOPQRSTUVWXYZ"
  const SMALLS: string := "0123456789abcdefghijklmnopqrstuvwxyz"

  function DigitSet(small: bool): (s: string)
    ensures |s| == 36
  {
    if small then SMALLS else CAPITALS
  }

  /** The digits of m, the most significant first. */
  function Digits(m: nat, base: nat, small: bool): string
    requires 2 <= base <= 36
  {
    (if m < base then "" else Digits(m / base, base, small)) + [DigitSet(small)[m % base]]
  }

  /** What a digit of either set is worth. */
  function Worth(c: char): nat {
    if '0' <= c <= '9' then c as nat - '0' as nat
    else if 'A' <= c <= 'Z' then c as nat - 'A' as nat + 10
    else if 'a' <= c <= 'z' then c as nat - 'a' as nat + 10
    else 36
  }

  /** What a string of digits is worth. */
  function Value(s: string, base: nat): nat {
    if s == "" then 0 else Value(s[..|s| - 1], base) * base + Worth(s[|s| - 1])
  }

  lemma WorthOfCapital(d: nat)
    requires d < 36
    ensures Worth(CAPITALS[d]) == d && (d < 10 <==> '0' <= CAPITALS[d] <= '9')
  {
  }

  lemma WorthOfSmall(d: nat)
    requires d < 36
    ensures Worth(SMALLS[d]) == d && (d < 10 <==> '0' <= SMALLS[d] <= '9')
  {
  }

  lemma WorthOf(d: nat, small: bool)
    requires d < 36
    ensures Worth(DigitSet(small)[d]) == d
    ensures d < 10 <==> '0' <= DigitSet(small)[d] <= '9'
  {
    hide Worth;
    if small { WorthOfSmall(d); } else { WorthOfCapital(d); }
  }

  lemma ValueSnoc(s: string, c: char, base: nat)
    ensures Value(s + [c], base) == Value(s, base) * base + Worth(c)
  {
    var t := s + [c];
    assert t[..|t| - 1] == s;
  }

  lemma DigitsStep(m: nat, base: nat, small: bool)
    requires 2 <= base <= 36
    ensures Digits(m, base, small) ==
      (if m < base then "" else Digits(m / base, base, small)) + [DigitSet(small)[m % base]]
  {
  }

  lemma DivMod(m: nat, b: nat)
    requires b > 0
    ensures m / b * b + m % b == m && m % b < b
  {
  }

  lemma MulLe(a: nat, b: nat, p: nat, q: nat)
    requires a <= b && p <= q
    ensures a * p <= b * q
  {
    assert a * p <= b * p;
    assert b * p <= b * q;
  }

  lemma Smaller(n: nat, b: nat)
    requires n > 0 && b >= 2
    ensures 0 <= n % b < b && n / b < n && (n / b > 0 <==> n >= b)
  {
    var q, r := n / b, n % b;
    DivMod(n, b);
    MulLe(q, q, 2, b);
    if q > 0 { MulLe(1, q, b, b); }
  }

  /** Every character of d is worth less than the base. */
  ghost predicate DigitsOfBase(d: string, base: nat) {
    forall c :: c in d ==> Worth(c) < base
  }

  lemma OneMoreDigit(s: string, c: char, base: nat)
    requires DigitsOfBase(s, base) && Worth(c) < base
    ensures DigitsOfBase(s + [c], base)
  {
    hide Worth;
  }

  /** The digits are digits of the base, and evaluate to m. */
  lemma {:induction false} DigitsValue(m: nat, base: nat, small: bool)
    requires 2 <= base <= 36
    ensures Value(Digits(m, base, small), base) == m
    ensures DigitsOfBase(Digits(m, base, small), base)
    decreases m
  {
    hide *;
    DivMod(m, base);
    DigitsStep(m, base, small);
    WorthOf(m % base, small);
    if m > 0 { Smaller(m, base); }
    if m < base {
      NoDigits(base);
      ValueSnoc("", DigitSet(small)[m % base], base);
      OneMoreDigit("", DigitSet(small)[m % base], base);
    } else {
      DigitsValue(m / base, base, small);
      ValueSnoc(Digits(m / base, base, small), DigitSet(small)[m % base], base);
      OneMoreDigit(Digits(m / base, base, small), DigitSet(small)[m % base], base);
    }
  }

  lemma NoDigits(base: nat)
    ensures Value("", base) == 0 && DigitsOfBase("", base)
  {
  }

  function Power(base: nat, k: nat): nat {
    if k == 0 then 1 else base * Power(base, k - 1)
  }

  /** m has at most k digits exactly if it is below the k-th power of the base. */
  lemma {:induction false} DigitCount(m: nat, base: nat, small: bool, k: nat)
    requires 2 <= base <= 36 && k > 0
    ensures |Digits(m, base, small)| <= k <==> m < Power(base, k)
    ensures |Digits(m, base, small)| >= 1
    decreases m
  {
    hide Digits, Power, DigitSet;
    DigitsStep(m, base, small);
    PowerStep(base, k);
    if m > 0 { Smaller(m, base); }
    if m >= base {
      QuotientBelow(m, base, Power(base, k - 1));
      if k == 1 {
        DigitCount(m / base, base, small, 1);
      } else {
        DigitCount(m / base, base, small, k - 1);
      }
    } else {
      PowerMono(base, k);
    }
  }

  lemma PowerStep(base: nat, k: nat)
    requires k > 0
    ensures Power(base, k) == base * Power(base, k - 1) && (k == 1 ==> Power(base, k) == base)
  {
    assert k == 1 ==> Power(base, 0) == 1;
  }

  lemma QuotientBelow(m: nat, b: nat, p: nat)
    requires b > 0
    ensures m / b < p <==> m < b * p
  {
    var q, r := m / b, m % b;
    assert m == b * q + r;
    if q < p { assert b * (q + 1) <= b * p; } else { assert b * p <= b * q; }
  }

  lemma {:induction false} PowerMono(base: nat, k: nat)
    requires base >= 2 && k > 0
    ensures Power(base, k) >= base
  {
    if k > 1 {
      PowerMono(base, k - 1);
      assert base * Power(base, k - 1) >= base * 1;
    }
  }

  lemma {:induction false} PowerBases(a: nat, b: nat, k: nat)
    requires a <= b
    ensures Power(a, k) <= Power(b, k)
  {
    if k > 0 {
      PowerBases(a, b, k - 1);
      MulLe(a, b, Power(a, k - 1), Power(b, k - 1));
    }
  }

  /** No 32-bit value has more than 32 digits, so the scratch buffer of 36
      characters is large enough. */
  lemma DigitsFit(m: nat, base: nat, small: bool)
    requires 2 <= base <= 36 && m < TWO_32
    ensures 1 <= |Digits(m, base, small)| <= 32
  {
    PowerBases(2, base, 32);
    assert Power(2, 32) == TWO_32 by { ThirtyTwo(); }
    DigitCount(m, base, small, 32);
  }

  lemma ThirtyTwo()
    ensures Power(2, 32) == TWO_32
  {
    assert Power(2, 8) == 256;
    assert Power(2, 16) == 0x1_0000;
    assert Power(2, 24) == 0x100_0000;
  }

  // ---- a formatted number ------------------------------------------------------------------

  /** The magnitude printed for a word: its two's complement if it is to be
      printed with a sign and is negative. */
  function Magnitude(num: nat, f: Flags): nat
    requires num < TWO_32
  {
    if f.sign && num >= TWO_31 then TWO_32 - num else num
  }

  function SignOf(num: nat, f: Flags): string {
    if f.sign && num >= TWO_31 then "-" else if f.plus then "+" else if f.space then " " else ""
  }

  function PrefixOf(base: nat, f: Flags): string {
    if f.special && base == 16 then (if f.small then "0x" else "0X") else if f.special && base == 8 then "0" else ""
  }

  function Repeat(c: char, n: int): (s: string)
    ensures |s| == Max(n, 0)
  {
    if n <= 0 then "" else [c] + Repeat(c, n - 1)
  }

  function Max(a: int, b: int): int { if a > b then a else b }

  /** head and the digits d, at least as many as the precision asks for, and
      padded to the size. */
  function Layout(head: string, d: string, size: int, precision: int, zeropad: bool, left: bool): string {
    var body := Repeat('0', precision - |d|) + d;
    var pad := size - |head| - Max(precision, |d|);
    if left then head + body + Repeat(' ', pad)
    else if zeropad then head + Repeat('0', pad) + body
    else Repeat(' ', pad) + head + body
  }

  /** Sign, prefix and digits of a number, padded. */
  function Formatted(num: nat, base: nat, size: int, precision: int, f: Flags): string
    requires num < TWO_32 && 2 <= base <= 36
  {
    Layout(SignOf(num, f) + PrefixOf(base, f), Digits(Magnitude(num, f), base, f.small), size, precision, f.zeropad,
      f.left)
  }

  lemma LayoutLength(head: string, d: string, size: int, precision: int, zeropad: bool, left: bool)
    ensures |Layout(head, d, size, precision, zeropad, left)| == Max(size, |head| + Max(precision, |d|))
  {
  }

  /** The length of the output. */
  lemma FormattedLength(num: nat, base: nat, size: int, precision: int, f: Flags)
    requires num < TWO_32 && 2 <= base <= 36
    ensures var d := Digits(Magnitude(num, f), base, f.small);
      |Formatted(num, base, size, precision, f)| ==
        Max(size, |SignOf(num, f)| + |PrefixOf(base, f)| + Max(precision, |d|))
  {
    hide Layout, Digits, SignOf, PrefixOf;
    LayoutLength(SignOf(num, f) + PrefixOf(base, f), Digits(Magnitude(num, f), base, f.small), size, precision,
      f.zeropad, f.left);
  }

  // ---- number ---------------------------------------------------------------------------------

  /** `while (n-- > 0) *str++ = c;` */
  method Fill(buf: array<char>, str: nat, n: int, c: char) returns (end: nat, rest: int)
    requires str + Max(n, 0) <= buf.Length
    modifies buf
    ensures end == str + Max(n, 0) && rest == (if n > 0 then -1 else n - 1)
    ensures buf[..] == old(buf[..str]) + Repeat(c, n) + old(buf[end..])
  {
    end, rest := str, n;
    ghost var done := "";
    while rest > 0
      invariant n > 0 ==> 0 <= rest
      invariant end == str + |done| && (n > 0 ==> |done| == n - rest) && (n <= 0 ==> rest == n && done == "")
      invariant done + Repeat(c, rest) == Repeat(c, n)
      invariant buf[..] == old(buf[..str]) + done + old(buf[end..])
    {
      rest := rest - 1;
      assert done + ([c] + Repeat(c, rest)) == done + [c] + Repeat(c, rest);
      buf[end] := c;
      done := done + [c];
      end := end + 1;
    }
    assert done + "" == done;
    rest := rest - 1;
  }

  /** The digits of num, the least significant first. */
  function Backwards(s: string): (r: string)
    ensures |r| == |s|
  {
    if s == "" then "" else Backwards(s[1..]) + [s[0]]
  }

  lemma {:induction false} BackwardsAt(s: string, k: nat)
    requires k < |s|
    ensures Backwards(s)[k] == s[|s| - 1 - k]
  {
    if k < |s| - 1 { BackwardsAt(s[1..], k); }
  }

  lemma BackwardsSnoc(s: string, c: char)
    ensures Backwards(s + [c]) == [c] + Backwards(s)
  {
    var t := s + [c];
    forall k: nat | k < |t| ensures Backwards(t)[k] == ([c] + Backwards(s))[k] {
      BackwardsAt(t, k);
      if k > 0 { BackwardsAt(s, k - 1); }
    }
  }

  lemma BackwardsNone()
    ensures Backwards("") == ""
  {
  }

  lemma ZeroDigit(base: nat, small: bool)
    requires 2 <= base <= 36
    ensures Digits(0, base, small) == "0" == Backwards(['0'])
  {
  }

  ghost predicate Divided(n: nat, b: nat, q: nat, r: nat)
    requires b > 0
  {
    q == n / b && r == n % b
  }

  /** do_div. */
  method DoDiv(n: nat, b: nat) returns (q: nat, r: nat)
    requires n > 0 && b >= 2
    ensures Divided(n, b, q, r) && q < n && r < b
  {
    q, r := n / b, n % b;
    Smaller(n, b);
  }

  /** The digits still to come, if any, and those in the scratch buffer. */
  ghost function Halfway(n: nat, base: nat, small: bool, t: string): string
    requires 2 <= base <= 36
  {
    (if n > 0 then Digits(n, base, small) else "") + Backwards(t)
  }

  /** One more digit in the scratch buffer, which holds t. */
  lemma ScratchStep(n: nat, base: nat, small: bool, t: string, q: nat, r: nat)
    requires 2 <= base <= 36 && n > 0 && Divided(n, base, q, r)
    ensures r < base && Halfway(q, base, small, t + [DigitSet(small)[r]]) == Halfway(n, base, small, t)
    ensures |t| < |Halfway(n, base, small, t)|
  {
    hide Digits, DigitSet, Backwards;
    DigitsStep(n, base, small);
    Smaller(n, base);
    var c := DigitSet(small)[n % base];
    BackwardsSnoc(t, c);
    Joined(if n / base > 0 then Digits(n / base, base, small) else "", [c], Backwards(t));
  }

  /** The loop that divides num down fills the scratch buffer from its start. */
  method Scratch(num: nat, base: nat, small: bool) returns (tmp: array<char>, i: nat)
    requires num < TWO_32 && 2 <= base <= 36
    ensures fresh(tmp) && tmp.Length == 36 && i <= 36 && Backwards(tmp[..i]) == Digits(num, base, small)
  {
    hide Digits, DigitSet, Backwards;
    tmp := new char[36];
    i := 0;
    var digits := DigitSet(small);
    DigitsFit(num, base, small);
    BackwardsNone();
    if num == 0 {
      tmp[i] := '0';
      i := i + 1;
      ZeroDigit(base, small);
      assert tmp[..i] == ['0'];
    } else {
      var n: nat := num;
      assert tmp[..i] == "" && Digits(num, base, small) + "" == Digits(num, base, small);
      assert Halfway(n, base, small, tmp[..i]) == Digits(num, base, small);
      hide Halfway, Divided;
      while n != 0
        invariant 0 <= i <= 36 && |Digits(num, base, small)| <= 32
        invariant Halfway(n, base, small, tmp[..i]) == Digits(num, base, small)
      {
        ghost var t := tmp[..i];
        var q, r := DoDiv(n, base);
        ScratchStep(n, base, small, t, q, r);
        tmp[i] := digits[r];
        i := i + 1;
        assert tmp[..i] == t + [digits[r]];
        n := q;
      }
      AllDigits(base, small, tmp[..i]);
    }
  }

  lemma AllDigits(base: nat, small: bool, t: string)
    requires 2 <= base <= 36
    ensures Halfway(0, base, small, t) == Backwards(t)
  {
    hide Digits;
    EmptyFirst(Backwards(t));
  }

  /** The buffer was pre, and has got w from str on. */
  ghost predicate Wrote(pre: seq<char>, now: seq<char>, str: nat, w: string) {
    str + |w| <= |pre| && now == pre[..str] + w + pre[str + |w|..]
  }

  lemma WroteMore(pre: seq<char>, mid: seq<char>, now: seq<char>, str: nat, w: string, x: string)
    requires Wrote(pre, mid, str, w) && Wrote(mid, now, str + |w|, x)
    ensures Wrote(pre, now, str, w + x)
  {
    var e := str + |w|;
    assert mid[..e] == pre[..str] + w;
    assert mid[e + |x|..] == pre[e + |x|..];
    assert pre[..str] + w + x == pre[..str] + (w + x);
  }

  /** `*str++ = c;` */
  method Emit(buf: array<char>, str: nat, c: char, ghost pre: seq<char>, ghost at: nat, ghost w: string)
    returns (end: nat)
    requires Wrote(pre, buf[..], at, w) && str == at + |w| < buf.Length
    modifies buf
    ensures end == str + 1 && Wrote(pre, buf[..], at, w + [c])
  {
    ghost var mid := buf[..];
    buf[str] := c;
    end := str + 1;
    assert Wrote(mid, buf[..], str, [c]);
    WroteMore(pre, mid, buf[..], at, w, [c]);
  }

  method Pad(buf: array<char>, str: nat, n: int, c: char, ghost pre: seq<char>, ghost at: nat, ghost w: string)
    returns (end: nat, rest: int)
    requires Wrote(pre, buf[..], at, w) && str == at + |w| && str + Max(n, 0) <= buf.Length
    modifies buf
    ensures end == str + Max(n, 0) && rest == (if n > 0 then -1 else n - 1)
    ensures Wrote(pre, buf[..], at, w + Repeat(c, n))
  {
    ghost var mid := buf[..];
    end, rest := Fill(buf, str, n, c);
    WroteMore(pre, mid, buf[..], at, w, Repeat(c, n));
  }

  /** The scratch buffer is copied from its end. */
  method CopyBack(buf: array<char>, str: nat, tmp: array<char>, i: nat, ghost pre: seq<char>, ghost at: nat,
                  ghost w: string)
    returns (end: nat)
    requires buf != tmp && i <= tmp.Length && Wrote(pre, buf[..], at, w) && str == at + |w| && str + i <= buf.Length
    modifies buf
    ensures end == str + i && Wrote(pre, buf[..], at, w + Backwards(tmp[..i]))
  {
    hide Wrote, Backwards;
    end := str;
    var k := i;
    ghost var d := "";
    assert w + d == w;
    assert tmp[..i] == tmp[..k] && d + Backwards(tmp[..k]) == Backwards(tmp[..i]);
    while k > 0
      invariant k <= i && end == str + (i - k) && |d| == i - k
      invariant d + Backwards(tmp[..k]) == Backwards(tmp[..i]) && Wrote(pre, buf[..], at, w + d)
    {
      k := k - 1;
      assert tmp[..k + 1] == tmp[..k] + [tmp[k]];
      BackwardsSnoc(tmp[..k], tmp[k]);
      assert d + ([tmp[k]] + Backwards(tmp[..k])) == (d + [tmp[k]]) + Backwards(tmp[..k]);
      assert w + d + [tmp[k]] == w + (d + [tmp[k]]);
      end := Emit(buf, end, tmp[k], pre, at, w + d);
      d := d + [tmp[k]];
    }
    BackwardsNone();
    assert tmp[..0] == "" && d + "" == d;
  }

  lemma WroteNothing(pre: seq<char>, str: nat)
    requires str <= |pre|
    ensures Wrote(pre, pre, str, "")
  {
    assert pre[..str] + "" + pre[str..] == pre;
  }

  /** The sign, unless it is NUL, and the prefix. */
  method EmitHead(buf: array<char>, str: nat, sign: char, num: nat, base: nat, f: Flags,
                  ghost pre: seq<char>, ghost at: nat, ghost w: string)
    returns (end: nat)
    requires num < TWO_32 && SignOf(num, f) == (if sign == '\0' then "" else [sign])
    requires Wrote(pre, buf[..], at, w) && str == at + |w| && str + |SignOf(num, f) + PrefixOf(base, f)| <= buf.Length
    modifies buf
    ensures end == str + |SignOf(num, f) + PrefixOf(base, f)|
    ensures Wrote(pre, buf[..], at, w + (SignOf(num, f) + PrefixOf(base, f)))
  {
    hide Wrote, SignOf;
    ghost var x := "";
    end := str;
    assert w + x == w;
    if sign != '\0' {
      end := Emit(buf, end, sign, pre, at, w + x);
      x := [sign];
    }
    ghost var y := x;
    if f.special {
      if base == 8 {
        end := Emit(buf, end, '0', pre, at, w + x);
        y := x + ['0'];
        assert w + x + ['0'] == w + y;
      } else if base == 16 {
        end := Emit(buf, end, '0', pre, at, w + x);
        assert w + x + ['0'] == w + (x + ['0']);
        var digits := DigitSet(f.small);
        end := Emit(buf, end, digits[33], pre, at, w + (x + ['0']));
        y := x + ['0'] + [digits[33]];
        assert w + (x + ['0']) + [digits[33]] == w + y;
        assert ['0'] + [digits[33]] == PrefixOf(base, f);
      }
    }
    assert y == x + PrefixOf(base, f);
  }

  /** The output, in the order of its parts. */
  method EmitAll(buf: array<char>, str: nat, num: nat, base: nat, sign: char, tmp: array<char>, i: nat, size0: int,
                 precision0: int, c: char, f: Flags, ghost pre: seq<char>, ghost size: int)
    returns (at: nat)
    requires num < TWO_32 && SignOf(num, f) == (if sign == '\0' then "" else [sign])
    requires buf != tmp && i <= tmp.Length && Wrote(pre, buf[..], str, "")
      && c == (if f.zeropad && !f.left then '0' else ' ')
    requires size0 == size - |SignOf(num, f) + PrefixOf(base, f)|
    requires var w := Layout(SignOf(num, f) + PrefixOf(base, f), Backwards(tmp[..i]), size, precision0, f.zeropad,
      f.left);
      str + |w| <= buf.Length
    modifies buf
    ensures var w := Layout(SignOf(num, f) + PrefixOf(base, f), Backwards(tmp[..i]), size, precision0, f.zeropad,
      f.left);
      at == str + |w| && Wrote(pre, buf[..], str, w)
  {
    hide Wrote, Layout, SignOf, PrefixOf, Backwards, Repeat;
    ghost var head, d := SignOf(num, f) + PrefixOf(base, f), Backwards(tmp[..i]);
    LayoutLength(head, d, size, precision0, f.zeropad, f.left);
    RepeatNone(' ', 0);
    var precision := if i > precision0 then i as int else precision0;
    var sz := size0 - precision;
    at := str;
    ghost var w := "";
    if !(f.zeropad || f.left) {
      w := "" + Repeat(' ', sz);
      at, sz := Pad(buf, at, sz, ' ', pre, str, "");
    }
    ghost var w0 := w;
    at := EmitHead(buf, at, sign, num, base, f, pre, str, w);
    w := w + head;
    ghost var pad := "";
    if !f.left {
      pad := Repeat(c, sz);
      ghost var v := w;
      w := w + pad;
      at, sz := Pad(buf, at, sz, c, pre, str, v);
    }
    assert w == w0 + head + pad;
    var rest: int;
    at, rest := Pad(buf, at, precision - i, '0', pre, str, w);
    at := CopyBack(buf, at, tmp, i, pre, str, w + Repeat('0', precision - i));
    ghost var last := Repeat(' ', sz);
    at, rest := Pad(buf, at, sz, ' ', pre, str, w + Repeat('0', precision - i) + d);
    LayoutIs(head, d, size, precision0, f.zeropad, f.left, w0, pad, Repeat('0', precision - i), last);
  }

  lemma LayoutIs(head: string, d: string, size: int, precision: int, zeropad: bool, left: bool,
                 first: string, pad: string, zeros: string, last: string)
    requires zeros == Repeat('0', precision - |d|)
    requires var n := size - |head| - Max(precision, |d|);
      && first == (if zeropad || left then "" else Repeat(' ', n))
      && pad == (if zeropad && !left then Repeat('0', n) else "")
      && last == (if left then Repeat(' ', n) else "")
    ensures first + head + pad + zeros + d + last == Layout(head, d, size, precision, zeropad, left)
  {
    hide Repeat;
    Joined(first + head + pad, zeros, d);
    if left {
      EmptyFirst(head);
      Empty(head);
    } else if zeropad {
      EmptyFirst(head);
      Empty(head + pad + (zeros + d));
    } else {
      Empty(first + head);
      Empty(first + head + (zeros + d));
    }
  }

  lemma Joined(a: string, b: string, c: string)
    ensures a + b + c == a + (b + c)
  {
  }

  lemma Empty(a: string)
    ensures a + "" == a
  {
  }

  lemma EmptyFirst(a: string)
    ensures "" + a == a
  {
  }

  lemma RepeatNone(c: char, n: int)
    requires n <= 0
    ensures Repeat(c, n) == ""
  {
  }

  /** The sign, NUL for none, the magnitude, and the room beside sign and prefix. */
  method Split(num: nat, base: nat, size: int, f: Flags) returns (sign: char, n: nat, room: int)
    requires num < TWO_32
    ensures n == Magnitude(num, f) && n < TWO_32
    ensures SignOf(num, f) == (if sign == '\0' then "" else [sign])
    ensures room == size - |SignOf(num, f) + PrefixOf(base, f)|
  {
    n, room := num, size;
    if f.sign && num >= TWO_31 {
      sign := '-';
      n := (TWO_32 - num) % TWO_32;
    } else {
      sign := if f.plus then '+' else if f.space then ' ' else '\0';
    }
    if sign != '\0' {
      room := room - 1;
    }
    if f.special {
      if base == 16 { room := room - 2; } else if base == 8 { room := room - 1; }
    }
  }

  /** number. */
  method Number(buf: array<char>, str: nat, num: nat, base: int, size: int, precision: int, f: Flags)
    returns (end: Option<nat>)
    requires num < TWO_32 && str <= buf.Length
    requires 2 <= base <= 36 ==> str + |Formatted(num, base, size, precision, f)| <= buf.Length
    modifies buf
    ensures !(2 <= base <= 36) ==> end == None && buf[..] == old(buf[..])
    ensures 2 <= base <= 36 ==> var w := Formatted(num, base, size, precision, f);
      end == Some(str + |w|) && buf[..] == old(buf[..str]) + w + old(buf[str + |w|..])
  {
    hide Wrote, Layout, Digits, Magnitude, SignOf, PrefixOf, Backwards;
    if base < 2 || base > 36 {
      return None;
    }
    var c := if f.zeropad && !f.left then '0' else ' ';
    var sign, n, room := Split(num, base, size, f);
    var tmp, i := Scratch(n, base, f.small);
    ghost var pre := buf[..];
    WroteNothing(pre, str);
    var at := EmitAll(buf, str, num, base, sign, tmp, i, room, precision, c, f, pre, size);
    end := Some(at);
    WroteIs(pre, buf[..], str, Formatted(num, base, size, precision, f));
  }

  lemma WroteIs(pre: seq<char>, now: seq<char>, str: nat, w: string)
    requires Wrote(pre, now, str, w)
    ensures str + |w| <= |pre| && now == pre[..str] + w + pre[str + |w|..]
  {
  }

  // ---- what the output means ----------------------------------------------------------------

  /** The number that a word of 32 bits stands for, taken with its sign. */
  function Signed(w: nat): int
    requires w < TWO_32
  {
    if w >= TWO_31 then w - TWO_32 else w
  }

  /** With the sign flag, sign and digits evaluate to the signed number, also for
      the most negative one, whose negation wraps around; without it, the digits
      evaluate to the unsigned one. */
  lemma Meaning(num: nat, base: nat, f: Flags)
    requires num < TWO_32 && 2 <= base <= 36
    ensures var v: int := Value(Digits(Magnitude(num, f), base, f.small), base);
      if f.sign then Signed(num) == (if SignOf(num, f) == "-" then -v else v) else v == num
  {
    DigitsValue(Magnitude(num, f), base, f.small);
    hide Digits, Value;
  }

  // ---- skip_atoi -----------------------------------------------------------------------------------

  predicate IsDigit(c: char) { '0' <= c <= '9' }

  /** What an int of 32 bits keeps of x. */
  function Wrap(x: int): int { Signed(x % TWO_32) }

  /** The digits of s from pos on end at end. */
  ghost predicate DigitRun(s: string, pos: nat, end: nat) {
    && pos <= end <= |s| && (forall k :: pos <= k < end ==> IsDigit(s[k])) && (end < |s| ==> !IsDigit(s[end]))
  }

  lemma WrapStep(v: nat, d: int)
    ensures Wrap(Wrap(v) * 10 + d) == Wrap(v * 10 + d)
  {
    var q := v / TWO_32;
    var x, y := Wrap(v) * 10 + d, v * 10 + d;
    var k := if v % TWO_32 >= TWO_31 then q + 1 else q;
    assert v == TWO_32 * q + v % TWO_32;
    assert y == x + TWO_32 * (10 * k);
    ModShift(x, 10 * k);
  }

  lemma ModShift(x: int, m: int)
    ensures (x + TWO_32 * m) % TWO_32 == x % TWO_32
  {
    var q, r := x / TWO_32, x % TWO_32;
    assert x + TWO_32 * m == TWO_32 * (q + m) + r;
  }

  lemma RunStep(s: string, pos: nat, end: nat)
    requires pos <= end < |s| && IsDigit(s[end])
    ensures Wrap(Wrap(Value(s[pos..end], 10)) * 10 + (s[end] as int - 48)) == Wrap(Value(s[pos..end + 1], 10))
  {
    hide Value, Wrap;
    var t := s[pos..end];
    assert s[pos..end + 1] == t + [s[end]];
    ValueSnoc(t, s[end], 10);
    WrapStep(Value(t, 10), s[end] as int - 48);
  }

  lemma RunStart(s: string, pos: nat)
    requires pos <= |s|
    ensures Wrap(Value(s[pos..pos], 10)) == 0
  {
  }

  /** skip_atoi on a string that NUL ends. */
  method SkipAtoi(s: string, pos: nat) returns (i: int, end: nat)
    requires pos <= |s|
    ensures DigitRun(s, pos, end) && i == Wrap(Value(s[pos..end], 10))
  {
    hide Value, Wrap;
    i, end := 0, pos;
    RunStart(s, pos);
    while end < |s| && IsDigit(s[end])
      invariant pos <= end <= |s| && (forall k :: pos <= k < end ==> IsDigit(s[k]))
      invariant i == Wrap(Value(s[pos..end], 10))
    {
      RunStep(s, pos, end);
      i := Wrap(i * 10 + (s[end] as int - 48));
      end := end + 1;
    }
  }

  lemma {:induction false} DecimalDigits(m: nat, small: bool)
    ensures forall c :: c in Digits(m, 10, small) ==> IsDigit(c)
    decreases m
  {
    WorthOf(m % 10, small);
    if m >= 10 { DecimalDigits(m / 10, small); }
    hide DigitSet;
  }

  /** skip_atoi inverts unpadded decimal output: it stops right after it, and
      finds the signed reading of the word, which is the number exactly up to
      2^31 - 1. */
  lemma ReadsBack(num: nat, size: int, precision: int, f: Flags, after: string, end: nat)
    requires num < TWO_32 && size <= 1 && precision <= 1 && !f.sign && !f.plus && !f.space
    requires after == "" || !IsDigit(after[0])
    requires DigitRun(Formatted(num, 10, size, precision, f) + after, 0, end)
    ensures end == |Formatted(num, 10, size, precision, f)|
    ensures var i := Wrap(Value((Formatted(num, 10, size, precision, f) + after)[..end], 10));
      i == Signed(num) && (i == num <==> num < TWO_31)
  {
    hide Digits, Value, Formatted;
    var d := Digits(num, 10, f.small);
    Plain(num, size, precision, f);
    DigitsValue(num, 10, f.small);
    DecimalDigits(num, f.small);
    RunIs(d, after, end);
    Small(num);
    hide Wrap;
  }

  lemma Small(num: nat)
    requires num < TWO_32
    ensures Wrap(num) == Signed(num) && (Wrap(num) == num <==> num < TWO_31)
  {
  }

  lemma RunIs(d: string, after: string, end: nat)
    requires (forall c :: c in d ==> IsDigit(c)) && (after == "" || !IsDigit(after[0])) && DigitRun(d + after, 0, end)
    ensures end == |d| && (d + after)[..end] == d
  {
    var s := d + after;
    forall k | 0 <= k < |d| ensures IsDigit(s[k]) { assert s[k] == d[k] && d[k] in d; }
    assert after != "" ==> s[|d|] == after[0];
  }

  lemma Plain(num: nat, size: int, precision: int, f: Flags)
    requires num < TWO_32 && size <= 1 && precision <= 1 && !f.sign && !f.plus && !f.space
    ensures Formatted(num, 10, size, precision, f) == Digits(num, 10, f.small)
  {
    var d := Digits(num, 10, f.small);
    DigitsFit(num, 10, f.small);
    hide Digits, Repeat;
    RepeatNone(' ', 0);
    LayoutIs("", d, size, precision, f.zeropad, f.left, "", "", "",
      "") by { Blank(size - Max(precision, |d|), precision - |d|); }
    assert "" + "" + "" + "" + d + "" == d;
  }

  lemma Blank(n: int, k: int)
    requires n <= 0 && k <= 0
    ensures Repeat(' ', n) == Repeat('0', n) == Repeat('0', k) == ""
  {
  }
}

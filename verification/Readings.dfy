/** A reader of printed numbers, which knows nothing of how they are printed. */
module Readings {
  import opened Printf

  /** Blanks, a sign (' ' for none), the letter of a prefix "0x" or "0X" (' ' for
      none), the digits, and what comes after them. */
  datatype Reading = Reading(lead: nat, sign: char, hex: char, digits: string, rest: string)

  function Blanks(w: string): (n: nat)
    ensures n <= |w|
  {
    if w != "" && w[0] == ' ' then 1 + Blanks(w[1..]) else 0
  }

  function DigitsAhead(w: string, base: nat): (n: nat)
    ensures n <= |w|
  {
    if w != "" && Worth(w[0]) < base then 1 + DigitsAhead(w[1..], base) else 0
  }

  function SignAhead(w: string): char {
    if w != "" && (w[0] == '+' || w[0] == '-') then w[0] else ' '
  }

  function AfterSign(w: string): string {
    if SignAhead(w) != ' ' then w[1..] else w
  }

  predicate HexAhead(w: string, base: nat) {
    base == 16 && |w| >= 2 && w[0] == '0' && (w[1] == 'x' || w[1] == 'X')
  }

  function Read(w: string, base: nat): Reading {
    var a := w[Blanks(w)..];
    var b := AfterSign(a);
    var c := if HexAhead(b, base) then b[2..] else b;
    var n := DigitsAhead(c, base);
    Reading(Blanks(w), SignAhead(a), if HexAhead(b, base) then b[1] else ' ', c[..n], c[n..])
  }

  // ---- reading what is put together ----------------------------------------------------

  lemma {:induction false} BlanksOf(l: nat, w: string)
    requires w != "" && w[0] != ' '
    ensures Blanks(Repeat(' ', l) + w) == l && (Repeat(' ', l) + w)[l..] == w
    decreases l
  {
    var s := Repeat(' ', l) + w;
    if l == 0 {
      assert s == w;
    } else {
      BlanksOf(l - 1, w);
      assert s == [' '] + (Repeat(' ', l - 1) + w);
      assert s[1..] == Repeat(' ', l - 1) + w;
    }
  }

  /** t is empty or starts with a blank. */
  predicate BlankNext(t: string) {
    t != "" ==> t[0] == ' '
  }

  lemma {:induction false} DigitsOf(d: string, t: string, base: nat)
    requires base <= 36 && DigitsOfBase(d, base) && BlankNext(t)
    ensures DigitsAhead(d + t, base) == |d| && (d + t)[..|d|] == d && (d + t)[|d|..] == t
  {
    if d == "" {
      assert d + t == t;
    } else {
      assert d[0] in d && (d + t)[1..] == d[1..] + t;
      DigitsOf(d[1..], t, base);
    }
  }

  /** A sign, if any, a prefix, if any, digits and blanks. */
  lemma ReadTail(sg: string, pre: string, d: string, t: string, base: nat)
    requires 2 <= base <= 36 && sg in ["", "+", "-"] && d != "" && DigitsOfBase(d, base) && BlankNext(t)
    requires pre in ["", "0x", "0X"] && (pre != "" ==> base == 16)
    ensures var w := sg + pre + d + t; var b := AfterSign(w);
      && w != "" && w[0] != ' ' && SignAhead(w) == (if sg == "" then ' ' else sg[0])
      && b == pre + d + t && (HexAhead(b, base) <==> pre != "") && (pre != "" ==> b[1] == pre[1] && b[2..] == d + t)
  {
    var w, u := sg + pre + d + t, pre + d + t;
    assert d[0] in d;
    assert |d| > 1 ==> d[1] in d;
    assert pre == "" ==> u == d + t;
    assert pre != "" ==> u[0] == '0' && u[1] == pre[1] && u[2..] == d + t;
    assert sg == "" ==> w == u;
    assert sg != "" ==> w[0] == sg[0] && w[1..] == u;
  }

  lemma ReadParts(l: nat, sg: string, pre: string, d: string, t: string, base: nat)
    requires 2 <= base <= 36 && sg in ["", "+", "-"] && d != "" && DigitsOfBase(d, base) && BlankNext(t)
    requires pre in ["", "0x", "0X"] && (pre != "" ==> base == 16)
    ensures Read(Repeat(' ', l) + (sg + pre + d + t), base) ==
      Reading(l, if sg == "" then ' ' else sg[0], if pre == "" then ' ' else pre[1], d, t)
  {
    hide AfterSign, SignAhead, HexAhead, DigitsOfBase, BlankNext, Blanks, DigitsAhead, Repeat;
    ReadTail(sg, pre, d, t, base);
    BlanksOf(l, sg + pre + d + t);
    DigitsOf(d, t, base);
    assert pre == "" ==> pre + d + t == d + t;
  }

  // ---- leading zeros ------------------------------------------------------------------

  predicate OnlyZeros(z: string) {
    forall c :: c in z ==> c == '0'
  }

  lemma {:induction false} ZerosAre(k: int)
    ensures OnlyZeros(Repeat('0', k))
    decreases k
  {
    if k > 0 { ZerosAre(k - 1); }
  }

  lemma {:induction false} ValueOfZeros(z: string, base: nat)
    requires OnlyZeros(z)
    ensures Value(z, base) == 0
  {
    if z != "" {
      assert z[|z| - 1] in z;
      var t := z[..|z| - 1];
      forall c | c in t
        ensures c == '0'
      {
        assert c in z;
      }
      ValueOfZeros(t, base);
    }
  }

  lemma {:induction false} ValueAfterZeros(z: string, s: string, base: nat)
    requires OnlyZeros(z)
    ensures Value(z + s, base) == Value(s, base)
    decreases |s|
  {
    if s == "" {
      ValueOfZeros(z, base);
      assert z + s == z;
    } else {
      var n := |s| - 1;
      ValueAfterZeros(z, s[..n], base);
      ValueSnoc(z + s[..n], s[n], base);
      assert z + s[..n] + [s[n]] == z + s;
    }
  }

  // ---- letters ------------------------------------------------------------------------------

  predicate Fitting(c: char, small: bool) {
    if small then !('A' <= c <= 'Z') else !('a' <= c <= 'z')
  }

  lemma CapitalFits(d: nat)
    requires d < 36
    ensures Fitting(CAPITALS[d], false)
  {
  }

  lemma SmallFits(d: nat)
    requires d < 36
    ensures Fitting(SMALLS[d], true)
  {
  }

  lemma ZeroFits(small: bool)
    ensures Fitting('0', small)
  {
  }

  lemma {:induction false} DigitsFitting(m: nat, base: nat, small: bool)
    requires 2 <= base <= 36
    ensures forall c :: c in Digits(m, base, small) ==> Fitting(c, small)
    decreases m
  {
    DigitsStep(m, base, small);
    if small { SmallFits(m % base); } else { CapitalFits(m % base); }
    hide Digits, Fitting;
    if m >= base {
      Smaller(m, base);
      DigitsFitting(m / base, base, small);
    }
  }

  // ---- reading what number prints ----------------------------------------------------------

  /** The number that is printed: with its sign if the sign flag is set. */
  function Shown(num: nat, f: Flags): int
    requires num < TWO_32
  {
    if f.sign then Signed(num) else num
  }

  function Abs(v: int): nat { if v < 0 then -v else v }

  function Opposite(minus: bool, v: int): int { if minus then -v else v }

  /** What a sign, a prefix and as many digits as are asked for leave of the size. */
  function Room(v: int, n: nat, base: nat, size: int, precision: int, f: Flags): nat {
    Max(0, size - (if v < 0 || f.plus || f.space then 1 else 0)
                - (if f.special && base == 16 then 2 else if f.special && base == 8 then 1 else 0) - Max(precision, n))
  }

  /** The parts of the output: zeros in front of the digits fill it up to the
      precision, and to the size if they are asked for. */
  function Zeros(v: int, n: nat, base: nat, size: int, precision: int, f: Flags): string {
    (if f.special && base == 8 then "0" else "") +
    (if f.zeropad && !f.left then Repeat('0', Room(v, n, base, size, precision, f)) else "") +
    Repeat('0', precision - n)
  }

  function SignPart(v: int, f: Flags): string {
    if v < 0 then "-" else if f.plus then "+" else ""
  }

  function HexPart(base: nat, f: Flags): string {
    if f.special && base == 16 then (if f.small then "0x" else "0X") else ""
  }

  function Before(v: int, n: nat, base: nat, size: int, precision: int, f: Flags): nat {
    (if v >= 0 && !f.plus && f.space then 1 else 0) +
    (if f.left || f.zeropad then 0 else Room(v, n, base, size, precision, f))
  }

  function Behind(v: int, n: nat, base: nat, size: int, precision: int, f: Flags): string {
    if f.left then Repeat(' ', Room(v, n, base, size, precision, f)) else ""
  }

  lemma {:induction false} OneMoreBlank(n: nat)
    ensures Repeat(' ', n) + " " == Repeat(' ', n + 1)
  {
    if n > 0 {
      OneMoreBlank(n - 1);
      assert Repeat(' ', n) + " " == [' '] + (Repeat(' ', n - 1) + " ");
    } else {
      assert Repeat(' ', 1) == [' '] + Repeat(' ', 0);
    }
  }

  /** The sign of the output: a blank for the space flag. */
  lemma SignIs(num: nat, f: Flags)
    requires num < TWO_32
    ensures var v := Shown(num, f);
      && Abs(v) == Magnitude(num, f)
      && SignOf(num, f) == (if v >= 0 && !f.plus && f.space then " " else SignPart(v, f))
  {
  }

  lemma NoNegative(c: char, n: int)
    ensures Repeat(c, n) == Repeat(c, Max(0, n))
  {
  }

  lemma Flatten(a: string, b: string, c: string, d: string, e: string, f: string, g: string, h: string)
    ensures a + (b + c + ((d + e + f) + g) + h) == a + b + c + d + e + f + g + h
  {
    Joined(b + c, d + e + f, g);
    Joined(b + c, d + e, f);
    Joined(b + c, d, e);
    Joined(a, b + c + d + e + f + g, h);
    Joined(a, b + c + d + e + f, g);
    Joined(a, b + c + d + e, f);
    Joined(a, b + c + d, e);
    Joined(a, b + c, d);
    Joined(a, b, c);
  }

  /** The blanks before the output, and a sign that is no blank. */
  lemma BlankSign(v: int, n: nat, base: nat, size: int, precision: int, f: Flags, sgn: string)
    requires sgn == if v >= 0 && !f.plus && f.space then " " else SignPart(v, f)
    ensures var first := if f.left || f.zeropad then "" else Repeat(' ', Room(v, n, base, size, precision, f));
      first + sgn == Repeat(' ', Before(v, n, base, size, precision, f)) + SignPart(v, f)
  {
    var room := Room(v, n, base, size, precision, f);
    hide Room;
    OneMoreBlank(room);
    OneMoreBlank(0);
    RepeatNone(' ', 0);
    hide Repeat;
    Empty(Repeat(' ', room + 1));
    Empty(" ");
    EmptyFirst(" ");
    EmptyFirst(sgn);
  }

  lemma HeadRoom(v: int, n: nat, base: nat, size: int, precision: int, f: Flags, sgn: string)
    requires sgn == if v >= 0 && !f.plus && f.space then " " else SignPart(v, f)
    ensures Room(v, n, base, size, precision, f) == Max(0, size - |sgn + PrefixOf(base, f)| - Max(precision, n))
    ensures PrefixOf(base, f) == HexPart(base, f) + (if f.special && base == 8 then "0" else "")
  {
  }

  lemma Assemble(first: string, sgn: string, blanks: string, sg: string, prefix: string, hex: string, oct: string,
                 pad: string, zeros: string, d: string, last: string)
    requires first + sgn == blanks + sg && prefix == hex + oct
    ensures first + (sgn + prefix) + pad + zeros + d + last ==
      blanks + (sg + hex + ((oct + pad + zeros) + d) + last)
  {
    Joined(first, sgn, prefix);
    Joined(first + sgn, hex, oct);
    Flatten(blanks, sg, hex, oct, pad, zeros, d, last);
  }

  lemma Parts(num: nat, base: nat, size: int, precision: int, f: Flags)
    requires num < TWO_32 && 2 <= base <= 36
    ensures var v := Shown(num, f); var D := Digits(Abs(v), base, f.small); var n := |D|;
      Formatted(num, base, size, precision, f) ==
        Repeat(' ', Before(v, n, base, size, precision, f)) +
        (SignPart(v, f) + HexPart(base, f) + (Zeros(v, n, base, size, precision, f) + D) +
         Behind(v, n, base, size, precision, f))
  {
    hide Digits, Shown, Abs, Magnitude, Repeat, Layout, SignOf, SignPart, PrefixOf, HexPart, Room, Max, Before;
    SignIs(num, f);
    var v := Shown(num, f);
    var D := Digits(Abs(v), base, f.small);
    var sgn, sg, hex, n := SignOf(num, f), SignPart(v, f), HexPart(base, f), |D|;
    HeadRoom(v, n, base, size, precision, f, sgn);
    BlankSign(v, n, base, size, precision, f, sgn);
    var head, room := sgn + PrefixOf(base, f), Room(v, n, base, size, precision, f);
    NoNegative(' ', size - |head| - Max(precision, n));
    NoNegative('0', size - |head| - Max(precision, n));
    var first := if f.left || f.zeropad then "" else Repeat(' ', room);
    var pad, last := if f.zeropad && !f.left then Repeat('0', room) else "", if f.left then Repeat(' ', room) else "";
    var oct, zeros := if f.special && base == 8 then "0" else "", Repeat('0', precision - n);
    LayoutIs(head, D, size, precision, f.zeropad, f.left, first, pad, zeros, last);
    Assemble(first, sgn, Repeat(' ', Before(v, n, base, size, precision, f)), sg, PrefixOf(base, f), hex, oct, pad,
             zeros, D, last);
  }

  lemma ZerosJoin(v: int, n: nat, base: nat, size: int, precision: int, f: Flags)
    ensures OnlyZeros(Zeros(v, n, base, size, precision, f))
    ensures |Zeros(v, n, base, size, precision, f)| ==
      (if f.special && base == 8 then 1 else 0) + Max(0, precision - n) +
      (if f.zeropad && !f.left then Room(v, n, base, size, precision, f) else 0)
    ensures f.special && base == 8 ==> Zeros(v, n, base, size, precision, f)[0] == '0'
  {
    ZerosAre(Room(v, n, base, size, precision, f));
    ZerosAre(precision - n);
    hide Room, Repeat;
  }

  /** Whatever number prints is read back: the number with the sign asked for,
      which sign and which prefix there were, the case of the letters, and how it was
      padded.  A blank for
      a sign is one blank more in front. */
  lemma ReadsNumber(num: nat, base: nat, size: int, precision: int, f: Flags)
    requires num < TWO_32 && 2 <= base <= 36
    ensures var v, r := Shown(num, f), Read(Formatted(num, base, size, precision, f), base);
      var n := |Digits(Abs(v), base, f.small)|; var room := Room(v, n, base, size, precision, f);
      && Opposite(r.sign == '-', Value(r.digits, base)) == v
      && r.sign == (if v < 0 then '-' else if f.plus then '+' else ' ')
      && r.hex == (if !f.special || base != 16 then ' ' else if f.small then 'x' else 'X')
      && (f.special && base == 8 ==> r.digits != "" && r.digits[0] == '0')
      && (forall c :: c in r.digits ==> Fitting(c, f.small))
      && r.lead == (if v >= 0 && !f.plus && f.space then 1 else 0) + (if f.left || f.zeropad then 0 else room)
      && |r.digits| == Max(precision, n) + (if f.special && base == 8 then 1 else 0)
                       + (if f.zeropad && !f.left then room else 0)
      && r.rest == Repeat(' ', if f.left then room else 0)
  {
    hide Digits, Shown, Abs, Formatted, Read, Repeat, Room, Zeros, Value, Fitting;
    ZeroFits(f.small);
    var v := Shown(num, f);
    var D := Digits(Abs(v), base, f.small);
    var n := |D|;
    var z := Zeros(v, n, base, size, precision, f);
    SignIs(num, f);
    DigitsFit(Abs(v), base, f.small);
    DigitsValue(Abs(v), base, f.small);
    Parts(num, base, size, precision, f);
    ZerosJoin(v, n, base, size, precision, f);
    ValueAfterZeros(z, D, base);
    DigitsFitting(Abs(v), base, f.small);
    RepeatNone(' ', 0);
    BlanksBehind(v, n, base, size, precision, f);
    assert DigitsOfBase(z + D, base);
    ReadParts(Before(v, n, base, size, precision, f), SignPart(v, f), HexPart(base, f), z + D,
              Behind(v, n, base, size, precision, f), base);
    AbsIs(v);
  }

  lemma AbsIs(v: int)
    ensures v == Opposite(v < 0, Abs(v))
  {
  }

  lemma BlanksBehind(v: int, n: nat, base: nat, size: int, precision: int, f: Flags)
    ensures BlankNext(Behind(v, n, base, size, precision, f))
  {
    hide Room;
  }
}

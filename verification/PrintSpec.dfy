/** Numbers and formats of lib/printk.c: what %d and %x print, how it reads back, and what the
    format scan makes of a whole control string. */
module PrintSpec {

  const TWO_31 := 0x8000_0000
  const TWO_32 := 0x1_0000_0000

  type U32 = x: int | 0 <= x < TWO_32

  // ---- numerals

  /** '0' + d, or a letter from 'a' on. */
  function Digit(d: int): char
    requires 0 <= d < 16
  {
    if d < 10 then '0' + d as char else 'a' + (d - 10) as char
  }

  function DigitValue(c: char): int {
    if '0' <= c <= '9' then c as int - '0' as int
    else if 'a' <= c <= 'f' then c as int - 'a' as int + 10
    else -1
  }

  lemma DigitRoundTrip(d: int)
    requires 0 <= d < 16
    ensures DigitValue(Digit(d)) == d && (d > 0 ==> Digit(d) != '0') && Digit(d) != '-'
  {
  }

  /** x / base and x % base, for the two bases. */
  function Quot(x: nat, base: int): nat { if base == 10 then x / 10 else x / 16 }

  function Rem(x: nat, base: int): nat { if base == 10 then x % 10 else x % 16 }

  /** The digits of a positive number, most significant first; none for zero. */
  function Digits(x: nat, base: int): seq<char>
    requires base == 10 || base == 16
  {
    if x == 0 then [] else Digits(Quot(x, base), base) + [Digit(Rem(x, base))]
  }

  function Numeral(x: nat, base: int): seq<char>
    requires base == 10 || base == 16
  {
    if x == 0 then ['0'] else Digits(x, base)
  }

  /** The value of the 32 bits as an int. */
  function Signed(x: U32): int { if x < TWO_31 then x else x - TWO_32 }

  /** What %d prints. */
  function Decimal(x: U32): seq<char> {
    if Signed(x) < 0 then ['-'] + Numeral(-Signed(x), 10) else Numeral(Signed(x), 10)
  }

  /** What %x prints. */
  function Hex(x: U32): seq<char> { Numeral(x, 16) }

  // ---- reading back

  function Value(s: seq<char>, base: int): int {
    if s == [] then 0 else base * Value(s[..|s| - 1], base) + DigitValue(s[|s| - 1])
  }

  function ReadDecimal(s: seq<char>): int {
    if s != [] && s[0] == '-' then -Value(s[1..], 10) else Value(s, 10)
  }

  /** Digits of the base only, and a leading zero in the numeral of zero alone. */
  predicate Canonical(s: seq<char>, base: int) {
    s != [] && (forall i :: 0 <= i < |s| ==> 0 <= DigitValue(s[i]) < base) && (s[0] == '0' ==> |s| == 1)
  }

  lemma QuotRem(x: nat, base: int)
    requires base == 10 || base == 16
    ensures base * Quot(x, base) + Rem(x, base) == x && Rem(x, base) < base
    ensures x > 0 ==> Quot(x, base) < x
  {
  }

  lemma {:induction false} DigitsRead(x: nat, base: int)
    requires base == 10 || base == 16
    decreases x
    ensures Value(Digits(x, base), base) == x
    ensures forall i :: 0 <= i < |Digits(x, base)| ==> 0 <= DigitValue(Digits(x, base)[i]) < base
    ensures x > 0 ==> Digits(x, base) != [] && Digits(x, base)[0] != '0' && Digits(x, base)[0] != '-'
  {
    hide Digit, DigitValue, Quot, Rem;
    if x > 0 {
      QuotRem(x, base);
      DigitsRead(Quot(x, base), base);
      DigitRoundTrip(Rem(x, base));
      var s := Digits(x, base);
      assert s[..|s| - 1] == Digits(Quot(x, base), base);
    }
  }

  lemma NumeralReads(x: nat, base: int)
    requires base == 10 || base == 16
    ensures Value(Numeral(x, base), base) == x && Canonical(Numeral(x, base), base) && Numeral(x, base)[0] != '-'
  {
    hide Digits;
    DigitsRead(x, base);
    if x == 0 {
      assert Numeral(x, base)[..0] == [];
    }
  }

  /** %x: a canonical hexadecimal numeral that reads back as the value. */
  lemma HexReads(x: U32)
    ensures Canonical(Hex(x), 16) && Value(Hex(x), 16) == x
  {
    NumeralReads(x, 16);
  }

  /** %d: a canonical numeral, behind a minus sign for the negative values, the least of them
      included, that reads back as the value. */
  lemma DecimalReads(x: U32)
    ensures ReadDecimal(Decimal(x)) == Signed(x)
    ensures Signed(x) >= 0 ==> Canonical(Decimal(x), 10)
    ensures Signed(x) < 0 ==> |Decimal(x)| > 1 && Decimal(x)[0] == '-' && Canonical(Decimal(x)[1..], 10) && Decimal(x)[1] != '0'
  {
    hide Digits, Canonical, Value;
    var v := Signed(x);
    if v < 0 {
      NumeralReads(-v, 10);
      DigitsRead(-v, 10);
      assert Decimal(x)[1..] == Numeral(-v, 10);
      assert Decimal(x)[1] == Numeral(-v, 10)[0];
    } else {
      NumeralReads(v, 10);
    }
  }

  /** Different values print differently. */
  lemma DecimalInjective(x: U32, y: U32)
    requires Decimal(x) == Decimal(y)
    ensures x == y
  {
    hide Decimal, ReadDecimal;
    DecimalReads(x);
    DecimalReads(y);
  }

  function Pow(base: int, n: nat): int { if n == 0 then 1 else base * Pow(base, n - 1) }

  /** A number below the n-th power has at most n digits. */
  lemma {:induction false} DigitsFew(x: nat, base: int, n: nat)
    requires (base == 10 || base == 16) && x < Pow(base, n)
    decreases n
    ensures |Digits(x, base)| <= n
  {
    if x > 0 && n > 0 {
      DigitsFew(Quot(x, base), base, n - 1);
    }
  }

  /** The literal that stands for the least integer in the source. */
  lemma LeastInteger()
    ensures Decimal(0x8000_0000) == "-2147483648"
  {
    hide Digits;
    NoDigits(10);
    OneMore(0, 2);
    OneMore(2, 1);
    OneMore(21, 4);
    OneMore(214, 7);
    OneMore(2147, 4);
    OneMore(21474, 8);
    OneMore(214748, 3);
    OneMore(2147483, 6);
    OneMore(21474836, 4);
    OneMore(214748364, 8);
    assert Digits(2147483648, 10) == "2147483648";
  }

  lemma NoDigits(base: int)
    requires base == 10 || base == 16
    ensures Digits(0, base) == []
  {
  }

  lemma OneMore(q: nat, r: nat)
    requires r < 10 && 0 < 10 * q + r
    ensures Digits(10 * q + r, 10) == Digits(q, 10) + [Digit(r)]
  {
    assert Quot(10 * q + r, 10) == q && Rem(10 * q + r, 10) == r;
  }

  // ---- the format scan

  datatype Arg = Num(x: U32) | Str(text: seq<char>)

  /** What the conversion character prints for the next argument. */
  function Piece(c: char, arg: Arg): seq<char> {
    match arg
    case Str(text) => if c == 's' then text else []
    case Num(x) => if c == 'x' then Hex(x) else if c == 'd' then Decimal(x) else if c == 'c' then [(x % 256) as char] else []
  }

  /** The characters after a percent sign that take an argument. */
  predicate Conversion(c: char) { c == 's' || c == 'x' || c == 'd' || c == 'c' }

  /** The rest of the control string, after a percent sign or not; what is missing prints
      nothing. */
  function Render(ctl: seq<char>, read: bool, args: seq<Arg>): seq<char> {
    if ctl == [] then []
    else if ctl[0] == '%' then Render(ctl[1..], true, args)
    else if !read then [ctl[0]] + Render(ctl[1..], false, args)
    else if Conversion(ctl[0]) && args != [] then Piece(ctl[0], args[0]) + Render(ctl[1..], false, args[1..])
    else Render(ctl[1..], false, args)
  }

  /** There is an argument of the right kind for each conversion. */
  predicate Fits(ctl: seq<char>, read: bool, args: seq<Arg>) {
    if ctl == [] then true
    else if ctl[0] == '%' then Fits(ctl[1..], true, args)
    else if read && Conversion(ctl[0]) then args != [] && (ctl[0] == 's' <==> args[0].Str?) && Fits(ctl[1..], false, args[1..])
    else Fits(ctl[1..], false, args)
  }

  /** The scan stands after a percent sign when the string ends. */
  predicate Pending(ctl: seq<char>, read: bool) {
    if ctl == [] then read else Pending(ctl[1..], ctl[0] == '%')
  }

  /** The number of arguments the string takes. */
  function Takes(ctl: seq<char>, read: bool): nat {
    if ctl == [] then 0
    else (if ctl[0] != '%' && read && Conversion(ctl[0]) then 1 else 0) + Takes(ctl[1..], ctl[0] == '%')
  }

  /** Text without percent signs is printed as it is. */
  lemma {:induction false} PlainText(ctl: seq<char>, args: seq<Arg>)
    requires '%' !in ctl
    ensures Render(ctl, false, args) == ctl
  {
    if ctl != [] {
      PlainText(ctl[1..], args);
    }
  }

  /** Printing is compositional: the second part of a control string is printed with the
      arguments that the first part leaves, wherever the string is cut. */
  lemma {:induction false} RenderSplit(a: seq<char>, b: seq<char>, read: bool, args: seq<Arg>)
    requires Fits(a, read, args)
    ensures Takes(a, read) <= |args|
    ensures Render(a + b, read, args) == Render(a, read, args) + Render(b, Pending(a, read), args[Takes(a, read)..])
  {
    hide Piece;
    if a == [] {
      assert a + b == b;
    } else {
      assert (a + b)[1..] == a[1..] + b;
      if a[0] != '%' && read && Conversion(a[0]) {
        RenderSplit(a[1..], b, false, args[1..]);
        assert args[1..][Takes(a[1..], false)..] == args[Takes(a, read)..];
      } else {
        RenderSplit(a[1..], b, a[0] == '%', args);
      }
    }
  }

  // ---- what each conversion prints

  /** One conversion, with its argument. */
  lemma OneConversion(c: char, arg: Arg)
    requires Conversion(c)
    ensures Render(['%', c], false, [arg]) == Piece(c, arg)
  {
    assert ['%', c][1..] == [c] && [c][1..] == [] && [arg][1..] == [];
    assert Render([c], true, [arg]) == Piece(c, arg) + Render([], false, []);
  }

  /** %d prints the argument as a signed number: a canonical decimal numeral that reads back. */
  lemma PrintsDecimal(x: U32)
    ensures var p := Render("%d", false, [Num(x)]);
            ReadDecimal(p) == Signed(x) && (if Signed(x) < 0 then |p| > 1 && p[0] == '-' && Canonical(p[1..], 10) else Canonical(p, 10))
  {
    hide Decimal, Render, ReadDecimal, Canonical;
    OneConversion('d', Num(x));
    DecimalReads(x);
  }

  /** %x prints the argument unsigned: a canonical hexadecimal numeral that reads back. */
  lemma PrintsHex(x: U32)
    ensures var p := Render("%x", false, [Num(x)]); Value(p, 16) == x && Canonical(p, 16)
  {
    hide Hex, Render, Value, Canonical;
    OneConversion('x', Num(x));
    HexReads(x);
  }

  /** %s prints the text, %c the one character of the low byte. */
  lemma PrintsText(text: seq<char>, x: U32)
    ensures Render("%s", false, [Str(text)]) == text
    ensures Render("%c", false, [Num(x)]) == [(x % 256) as char]
  {
    hide Render;
    OneConversion('s', Str(text));
    OneConversion('c', Num(x));
  }

  /** Any other character after a percent sign is dropped and takes no argument; a percent sign
      after a percent sign only repeats it. */
  lemma PrintsUnknown(c: char, rest: seq<char>, args: seq<Arg>)
    requires c !in ['s', 'x', 'd', 'c']
    ensures Render(['%', c] + rest, false, args) == Render(rest, c == '%', args)
  {
    assert (['%', c] + rest)[1..] == [c] + rest && ([c] + rest)[1..] == rest;
  }

  /** In a longer string: the text before a conversion stands as it is, what follows is printed
      with the arguments behind the first. */
  lemma PrintsWithin(pre: seq<char>, c: char, post: seq<char>, arg: Arg, args: seq<Arg>)
    requires '%' !in pre && Conversion(c) && (c == 's' <==> arg.Str?)
    ensures Render(pre + (['%', c] + post), false, [arg] + args)
         == pre + (Render(['%', c], false, [arg]) + Render(post, false, args))
  {
    hide Piece, Render;
    PlainFits(pre, [arg] + args);
    RenderSplit(pre, ['%', c] + post, false, [arg] + args);
    PlainText(pre, [arg] + args);
    ConversionFits(c, arg, args);
    RenderSplit(['%', c], post, false, [arg] + args);
    OneConversion(c, arg);
    assert ([arg] + args)[0..] == [arg] + args && ([arg] + args)[1..] == args;
  }

  lemma {:induction false} PlainFits(pre: seq<char>, args: seq<Arg>)
    requires '%' !in pre
    ensures Fits(pre, false, args) && Takes(pre, false) == 0 && !Pending(pre, false)
  {
    if pre != [] {
      PlainFits(pre[1..], args);
    }
  }

  lemma ConversionFits(c: char, arg: Arg, args: seq<Arg>)
    requires Conversion(c) && (c == 's' <==> arg.Str?)
    ensures Fits(['%', c], false, [arg] + args) && Takes(['%', c], false) == 1 && !Pending(['%', c], false)
    ensures Render(['%', c], false, [arg] + args) == Piece(c, arg)
  {
    hide Piece;
    assert ['%', c][1..] == [c] && [c][1..] == [];
    assert Takes([c], true) == 1 + Takes([], false);
    assert Fits([c], true, [arg] + args);
    assert c != '%' && !Pending([], false);
    assert Pending(['%', c], false) == Pending([c], true) == Pending([c][1..], c == '%');
    assert Render([c], true, [arg] + args) == Piece(c, arg) + Render([], false, ([arg] + args)[1..]);
  }
}

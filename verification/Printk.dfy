/** lib/printk.c step by step: the digit buffer, the loops over it, the format scan. */
module Printk {
  import opened PrintSpec

  const BUFFER := 15

  function Reversed(s: seq<char>): seq<char> { if s == [] then [] else [s[|s| - 1]] + Reversed(s[..|s| - 1]) }

  class Printer {
    /** What the printer callback has been given. */
    var out: seq<char>

    constructor ()
      ensures out == []
    {
      out := [];
    }

    method Print(c: char)
      modifies this
      ensures out == old(out) + [c]
    {
      out := out + [c];
    }

    /** printp */
    method PrintText(text: seq<char>)
      modifies this
      ensures out == old(out) + text
    {
      var i := 0;
      while i < |text|
        invariant 0 <= i <= |text| && out == old(out) + text[..i]
      {
        Print(text[i]);
        i := i + 1;
      }
    }

    /** The digit loop of %d and %x: it never leaves the 15-byte buffer. */
    method PrintDigits(value: nat, base: int, ghost n: nat)
      requires (base == 10 || base == 16) && value < Pow(base, n) && n <= BUFFER
      modifies this
      ensures out == old(out) + Digits(value, base)
    {
      hide Quot, Rem, Pow, Digit;
      var digits := new char[BUFFER];
      var x: nat, di := value, 0;
      while x >= 1
        invariant 0 <= di <= n && x < Pow(base, n - di) && out == old(out)
        invariant Digits(value, base) == Digits(x, base) + Reversed(digits[..di])
        decreases x
      {
        PowStep(base, n - di, x);
        QuotRem(x, base);
        ghost var before := digits[..di];
        digits[di] := Digit(Rem(x, base));
        ReversedMore(before, digits[di]);
        assert digits[..di + 1] == before + [digits[di]];
        Regroup(Digits(Quot(x, base), base), [digits[di]], Reversed(before));
        x := Quot(x, base);
        di := di + 1;
      }
      di := di - 1;
      while di >= 0
        invariant -1 <= di < n && out + Reversed(digits[..di + 1]) == old(out) + Digits(value, base)
      {
        ghost var rest := digits[..di];
        assert digits[..di + 1] == rest + [digits[di]];
        ReversedMore(rest, digits[di]);
        Regroup(out, [digits[di]], Reversed(rest));
        Print(digits[di]);
        di := di - 1;
      }
    }

    method PrintHex(x: U32)
      modifies this
      ensures out == old(out) + Hex(x)
    {
      if x == 0 {
        Print('0');
        return;
      }
      Pow16(8);
      PrintDigits(x, 16, 8);
    }

    method PrintDecimal(bits: U32)
      modifies this
      ensures out == old(out) + Decimal(bits)
    {
      hide Digits;
      var x := Signed(bits);
      if x == -2147483648 {
        PrintText("-2147483648");
        LeastInteger();
        return;
      }
      if x == 0 {
        Print('0');
        return;
      }
      if x < 0 {
        Print('-');
        x := -x;
      }
      Pow10();
      PrintDigits(x, 10, 10);
    }

    /** vfprintf; the arguments are of the kinds that the string asks for. */
    method Vfprintf(ctl: seq<char>, args: seq<Arg>)
      requires Fits(ctl, false, args)
      modifies this
      ensures out == old(out) + Render(ctl, false, args)
    {
      hide Decimal, Hex;
      var str, pointer, read := 0, 0, false;
      while str < |ctl|
        invariant 0 <= str <= |ctl| && 0 <= pointer <= |args|
        invariant Fits(ctl[str..], read, args[pointer..])
        invariant out + Render(ctl[str..], read, args[pointer..]) == old(out) + Render(ctl, false, args)
        decreases |ctl| - str
      {
        var cur := ctl[str];
        assert ctl[str..][0] == cur && ctl[str..][1..] == ctl[str + 1..];
        assert pointer < |args| ==> args[pointer..][0] == args[pointer] && args[pointer..][1..] == args[pointer + 1..];
        if cur == '%' {
          read := true;
        } else if read {
          if cur == 's' {
            PrintText(args[pointer].text);
            pointer := pointer + 1;
          }
          if cur == 'x' {
            PrintHex(args[pointer].x);
            pointer := pointer + 1;
          }
          if cur == 'd' {
            PrintDecimal(args[pointer].x);
            pointer := pointer + 1;
          }
          if cur == 'c' {
            Print((args[pointer].x % 256) as char);
            pointer := pointer + 1;
          }
          read := false;
        } else {
          Print(cur);
        }
        str := str + 1;
      }
    }
  }

  lemma ReversedMore(s: seq<char>, c: char)
    ensures Reversed(s + [c]) == [c] + Reversed(s)
  {
    assert (s + [c])[..|s|] == s;
  }

  lemma Regroup(a: seq<char>, b: seq<char>, c: seq<char>)
    ensures a + (b + c) == (a + b) + c
  {
  }

  lemma PowStep(base: int, n: nat, x: nat)
    requires (base == 10 || base == 16) && 1 <= x < Pow(base, n)
    ensures n > 0 && Quot(x, base) < Pow(base, n - 1)
  {
  }

  lemma Pow16(n: nat)
    requires n == 8
    ensures Pow(16, n) == TWO_32
  {
  }

  lemma Pow10()
    ensures Pow(10, 10) == 10000000000
  {
    assert Pow(10, 4) == 10000;
    assert Pow(10, 7) == 10000000;
  }
}

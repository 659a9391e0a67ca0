/** What the number reader `myatoi` accepts and what it makes of it. */
module Numbers {
  import opened Strings

  /** The digit k in ASCII: 0 to 9, a to f or A to F. */
  predicate IsDigit(c: char, k: nat) {
    if k < 10 then c as int == 48 + k else c as int == 87 + k || c as int == 55 + k
  }

  /** Digits of either case have their value, and nothing else is a digit. */
  lemma DigitIff(c: char, k: nat)
    requires k < 16
    ensures Digit(c) == k <==> IsDigit(c, k)
  {
  }

  function DecimalDigit(n: nat): char
    requires n < 10
  {
    (48 + n) as char
  }

  /** A number in decimal without leading zeros. */
  function Decimal(n: nat): string {
    if n < 10 then [DecimalDigit(n)] else Decimal(n / 10) + [DecimalDigit(n % 10)]
  }

  lemma {:induction false} DecimalDigits(n: nat)
    ensures Decimal(n) != [] && AllDigits(Decimal(n), 10) && Value(Decimal(n), 10) == n
  {
    var d := Decimal(n);
    if n < 10 {
      assert d[..0] == [];
    } else {
      DecimalDigits(n / 10);
      assert d[..|d| - 1] == Decimal(n / 10);
    }
  }

  lemma {:induction false} SkipsSpaces(sp: string, t: string)
    requires forall i :: 0 <= i < |sp| ==> sp[i] == ' ' || '\t' <= sp[i] <= '\r'
    requires t != [] && t[0] != ' ' && !('\t' <= t[0] <= '\r')
    ensures SkipSpaces(sp + t) == t
  {
    if sp == [] {
      assert sp + t == t;
    } else {
      assert (sp + t)[1..] == sp[1..] + t;
      SkipsSpaces(sp[1..], t);
    }
  }

  /** Spaces, a sign, for hexadecimal perhaps 0x, and digits are read as the number they stand for,
      if it fits into 64 bits. */
  lemma AtoiForms(sp: string, sign: string, zero: string, d: string, base: nat)
    requires forall i :: 0 <= i < |sp| ==> sp[i] == ' ' || '\t' <= sp[i] <= '\r'
    requires sign in {"", "+", "-"} && (zero == "" || (base == 16 && zero in {"0x", "0X"}))
    requires (base == 10 || base == 16) && d != [] && AllDigits(d, base)
    requires if sign == "-" then Value(d, base) <= 0x8000_0000_0000_0000 else Value(d, base) < 0x8000_0000_0000_0000
    ensures Atoi(sp + sign + zero + d, base) == Some(if sign == "-" then 0 - Value(d, base) else Value(d, base))
  {
    hide SkipSpaces, Value, AllDigits, StripSign, StripPrefix;
    var u := zero + d;
    var t := sign + u;
    assert sp + sign + zero + d == sp + t;
    FirstDigits(d, base);
    StripsPrefix(zero, d, base);
    StripsSign(sign, u);
    SkipsSpaces(sp, t);
  }

  lemma StripsPrefix(zero: string, d: string, base: nat)
    requires zero == "" || (base == 16 && zero in {"0x", "0X"})
    requires d != [] && (|d| > 1 ==> d[1] != 'x' && d[1] != 'X')
    ensures StripPrefix(zero + d, base) == d && (zero + d)[0] in {'0', d[0]}
  {
    if zero == "" { assert zero + d == d; } else { assert (zero + d)[1] == zero[1] && (zero + d)[2..] == d; }
  }

  lemma StripsSign(sign: string, u: string)
    requires sign in {"", "+", "-"} && u != [] && u[0] != '+' && u[0] != '-'
    ensures StripSign(sign + u) == u && ((sign + u)[0] == '-' <==> sign == "-") && (sign + u)[0] in {'+', '-', u[0]}
  {
    if sign == "" { assert sign + u == u; } else { assert (sign + u)[0] == sign[0] && (sign + u)[1..] == u; }
  }

  lemma FirstDigits(d: string, base: nat)
    requires d != [] && AllDigits(d, base) && base <= 16
    ensures d[0] !in {'+', '-', ' '} && !('\t' <= d[0] <= '\r')
    ensures |d| > 1 ==> d[1] != 'x' && d[1] != 'X'
  {
    assert Digit(d[0]) < 16 && (|d| > 1 ==> Digit(d[1]) < 16);
  }

  /** A printed decimal number reads back. */
  lemma DecimalRoundTrip(n: nat)
    requires n < 0x8000_0000_0000_0000
    ensures Atoi(Decimal(n), 10) == Some(n)
  {
    hide Decimal, Atoi;
    DecimalDigits(n);
    AtoiForms("", "", "", Decimal(n), 10);
    assert "" + "" + "" + Decimal(n) == Decimal(n);
  }

  lemma {:induction false} SkipSpacesSuffix(s: string, i: nat)
    requires i < |s| && !IsSpace(s[i])
    ensures var t := SkipSpaces(s);
      |t| <= |s| && |s| - |t| <= i && t == s[|s| - |t|..]
  {
    if IsSpace(s[0]) { SkipSpacesSuffix(s[1..], i - 1); }
  }

  /** A string with a character that can be no part of a number is not read, nor is the empty one. */
  lemma AtoiRejects(s: string, i: nat, base: nat)
    requires i < |s| && s[i] != ' ' && !('\t' <= s[i] <= '\r') && s[i] !in {'+', '-', 'x', 'X'}
    requires base <= 16 && forall k :: 0 <= k < base ==> !IsDigit(s[i], k)
    ensures Atoi(s, base) == None && Atoi("", base) == None
  {
    hide SkipSpaces, Value;
    SkipSpacesSuffix(s, i);
    var t := SkipSpaces(s);
    var j := i - (|s| - |t|);
    assert t[j] == s[i];
    assert Digit(s[i]) >= base by {
      if Digit(s[i]) < base { DigitIff(s[i], Digit(s[i])); }
    }
    var u := StripSign(t);
    assert s[i] in u by {
      if t[0] == '-' || t[0] == '+' { assert t[1..][j - 1] == s[i]; }
    }
    var k :| 0 <= k < |u| && u[k] == s[i];
    if base == 16 && |u| > 2 && u[0] == '0' && (u[1] == 'x' || u[1] == 'X') {
      DigitIff('0', 0);
      assert k >= 2 && u[2..][k - 2] == s[i];
    }
    NothingToSkip();
  }

  lemma NothingToSkip()
    ensures SkipSpaces("") == ""
  {
  }
}

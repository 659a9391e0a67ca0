/** The string operations the HTTP code is written in. */
module Strings {

  datatype Option<T> = None | Some(value: T)

  const CRLF: string := "\r\n"

  /** `string::find`: the first position of a nonempty pattern, or -1. */
  function Find(s: string, pat: string): (r: int)
    ensures r == -1 || 0 <= r <= |s| - |pat|
  {
    if |s| < |pat| || pat == [] then -1
    else if s[..|pat|] == pat then 0
    else
      var r := Find(s[1..], pat);
      if r < 0 then -1 else r + 1
  }

  /** The pattern stands at position i. */
  predicate At(s: string, pat: string, i: int) {
    0 <= i && i + |pat| <= |s| && s[i..i + |pat|] == pat
  }

  lemma AtShift(s: string, pat: string, i: int)
    requires s != [] && i >= 1
    ensures At(s, pat, i) <==> At(s[1..], pat, i - 1)
  {
  }

  lemma {:induction false} FindIsFirst(s: string, pat: string)
    requires pat != []
    ensures Find(s, pat) >= 0 ==> At(s, pat, Find(s, pat))
    ensures forall j :: At(s, pat, j) ==> 0 <= Find(s, pat) <= j
  {
    if |s| >= |pat| {
      assert At(s, pat, 0) <==> s[..|pat|] == pat by { assert s[0..|pat|] == s[..|pat|]; }
      if s[..|pat|] != pat {
        var r := Find(s[1..], pat);
        FindIsFirst(s[1..], pat);
        if r >= 0 { AtShift(s, pat, r + 1); }
        forall j | At(s, pat, j) ensures 0 <= Find(s, pat) <= j {
          AtShift(s, pat, j);
        }
      }
    }
  }

  lemma AtPrefix(s: string, t: string, pat: string, i: int)
    requires i + |pat| <= |s|
    ensures At(s + t, pat, i) <==> At(s, pat, i)
  {
  }

  /** A match stays the first one whatever is appended. */
  lemma FindExtend(s: string, t: string, pat: string)
    requires pat != [] && Find(s, pat) >= 0
    ensures Find(s + t, pat) == Find(s, pat) && Find(s, pat) + |pat| <= |s|
  {
    hide Find;
    FindIsFirst(s, pat);
    FindIsFirst(s + t, pat);
    AtPrefix(s, t, pat, Find(s, pat));
    AtPrefix(s, t, pat, Find(s + t, pat));
  }

  /** A match that appending creates ends in what was appended. */
  lemma FindCrosses(s: string, t: string, pat: string)
    requires pat != [] && Find(s, pat) < 0 && Find(s + t, pat) >= 0
    ensures |s| < Find(s + t, pat) + |pat| <= |s| + |t|
  {
    hide Find;
    FindIsFirst(s, pat);
    FindIsFirst(s + t, pat);
    var r := Find(s + t, pat);
    assert !At(s, pat, r);
    if r + |pat| <= |s| { AtPrefix(s, t, pat, r); }
  }

  /** `tokenize.hh`: the pieces between separators. */
  function Split(s: string, c: char): (ts: seq<string>)
    ensures ts != []
  {
    if s == [] then [[]]
    else
      var rest := Split(s[1..], c);
      if s[0] == c then [[]] + rest else [[s[0]] + rest[0]] + rest[1..]
  }

  function Join(ts: seq<string>, c: char): string
    requires ts != []
  {
    if |ts| == 1 then ts[0] else ts[0] + [c] + Join(ts[1..], c)
  }

  /** Splitting loses nothing, and no piece contains the separator. */
  lemma {:induction false} SplitJoins(s: string, c: char)
    ensures Join(Split(s, c), c) == s
    ensures forall i :: 0 <= i < |Split(s, c)| ==> c !in Split(s, c)[i]
  {
    if s != [] {
      var rest := Split(s[1..], c);
      SplitJoins(s[1..], c);
      if s[0] == c {
        assert ([[]] + rest)[1..] == rest;
        assert [] + [c] + s[1..] == s;
      } else {
        var ts := [[s[0]] + rest[0]] + rest[1..];
        assert ts[1..] == rest[1..];
        assert forall i :: 1 <= i < |ts| ==> ts[i] == rest[i];
        assert Join(ts, c) == [s[0]] + Join(rest, c) by {
          if |ts| > 1 {
            var more := Join(rest[1..], c);
            assert [s[0]] + rest[0] + [c] + more == [s[0]] + (rest[0] + [c] + more);
          }
        }
        assert [s[0]] + s[1..] == s;
      }
    }
  }

  lemma SplitPrefix(a: string, s: string, c: char)
    requires c !in a
    ensures Split(a + [c] + s, c) == [a] + Split(s, c)
    decreases a
  {
    var w := a + [c] + s;
    if a == [] {
      assert w[1..] == s;
    } else {
      assert w[1..] == a[1..] + [c] + s;
      SplitPrefix(a[1..], s, c);
      assert [a[0]] + a[1..] == a;
      assert ([a[1..]] + Split(s, c))[1..] == Split(s, c);
    }
  }

  lemma SplitAtom(a: string, c: char)
    requires c !in a
    ensures Split(a, c) == [a]
    decreases a
  {
    if a != [] {
      SplitAtom(a[1..], c);
      assert [a[0]] + a[1..] == a;
    }
  }

  /** `indices` are the positions of c in the first n characters, in order. */
  ghost predicate AreSeparators(s: string, c: char, n: nat, indices: seq<nat>)
    requires n <= |s|
  {
    && (forall i :: 0 <= i < |indices| ==> indices[i] < n && s[indices[i]] == c)
    && (forall i, j :: 0 <= i < j < |indices| ==> indices[i] < indices[j])
    && (forall k :: 0 <= k < n && s[k] == c ==> k in indices)
  }

  method Separators(s: string, c: char) returns (indices: seq<nat>)
    ensures AreSeparators(s, c, |s|, indices)
  {
    indices := [];
    var next := 0;
    while next < |s|
      invariant next <= |s| && AreSeparators(s, c, next, indices)
    {
      if s[next] == c {
        ghost var was := indices;
        indices := indices + [next];
        assert forall k :: k in was ==> k in indices;
      }
      next := next + 1;
    }
  }

  /** The loops of `split`: collect the separator positions, then cut between them. */
  method SplitTokens(s: string, c: char) returns (ret: seq<string>)
    ensures ret == Split(s, c)
  {
    hide Split, AreSeparators;
    var indices := Separators(s, c);
    if indices == [] {
      NoneBetween(s, c, indices, 0);
      assert s[0..|s|] == s;
      SplitAtom(s, c);
      return [s];
    }
    SeparatorAt(s, c, indices, 0);
    ret := [s[..indices[0]]];
    CutOnce(s, c, indices, 0);
    assert s[0..] == s && s[0..indices[0]] == s[..indices[0]];
    for i := 0 to |indices| - 1
      invariant indices[i] + 1 <= |s|
      invariant ret + Split(s[indices[i] + 1..], c) == Split(s, c)
    {
      SeparatorAt(s, c, indices, i + 1);
      CutOnce(s, c, indices, i + 1);
      var token := s[indices[i] + 1..indices[i + 1]];
      ghost var rest := Split(s[indices[i + 1] + 1..], c);
      assert ret + ([token] + rest) == ret + [token] + rest;
      ret := ret + [token];
    }
    var last := s[indices[|indices| - 1] + 1..];
    NoneBetween(s, c, indices, |indices|);
    SplitAtom(last, c);
    ret := ret + [last];
  }

  lemma SeparatorAt(s: string, c: char, indices: seq<nat>, i: nat)
    requires AreSeparators(s, c, |s|, indices) && i < |indices|
    ensures indices[i] < |s| && (if i == 0 then 0 else indices[i - 1] + 1) <= indices[i]
  {
  }

  /** Cutting off the piece before separator i. */
  lemma CutOnce(s: string, c: char, indices: seq<nat>, i: nat)
    requires AreSeparators(s, c, |s|, indices) && i < |indices|
    ensures var from, to := if i == 0 then 0 else indices[i - 1] + 1, indices[i];
      from <= to < |s| && Split(s[from..], c) == [s[from..to]] + Split(s[to + 1..], c)
  {
    hide Split;
    NoneBetween(s, c, indices, i);
    var from, to := if i == 0 then 0 else indices[i - 1] + 1, indices[i];
    assert s[from..] == s[from..to] + [c] + s[to + 1..];
    SplitPrefix(s[from..to], s[to + 1..], c);
  }

  /** Between two consecutive separator positions there is no separator. */
  lemma NoneBetween(s: string, c: char, indices: seq<nat>, i: nat)
    requires i <= |indices| && AreSeparators(s, c, |s|, indices)
    ensures var from, to := if i == 0 then 0 else indices[i - 1] + 1, if i == |indices| then |s| else indices[i];
      from <= to <= |s| && c !in s[from..to]
  {
  }

  // ----- strtol -----

  predicate IsSpace(c: char) {
    c == ' ' || '\t' <= c <= '\r'
  }

  function SkipSpaces(s: string): string {
    if s != [] && IsSpace(s[0]) then SkipSpaces(s[1..]) else s
  }

  function Digit(c: char): nat {
    if '0' <= c <= '9' then c as nat - '0' as nat
    else if 'a' <= c <= 'f' then c as nat - 'a' as nat + 10
    else if 'A' <= c <= 'F' then c as nat - 'A' as nat + 10
    else 16
  }

  predicate AllDigits(s: string, base: nat) {
    forall i :: 0 <= i < |s| ==> Digit(s[i]) < base
  }

  function Value(s: string, base: nat): nat {
    if s == [] then 0 else Value(s[..|s| - 1], base) * base + Digit(s[|s| - 1])
  }

  function StripSign(t: string): string {
    if t != [] && (t[0] == '-' || t[0] == '+') then t[1..] else t
  }

  /** Hexadecimal numbers may begin with 0x. */
  function StripPrefix(u: string, base: nat): string {
    if base == 16 && |u| > 2 && u[0] == '0' && (u[1] == 'x' || u[1] == 'X') then u[2..] else u
  }

  /** `myatoi` in base 10 or 16: the whole string must be a number that fits a `long`. */
  function Atoi(s: string, base: nat): Option<int> {
    var t := SkipSpaces(s);
    var neg := t != [] && t[0] == '-';
    var v := StripPrefix(StripSign(t), base);
    if v == [] || !AllDigits(v, base) then None
    else
      var n := if neg then 0 - Value(v, base) else Value(v, base);
      if -0x8000_0000_0000_0000 <= n < 0x8000_0000_0000_0000 then Some(n) else None
  }

  function HexDigit(n: nat): char
    requires n < 16
  {
    if n < 10 then ('0' as nat + n) as char else ('a' as nat + n - 10) as char
  }

  predicate IsHexDigit(c: char) {
    '0' <= c <= '9' || 'a' <= c <= 'f'
  }

  /** A number in lower-case hexadecimal without leading zeros. */
  function Hex(n: nat): string {
    if n < 16 then [HexDigit(n)] else Hex(n / 16) + [HexDigit(n % 16)]
  }

  lemma {:induction false} HexDigits(n: nat)
    ensures Hex(n) != [] && AllDigits(Hex(n), 16) && Value(Hex(n), 16) == n
    ensures forall i :: 0 <= i < |Hex(n)| ==> IsHexDigit(Hex(n)[i])
    ensures Hex(n)[0] == '0' ==> |Hex(n)| == 1
  {
    var h := Hex(n);
    if n < 16 {
      assert h[..0] == [];
    } else {
      HexDigits(n / 16);
      assert h[..|h| - 1] == Hex(n / 16);
      HexNotZero(n / 16);
    }
  }

  lemma {:induction false} HexNotZero(n: nat)
    requires n > 0
    ensures Hex(n)[0] != '0'
  {
    if n >= 16 { HexNotZero(n / 16); }
  }

  /** Reading back a printed hexadecimal number. */
  lemma HexRoundTrip(n: nat)
    requires n < 0x8000_0000_0000_0000
    ensures Atoi(Hex(n), 16) == Some(n)
  {
    hide Hex, Value, AllDigits;
    HexDigits(n);
    var h := Hex(n);
    assert IsHexDigit(h[0]);
    assert |h| > 2 ==> h[0] != '0';
  }
}

/** The parts of Python's string formatting and `str` methods the modelled code
    relies on: `str(int)`, `'{:X}'`, `'{:b}'`, zero padding, right alignment,
    `str.split`, `str.join`, `str.strip`, `str.lower` and list indexing with
    negative indices. */
module PyFormat {

  datatype Option<+T> = None | Some(value: T)

  function Max(a: int, b: int): int { if a < b then b else a }

  function Min(a: int, b: int): int { if a < b then a else b }

  /** Extending a prefix by one element. */
  lemma SeqPrefix<T>(xs: seq<T>, n: nat)
    requires n < |xs|
    ensures xs[..n + 1] == xs[..n] + [xs[n]]
  {
  }

  lemma SeqTail<T>(xs: seq<T>, i: nat)
    requires i < |xs|
    ensures xs[i..][0] == xs[i] && xs[i..][1..] == xs[i + 1..]
  {
  }

  lemma SeqAssoc<T>(a: seq<T>, b: seq<T>, c: seq<T>)
    ensures a + (b + c) == a + b + c
  {
  }

  function Pow(b: nat, k: nat): (r: nat)
    ensures b >= 1 ==> r >= 1
  {
    if k == 0 then 1 else b * Pow(b, k - 1)
  }

  // ---------------------------------------------------------------------------
  // Digits in base 2, 10 and 16 (upper-case letters, as '{:X}' prints them)
  // ---------------------------------------------------------------------------

  function DigitChar(d: nat): char
    requires d < 16
  {
    "0123456789ABCDEF"[d]
  }

  /** The value of one digit character; letters are upper-case only. */
  function DigitValue(c: char): nat
  {
    if '0' <= c <= '9' then c as nat - '0' as nat
    else if 'A' <= c <= 'F' then c as nat - 'A' as nat + 10
    else 0
  }

  predicate IsDigitIn(c: char, base: nat)
  {
    ('0' <= c <= '9' || 'A' <= c <= 'F') && DigitValue(c) < base
  }

  lemma {:induction false} PowAdd(b: nat, m: nat, n: nat)
    ensures Pow(b, m + n) == Pow(b, m) * Pow(b, n)
    decreases n
  {
    if n > 0 {
      PowAdd(b, m, n - 1);
      var p, q := Pow(b, m), Pow(b, n - 1);
      assert Pow(b, m + n) == b * (p * q);
      assert b * (p * q) == p * (b * q);
    }
  }

  lemma {:induction false} PowMul(b: nat, m: nat, n: nat)
    ensures Pow(Pow(b, m), n) == Pow(b, m * n)
    decreases n
  {
    if n > 0 {
      PowMul(b, m, n - 1);
      PowAdd(b, m, m * (n - 1));
      assert m + m * (n - 1) == m * n;
    }
  }

  /** Minimal digit string of `n` in `base`: what `str(n)`, `'{:X}'` and `'{:b}'` print. */
  function Digits(n: nat, base: nat): (s: string)
    requires 2 <= base <= 16
    ensures |s| >= 1
    ensures forall i :: 0 <= i < |s| ==> IsDigitIn(s[i], base)
    decreases n
  {
    if n < base then DigitCharValue(n, base); [DigitChar(n)]
    else
      var qd := DivMod(n, base);
      DigitCharValue(qd.1, base);
      Digits(qd.0, base) + [DigitChar(qd.1)]
  }

  lemma DigitCharValue(d: nat, base: nat)
    requires d < base <= 16
    ensures DigitValue(DigitChar(d)) == d && IsDigitIn(DigitChar(d), base)
  {
  }

  /** Quotient and remainder, with the facts the digit functions need. */
  function DivMod(n: nat, base: nat): (qd: (nat, nat))
    requires 2 <= base <= n
    ensures qd.0 == n / base && qd.1 == n % base
    ensures qd.0 < n && qd.1 < base && n == qd.0 * base + qd.1
  {
    (n / base, n % base)
  }

  /** Reference reading of a digit string, most significant digit first. */
  function ValueOf(s: string, base: nat): nat
  {
    if s == [] then 0 else ValueOf(s[..|s| - 1], base) * base + DigitValue(s[|s| - 1])
  }

  lemma {:induction false} DigitsRoundTrip(n: nat, base: nat)
    requires 2 <= base <= 16
    ensures ValueOf(Digits(n, base), base) == n
    decreases n
  {
    var s := Digits(n, base);
    if n < base {
      DigitCharValue(n, base);
      assert s[..|s| - 1] == [];
    } else {
      var qd := DivMod(n, base);
      DigitsRoundTrip(qd.0, base);
      DigitCharValue(qd.1, base);
      assert s == Digits(qd.0, base) + [DigitChar(qd.1)];
      assert s[..|s| - 1] == Digits(qd.0, base) && s[|s| - 1] == DigitChar(qd.1);
    }
  }

  /** A number below base^k has at most k digits, so padding to k is exact. */
  lemma {:induction false} DigitsLength(n: nat, base: nat, k: nat)
    requires 2 <= base <= 16 && k >= 1 && n < Pow(base, k)
    ensures |Digits(n, base)| <= k
    decreases k
  {
    if n >= base {
      assert Pow(base, k) == base * Pow(base, k - 1);
      DivBound(n, base, Pow(base, k - 1));
      DigitsLength(n / base, base, k - 1);
    }
  }

  lemma DivBound(n: nat, b: nat, m: nat)
    requires 1 <= b <= n && n < b * m
    ensures 1 <= n / b < m && m >= 2
  {
  }

  /** `str(n)` for a Python int. */
  function Dec(n: int): (s: string)
    ensures |s| >= 1
  {
    if n < 0 then "-" + Digits(-n, 10) else Digits(n, 10)
  }

  /** `'{:X}'.format(n)` for a non-negative int. */
  function Hex(n: nat): (s: string)
    ensures |s| >= 1
  {
    Digits(n, 16)
  }

  // ---------------------------------------------------------------------------
  // Padding and alignment
  // ---------------------------------------------------------------------------

  function Repeat(c: char, n: int): (s: string)
    ensures |s| == Max(n, 0)
    ensures forall i :: 0 <= i < |s| ==> s[i] == c
    decreases n
  {
    if n <= 0 then "" else [c] + Repeat(c, n - 1)
  }

  /** `'{: >w}'.format(s)`: pad on the left with spaces to width `w`, never truncate. */
  function RightAlign(s: string, w: int): (r: string)
    ensures |r| == Max(w, |s|)
    ensures r[|r| - |s|..] == s
    ensures forall i :: 0 <= i < |r| - |s| ==> r[i] == ' '
  {
    Repeat(' ', w - |s|) + s
  }

  /** `'{:0wX}'`-style zero padding of a digit string to width `w`. */
  function ZeroPad(s: string, w: int): (r: string)
    ensures |r| == Max(w, |s|)
    ensures r[|r| - |s|..] == s
    ensures forall i :: 0 <= i < |r| - |s| ==> r[i] == '0'
  {
    Repeat('0', w - |s|) + s
  }

  /** Leading zeros do not change the value of a digit string. */
  lemma {:induction false} ZeroPadValue(s: string, w: int, base: nat)
    ensures ValueOf(ZeroPad(s, w), base) == ValueOf(s, base)
    decreases |s|
  {
    var r := ZeroPad(s, w);
    if s == [] {
      ZerosValue(w, base);
      assert r == Repeat('0', w);
    } else {
      ZeroPadValue(s[..|s| - 1], w - 1, base);
      assert r[..|r| - 1] == ZeroPad(s[..|s| - 1], w - 1);
    }
  }

  lemma {:induction false} ZerosValue(n: int, base: nat)
    ensures ValueOf(Repeat('0', n), base) == 0
    decreases n
  {
    if n > 0 {
      var z := Repeat('0', n);
      ZerosValue(n - 1, base);
      assert z[..|z| - 1] == Repeat('0', n - 1);
    }
  }

  /** `'{:0kb}'.format(n)` (base 2) or `'{:0kX}'.format(n)` (base 16). */
  function PaddedDigits(n: nat, base: nat, k: nat): (s: string)
    requires 2 <= base <= 16
  {
    ZeroPad(Digits(n, base), k)
  }

  /** A value that fits in k digits is printed with exactly k digits and reads back. */
  lemma PaddedDigitsExact(n: nat, base: nat, k: nat)
    requires 2 <= base <= 16 && k >= 1 && n < Pow(base, k)
    ensures |PaddedDigits(n, base, k)| == k
    ensures ValueOf(PaddedDigits(n, base, k), base) == n
    ensures forall i :: 0 <= i < k ==> IsDigitIn(PaddedDigits(n, base, k)[i], base)
  {
    DigitsLength(n, base, k);
    DigitsRoundTrip(n, base);
    ZeroPadValue(Digits(n, base), k, base);
    var s := PaddedDigits(n, base, k);
    var d := Digits(n, base);
    forall i | 0 <= i < k ensures IsDigitIn(s[i], base) {
      if i >= k - |d| {
        assert s[i] == s[k - |d|..][i - (k - |d|)];
      }
    }
  }

  // ---------------------------------------------------------------------------
  // Grouping into blocks of four, as both decoders print hex and binary strings
  // ---------------------------------------------------------------------------

  /** The string cut into blocks of four characters separated by single spaces. */
  function Grouped(s: string): (r: string)
    decreases |s|
  {
    if |s| <= 4 then s else s[..4] + " " + Grouped(s[4..])
  }

  lemma {:induction false} GroupedLength(s: string)
    ensures |Grouped(s)| == |s| + (if |s| == 0 then 0 else (|s| - 1) / 4)
    decreases |s|
  {
    if |s| > 4 { GroupedLength(s[4..]); }
  }

  /** Removing the separators from the grouped string gives back the string. */
  lemma {:induction false} GroupedBlocks(s: string, k: nat)
    requires k < |s|
    ensures |Grouped(s)| > k + k / 4 && Grouped(s)[k + k / 4] == s[k]
    decreases |s|
  {
    GroupedLength(s);
    if |s| > 4 && k >= 4 {
      GroupedBlocks(s[4..], k - 4);
      assert Grouped(s) == s[..4] + " " + Grouped(s[4..]);
      assert (k - 4) + (k - 4) / 4 + 5 == k + k / 4;
    }
  }

  /** The string with its spaces removed. */
  function Ungrouped(s: string): (r: string)
    ensures |r| <= |s|
    decreases |s|
  {
    if s == [] then "" else (if s[0] == ' ' then "" else [s[0]]) + Ungrouped(s[1..])
  }

  lemma {:induction false} UngroupedAppend(a: string, b: string)
    ensures Ungrouped(a + b) == Ungrouped(a) + Ungrouped(b)
    decreases |a|
  {
    if a != [] {
      assert (a + b)[0] == a[0] && (a + b)[1..] == a[1..] + b;
      UngroupedAppend(a[1..], b);
    } else {
      assert a + b == b;
    }
  }

  lemma {:induction false} UngroupedNoSpace(s: string)
    requires forall i :: 0 <= i < |s| ==> s[i] != ' '
    ensures Ungrouped(s) == s
    decreases |s|
  {
    if s != [] {
      UngroupedNoSpace(s[1..]);
    }
  }

  /** Removing the spaces undoes the grouping of a string without spaces. */
  lemma {:induction false} UngroupGrouped(s: string)
    requires forall i :: 0 <= i < |s| ==> s[i] != ' '
    ensures Ungrouped(Grouped(s)) == s
    decreases |s|
  {
    if |s| <= 4 {
      UngroupedNoSpace(s);
    } else {
      var head, tail := s[..4], s[4..];
      assert forall i :: 0 <= i < |tail| ==> tail[i] == s[i + 4];
      UngroupGrouped(tail);
      UngroupedNoSpace(head);
      var g := Grouped(tail);
      assert Grouped(s) == head + " " + g;
      UngroupedAppend(head + " ", g);
      UngroupedAppend(head, " ");
      assert Ungrouped(" ") == "";
      assert head + tail == s;
    }
  }

  // ---------------------------------------------------------------------------
  // str.join, str.split, str.strip, str.lower
  // ---------------------------------------------------------------------------

  /** `sep.join(parts)`. */
  function Join(parts: seq<string>, sep: string): string
  {
    if parts == [] then ""
    else if |parts| == 1 then parts[0]
    else parts[0] + sep + Join(parts[1..], sep)
  }

  /** `s.split(c)` for a one-character separator. */
  function Split(s: string, c: char): (parts: seq<string>)
    ensures |parts| >= 1
    decreases |s|
  {
    if s == [] then [""]
    else
      var rest := Split(s[1..], c);
      if s[0] == c then [""] + rest
      else [[s[0]] + rest[0]] + rest[1..]
  }

  lemma {:induction false} SplitFields(s: string, c: char)
    ensures forall i, j :: 0 <= i < |Split(s, c)| && 0 <= j < |Split(s, c)[i]| ==> Split(s, c)[i][j] != c
    decreases |s|
  {
    if s != [] {
      SplitFields(s[1..], c);
    }
  }

  /** Joining the fields with the separator gives back the string. */
  lemma {:induction false} SplitJoin(s: string, c: char)
    ensures Join(Split(s, c), [c]) == s
    decreases |s|
  {
    if s != [] {
      var rest := Split(s[1..], c);
      SplitJoin(s[1..], c);
      if s[0] == c {
        assert Split(s, c) == [""] + rest;
        assert Split(s, c)[1..] == rest;
      } else {
        var parts := Split(s, c);
        if |rest| == 1 {
          assert parts == [[s[0]] + rest[0]];
        } else {
          assert parts[1..] == rest[1..];
          assert Join(rest, [c]) == rest[0] + [c] + Join(rest[1..], [c]);
        }
      }
    }
  }

  /** A string without the separator is a single field. */
  lemma {:induction false} SplitNoSeparator(x: string, c: char)
    requires c !in x
    ensures Split(x, c) == [x]
    decreases |x|
  {
    if x == [] {
      assert Split(x, c) == [""];
    } else {
      assert x[0] != c;
      SplitNoSeparator(x[1..], c);
      assert Split(x, c) == [[x[0]] + x[1..]];
      assert [x[0]] + x[1..] == x;
    }
  }

  /** A field followed by the separator splits off in front. */
  lemma {:induction false} SplitAfterField(x: string, c: char, y: string)
    requires c !in x
    ensures Split(x + [c] + y, c) == [x] + Split(y, c)
    decreases |x|
  {
    var s := x + [c] + y;
    if x == [] {
      assert s[0] == c && s[1..] == y;
      assert Split(s, c) == [""] + Split(y, c);
    } else {
      assert s[0] == x[0] && s[1..] == x[1..] + [c] + y;
      SplitAfterField(x[1..], c, y);
      var rest := Split(s[1..], c);
      assert rest == [x[1..]] + Split(y, c);
      assert Split(s, c) == [[x[0]] + rest[0]] + rest[1..];
      assert [x[0]] + rest[0] == x;
    }
  }

  /** Appending a separator and a last field adds one field at the end. */
  lemma {:induction false} SplitAppendField(s: string, c: char, t: string)
    requires c !in t
    ensures Split(s + [c] + t, c) == Split(s, c) + [t]
    decreases |s|
  {
    var u := s + [c] + t;
    if s == [] {
      assert u[0] == c && u[1..] == t;
      SplitNoSeparator(t, c);
      assert Split(u, c) == [""] + Split(t, c);
    } else {
      assert u[0] == s[0] && u[1..] == s[1..] + [c] + t;
      SplitAppendField(s[1..], c, t);
      var rest := Split(s[1..], c);
      if s[0] == c {
        assert Split(u, c) == [""] + (rest + [t]);
        assert Split(s, c) == [""] + rest;
      } else {
        var r := rest + [t];
        assert Split(u, c) == [[s[0]] + r[0]] + r[1..];
        assert r[0] == rest[0] && r[1..] == rest[1..] + [t];
        assert Split(s, c) == [[s[0]] + rest[0]] + rest[1..];
      }
    }
  }

  /** Splitting undoes joining when no field holds the separator. */
  lemma {:induction false} JoinSplit(parts: seq<string>, c: char)
    requires |parts| >= 1 && forall i :: 0 <= i < |parts| ==> c !in parts[i]
    ensures Split(Join(parts, [c]), c) == parts
    decreases |parts|
  {
    if |parts| == 1 {
      SplitNoSeparator(parts[0], c);
    } else {
      JoinSplit(parts[1..], c);
      SplitAfterField(parts[0], c, Join(parts[1..], [c]));
    }
  }

  /** The characters `str.strip()` removes: those `str.isspace()` accepts,
      that is \t to \r, the separators \x1c to \x1f, space, NEL, no-break
      space and the Unicode space separators and line and paragraph separators. */
  predicate IsSpace(c: char)
  {
    || '\t' <= c <= '\r' || '\U{1C}' <= c <= ' ' || c == '\U{85}' || c == '\U{A0}'
    || c == '\U{1680}' || '\U{2000}' <= c <= '\U{200A}' || c == '\U{2028}' || c == '\U{2029}'
    || c == '\U{202F}' || c == '\U{205F}' || c == '\U{3000}'
  }

  function StripLeft(s: string): (r: string)
    ensures |r| <= |s| && r == s[|s| - |r|..]
    ensures forall i :: 0 <= i < |s| - |r| ==> IsSpace(s[i])
    ensures r != [] ==> !IsSpace(r[0])
    decreases |s|
  {
    if s != [] && IsSpace(s[0]) then StripLeft(s[1..]) else s
  }

  function StripRight(s: string): (r: string)
    ensures |r| <= |s| && r == s[..|r|]
    ensures forall i :: |r| <= i < |s| ==> IsSpace(s[i])
    ensures r != [] ==> !IsSpace(r[|r| - 1])
    decreases |s|
  {
    if s != [] && IsSpace(s[|s| - 1]) then StripRight(s[..|s| - 1]) else s
  }

  /** `s.strip()`. */
  function Strip(s: string): string
  {
    StripRight(StripLeft(s))
  }

  /** `s.lower()` on ASCII letters; other characters are kept. */
  function Lower(s: string): (r: string)
    ensures |r| == |s|
    ensures forall i :: 0 <= i < |s| ==> r[i] == (if 'A' <= s[i] <= 'Z' then (s[i] as int + 32) as char else s[i])
  {
    seq(|s|, i requires 0 <= i < |s| => if 'A' <= s[i] <= 'Z' then (s[i] as int + 32) as char else s[i])
  }

  /** Python `xs[i]`: negative indices count from the end; None stands for IndexError. */
  function PyIndex<T>(xs: seq<T>, i: int): (r: Option<T>)
    ensures r.None? <==> (i >= |xs| || i < -|xs|)
    ensures 0 <= i < |xs| ==> r == Some(xs[i])
  {
    if 0 <= i < |xs| then Some(xs[i])
    else if -|xs| <= i < 0 then Some(xs[|xs| + i])
    else None
  }

  /** `s in t` for strings: substring test. */
  predicate Contains(t: string, s: string)
    decreases |t|
  {
    (|s| <= |t| && t[..|s|] == s) || (|t| > 0 && Contains(t[1..], s))
  }
}

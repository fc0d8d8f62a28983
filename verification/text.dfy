/**
 * The Python string operations the logger relies on, over `string` (`seq<char>`):
 * `str(n)` and `zfill` for non-negative integers, `int()` of a digit string,
 * `str.split` on one separator character, `str.replace(c, "")`, and the
 * line splitting of `file.readlines()`.
 */
module Text {

  predicate IsDigit(c: char)
  {
    '0' <= c <= '9'
  }

  predicate AllDigits(s: string)
  {
    forall i :: 0 <= i < |s| ==> IsDigit(s[i])
  }

  function DigitValue(c: char): nat
    requires IsDigit(c)
  {
    c as int - '0' as int
  }

  function DigitChar(d: nat): (c: char)
    requires d < 10
    ensures IsDigit(c) && DigitValue(c) == d
  {
    (d + '0' as int) as char
  }

  function Pow10(k: nat): (p: nat)
    ensures p > 0
  {
    if k == 0 then 1 else 10 * Pow10(k - 1)
  }

  /** The number a string of decimal digits denotes: Python's `int(s)` on such a string. */
  function ValueOf(s: string): nat
    requires AllDigits(s)
  {
    if |s| == 0 then 0 else ValueOf(s[..|s| - 1]) * 10 + DigitValue(s[|s| - 1])
  }

  /** Python's `str(n)` for a non-negative integer: no leading zeros, at least one digit. */
  function Decimal(n: nat): (s: string)
    ensures 0 < |s| && AllDigits(s)
    ensures ValueOf(s) == n
    ensures n < 10 || s[0] != '0'
    decreases n
  {
    if n < 10 then [DigitChar(n)]
    else
      var s := Decimal(n / 10) + [DigitChar(n % 10)];
      assert s[..|s| - 1] == Decimal(n / 10);
      s
  }

  /** A digit string that does not start with `0` denotes a positive number. */
  lemma {:induction false} ValueOfLeading(s: string)
    requires 0 < |s| && AllDigits(s) && s[0] != '0'
    ensures ValueOf(s) >= 1
    decreases |s|
  {
    if |s| > 1 {
      ValueOfLeading(s[..|s| - 1]);
    }
  }

  /**
   * `str(int(s))` gives `s` back for every digit string without a leading
   * zero (the single digit `0` included): `str` is the canonical form.
   */
  lemma {:induction false} DecimalOfValue(s: string)
    requires 0 < |s| && AllDigits(s)
    requires |s| == 1 || s[0] != '0'
    ensures Decimal(ValueOf(s)) == s
    decreases |s|
  {
    var last := s[|s| - 1];
    var d := DigitValue(last);
    assert DigitChar(d) == last;
    if |s| > 1 {
      var init := s[..|s| - 1];
      var v := ValueOf(init);
      assert ValueOf(s) == v * 10 + d;
      ValueOfLeading(init);
      DecimalOfValue(init);
      LastDigit(v, d);
      assert Decimal(ValueOf(s)) == Decimal(v) + [DigitChar(d)];
      assert s == init + [last];
    }
  }

  /** Appending a digit `d` to the number `v`: division by ten undoes it. */
  lemma LastDigit(v: nat, d: nat)
    requires d < 10
    ensures (v * 10 + d) / 10 == v && (v * 10 + d) % 10 == d
  {
  }

  /** `k` copies of the digit `0`. */
  function Zeros(k: nat): (z: string)
    ensures |z| == k
  {
    seq(k, _ => '0')
  }

  /**
   * Python's `s.zfill(w)` for a string without a sign prefix: `s` itself,
   * preceded by as many `0` as it takes to reach width `w`.
   */
  function ZFill(s: string, w: nat): string
  {
    if |s| >= w then s else Zeros(w - |s|) + s
  }

  /** What `zfill` promises: width `max(|s|, w)`, `s` at the end, only zeros before it. */
  lemma ZFillShape(s: string, w: nat)
    ensures var r := ZFill(s, w);
            && |r| == (if |s| >= w then |s| else w)
            && r[|r| - |s|..] == s
            && forall i :: 0 <= i < |r| - |s| ==> r[i] == '0'
  {
  }

  /** `str(n).zfill(w)`, which is also what the `%0wd` format produces for `n >= 0`. */
  function Pad(n: nat, w: nat): (r: string)
    ensures |r| == if |Decimal(n)| >= w then |Decimal(n)| else w
  {
    ZFill(Decimal(n), w)
  }

  /** `int(str(n).zfill(w)) == n` for every width: padding never changes the number. */
  lemma PadValue(n: nat, w: nat)
    ensures ValueOf(Pad(n, w)) == n
  {
    var d := Decimal(n);
    ValueOfZerosPrefix(|Pad(n, w)| - |d|, d);
    assert Pad(n, w) == Zeros(|Pad(n, w)| - |d|) + d;
  }

  /** Leading zeros do not change the number a digit string denotes. */
  lemma {:induction false} ValueOfZerosPrefix(k: nat, s: string)
    requires AllDigits(s)
    ensures AllDigits(Zeros(k) + s) && ValueOf(Zeros(k) + s) == ValueOf(s)
    decreases |s|, k
  {
    if |s| > 0 {
      var init := s[..|s| - 1];
      assert (Zeros(k) + s)[..|Zeros(k) + s| - 1] == Zeros(k) + init;
      ValueOfZerosPrefix(k, init);
    } else if k > 0 {
      assert Zeros(k) + s == Zeros(k - 1) + ['0'];
      assert (Zeros(k) + s)[..k - 1] == Zeros(k - 1) + s;
      ValueOfZerosPrefix(k - 1, s);
    }
  }

  /** The last `w` decimal digits of `n`, most significant first. */
  function FixedDigits(n: nat, w: nat): (s: string)
    ensures |s| == w && AllDigits(s)
  {
    if w == 0 then [] else FixedDigits(n / 10, w - 1) + [DigitChar(n % 10)]
  }

  lemma {:induction false} DivBound(n: nat, w: nat)
    requires 0 < w && n < Pow10(w)
    ensures n / 10 < Pow10(w - 1)
  {
    assert Pow10(w) == 10 * Pow10(w - 1);
  }

  lemma {:induction false} ValueOfFixedDigits(n: nat, w: nat)
    requires n < Pow10(w)
    ensures ValueOf(FixedDigits(n, w)) == n
    decreases w
  {
    if w > 0 {
      var s := FixedDigits(n, w);
      DivBound(n, w);
      ValueOfFixedDigits(n / 10, w - 1);
      assert s[..|s| - 1] == FixedDigits(n / 10, w - 1);
    }
  }

  lemma {:induction false} ValueOfBound(s: string)
    requires AllDigits(s)
    ensures ValueOf(s) < Pow10(|s|)
    decreases |s|
  {
    if |s| > 0 {
      ValueOfBound(s[..|s| - 1]);
    }
  }

  lemma {:induction false} FixedDigitsOfValue(s: string)
    requires AllDigits(s)
    ensures FixedDigits(ValueOf(s), |s|) == s
    decreases |s|
  {
    if |s| > 0 {
      var init := s[..|s| - 1];
      FixedDigitsOfValue(init);
      var v := ValueOf(s);
      assert v / 10 == ValueOf(init);
      assert v % 10 == DigitValue(s[|s| - 1]);
      assert DigitChar(DigitValue(s[|s| - 1])) == s[|s| - 1];
      assert s == init + [s[|s| - 1]];
    }
  }

  lemma {:induction false} DecimalLength(n: nat, w: nat)
    requires 0 < w && n < Pow10(w)
    ensures |Decimal(n)| <= w
    decreases n
  {
    if n >= 10 {
      assert Pow10(1) == 10;
      DivBound(n, w);
      DecimalLength(n / 10, w - 1);
    }
  }

  lemma {:induction false} ZerosAreFixedZero(k: nat)
    ensures FixedDigits(0, k) == Zeros(k)
    decreases k
  {
    if k > 0 {
      ZerosAreFixedZero(k - 1);
      assert Zeros(k) == Zeros(k - 1) + ['0'];
    }
  }

  /** Zero-padding `str(n)` to width `w` gives exactly the last `w` digits of `n`. */
  lemma {:induction false} PadIsFixedDigits(n: nat, w: nat)
    requires 0 < w && n < Pow10(w)
    ensures Pad(n, w) == FixedDigits(n, w)
    decreases n
  {
    if n < 10 {
      ZerosAreFixedZero(w - 1);
      assert Pad(n, w) == Zeros(w - 1) + [DigitChar(n)];
    } else {
      assert Pow10(1) == 10;
      DivBound(n, w);
      DecimalLength(n / 10, w - 1);
      PadIsFixedDigits(n / 10, w - 1);
      var d := Decimal(n / 10);
      assert Decimal(n) == d + [DigitChar(n % 10)];
      assert Pad(n, w) == Pad(n / 10, w - 1) + [DigitChar(n % 10)];
    }
  }

  /** `str(n).zfill(w)` of a number with at most `w` digits is `w` digits long and denotes `n`. */
  lemma PadFacts(n: nat, w: nat)
    requires 0 < w && n < Pow10(w)
    ensures |Pad(n, w)| == w && AllDigits(Pad(n, w))
    ensures ValueOf(Pad(n, w)) == n
  {
    PadIsFixedDigits(n, w);
    ValueOfFixedDigits(n, w);
  }

  /** Reading a `w`-digit field and padding it back to `w` digits gives the field back. */
  lemma PadOfValue(s: string)
    requires 0 < |s| && AllDigits(s)
    ensures Pad(ValueOf(s), |s|) == s
  {
    ValueOfBound(s);
    PadIsFixedDigits(ValueOf(s), |s|);
    FixedDigitsOfValue(s);
  }

  /** Index of the first occurrence of `c` in `s`. */
  function IndexOf(s: string, c: char): (i: nat)
    requires c in s
    ensures i < |s| && s[i] == c && c !in s[..i]
  {
    if s[0] == c then 0
    else
      assert c in s[1..] by { var k :| 0 <= k < |s| && s[k] == c; assert s[1..][k - 1] == c; }
      1 + IndexOf(s[1..], c)
  }

  lemma IndexOfPrefix(a: string, b: string, c: char)
    requires c in a
    ensures c in a + b && IndexOf(a + b, c) == IndexOf(a, c)
  {
    var i := IndexOf(a, c);
    assert (a + b)[i] == c;
    assert (a + b)[..i] == a[..i];
  }

  /** Joins fields with `sep` between each pair: Python's `sep.join(fields)`. */
  function Join(fields: seq<string>, sep: char): string
    requires 0 < |fields|
  {
    if |fields| == 1 then fields[0] else fields[0] + [sep] + Join(fields[1..], sep)
  }

  /**
   * Python's `s.split(sep)` for a one-character separator: the maximal
   * separator-free pieces of `s`, always at least one.
   */
  function Split(s: string, sep: char): (fields: seq<string>)
    ensures 0 < |fields|
    ensures forall k :: 0 <= k < |fields| ==> sep !in fields[k]
    ensures Join(fields, sep) == s
    ensures sep in s <==> |fields| >= 2
    ensures fields[0] == if sep in s then s[..IndexOf(s, sep)] else s
    decreases |s|
  {
    if sep !in s then [s]
    else
      var i := IndexOf(s, sep);
      var rest := Split(s[i + 1..], sep);
      var fields := [s[..i]] + rest;
      assert fields[1..] == rest;
      assert s == s[..i] + [sep] + s[i + 1..];
      fields
  }

  /** Splitting at a first separator peels off the text before it as the first field. */
  lemma SplitCons(a: string, b: string, sep: char)
    requires sep !in a
    ensures Split(a + [sep] + b, sep) == [a] + Split(b, sep)
  {
    var s := a + [sep] + b;
    assert s[|a|] == sep;
    assert s[..|a|] == a;
    assert IndexOf(s, sep) == |a|;
    assert s[|a| + 1..] == b;
  }

  /** Splitting what `Join` produced gives the fields back, when none holds the separator. */
  lemma {:induction false} SplitJoin(fields: seq<string>, sep: char)
    requires 0 < |fields|
    requires forall k :: 0 <= k < |fields| ==> sep !in fields[k]
    ensures Split(Join(fields, sep), sep) == fields
    decreases |fields|
  {
    if |fields| > 1 {
      var rest := Join(fields[1..], sep);
      assert Join(fields, sep) == fields[0] + [sep] + rest;
      SplitCons(fields[0], rest, sep);
      SplitJoin(fields[1..], sep);
      assert fields == [fields[0]] + fields[1..];
    }
  }

  /** Python's `s.replace(c, "")`: `s` with every `c` taken out. */
  function RemoveChar(s: string, c: char): (r: string)
    ensures c !in r
    ensures c !in s ==> r == s
    ensures |r| <= |s|
    ensures |s| == 1 ==> r == (if s[0] == c then [] else s)
  {
    if |s| == 0 then []
    else (if s[0] == c then [] else [s[0]]) + RemoveChar(s[1..], c)
  }

  /**
   * Removing a character works piecewise: with the single-character case of
   * `RemoveChar`'s contract this says every other character is kept, in order.
   */
  lemma {:induction false} RemoveCharAppend(a: string, b: string, c: char)
    ensures RemoveChar(a + b, c) == RemoveChar(a, c) + RemoveChar(b, c)
    decreases |a|
  {
    if |a| > 0 {
      var h := if a[0] == c then [] else [a[0]];
      assert (a + b)[1..] == a[1..] + b;
      assert RemoveChar(a + b, c) == h + RemoveChar(a[1..] + b, c);
      assert RemoveChar(a, c) == h + RemoveChar(a[1..], c);
      RemoveCharAppend(a[1..], b, c);
    } else {
      assert a + b == b;
    }
  }

  /** Removing a character introduces no other character. */
  lemma {:induction false} RemoveCharKeepsAbsent(s: string, c: char, x: char)
    requires x !in s
    ensures x !in RemoveChar(s, c)
    decreases |s|
  {
    if |s| > 0 {
      RemoveCharKeepsAbsent(s[1..], c, x);
    }
  }

  function Concat(parts: seq<string>): string
  {
    if |parts| == 0 then [] else parts[0] + Concat(parts[1..])
  }

  lemma {:induction false} ConcatAppend(a: seq<string>, b: seq<string>)
    ensures Concat(a + b) == Concat(a) + Concat(b)
    decreases |a|
  {
    if |a| > 0 {
      assert (a + b)[1..] == a[1..] + b;
      ConcatAppend(a[1..], b);
    } else {
      assert a + b == b;
    }
  }

  /** Joining two pieces. */
  lemma ConcatTwo(a: string, b: string)
    ensures Concat([a, b]) == a + b
  {
    var none: seq<string> := [];
    assert [b][1..] == none;
    assert Concat([b]) == b + Concat(none) == b;
    assert [a, b][1..] == [b];
  }

  /** A complete line of a text file: non-empty, ends in `'\n'` and has no other newline. */
  predicate IsLine(l: string)
  {
    0 < |l| && l[|l| - 1] == '\n' && '\n' !in l[..|l| - 1]
  }

  /**
   * Python's `f.readlines()` on a file opened for reading: the file cut after
   * every newline, keeping the newline; the last piece may lack one.
   */
  function ReadLines(s: string): (lines: seq<string>)
    ensures Concat(lines) == s
    ensures forall k :: 0 <= k < |lines| ==> 0 < |lines[k]| && '\n' !in lines[k][..|lines[k]| - 1]
    ensures forall k :: 0 <= k < |lines| - 1 ==> IsLine(lines[k])
    decreases |s|
  {
    if '\n' !in s then (if s == [] then [] else [s])
    else
      var i := IndexOf(s, '\n');
      var rest := ReadLines(s[i + 1..]);
      var first := s[..i + 1];
      var lines := [first] + rest;
      assert lines[1..] == rest;
      assert first[..i] == s[..i];
      assert IsLine(first);
      assert forall k :: 1 <= k < |lines| ==> lines[k] == rest[k - 1];
      assert s == first + s[i + 1..];
      lines
  }

  /** A newline-free text followed by a newline is one complete line. */
  lemma LineOf(p: string)
    requires '\n' !in p
    ensures IsLine(p + "\n")
  {
    assert (p + "\n")[..|p|] == p;
  }

  /** Two complete lines are read back as those two lines. */
  lemma ReadLinesTwo(x: string, y: string)
    requires IsLine(x) && IsLine(y)
    ensures ReadLines(x + y) == [x, y]
  {
    var lines := [x, y];
    assert forall k :: 0 <= k < |lines| ==> IsLine(lines[k]);
    ReadLinesOfLines(lines);
    ConcatTwo(x, y);
  }

  /** Reading back a file made of complete lines gives exactly those lines. */
  lemma {:induction false} ReadLinesOfLines(lines: seq<string>)
    requires forall k :: 0 <= k < |lines| ==> IsLine(lines[k])
    ensures ReadLines(Concat(lines)) == lines
    decreases |lines|
  {
    if |lines| > 0 {
      var l := lines[0];
      var rest := Concat(lines[1..]);
      assert '\n' in l by { assert l[|l| - 1] == '\n'; }
      IndexOfPrefix(l, rest, '\n');
      assert IndexOf(l, '\n') == |l| - 1;
      var s := l + rest;
      assert s[..|l|] == l;
      assert s[|l|..] == rest;
      ReadLinesOfLines(lines[1..]);
      assert lines == [l] + lines[1..];
    }
  }
}

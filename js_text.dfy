/**
 * The JavaScript string built-ins the application leans on: white space as `\s`,
 * `String.prototype.trim` and `parseInt` see it, `split` on one character, `join`,
 * the decimal rendering of an integer in a template literal, `parseInt` with no radix,
 * and `length` counted in UTF-16 code units.
 */
module JsText {
  import opened Wrappers

  /** WhiteSpace and LineTerminator code points of ECMAScript (the `\s` class). */
  predicate IsSpace(c: char)
  {
    var n := c as int;
    n == 0x09 || n == 0x0A || n == 0x0B || n == 0x0C || n == 0x0D || n == 0x20 ||
    n == 0xA0 || n == 0x1680 || (0x2000 <= n <= 0x200A) || n == 0x2028 || n == 0x2029 ||
    n == 0x202F || n == 0x205F || n == 0x3000 || n == 0xFEFF
  }

  predicate AllSpaces(s: string)
  {
    forall k :: 0 <= k < |s| ==> IsSpace(s[k])
  }

  /** No white space at either end. */
  predicate IsTrimmed(s: string)
  {
    s == [] || (!IsSpace(s[0]) && !IsSpace(s[|s| - 1]))
  }

  /** `\s*` at k: the end of the run of white space that starts there. */
  function SkipSpaces(s: string, k: nat): (e: nat)
    requires k <= |s|
    ensures k <= e <= |s|
    ensures forall m :: k <= m < e ==> IsSpace(s[m])
    ensures e < |s| ==> !IsSpace(s[e])
    decreases |s| - k
  {
    if k < |s| && IsSpace(s[k]) then SkipSpaces(s, k + 1) else k
  }

  /** The start of the run of white space that ends at k. */
  function SkipSpacesBack(s: string, k: nat): (e: nat)
    requires k <= |s|
    ensures e <= k
    ensures forall m :: e <= m < k ==> IsSpace(s[m])
    ensures e > 0 ==> !IsSpace(s[e - 1])
  {
    if k > 0 && IsSpace(s[k - 1]) then SkipSpacesBack(s, k - 1) else k
  }

  /** White space from k up to e, followed by the end or by something else, is skipped
      exactly to e. */
  lemma {:induction false} SkipSpacesTo(s: string, k: nat, e: nat)
    requires k <= e <= |s|
    requires forall m :: k <= m < e ==> IsSpace(s[m])
    requires e < |s| ==> !IsSpace(s[e])
    ensures SkipSpaces(s, k) == e
    decreases e - k
  {
    if k < e {
      SkipSpacesTo(s, k + 1, e);
    }
  }

  lemma {:induction false} SkipSpacesBackTo(s: string, k: nat, e: nat)
    requires e <= k <= |s|
    requires forall m :: e <= m < k ==> IsSpace(s[m])
    requires e > 0 ==> !IsSpace(s[e - 1])
    ensures SkipSpacesBack(s, k) == e
    decreases k - e
  {
    if e < k {
      SkipSpacesBackTo(s, k - 1, e);
    }
  }

  lemma SpacesSlice(s: string, lo: nat, hi: nat)
    requires lo <= hi <= |s| && forall m :: lo <= m < hi ==> IsSpace(s[m])
    ensures AllSpaces(s[lo..hi])
  {
    var w := s[lo..hi];
    forall k | 0 <= k < |w| ensures IsSpace(w[k]) {
      assert w[k] == s[lo + k];
    }
  }

  /** Drops the leading white space. */
  function TrimStart(s: string): (r: string)
    ensures |r| <= |s| && r == s[|s| - |r|..]
    ensures AllSpaces(s[..|s| - |r|])
    ensures r == [] || !IsSpace(r[0])
  {
    var e := SkipSpaces(s, 0);
    SpacesSlice(s, 0, e);
    s[e..]
  }

  /** Drops the trailing white space. */
  function TrimEnd(s: string): (r: string)
    ensures |r| <= |s| && r == s[..|r|]
    ensures AllSpaces(s[|r|..])
    ensures r == [] || !IsSpace(r[|r| - 1])
  {
    var e := SkipSpacesBack(s, |s|);
    SpacesSlice(s, e, |s|);
    s[..e]
  }

  /** `s.trim()`. */
  function Trim(s: string): (r: string)
    ensures IsTrimmed(r)
    ensures r == [] <==> AllSpaces(s)
    ensures forall c :: c in r ==> c in s
  {
    var t := TrimStart(s);
    var r := TrimEnd(t);
    assert r == [] ==> AllSpaces(s) by {
      if r == [] {
        assert AllSpaces(t[|t|..]);
        assert s == s[..|s| - |t|] + t;
      }
    }
    assert forall c :: c in r ==> c in s by {
      forall c | c in r ensures c in s {
        var k :| 0 <= k < |r| && r[k] == c;
        assert t[k] == c;
        assert s[|s| - |t| + k] == c;
      }
    }
    r
  }

  lemma TrimStartPadded(a: string, t: string)
    requires AllSpaces(a) && (t == [] || !IsSpace(t[0]))
    ensures TrimStart(a + t) == t
  {
    var s := a + t;
    assert forall m :: 0 <= m < |a| ==> s[m] == a[m];
    SkipSpacesTo(s, 0, |a|);
    assert s[|a|..] == t;
  }

  lemma TrimEndPadded(t: string, b: string)
    requires AllSpaces(b) && (t == [] || !IsSpace(t[|t| - 1]))
    ensures TrimEnd(t + b) == t
  {
    var s := t + b;
    assert forall m :: |t| <= m < |s| ==> s[m] == b[m - |t|];
    SkipSpacesBackTo(s, |s|, |t|);
    assert s[..|t|] == t;
  }

  /** Trimming removes exactly the white space around a trimmed text, and nothing of it. */
  lemma TrimPadded(a: string, t: string, b: string)
    requires AllSpaces(a) && AllSpaces(b) && IsTrimmed(t)
    ensures Trim(a + t + b) == t
  {
    if t == [] {
      assert a + t + b == a + b;
      assert AllSpaces(a + b);
    } else {
      assert a + t + b == a + (t + b);
      TrimStartPadded(a, t + b);
      TrimEndPadded(t, b);
    }
  }

  /** Index of the first occurrence of `c`. */
  function IndexOf(s: string, c: char): (k: nat)
    requires c in s
    ensures k < |s| && s[k] == c && c !in s[..k]
  {
    if s[0] == c then 0
    else
      var k := 1 + IndexOf(s[1..], c);
      assert s[..k] == [s[0]] + s[1..][..k - 1];
      k
  }

  /** `parts.join(sep)`: the empty list joins to the empty string. */
  function Join(parts: seq<string>, sep: string): string
  {
    if |parts| == 0 then ""
    else if |parts| == 1 then parts[0]
    else parts[0] + sep + Join(parts[1..], sep)
  }

  /** `s.split(sep)` for a one-character separator: there is always at least one piece
      and no piece holds the separator. */
  function Split(s: string, sep: char): (r: seq<string>)
    ensures |r| >= 1
    ensures forall k :: 0 <= k < |r| ==> sep !in r[k]
    decreases |s|
  {
    if sep !in s then [s]
    else
      var k := IndexOf(s, sep);
      [s[..k]] + Split(s[k + 1..], sep)
  }

  /** Joining the pieces back with the separator gives the text that was split. */
  lemma {:induction false} JoinSplit(s: string, sep: char)
    ensures Join(Split(s, sep), [sep]) == s
    decreases |s|
  {
    if sep in s {
      var k := IndexOf(s, sep);
      var rest := Split(s[k + 1..], sep);
      JoinSplit(s[k + 1..], sep);
      assert Split(s, sep)[1..] == rest;
      assert s == s[..k] + [sep] + s[k + 1..];
    }
  }

  /** Splitting undoes joining when no part holds the separator. */
  lemma {:induction false} SplitJoin(parts: seq<string>, sep: char)
    requires |parts| >= 1
    requires forall k :: 0 <= k < |parts| ==> sep !in parts[k]
    ensures Split(Join(parts, [sep]), sep) == parts
  {
    if |parts| > 1 {
      var s := Join(parts, [sep]);
      var p := parts[0];
      var rest := Join(parts[1..], [sep]);
      assert s == p + [sep] + rest;
      assert s[..|p|] == p && s[|p|] == sep;
      assert s[|p| + 1..] == rest;
      SplitAtFirst(s, sep, |p|);
      SplitJoin(parts[1..], sep);
      assert parts == [p] + parts[1..];
    }
  }

  function Last<T>(s: seq<T>): T
    requires |s| >= 1
  {
    s[|s| - 1]
  }

  /** `last` is what follows the last separator of `s`, or all of `s` when it has none. */
  predicate IsLastPiece(s: string, sep: char, last: string)
  {
    sep !in last &&
    if sep in s then |last| < |s| && s == s[..|s| - |last| - 1] + [sep] + last else last == s
  }

  lemma LastPieceAfterFirst(s: string, sep: char, k: nat, last: string)
    requires k < |s| && s[k] == sep
    requires IsLastPiece(s[k + 1..], sep, last)
    ensures IsLastPiece(s, sep, last)
  {
    var t := s[k + 1..];
    assert sep in s;
    assert s == s[..k + 1] + t;
    if sep in t {
      var b := s[..k + 1] + t[..|t| - |last| - 1];
      assert s == b + [sep] + last;
      assert s[..|s| - |last| - 1] == b;
    } else {
      assert s[..|s| - |last| - 1] == s[..k];
    }
  }

  /** The last piece of a split is the text after the last separator, or all of the text
      when there is no separator. */
  lemma {:induction false} SplitLast(s: string, sep: char)
    ensures IsLastPiece(s, sep, Last(Split(s, sep)))
    decreases |s|
  {
    if sep in s {
      var k := IndexOf(s, sep);
      SplitAtFirst(s, sep, k);
      var pt := Split(s[k + 1..], sep);
      LastOfCons(s[..k], pt);
      SplitLast(s[k + 1..], sep);
      LastPieceAfterFirst(s, sep, k, Last(pt));
    }
  }

  lemma LastOfCons<T>(x: T, s: seq<T>)
    requires |s| >= 1
    ensures Last([x] + s) == Last(s)
  {
  }

  /** Split peels off the text before the first separator. */
  lemma SplitAtFirst(s: string, sep: char, k: nat)
    requires k < |s| && s[k] == sep && sep !in s[..k]
    ensures Split(s, sep) == [s[..k]] + Split(s[k + 1..], sep)
  {
    assert sep in s;
    assert IndexOf(s, sep) == k;
  }

  lemma ConcatAssoc<T>(x: seq<T>, y: seq<T>, z: seq<T>)
    ensures x + (y + z) == (x + y) + z
  {
  }

  /** Splitting at a separator splits the two sides independently. */
  lemma {:induction false} SplitConcat(a: string, b: string, sep: char)
    ensures Split(a + [sep] + b, sep) == Split(a, sep) + Split(b, sep)
    decreases |a|
  {
    var s := a + [sep] + b;
    if sep in a {
      var k := IndexOf(a, sep);
      var a' := a[k + 1..];
      assert s[..k] == a[..k];
      assert s[k + 1..] == a' + [sep] + b;
      SplitAtFirst(s, sep, k);
      SplitAtFirst(a, sep, k);
      SplitConcat(a', b, sep);
      var head, left, right := [a[..k]], Split(a', sep), Split(b, sep);
      assert Split(s, sep) == head + (left + right);
      assert Split(a, sep) == head + left;
      ConcatAssoc(head, left, right);
    } else {
      assert s[..|a|] == a;
      assert s[|a| + 1..] == b;
      SplitAtFirst(s, sep, |a|);
    }
  }

  // ---- digits and integers ----

  /** Value of a digit in radix 36 notation; 36 for any other character. */
  function DigitValue(c: char): (d: nat)
    ensures d <= 36
  {
    if '0' <= c <= '9' then c as int - '0' as int
    else if 'a' <= c <= 'z' then c as int - 'a' as int + 10
    else if 'A' <= c <= 'Z' then c as int - 'A' as int + 10
    else 36
  }

  predicate IsDigitIn(c: char, radix: nat)
  {
    DigitValue(c) < radix
  }

  predicate AllDigitsIn(s: string, radix: nat)
  {
    forall k :: 0 <= k < |s| ==> IsDigitIn(s[k], radix)
  }

  /** The number a string of digits denotes in the given radix. */
  function ValueIn(s: string, radix: nat): nat
    requires AllDigitsIn(s, radix)
  {
    if s == [] then 0 else ValueIn(s[..|s| - 1], radix) * radix + DigitValue(s[|s| - 1])
  }

  function DecimalDigit(d: nat): (c: char)
    requires d < 10
    ensures IsDigitIn(c, 10) && DigitValue(c) == d
  {
    ('0' as int + d) as char
  }

  /** How a non-negative integer is written in a template literal. */
  function NatToDecimal(n: nat): (r: string)
    ensures |r| >= 1 && AllDigitsIn(r, 10)
    ensures ValueIn(r, 10) == n
    ensures r[0] == '0' ==> r == "0"
  {
    if n < 10 then [DecimalDigit(n)]
    else
      var r := NatToDecimal(n / 10) + [DecimalDigit(n % 10)];
      assert r[..|r| - 1] == NatToDecimal(n / 10);
      r
  }

  /** How an integer is written in a template literal. */
  function IntToDecimal(i: int): string
  {
    if i < 0 then "-" + NatToDecimal(-i) else NatToDecimal(i)
  }

  /** The longest prefix made of digits of the radix. */
  function DigitPrefix(s: string, radix: nat): (r: string)
    ensures |r| <= |s| && r == s[..|r|] && AllDigitsIn(r, radix)
    ensures |r| == |s| || !IsDigitIn(s[|r|], radix)
  {
    if s != [] && IsDigitIn(s[0], radix) then [s[0]] + DigitPrefix(s[1..], radix) else []
  }

  /** `parseInt(s)` with no radix: leading white space, an optional sign, a `0x` or `0X`
      prefix selecting radix 16, then the longest run of digits. `None` is `NaN`. */
  function ParseInt(s: string): Option<int>
  {
    var t := TrimStart(s);
    var negative := t != [] && t[0] == '-';
    var u := if t != [] && (t[0] == '-' || t[0] == '+') then t[1..] else t;
    var hex := |u| >= 2 && u[0] == '0' && (u[1] == 'x' || u[1] == 'X');
    var radix := if hex then 16 else 10;
    var z := DigitPrefix(if hex then u[2..] else u, radix);
    var v: int := if z == [] then 0 else ValueIn(z, radix);
    if z == [] then None else if negative then Some(-v) else Some(v)
  }

  lemma {:induction false} DigitPrefixWhole(d: string, radix: nat)
    requires AllDigitsIn(d, radix)
    ensures DigitPrefix(d, radix) == d
  {
    if d != [] {
      assert AllDigitsIn(d[1..], radix) by {
        forall k | 0 <= k < |d| - 1 ensures IsDigitIn(d[1..][k], radix) {
          assert d[1..][k] == d[k + 1];
        }
      }
      DigitPrefixWhole(d[1..], radix);
      assert d == [d[0]] + d[1..];
    }
  }

  /** Reading back a rendered integer gives the integer. */
  lemma ParseIntDecimal(i: int)
    ensures ParseInt(IntToDecimal(i)) == Some(i)
  {
    var s := IntToDecimal(i);
    var n: nat := if i < 0 then -i else i;
    var d := NatToDecimal(n);
    assert IsDigitIn(d[0], 10);
    assert s[0] == '-' || s[0] == d[0];
    SkipSpacesTo(s, 0, 0);
    assert TrimStart(s) == s;
    DigitPrefixWhole(d, 10);
    if i < 0 {
      assert s[1..] == d;
    }
  }

  /** `s.length`: code points above U+FFFF take two UTF-16 code units. */
  function Utf16Length(s: string): (n: nat)
    ensures |s| <= n <= 2 * |s|
  {
    if s == [] then 0 else (if s[0] as int > 0xFFFF then 2 else 1) + Utf16Length(s[1..])
  }
}

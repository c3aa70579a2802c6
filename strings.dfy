/** The few Python `str` operations the library relies on: split, join, replace, and int <-> str. */
module Strings {
  import opened Wrappers

  /** `s.split(sep)` for a one-character separator: never empty, no piece contains `sep`. */
  function Split(s: string, sep: char): (pieces: seq<string>)
    ensures |pieces| >= 1
    ensures forall i :: 0 <= i < |pieces| ==> sep !in pieces[i]
  {
    if s == [] then [""]
    else
      var rest := Split(s[1..], sep);
      if s[0] == sep then [""] + rest
      else [[s[0]] + rest[0]] + rest[1..]
  }

  /** `sep.join(xs)`. */
  function Join(xs: seq<string>, sep: string): string
  {
    if |xs| == 0 then ""
    else if |xs| == 1 then xs[0]
    else xs[0] + sep + Join(xs[1..], sep)
  }

  /** `s.replace(c, with)` for a one-character pattern. */
  function ReplaceAll(s: string, c: char, with: string): (r: string)
    ensures c !in with ==> c !in r
    ensures |with| == 1 ==> |r| == |s|
  {
    if s == [] then ""
    else (if s[0] == c then with else [s[0]]) + ReplaceAll(s[1..], c, with)
  }

  /** The characters of `s`, each as a one-character string: what iterating a `str` yields. */
  function Characters(s: string): (cs: seq<string>)
    ensures |cs| == |s| && forall i :: 0 <= i < |s| ==> cs[i] == [s[i]]
  {
    seq(|s|, i requires 0 <= i < |s| => [s[i]])
  }

  lemma {:induction false} SplitWithoutSeparator(s: string, sep: char)
    requires sep !in s
    ensures Split(s, sep) == [s]
  {
    if s != [] {
      SplitWithoutSeparator(s[1..], sep);
      assert [s[0]] + s[1..] == s;
    }
  }

  lemma {:induction false} SplitAtSeparator(a: string, sep: char, b: string)
    requires sep !in a
    ensures Split(a + [sep] + b, sep) == [a] + Split(b, sep)
  {
    if a == [] {
      assert a + [sep] + b == [sep] + b;
      assert ([sep] + b)[1..] == b;
    } else {
      assert (a + [sep] + b)[1..] == a[1..] + [sep] + b;
      SplitAtSeparator(a[1..], sep, b);
      assert [a[0]] + a[1..] == a;
    }
  }

  /** Splitting a join recovers the pieces, when no piece contains the separator. */
  lemma {:induction false} SplitJoin(xs: seq<string>, sep: char)
    requires |xs| >= 1
    requires forall i :: 0 <= i < |xs| ==> sep !in xs[i]
    ensures Split(Join(xs, [sep]), sep) == xs
  {
    if |xs| == 1 {
      SplitWithoutSeparator(xs[0], sep);
    } else {
      SplitJoin(xs[1..], sep);
      SplitAtSeparator(xs[0], sep, Join(xs[1..], [sep]));
      assert [xs[0]] + xs[1..] == xs;
    }
  }

  lemma JoinConsHead(c: char, ys: seq<string>, sep: string)
    requires |ys| >= 1
    ensures Join([[c] + ys[0]] + ys[1..], sep) == [c] + Join(ys, sep)
  {
    var zs := [[c] + ys[0]] + ys[1..];
    assert zs[1..] == ys[1..];
  }

  /** Joining the pieces of a split recovers the text. */
  lemma {:induction false} JoinSplit(s: string, sep: char)
    ensures Join(Split(s, sep), [sep]) == s
  {
    if s != [] {
      var rest := Split(s[1..], sep);
      JoinSplit(s[1..], sep);
      if s[0] == sep {
        assert ([""] + rest)[1..] == rest;
        assert [s[0]] + s[1..] == s;
      } else {
        JoinConsHead(s[0], rest, [sep]);
        assert [s[0]] + s[1..] == s;
      }
    }
  }

  lemma {:induction false} ReplaceAllAppend(a: string, b: string, c: char, with: string)
    ensures ReplaceAll(a + b, c, with) == ReplaceAll(a, c, with) + ReplaceAll(b, c, with)
  {
    if a == [] {
      assert a + b == b;
    } else {
      assert (a + b)[0] == a[0];
      assert (a + b)[1..] == a[1..] + b;
      ReplaceAllAppend(a[1..], b, c, with);
    }
  }

  predicate IsDigit(c: char) {
    '0' <= c <= '9'
  }

  predicate AllDigits(s: string) {
    forall i :: 0 <= i < |s| ==> IsDigit(s[i])
  }

  function DigitChar(d: nat): (c: char)
    requires d < 10
    ensures IsDigit(c)
  {
    ('0' as int + d) as char
  }

  /** The value of a string of decimal digits. */
  function DigitsValue(s: string): nat
    requires AllDigits(s)
  {
    if s == [] then 0
    else DigitsValue(s[..|s| - 1]) * 10 + (s[|s| - 1] as int - '0' as int)
  }

  /** `str(n)` for a natural number: shortest decimal form. */
  function NatToString(n: nat): (s: string)
    ensures |s| >= 1 && AllDigits(s)
  {
    if n < 10 then [DigitChar(n)]
    else NatToString(n / 10) + [DigitChar(n % 10)]
  }

  /** `str(i)`. */
  function IntToString(i: int): string
  {
    if i < 0 then "-" + NatToString(-i) else NatToString(i)
  }

  /** `int(s)` for an optionally signed run of ASCII digits; None where `int()` raises ValueError. */
  function ParseInt(s: string): Option<int>
  {
    if |s| >= 2 && (s[0] == '-' || s[0] == '+') && AllDigits(s[1..]) then
      var magnitude: int := DigitsValue(s[1..]);
      Some(if s[0] == '-' then -magnitude else magnitude)
    else if |s| >= 1 && AllDigits(s) then
      Some(DigitsValue(s))
    else
      None
  }

  /** The position of the first `c` in `s`. */
  function FirstIndex(s: string, c: char): (k: nat)
    requires c in s
    ensures k < |s| && s[k] == c && c !in s[..k]
  {
    if s[0] == c then 0
    else
      var k := FirstIndex(s[1..], c);
      assert s[..k + 1] == [s[0]] + s[1..][..k];
      k + 1
  }

  /** ASCII letters lower-cased, every other character kept. */
  function Lower(s: string): (r: string)
    ensures |r| == |s|
    ensures forall i :: 0 <= i < |s| ==> r[i] == (if 'A' <= s[i] <= 'Z' then (s[i] as int + 32) as char else s[i])
  {
    seq(|s|, i requires 0 <= i < |s| => if 'A' <= s[i] <= 'Z' then (s[i] as int + 32) as char else s[i])
  }

  /** Digits with at most one '.', and at least one digit: "12", "1.5", "1.", ".5". */
  predicate DecimalText(m: string)
  {
    if '.' in m then
      var k := FirstIndex(m, '.');
      |m| >= 2 && AllDigits(m[..k]) && AllDigits(m[k + 1..])
    else |m| >= 1 && AllDigits(m)
  }

  /** An unsigned, lower-cased `float()` text: a decimal with an optional signed exponent, infinity or nan. */
  predicate UnsignedFloatText(u: string)
  {
    || u in {"inf", "infinity", "nan"}
    || if 'e' in u then
         var k := FirstIndex(u, 'e');
         DecimalText(u[..k]) && ParseInt(u[k + 1..]).Some?
       else DecimalText(u)
  }

  /**
   * The texts `float()` accepts: an optional sign, then digits with an optional '.' and an
   * optional exponent ('e' or 'E', an optional sign, digits), or "inf", "infinity" or "nan"
   * in any case. Elsewhere `float()` raises ValueError.
   */
  predicate FloatText(t: string)
  {
    var u := Lower(t);
    if |u| >= 1 && (u[0] == '+' || u[0] == '-') then UnsignedFloatText(u[1..]) else UnsignedFloatText(u)
  }

  /** Every text `int()` accepts, `float()` accepts as well. */
  lemma IntTextIsFloatText(s: string)
    requires ParseInt(s).Some?
    ensures FloatText(s)
  {
    var u := Lower(s);
    if |s| >= 2 && (s[0] == '-' || s[0] == '+') && AllDigits(s[1..]) {
      assert u[0] == s[0] && u[1..] == s[1..];
      assert '.' !in s[1..] && 'e' !in s[1..];
      assert s[1..] !in {"inf", "infinity", "nan"} by {
        assert IsDigit(s[1]);
      }
    } else {
      assert u == s;
      assert IsDigit(s[0]);
      assert '.' !in s && 'e' !in s;
      assert s !in {"inf", "infinity", "nan"};
    }
  }

  /** Lower-casing a text without upper-case letters changes nothing. */
  lemma LowerKeeps(s: string)
    requires forall i :: 0 <= i < |s| ==> !('A' <= s[i] <= 'Z')
    ensures Lower(s) == s
  {
  }

  /** In `a + [c] + b` with no `c` in `a`, the first `c` is the one between them. */
  lemma FirstIndexBetween(a: string, c: char, b: string)
    requires c !in a
    ensures FirstIndex(a + [c] + b, c) == |a|
  {
    var s := a + [c] + b;
    var k := FirstIndex(s, c);
    assert s[|a|] == c;
  }

  /** Digits, a point and digits make a `float()` text. */
  lemma DigitsDecimalText(whole: string, fraction: string)
    requires |whole| >= 1 && AllDigits(whole) && AllDigits(fraction)
    ensures FloatText(whole + "." + fraction)
  {
    var t := whole + "." + fraction;
    assert forall i :: 0 <= i < |t| ==> IsDigit(t[i]) || t[i] == '.' by {
      forall i | 0 <= i < |t| ensures IsDigit(t[i]) || t[i] == '.' {
        if i < |whole| { assert t[i] == whole[i]; }
        else if i > |whole| { assert t[i] == fraction[i - |whole| - 1]; }
      }
    }
    LowerKeeps(t);
    FirstIndexBetween(whole, '.', fraction);
    assert t[..|whole|] == whole && t[|whole| + 1..] == fraction;
    assert 'e' !in t;
    assert IsDigit(t[0]);
  }

  /** A decimal comma is not part of a `float()` text, and neither is a word or a bare point. */
  lemma FloatTextRejects()
    ensures !FloatText("1,5")
    ensures !FloatText("abc")
    ensures !FloatText(".")
  {
    assert Lower("1,5") == "1,5";
    assert '.' !in "1,5" && 'e' !in "1,5" && !IsDigit("1,5"[1]);
    assert Lower("abc") == "abc";
    assert "abc"[..0] == "";
    assert Lower(".") == ".";
  }

  /** A decimal point is a `float()` text. */
  lemma FloatTextAccepts()
    ensures FloatText("1.5")
  {
    assert Lower("1.5") == "1.5" && "1.5"[..1] == "1" && "1.5"[2..] == "5";
  }

  /** A decimal followed by 'e' and an integer text is a `float()` text. */
  lemma ExponentFloatText(m: string, x: string)
    requires DecimalText(m) && 'e' !in m && ParseInt(x).Some?
    ensures UnsignedFloatText(m + "e" + x)
  {
    var u := m + "e" + x;
    var k := FirstIndex(u, 'e');
    assert u[..k] == m && u[k + 1..] == x;
  }

  lemma {:induction false} DigitsOfNat(n: nat)
    ensures DigitsValue(NatToString(n)) == n
  {
    var s := NatToString(n);
    if n >= 10 {
      DigitsOfNat(n / 10);
      assert s[..|s| - 1] == NatToString(n / 10);
    }
  }

  /** `int(str(i)) == i`. */
  lemma ParseIntToString(i: int)
    ensures ParseInt(IntToString(i)) == Some(i)
  {
    var s := IntToString(i);
    if i < 0 {
      var m := NatToString(-i);
      DigitsOfNat(-i);
      assert s == "-" + m && s[1..] == m;
      assert |s| >= 2 && s[0] == '-' && AllDigits(s[1..]);
    } else {
      DigitsOfNat(i);
      assert IsDigit(s[0]);
      assert !(s[0] == '-' || s[0] == '+');
    }
  }

  /** No decimal rendering of an integer contains `sep` unless `sep` is a digit or '-'. */
  lemma IntToStringHasNo(i: int, sep: char)
    requires !IsDigit(sep) && sep != '-'
    ensures sep !in IntToString(i)
  {
    var s := IntToString(i);
    if i < 0 {
      assert s == "-" + NatToString(-i);
      assert forall k :: 1 <= k < |s| ==> s[k] == NatToString(-i)[k - 1];
    }
  }

  /** Joining one more piece appends the separator and the piece. */
  lemma {:induction false} JoinSnoc(xs: seq<string>, x: string, sep: string)
    requires |xs| >= 1
    ensures Join(xs + [x], sep) == Join(xs, sep) + sep + x
  {
    if |xs| == 1 {
      assert (xs + [x])[1..] == [x];
    } else {
      assert (xs + [x])[1..] == xs[1..] + [x];
      JoinSnoc(xs[1..], x, sep);
    }
  }

  /** One digit exactly below ten. */
  lemma NatToStringSingleDigit(n: nat)
    ensures (|NatToString(n)| == 1) == (n < 10)
  {
  }

  /** Replacing a character that does not occur changes nothing. */
  lemma {:induction false} ReplaceAllAbsent(s: string, c: char, with: string)
    requires c !in s
    ensures ReplaceAll(s, c, with) == s
  {
    if s != [] {
      ReplaceAllAbsent(s[1..], c, with);
      assert [s[0]] + s[1..] == s;
    }
  }

  lemma ReplaceAllSingle(x: char, c: char, with: string)
    ensures ReplaceAll([x], c, with) == if x == c then with else [x]
  {
    assert [x][1..] == [];
  }

  /** `s[:-1]`: a text without its last character; the empty text stays empty. */
  function DropLast(s: string): string
  {
    if |s| >= 1 then s[..|s| - 1] else ""
  }

  /** `x1 + "," + x2 + "," + ... + xn + ","`: what the loop accumulates. */
  function Terminated(xs: seq<string>): string
    decreases |xs|
  {
    if xs == [] then "" else Terminated(xs[..|xs| - 1]) + xs[|xs| - 1] + ","
  }

  /** Cutting the last comma off the accumulated text leaves the comma-join of the pieces. */
  lemma {:induction false} TerminatedJoin(xs: seq<string>)
    ensures DropLast(Terminated(xs)) == Join(xs, ",")
    ensures xs != [] ==> Terminated(xs) == Join(xs, ",") + ","
    decreases |xs|
  {
    if xs != [] {
      var front := xs[..|xs| - 1];
      var last := xs[|xs| - 1];
      TerminatedJoin(front);
      assert xs == front + [last];
      if front == [] {
        assert Terminated(xs) == last + ",";
        assert Join(xs, ",") == last;
      } else {
        JoinSnoc(front, last, ",");
        assert Terminated(xs) == Join(front, ",") + "," + last + ",";
      }
    }
  }
}

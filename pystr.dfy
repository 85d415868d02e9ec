/**
 * The few Python `str` operations the pipeline relies on: `split` with a
 * one-character separator, `sep.join`, `endswith`, and the decimal text of
 * an `int` that an f-string produces.
 */
module PyStr {
  import opened Unicode

  const Minus: CodePoint := 0x2D
  const Zero: CodePoint := 0x30

  /** `s.split(sep)`: the pieces between separators, at least one, none holding `sep`. */
  function Split(s: Text, sep: CodePoint): (r: seq<Text>)
    ensures |r| >= 1
    ensures forall k :: 0 <= k < |r| ==> sep !in r[k]
  {
    if s == [] then [[]]
    else
      var rest := Split(s[1..], sep);
      if s[0] == sep then [[]] + rest
      else [[s[0]] + rest[0]] + rest[1..]
  }

  /** `sep.join(pieces)`. */
  function JoinWith(pieces: seq<Text>, sep: CodePoint): Text {
    if |pieces| == 0 then []
    else if |pieces| == 1 then pieces[0]
    else pieces[0] + [sep] + JoinWith(pieces[1..], sep)
  }

  /** Joining the pieces of a split gives back the text. */
  lemma {:induction false} JoinSplit(s: Text, sep: CodePoint)
    ensures JoinWith(Split(s, sep), sep) == s
  {
    if s != [] {
      var rest := Split(s[1..], sep);
      JoinSplit(s[1..], sep);
      if s[0] == sep {
        assert Split(s, sep) == [[]] + rest;
      } else {
        var r := Split(s, sep);
        assert r == [[s[0]] + rest[0]] + rest[1..];
        if |rest| == 1 {
          assert JoinWith(r, sep) == [s[0]] + rest[0];
        } else {
          assert rest == [rest[0]] + rest[1..];
          assert JoinWith(rest, sep) == rest[0] + [sep] + JoinWith(rest[1..], sep);
          assert r[1..] == rest[1..];
        }
      }
    }
  }

  /** A text without the separator splits into itself alone. */
  lemma {:induction false} SplitWithoutSep(s: Text, sep: CodePoint)
    requires sep !in s
    ensures Split(s, sep) == [s]
  {
    if s != [] {
      assert s[0] != sep && sep !in s[1..];
      SplitWithoutSep(s[1..], sep);
      assert [s[0]] + s[1..] == s;
    }
  }

  /** Splitting at one occurrence of the separator splits the two sides independently. */
  lemma {:induction false} SplitAround(x: Text, sep: CodePoint, y: Text)
    ensures Split(x + [sep] + y, sep) == Split(x, sep) + Split(y, sep)
  {
    var s := x + [sep] + y;
    if x == [] {
      assert s[0] == sep && s[1..] == y;
    } else {
      assert s[0] == x[0] && s[1..] == x[1..] + [sep] + y;
      SplitAround(x[1..], sep, y);
      var rest := Split(x[1..], sep);
      if x[0] != sep {
        assert (rest + Split(y, sep))[0] == rest[0];
        assert (rest + Split(y, sep))[1..] == rest[1..] + Split(y, sep);
      }
    }
  }

  /** Splitting a join of separator-free pieces gives back the pieces. */
  lemma {:induction false} SplitJoin(pieces: seq<Text>, sep: CodePoint)
    requires |pieces| >= 1
    requires forall k :: 0 <= k < |pieces| ==> sep !in pieces[k]
    ensures Split(JoinWith(pieces, sep), sep) == pieces
  {
    if |pieces| == 1 {
      SplitWithoutSep(pieces[0], sep);
    } else {
      SplitJoin(pieces[1..], sep);
      SplitWithoutSep(pieces[0], sep);
      SplitAround(pieces[0], sep, JoinWith(pieces[1..], sep));
    }
  }

  /** `s.endswith(suffix)`. */
  predicate EndsWith(s: Text, suffix: Text) {
    |suffix| <= |s| && s[|s| - |suffix|..] == suffix
  }

  /** `p.rfind(c)`: the last index of `c` in `p`, or -1. */
  function LastIndexOf(p: Text, c: CodePoint): (r: int)
    ensures -1 <= r < |p|
    ensures r >= 0 ==> p[r] == c
    ensures forall j :: r < j < |p| ==> p[j] != c
  {
    if p == [] then -1
    else if p[|p| - 1] == c then |p| - 1
    else LastIndexOf(p[..|p| - 1], c)
  }

  predicate IsDigit(c: CodePoint) {
    Zero <= c < Zero + 10
  }

  predicate AllDigits(s: Text) {
    forall k :: 0 <= k < |s| ==> IsDigit(s[k])
  }

  /** The decimal digits of a natural number, most significant first, without leading zeros. */
  function NatText(n: nat): (r: Text)
    ensures |r| >= 1 && AllDigits(r)
    ensures n != 0 ==> r[0] != Zero
  {
    if n < 10 then [Zero + n] else NatText(n / 10) + [Zero + n % 10]
  }

  /** The value of a digit string. */
  function ParseNat(ds: Text): nat
    requires AllDigits(ds)
  {
    if ds == [] then 0 else ParseNat(ds[..|ds| - 1]) * 10 + (ds[|ds| - 1] - Zero)
  }

  lemma {:induction false} ParseNatText(n: nat)
    ensures ParseNat(NatText(n)) == n
  {
    if n >= 10 {
      ParseNatText(n / 10);
      var ds := NatText(n);
      assert ds[..|ds| - 1] == NatText(n / 10);
    }
  }

  /** `str(n)` of a Python int, which is also what an f-string writes for it. */
  function IntText(n: int): (r: Text)
    ensures |r| >= 1
    ensures forall k :: 0 <= k < |r| ==> IsDigit(r[k]) || (k == 0 && r[k] == Minus)
  {
    if n < 0 then [Minus] + NatText(-n) else NatText(n)
  }

  /** Different integers are written differently. */
  lemma IntTextInjective(a: int, b: int)
    requires IntText(a) == IntText(b)
    ensures a == b
  {
    if a < 0 && b < 0 {
      assert IntText(a)[1..] == NatText(-a) && IntText(b)[1..] == NatText(-b);
      ParseNatText(-a);
      ParseNatText(-b);
    } else if a >= 0 && b >= 0 {
      ParseNatText(a);
      ParseNatText(b);
    }
  }
}

/** The few Python string operations the core relies on, written out over
    `seq<char>`: `str.split`, `str.join`, `str.rfind`, `str.rstrip` and `str(n)`
    for a natural number. */
module Strings {

  /** Python's `s.split(sep)`: the fields between occurrences of `sep`, empty
      fields included, so there is always at least one field. */
  function Split(s: string, sep: char): (r: seq<string>)
    ensures |r| > 0
    decreases |s|
  {
    if s == [] then [""]
    else
      var r := Split(s[..|s| - 1], sep);
      var c := s[|s| - 1];
      if c == sep then r + [""] else r[..|r| - 1] + [r[|r| - 1] + [c]]
  }

  /** No field of `s.split(sep)` holds `sep`. */
  lemma {:induction false} SplitFields(s: string, sep: char)
    ensures forall i | 0 <= i < |Split(s, sep)| :: sep !in Split(s, sep)[i]
    decreases |s|
  {
    if s != [] {
      var r := Split(s[..|s| - 1], sep);
      SplitFields(s[..|s| - 1], sep);
      var c := s[|s| - 1];
      if c != sep {
        assert sep !in r[|r| - 1];
        assert sep !in r[|r| - 1] + [c];
      }
    }
  }

  /** Python's `sep.join(xs)`. */
  function Join(xs: seq<string>, sep: string): string
    decreases |xs|
  {
    if xs == [] then ""
    else if |xs| == 1 then xs[0]
    else Join(xs[..|xs| - 1], sep) + sep + xs[|xs| - 1]
  }

  /** Every element of `xs` preceded by `sep`: what `Join` adds for elements
      appended to a non-empty list. */
  function Prefixed(xs: seq<string>, sep: string): string
    decreases |xs|
  {
    if xs == [] then "" else Prefixed(xs[..|xs| - 1], sep) + sep + xs[|xs| - 1]
  }

  /** Python's `s.rfind(c)`: the last index holding `c`, or -1. */
  function RFind(s: string, c: char): (i: int)
    ensures -1 <= i < |s|
    ensures i >= 0 ==> s[i] == c
    ensures forall j | i < j < |s| :: s[j] != c
    decreases |s|
  {
    if s == [] then -1
    else if s[|s| - 1] == c then |s| - 1
    else RFind(s[..|s| - 1], c)
  }

  /** Python's `s.rstrip(c)` for a single character `c`. */
  function RStrip(s: string, c: char): (r: string)
    ensures |r| <= |s| && r == s[..|r|]
    ensures r == [] || r[|r| - 1] != c
    ensures forall j | |r| <= j < |s| :: s[j] == c
    decreases |s|
  {
    if s != [] && s[|s| - 1] == c then RStrip(s[..|s| - 1], c) else s
  }

  function Digit(d: nat): (c: char)
    requires d < 10
    ensures '0' <= c <= '9'
  {
    (('0' as int) + d) as char
  }

  predicate IsDigits(s: string) {
    forall i | 0 <= i < |s| :: '0' <= s[i] <= '9'
  }

  /** Python's `str(n)` for a natural number: its decimal digits. */
  function Decimal(n: nat): (r: string)
    ensures |r| > 0 && IsDigits(r)
    decreases n
  {
    if n < 10 then [Digit(n)] else Decimal(n / 10) + [Digit(n % 10)]
  }

  function Pow10(k: nat): (r: nat)
    ensures r >= 1
  {
    if k == 0 then 1 else 10 * Pow10(k - 1)
  }

  /** A number of at least `10^k` has more than `k` digits. */
  lemma {:induction false} DecimalLength(n: nat, k: nat)
    requires n >= Pow10(k)
    ensures |Decimal(n)| > k
    decreases k
  {
    if k > 0 {
      assert n >= 10 * Pow10(k - 1);
      assert n / 10 >= Pow10(k - 1);
      DecimalLength(n / 10, k - 1);
    }
  }

  /** `Split` of a string with one more character. */
  lemma SplitSnoc(u: string, c: char, sep: char)
    ensures var r := Split(u, sep);
      Split(u + [c], sep) == if c == sep then r + [""] else r[..|r| - 1] + [r[|r| - 1] + [c]]
  {
    assert (u + [c])[..|u + [c]| - 1] == u;
  }

  /** One more character other than the separator extends the last field. */
  lemma SplitSnocField(u: string, c: char, sep: char)
    requires c != sep
    ensures var r := Split(u, sep);
      Split(u + [c], sep) == r[..|r| - 1] + [r[|r| - 1] + [c]]
  {
    SplitSnoc(u, c, sep);
  }

  /** Appending characters that hold no separator extends the last field. */
  lemma {:induction false} SplitAppend(s: string, t: string, sep: char)
    requires sep !in t
    ensures var r := Split(s, sep);
      Split(s + t, sep) == r[..|r| - 1] + [r[|r| - 1] + t]
    decreases |t|
  {
    var r := Split(s, sep);
    if t == [] {
      assert s + t == s;
      assert r[|r| - 1] + t == r[|r| - 1];
      assert r == r[..|r| - 1] + [r[|r| - 1]];
    } else {
      var t', c := t[..|t| - 1], t[|t| - 1];
      var u := s + t';
      assert c in t;
      SplitAppend(s, t', sep);
      SplitSnocField(u, c, sep);
      ExtendLast(Split(u, sep), Split(u + [c], sep), r[..|r| - 1], r[|r| - 1] + t', c);
      SnocAssoc(s, t);
      SnocAssoc(r[|r| - 1], t);
    }
  }

  /** Putting `last` into the empty last element of `init + [""]`. */
  lemma ReplaceLast(r: seq<string>, init: seq<string>, last: string)
    requires r == init + [""]
    ensures r[..|r| - 1] + [r[|r| - 1] + last] == init + [last]
  {
    assert r[..|r| - 1] == init;
    assert "" + last == last;
  }

  /** A non-empty list is its elements but the last, then the last. */
  lemma LastSplit(xs: seq<string>)
    requires |xs| > 0
    ensures xs == xs[..|xs| - 1] + [xs[|xs| - 1]]
  {
  }

  /** `s + t` is `s` plus all but the last character of `t`, plus that one. */
  lemma SnocAssoc(s: string, t: string)
    requires |t| > 0
    ensures s + t == (s + t[..|t| - 1]) + [t[|t| - 1]]
  {
    assert t == t[..|t| - 1] + [t[|t| - 1]];
  }

  /** Extending the last element of `init + [x]` by `c`. */
  lemma ExtendLast(xs: seq<string>, ys: seq<string>, init: seq<string>, x: string, c: char)
    requires xs == init + [x]
    requires ys == xs[..|xs| - 1] + [xs[|xs| - 1] + [c]]
    ensures ys == init + [x + [c]]
  {
    assert xs[..|xs| - 1] == init;
  }

  /** Joining fields that hold no separator and splitting again gives the
      fields back. */
  lemma {:induction false} SplitJoin(xs: seq<string>, sep: char)
    requires |xs| > 0
    requires forall i | 0 <= i < |xs| :: sep !in xs[i]
    ensures Split(Join(xs, [sep]), sep) == xs
    decreases |xs|
  {
    if |xs| == 1 {
      SplitAppend("", xs[0], sep);
      ReplaceLast([""], [], xs[0]);
      assert "" + xs[0] == xs[0];
    } else {
      var init, last := xs[..|xs| - 1], xs[|xs| - 1];
      SplitJoin(init, sep);
      SplitJoinStep(init, last, sep);
      LastSplit(xs);
    }
  }

  /** The inductive step of `SplitJoin`: one more field. */
  lemma SplitJoinStep(init: seq<string>, last: string, sep: char)
    requires |init| > 0 && sep !in last
    requires Split(Join(init, [sep]), sep) == init
    ensures Split(Join(init + [last], [sep]), sep) == init + [last]
  {
    var a := Join(init, [sep]);
    JoinSnoc(init, last, [sep]);
    SplitSnoc(a, sep, sep);
    SplitAppend(a + [sep], last, sep);
    ReplaceLast(Split(a + [sep], sep), init, last);
  }

  /** `Join` of a non-empty list with one more element. */
  lemma JoinSnoc(xs: seq<string>, x: string, sep: string)
    requires |xs| > 0
    ensures Join(xs + [x], sep) == Join(xs, sep) + sep + x
  {
    assert (xs + [x])[..|xs|] == xs;
  }

  /** `Join` of a list whose last element has one more character. */
  lemma JoinExtendLast(xs: seq<string>, c: char, sep: string)
    requires |xs| > 0
    ensures Join(xs[..|xs| - 1] + [xs[|xs| - 1] + [c]], sep) == Join(xs, sep) + [c]
  {
    var init, last := xs[..|xs| - 1], xs[|xs| - 1];
    assert xs == init + [last];
    if init != [] {
      JoinSnoc(init, last + [c], sep);
      JoinSnoc(init, last, sep);
    }
  }

  /** Splitting and joining again gives the string back. */
  lemma {:induction false} JoinSplit(s: string, sep: char)
    ensures Join(Split(s, sep), [sep]) == s
    decreases |s|
  {
    if s != [] {
      var s', c := s[..|s| - 1], s[|s| - 1];
      assert s == s' + [c];
      JoinSplit(s', sep);
      SplitSnoc(s', c, sep);
      var r := Split(s', sep);
      if c == sep {
        JoinSnoc(r, "", [sep]);
      } else {
        JoinExtendLast(r, c, [sep]);
      }
    }
  }

  /** Joining a non-empty list with more elements appended. */
  lemma {:induction false} JoinAppend(xs: seq<string>, ys: seq<string>, sep: string)
    requires |xs| > 0
    ensures Join(xs + ys, sep) == Join(xs, sep) + Prefixed(ys, sep)
    decreases |ys|
  {
    if ys == [] {
      assert xs + ys == xs;
    } else {
      var ys', y := ys[..|ys| - 1], ys[|ys| - 1];
      JoinAppend(xs, ys', sep);
      AppendSnoc(xs, ys', y);
      JoinSnoc(xs + ys', y, sep);
      assert ys == ys' + [y];
      assert ys[..|ys| - 1] == ys';
    }
  }

  /** Appending a list that ends in `y` is appending its initial part, then `y`. */
  lemma AppendSnoc(xs: seq<string>, ys: seq<string>, y: string)
    ensures xs + (ys + [y]) == (xs + ys) + [y]
  {
  }

  /** Joining a prefix list in front of a non-empty list. */
  lemma {:induction false} JoinConcat(xs: seq<string>, ys: seq<string>, sep: string)
    requires |xs| > 0 && |ys| > 0
    ensures Join(xs + ys, sep) == Join(xs, sep) + sep + Join(ys, sep)
  {
    JoinAppend(xs, ys, sep);
    JoinAppend([ys[0]], ys[1..], sep);
    assert [ys[0]] + ys[1..] == ys;
    PrefixedCons(ys[0], ys[1..], sep);
    assert Prefixed(ys, sep) == sep + ys[0] + Prefixed(ys[1..], sep);
  }

  lemma {:induction false} PrefixedCons(x: string, ys: seq<string>, sep: string)
    ensures Prefixed([x] + ys, sep) == sep + x + Prefixed(ys, sep)
    decreases |ys|
  {
    if ys == [] {
      assert [x] + ys == [x];
      assert Prefixed([x], sep) == Prefixed([], sep) + sep + x;
    } else {
      var ys', y := ys[..|ys| - 1], ys[|ys| - 1];
      var zs := [x] + ys;
      PrefixedCons(x, ys', sep);
      assert zs[..|zs| - 1] == [x] + ys' && zs[|zs| - 1] == y;
      assert Prefixed(zs, sep) == Prefixed([x] + ys', sep) + sep + y;
      assert Prefixed(ys, sep) == Prefixed(ys', sep) + sep + y;
    }
  }
}

/** Byte strings as the program compares, cuts and joins them. */
module Strings {
  import Sorting

  /** Lexicographic order, the meaning of < on Go strings. */
  predicate Less(a: string, b: string) {
    if b == "" then false
    else if a == "" then true
    else a[0] < b[0] || (a[0] == b[0] && Less(a[1..], b[1..]))
  }

  lemma {:induction false} LessAsymmetric(a: string, b: string)
    ensures !Less(a, b) || !Less(b, a)
  {
    if a != "" && b != "" { LessAsymmetric(a[1..], b[1..]); }
  }

  lemma {:induction false} LessTotal(a: string, b: string)
    ensures a == b || Less(a, b) || Less(b, a)
  {
    if a != "" && b != "" {
      LessTotal(a[1..], b[1..]);
      assert a == [a[0]] + a[1..] && b == [b[0]] + b[1..];
    }
  }

  lemma {:induction false} LessTransitive(a: string, b: string, c: string)
    requires Less(a, b) && Less(b, c)
    ensures Less(a, c)
  {
    if a != "" && a[0] == b[0] == c[0] { LessTransitive(a[1..], b[1..], c[1..]); }
  }

  /** The strings agree up to position k, where a ends or has the smaller byte. */
  predicate FirstSmallerAt(a: string, b: string, k: nat) {
    k <= |a| && k < |b| && a[..k] == b[..k] && (k == |a| || a[k] < b[k])
  }

  /** Less decides at the first position where the strings differ; a prefix comes first. */
  lemma {:induction false} LessExactly(a: string, b: string)
    ensures Less(a, b) <==> exists k: nat :: FirstSmallerAt(a, b, k)
  {
    if b != "" && a != "" && a[0] == b[0] {
      LessExactly(a[1..], b[1..]);
      if k: nat :| FirstSmallerAt(a[1..], b[1..], k) {
        assert a[..k + 1] == [a[0]] + a[1..][..k] && b[..k + 1] == [b[0]] + b[1..][..k];
        assert FirstSmallerAt(a, b, k + 1);
      }
      if k: nat :| FirstSmallerAt(a, b, k) {
        assert k > 0;
        assert a[1..][..k - 1] == a[..k][1..] && b[1..][..k - 1] == b[..k][1..];
        assert FirstSmallerAt(a[1..], b[1..], k - 1);
      }
    } else if Less(a, b) {
      assert FirstSmallerAt(a, b, 0);
    } else {
      forall k: nat ensures !FirstSmallerAt(a, b, k) {
        if 0 < k <= |a| && k < |b| { assert a[..k][0] == a[0] && b[..k][0] == b[0]; }
      }
    }
  }

  /** On any strings, < is a strict weak order that tells different ones apart. */
  lemma LessIsOrder(s: seq<string>)
    ensures Sorting.StrictWeakOn(Less, s)
    ensures forall x, y | x in s && y in s && x != y :: Less(x, y) || Less(y, x)
  {
    forall a, b | a in s && b in s ensures (!Less(a, b) || !Less(b, a)) && (a != b ==> Less(a, b) || Less(b, a)) {
      LessAsymmetric(a, b);
      LessTotal(a, b);
    }
    forall a, b, c | a in s && b in s && c in s && !Less(b, a) && !Less(c, b) ensures !Less(c, a) {
      LessTotal(a, b);
      LessTotal(b, c);
      LessAsymmetric(a, c);
      if a != b && b != c { LessTransitive(a, b, c); }
    }
  }

  // ---- cutting and joining ----

  /** The position of the first c, or |s| when there is none. */
  function IndexOf(s: string, c: char): (k: nat)
    ensures k <= |s| && c !in s[..k] && (k < |s| ==> s[k] == c)
  {
    if s == "" || s[0] == c then 0
    else
      var k := IndexOf(s[1..], c);
      assert s[..k + 1] == [s[0]] + s[1..][..k];
      k + 1
  }

  lemma {:induction false} IndexOfIs(a: string, c: char, b: string)
    requires c !in a
    ensures IndexOf(a + [c] + b, c) == |a|
  {
    if a != "" {
      assert (a + [c] + b)[1..] == a[1..] + [c] + b;
      IndexOfIs(a[1..], c, b);
    }
  }

  /** strings.Split with a one-byte separator. */
  function Split(s: string, c: char): (r: seq<string>)
    ensures |r| >= 1
    ensures forall x | x in r :: c !in x
    decreases |s|
  {
    var k := IndexOf(s, c);
    if k == |s| then
      assert s[..k] == s;
      [s]
    else [s[..k]] + Split(s[k + 1..], c)
  }

  lemma SplitCons(x: string, c: char, rest: string)
    requires c !in x
    ensures Split(x + [c] + rest, c) == [x] + Split(rest, c)
  {
    var s := x + [c] + rest;
    IndexOfIs(x, c, rest);
    assert s[..|x|] == x && s[|x| + 1..] == rest;
  }

  /** strings.Join with a one-byte separator. */
  function Join(ss: seq<string>, c: char): string {
    if ss == [] then ""
    else if |ss| == 1 then ss[0]
    else ss[0] + [c] + Join(ss[1..], c)
  }

  lemma JoinCons(x: string, rest: seq<string>, c: char)
    requires rest != []
    ensures Join([x] + rest, c) == x + [c] + Join(rest, c)
  {
    assert ([x] + rest)[1..] == rest;
  }

  lemma {:induction false} JoinSplit(s: string, c: char)
    ensures Join(Split(s, c), c) == s
    decreases |s|
  {
    var k := IndexOf(s, c);
    if k < |s| {
      var x, rest := s[..k], s[k + 1..];
      assert s == x + [c] + rest;
      JoinSplit(rest, c);
      JoinCons(x, Split(rest, c), c);
    }
  }

  lemma {:induction false} SplitJoin(ss: seq<string>, c: char)
    requires ss != [] && forall x | x in ss :: c !in x
    ensures Split(Join(ss, c), c) == ss
  {
    assert ss[0] in ss;
    if |ss| == 1 {
      assert IndexOf(ss[0], c) == |ss[0]|;
    } else {
      assert forall x | x in ss[1..] :: x in ss;
      SplitJoin(ss[1..], c);
      SplitCons(ss[0], c, Join(ss[1..], c));
    }
  }

  predicate HasPrefix(s: string, p: string) {
    |p| <= |s| && s[..|p|] == p
  }

  predicate HasSuffix(s: string, t: string) {
    |t| <= |s| && s[|s| - |t|..] == t
  }

  /** Of two suffixes of one string the shorter is a suffix of the longer. */
  lemma SuffixesNest(s: string, t: string, u: string)
    requires HasSuffix(s, t) && HasSuffix(s, u) && |t| <= |u|
    ensures HasSuffix(u, t)
  {
    assert u[|u| - |t|..] == s[|s| - |u|..][|u| - |t|..];
  }

  lemma SuffixTransitive(s: string, t: string, u: string)
    requires HasSuffix(s, t) && HasSuffix(t, u)
    ensures HasSuffix(s, u)
  {
    assert t[|t| - |u|..] == s[|s| - |t|..][|t| - |u|..];
  }

  // ---- decimal numbers ----

  predicate IsDigit(c: char) {
    '0' <= c <= '9'
  }

  /** strconv.FormatInt in base 10, for naturals. */
  function Decimal(n: nat): (s: string)
    ensures s != "" && forall c | c in s :: IsDigit(c)
  {
    if n < 10 then ['0' + n as char] else Decimal(n / 10) + ['0' + (n % 10) as char]
  }

  /** Decimal writes no leading zero. */
  lemma {:induction false} DecimalPlain(n: nat)
    ensures |Decimal(n)| > 1 ==> Decimal(n)[0] != '0'
    ensures n > 0 ==> Decimal(n)[0] != '0'
  {
    if n >= 10 {
      DecimalPlain(n / 10);
      assert Decimal(n)[0] == Decimal(n / 10)[0];
    }
  }

  function ParseDecimal(s: string): nat
    requires forall c | c in s :: IsDigit(c)
  {
    if s == "" then 0
    else
      assert IsDigit(s[|s| - 1]) && forall c | c in s[..|s| - 1] :: c in s;
      10 * ParseDecimal(s[..|s| - 1]) + (s[|s| - 1] - '0') as nat
  }

  lemma {:induction false} ParseDecimalOf(n: nat)
    ensures ParseDecimal(Decimal(n)) == n
  {
    if n >= 10 {
      ParseDecimalOf(n / 10);
      assert Decimal(n)[..|Decimal(n)| - 1] == Decimal(n / 10);
    } else {
      assert Decimal(n)[..0] == "";
    }
  }

  lemma {:induction false} JoinAppend(a: seq<string>, b: seq<string>, c: char)
    requires a != [] && b != []
    ensures Join(a + b, c) == Join(a, c) + [c] + Join(b, c)
  {
    if |a| == 1 {
      assert (a + b)[1..] == b;
    } else {
      JoinAppend(a[1..], b, c);
      assert (a + b)[1..] == a[1..] + b;
    }
  }
}

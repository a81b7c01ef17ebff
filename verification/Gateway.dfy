/** The overlap of a listener's and a route's hostnames (source/gateway.go,
    source/gateway_hostname.go). Strings are byte strings. */
module Gateway {
  import opened Wrappers
  import opened Strings

  predicate IsAlphaNum(b: char) {
    'a' <= b <= 'z' || 'A' <= b <= 'Z' || '0' <= b <= '9'
  }

  /** A label of section 2.1 of RFC 1123. */
  predicate IsLabel(s: string) {
    && 1 <= |s| <= 63
    && IsAlphaNum(s[0]) && IsAlphaNum(s[|s| - 1])
    && forall i | 0 <= i < |s| :: IsAlphaNum(s[i]) || s[i] == '-'
  }

  /** A label has 1 to 63 bytes, letters and digits anywhere, hyphens inside only. */
  lemma LabelBounds(n: nat, c: char)
    ensures IsLabel(seq(n, _ => 'a')) <==> 1 <= n <= 63
    ensures IsLabel([c]) <==> 'a' <= c <= 'z' || 'A' <= c <= 'Z' || '0' <= c <= '9'
    ensures IsLabel(['a', c, 'a']) <==> c == '-' || IsLabel([c])
    ensures (IsLabel(['a', c]) <==> IsLabel([c])) && (IsLabel([c, 'a']) <==> IsLabel([c]))
  {
    assert ['a', c, 'a'][1] == c && [c][0] == c;
  }

  /** One trailing dot, the root, is no label of its own. */
  function WithoutRoot(s: string): string {
    if HasSuffix(s, ".") then s[..|s| - 1] else s
  }

  /** A name of one-byte labels has at most 128 of them, 255 bytes with the dots. */
  lemma DomainBounds(n: nat)
    requires n >= 1
    ensures IsDomain(Join(seq(n, _ => "a"), '.')) <==> n <= 128
  {
    hide Split, Join, IsLabel;
    var ls := seq(n, _ => "a");
    var s := Join(ls, '.');
    assert forall l | l in ls :: l == "a";
    JoinedLength(n);
    SplitJoin(ls, '.');
    LabelBounds(1, 'a');
    assert WithoutRoot(s) == s;
  }

  lemma {:induction false} JoinedLength(n: nat)
    requires n >= 1
    ensures var s := Join(seq(n, _ => "a"), '.'); |s| == 2 * n - 1 && s[|s| - 1] == 'a'
  {
    var ls := seq(n, _ => "a");
    if n > 1 {
      JoinedLength(n - 1);
      assert ls == ["a"] + seq(n - 1, _ => "a");
      JoinCons("a", seq(n - 1, _ => "a"), '.');
    }
  }

  predicate AllLabels(ls: seq<string>) {
    forall l | l in ls :: IsLabel(l)
  }

  /** A domain name: labels separated by dots, with or without the root. */
  predicate IsDomain(s: string) {
    1 <= |s| <= 255 && AllLabels(Split(WithoutRoot(s), '.'))
  }

  method IsDNS1123Label(s: string) returns (ok: bool)
    ensures ok == IsLabel(s)
  {
    var n := |s|;
    if n == 0 || n > 63 { return false; }
    if !IsAlphaNum(s[0]) || !IsAlphaNum(s[n - 1]) { return false; }
    var i, k := 1, n - 1;
    while i < k
      invariant 1 <= i <= n
      invariant forall j | 0 <= j < i && j < n :: IsAlphaNum(s[j]) || s[j] == '-'
    {
      if s[i] != '-' && !IsAlphaNum(s[i]) { return false; }
      i := i + 1;
    }
    return true;
  }

  /** What the cut loop still has to check. */
  predicate LabelsLeft(rest: string)
    decreases |rest|
  {
    rest == "" ||
    var k := IndexOf(rest, '.');
    IsLabel(rest[..k]) && LabelsLeft(if k < |rest| then rest[k + 1..] else "")
  }

  lemma AllLabelsCons(l: string, ls: seq<string>)
    ensures AllLabels([l] + ls) <==> IsLabel(l) && AllLabels(ls)
  {
    assert l in [l] + ls;
    assert forall x | x in ls :: x in [l] + ls;
  }

  lemma WithoutRootTail(x: string, rest: string)
    requires rest != ""
    ensures WithoutRoot(x + "." + rest) == x + "." + WithoutRoot(rest)
  {
    var s := x + "." + rest;
    assert s[|s| - 1] == rest[|rest| - 1];
  }

  /** Cutting label by label ignores one trailing dot and nothing else. */
  lemma {:induction false} CutLoopExactly(s: string)
    requires s != ""
    ensures LabelsLeft(s) <==> AllLabels(Split(WithoutRoot(s), '.'))
    decreases |s|
  {
    var k := IndexOf(s, '.');
    if k == |s| {
      assert s[..k] == s;
      assert !HasSuffix(s, ".") by { assert s[|s| - 1] in s; }
      AllLabelsCons(s, []);
      assert Split(s, '.') == [s] + [];
    } else {
      var x, rest := s[..k], s[k + 1..];
      assert s == x + "." + rest;
      if rest == "" {
        assert WithoutRoot(s) == x;
        assert IndexOf(x, '.') == k;
        AllLabelsCons(x, []);
        assert Split(x, '.') == [x] + [];
      } else {
        CutLoopExactly(rest);
        WithoutRootTail(x, rest);
        SplitCons(x, '.', WithoutRoot(rest));
        AllLabelsCons(x, Split(WithoutRoot(rest), '.'));
      }
    }
  }

  method IsDNS1123Domain(s: string) returns (ok: bool)
    ensures ok == IsDomain(s)
  {
    if |s| == 0 || |s| > 255 { return false; }
    CutLoopExactly(s);
    var rest := s;
    while rest != ""
      invariant LabelsLeft(s) == LabelsLeft(rest)
      decreases |rest|
    {
      var k := IndexOf(rest, '.');
      var lbl := rest[..k];
      var valid := IsDNS1123Label(lbl);
      if !valid { return false; }
      rest := if k < |rest| then rest[k + 1..] else "";
    }
    return true;
  }

  function LowerChar(c: char): char {
    if 'A' <= c <= 'Z' then c + ('a' - 'A') else c
  }

  function Lower(s: string): (r: string)
    ensures |r| == |s|
  {
    seq(|s|, k requires 0 <= k < |s| => LowerChar(s[k]))
  }

  /** No capital is left; a character is unchanged or the small letter of the capital it was. */
  lemma LowerExactly(s: string, k: nat)
    requires k < |s|
    ensures !('A' <= Lower(s)[k] <= 'Z')
    ensures if 'A' <= s[k] <= 'Z' then 'a' <= Lower(s)[k] <= 'z' && Lower(s)[k] - 'a' == s[k] - 'A' else Lower(s)[k] == s[k]
  {
  }

  const RUNE_ERROR := 0xFFFD

  /** runes is what ranging over s yields: upper-case ASCII bytes show up as themselves unless
      they hide in an invalid sequence, which yields RUNE_ERROR. */
  ghost predicate IsDecoding(s: string, runes: seq<int>) {
    RUNE_ERROR in runes || forall k | 0 <= k < |s| && 'A' <= s[k] <= 'Z' :: s[k] as int in runes
  }

  /** toLowerCaseASCII. */
  method ToLowerCaseASCII(s: string, runes: seq<int>) returns (r: string)
    requires IsDecoding(s, runes)
    ensures r == Lower(s)
  {
    var isAlreadyLowerCase := true;
    for i := 0 to |runes|
      invariant isAlreadyLowerCase
      invariant forall j | 0 <= j < i :: runes[j] != RUNE_ERROR && !('A' as int <= runes[j] <= 'Z' as int)
    {
      if runes[i] == RUNE_ERROR || 'A' as int <= runes[i] <= 'Z' as int {
        isAlreadyLowerCase := false;
        break;
      }
    }
    if isAlreadyLowerCase { return s; }
    var out := new char[|s|](i requires 0 <= i < |s| => s[i]);
    for i := 0 to out.Length
      invariant forall j | 0 <= j < i :: out[j] == LowerChar(s[j])
      invariant forall j | i <= j < |s| :: out[j] == s[j]
    {
      if 'A' <= out[i] <= 'Z' { out[i] := out[i] + ('a' - 'A'); }
    }
    assert out[..] == Lower(s);
    return out[..];
  }

  predicate IsWildcard(host: string) {
    HasPrefix(host, "*.")
  }

  function TrimWildcard(host: string): string {
    if IsWildcard(host) then host[2..] else host
  }

  /** gwHost; isIP stands for the library's address parser. */
  function GwHost(isIP: string -> bool, host: string): Option<string> {
    if host == "" then Some("")
    else if isIP(host) || !IsDomain(TrimWildcard(host)) then None
    else Some(Lower(host))
  }

  /** gwMatchingHost: the most specific host both cover, if any. */
  function GwMatchingHost(isIP: string -> bool, a: string, b: string): Option<string> {
    var ca := GwHost(isIP, a);
    if ca.None? then None
    else
      var cb := GwHost(isIP, b);
      if cb.None? then None
      else Meet(ca.value, cb.value)
  }

  function Meet(a: string, b: string): Option<string> {
    if a == "" then Some(b)
    else if b == "" || a == b then Some(a)
    else
      var swap := |b| < |a| || (|a| == |b| && IsWildcard(b));
      var s, l := if swap then b else a, if swap then a else b;
      if IsWildcard(s) && HasSuffix(l, s[1..]) then Some(l) else None
  }

  // ---- what a host covers ----

  /** A host covers a name: the empty host covers all, a wildcard covers every name with at
      least one more label, any other host covers itself. Case does not matter. */
  predicate Covers(host: string, name: string) {
    var h, n := Lower(host), Lower(name);
    || h == ""
    || (if IsWildcard(h) then HasSuffix(n, h[1..]) && |n| > |h| - 1 else n == h)
  }

  /** A wildcard covers the names below it, however deep, and not the name itself; any other
      host covers itself alone; the empty host covers everything. */
  lemma CoversExactly(d: string, p: string, n: string)
    requires p != ""
    ensures Covers("*." + d, p + "." + d) && !Covers("*." + d, d)
    ensures n != "" && !HasPrefix(n, "*.") ==> forall x :: Covers(n, x) <==> Lower(x) == Lower(n)
    ensures Covers("", n)
  {
    var h := Lower("*." + d);
    assert h == "*." + Lower(d);
    assert h[1..] == "." + Lower(d);
    assert Lower(p + "." + d) == Lower(p) + h[1..];
    if n != "" && !HasPrefix(n, "*.") {
      assert |n| >= 2 ==> n[..2] == [n[0], n[1]];
      assert |n| >= 2 ==> Lower(n)[..2] == [Lower(n)[0], Lower(n)[1]];
    }
  }

  /** Hosts match only if each is empty, or a domain name, perhaps after a wildcard label, and no
      address. */
  lemma MatchingNeedsHosts(isIP: string -> bool, a: string, b: string)
    ensures GwMatchingHost(isIP, a, b).Some? ==>
              && (a != "" ==> !isIP(a) && (IsDomain(a) || (HasPrefix(a, "*.") && IsDomain(a[2..]))))
              && (b != "" ==> !isIP(b) && (IsDomain(b) || (HasPrefix(b, "*.") && IsDomain(b[2..]))))
  {
  }

  lemma LowerIdempotent(s: string)
    ensures Lower(Lower(s)) == Lower(s)
  {
  }

  lemma MeetSymmetric(a: string, b: string)
    ensures Meet(a, b) == Meet(b, a)
  {
    if a != "" && b != "" && a != b && |a| == |b| {
      if IsWildcard(a) && IsWildcard(b) {
        assert a == "*" + a[1..] && b == "*" + b[1..];
      }
    }
  }

  /** The order of the two hosts does not matter, valid or not. */
  lemma MatchingHostSymmetric(isIP: string -> bool, a: string, b: string)
    ensures GwMatchingHost(isIP, a, b) == GwMatchingHost(isIP, b, a)
  {
    if GwHost(isIP, a).Some? && GwHost(isIP, b).Some? {
      MeetSymmetric(GwHost(isIP, a).value, GwHost(isIP, b).value);
    }
  }

  /** On lower-case hosts: the meet covers exactly what both cover, and without a meet there
      is no name that both cover. */
  lemma MeetExactly(a: string, b: string, n: string)
    requires Lower(a) == a && Lower(b) == b && Lower(n) == n
    ensures match Meet(a, b)
            case Some(h) => Lower(h) == h && (Covers(h, n) <==> Covers(a, n) && Covers(b, n))
            case None => !(Covers(a, n) && Covers(b, n))
  {
    MeetSymmetric(a, b);
    if a != "" && b != "" && a != b {
      if |b| < |a| || (|a| == |b| && IsWildcard(b)) {
        OrderedMeet(b, a, n);
      } else {
        OrderedMeet(a, b, n);
      }
    }
  }

  lemma OrderedMeet(s: string, l: string, n: string)
    requires Lower(s) == s && Lower(l) == l && Lower(n) == n
    requires s != "" && l != "" && s != l
    requires |s| < |l| || (|s| == |l| && (IsWildcard(l) ==> IsWildcard(s)))
    ensures IsWildcard(s) && HasSuffix(l, s[1..]) ==> (Covers(l, n) ==> Covers(s, n))
    ensures !(IsWildcard(s) && HasSuffix(l, s[1..])) ==> !(Covers(s, n) && Covers(l, n))
  {
    if IsWildcard(s) {
      if IsWildcard(l) {
        assert HasSuffix(l, l[1..]);
        if HasSuffix(l, s[1..]) {
          SuffixesNest(l, s[1..], l[1..]);
          if Covers(l, n) { SuffixTransitive(n, l[1..], s[1..]); }
        } else if Covers(s, n) && Covers(l, n) {
          SuffixesNest(n, s[1..], l[1..]);
          SuffixTransitive(l, l[1..], s[1..]);
        }
      }
    }
  }

  /** The result is one of the two hosts in lower case and covers exactly the names both hosts
      cover; no result for two valid hosts means
      there is no such name. Names and hosts may use any case. */
  lemma MatchingHostExactly(isIP: string -> bool, a: string, b: string, name: string)
    requires GwHost(isIP, a).Some? && GwHost(isIP, b).Some?
    ensures match GwMatchingHost(isIP, a, b)
            case Some(h) =>
              && (h == Lower(a) || h == Lower(b))
              && (Covers(h, name) <==> Covers(a, name) && Covers(b, name))
            case None => !(Covers(a, name) && Covers(b, name))
  {
    LowerIdempotent(a);
    LowerIdempotent(b);
    LowerIdempotent(name);
    MeetExactly(Lower(a), Lower(b), Lower(name));
  }

  // ---- the root dot ----

  predicate EndsInRoot(host: string) {
    HasSuffix(host, ".")
  }

  /** A host as gwHost returns it: in lower case, and a domain name after a wildcard label. */
  predicate IsHost(host: string) {
    Lower(host) == host && IsDomain(TrimWildcard(host))
  }

  /** Stripping the root leaves a wildcard a wildcard. */
  lemma RootlessHost(host: string)
    requires IsHost(host)
    ensures WithoutRoot(host) != "" && (IsWildcard(WithoutRoot(host)) <==> IsWildcard(host))
  {
    if EndsInRoot(host) {
      NotOnlyRoot(TrimWildcard(host));
      assert IsWildcard(host) ==> |host| >= 4;
      assert |host| >= 2;
      if |host| >= 3 { assert WithoutRoot(host)[..2] == host[..2]; }
    }
  }

  lemma NotOnlyRoot(s: string)
    requires IsDomain(s)
    ensures s != "."
  {
    assert WithoutRoot(".") == "" && IndexOf("", '.') == 0;
    assert Split("", '.') == [""];
    assert !AllLabels([""]) by { assert "" in [""] && !IsLabel(""); }
  }

  lemma SuffixShift(l: string, s: string)
    requires EndsInRoot(l) && EndsInRoot(s)
    ensures HasSuffix(l, s) <==> HasSuffix(WithoutRoot(l), WithoutRoot(s))
  {
    var l', s' := WithoutRoot(l), WithoutRoot(s);
    assert l == l' + "." && s == s' + ".";
    if HasSuffix(l', s') {
      assert l[|l| - |s|..] == l'[|l'| - |s'|..] + ".";
    }
    if HasSuffix(l, s) {
      assert l'[|l'| - |s'|..] == l[|l| - |s|..][..|s'|];
    }
  }

  /** Two spellings of which only one ends in the root never match. */
  lemma MixedRootsNeverMeet(a: string, b: string)
    requires IsHost(a) && IsHost(b) && EndsInRoot(a) && !EndsInRoot(b)
    ensures Meet(a, b) == None
  {
    MixedSuffix(a, b);
    MixedSuffix(b, a);
  }

  lemma SuffixEndsAlike(l: string, t: string)
    requires HasSuffix(l, t) && t != ""
    ensures EndsInRoot(l) == EndsInRoot(t)
  {
    assert l[|l| - 1] == l[|l| - |t|..][|t| - 1];
  }

  lemma MixedSuffix(l: string, s: string)
    requires EndsInRoot(l) != EndsInRoot(s)
    ensures IsWildcard(s) ==> !HasSuffix(l, s[1..])
  {
    if IsWildcard(s) && HasSuffix(l, s[1..]) {
      assert EndsInRoot(s[1..]) == EndsInRoot(s);
      SuffixEndsAlike(l, s[1..]);
      assert false;
    }
  }

  lemma BothRootsMeet(a: string, b: string)
    requires IsHost(a) && IsHost(b) && EndsInRoot(a) && EndsInRoot(b)
    ensures Meet(a, b).Some? <==> Meet(WithoutRoot(a), WithoutRoot(b)).Some?
  {
    hide IsDomain, Lower, TrimWildcard;
    RootlessHost(a);
    RootlessHost(b);
    assert a == WithoutRoot(a) + "." && b == WithoutRoot(b) + ".";
    TailShift(a, b);
    TailShift(b, a);
  }

  lemma TailShift(l: string, s: string)
    requires EndsInRoot(l) && EndsInRoot(s) && |s| >= 2
    ensures HasSuffix(l, s[1..]) <==> HasSuffix(WithoutRoot(l), WithoutRoot(s)[1..])
  {
    assert WithoutRoot(s[1..]) == WithoutRoot(s)[1..];
    SuffixShift(l, s[1..]);
  }

  /** Whether two valid hosts match as spelled tells whether the names they stand for match,
      exactly when both or neither end in the root dot, or the names do not match anyway. */
  lemma RootDotExactly(a: string, b: string)
    requires IsHost(a) && IsHost(b)
    ensures (Meet(a, b).Some? <==> Meet(WithoutRoot(a), WithoutRoot(b)).Some?)
            <==> EndsInRoot(a) == EndsInRoot(b) || Meet(WithoutRoot(a), WithoutRoot(b)).None?
  {
    if EndsInRoot(a) && EndsInRoot(b) {
      BothRootsMeet(a, b);
    } else if EndsInRoot(a) {
      MixedRootsNeverMeet(a, b);
    } else if EndsInRoot(b) {
      MixedRootsNeverMeet(b, a);
      MeetSymmetric(a, b);
    }
  }

  /** Hosts are compared as spelled: a trailing dot keeps the two spellings of any one name
      apart, although both are valid. */
  lemma TrailingDotApart(isIP: string -> bool, host: string)
    requires IsDomain(host) && |host| < 255 && host[0] != '*' && !HasSuffix(host, ".")
    requires !isIP(host) && !isIP(host + ".")
    ensures GwHost(isIP, host).Some? && GwHost(isIP, host + ".").Some?
    ensures GwMatchingHost(isIP, host + ".", host) == None
  {
    assert WithoutRoot(host + ".") == host;
    assert (host + ".")[0] == host[0];
    assert Lower(host)[0] != '*';
    assert |Lower(host + ".")| == |Lower(host)| + 1;
  }
}

/**
 Domain names as the resolver handles them: flat strings that are reversed before they
 are stored or searched, and the label sequences those strings stand for.

 A label sequence is written leaf first, so the labels of `www.example` are
 `["www", "example"]` and an ancestor of a name is a suffix of it.
 */
module Names {

  type Labels = seq<string>

  function Reversed<T>(s: seq<T>): (r: seq<T>)
    ensures |r| == |s|
  {
    seq(|s|, i requires 0 <= i < |s| => s[|s| - 1 - i])
  }

  lemma {:induction false} ReversedTwice<T>(s: seq<T>)
    ensures Reversed(Reversed(s)) == s
  {
  }

  /** `p` ends the string `s`. */
  predicate IsSuffix<T(==)>(p: seq<T>, s: seq<T>) {
    |p| <= |s| && s[|s| - |p|..] == p
  }

  lemma {:induction false} SuffixTransitive<T>(a: seq<T>, b: seq<T>, c: seq<T>)
    requires IsSuffix(a, b) && IsSuffix(b, c)
    ensures IsSuffix(a, c)
  {
    assert c[|c| - |a|..] == c[|c| - |b|..][|b| - |a|..];
  }

  /** Of two suffixes of one string the shorter ends the longer. */
  lemma {:induction false} SuffixesNested<T>(a: seq<T>, b: seq<T>, c: seq<T>)
    requires IsSuffix(a, c) && IsSuffix(b, c) && |a| <= |b|
    ensures IsSuffix(a, b)
  {
    assert c[|c| - |a|..] == c[|c| - |b|..][|b| - |a|..];
  }

  lemma {:induction false} ProperSuffixes<T>(s: seq<T>)
    requires s != []
    ensures forall a :: IsSuffix(a, s) && a != s ==> IsSuffix(a, s[1..])
    ensures forall a :: IsSuffix(a, s[1..]) ==> IsSuffix(a, s)
  {
    assert s[0..] == s;
    forall a | IsSuffix(a, s) && a != s ensures IsSuffix(a, s[1..]) {
      assert s[1..][|s| - 1 - |a|..] == s[|s| - |a|..];
    }
    forall a | IsSuffix(a, s[1..]) ensures IsSuffix(a, s) {
      assert s[1..][|s| - 1 - |a|..] == s[|s| - |a|..];
    }
  }

  /** Reversal turns the prefix order, which a radix tree searches, into the suffix order of names. */
  lemma {:induction false} ReversedPrefix<T>(a: seq<T>, b: seq<T>)
    ensures Reversed(a) <= Reversed(b) <==> IsSuffix(a, b)
  {
    if IsSuffix(a, b) {
      forall i | 0 <= i < |a| ensures Reversed(a)[i] == Reversed(b)[i] {
        assert a[|a| - 1 - i] == b[|b| - |a|..][|a| - 1 - i];
      }
    }
    if Reversed(a) <= Reversed(b) {
      forall i | 0 <= i < |a| ensures a[i] == b[|b| - |a|..][i] {
        assert Reversed(a)[|a| - 1 - i] == Reversed(b)[|a| - 1 - i];
      }
    }
  }

  /** What `ReverseName` computes: the name with a dot in front, read backwards. */
  function ReversedName(name: string): (s: string) {
    Reversed("." + name)
  }

  lemma {:induction false} ReversedNameInjective(a: string, b: string)
    requires ReversedName(a) == ReversedName(b)
    ensures a == b
  {
    ReversedTwice("." + a);
    ReversedTwice("." + b);
    assert a == ("." + a)[1..] && b == ("." + b)[1..];
  }

  /** zone.go:66: swap the runes in place, outermost pair first. */
  method ReverseName(zone: string) returns (r: string)
    ensures r == ReversedName(zone)
  {
    var name := "." + zone;
    var runes := new char[|name|](k requires 0 <= k < |name| => name[k]);
    var i, j := 0, runes.Length - 1;
    while i < j
      invariant 0 <= i <= j + 1 && i + j == runes.Length - 1
      invariant forall k :: 0 <= k < i || j < k < runes.Length ==> runes[k] == name[runes.Length - 1 - k]
      invariant forall k :: i <= k <= j ==> runes[k] == name[k]
    {
      runes[i], runes[j] := runes[j], runes[i];
      i, j := i + 1, j - 1;
    }
    r := runes[..];
  }

  // ----- Splitting a name into its labels -----

  predicate DotFree(l: string) { '.' !in l }

  ghost predicate WellFormed(n: Labels) { forall i :: 0 <= i < |n| ==> DotFree(n[i]) }

  /** The index of the first `c`, or the length when there is none. */
  function IndexOf(s: string, c: char): (i: nat)
    ensures i <= |s| && c !in s[..i]
    ensures i < |s| ==> s[i] == c
  {
    if s == "" || s[0] == c then 0 else
      var k := IndexOf(s[1..], c);
      assert s[..k + 1] == [s[0]] + s[1..][..k];
      k + 1
  }

  /** `strings.Split(s, c)` for a one-character separator. */
  function Split(s: string, c: char): (parts: seq<string>)
    ensures |parts| > 0 && forall i :: 0 <= i < |parts| ==> c !in parts[i]
    decreases |s|
  {
    var i := IndexOf(s, c);
    if i == |s| then [s] else [s[..i]] + Split(s[i + 1..], c)
  }

  function LabelsOf(s: string): (n: Labels)
    ensures |n| > 0 && WellFormed(n)
  {
    Split(s, '.')
  }

  /** Every label with a dot in front of it. */
  function Dotted(n: Labels): (s: string) {
    if n == [] then "" else "." + n[0] + Dotted(n[1..])
  }

  /** `strings.Join(n, ".")`. */
  function Join(n: Labels): (s: string) {
    if n == [] then "" else Dotted(n)[1..]
  }

  lemma {:induction false} DottedLabelsOf(s: string)
    ensures Dotted(LabelsOf(s)) == "." + s
    decreases |s|
  {
    var i := IndexOf(s, '.');
    if i == |s| {
      assert Dotted([s]) == "." + s;
    } else {
      DottedLabelsOf(s[i + 1..]);
      var n := LabelsOf(s);
      assert n[1..] == LabelsOf(s[i + 1..]);
      assert s == s[..i] + "." + s[i + 1..];
    }
  }

  lemma {:induction false} JoinLabelsOf(s: string)
    ensures Join(LabelsOf(s)) == s
  {
    DottedLabelsOf(s);
  }

  lemma {:induction false} DottedJoin(n: Labels)
    requires n != []
    ensures Dotted(n) == "." + Join(n)
  {
  }

  lemma {:induction false} DottedSuffix(n: Labels, i: nat)
    requires i <= |n|
    ensures IsSuffix(Dotted(n[i..]), Dotted(n))
  {
    if i == 0 {
      assert n[0..] == n;
    } else {
      DottedSuffix(n[1..], i - 1);
      assert n[1..][i - 1..] == n[i..];
      var a, b := "." + n[0], Dotted(n[1..]);
      assert (a + b)[|a|..] == b;
      SuffixTransitive(Dotted(n[i..]), b, a + b);
    }
  }

  /** Label alignment: a suffix of a dotted name that begins with a dot is a whole number of labels. */
  lemma {:induction false} DottedSuffixAligned(d: string, n: Labels) returns (i: nat)
    requires WellFormed(n) && d != "" && d[0] == '.' && IsSuffix(d, Dotted(n))
    ensures i < |n| && d == Dotted(n[i..])
  {
    var a, b := "." + n[0], Dotted(n[1..]);
    assert Dotted(n) == a + b;
    if |d| <= |b| {
      assert (a + b)[|a|..] == b;
      SuffixesNested(d, b, a + b);
      var k := DottedSuffixAligned(d, n[1..]);
      assert n[1..][k..] == n[k + 1..];
      i := k + 1;
    } else {
      var at := |a + b| - |d|;
      assert d[0] == (a + b)[at..][0] == a[at];
      assert forall k :: 1 <= k < |a| ==> a[k] == n[0][k - 1] != '.';
      assert n[0..] == n && (a + b)[0..] == a + b;
      i := 0;
    }
  }

  lemma {:induction false} DottedTail(n: Labels)
    requires n != []
    ensures Dotted(n)[1..] == n[0] + Dotted(n[1..])
    ensures Dotted(n[1..]) != "" ==> Dotted(n[1..])[0] == '.'
  {
    assert Dotted(n) == "." + (n[0] + Dotted(n[1..]));
  }

  lemma {:induction false} IndexOfBefore(l: string, rest: string, c: char)
    requires c !in l && (rest != "" ==> rest[0] == c)
    ensures IndexOf(l + rest, c) == |l|
    ensures (l + rest)[..|l|] == l && (l + rest)[|l|..] == rest
  {
    var s := l + rest;
    assert forall k :: 0 <= k < |l| ==> s[k] == l[k];
    assert forall k :: |l| < k <= |s| ==> s[..k][|l|] == c;
  }

  lemma {:induction false} SplitFirst(l: string, rest: string, c: char)
    requires c !in l
    ensures Split(l + [c] + rest, c) == [l] + Split(rest, c)
  {
    hide IndexOf;
    IndexOfBefore(l, [c] + rest, c);
    assert l + [c] + rest == l + ([c] + rest);
    assert (l + [c] + rest)[|l| + 1..] == rest;
  }

  lemma {:induction false} SplitWhole(s: string, c: char)
    requires c !in s
    ensures Split(s, c) == [s]
  {
    hide IndexOf;
    IndexOfBefore(s, "", c);
    assert s + "" == s;
  }

  /** Splitting is a homomorphism: a separator between two strings concatenates their parts. */
  lemma {:induction false} SplitConcat(a: string, b: string, c: char)
    ensures Split(a + [c] + b, c) == Split(a, c) + Split(b, c)
    decreases |a|
  {
    hide IndexOf, Split;
    var i := IndexOf(a, c);
    if i == |a| {
      assert a[..i] == a;
      SplitWhole(a, c);
      SplitFirst(a, b, c);
    } else {
      var l, rest := a[..i], a[i + 1..];
      assert a == l + [c] + rest;
      SplitFirst(l, rest, c);
      SplitFirst(l, rest + [c] + b, c);
      assert a + [c] + b == l + [c] + (rest + [c] + b);
      SplitConcat(rest, b, c);
    }
  }

  lemma {:induction false} DottedInjective(n: Labels, m: Labels)
    requires WellFormed(n) && WellFormed(m) && Dotted(n) == Dotted(m)
    ensures n == m
  {
    assert n == [] <==> Dotted(n) == "";
    assert m == [] <==> Dotted(m) == "";
    if n != [] {
      DottedTail(n);
      DottedTail(m);
      IndexOfBefore(n[0], Dotted(n[1..]), '.');
      IndexOfBefore(m[0], Dotted(m[1..]), '.');
      DottedInjective(n[1..], m[1..]);
      assert n == [n[0]] + n[1..] && m == [m[0]] + m[1..];
    }
  }

  lemma {:induction false} LabelsOfJoin(n: Labels)
    requires WellFormed(n) && n != []
    ensures LabelsOf(Join(n)) == n
  {
    DottedJoin(n);
    DottedLabelsOf(Join(n));
    DottedInjective(LabelsOf(Join(n)), n);
  }

  /** Being at or below a name, said of labels and said of strings. */
  lemma {:induction false} LabelSuffixIffDotted(n: Labels, m: Labels)
    requires WellFormed(n) && WellFormed(m) && n != []
    ensures IsSuffix(n, m) <==> IsSuffix(Dotted(n), Dotted(m))
  {
    if IsSuffix(n, m) {
      DottedSuffix(m, |m| - |n|);
    }
    if IsSuffix(Dotted(n), Dotted(m)) {
      var i := DottedSuffixAligned(Dotted(n), m);
      DottedInjective(n, m[i..]);
    }
  }

  // ----- Fully qualified names -----

  function TrailingBackslashes(s: string): (n: nat) {
    if s == "" || s[|s| - 1] != '\\' then 0 else 1 + TrailingBackslashes(s[..|s| - 1])
  }

  /** A name is fully qualified when it ends in a dot that no backslash escapes. */
  predicate IsFqdn(s: string) {
    s != "" && s[|s| - 1] == '.' && TrailingBackslashes(s[..|s| - 1]) % 2 == 0
  }

  /** `dns.Fqdn`. */
  function Fqdn(s: string): (r: string)
    ensures r != ""
  {
    if IsFqdn(s) then s else s + "."
  }

  function TrimSuffix(s: string, p: string): (r: string) {
    if IsSuffix(p, s) then s[..|s| - |p|] else s
  }

  function TrimPrefix(s: string, p: string): (r: string) {
    if p <= s then s[|p|..] else s
  }
}

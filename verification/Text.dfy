/** Strings as the program sees them: trimming, case folding and byte order. */
module Text {

  /** The white space that strings.TrimSpace removes (Unicode White_Space). */
  predicate IsSpace(c: char) {
    var n := c as int;
    0x09 <= n <= 0x0d || n in {0x20, 0x85, 0xa0, 0x1680, 0x2028, 0x2029, 0x202f, 0x205f, 0x3000} ||
      0x2000 <= n <= 0x200a
  }

  function TrimLeft(s: string): string {
    if s != [] && IsSpace(s[0]) then TrimLeft(s[1..]) else s
  }

  function TrimRight(s: string): string {
    if s != [] && IsSpace(s[|s| - 1]) then TrimRight(s[..|s| - 1]) else s
  }

  /** strings.TrimSpace */
  function Trim(s: string): string {
    TrimRight(TrimLeft(s))
  }

  predicate Trimmed(s: string) {
    s != [] ==> !IsSpace(s[0]) && !IsSpace(s[|s| - 1])
  }

  lemma {:induction false} TrimRightKeepsHead(s: string)
    requires s != [] ==> !IsSpace(s[0])
    ensures Trimmed(TrimRight(s)) && TrimRight(s) <= s
  {
    if s != [] && IsSpace(s[|s| - 1]) {
      TrimRightKeepsHead(s[..|s| - 1]);
    }
  }

  lemma {:induction false} TrimLeftHead(s: string)
    ensures TrimLeft(s) != [] ==> !IsSpace(TrimLeft(s)[0])
  {
    if s != [] && IsSpace(s[0]) {
      TrimLeftHead(s[1..]);
    }
  }

  /** Trimming yields a trimmed string and leaves trimmed strings alone. */
  lemma TrimIsTrimmed(s: string)
    ensures Trimmed(Trim(s))
    ensures Trimmed(s) ==> Trim(s) == s
  {
    TrimLeftHead(s);
    TrimRightKeepsHead(TrimLeft(s));
  }

  function LowerChar(c: char): char {
    if 'A' <= c <= 'Z' then c + 32 as char else c
  }

  /** strings.ToLower, on ASCII letters. */
  function Lower(s: string): (r: string)
    ensures |r| == |s|
  {
    seq(|s|, i requires 0 <= i < |s| => LowerChar(s[i]))
  }

  /** normalizeProvider */
  function NormalizeProvider(v: string): string {
    Lower(Trim(v))
  }

  lemma LowerIsTrimmed(s: string)
    requires Trimmed(s)
    ensures Trimmed(Lower(s)) && Lower(Lower(s)) == Lower(s) && (Lower(s) == [] <==> s == [])
  {
  }

  /** Provider names are stable under a second normalisation. */
  lemma NormalizeProviderTwice(v: string)
    ensures Trimmed(NormalizeProvider(v))
    ensures Trim(NormalizeProvider(v)) == NormalizeProvider(v)
    ensures NormalizeProvider(NormalizeProvider(v)) == NormalizeProvider(v)
  {
    TrimIsTrimmed(v);
    LowerIsTrimmed(Trim(v));
    TrimIsTrimmed(Lower(Trim(v)));
  }

  // ---- order ----

  /** Strict string order; on valid text code-point order is byte order. */
  predicate Less(a: string, b: string) {
    b != [] && (a == [] || a[0] < b[0] || (a[0] == b[0] && Less(a[1..], b[1..])))
  }

  predicate Leq(a: string, b: string) {
    a == b || Less(a, b)
  }

  lemma {:induction false} LessIrreflexive(a: string)
    ensures !Less(a, a)
  {
    if a != [] { LessIrreflexive(a[1..]); }
  }

  lemma {:induction false} LessTransitive(a: string, b: string, c: string)
    requires Less(a, b) && Less(b, c)
    ensures Less(a, c)
  {
    if a != [] && a[0] == b[0] && b[0] == c[0] { LessTransitive(a[1..], b[1..], c[1..]); }
  }

  lemma {:induction false} LessTotal(a: string, b: string)
    ensures Less(a, b) || a == b || Less(b, a)
  {
    if a != [] && b != [] && a[0] == b[0] {
      LessTotal(a[1..], b[1..]);
      assert a == [a[0]] + a[1..] && b == [b[0]] + b[1..];
    }
  }

  lemma LessAsymmetric(a: string, b: string)
    requires Less(a, b)
    ensures !Leq(b, a)
  {
    LessIrreflexive(a);
    if Less(b, a) { LessTransitive(a, b, a); }
  }

  /** A common prefix does not influence the comparison. */
  lemma {:induction false} LessCommonPrefix(p: string, a: string, b: string)
    ensures Less(p + a, p + b) == Less(a, b)
  {
    if p == [] {
      assert p + a == a && p + b == b;
    } else {
      LessCommonPrefix(p[1..], a, b);
      assert (p + a)[1..] == p[1..] + a && (p + b)[1..] == p[1..] + b;
    }
  }

  /** Equally long blocks decide before what follows them. */
  lemma {:induction false} LessBlock(a: string, b: string, x: string, y: string)
    requires |a| == |b| && Less(a, b)
    ensures Less(a + x, b + y)
  {
    assert (a + x)[1..] == a[1..] + x && (b + y)[1..] == b[1..] + y;
    if a[0] == b[0] { LessBlock(a[1..], b[1..], x, y); }
  }

  predicate StrictlySorted(xs: seq<string>) {
    forall i, j | 0 <= i < j < |xs| :: Less(xs[i], xs[j])
  }

  lemma HasMember<T>(xs: seq<T>)
    requires xs != []
    ensures exists x :: x in xs
  {
    assert xs[0] in xs;
  }

  lemma StrictlySortedTail(xs: seq<string>)
    requires xs != [] && StrictlySorted(xs)
    ensures StrictlySorted(xs[1..]) && xs[0] !in xs[1..]
    ensures forall x | x in xs[1..] :: Less(xs[0], x)
  {
    LessIrreflexive(xs[0]);
  }

  /** A strictly sorted list is determined by its elements. */
  lemma {:induction false} StrictlySortedUnique(xs: seq<string>, ys: seq<string>)
    requires StrictlySorted(xs) && StrictlySorted(ys)
    requires forall x :: x in xs <==> x in ys
    ensures xs == ys
  {
    if xs == [] {
      if ys != [] {
        HasMember(ys);
        assert false;
      }
    } else {
      assert xs[0] in ys;
      StrictlySortedTail(xs);
      StrictlySortedTail(ys);
      assert xs[0] == ys[0] by {
        if xs[0] != ys[0] {
          assert ys[0] in xs && ys[0] in xs[1..] && xs[0] in ys[1..];
          LessAsymmetric(xs[0], ys[0]);
        }
      }
      forall x ensures x in xs[1..] <==> x in ys[1..] {
        assert x in xs <==> x == xs[0] || x in xs[1..];
        assert x in ys <==> x == ys[0] || x in ys[1..];
      }
      StrictlySortedUnique(xs[1..], ys[1..]);
    }
  }

  /** Inserts a value into a sorted list; building lists this way sorts them. */
  function InsertString(x: string, xs: seq<string>): (r: seq<string>)
    ensures forall y :: y in r <==> y == x || y in xs
  {
    if xs == [] || Less(x, xs[0]) then [x] + xs else [xs[0]] + InsertString(x, xs[1..])
  }

  lemma {:induction false} InsertStringSorted(x: string, xs: seq<string>)
    requires StrictlySorted(xs) && x !in xs
    ensures StrictlySorted(InsertString(x, xs))
  {
    if xs != [] {
      if Less(x, xs[0]) {
        forall i | 1 <= i < |xs| { LessTransitive(x, xs[0], xs[i]); }
      } else {
        LessTotal(x, xs[0]);
        StrictlySortedTail(xs);
        InsertStringSorted(x, xs[1..]);
        var r := InsertString(x, xs[1..]);
        forall i | 0 <= i < |r| ensures Less(xs[0], r[i]) { assert r[i] in r; }
      }
    }
  }

  /** sort.Strings */
  function SortStrings(xs: seq<string>): (r: seq<string>)
    ensures forall y :: y in r <==> y in xs
  {
    if xs == [] then [] else
      assert xs == xs[..|xs| - 1] + [xs[|xs| - 1]];
      InsertString(xs[|xs| - 1], SortStrings(xs[..|xs| - 1]))
  }

  ghost predicate Distinct(xs: seq<string>) {
    forall i, j | 0 <= i < j < |xs| :: xs[i] != xs[j]
  }

  lemma {:induction false} SortStringsSorted(xs: seq<string>)
    requires Distinct(xs)
    ensures StrictlySorted(SortStrings(xs))
  {
    if xs != [] {
      SortStringsSorted(xs[..|xs| - 1]);
      InsertStringSorted(xs[|xs| - 1], SortStrings(xs[..|xs| - 1]));
    }
  }

  /** The elements of a set in string order (sort.Strings). */
  ghost function SortedList(s: set<string>): (r: seq<string>)
    ensures StrictlySorted(r) && forall x :: x in r <==> x in s
  {
    if s == {} then [] else
      var x :| x in s;
      InsertStringSorted(x, SortedList(s - {x}));
      InsertString(x, SortedList(s - {x}))
  }

  lemma SortedListUnique(xs: seq<string>, s: set<string>)
    requires StrictlySorted(xs) && forall x :: x in xs <==> x in s
    ensures xs == SortedList(s)
  {
    StrictlySortedUnique(xs, SortedList(s));
  }

  /** sort.SearchStrings with the membership test of containsString: binary search in a sorted list. */
  method ContainsString(values: seq<string>, value: string) returns (found: bool)
    requires StrictlySorted(values)
    ensures found <==> value in values
  {
    var low, high := 0, |values|;
    while low < high
      invariant 0 <= low <= high <= |values|
      invariant forall i | 0 <= i < low :: Less(values[i], value)
      invariant forall i | high <= i < |values| :: Leq(value, values[i])
    {
      var mid := (low + high) / 2;
      LessTotal(values[mid], value);
      if Less(values[mid], value) {
        forall i | 0 <= i < mid { LessTransitive(values[i], values[mid], value); }
        low := mid + 1;
      } else {
        forall i | mid < i < |values| ensures Leq(value, values[i]) {
          if value != values[mid] { LessTransitive(value, values[mid], values[i]); }
        }
        high := mid;
      }
    }
    found := low < |values| && values[low] == value;
    if value in values {
      var i :| 0 <= i < |values| && values[i] == value;
      LessIrreflexive(value);
      if low < i { LessAsymmetric(values[low], values[i]); }
    }
  }

  // ---- numbers ----

  predicate IsDigit(c: char) { '0' <= c <= '9' }

  function Digit(d: nat): (c: char)
    requires d < 10
    ensures IsDigit(c)
  {
    '0' + d as char
  }

  /** The last w decimal digits of n, zero-padded on the left. */
  function Pad(n: nat, w: nat): (s: string)
    ensures |s| == w && forall i | 0 <= i < w :: IsDigit(s[i])
  {
    if w == 0 then [] else Pad(n / 10, w - 1) + [Digit(n % 10)]
  }

  function Value(s: string): nat
    requires forall i | 0 <= i < |s| :: IsDigit(s[i])
  {
    if s == [] then 0 else
      assert IsDigit(s[|s| - 1]);
      10 * Value(s[..|s| - 1]) + (s[|s| - 1] as int - '0' as int)
  }

  function Pow10(w: nat): nat {
    if w == 0 then 1 else 10 * Pow10(w - 1)
  }

  lemma {:induction false} PadValue(n: nat, w: nat)
    requires n < Pow10(w)
    ensures Value(Pad(n, w)) == n
  {
    if w != 0 {
      PadValue(n / 10, w - 1);
      assert Pad(n, w)[..w - 1] == Pad(n / 10, w - 1);
    }
  }

  lemma {:induction false} ValuePad(s: string)
    requires forall i | 0 <= i < |s| :: IsDigit(s[i])
    ensures Value(s) < Pow10(|s|) && Pad(Value(s), |s|) == s
  {
    if s != [] {
      ValuePad(s[..|s| - 1]);
      assert s == s[..|s| - 1] + [s[|s| - 1]];
    }
  }

  /** Equal-width decimal text compares like the numbers. */
  lemma {:induction false} PadLess(n: nat, m: nat, w: nat)
    requires n < m < Pow10(w)
    ensures Less(Pad(n, w), Pad(m, w))
  {
    if w != 0 {
      if n / 10 < m / 10 {
        PadLess(n / 10, m / 10, w - 1);
        LessBlock(Pad(n / 10, w - 1), Pad(m / 10, w - 1), [Digit(n % 10)], [Digit(m % 10)]);
      } else {
        LessCommonPrefix(Pad(n / 10, w - 1), [Digit(n % 10)], [Digit(m % 10)]);
      }
    }
  }
}

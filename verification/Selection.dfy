/** Which candidates a pick may choose from: authorised, matching, and tied at the top priority. */
module Selection {
  import opened Text
  import opened Tables

  /** The order of the scheduler: higher priority first, then by identifier. */
  predicate Before(c: Candidate, d: Candidate) {
    c.priority > d.priority || (c.priority == d.priority && Less(c.id, d.id))
  }

  lemma BeforeIsStrictWeakOrder(c: Candidate, d: Candidate, e: Candidate)
    ensures !Before(c, c)
    ensures Before(c, d) && Before(d, e) ==> Before(c, e)
    ensures !Before(c, d) && !Before(d, e) ==> !Before(c, e)
    ensures !Before(c, d) && !Before(d, c) <==> c.priority == d.priority && c.id == d.id
  {
    LessIrreflexive(c.id);
    if Less(c.id, d.id) && Less(d.id, e.id) { LessTransitive(c.id, d.id, e.id); }
    LessTotal(d.id, c.id);
    LessTotal(e.id, d.id);
    if Less(d.id, c.id) && Less(e.id, d.id) { LessTransitive(e.id, d.id, c.id); }
    if Less(c.id, d.id) { LessAsymmetric(c.id, d.id); }
    if Less(c.id, e.id) { LessAsymmetric(c.id, e.id); }
    if Less(d.id, c.id) { LessAsymmetric(d.id, c.id); }
  }

  ghost predicate Sorted(cs: seq<Candidate>) {
    forall i, j | 0 <= i < j < |cs| :: !Before(cs[j], cs[i])
  }

  function Insert(c: Candidate, cs: seq<Candidate>): (r: seq<Candidate>)
    ensures multiset(r) == multiset(cs) + multiset{c} && |r| == |cs| + 1
  {
    if cs == [] || !Before(c, cs[|cs| - 1]) then cs + [c] else
      assert cs == cs[..|cs| - 1] + [cs[|cs| - 1]];
      Insert(c, cs[..|cs| - 1]) + [cs[|cs| - 1]]
  }

  /** sort.SliceStable under Before. */
  function StableSort(cs: seq<Candidate>): (r: seq<Candidate>)
    ensures multiset(r) == multiset(cs)
  {
    if cs == [] then [] else
      assert cs == cs[..|cs| - 1] + [cs[|cs| - 1]];
      Insert(cs[|cs| - 1], StableSort(cs[..|cs| - 1]))
  }

  lemma SameMembers<T>(xs: seq<T>, ys: seq<T>)
    requires multiset(xs) == multiset(ys)
    ensures |xs| == |ys| && forall x :: x in xs <==> x in ys
  {
    assert |multiset(xs)| == |xs| && |multiset(ys)| == |ys|;
    forall x ensures x in xs <==> x in ys {
      assert x in multiset(xs) <==> x in multiset(ys);
    }
  }

  lemma {:induction false} InsertSorted(c: Candidate, cs: seq<Candidate>)
    requires Sorted(cs)
    ensures Sorted(Insert(c, cs))
  {
    if cs == [] || !Before(c, cs[|cs| - 1]) {
      forall i | 0 <= i < |cs| ensures !Before(c, cs[i]) {
        BeforeIsStrictWeakOrder(c, cs[|cs| - 1], cs[i]);
      }
    } else {
      var front, last := cs[..|cs| - 1], cs[|cs| - 1];
      InsertSorted(c, front);
      var r := Insert(c, front);
      BeforeIsStrictWeakOrder(c, last, c);
      forall i | 0 <= i < |r| ensures !Before(last, r[i]) {
        assert r[i] in multiset(r);
        assert r[i] == c || r[i] in front;
      }
    }
  }

  lemma {:induction false} StableSortSorted(cs: seq<Candidate>)
    ensures Sorted(StableSort(cs))
  {
    if cs != [] {
      StableSortSorted(cs[..|cs| - 1]);
      InsertSorted(cs[|cs| - 1], StableSort(cs[..|cs| - 1]));
    }
  }

  predicate SameRank(c: Candidate, d: Candidate) {
    c.priority == d.priority && c.id == d.id
  }

  function RankOf(k: Candidate): Candidate -> bool {
    d => SameRank(k, d)
  }

  lemma FilterAppend<T(!new)>(f: T -> bool, xs: seq<T>, x: T)
    ensures Filter(f, xs + [x]) == Filter(f, xs) + if f(x) then [x] else []
  {
    assert (xs + [x])[..|xs|] == xs;
  }

  lemma {:induction false} InsertStable(c: Candidate, cs: seq<Candidate>, k: Candidate)
    requires Sorted(cs)
    ensures Filter(RankOf(k), Insert(c, cs)) == Filter(RankOf(k), cs + [c])
  {
    if cs != [] && Before(c, cs[|cs| - 1]) {
      var front, last := cs[..|cs| - 1], cs[|cs| - 1];
      BeforeIsStrictWeakOrder(c, last, c);
      assert Sorted(front) && !(SameRank(k, c) && SameRank(k, last));
      hide Before, Sorted, Filter;
      InsertStable(c, front, k);
      assert cs == front + [last];
      FilterAppend(RankOf(k), front, last);
      FilterAppend(RankOf(k), Insert(c, front), last);
      FilterAppend(RankOf(k), front, c);
      FilterAppend(RankOf(k), cs, c);
      Swap(Filter(RankOf(k), front), if SameRank(k, c) then [c] else [], if SameRank(k, last) then [last] else []);
    }
  }

  lemma Swap<T>(a: seq<T>, x: seq<T>, y: seq<T>)
    requires x == [] || y == []
    ensures a + x + y == a + y + x
  {
    assert a + x + y == a + (x + y) && a + y + x == a + (y + x);
    assert x + y == y + x;
  }

  /** The sort keeps the order of candidates it cannot tell apart, so it is the stable sort. */
  lemma {:induction false} StableSortStable(cs: seq<Candidate>, k: Candidate)
    ensures Filter(RankOf(k), StableSort(cs)) == Filter(RankOf(k), cs)
  {
    if cs != [] {
      var front, last := cs[..|cs| - 1], cs[|cs| - 1];
      StableSortSorted(front);
      StableSortStable(front, k);
      InsertStable(last, StableSort(front), k);
      FilterAppend(RankOf(k), StableSort(front), last);
    }
  }

  /** The leading run of one priority. */
  function Leading(cs: seq<Candidate>, priority: int): (r: seq<Candidate>)
    ensures r <= cs && forall c | c in r :: c.priority == priority
    ensures |r| < |cs| ==> cs[|r|].priority != priority
  {
    if cs == [] || cs[0].priority != priority then [] else [cs[0]] + Leading(cs[1..], priority)
  }

  /** The candidates a pick chooses from, in rotation order. */
  function Top(cs: seq<Candidate>): (r: seq<Candidate>) {
    var sorted := StableSort(cs);
    if sorted == [] then [] else Leading(sorted, sorted[0].priority)
  }

  ghost predicate Maximal(c: Candidate, cs: seq<Candidate>) {
    c in cs && forall d | d in cs :: d.priority <= c.priority
  }

  lemma LeadingOfSorted(s: seq<Candidate>)
    requires s != [] && Sorted(s)
    ensures forall j | 0 <= j < |s| :: s[j].priority <= s[0].priority
    ensures forall j | 0 <= j < |s| :: s[j].priority == s[0].priority <==> j < |Leading(s, s[0].priority)|
  {
    var r := Leading(s, s[0].priority);
    forall j | 0 <= j < |s|
      ensures s[j].priority <= s[0].priority && (s[j].priority == s[0].priority <==> j < |r|)
    {
      assert j > 0 ==> !Before(s[j], s[0]);
      if j < |r| {
        assert r[j] == s[j] && r[j] in r;
      } else {
        assert j > |r| ==> !Before(s[j], s[|r|]);
        assert |r| > 0 ==> !Before(s[|r|], s[0]);
      }
    }
  }

  /** A pick chooses from all candidates of maximal priority and no others, sorted by identifier. */
  lemma TopIsMaximal(cs: seq<Candidate>)
    ensures forall c :: c in Top(cs) <==> Maximal(c, cs)
    ensures Top(cs) == [] <==> cs == []
    ensures Sorted(Top(cs))
  {
    var s := StableSort(cs);
    SameMembers(s, cs);
    StableSortSorted(cs);
    if s != [] {
      LeadingOfSorted(s);
      assert s[0] in cs;
      forall c ensures c in Top(cs) <==> Maximal(c, cs) { TopMember(s, cs, c); }
    }
  }

  lemma TopMember(s: seq<Candidate>, cs: seq<Candidate>, c: Candidate)
    requires s != [] && Sorted(s) && (forall x :: x in s <==> x in cs)
    ensures c in Leading(s, s[0].priority) <==> Maximal(c, cs)
  {
    LeadingOfSorted(s);
    assert s[0] in cs;
    assert forall d | d in cs :: d in s;
    if c in s {
      var j :| 0 <= j < |s| && s[j] == c;
      assert j < |Leading(s, s[0].priority)| ==> Leading(s, s[0].priority)[j] == c;
    }
  }

  ghost predicate DistinctIDs(cs: seq<Candidate>) {
    forall i, j | 0 <= i < j < |cs| :: cs[i].id != cs[j].id
  }

  ghost predicate StrictlyOrdered(cs: seq<Candidate>) {
    forall i, j | 0 <= i < j < |cs| :: Before(cs[i], cs[j])
  }

  lemma HeadTail<T>(xs: seq<T>)
    requires xs != []
    ensures multiset(xs[1..]) == multiset(xs) - multiset{xs[0]}
  {
    assert xs == [xs[0]] + xs[1..];
  }

  lemma StrictHeads(cs: seq<Candidate>, ds: seq<Candidate>)
    requires StrictlyOrdered(cs) && StrictlyOrdered(ds) && cs != [] && ds != [] && cs[0] in ds && ds[0] in cs
    ensures cs[0] == ds[0]
  {
    BeforeIsStrictWeakOrder(cs[0], ds[0], cs[0]);
  }

  lemma {:induction false} StrictlyOrderedUnique(cs: seq<Candidate>, ds: seq<Candidate>)
    requires StrictlyOrdered(cs) && StrictlyOrdered(ds) && multiset(cs) == multiset(ds)
    ensures cs == ds
  {
    SameMembers(cs, ds);
    if cs != [] {
      assert cs[0] in cs && ds[0] in ds;
      StrictHeads(cs, ds);
      HeadTail(cs);
      HeadTail(ds);
      StrictlyOrderedUnique(cs[1..], ds[1..]);
      assert cs == [cs[0]] + cs[1..] && ds == [ds[0]] + ds[1..];
    }
  }

  lemma DistinctSortStrict(cs: seq<Candidate>)
    requires DistinctIDs(cs)
    ensures StrictlyOrdered(StableSort(cs))
  {
    var s := StableSort(cs);
    StableSortSorted(cs);
    forall i, j | 0 <= i < j < |s| ensures Before(s[i], s[j]) {
      DistinctCount(cs, s, i, j);
      BeforeIsStrictWeakOrder(s[i], s[j], s[i]);
    }
  }

  lemma {:induction false} DistinctOnce(cs: seq<Candidate>)
    requires DistinctIDs(cs)
    ensures forall x :: multiset(cs)[x] <= 1
  {
    if cs != [] {
      var n := |cs| - 1;
      DistinctOnce(cs[..n]);
      assert cs == cs[..n] + [cs[n]];
      assert cs[n] !in cs[..n];
    }
  }

  lemma Twice<T>(s: seq<T>, i: nat, j: nat)
    requires i < j < |s| && s[i] == s[j]
    ensures multiset(s)[s[i]] >= 2
  {
    assert s == s[..j] + [s[j]] + s[j + 1..];
    assert s[..j][i] == s[i];
    assert s[i] in multiset(s[..j]);
  }

  lemma DistinctCount(cs: seq<Candidate>, s: seq<Candidate>, i: nat, j: nat)
    requires DistinctIDs(cs) && multiset(s) == multiset(cs) && i < j < |s|
    ensures s[i].id != s[j].id
  {
    SameMembers(s, cs);
    assert s[i] in cs && s[j] in cs;
    DistinctOnce(cs);
    if s[i] == s[j] { Twice(s, i, j); }
  }

  /** With distinct identifiers the rotation list does not depend on the order the host offers candidates in. */
  lemma TopIsCanonical(cs: seq<Candidate>, ds: seq<Candidate>)
    requires DistinctIDs(cs) && multiset(cs) == multiset(ds)
    ensures Top(cs) == Top(ds)
  {
    assert DistinctIDs(ds) by {
      forall i, j | 0 <= i < j < |ds| ensures ds[i].id != ds[j].id { DistinctCount(cs, ds, i, j); }
    }
    DistinctSortStrict(cs);
    DistinctSortStrict(ds);
    StrictlyOrderedUnique(StableSort(cs), StableSort(ds));
  }

  /** The candidates the key may use for the requested provider ("" accepts every provider). */
  function Eligible(normalizeURL: string -> string, scope: Scope, provider: string,
        cs: seq<Candidate>): seq<Candidate> {
    Filter((c: Candidate) => (provider != "" ==> c.provider == provider) && Allows(normalizeURL, scope, c), cs)
  }

  lemma {:induction false} FilterPermutes<T(!new)>(f: T -> bool, xs: seq<T>)
    ensures forall x :: multiset(Filter(f, xs))[x] == if f(x) then multiset(xs)[x] else 0
  {
    if xs != [] {
      var n := |xs| - 1;
      FilterPermutes(f, xs[..n]);
      assert xs == xs[..n] + [xs[n]];
    }
  }

  lemma {:induction false} FilterDistinct(f: Candidate -> bool, cs: seq<Candidate>)
    requires DistinctIDs(cs)
    ensures DistinctIDs(Filter(f, cs))
  {
    if cs != [] {
      var n := |cs| - 1;
      FilterDistinct(f, cs[..n]);
      var r := Filter(f, cs[..n]);
      forall i | 0 <= i < |r| ensures r[i].id != cs[n].id {
        assert r[i] in r && r[i] in cs[..n];
      }
    }
  }

  /** The whole selection, from the offered list to the rotation list, is independent of the offered order. */
  lemma SelectionIsCanonical(normalizeURL: string -> string, scope: Scope, provider: string, cs: seq<Candidate>,
        ds: seq<Candidate>)
    requires DistinctIDs(cs) && multiset(cs) == multiset(ds)
    ensures Top(Eligible(normalizeURL, scope, provider, cs)) == Top(Eligible(normalizeURL, scope, provider, ds))
  {
    var f := (c: Candidate) => (provider != "" ==> c.provider == provider) && Allows(normalizeURL, scope, c);
    FilterPermutes(f, cs);
    FilterPermutes(f, ds);
    FilterDistinct(f, cs);
    assert multiset(Filter(f, cs)) == multiset(Filter(f, ds));
    TopIsCanonical(Filter(f, cs), Filter(f, ds));
  }

  /** The source compacts the sorted slice in place: the kept prefix is the leading run of its first priority. */
  method KeepTop(matched: array<Candidate>) returns (kept: nat)
    requires matched.Length > 0
    modifies matched
    ensures 0 < kept <= matched.Length
    ensures matched[..kept] == Leading(old(matched[..]), old(matched[0]).priority)
    ensures matched[..] == old(matched[..])
  {
    var maxPriority := matched[0].priority;
    ghost var was := matched[..];
    kept := 0;
    var i := 0;
    while i < matched.Length
      invariant 0 <= i == kept <= matched.Length
      invariant matched[..] == was
      invariant forall j | 0 <= j < i :: was[j].priority == maxPriority
    {
      var candidate := matched[i];
      if candidate.priority != maxPriority {
        break;
      }
      matched[kept] := candidate;
      kept := kept + 1;
      i := i + 1;
    }
    LeadingExact(was, maxPriority, kept);
  }

  lemma {:induction false} LeadingExact(cs: seq<Candidate>, priority: int, n: nat)
    requires n <= |cs| && forall j | 0 <= j < n :: cs[j].priority == priority
    requires n < |cs| ==> cs[n].priority != priority
    ensures Leading(cs, priority) == cs[..n]
  {
    if n > 0 {
      LeadingExact(cs[1..], priority, n - 1);
      assert cs[..n] == [cs[0]] + cs[1..][..n - 1];
    }
  }
}

/** Total orders, stable sorting, and when sorting forgets the input order. */
module Orders {

  ghost predicate TotalPreorder<T(!new)>(leq: (T, T) -> bool) {
    && (forall x, y :: leq(x, y) || leq(y, x))
    && (forall x, y, z :: leq(x, y) && leq(y, z) ==> leq(x, z))
  }

  ghost predicate TotalOrder<T(!new)>(leq: (T, T) -> bool) {
    TotalPreorder(leq) && forall x, y :: leq(x, y) && leq(y, x) ==> x == y
  }

  /** Elements of `s` that compare equal are equal. */
  ghost predicate TiesAreEqual<T(!new)>(leq: (T, T) -> bool, s: seq<T>) {
    forall x, y :: x in s && y in s && leq(x, y) && leq(y, x) ==> x == y
  }

  ghost predicate Sorted<T(!new)>(leq: (T, T) -> bool, s: seq<T>) {
    forall i, j :: 0 <= i < j < |s| ==> leq(s[i], s[j])
  }

  // ------------------------------------------------------- lexicographic order

  /** Rust's derived order on vectors and, over characters, on strings. */
  predicate SeqLeq<T(==)>(leq: (T, T) -> bool, a: seq<T>, b: seq<T>) {
    a == [] || (b != [] && if a[0] != b[0] then leq(a[0], b[0]) else SeqLeq(leq, a[1..], b[1..]))
  }

  lemma {:induction false} SeqLeqTotal<T(!new)>(leq: (T, T) -> bool, a: seq<T>, b: seq<T>)
    requires TotalOrder(leq)
    ensures SeqLeq(leq, a, b) || SeqLeq(leq, b, a)
    ensures SeqLeq(leq, a, b) && SeqLeq(leq, b, a) ==> a == b
  {
    if a != [] && b != [] && a[0] == b[0] {
      SeqLeqTotal(leq, a[1..], b[1..]);
      assert a == [a[0]] + a[1..] && b == [b[0]] + b[1..];
    }
  }

  lemma {:induction false} SeqLeqTransitive<T(!new)>(leq: (T, T) -> bool, a: seq<T>, b: seq<T>, c: seq<T>)
    requires TotalOrder(leq) && SeqLeq(leq, a, b) && SeqLeq(leq, b, c)
    ensures SeqLeq(leq, a, c)
  {
    if a != [] && a[0] == b[0] == c[0] {
      SeqLeqTransitive(leq, a[1..], b[1..], c[1..]);
    }
  }

  predicate NatLeq(a: nat, b: nat) { a <= b }

  predicate CharLeq(a: char, b: char) { a <= b }

  /** Lexicographic order of characters; on UTF-8 text it is Rust's `str` order. */
  predicate StringLeq(a: string, b: string) { SeqLeq(CharLeq, a, b) }

  predicate StringsLeq(a: seq<string>, b: seq<string>) { SeqLeq(StringLeq, a, b) }

  lemma StringLeqIsOrder()
    ensures TotalOrder(StringLeq)
  {
    assert TotalOrder(CharLeq);
    forall x, y
      ensures StringLeq(x, y) || StringLeq(y, x)
      ensures StringLeq(x, y) && StringLeq(y, x) ==> x == y
    {
      SeqLeqTotal(CharLeq, x, y);
    }
    forall x, y, z | StringLeq(x, y) && StringLeq(y, z) ensures StringLeq(x, z) {
      SeqLeqTransitive(CharLeq, x, y, z);
    }
  }

  /** `a` is a prefix of `b`, or has the smaller element where they first differ. */
  ghost predicate ListedBefore<T>(leq: (T, T) -> bool, a: seq<T>, b: seq<T>) {
    exists k :: 0 <= k <= |a| && DecidesAt(leq, a, b, k)
  }

  ghost predicate DecidesAt<T>(leq: (T, T) -> bool, a: seq<T>, b: seq<T>, k: nat)
    requires k <= |a|
  {
    k <= |b| && a[..k] == b[..k] && (k == |a| || (k < |b| && a[k] != b[k] && leq(a[k], b[k])))
  }

  lemma {:induction false} SeqLeqMeaning<T>(leq: (T, T) -> bool, a: seq<T>, b: seq<T>)
    ensures SeqLeq(leq, a, b) <==> ListedBefore(leq, a, b)
  {
    if a == [] {
      assert DecidesAt(leq, a, b, 0);
    } else if b != [] && a[0] == b[0] {
      SeqLeqMeaning(leq, a[1..], b[1..]);
      if ListedBefore(leq, a[1..], b[1..]) {
        var k :| 0 <= k <= |a[1..]| && DecidesAt(leq, a[1..], b[1..], k);
        assert a[..k + 1] == [a[0]] + a[1..][..k] && b[..k + 1] == [b[0]] + b[1..][..k];
        assert DecidesAt(leq, a, b, k + 1);
      }
      if ListedBefore(leq, a, b) {
        var k :| 0 <= k <= |a| && DecidesAt(leq, a, b, k);
        assert a[1..][..k - 1] == a[..k][1..] && b[1..][..k - 1] == b[..k][1..];
        assert DecidesAt(leq, a[1..], b[1..], k - 1);
      }
    } else if b != [] {
      assert forall k :: 0 < k <= |a| && k <= |b| ==> a[..k][0] == a[0] && b[..k][0] == b[0];
      assert leq(a[0], b[0]) ==> DecidesAt(leq, a, b, 0);
    }
  }

  /** Dictionary order: `a` is a prefix of `b`, or its first different character has the
      smaller code. */
  ghost predicate ReadsBefore(a: string, b: string) {
    exists k :: 0 <= k <= |a| && k <= |b| && a[..k] == b[..k] &&
      (k == |a| || (k < |b| && (a[k] as int) < (b[k] as int)))
  }

  lemma StringLeqMeaning(a: string, b: string)
    ensures StringLeq(a, b) <==> ReadsBefore(a, b)
  {
    SeqLeqMeaning(CharLeq, a, b);
    if ListedBefore(CharLeq, a, b) {
      var k :| 0 <= k <= |a| && DecidesAt(CharLeq, a, b, k);
      assert a[..k] == b[..k];
    }
    if ReadsBefore(a, b) {
      var k :| 0 <= k <= |a| && k <= |b| && a[..k] == b[..k] &&
        (k == |a| || (k < |b| && (a[k] as int) < (b[k] as int)));
      assert DecidesAt(CharLeq, a, b, k);
    }
  }

  /** The same for lists of strings. */
  ghost predicate AllReadBefore(a: seq<string>, b: seq<string>) {
    exists k :: 0 <= k <= |a| && k <= |b| && a[..k] == b[..k] &&
      (k == |a| || (k < |b| && a[k] != b[k] && ReadsBefore(a[k], b[k])))
  }

  lemma StringsLeqMeaning(a: seq<string>, b: seq<string>)
    ensures StringsLeq(a, b) <==> AllReadBefore(a, b)
  {
    SeqLeqMeaning(StringLeq, a, b);
    if ListedBefore(StringLeq, a, b) {
      var k :| 0 <= k <= |a| && DecidesAt(StringLeq, a, b, k);
      if k < |a| { StringLeqMeaning(a[k], b[k]); }
      assert a[..k] == b[..k];
    }
    if AllReadBefore(a, b) {
      var k :| 0 <= k <= |a| && k <= |b| && a[..k] == b[..k] &&
        (k == |a| || (k < |b| && a[k] != b[k] && ReadsBefore(a[k], b[k])));
      if k < |a| { StringLeqMeaning(a[k], b[k]); }
      assert DecidesAt(StringLeq, a, b, k);
    }
  }

  lemma StringsLeqIsOrder()
    ensures TotalOrder(StringsLeq)
  {
    StringLeqIsOrder();
    forall x, y
      ensures StringsLeq(x, y) || StringsLeq(y, x)
      ensures StringsLeq(x, y) && StringsLeq(y, x) ==> x == y
    {
      SeqLeqTotal(StringLeq, x, y);
    }
    forall x, y, z | StringsLeq(x, y) && StringsLeq(y, z) ensures StringsLeq(x, z) {
      SeqLeqTransitive(StringLeq, x, y, z);
    }
  }

  /** Lexicographic order on pairs, the shape of a derived order on records. */
  function PairLeq<A(==), B>(first: (A, A) -> bool, second: (B, B) -> bool): ((A, B), (A, B)) -> bool {
    (x: (A, B), y: (A, B)) => if x.0 != y.0 then first(x.0, y.0) else second(x.1, y.1)
  }

  lemma PairLeqIsOrder<A(!new), B(!new)>(first: (A, A) -> bool, second: (B, B) -> bool)
    requires TotalOrder(first) && TotalOrder(second)
    ensures TotalOrder(PairLeq(first, second))
  {
    var leq := PairLeq(first, second);
    forall x: (A, B), y: (A, B)
      ensures leq(x, y) || leq(y, x)
      ensures leq(x, y) && leq(y, x) ==> x == y
    {
      assert first(x.0, y.0) || first(y.0, x.0);
      assert second(x.1, y.1) || second(y.1, x.1);
    }
    forall x: (A, B), y: (A, B), z: (A, B) | leq(x, y) && leq(y, z) ensures leq(x, z) {
      assert first(x.0, y.0) && first(y.0, z.0) ==> first(x.0, z.0);
      assert second(x.1, y.1) && second(y.1, z.1) ==> second(x.1, z.1);
      assert first(x.0, y.0) && first(y.0, x.0) ==> x.0 == y.0;
    }
  }

  // -------------------------------------------------------------------- sorting

  /** Stable insertion: `x` goes in front of the first element it does not exceed. */
  function Insert<T>(x: T, s: seq<T>, leq: (T, T) -> bool): (r: seq<T>)
    ensures multiset(r) == multiset{x} + multiset(s)
  {
    if s == [] then [x]
    else if leq(x, s[0]) then [x] + s
    else
      assert s == [s[0]] + s[1..];
      [s[0]] + Insert(x, s[1..], leq)
  }

  /** The slice sort used throughout the source (`sort`, `sort_by`). */
  function SortBy<T>(s: seq<T>, leq: (T, T) -> bool): (r: seq<T>)
    ensures multiset(r) == multiset(s)
  {
    if s == [] then [] else
      assert s == [s[0]] + s[1..];
      Insert(s[0], SortBy(s[1..], leq), leq)
  }

  lemma SameMultiset<T>(s: seq<T>, t: seq<T>)
    requires multiset(s) == multiset(t)
    ensures |s| == |t| && forall x :: x in s <==> x in t
  {
    assert |multiset(s)| == |s| && |multiset(t)| == |t|;
    forall x ensures x in s <==> x in t {
      assert x in multiset(s) <==> x in s;
      assert x in multiset(t) <==> x in t;
    }
  }

  lemma {:induction false} InsertSorted<T(!new)>(x: T, s: seq<T>, leq: (T, T) -> bool)
    requires TotalPreorder(leq) && Sorted(leq, s)
    ensures Sorted(leq, Insert(x, s, leq))
  {
    if s != [] && !leq(x, s[0]) {
      InsertSorted(x, s[1..], leq);
      var r := Insert(x, s[1..], leq);
      forall y | y in r ensures leq(s[0], y) {
        assert y in multiset(r);
        if y != x {
          assert y in s[1..];
        }
      }
    }
  }

  lemma {:induction false} SortBySorted<T(!new)>(s: seq<T>, leq: (T, T) -> bool)
    requires TotalPreorder(leq)
    ensures Sorted(leq, SortBy(s, leq))
  {
    if s != [] {
      SortBySorted(s[1..], leq);
      InsertSorted(s[0], SortBy(s[1..], leq), leq);
    }
  }

  lemma {:induction false} SortFixesSorted<T(!new)>(s: seq<T>, leq: (T, T) -> bool)
    requires Sorted(leq, s)
    ensures SortBy(s, leq) == s
  {
    if s != [] {
      SortFixesSorted(s[1..], leq);
      assert s == [s[0]] + s[1..];
    }
  }

  /** Sorting twice is sorting once, ties or no ties. */
  lemma SortIdempotent<T(!new)>(s: seq<T>, leq: (T, T) -> bool)
    requires TotalPreorder(leq)
    ensures SortBy(SortBy(s, leq), leq) == SortBy(s, leq)
  {
    SortBySorted(s, leq);
    SortFixesSorted(SortBy(s, leq), leq);
  }

  lemma HeadIsLeast<T(!new)>(s: seq<T>, leq: (T, T) -> bool, x: T)
    requires TotalPreorder(leq) && Sorted(leq, s) && x in s
    ensures leq(s[0], x)
  {
    var i :| 0 <= i < |s| && s[i] == x;
    assert i == 0 ==> leq(x, x);
  }

  lemma DropHead<T>(s: seq<T>)
    requires s != []
    ensures multiset(s[1..]) == multiset(s) - multiset{s[0]}
  {
    assert s == [s[0]] + s[1..];
  }

  /** Two sorted arrangements of one multiset coincide when ties are equal. */
  lemma {:induction false} SortedIsUnique<T(!new)>(s: seq<T>, t: seq<T>, leq: (T, T) -> bool)
    requires TotalPreorder(leq) && TiesAreEqual(leq, s)
    requires Sorted(leq, s) && Sorted(leq, t) && multiset(s) == multiset(t)
    ensures s == t
  {
    SameMultiset(s, t);
    if s != [] {
      HeadIsLeast(s, leq, t[0]);
      HeadIsLeast(t, leq, s[0]);
      DropHead(s);
      DropHead(t);
      SortedIsUnique(s[1..], t[1..], leq);
      assert s == [s[0]] + s[1..] && t == [t[0]] + t[1..];
    }
  }

  /** Sorting maps all arrangements of a list with equal ties to one list. */
  lemma SortForgetsOrder<T(!new)>(s: seq<T>, t: seq<T>, leq: (T, T) -> bool)
    requires TotalPreorder(leq) && TiesAreEqual(leq, s) && multiset(s) == multiset(t)
    ensures SortBy(s, leq) == SortBy(t, leq)
  {
    SortBySorted(s, leq);
    SortBySorted(t, leq);
    SameMultiset(s, SortBy(s, leq));
    SortedIsUnique(SortBy(s, leq), SortBy(t, leq), leq);
  }

  // ------------------------------------------------------------ strictly ascending

  ghost predicate Ascending<T(!new)>(before: (T, T) -> bool, s: seq<T>) {
    forall i, j :: 0 <= i < j < |s| ==> before(s[i], s[j])
  }

  lemma AscendingTail<T(!new)>(before: (T, T) -> bool, s: seq<T>, x: T)
    requires Ascending(before, s) && s != [] && forall y :: !before(y, y)
    ensures Ascending(before, s[1..]) && (x in s[1..] <==> x in s && x != s[0])
  {
    if x in s && x != s[0] {
      var i :| 0 <= i < |s| && s[i] == x;
      assert s[1..][i - 1] == x;
    }
  }

  /** A strictly ascending list is determined by its elements. */
  lemma {:induction false} AscendingUnique<T(!new)>(before: (T, T) -> bool, s: seq<T>, t: seq<T>)
    requires (forall x :: !before(x, x)) && forall x, y :: before(x, y) ==> !before(y, x)
    requires Ascending(before, s) && Ascending(before, t) && forall x :: x in s <==> x in t
    ensures s == t
  {
    assert |s| > 0 ==> s[0] in s;
    assert |t| > 0 ==> t[0] in t;
    if |s| > 0 && |t| > 0 {
      var i :| 0 <= i < |t| && t[i] == s[0];
      var j :| 0 <= j < |s| && s[j] == t[0];
      assert s[0] == t[0];
      forall x ensures x in s[1..] <==> x in t[1..] {
        AscendingTail(before, s, x);
        AscendingTail(before, t, x);
      }
      AscendingTail(before, s, s[0]);
      AscendingTail(before, t, t[0]);
      AscendingUnique(before, s[1..], t[1..]);
    }
  }

  // ------------------------------------------------------------- without repeats

  predicate NoRepeats<T(==)>(s: seq<T>) {
    forall i, j :: 0 <= i < j < |s| ==> s[i] != s[j]
  }

  predicate NamedTwice(ids: seq<string>) {
    exists i, j :: 0 <= i < j < |ids| && ids[i] == ids[j]
  }

  lemma NoRepeatsTail<T>(s: seq<T>)
    requires NoRepeats(s) && s != []
    ensures NoRepeats(s[1..]) && forall x :: x in s[1..] <==> x in s && x != s[0]
  {
    forall x | x in s && x != s[0] ensures x in s[1..] {
      var i :| 0 <= i < |s| && s[i] == x;
      assert s[1..][i - 1] == x;
    }
  }

  lemma {:induction false} CountOnce<K>(s: seq<K>, k: K)
    requires NoRepeats(s)
    ensures multiset(s)[k] <= 1
  {
    if s != [] {
      assert s == [s[0]] + s[1..];
      CountOnce(s[1..], k);
    }
  }

  lemma NoRepeatsIsMultiset<K>(s: seq<K>, t: seq<K>)
    requires NoRepeats(s) && multiset(s) == multiset(t)
    ensures NoRepeats(t)
  {
    forall i, j | 0 <= i < j < |t| ensures t[i] != t[j] {
      CountOnce(s, t[i]);
      assert t == t[..j] + t[j..];
      assert t[..j][i] in t[..j] && t[j..][0] in t[j..];
    }
  }

  // ------------------------------------------------- mapping and rearrangement

  function MapSeq<A, B>(f: A -> B, s: seq<A>): (r: seq<B>)
    ensures |r| == |s| && forall i :: 0 <= i < |s| ==> r[i] == f(s[i])
  {
    seq(|s|, i requires 0 <= i < |s| => f(s[i]))
  }

  lemma MapCons<A, B>(f: A -> B, x: A, s: seq<A>)
    ensures MapSeq(f, [x] + s) == [f(x)] + MapSeq(f, s)
  {
  }

  lemma {:induction false} MapInsert<A(!new), B(!new)>(f: A -> B, x: A, s: seq<A>, leqA: (A, A) -> bool,
      leqB: (B, B) -> bool)
    requires forall a, b :: leqB(f(a), f(b)) == leqA(a, b)
    ensures MapSeq(f, Insert(x, s, leqA)) == Insert(f(x), MapSeq(f, s), leqB)
  {
    if s != [] {
      assert s == [s[0]] + s[1..];
      MapCons(f, s[0], s[1..]);
      MapCons(f, x, s);
      MapCons(f, s[0], Insert(x, s[1..], leqA));
      MapInsert(f, x, s[1..], leqA, leqB);
      assert MapSeq(f, s)[1..] == MapSeq(f, s[1..]);
    }
  }

  /** A map that preserves the sort key commutes with sorting. */
  lemma {:induction false} MapSort<A(!new), B(!new)>(f: A -> B, s: seq<A>, leqA: (A, A) -> bool, leqB: (B, B) -> bool)
    requires forall a, b :: leqB(f(a), f(b)) == leqA(a, b)
    ensures MapSeq(f, SortBy(s, leqA)) == SortBy(MapSeq(f, s), leqB)
  {
    if s != [] {
      assert MapSeq(f, s)[1..] == MapSeq(f, s[1..]);
      MapSort(f, s[1..], leqA, leqB);
      MapInsert(f, s[0], SortBy(s[1..], leqA), leqA, leqB);
    }
  }

  /** `pi` is a one-to-one correspondence between the positions of two lists. */
  ghost predicate IsMatching(n: nat, pi: seq<nat>) {
    && |pi| == n
    && (forall i :: 0 <= i < n ==> pi[i] < n)
    && (forall i, j :: 0 <= i < j < n ==> pi[i] != pi[j])
  }

  /** `b` is `a` rearranged, with corresponding entries related by `same`. */
  ghost predicate Rearranged<T(!new)>(a: seq<T>, b: seq<T>, same: (T, T) -> bool) {
    |a| == |b| && exists pi :: IsMatching(|a|, pi) && forall i :: 0 <= i < |a| ==> same(a[i], b[pi[i]])
  }

  function Without<T>(s: seq<T>, k: nat): (r: seq<T>)
    requires k < |s|
    ensures |r| == |s| - 1 && multiset(r) + multiset{s[k]} == multiset(s)
    ensures forall i :: 0 <= i < |r| ==> r[i] == if i < k then s[i] else s[i + 1]
  {
    assert s == s[..k] + [s[k]] + s[k + 1..];
    s[..k] + s[k + 1..]
  }

  lemma {:induction false} MatchingGivesMultiset<K>(a: seq<K>, b: seq<K>, pi: seq<nat>)
    requires |a| == |b| && IsMatching(|a|, pi) && forall i :: 0 <= i < |a| ==> a[i] == b[pi[i]]
    ensures multiset(a) == multiset(b)
  {
    if |a| > 0 {
      var last := |a| - 1;
      var k := pi[last];
      var pi' := seq(last, i requires 0 <= i < last => if pi[i] < k then pi[i] else pi[i] - 1);
      MatchingGivesMultiset(a[..last], Without(b, k), pi');
      assert a == a[..last] + [a[last]];
    }
  }

  lemma FindLast<K>(a: seq<K>, b: seq<K>) returns (k: nat)
    requires multiset(a) == multiset(b) && |a| > 0
    ensures |a| == |b| && k < |b| && b[k] == a[|a| - 1] && multiset(a[..|a| - 1]) == multiset(Without(b, k))
  {
    SameMultiset(a, b);
    var last := |a| - 1;
    assert a[last] in a;
    k :| 0 <= k < |b| && b[k] == a[last];
    assert a == a[..last] + [a[last]];
    assert multiset(a[..last]) == multiset(a) - multiset{a[last]};
  }

  lemma {:induction false} MultisetGivesMatching<K>(a: seq<K>, b: seq<K>) returns (pi: seq<nat>)
    requires multiset(a) == multiset(b)
    ensures |a| == |b| && IsMatching(|a|, pi) && forall i :: 0 <= i < |a| ==> a[i] == b[pi[i]]
  {
    if |a| == 0 {
      SameMultiset(a, b);
      pi := [];
    } else {
      var k := FindLast(a, b);
      var front := MultisetGivesMatching(a[..|a| - 1], Without(b, k));
      pi := ExtendMatching(front, k);
    }
  }

  /** Adds the correspondence of a last position with position `k` of the other list. */
  ghost function ExtendMatching(pi: seq<nat>, k: nat): (r: seq<nat>)
    requires IsMatching(|pi|, pi) && k <= |pi|
    ensures IsMatching(|pi| + 1, r) && r[|pi|] == k
    ensures forall i :: 0 <= i < |pi| ==> r[i] == if pi[i] < k then pi[i] else pi[i] + 1
  {
    seq(|pi|, i requires 0 <= i < |pi| => if pi[i] < k then pi[i] else pi[i] + 1) + [k]
  }

  /** Being rearranged, entry for entry equal under `f`, is equality of multisets. */
  lemma RearrangedIffMultiset<T(!new), K>(a: seq<T>, b: seq<T>, f: T -> K, same: (T, T) -> bool)
    requires forall x, y :: x in a && y in b ==> (same(x, y) <==> f(x) == f(y))
    ensures Rearranged(a, b, same) <==> multiset(MapSeq(f, a)) == multiset(MapSeq(f, b))
  {
    if Rearranged(a, b, same) {
      var pi :| IsMatching(|a|, pi) && forall i :: 0 <= i < |a| ==> same(a[i], b[pi[i]]);
      MatchingGivesMultiset(MapSeq(f, a), MapSeq(f, b), pi);
    }
    if multiset(MapSeq(f, a)) == multiset(MapSeq(f, b)) {
      var pi := MultisetGivesMatching(MapSeq(f, a), MapSeq(f, b));
      assert forall i :: 0 <= i < |a| ==> same(a[i], b[pi[i]]);
    }
  }
}

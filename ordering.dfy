/** The ordering the selector applies to the kept subtracks of a track: a
    stable sort, descending by wins and then descending by rating, where a
    record without a rank has the rating key 0. It is
    modelled by an insertion sort of its own; StableSortIsUnique shows that
    any stable sort on these keys gives the same list. */
module Ordering {
  import opened Options
  import opened Subtracks

  /** The pair of sort keys of a record; None stands for an undefined key. */
  datatype SortKey = SortKey(wins: Option<int>, rating: Option<int>)

  /** First key `s.wins`; second key `s.rank ? s.rank.rating : 0`. */
  function KeyOf(s: Subtrack): SortKey {
    SortKey(s.wins, if s.rank.Some? then s.rank.value.rating else Some(0))
  }

  /** Descending on one key: a larger number comes first, and an undefined
      key comes ahead of every number. */
  predicate ComesFirst(a: Option<int>, b: Option<int>) {
    (a.None? && b.Some?) || (a.Some? && b.Some? && a.value > b.value)
  }

  /** Strictly ahead: by wins, and by rating among equal wins. */
  predicate KeyAhead(a: SortKey, b: SortKey) {
    ComesFirst(a.wins, b.wins) || (a.wins == b.wins && ComesFirst(a.rating, b.rating))
  }

  predicate Ahead(x: Subtrack, y: Subtrack) {
    KeyAhead(KeyOf(x), KeyOf(y))
  }

  /** No record is strictly ahead of one that precedes it. */
  predicate Ordered(s: seq<Subtrack>) {
    forall i, j :: 0 <= i < j < |s| ==> !Ahead(s[j], s[i])
  }

  /** The records of `s` whose keys are `k`, in their order in `s`. A sort
      is stable when it leaves each of these subsequences as it was. */
  function WithKey(s: seq<Subtrack>, k: SortKey): seq<Subtrack> {
    if s == [] then []
    else (if KeyOf(s[0]) == k then [s[0]] else []) + WithKey(s[1..], k)
  }

  /** WithKey keeps exactly the records of `s` whose keys are `k`. */
  lemma {:induction false} WithKeyMembers(s: seq<Subtrack>, k: SortKey)
    ensures forall x :: x in WithKey(s, k) <==> x in s && KeyOf(x) == k
  {
    if s != [] {
      WithKeyMembers(s[1..], k);
      assert s == [s[0]] + s[1..];
    }
  }

  lemma WithKeyMember(s: seq<Subtrack>, k: SortKey, x: Subtrack)
    ensures x in WithKey(s, k) <==> x in s && KeyOf(x) == k
  {
    WithKeyMembers(s, k);
  }

  lemma WithKeyCons(h: Subtrack, t: seq<Subtrack>, k: SortKey)
    ensures WithKey([h] + t, k) == (if KeyOf(h) == k then [h] else []) + WithKey(t, k)
  {
    assert ([h] + t)[1..] == t;
  }

  /** Neither ahead of the other means equal keys. */
  lemma NeitherAheadMeansSameKey(x: Subtrack, y: Subtrack)
    requires !Ahead(x, y) && !Ahead(y, x)
    ensures KeyOf(x) == KeyOf(y)
  {
  }

  /** "Not ahead" is transitive: Ahead is a strict weak order. */
  lemma NotAheadTransitive(x: Subtrack, y: Subtrack, z: Subtrack)
    requires !Ahead(x, y) && !Ahead(y, z)
    ensures !Ahead(x, z)
  {
  }

  lemma OrderedCons(h: Subtrack, t: seq<Subtrack>)
    requires Ordered(t)
    requires forall y :: y in t ==> !Ahead(y, h)
    ensures Ordered([h] + t)
  {
    var s := [h] + t;
    forall i, j | 0 <= i < j < |s| ensures !Ahead(s[j], s[i]) {
      assert s[j] == t[j - 1];
      if i > 0 {
        assert s[i] == t[i - 1];
      }
    }
  }

  /** Places `x` after every record strictly ahead of it and before the
      first one that is not: in front of the records with its own keys. */
  function Insert(x: Subtrack, s: seq<Subtrack>): (r: seq<Subtrack>)
    ensures |r| == |s| + 1
  {
    if s == [] || !Ahead(s[0], x) then [x] + s
    else [s[0]] + Insert(x, s[1..])
  }

  lemma {:induction false} InsertPermutes(x: Subtrack, s: seq<Subtrack>)
    ensures multiset(Insert(x, s)) == multiset(s) + multiset{x}
  {
    if s == [] || !Ahead(s[0], x) {
    } else {
      InsertPermutes(x, s[1..]);
      assert s == [s[0]] + s[1..];
    }
  }

  lemma {:induction false} InsertKeepsOrder(x: Subtrack, s: seq<Subtrack>)
    requires Ordered(s)
    ensures Ordered(Insert(x, s))
  {
    if s == [] || !Ahead(s[0], x) {
      forall y | y in s ensures !Ahead(y, x) {
        var j :| 0 <= j < |s| && s[j] == y;
        if j > 0 {
          NotAheadTransitive(y, s[0], x);
        }
      }
      OrderedCons(x, s);
    } else {
      var t := Insert(x, s[1..]);
      assert Ordered(s[1..]);
      InsertKeepsOrder(x, s[1..]);
      InsertPermutes(x, s[1..]);
      forall y | y in t ensures !Ahead(y, s[0]) {
        assert y in multiset(t);
        if y != x {
          assert y in multiset(s[1..]);
          var j :| 0 <= j < |s[1..]| && s[1..][j] == y;
          assert s[j + 1] == y;
        }
      }
      OrderedCons(s[0], t);
    }
  }

  lemma {:induction false} InsertWithKey(x: Subtrack, s: seq<Subtrack>, k: SortKey)
    ensures WithKey(Insert(x, s), k) == (if KeyOf(x) == k then [x] else []) + WithKey(s, k)
  {
    if s == [] || !Ahead(s[0], x) {
      WithKeyCons(x, s, k);
    } else {
      var t := Insert(x, s[1..]);
      WithKeyCons(s[0], t, k);
      InsertWithKey(x, s[1..], k);
      WithKeyCons(s[0], s[1..], k);
      assert s == [s[0]] + s[1..];
      var p0 := if KeyOf(s[0]) == k then [s[0]] else [];
      var px := if KeyOf(x) == k then [x] else [];
      assert p0 == [] || px == [];
      assert WithKey(Insert(x, s), k) == p0 + (px + WithKey(s[1..], k));
    }
  }

  /** The ordering of `_.orderBy` with both keys descending: a permutation
      of its input, ordered by wins and then rating, and stable. */
  function SortByWinsRating(s: seq<Subtrack>): (r: seq<Subtrack>)
    ensures multiset(r) == multiset(s)
    ensures Ordered(r)
    ensures forall k :: WithKey(r, k) == WithKey(s, k)
  {
    if s == [] then []
    else
      var t := SortByWinsRating(s[1..]);
      assert s == [s[0]] + s[1..];
      InsertPermutes(s[0], t);
      InsertKeepsOrder(s[0], t);
      assert forall k :: WithKey(Insert(s[0], t), k) == WithKey(s, k) by {
        forall k ensures WithKey(Insert(s[0], t), k) == WithKey(s, k) {
          InsertWithKey(s[0], t, k);
        }
      }
      Insert(s[0], t)
  }

  /** Ordered, spelled out the way the comparator reads: wins never
      increase, and among equal wins the rating never increases. */
  lemma OrderedByWinsThenRating(s: seq<Subtrack>, i: int, j: int)
    requires Ordered(s) && 0 <= i < j < |s|
    ensures s[i].wins.Some? && s[j].wins.Some? ==> s[i].wins.value >= s[j].wins.value
    ensures s[i].wins == s[j].wins && KeyOf(s[i]).rating.Some? && KeyOf(s[j]).rating.Some?
            ==> KeyOf(s[i]).rating.value >= KeyOf(s[j]).rating.value
  {
  }

  lemma NoKeysMeansEmpty(s: seq<Subtrack>)
    requires forall k :: WithKey(s, k) == []
    ensures s == []
  {
    if s != [] {
      WithKeyMembers(s, KeyOf(s[0]));
    }
  }

  /** Nothing in an ordered list is strictly ahead of its first record. */
  lemma NothingAheadOfHead(s: seq<Subtrack>, z: Subtrack)
    requires Ordered(s) && z in s
    ensures !Ahead(z, s[0])
  {
    var j :| 0 <= j < |s| && s[j] == z;
    if j > 0 {
      assert !Ahead(s[j], s[0]);
    }
  }

  /** Two ordered lists with the same per-key subsequences start with the
      same record. */
  lemma SameFirst(r: seq<Subtrack>, q: seq<Subtrack>)
    requires Ordered(r) && Ordered(q) && r != [] && q != []
    requires forall k :: WithKey(r, k) == WithKey(q, k)
    ensures r[0] == q[0]
  {
    var x, y := r[0], q[0];
    assert !Ahead(y, x) by {
      WithKeyMember(q, KeyOf(y), y);
      WithKeyMember(r, KeyOf(y), y);
      NothingAheadOfHead(r, y);
    }
    assert !Ahead(x, y) by {
      WithKeyMember(r, KeyOf(x), x);
      WithKeyMember(q, KeyOf(x), x);
      NothingAheadOfHead(q, x);
    }
    NeitherAheadMeansSameKey(x, y);
    var k := KeyOf(x);
    assert WithKey(r, k)[0] == x by {
      assert r == [x] + r[1..];
      WithKeyCons(x, r[1..], k);
    }
    assert WithKey(q, k)[0] == y by {
      assert q == [y] + q[1..];
      WithKeyCons(y, q[1..], k);
    }
    assert WithKey(r, k) == WithKey(q, k);
  }

  /** An ordered list is determined by its per-key subsequences: two
      ordered lists that agree on every WithKey are equal. */
  lemma {:induction false} OrderedDeterminedByKeys(r: seq<Subtrack>, q: seq<Subtrack>)
    requires Ordered(r) && Ordered(q)
    requires forall k :: WithKey(r, k) == WithKey(q, k)
    ensures r == q
    decreases |r|
  {
    if r == [] {
      NoKeysMeansEmpty(q);
    } else if q == [] {
      NoKeysMeansEmpty(r);
    } else {
      SameFirst(r, q);
      var x := r[0];
      forall k ensures WithKey(r[1..], k) == WithKey(q[1..], k) {
        var pre := if KeyOf(x) == k then [x] else [];
        assert WithKey(r, k) == pre + WithKey(r[1..], k);
        assert WithKey(q, k) == pre + WithKey(q[1..], k);
        assert WithKey(r[1..], k) == WithKey(r, k)[|pre|..];
        assert WithKey(q[1..], k) == WithKey(q, k)[|pre|..];
      }
      assert Ordered(r[1..]) && Ordered(q[1..]);
      OrderedDeterminedByKeys(r[1..], q[1..]);
      assert r == [x] + r[1..] && q == [x] + q[1..];
    }
  }

  /** Any ordered rearrangement that keeps records with equal keys in their
      input order (any stable sort on these keys) is SortByWinsRating. */
  lemma StableSortIsUnique(s: seq<Subtrack>, r: seq<Subtrack>)
    requires Ordered(r)
    requires forall k :: WithKey(r, k) == WithKey(s, k)
    ensures r == SortByWinsRating(s)
  {
    OrderedDeterminedByKeys(r, SortByWinsRating(s));
  }
}

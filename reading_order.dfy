/**
 * The reading order in which the copy path arranges the selected cards: ascending `y`,
 * ties broken by ascending `x` (src/clipboard.ts:14-19). `Array.prototype.sort` is stable,
 * so cards at the same position keep the order they were selected in.
 *
 * `SortByReadingOrder` is the specification (an insertion sort on sequences), `SortCards`
 * sorts the caller's array in place, as the source does, and is proved to produce it.
 */
module ReadingOrder {
  import opened Cards

  /** The comparator handed to `cards.sort`: negative when `a` reads before `b`. */
  function Compare(a: Card, b: Card): (r: int)
    ensures r < 0 <==> a.pos.y < b.pos.y || (a.pos.y == b.pos.y && a.pos.x < b.pos.x)
    ensures r == 0 <==> a.pos == b.pos
  {
    if a.pos.y != b.pos.y then a.pos.y - b.pos.y else a.pos.x - b.pos.x
  }

  /** `a` may stand before `b` in a sorted sequence. */
  predicate InOrder(a: Card, b: Card) {
    Compare(a, b) <= 0
  }

  /** Non-decreasing in `y`, and non-decreasing in `x` among cards with equal `y`. */
  predicate Sorted(s: seq<Card>) {
    forall i, j :: 0 <= i < j < |s| ==> InOrder(s[i], s[j])
  }

  /**
   * Inserts `c` into `t` from the right: `c` goes after every card that does not read
   * strictly after it, which is what keeps the sort stable.
   */
  function Insert(t: seq<Card>, c: Card): seq<Card>
    decreases |t|
  {
    if t == [] then [c]
    else if Compare(t[|t| - 1], c) > 0 then Insert(t[..|t| - 1], c) + [t[|t| - 1]]
    else t + [c]
  }

  /** Inserting adds exactly the one card. */
  lemma {:induction false} InsertAddsCard(t: seq<Card>, c: Card)
    ensures |Insert(t, c)| == |t| + 1
    ensures multiset(Insert(t, c)) == multiset(t) + multiset{c}
    decreases |t|
  {
    if t != [] {
      var init, last := t[..|t| - 1], t[|t| - 1];
      assert t == init + [last];
      InsertAddsCard(init, c);
    }
  }

  /** The cards of `s` in reading order; the order `cards.sort` leaves the array in. */
  function SortByReadingOrder(s: seq<Card>): (r: seq<Card>)
    ensures |r| == |s|
    ensures multiset(r) == multiset(s)
    ensures Sorted(r)
  {
    if s == [] then []
    else
      var init, last := s[..|s| - 1], s[|s| - 1];
      assert s == init + [last];
      InsertKeepsOrder(SortByReadingOrder(init), last);
      InsertAddsCard(SortByReadingOrder(init), last);
      Insert(SortByReadingOrder(init), last)
  }

  /** A card of a sorted sequence never reads after its last card. */
  lemma SortedLast(s: seq<Card>, y: Card)
    requires Sorted(s) && y in s
    ensures InOrder(y, s[|s| - 1])
  {
    var k :| 0 <= k < |s| && s[k] == y;
    if k < |s| - 1 {
      assert InOrder(s[k], s[|s| - 1]);
    }
  }

  lemma {:induction false} InsertKeepsOrder(t: seq<Card>, c: Card)
    requires Sorted(t)
    ensures Sorted(Insert(t, c))
    decreases |t|
  {
    if t != [] {
      var init, last := t[..|t| - 1], t[|t| - 1];
      assert t == init + [last];
      var r := Insert(t, c);
      if Compare(last, c) > 0 {
        var u := Insert(init, c);
        InsertAddsCard(init, c);
        assert Sorted(init) by {
          forall i, j | 0 <= i < j < |init| ensures InOrder(init[i], init[j]) {
            assert init[i] == t[i] && init[j] == t[j];
          }
        }
        InsertKeepsOrder(init, c);
        assert r == u + [last];
        forall i | 0 <= i < |u| ensures InOrder(u[i], last) {
          assert u[i] in multiset(u);
          if u[i] != c {
            assert u[i] in t;
            SortedLast(t, u[i]);
          }
        }
        forall i, j | 0 <= i < j < |r| ensures InOrder(r[i], r[j]) {
          if j < |u| {
            assert r[i] == u[i] && r[j] == u[j];
          } else {
            assert r[i] == u[i] && r[j] == last;
          }
        }
      } else {
        assert r == t + [c];
        forall i, j | 0 <= i < j < |r| ensures InOrder(r[i], r[j]) {
          if j == |t| {
            SortedLast(t, t[i]);
          }
        }
      }
    }
  }

  /** The cards of `s` that sit exactly at `p`, in their order in `s`. */
  function Ties(s: seq<Card>, p: Pos): seq<Card> {
    if s == [] then []
    else Ties(s[..|s| - 1], p) + (if s[|s| - 1].pos == p then [s[|s| - 1]] else [])
  }

  /** `Ties(s, p)` holds exactly the cards of `s` at `p`. */
  lemma {:induction false} TiesMembers(s: seq<Card>, p: Pos, c: Card)
    ensures c in Ties(s, p) <==> c in s && c.pos == p
  {
    if s != [] {
      var init, last := s[..|s| - 1], s[|s| - 1];
      assert s == init + [last];
      TiesMembers(init, p, c);
    }
  }

  lemma {:induction false} TiesOfSnoc(s: seq<Card>, c: Card, p: Pos)
    ensures Ties(s + [c], p) == Ties(s, p) + (if c.pos == p then [c] else [])
  {
    assert (s + [c])[..|s|] == s;
  }

  /** Inserting `c` places it after every card already at its position. */
  lemma {:induction false} InsertKeepsTies(t: seq<Card>, c: Card, p: Pos)
    ensures Ties(Insert(t, c), p) == Ties(t, p) + (if c.pos == p then [c] else [])
    decreases |t|
  {
    if t == [] {
      TiesOfSnoc([], c, p);
    } else {
      var init, last := t[..|t| - 1], t[|t| - 1];
      assert t == init + [last];
      if Compare(last, c) > 0 {
        InsertKeepsTies(init, c, p);
        TiesOfSnoc(Insert(init, c), last, p);
        TiesOfSnoc(init, last, p);
      } else {
        TiesOfSnoc(t, c, p);
      }
    }
  }

  /** Stability: the cards at any one position keep their relative order. */
  lemma {:induction false} SortIsStable(s: seq<Card>, p: Pos)
    ensures Ties(SortByReadingOrder(s), p) == Ties(s, p)
  {
    if s != [] {
      var init, last := s[..|s| - 1], s[|s| - 1];
      assert s == init + [last];
      SortIsStable(init, p);
      InsertKeepsTies(SortByReadingOrder(init), last, p);
      TiesOfSnoc(init, last, p);
    }
  }

  /** Removing the same last card from two sequences with equal ties keeps their ties equal. */
  lemma TiesOfInit(i1: seq<Card>, i2: seq<Card>, x: Card, p: Pos)
    requires Ties(i1 + [x], p) == Ties(i2 + [x], p)
    ensures Ties(i1, p) == Ties(i2, p)
  {
    TiesOfSnoc(i1, x, p);
    TiesOfSnoc(i2, x, p);
    var u1, u2 := Ties(i1, p), Ties(i2, p);
    if x.pos == p {
      assert u1 == (u1 + [x])[..|u1|];
      assert u2 == (u2 + [x])[..|u2|];
    }
  }

  /** Two sorted sequences with the same cards at every position, in the same order, are equal. */
  lemma {:induction false} SortedTiesDetermine(r1: seq<Card>, r2: seq<Card>)
    requires Sorted(r1) && Sorted(r2)
    requires forall p :: Ties(r1, p) == Ties(r2, p)
    ensures r1 == r2
    decreases |r1| + |r2|
  {
    if r1 == [] && r2 != [] {
      var y := r2[|r2| - 1];
      TiesMembers(r2, y.pos, y);
      TiesMembers(r1, y.pos, y);
    } else if r1 != [] && r2 == [] {
      var x := r1[|r1| - 1];
      TiesMembers(r1, x.pos, x);
      TiesMembers(r2, x.pos, x);
    } else if r1 != [] {
      var i1, x := r1[..|r1| - 1], r1[|r1| - 1];
      var i2, y := r2[..|r2| - 1], r2[|r2| - 1];
      assert r1 == i1 + [x] && r2 == i2 + [y];
      TiesMembers(r2, y.pos, y);
      TiesMembers(r1, y.pos, y);
      SortedLast(r1, y);
      TiesMembers(r1, x.pos, x);
      TiesMembers(r2, x.pos, x);
      SortedLast(r2, x);
      var q := x.pos;
      assert y.pos == q;
      TiesOfSnoc(i1, x, q);
      TiesOfSnoc(i2, y, q);
      assert Ties(r1, q)[|Ties(r1, q)| - 1] == x;
      assert x == y;
      forall p ensures Ties(i1, p) == Ties(i2, p) {
        TiesOfInit(i1, i2, x, p);
      }
      assert Sorted(i1) by {
        forall i, j | 0 <= i < j < |i1| ensures InOrder(i1[i], i1[j]) {
          assert i1[i] == r1[i] && i1[j] == r1[j];
        }
      }
      assert Sorted(i2) by {
        forall i, j | 0 <= i < j < |i2| ensures InOrder(i2[i], i2[j]) {
          assert i2[i] == r2[i] && i2[j] == r2[j];
        }
      }
      SortedTiesDetermine(i1, i2);
    }
  }

  /**
   * Any sorted arrangement of `s` that keeps every group of cards at one position in input
   * order is `SortByReadingOrder(s)`: the model agrees with every stable sort, in particular
   * with `Array.prototype.sort`.
   */
  lemma StableSortIsUnique(s: seq<Card>, r: seq<Card>)
    requires Sorted(r)
    requires forall p :: Ties(r, p) == Ties(s, p)
    ensures r == SortByReadingOrder(s)
  {
    forall p ensures Ties(r, p) == Ties(SortByReadingOrder(s), p) {
      SortIsStable(s, p);
    }
    SortedTiesDetermine(r, SortByReadingOrder(s));
  }

  /**
   * `Insert` puts `c` right after the longest prefix of `t` whose last card does not read
   * strictly after `c`.
   */
  lemma {:induction false} InsertSplit(t: seq<Card>, c: Card, j: nat)
    requires j <= |t|
    requires forall k :: j <= k < |t| ==> Compare(t[k], c) > 0
    requires j == 0 || Compare(t[j - 1], c) <= 0
    ensures Insert(t, c) == t[..j] + [c] + t[j..]
    decreases |t|
  {
    if t == [] {
    } else if j == |t| {
      assert t[..j] == t;
    } else {
      var init, last := t[..|t| - 1], t[|t| - 1];
      assert Compare(last, c) > 0;
      assert Insert(t, c) == Insert(init, c) + [last];
      assert init[..j] == t[..j];
      InsertSplit(init, c, j);
      assert t[j..] == init[j..] + [last];
    }
  }

  /**
   * The inner loop of the in-place sort: shifts the cards of `a[..i]` that read strictly
   * after `c`, scanning from the right, one place right, and returns the gap they leave.
   */
  method ShiftAfter(a: array<Card>, i: nat, c: Card) returns (j: nat)
    requires i < a.Length
    modifies a
    ensures j <= i
    ensures forall k :: 0 <= k < j ==> a[k] == old(a[k])
    ensures forall k :: j < k <= i ==> a[k] == old(a[k - 1])
    ensures forall k :: i < k < a.Length ==> a[k] == old(a[k])
    ensures forall k :: j <= k < i ==> Compare(old(a[k]), c) > 0
    ensures j == 0 || Compare(old(a[j - 1]), c) <= 0
  {
    j := i;
    while j > 0 && Compare(a[j - 1], c) > 0
      invariant 0 <= j <= i
      invariant forall k :: 0 <= k < j ==> a[k] == old(a[k])
      invariant forall k :: j < k <= i ==> a[k] == old(a[k - 1])
      invariant forall k :: i < k < a.Length ==> a[k] == old(a[k])
      invariant forall k :: j <= k < i ==> Compare(old(a[k]), c) > 0
    {
      a[j] := a[j - 1];
      j := j - 1;
    }
  }

  /** One step of the in-place sort: inserts `a[i]` into the sorted prefix `a[..i]`. */
  method InsertInPlace(a: array<Card>, i: nat)
    requires i < a.Length
    modifies a
    ensures a[..i + 1] == Insert(old(a[..i]), old(a[i]))
    ensures forall k :: i < k < a.Length ==> a[k] == old(a[k])
  {
    var c := a[i];
    ghost var t := a[..i];
    var j := ShiftAfter(a, i, c);
    a[j] := c;
    InsertSplit(t, c, j);
    ghost var r := t[..j] + [c] + t[j..];
    forall k | 0 <= k <= i ensures a[k] == r[k] {
      if k > j {
        assert r[k] == t[k - 1];
      }
    }
    assert a[..i + 1] == r;
  }

  /** Sorting one more card of `s` is inserting it into the sorted prefix. */
  lemma SortPrefix(s: seq<Card>, i: nat)
    requires i < |s|
    ensures SortByReadingOrder(s[..i + 1]) == Insert(SortByReadingOrder(s[..i]), s[i])
  {
    assert s[..i + 1][..i] == s[..i];
  }

  /** Sorts the caller's array in place into reading order (insertion sort). */
  method SortCards(a: array<Card>)
    modifies a
    ensures a[..] == SortByReadingOrder(old(a[..]))
  {
    ghost var orig := a[..];
    var i := 0;
    while i < a.Length
      invariant 0 <= i <= a.Length
      invariant a[..i] == SortByReadingOrder(orig[..i])
      invariant forall k :: i <= k < a.Length ==> a[k] == orig[k]
    {
      SortPrefix(orig, i);
      InsertInPlace(a, i);
      i := i + 1;
    }
    assert orig[..a.Length] == orig;
  }
}

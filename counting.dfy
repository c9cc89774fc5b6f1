/** Disc counts: how many cells hold a value, the disc differential that the
    board reports as its score, and how a legal move moves the counts. */
module Counting {
  import opened Rules

  /** The number of cells among the first n that hold v. */
  function Count(s: seq<int>, v: int, n: int): (c: int)
    requires 0 <= n <= |s|
    ensures 0 <= c <= n
  {
    if n == 0 then 0 else Count(s, v, n - 1) + (if s[n - 1] == v then 1 else 0)
  }

  /** The number of cells among the first n that hold a in s and b in t. */
  function Moved(s: seq<int>, t: seq<int>, a: int, b: int, n: int): (c: int)
    requires 0 <= n <= |s| && n <= |t|
    ensures 0 <= c <= n
  {
    if n == 0 then 0
    else Moved(s, t, a, b, n - 1) + (if s[n - 1] == a && t[n - 1] == b then 1 else 0)
  }

  /** The disc differential: cells holding 1 minus cells holding -1. */
  function Score(s: seq<int>): int
    requires |s| == 100
  {
    Count(s, 1, 100) - Count(s, -1, 100)
  }

  /** No cell among the first n holds v exactly when the count is zero. */
  lemma {:induction false} CountZero(s: seq<int>, v: int, n: int)
    requires 0 <= n <= |s|
    ensures Count(s, v, n) == 0 <==> forall p :: 0 <= p < n ==> s[p] != v
  {
    if n > 0 {
      CountZero(s, v, n - 1);
    }
  }

  /** Cells holding 1 and cells holding -1 are disjoint. */
  lemma {:induction false} CountBoth(s: seq<int>, n: int)
    requires 0 <= n <= |s|
    ensures Count(s, 1, n) + Count(s, -1, n) <= n
  {
    if n > 0 {
      CountBoth(s, n - 1);
    }
  }

  /** The score of a board lies in [-100, 100]. */
  lemma ScoreBounds(s: seq<int>)
    requires |s| == 100
    ensures -100 <= Score(s) <= 100
    ensures Score(s) == Count(s, 1, 100) - Count(s, -1, 100)
  {
    CountBoth(s, 100);
  }

  /** When every change turns a cell into b, each count moves by the number
      of cells that changed into or out of it. */
  lemma CountShift(s: seq<int>, t: seq<int>, b: int, n: int)
    requires |s| == |t| && 0 <= n <= |s| && IsPlayer(b)
    requires forall p :: 0 <= p < |s| ==> -1 <= s[p] <= 1 && (t[p] == s[p] || t[p] == b)
    ensures Count(t, b, n) == Count(s, b, n) + Moved(s, t, 0, b, n) + Moved(s, t, -b, b, n)
    ensures Count(t, 0, n) == Count(s, 0, n) - Moved(s, t, 0, b, n)
    ensures Count(t, -b, n) == Count(s, -b, n) - Moved(s, t, -b, b, n)
  {
    CountGain(s, t, b, n);
    CountLoss(s, t, 0, b, n);
    CountLoss(s, t, -b, b, n);
  }

  /** b gains exactly the cells that changed into it from 0 or -b. */
  lemma {:induction false} CountGain(s: seq<int>, t: seq<int>, b: int, n: int)
    requires |s| == |t| && 0 <= n <= |s| && IsPlayer(b)
    requires forall p :: 0 <= p < |s| ==> -1 <= s[p] <= 1 && (t[p] == s[p] || t[p] == b)
    ensures Count(t, b, n) == Count(s, b, n) + Moved(s, t, 0, b, n) + Moved(s, t, -b, b, n)
  {
    if n > 0 {
      CountGain(s, t, b, n - 1);
      var u, w := s[n - 1], t[n - 1];
      assert -1 <= u <= 1 && (w == u || w == b);
      assert Count(t, b, n) == Count(t, b, n - 1) + (if w == b then 1 else 0);
      assert Count(s, b, n) == Count(s, b, n - 1) + (if u == b then 1 else 0);
      assert Moved(s, t, 0, b, n) == Moved(s, t, 0, b, n - 1) + (if u == 0 && w == b then 1 else 0);
      assert Moved(s, t, -b, b, n) == Moved(s, t, -b, b, n - 1) + (if u == -b && w == b then 1 else 0);
    }
  }

  /** A value v other than b loses exactly the cells that changed from v
      into b. */
  lemma {:induction false} CountLoss(s: seq<int>, t: seq<int>, v: int, b: int, n: int)
    requires |s| == |t| && 0 <= n <= |s| && v != b
    requires forall p :: 0 <= p < |s| ==> t[p] == s[p] || t[p] == b
    ensures Count(t, v, n) == Count(s, v, n) - Moved(s, t, v, b, n)
  {
    if n > 0 {
      CountLoss(s, t, v, b, n - 1);
      assert t[n - 1] == s[n - 1] || t[n - 1] == b;
    }
  }

  /** Exactly one cell, q, goes from a to b. */
  lemma {:induction false} MovedOne(s: seq<int>, t: seq<int>, a: int, b: int, q: int, n: int)
    requires |s| == |t| && 0 <= n <= |s| && 0 <= q < |s|
    requires s[q] == a && t[q] == b
    requires forall p :: 0 <= p < |s| && p != q ==> !(s[p] == a && t[p] == b)
    ensures Moved(s, t, a, b, n) == if q < n then 1 else 0
  {
    if n > 0 {
      MovedOne(s, t, a, b, q, n - 1);
    }
  }

  /** At least the cell q goes from a to b. */
  lemma {:induction false} MovedSome(s: seq<int>, t: seq<int>, a: int, b: int, q: int, n: int)
    requires |s| == |t| && 0 <= q < n <= |s|
    requires s[q] == a && t[q] == b
    ensures Moved(s, t, a, b, n) >= 1
  {
    if q < n - 1 {
      MovedSome(s, t, a, b, q, n - 1);
    }
  }

  /** The number of discs a legal move of id at (x, y) flips. */
  ghost function Flips(s: seq<int>, x: int, y: int, id: int): int
    requires |s| == 100 && IsPlayer(id)
  {
    Moved(s, Play(s, x, y, id), -id, id, 100)
  }

  /** A legal move fills exactly one empty cell, flips at least one disc,
      gives the mover one disc plus the flipped ones, takes the flipped ones
      from the opponent, and so moves the score by 1 + 2 * flipped towards
      the mover. */
  lemma PlayCounts(s: seq<int>, x: int, y: int, id: int)
    requires Wf(s) && IsPlayer(id) && Legal(s, x, y, id)
    ensures var t, f := Play(s, x, y, id), Flips(s, x, y, id);
      f >= 1 &&
      Count(t, 0, 100) == Count(s, 0, 100) - 1 &&
      Count(t, id, 100) == Count(s, id, 100) + 1 + f &&
      Count(t, -id, 100) == Count(s, -id, 100) - f &&
      Score(t) == (if id == 1 then Score(s) + 1 + 2 * f else Score(s) - 1 - 2 * f)
  {
    var t := Play(s, x, y, id);
    var o := x + y * 10;
    PlayChanges(s, x, y, id);
    CountShift(s, t, id, 100);
    MovedOne(s, t, 0, id, o, 100);
    var q :| 0 <= q < 100 && s[q] == -id && t[q] == id;
    MovedSome(s, t, -id, id, q, 100);
  }
}

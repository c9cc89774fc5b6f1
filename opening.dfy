/** The opening position: which moves the first player has on the starting
    board, and the list valid_moves returns for it. */
module Opening {
  import opened Rules
  import opened Othello

  /** The first player's four opening moves, in the order valid_moves
      lists them. */
  function OpeningMoves(): seq<(int, int)>
  {
    [(3, 5), (4, 6), (5, 3), (6, 4)]
  }

  predicate IsOpeningMove(x: int, y: int)
  {
    (x, y) == (3, 5) || (x, y) == (4, 6) || (x, y) == (5, 3) || (x, y) == (6, 4)
  }

  /** The starting board, cell by cell: 1 at (4, 4) and (5, 5), -1 at
      (5, 4) and (4, 5), empty elsewhere on the grid. */
  lemma InitialCell(c: int, e: int)
    ensures Cell(Initial(), c, e) ==
            if !InBounds(c, e) then -2
            else if (c, e) == (4, 4) || (c, e) == (5, 5) then 1
            else if (c, e) == (5, 4) || (c, e) == (4, 5) then -1
            else 0
  {
    if InBounds(c, e) {
      CellIndex(c, e);
    }
  }

  /** On the starting board, a direction that captures for player 1 starts
      at one of the four opening moves. */
  lemma OpeningCapture(x: int, y: int, dx: int, dy: int)
    requires IsDir(dx, dy)
    ensures Captures(Initial(), x, y, dx, dy, 1) ==> IsOpeningMove(x, y)
  {
    var s := Initial();
    var a, b := x + dx, y + dy;
    InitialCell(a, b);
    if Cell(s, a, b) == -1 {
      assert (a, b) == (5, 4) || (a, b) == (4, 5);
      var c, e := a + dx, b + dy;
      InitialCell(c, e);
      if Cell(s, c, e) == -1 {
        var f, g := c + dx, e + dy;
        InitialCell(f, g);
        assert Cell(s, f, g) == 0;
        assert RunEnd(s, a, b, dx, dy, 1) == RunEnd(s, c, e, dx, dy, 1) == (f, g);
      } else {
        assert RunEnd(s, a, b, dx, dy, 1) == (c, e);
        if Cell(s, c, e) == 1 {
          assert (c, e) == (4, 4) || (c, e) == (5, 5);
        }
      }
    }
  }

  /** Player 1 may place exactly on the four opening moves. */
  lemma OpeningLegal(x: int, y: int)
    ensures Legal(Initial(), x, y, 1) <==> IsOpeningMove(x, y)
  {
    var s := Initial();
    if Legal(s, x, y, 1) {
      var k :| 0 <= k < 8 && CapturesDir(s, x, y, k, 1);
      var d := Dir(k);
      OpeningCapture(x, y, d.0, d.1);
    }
    if IsOpeningMove(x, y) {
      OpeningMoveLegal(x, y);
    }
  }

  /** Each opening move captures the adjacent -1 disc towards a 1 disc. */
  lemma OpeningMoveLegal(x: int, y: int)
    requires IsOpeningMove(x, y)
    ensures Legal(Initial(), x, y, 1)
  {
    var s := Initial();
    InitialCell(x, y);
    if (x, y) == (3, 5) {
      InitialCell(4, 5);
      InitialCell(5, 5);
      LegalByOne(s, x, y, 6, 1);
    } else if (x, y) == (4, 6) {
      InitialCell(4, 5);
      InitialCell(4, 4);
      LegalByOne(s, x, y, 0, 1);
    } else if (x, y) == (5, 3) {
      InitialCell(5, 4);
      InitialCell(5, 5);
      LegalByOne(s, x, y, 1, 1);
    } else {
      InitialCell(5, 4);
      InitialCell(4, 4);
      LegalByOne(s, x, y, 3, 1);
    }
  }

  /** An empty cell next to a single opponent disc that is followed by one
      of id's own is a legal move for id. */
  lemma LegalByOne(s: seq<int>, x: int, y: int, k: int, id: int)
    requires |s| == 100 && IsPlayer(id) && 0 <= k < 8 && Cell(s, x, y) == 0
    requires Cell(s, x + Dir(k).0, y + Dir(k).1) == -id
    requires Cell(s, x + 2 * Dir(k).0, y + 2 * Dir(k).1) == id
    ensures Legal(s, x, y, id)
  {
    CapturesOne(s, x, y, Dir(k).0, Dir(k).1, id);
    assert CapturesDir(s, x, y, k, id);
  }

  /** A single opponent disc followed by one of id's own is a capture. */
  lemma CapturesOne(s: seq<int>, x: int, y: int, dx: int, dy: int, id: int)
    requires |s| == 100 && IsDir(dx, dy) && IsPlayer(id)
    requires Cell(s, x + dx, y + dy) == -id && Cell(s, x + 2 * dx, y + 2 * dy) == id
    ensures Captures(s, x, y, dx, dy, id)
  {
    assert RunEnd(s, x + 2 * dx, y + 2 * dy, dx, dy, id) == (x + 2 * dx, y + 2 * dy);
  }

  /** On the starting board, valid_moves(1) returns the four opening moves
      in this order. */
  lemma OpeningValidMoves()
    ensures LegalMoves(Initial(), 1) == OpeningMoves()
  {
    var ok := LegalFor(Initial(), 1);
    forall m: (int, int) ensures m in OpeningMoves() <==> InBounds(m.0, m.1) && ok(m.0, m.1) {
      OpeningLegal(m.0, m.1);
      assert m in OpeningMoves() <==> IsOpeningMove(m.0, m.1);
    }
    OpeningSorted();
    ListedIs(ok, OpeningMoves());
  }

  /** The opening moves are listed in strictly increasing key order. */
  lemma OpeningSorted()
    ensures forall i, j :: 0 <= i < j < |OpeningMoves()| ==>
              Key(OpeningMoves()[i]) < Key(OpeningMoves()[j])
  {
    var ms := OpeningMoves();
    assert Key(ms[0]) == 35 && Key(ms[1]) == 46 && Key(ms[2]) == 53 && Key(ms[3]) == 64;
  }

  /** A list in strictly increasing key order holding exactly the cells
      that pass a test is what Listed builds for that test. */
  lemma ListedIs(ok: (int, int) -> bool, ms: seq<(int, int)>)
    requires forall i, j :: 0 <= i < j < |ms| ==> Key(ms[i]) < Key(ms[j])
    requires forall m :: m in ms <==> InBounds(m.0, m.1) && ok(m.0, m.1)
    ensures Listed(ok, 10, 0) == ms
  {
    ListedMembers(ok, 10, 0);
    ListedSorted(ok, 10, 0);
    forall m: (int, int) | InBounds(m.0, m.1) ensures Key(m) < 100 {
    }
    SortedUnique(Listed(ok, 10, 0), ms);
  }

  /** Two lists in strictly increasing key order with the same members are
      the same list. */
  lemma {:induction false} SortedUnique(a: seq<(int, int)>, b: seq<(int, int)>)
    requires forall i, j :: 0 <= i < j < |a| ==> Key(a[i]) < Key(a[j])
    requires forall i, j :: 0 <= i < j < |b| ==> Key(b[i]) < Key(b[j])
    requires forall m :: m in a <==> m in b
    ensures a == b
    decreases |a|
  {
    if a == [] || b == [] {
      if a != [] {
        FirstIsMember(a);
        assert false;
      }
      if b != [] {
        FirstIsMember(b);
        assert false;
      }
    } else {
      SameHead(a, b);
      TailMembers(a, b);
      TailMembers(b, a);
      TailSorted(a);
      TailSorted(b);
      SortedUnique(a[1..], b[1..]);
    }
  }

  /** Two such non-empty lists start with the same element. */
  lemma SameHead(a: seq<(int, int)>, b: seq<(int, int)>)
    requires a != [] && b != []
    requires forall i, j :: 0 <= i < j < |a| ==> Key(a[i]) < Key(a[j])
    requires forall i, j :: 0 <= i < j < |b| ==> Key(b[i]) < Key(b[j])
    requires forall m :: m in a <==> m in b
    ensures a[0] == b[0]
  {
    assert a[0] in b && b[0] in a;
    var i :| 0 <= i < |a| && a[i] == b[0];
    var j :| 0 <= j < |b| && b[j] == a[0];
    assert Key(a[0]) <= Key(a[i]);
    assert Key(b[0]) <= Key(b[j]);
    assert i == 0;
  }

  /** What follows the first element of such a list is in increasing key
      order too. */
  lemma TailSorted(a: seq<(int, int)>)
    requires a != []
    requires forall i, j :: 0 <= i < j < |a| ==> Key(a[i]) < Key(a[j])
    ensures forall i, j :: 0 <= i < j < |a[1..]| ==> Key(a[1..][i]) < Key(a[1..][j])
    ensures a == [a[0]] + a[1..]
  {
    forall i, j | 0 <= i < j < |a[1..]| ensures Key(a[1..][i]) < Key(a[1..][j]) {
      assert a[1..][i] == a[i + 1] && a[1..][j] == a[j + 1];
    }
  }

  lemma FirstIsMember(a: seq<(int, int)>)
    requires a != []
    ensures a[0] in a
  {
  }

  /** Of two such lists with the same first element, whatever follows it
      in the first follows it in the second. */
  lemma TailMembers(a: seq<(int, int)>, b: seq<(int, int)>)
    requires a != [] && b != [] && a[0] == b[0]
    requires forall i, j :: 0 <= i < j < |a| ==> Key(a[i]) < Key(a[j])
    requires forall m :: m in a ==> m in b
    ensures forall m :: m in a[1..] ==> m in b[1..]
  {
    forall m | m in a[1..] ensures m in b[1..] {
      var u :| 1 <= u < |a| && a[u] == m;
      assert m in a;
      var v :| 0 <= v < |b| && b[v] == m;
      assert Key(a[0]) < Key(a[u]);
      assert b[1..][v - 1] == m;
    }
  }
}

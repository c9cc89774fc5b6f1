/** The rules of the 10x10 disc-flipping board, stated on the flat list of
    cells: cell (x, y) is s[x + y * 10] and holds 1 or -1 (the two players)
    or 0 (empty). Everything here is a specification: the Board class in
    board.dfy is proved to compute exactly these values. */
module Rules {

  // ---------------------------------------------------------------------
  // Geometry
  // ---------------------------------------------------------------------

  predicate InBounds(x: int, y: int) { 0 <= x < 10 && 0 <= y < 10 }

  /** The two player ids; the opponent of id is -id. */
  predicate IsPlayer(id: int) { id == 1 || id == -1 }

  /** A well-formed board: 100 cells, each 1, -1 or 0. */
  ghost predicate Wf(s: seq<int>)
  {
    |s| == 100 && forall p :: 0 <= p < 100 ==> -1 <= s[p] <= 1
  }

  /** The disc at (x, y), or -2 for a position off the grid. */
  function Cell(s: seq<int>, x: int, y: int): int
    requires |s| == 100
  {
    if InBounds(x, y) then s[x + y * 10] else -2
  }

  /** Converting between a position and its index in the cell list. */
  lemma CellIndex(c: int, e: int)
    requires InBounds(c, e)
    ensures 0 <= c + e * 10 < 100 && (c + e * 10) % 10 == c && (c + e * 10) / 10 == e
  {
  }

  lemma IndexCell(p: int)
    requires 0 <= p < 100
    ensures InBounds(p % 10, p / 10) && p == p % 10 + (p / 10) * 10
  {
  }

  predicate IsDir(dx: int, dy: int)
  {
    -1 <= dx <= 1 && -1 <= dy <= 1 && (dx != 0 || dy != 0)
  }

  /** The eight scanning directions, in the order the board visits them:
      up, down, then the three to the left, then the three to the right. */
  function Dir(k: int): (d: (int, int))
    requires 0 <= k < 8
    ensures IsDir(d.0, d.1)
  {
    if k == 0 then (0, -1)
    else if k == 1 then (0, 1)
    else if k == 2 then (-1, -1)
    else if k == 3 then (-1, 0)
    else if k == 4 then (-1, 1)
    else if k == 5 then (1, -1)
    else if k == 6 then (1, 0)
    else (1, 1)
  }

  /** The position of a direction in the scanning order. */
  function DirIndex(dx: int, dy: int): (k: int)
    requires IsDir(dx, dy)
    ensures 0 <= k < 8 && Dir(k) == (dx, dy)
  {
    if dx == 0 then (if dy < 0 then 0 else 1)
    else if dx < 0 then dy + 3
    else dy + 6
  }

  lemma DirIndexOfDir(k: int)
    requires 0 <= k < 8
    ensures DirIndex(Dir(k).0, Dir(k).1) == k
  {
  }

  function Sign(n: int): int
  {
    if n < 0 then -1 else if n > 0 then 1 else 0
  }

  /** (c, e) lies in direction (dx, dy) from (x, y): the signs of its offset
      are dx and dy. Every cell a scan from (x, y) along (dx, dy) visits is
      in this sector, and two different directions have disjoint sectors,
      neither containing (x, y) itself. */
  predicate Toward(x: int, y: int, dx: int, dy: int, c: int, e: int)
  {
    Sign(c - x) == dx && Sign(e - y) == dy
  }

  /** The number of steps along (dx, dy) that (i, j) may still take before
      leaving the grid; it drops by one on each step. */
  function Reach(i: int, j: int, dx: int, dy: int): int
  {
    if dx > 0 then 10 - i
    else if dx < 0 then i + 1
    else if dy > 0 then 10 - j
    else j + 1
  }

  /** The coordinate n steps from c in direction d. */
  function Along(c: int, d: int, n: int): int
  {
    if d < 0 then c - n else if d > 0 then c + n else c
  }

  // ---------------------------------------------------------------------
  // Scanning
  // ---------------------------------------------------------------------

  /** Where a scan that starts at (i, j) and walks along (dx, dy) over the
      opponent's discs (-id) stops: the first position that does not hold
      -id. Off the grid the cell reads -2, which no player id matches, so
      the walk always ends. */
  function RunEnd(s: seq<int>, i: int, j: int, dx: int, dy: int, id: int): (r: (int, int))
    requires |s| == 100 && IsDir(dx, dy) && IsPlayer(id)
    ensures Cell(s, r.0, r.1) != -id
    decreases Reach(i, j, dx, dy)
  {
    if Cell(s, i, j) == -id then RunEnd(s, i + dx, j + dy, dx, dy, id) else (i, j)
  }

  /** Direction (dx, dy) from (x, y) captures for id: the neighbour holds
      the opponent's disc and the opponent's run ends on id's own disc. */
  predicate Captures(s: seq<int>, x: int, y: int, dx: int, dy: int, id: int)
    requires |s| == 100 && IsDir(dx, dy) && IsPlayer(id)
  {
    Cell(s, x + dx, y + dy) == -id &&
    var r := RunEnd(s, x + dx, y + dy, dx, dy, id);
    Cell(s, r.0, r.1) == id
  }

  /** The k-th scanning direction from (x, y) captures for id. */
  predicate CapturesDir(s: seq<int>, x: int, y: int, k: int, id: int)
    requires |s| == 100 && 0 <= k < 8 && IsPlayer(id)
  {
    Captures(s, x, y, Dir(k).0, Dir(k).1, id)
  }

  /** id may place a disc at (x, y): the cell is on the grid and empty, and
      some direction captures. */
  ghost predicate Legal(s: seq<int>, x: int, y: int, id: int)
    requires |s| == 100 && IsPlayer(id)
  {
    Cell(s, x, y) == 0 && exists k :: 0 <= k < 8 && CapturesDir(s, x, y, k, id)
  }

  /** (c, e) is one of the opponent's discs on the run that starts at (i, j)
      and goes along (dx, dy). */
  predicate OnRun(s: seq<int>, i: int, j: int, dx: int, dy: int, id: int, c: int, e: int)
    requires |s| == 100 && IsDir(dx, dy) && IsPlayer(id)
    decreases Reach(i, j, dx, dy)
  {
    Cell(s, i, j) == -id && ((c, e) == (i, j) || OnRun(s, i + dx, j + dy, dx, dy, id, c, e))
  }

  /** (c, e) is on the opponent's run that follows (x, y) along (dx, dy). */
  predicate InRun(s: seq<int>, x: int, y: int, dx: int, dy: int, id: int, c: int, e: int)
    requires |s| == 100 && IsDir(dx, dy) && IsPlayer(id)
  {
    OnRun(s, x + dx, y + dy, dx, dy, id, c, e)
  }

  /** Reference reading of a capture: a run of n >= 1 opponent discs on the
      steps 1..n from (x, y), then id's own disc on step n + 1. */
  ghost predicate OpponentRun(s: seq<int>, x: int, y: int, dx: int, dy: int, id: int, n: int)
    requires |s| == 100
  {
    forall m :: 1 <= m <= n ==> Cell(s, Along(x, dx, m), Along(y, dy, m)) == -id
  }

  // ---------------------------------------------------------------------
  // Playing a move
  // ---------------------------------------------------------------------

  /** After id plays (x, y), the disc at (c, e) is flipped: it lies on the
      opponent's run in the direction of (c, e) from (x, y), and that
      direction captures. */
  ghost predicate Flipped(s: seq<int>, x: int, y: int, id: int, c: int, e: int)
    requires |s| == 100 && IsPlayer(id)
  {
    (c, e) != (x, y) &&
    var dx, dy := Sign(c - x), Sign(e - y);
    Captures(s, x, y, dx, dy, id) && InRun(s, x, y, dx, dy, id, c, e)
  }

  /** The board after id plays (x, y): unchanged when the move is not legal;
      otherwise (x, y) and every flipped disc become id and all other cells
      keep their value. */
  ghost function Play(s: seq<int>, x: int, y: int, id: int): (t: seq<int>)
    requires |s| == 100 && IsPlayer(id)
    ensures |t| == 100
  {
    if Legal(s, x, y, id) then
      seq(100, p requires 0 <= p < 100 =>
        if p == x + y * 10 || Flipped(s, x, y, id, p % 10, p / 10) then id else s[p])
    else s
  }

  /** One pass of the direction loop of a move, as the code runs it on the
      current board: if (dx, dy) captures, its opponent run becomes id. */
  ghost function FlipRun(s: seq<int>, x: int, y: int, dx: int, dy: int, id: int): (t: seq<int>)
    requires |s| == 100 && IsDir(dx, dy) && IsPlayer(id)
    ensures |t| == 100
  {
    if Captures(s, x, y, dx, dy, id) then
      seq(100, p requires 0 <= p < 100 =>
        if InRun(s, x, y, dx, dy, id, p % 10, p / 10) then id else s[p])
    else s
  }

  /** The first k passes of the direction loop, one after the other. */
  ghost function FlipDirs(s: seq<int>, x: int, y: int, id: int, k: int): (t: seq<int>)
    requires |s| == 100 && IsPlayer(id) && 0 <= k <= 8
    ensures |t| == 100
  {
    if k == 0 then s
    else FlipRun(FlipDirs(s, x, y, id, k - 1), x, y, Dir(k - 1).0, Dir(k - 1).1, id)
  }

  // ---------------------------------------------------------------------
  // Lemmas: scans
  // ---------------------------------------------------------------------

  /** A disc on a run starting in sector (dx, dy) of (x, y) is an opponent
      disc, lies in the same sector, and is no nearer the edge than the
      run's start. */
  lemma {:induction false} OnRunFacts(s: seq<int>, x: int, y: int, dx: int, dy: int, id: int,
                                      i: int, j: int, c: int, e: int)
    requires |s| == 100 && IsDir(dx, dy) && IsPlayer(id)
    requires Toward(x, y, dx, dy, i, j) && OnRun(s, i, j, dx, dy, id, c, e)
    ensures Cell(s, c, e) == -id && InBounds(c, e) && Toward(x, y, dx, dy, c, e)
    ensures Reach(c, e, dx, dy) <= Reach(i, j, dx, dy)
    decreases Reach(i, j, dx, dy)
  {
    if (c, e) != (i, j) {
      OnRunFacts(s, x, y, dx, dy, id, i + dx, j + dy, c, e);
    }
  }

  /** A run never reaches back to its own start. */
  lemma RunAhead(s: seq<int>, i: int, j: int, dx: int, dy: int, id: int)
    requires |s| == 100 && IsDir(dx, dy) && IsPlayer(id)
    ensures !OnRun(s, i + dx, j + dy, dx, dy, id, i, j)
  {
    if OnRun(s, i + dx, j + dy, dx, dy, id, i, j) {
      OnRunFacts(s, i, j, dx, dy, id, i + dx, j + dy, i, j);
    }
  }

  /** A run followed from one of its own discs stays inside the run. */
  lemma {:induction false} OnRunTrans(s: seq<int>, i: int, j: int, dx: int, dy: int, id: int,
                                      k: int, l: int, c: int, e: int)
    requires |s| == 100 && IsDir(dx, dy) && IsPlayer(id)
    requires OnRun(s, i, j, dx, dy, id, k, l) && OnRun(s, k, l, dx, dy, id, c, e)
    ensures OnRun(s, i, j, dx, dy, id, c, e)
    decreases Reach(i, j, dx, dy)
  {
    if (k, l) != (i, j) {
      OnRunTrans(s, i + dx, j + dy, dx, dy, id, k, l, c, e);
    }
  }

  /** The next opponent disc after a disc of the run is in the run too. */
  lemma RunContinues(s: seq<int>, x: int, y: int, dx: int, dy: int, id: int, k: int, l: int)
    requires |s| == 100 && IsDir(dx, dy) && IsPlayer(id)
    requires InRun(s, x, y, dx, dy, id, k, l) && Cell(s, k + dx, l + dy) == -id
    ensures InRun(s, x, y, dx, dy, id, k + dx, l + dy)
  {
    OnRunFacts(s, x, y, dx, dy, id, x + dx, y + dy, k, l);
    assert OnRun(s, k, l, dx, dy, id, k + dx, l + dy);
    OnRunTrans(s, x + dx, y + dy, dx, dy, id, k, l, k + dx, l + dy);
  }

  /** Two boards that agree on the sector (dx, dy) of (x, y). */
  ghost predicate AgreeToward(s: seq<int>, t: seq<int>, x: int, y: int, dx: int, dy: int)
    requires |s| == 100 && |t| == 100
  {
    forall c, e :: Toward(x, y, dx, dy, c, e) ==> Cell(s, c, e) == Cell(t, c, e)
  }

  /** A scan inside a sector reads only that sector: boards that agree on
      the sector have the same run end from any start in it. */
  lemma {:induction false} RunEndAgrees(s: seq<int>, t: seq<int>, x: int, y: int, dx: int, dy: int,
                                        id: int, i: int, j: int)
    requires |s| == 100 && |t| == 100 && IsDir(dx, dy) && IsPlayer(id)
    requires AgreeToward(s, t, x, y, dx, dy) && Toward(x, y, dx, dy, i, j)
    ensures RunEnd(s, i, j, dx, dy, id) == RunEnd(t, i, j, dx, dy, id)
    decreases Reach(i, j, dx, dy)
  {
    assert Cell(s, i, j) == Cell(t, i, j);
    if Cell(s, i, j) == -id {
      RunEndAgrees(s, t, x, y, dx, dy, id, i + dx, j + dy);
    }
  }

  /** Likewise, boards that agree on the sector have the same discs on a
      run from any start in it. */
  lemma {:induction false} OnRunAgrees(s: seq<int>, t: seq<int>, x: int, y: int, dx: int, dy: int,
                                       id: int, i: int, j: int, c: int, e: int)
    requires |s| == 100 && |t| == 100 && IsDir(dx, dy) && IsPlayer(id)
    requires AgreeToward(s, t, x, y, dx, dy) && Toward(x, y, dx, dy, i, j)
    ensures OnRun(s, i, j, dx, dy, id, c, e) == OnRun(t, i, j, dx, dy, id, c, e)
    decreases Reach(i, j, dx, dy)
  {
    assert Cell(s, i, j) == Cell(t, i, j);
    if Cell(s, i, j) == -id {
      OnRunAgrees(s, t, x, y, dx, dy, id, i + dx, j + dy, c, e);
    }
  }

  /** Boards that agree on the sector (dx, dy) of (x, y) agree on whether
      that direction captures. */
  lemma CapturesAgree(s: seq<int>, t: seq<int>, x: int, y: int, dx: int, dy: int, id: int)
    requires |s| == 100 && |t| == 100 && IsDir(dx, dy) && IsPlayer(id)
    requires AgreeToward(s, t, x, y, dx, dy)
    ensures Captures(s, x, y, dx, dy, id) == Captures(t, x, y, dx, dy, id)
  {
    assert Toward(x, y, dx, dy, x + dx, y + dy);
    RunEndAgrees(s, t, x, y, dx, dy, id, x + dx, y + dy);
    RunEndToward(s, x, y, dx, dy, id, x + dx, y + dy);
  }

  /** Boards that agree on the sector (dx, dy) of (x, y) have the same run
      in that direction. */
  lemma InRunAgrees(s: seq<int>, t: seq<int>, x: int, y: int, dx: int, dy: int, id: int,
                    c: int, e: int)
    requires |s| == 100 && |t| == 100 && IsDir(dx, dy) && IsPlayer(id)
    requires AgreeToward(s, t, x, y, dx, dy)
    ensures InRun(s, x, y, dx, dy, id, c, e) == InRun(t, x, y, dx, dy, id, c, e)
  {
    assert Toward(x, y, dx, dy, x + dx, y + dy);
    OnRunAgrees(s, t, x, y, dx, dy, id, x + dx, y + dy, c, e);
  }

  /** The end of a run started in a sector is in that sector too. */
  lemma {:induction false} RunEndToward(s: seq<int>, x: int, y: int, dx: int, dy: int, id: int,
                                        i: int, j: int)
    requires |s| == 100 && IsDir(dx, dy) && IsPlayer(id) && Toward(x, y, dx, dy, i, j)
    ensures var r := RunEnd(s, i, j, dx, dy, id); Toward(x, y, dx, dy, r.0, r.1)
    decreases Reach(i, j, dx, dy)
  {
    if Cell(s, i, j) == -id {
      RunEndToward(s, x, y, dx, dy, id, i + dx, j + dy);
    }
  }

  /** Writing the played cell (x, y) first does not change any scan from
      (x, y): no direction's sector contains (x, y). */
  lemma OriginWriteKeepsScans(s: seq<int>, x: int, y: int, v: int, dx: int, dy: int, id: int)
    requires |s| == 100 && InBounds(x, y) && IsDir(dx, dy) && IsPlayer(id)
    ensures Captures(s[x + y * 10 := v], x, y, dx, dy, id) == Captures(s, x, y, dx, dy, id)
    ensures forall c, e :: InRun(s[x + y * 10 := v], x, y, dx, dy, id, c, e) ==
                           InRun(s, x, y, dx, dy, id, c, e)
  {
    var t := s[x + y * 10 := v];
    forall c, e | Toward(x, y, dx, dy, c, e) ensures Cell(t, c, e) == Cell(s, c, e) {
      if InBounds(c, e) {
        CellIndex(c, e);
        CellIndex(x, y);
      }
    }
    CapturesAgree(t, s, x, y, dx, dy, id);
    forall c, e ensures InRun(t, x, y, dx, dy, id, c, e) == InRun(s, x, y, dx, dy, id, c, e) {
      InRunAgrees(t, s, x, y, dx, dy, id, c, e);
    }
  }

  /** Flipping the run of one direction does not change the scan of any
      other direction: the eight sectors share no cell. */
  lemma FlipKeepsOtherScans(s: seq<int>, x: int, y: int, id: int, dx: int, dy: int, ex: int, ey: int)
    requires |s| == 100 && IsDir(dx, dy) && IsDir(ex, ey) && IsPlayer(id) && (dx, dy) != (ex, ey)
    ensures Captures(FlipRun(s, x, y, dx, dy, id), x, y, ex, ey, id) == Captures(s, x, y, ex, ey, id)
    ensures forall c, e :: InRun(FlipRun(s, x, y, dx, dy, id), x, y, ex, ey, id, c, e) ==
                           InRun(s, x, y, ex, ey, id, c, e)
  {
    var t := FlipRun(s, x, y, dx, dy, id);
    forall c, e | Toward(x, y, ex, ey, c, e) ensures Cell(t, c, e) == Cell(s, c, e) {
      if InBounds(c, e) && Captures(s, x, y, dx, dy, id) {
        CellIndex(c, e);
        if InRun(s, x, y, dx, dy, id, c, e) {
          OnRunFacts(s, x, y, dx, dy, id, x + dx, y + dy, c, e);
          assert false;
        }
      }
    }
    CapturesAgree(t, s, x, y, ex, ey, id);
    forall c, e ensures InRun(t, x, y, ex, ey, id, c, e) == InRun(s, x, y, ex, ey, id, c, e) {
      InRunAgrees(t, s, x, y, ex, ey, id, c, e);
    }
  }

  /** The reference reading of a capture agrees with the scan: direction
      (dx, dy) captures exactly when some n >= 1 opponent discs follow (x, y)
      and id's own disc comes right after them. */
  lemma CapturesIff(s: seq<int>, x: int, y: int, dx: int, dy: int, id: int)
    requires |s| == 100 && IsDir(dx, dy) && IsPlayer(id)
    ensures Captures(s, x, y, dx, dy, id) <==>
            exists n :: Bracketed(s, x, y, dx, dy, id, n)
  {
    if Captures(s, x, y, dx, dy, id) {
      CapturesBracket(s, x, y, dx, dy, id);
    }
    if exists n :: Bracketed(s, x, y, dx, dy, id, n) {
      var n :| Bracketed(s, x, y, dx, dy, id, n);
      BracketCaptures(s, x, y, dx, dy, id, n);
    }
  }

  /** n >= 1 opponent discs on steps 1..n from (x, y), then id's disc. */
  ghost predicate Bracketed(s: seq<int>, x: int, y: int, dx: int, dy: int, id: int, n: int)
    requires |s| == 100
  {
    1 <= n && OpponentRun(s, x, y, dx, dy, id, n) &&
    Cell(s, Along(x, dx, n + 1), Along(y, dy, n + 1)) == id
  }

  lemma CapturesBracket(s: seq<int>, x: int, y: int, dx: int, dy: int, id: int)
    requires |s| == 100 && IsDir(dx, dy) && IsPlayer(id)
    requires Captures(s, x, y, dx, dy, id)
    ensures exists n :: Bracketed(s, x, y, dx, dy, id, n)
  {
    RunEndAlong(s, x + dx, y + dy, dx, dy, id);
    var n :| RunLength(s, x + dx, y + dy, dx, dy, id, n);
    assert n != 0;
    ShiftedRun(s, x, y, dx, dy, id, n);
    assert Along(x, dx, n + 1) == Along(x + dx, dx, n);
    assert Along(y, dy, n + 1) == Along(y + dy, dy, n);
    assert Bracketed(s, x, y, dx, dy, id, n);
  }

  lemma BracketCaptures(s: seq<int>, x: int, y: int, dx: int, dy: int, id: int, n: int)
    requires |s| == 100 && IsDir(dx, dy) && IsPlayer(id)
    requires Bracketed(s, x, y, dx, dy, id, n)
    ensures Captures(s, x, y, dx, dy, id)
  {
    RunEndAlong(s, x + dx, y + dy, dx, dy, id);
    var n0 :| RunLength(s, x + dx, y + dy, dx, dy, id, n0);
    BracketLength(s, x, y, dx, dy, id, n, n0);
    assert Along(x, dx, 1) == x + dx && Along(y, dy, 1) == y + dy;
    assert Cell(s, Along(x, dx, 1), Along(y, dy, 1)) == -id;
    AlongShift(x, dx, n);
    AlongShift(y, dy, n);
  }

  /** The run the scan finds is exactly as long as the bracketed run. */
  lemma BracketLength(s: seq<int>, x: int, y: int, dx: int, dy: int, id: int, n: int, n0: int)
    requires |s| == 100 && IsDir(dx, dy) && IsPlayer(id)
    requires Bracketed(s, x, y, dx, dy, id, n) && RunLength(s, x + dx, y + dy, dx, dy, id, n0)
    ensures n0 == n
  {
    AlongShift(x, dx, n0);
    AlongShift(y, dy, n0);
    AlongShift(x, dx, n);
    AlongShift(y, dy, n);
    if n0 < n {
      assert false;
    } else if n < n0 {
      assert false;
    }
  }

  lemma AlongShift(c: int, d: int, m: int)
    requires -1 <= d <= 1
    ensures Along(c, d, m + 1) == Along(c + d, d, m)
  {
  }

  /** The run from (i, j) is n opponent discs long and ends n steps away. */
  ghost predicate RunLength(s: seq<int>, i: int, j: int, dx: int, dy: int, id: int, n: int)
    requires |s| == 100 && IsDir(dx, dy) && IsPlayer(id)
  {
    0 <= n &&
    RunEnd(s, i, j, dx, dy, id) == (Along(i, dx, n), Along(j, dy, n)) &&
    forall m :: 0 <= m < n ==> Cell(s, Along(i, dx, m), Along(j, dy, m)) == -id
  }

  lemma {:induction false} RunEndAlong(s: seq<int>, i: int, j: int, dx: int, dy: int, id: int)
    requires |s| == 100 && IsDir(dx, dy) && IsPlayer(id)
    ensures exists n :: RunLength(s, i, j, dx, dy, id, n)
    decreases Reach(i, j, dx, dy)
  {
    if Cell(s, i, j) == -id {
      RunEndAlong(s, i + dx, j + dy, dx, dy, id);
      var n :| RunLength(s, i + dx, j + dy, dx, dy, id, n);
      StepBack(s, i, j, dx, dy, id, n);
    } else {
      assert RunLength(s, i, j, dx, dy, id, 0);
    }
  }

  lemma StepBack(s: seq<int>, i: int, j: int, dx: int, dy: int, id: int, n: int)
    requires |s| == 100 && IsDir(dx, dy) && IsPlayer(id) && Cell(s, i, j) == -id
    requires RunLength(s, i + dx, j + dy, dx, dy, id, n)
    ensures RunLength(s, i, j, dx, dy, id, n + 1)
  {
    assert RunEnd(s, i, j, dx, dy, id) == RunEnd(s, i + dx, j + dy, dx, dy, id);
    assert Along(i, dx, n + 1) == Along(i + dx, dx, n) && Along(j, dy, n + 1) == Along(j + dy, dy, n);
    forall m | 0 <= m < n + 1
      ensures Cell(s, Along(i, dx, m), Along(j, dy, m)) == -id
    {
      if m > 0 {
        assert Along(i, dx, m) == Along(i + dx, dx, m - 1);
        assert Along(j, dy, m) == Along(j + dy, dy, m - 1);
      }
    }
  }

  /** The opponent discs of a run from (x + dx, y + dy), counted in steps
      from (x, y). */
  lemma ShiftedRun(s: seq<int>, x: int, y: int, dx: int, dy: int, id: int, n: int)
    requires |s| == 100 && IsDir(dx, dy) && IsPlayer(id)
    requires RunLength(s, x + dx, y + dy, dx, dy, id, n)
    ensures OpponentRun(s, x, y, dx, dy, id, n)
  {
    forall m | 1 <= m <= n ensures Cell(s, Along(x, dx, m), Along(y, dy, m)) == -id {
      assert Along(x, dx, m) == Along(x + dx, dx, m - 1);
      assert Along(y, dy, m) == Along(y + dy, dy, m - 1);
    }
  }

  // ---------------------------------------------------------------------
  // Lemmas: the flip loop of one direction
  // ---------------------------------------------------------------------

  /** The board while the flip loop walks back over the run of (dx, dy):
      the run's discs before (k, l) are already id. */
  ghost function FlippedBefore(s: seq<int>, x: int, y: int, dx: int, dy: int, id: int,
                               k: int, l: int): (t: seq<int>)
    requires |s| == 100 && IsDir(dx, dy) && IsPlayer(id)
    ensures |t| == 100
  {
    seq(100, p requires 0 <= p < 100 =>
      if InRun(s, x, y, dx, dy, id, p % 10, p / 10) && !OnRun(s, k, l, dx, dy, id, p % 10, p / 10)
      then id else s[p])
  }

  /** Nothing is flipped before the walk starts. */
  lemma FlippedBeforeStart(s: seq<int>, x: int, y: int, dx: int, dy: int, id: int)
    requires |s| == 100 && IsDir(dx, dy) && IsPlayer(id)
    ensures FlippedBefore(s, x, y, dx, dy, id, x + dx, y + dy) == s
  {
  }

  /** One step of the walk flips the disc at (k, l). */
  lemma FlipOne(s: seq<int>, x: int, y: int, dx: int, dy: int, id: int, k: int, l: int)
    requires |s| == 100 && IsDir(dx, dy) && IsPlayer(id)
    requires InRun(s, x, y, dx, dy, id, k, l)
    ensures InBounds(k, l) && Cell(s, k, l) == -id
    ensures FlippedBefore(s, x, y, dx, dy, id, k, l)[k + l * 10 := id] ==
            FlippedBefore(s, x, y, dx, dy, id, k + dx, l + dy)
  {
    OnRunFacts(s, x, y, dx, dy, id, x + dx, y + dy, k, l);
    CellIndex(k, l);
    RunAhead(s, k, l, dx, dy, id);
    var u := FlippedBefore(s, x, y, dx, dy, id, k, l)[k + l * 10 := id];
    var w := FlippedBefore(s, x, y, dx, dy, id, k + dx, l + dy);
    forall p | 0 <= p < 100 ensures u[p] == w[p] {
      IndexCell(p);
      if p != k + l * 10 {
        FlipOneOther(s, x, y, dx, dy, id, k, l, p);
      }
    }
  }

  /** A cell other than (k, l) is on the rest of the run from (k, l)
      exactly when it is on the rest of the run after it. */
  lemma FlipOneOther(s: seq<int>, x: int, y: int, dx: int, dy: int, id: int, k: int, l: int, p: int)
    requires |s| == 100 && IsDir(dx, dy) && IsPlayer(id)
    requires Cell(s, k, l) == -id && 0 <= p < 100 && p != k + l * 10
    requires p == p % 10 + (p / 10) * 10
    ensures FlippedBefore(s, x, y, dx, dy, id, k, l)[p] ==
            FlippedBefore(s, x, y, dx, dy, id, k + dx, l + dy)[p]
  {
    assert (p % 10, p / 10) != (k, l);
    assert OnRun(s, k, l, dx, dy, id, p % 10, p / 10) ==
           OnRun(s, k + dx, l + dy, dx, dy, id, p % 10, p / 10);
  }

  /** When the walk reaches the disc that closes the run, the whole run is
      flipped. */
  lemma FlippedBeforeEnd(s: seq<int>, x: int, y: int, dx: int, dy: int, id: int)
    requires |s| == 100 && IsDir(dx, dy) && IsPlayer(id) && Captures(s, x, y, dx, dy, id)
    ensures var r := RunEnd(s, x + dx, y + dy, dx, dy, id);
            FlippedBefore(s, x, y, dx, dy, id, r.0, r.1) == FlipRun(s, x, y, dx, dy, id)
  {
  }

  /** A walk that has not reached the end (i, j) of the run stands on an
      opponent's disc inside the grid; writing id there and stepping on
      leaves the rest of the walk, and its end, unchanged. */
  lemma WalkStep(t: seq<int>, s: seq<int>, k: int, l: int, dx: int, dy: int, id: int, i: int, j: int)
    requires |t| == 100 && |s| == 100 && IsDir(dx, dy) && IsPlayer(id)
    requires RunEnd(s, k, l, dx, dy, id) == (i, j) && (k, l) != (i, j)
    ensures InBounds(k, l) && Cell(s, k, l) == -id
    ensures RunEnd(s, k + dx, l + dy, dx, dy, id) == (i, j)
    ensures 0 <= Reach(k + dx, l + dy, dx, dy) < Reach(k, l, dx, dy)
    ensures Walk(t[k + l * 10 := id], s, k + dx, l + dy, dx, dy, id) == Walk(t, s, k, l, dx, dy, id)
  {
  }

  /** The state of the flip loop at (k, l): the walk still ends at (i, j),
      and finishing it from the current board t gives the board w that the
      whole walk gives. */
  ghost predicate Walking(t: seq<int>, s: seq<int>, k: int, l: int, dx: int, dy: int, id: int,
                          i: int, j: int, w: seq<int>)
    requires |s| == 100 && IsDir(dx, dy) && IsPlayer(id)
  {
    |t| == 100 && RunEnd(s, k, l, dx, dy, id) == (i, j) && Walk(t, s, k, l, dx, dy, id) == w
  }

  lemma WalkingStep(t: seq<int>, s: seq<int>, k: int, l: int, dx: int, dy: int, id: int,
                    i: int, j: int, w: seq<int>)
    requires |s| == 100 && IsDir(dx, dy) && IsPlayer(id)
    requires Walking(t, s, k, l, dx, dy, id, i, j, w) && (k, l) != (i, j)
    ensures InBounds(k, l) && 0 <= Reach(k + dx, l + dy, dx, dy) < Reach(k, l, dx, dy)
    ensures Walking(t[k + l * 10 := id], s, k + dx, l + dy, dx, dy, id, i, j, w)
  {
    WalkStep(t, s, k, l, dx, dy, id, i, j);
  }

  lemma WalkingDone(t: seq<int>, s: seq<int>, dx: int, dy: int, id: int, i: int, j: int, w: seq<int>)
    requires |s| == 100 && IsDir(dx, dy) && IsPlayer(id)
    requires Walking(t, s, i, j, dx, dy, id, i, j, w)
    ensures t == w
  {
  }

  /** The walk back of a capturing pass as the board code performs it:
      starting from t at (k, l), write id on every cell of the opponent's
      run in s and stop at the first cell of s that does not hold -id. */
  ghost function Walk(t: seq<int>, s: seq<int>, k: int, l: int, dx: int, dy: int, id: int): seq<int>
    requires |t| == 100 && |s| == 100 && IsDir(dx, dy) && IsPlayer(id)
    decreases Reach(k, l, dx, dy)
  {
    if Cell(s, k, l) == -id then Walk(t[k + l * 10 := id], s, k + dx, l + dy, dx, dy, id) else t
  }

  /** Walking from a disc (k, l) of the run of (dx, dy) over a board on
      which the discs before (k, l) are already flipped flips the rest. */
  lemma {:induction false} WalkFlips(s: seq<int>, x: int, y: int, dx: int, dy: int, id: int,
                                     k: int, l: int)
    requires |s| == 100 && IsDir(dx, dy) && IsPlayer(id)
    requires InRun(s, x, y, dx, dy, id, k, l) || (k, l) == RunEnd(s, x + dx, y + dy, dx, dy, id)
    requires RunEnd(s, k, l, dx, dy, id) == RunEnd(s, x + dx, y + dy, dx, dy, id)
    ensures var r := RunEnd(s, x + dx, y + dy, dx, dy, id);
            Walk(FlippedBefore(s, x, y, dx, dy, id, k, l), s, k, l, dx, dy, id) ==
            FlippedBefore(s, x, y, dx, dy, id, r.0, r.1)
    decreases Reach(k, l, dx, dy)
  {
    if Cell(s, k, l) == -id {
      WalkFlipsStep(s, x, y, dx, dy, id, k, l);
      WalkFlips(s, x, y, dx, dy, id, k + dx, l + dy);
    } else {
      WalkFlipsEnd(s, x, y, dx, dy, id, k, l);
    }
  }

  /** The walk stops at the end of the run, on the fully flipped board. */
  lemma WalkFlipsEnd(s: seq<int>, x: int, y: int, dx: int, dy: int, id: int, k: int, l: int)
    requires |s| == 100 && IsDir(dx, dy) && IsPlayer(id) && Cell(s, k, l) != -id
    requires InRun(s, x, y, dx, dy, id, k, l) || (k, l) == RunEnd(s, x + dx, y + dy, dx, dy, id)
    ensures (k, l) == RunEnd(s, x + dx, y + dy, dx, dy, id)
    ensures Walk(FlippedBefore(s, x, y, dx, dy, id, k, l), s, k, l, dx, dy, id) ==
            FlippedBefore(s, x, y, dx, dy, id, k, l)
  {
    if InRun(s, x, y, dx, dy, id, k, l) {
      OnRunFacts(s, x, y, dx, dy, id, x + dx, y + dy, k, l);
    }
  }

  /** One step of WalkFlips: the walk from (k, l) goes on from the next
      position, over a board with one more disc flipped. */
  lemma WalkFlipsStep(s: seq<int>, x: int, y: int, dx: int, dy: int, id: int, k: int, l: int)
    requires |s| == 100 && IsDir(dx, dy) && IsPlayer(id)
    requires InRun(s, x, y, dx, dy, id, k, l)
    requires RunEnd(s, k, l, dx, dy, id) == RunEnd(s, x + dx, y + dy, dx, dy, id)
    ensures InRun(s, x, y, dx, dy, id, k + dx, l + dy) ||
            (k + dx, l + dy) == RunEnd(s, x + dx, y + dy, dx, dy, id)
    ensures RunEnd(s, k + dx, l + dy, dx, dy, id) == RunEnd(s, x + dx, y + dy, dx, dy, id)
    ensures 0 <= Reach(k + dx, l + dy, dx, dy) < Reach(k, l, dx, dy)
    ensures Walk(FlippedBefore(s, x, y, dx, dy, id, k, l), s, k, l, dx, dy, id) ==
            Walk(FlippedBefore(s, x, y, dx, dy, id, k + dx, l + dy), s, k + dx, l + dy, dx, dy, id)
  {
    FlipOne(s, x, y, dx, dy, id, k, l);
    if Cell(s, k + dx, l + dy) == -id {
      RunContinues(s, x, y, dx, dy, id, k, l);
    }
  }

  /** The walk back from the neighbour of (x, y) is exactly the pass
      FlipRun of a capturing direction. */
  lemma WalkIsFlipRun(s: seq<int>, x: int, y: int, dx: int, dy: int, id: int)
    requires |s| == 100 && IsDir(dx, dy) && IsPlayer(id) && Captures(s, x, y, dx, dy, id)
    ensures Walk(s, s, x + dx, y + dy, dx, dy, id) == FlipRun(s, x, y, dx, dy, id)
  {
    FlippedBeforeStart(s, x, y, dx, dy, id);
    WalkFlips(s, x, y, dx, dy, id, x + dx, y + dy);
    FlippedBeforeEnd(s, x, y, dx, dy, id);
  }

  /** A pass writes only id, so the board stays well formed. */
  lemma FlipRunWf(s: seq<int>, x: int, y: int, dx: int, dy: int, id: int)
    requires Wf(s) && IsDir(dx, dy) && IsPlayer(id)
    ensures Wf(FlipRun(s, x, y, dx, dy, id))
  {
  }

  // ---------------------------------------------------------------------
  // Lemmas: the direction loop equals the simultaneous reading
  // ---------------------------------------------------------------------

  /** Cell p once (x, y) is written and the first k directions are done,
      in the simultaneous reading. */
  ghost function PartlyPlayed(s: seq<int>, x: int, y: int, id: int, k: int, p: int): int
    requires |s| == 100 && IsPlayer(id) && 0 <= p < 100
  {
    if p == x + y * 10 then id
    else if Flipped(s, x, y, id, p % 10, p / 10) &&
            DirIndex(Sign(p % 10 - x), Sign(p / 10 - y)) < k then id
    else s[p]
  }

  /** Running the direction loop pass by pass on the current board gives,
      after k passes, exactly the simultaneous reading restricted to the
      first k directions: no pass sees the writes of an earlier one. */
  lemma {:induction false} FlipDirsCells(s: seq<int>, x: int, y: int, id: int, k: int)
    requires |s| == 100 && InBounds(x, y) && IsPlayer(id) && 0 <= k <= 8
    ensures forall p :: 0 <= p < 100 ==>
              FlipDirs(s[x + y * 10 := id], x, y, id, k)[p] == PartlyPlayed(s, x, y, id, k, p)
  {
    if k == 0 {
      CellIndex(x, y);
    } else {
      FlipDirsCells(s, x, y, id, k - 1);
      var t := FlipDirs(s[x + y * 10 := id], x, y, id, k - 1);
      PassSeesOriginal(s, x, y, id, k - 1, t);
      forall p | 0 <= p < 100
        ensures FlipDirs(s[x + y * 10 := id], x, y, id, k)[p] == PartlyPlayed(s, x, y, id, k, p)
      {
        PassCell(s, x, y, id, k - 1, t, p);
      }
    }
  }

  /** Before pass k, the sector of direction k still holds the original
      discs. */
  lemma PassSeesOriginal(s: seq<int>, x: int, y: int, id: int, k: int, t: seq<int>)
    requires |s| == 100 && |t| == 100 && InBounds(x, y) && IsPlayer(id) && 0 <= k < 8
    requires forall p :: 0 <= p < 100 ==> t[p] == PartlyPlayed(s, x, y, id, k, p)
    ensures AgreeToward(t, s, x, y, Dir(k).0, Dir(k).1)
  {
    var (dx, dy) := Dir(k);
    DirIndexOfDir(k);
    forall c, e | Toward(x, y, dx, dy, c, e) ensures Cell(t, c, e) == Cell(s, c, e) {
      if InBounds(c, e) {
        CellIndex(c, e);
        assert PartlyPlayed(s, x, y, id, k, c + e * 10) == s[c + e * 10];
      }
    }
  }

  /** Pass k sets exactly the flipped discs of direction k. */
  lemma PassCell(s: seq<int>, x: int, y: int, id: int, k: int, t: seq<int>, p: int)
    requires |s| == 100 && |t| == 100 && InBounds(x, y) && IsPlayer(id) && 0 <= k < 8
    requires AgreeToward(t, s, x, y, Dir(k).0, Dir(k).1)
    requires 0 <= p < 100 && t[p] == PartlyPlayed(s, x, y, id, k, p)
    ensures FlipRun(t, x, y, Dir(k).0, Dir(k).1, id)[p] == PartlyPlayed(s, x, y, id, k + 1, p)
  {
    var (dx, dy) := Dir(k);
    CapturesAgree(t, s, x, y, dx, dy, id);
    IndexCell(p);
    var c, e := p % 10, p / 10;
    InRunAgrees(t, s, x, y, dx, dy, id, c, e);
    if Captures(s, x, y, dx, dy, id) && InRun(s, x, y, dx, dy, id, c, e) {
      PassCellFlipped(s, x, y, id, k, p);
    } else {
      PassCellKept(s, x, y, id, k, p);
    }
  }

  lemma PassCellFlipped(s: seq<int>, x: int, y: int, id: int, k: int, p: int)
    requires |s| == 100 && InBounds(x, y) && IsPlayer(id) && 0 <= k < 8 && 0 <= p < 100
    requires Captures(s, x, y, Dir(k).0, Dir(k).1, id)
    requires InRun(s, x, y, Dir(k).0, Dir(k).1, id, p % 10, p / 10)
    ensures PartlyPlayed(s, x, y, id, k + 1, p) == id
  {
    var (dx, dy) := Dir(k);
    var c, e := p % 10, p / 10;
    DirIndexOfDir(k);
    OnRunFacts(s, x, y, dx, dy, id, x + dx, y + dy, c, e);
    assert Flipped(s, x, y, id, c, e);
  }

  lemma PassCellKept(s: seq<int>, x: int, y: int, id: int, k: int, p: int)
    requires |s| == 100 && InBounds(x, y) && IsPlayer(id) && 0 <= k < 8 && 0 <= p < 100
    requires !(Captures(s, x, y, Dir(k).0, Dir(k).1, id) &&
               InRun(s, x, y, Dir(k).0, Dir(k).1, id, p % 10, p / 10))
    ensures PartlyPlayed(s, x, y, id, k + 1, p) == PartlyPlayed(s, x, y, id, k, p)
  {
    var c, e := p % 10, p / 10;
    if p != x + y * 10 && Flipped(s, x, y, id, c, e) {
      var ex, ey := Sign(c - x), Sign(e - y);
      assert Dir(DirIndex(ex, ey)) == (ex, ey);
      assert DirIndex(ex, ey) != k;
    }
  }

  /** The code's order of work (write (x, y), then each direction in turn
      on the current board) produces the board Play describes. */
  lemma PlaceStepsArePlay(s: seq<int>, x: int, y: int, id: int)
    requires |s| == 100 && IsPlayer(id) && Legal(s, x, y, id)
    ensures FlipDirs(s[x + y * 10 := id], x, y, id, 8) == Play(s, x, y, id)
  {
    FlipDirsCells(s, x, y, id, 8);
    var t := FlipDirs(s[x + y * 10 := id], x, y, id, 8);
    var u := Play(s, x, y, id);
    forall p | 0 <= p < 100 ensures t[p] == u[p] {
      assert u[p] == if p == x + y * 10 || Flipped(s, x, y, id, p % 10, p / 10) then id else s[p];
      assert t[p] == PartlyPlayed(s, x, y, id, 8, p);
    }
  }

  // ---------------------------------------------------------------------
  // Lemmas: what a move changes
  // ---------------------------------------------------------------------

  /** Only the opponent's discs are flipped. */
  lemma FlippedWasOpponent(s: seq<int>, x: int, y: int, id: int, c: int, e: int)
    requires |s| == 100 && IsPlayer(id) && Flipped(s, x, y, id, c, e)
    ensures InBounds(c, e) && Cell(s, c, e) == -id
  {
    var dx, dy := Sign(c - x), Sign(e - y);
    OnRunFacts(s, x, y, dx, dy, id, x + dx, y + dy, c, e);
  }

  /** A legal move writes id on the empty cell (x, y), turns some opponent
      discs into id, and changes nothing else. */
  lemma PlayChanges(s: seq<int>, x: int, y: int, id: int)
    requires |s| == 100 && IsPlayer(id) && Legal(s, x, y, id)
    ensures InBounds(x, y) && s[x + y * 10] == 0 && Play(s, x, y, id)[x + y * 10] == id
    ensures forall p :: 0 <= p < 100 && p != x + y * 10 ==>
              Play(s, x, y, id)[p] == s[p] || (s[p] == -id && Play(s, x, y, id)[p] == id)
    ensures exists q :: 0 <= q < 100 && s[q] == -id && Play(s, x, y, id)[q] == id
  {
    forall p | 0 <= p < 100 && p != x + y * 10
      ensures Play(s, x, y, id)[p] == s[p] || (s[p] == -id && Play(s, x, y, id)[p] == id)
    {
      PlayCell(s, x, y, id, p);
    }
    var q := PlayFlipsSome(s, x, y, id);
  }

  lemma PlayCell(s: seq<int>, x: int, y: int, id: int, p: int)
    requires |s| == 100 && IsPlayer(id) && Legal(s, x, y, id) && 0 <= p < 100 && p != x + y * 10
    ensures Play(s, x, y, id)[p] == s[p] || (s[p] == -id && Play(s, x, y, id)[p] == id)
  {
    PlayAt(s, x, y, id, p);
    IndexCell(p);
    if Flipped(s, x, y, id, p % 10, p / 10) {
      FlippedWasOpponent(s, x, y, id, p % 10, p / 10);
    }
  }

  /** A legal move flips at least one disc, q. */
  lemma PlayFlipsSome(s: seq<int>, x: int, y: int, id: int) returns (q: int)
    requires |s| == 100 && IsPlayer(id) && Legal(s, x, y, id)
    ensures 0 <= q < 100 && s[q] == -id && Play(s, x, y, id)[q] == id
  {
    var k :| 0 <= k < 8 && CapturesDir(s, x, y, k, id);
    q := PlayFlipsNeighbour(s, x, y, Dir(k).0, Dir(k).1, id);
  }

  /** The first disc of a capturing direction's run is flipped. */
  lemma PlayFlipsNeighbour(s: seq<int>, x: int, y: int, dx: int, dy: int, id: int) returns (q: int)
    requires |s| == 100 && IsDir(dx, dy) && IsPlayer(id) && Legal(s, x, y, id)
    requires Captures(s, x, y, dx, dy, id)
    ensures 0 <= q < 100 && s[q] == -id && Play(s, x, y, id)[q] == id
  {
    var c, e := x + dx, y + dy;
    NeighbourFlipped(s, x, y, dx, dy, id);
    CellIndex(c, e);
    q := c + e * 10;
    PlayAt(s, x, y, id, q);
  }

  /** When a direction captures, the first disc of its run is flipped. */
  lemma NeighbourFlipped(s: seq<int>, x: int, y: int, dx: int, dy: int, id: int)
    requires |s| == 100 && IsDir(dx, dy) && IsPlayer(id) && Captures(s, x, y, dx, dy, id)
    ensures InBounds(x + dx, y + dy) && s[(x + dx) + (y + dy) * 10] == -id
    ensures Flipped(s, x, y, id, x + dx, y + dy)
  {
    assert Sign(dx) == dx && Sign(dy) == dy;
    assert OnRun(s, x + dx, y + dy, dx, dy, id, x + dx, y + dy);
  }

  /** Cell p of the board after a legal move. */
  lemma PlayAt(s: seq<int>, x: int, y: int, id: int, p: int)
    requires |s| == 100 && IsPlayer(id) && Legal(s, x, y, id) && 0 <= p < 100
    ensures Play(s, x, y, id)[p] ==
            if p == x + y * 10 || Flipped(s, x, y, id, p % 10, p / 10) then id else s[p]
  {
  }

  /** A move keeps every cell in {1, -1, 0}. */
  lemma PlayWf(s: seq<int>, x: int, y: int, id: int)
    requires Wf(s) && IsPlayer(id)
    ensures Wf(Play(s, x, y, id))
  {
  }
}

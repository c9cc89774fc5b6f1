/** The board of the 10x10 disc-flipping game: a flat array of 100 cells
    where cell (x, y) is state[x + y * 10] and holds 1 or -1 (the two
    players) or 0 (empty). Every method is proved against the
    specification functions of module Rules and module Counting. */
module Othello {
  import opened Rules
  import opened Counting

  /** The starting board: 1 at cells 44 and 55, -1 at cells 45 and 54. */
  function Initial(): (s: seq<int>)
    ensures Wf(s)
  {
    seq(100, p => if p == 44 || p == 55 then 1 else if p == 45 || p == 54 then -1 else 0)
  }

  class Board {
    var state: array<int>

    /** Object invariant: 100 cells, each 1, -1 or 0. */
    ghost predicate Valid()
      reads this, state
    {
      Wf(state[..])
    }

    /** A starting board with four discs in the centre. */
    constructor ()
      ensures Valid() && fresh(state) && state[..] == Initial()
    {
      var cells := new int[100](_ => 0);
      cells[44] := 1;
      cells[45] := -1;
      cells[54] := -1;
      cells[55] := 1;
      state := cells;
    }

    /** The disc differential: the number of 1s minus the number of -1s. */
    method Evaluate() returns (value: int)
      requires Valid()
      ensures value == Count(state[..], 1, 100) - Count(state[..], -1, 100)
      ensures -100 <= value <= 100
    {
      value := 0;
      for i := 0 to 100
        invariant value == Count(state[..], 1, i) - Count(state[..], -1, i)
      {
        if state[i] == 1 {
          value := value + 1;
        } else if state[i] == -1 {
          value := value - 1;
        }
      }
      CountBoth(state[..], 100);
    }

    /** An independent board with the same cells. */
    method Copy() returns (board: Board)
      requires Valid()
      ensures fresh(board) && fresh(board.state)
      ensures board.Valid() && board.state[..] == state[..]
    {
      board := new Board();
      for i := 0 to 100
        invariant fresh(board.state) && board.state.Length == 100
        invariant forall p :: 0 <= p < i ==> board.state[p] == state[p]
      {
        board.state[i] := state[i];
      }
    }

    /** The disc at (x, y), or -2 when (x, y) is off the grid. */
    function Index(x: int, y: int): (r: int)
      reads this, state
      requires Valid()
      ensures r == Cell(state[..], x, y)
      ensures -2 <= r <= 1 && (r == -2 <==> !InBounds(x, y))
      ensures InBounds(x, y) ==> r == state[x + y * 10]
    {
      if 0 <= x < 10 && 0 <= y < 10 then state[x + y * 10] else -2
    }

    /** Whether id may place a disc at (x, y). */
    method CanPlace(x: int, y: int, id: int) returns (ok: bool)
      requires Valid() && IsPlayer(id)
      ensures ok == Legal(state[..], x, y, id)
      ensures ok ==> InBounds(x, y) && state[x + y * 10] == 0
    {
      if Index(x, y) != 0 {
        return false;
      }
      for k := 0 to 8
        invariant forall k' :: 0 <= k' < k ==> !CapturesDir(state[..], x, y, k', id)
      {
        var (dx, dy) := Dir(k);
        ok := ScanFrom(x, y, dx, dy, id);
        if ok {
          assert CapturesDir(state[..], x, y, k, id);
          return;
        }
      }
      return false;
    }

    /** One pass of the direction loop of CanPlace: step once along
        (dx, dy); if that cell holds the opponent's disc, walk over the
        opponent's run and report whether id's own disc closes it. */
    method ScanFrom(x: int, y: int, dx: int, dy: int, id: int) returns (found: bool)
      requires Valid() && IsDir(dx, dy) && IsPlayer(id)
      ensures found == Captures(state[..], x, y, dx, dy, id)
    {
      var i, j := x + dx, y + dy;
      if Index(i, j) != -id {
        return false;
      }
      i, j := SkipRun(i + dx, j + dy, dx, dy, id);
      found := Index(i, j) == id;
    }

    /** Walk from (i, j) along (dx, dy) while the cell holds the opponent's
        disc; the walk stops at the first other cell, at the latest one step
        off the grid. */
    method SkipRun(i: int, j: int, dx: int, dy: int, id: int) returns (k: int, l: int)
      requires Valid() && IsDir(dx, dy) && IsPlayer(id)
      ensures (k, l) == RunEnd(state[..], i, j, dx, dy, id)
      ensures Index(k, l) != -id
    {
      k, l := i, j;
      while Index(k, l) == -id
        invariant RunEnd(state[..], k, l, dx, dy, id) == RunEnd(state[..], i, j, dx, dy, id)
        decreases Reach(k, l, dx, dy)
      {
        k, l := k + dx, l + dy;
      }
    }

    /** One pass of the direction loop of Place: walk over the opponent's
        run from (x, y) along (dx, dy) and, when the player's own disc
        closes it, flip the run. */
    method CaptureAlong(x: int, y: int, dx: int, dy: int, id: int)
      requires Valid() && IsDir(dx, dy) && IsPlayer(id)
      modifies state
      ensures Valid()
      ensures state[..] == FlipRun(old(state[..]), x, y, dx, dy, id)
    {
      var i, j := x + dx, y + dy;
      if Index(i, j) != -id {
        return;
      }
      i, j := SkipRun(i, j, dx, dy, id);
      if Index(i, j) == id {
        ghost var s := state[..];
        FlipWalk(state, x, y, dx, dy, id, i, j);
        WalkIsFlipRun(s, x, y, dx, dy, id);
        FlipRunWf(s, x, y, dx, dy, id);
      }
    }

    /** id places a disc at (x, y) and flips what it captures; nothing
        happens when the move is not legal. */
    method Place(x: int, y: int, id: int)
      requires Valid() && IsPlayer(id)
      modifies state
      ensures Valid()
      ensures state[..] == Play(old(state[..]), x, y, id)
      ensures !Legal(old(state[..]), x, y, id) ==> state[..] == old(state[..])
    {
      var ok := CanPlace(x, y, id);
      if !ok {
        return;
      }
      ghost var s := state[..];
      state[x + y * 10] := id;
      for k := 0 to 8
        invariant Valid()
        invariant state[..] == FlipDirs(s[x + y * 10 := id], x, y, id, k)
      {
        var (dx, dy) := Dir(k);
        CaptureAlong(x, y, dx, dy, id);
      }
      PlaceStepsArePlay(s, x, y, id);
    }

    /** Every legal move of id, column by column and, within a column, row
        by row. */
    method ValidMoves(id: int) returns (moves: seq<(int, int)>)
      requires Valid() && IsPlayer(id)
      ensures moves == LegalMoves(state[..], id)
    {
      ghost var s := state[..];
      ghost var legal := LegalFor(s, id);
      moves := [];
      for x := 0 to 10
        invariant moves == Listed(legal, x, 0)
      {
        for y := 0 to 10
          invariant moves == Listed(legal, x, y)
        {
          var ok := CanPlace(x, y, id);
          assert ok == legal(x, y);
          if ok {
            moves := moves + [(x, y)];
          }
        }
      }
    }

    /** The game is over when no cell is empty. */
    function End(): (r: bool)
      reads this, state
      requires Valid()
      ensures r <==> Count(state[..], 0, 100) == 0
      ensures r ==> LegalMoves(state[..], 1) == [] && LegalMoves(state[..], -1) == []
    {
      var full := 0 !in state[..];
      CountZero(state[..], 0, 100);
      if full then
        FullBoardHasNoMoves(state[..], 1);
        FullBoardHasNoMoves(state[..], -1);
        full
      else
        full
    }
  }

  /** The walk back of a capturing pass: from (k, l) up to the closing
      disc (i, j), every disc of cells becomes id's. */
  method FlipWalk(cells: array<int>, x: int, y: int, dx: int, dy: int, id: int, i: int, j: int)
    requires cells.Length == 100 && IsDir(dx, dy) && IsPlayer(id)
    requires RunEnd(cells[..], x + dx, y + dy, dx, dy, id) == (i, j)
    modifies cells
    ensures cells[..] == Walk(old(cells[..]), old(cells[..]), x + dx, y + dy, dx, dy, id)
  {
    ghost var s := cells[..];
    ghost var w := Walk(s, s, x + dx, y + dy, dx, dy, id);
    ghost var t := s;
    var k, l := x + dx, y + dy;
    while k != i || l != j
      invariant Walking(t, s, k, l, dx, dy, id, i, j, w)
      invariant forall p :: 0 <= p < 100 ==> cells[p] == t[p]
      decreases Reach(k, l, dx, dy)
    {
      WalkingStep(t, s, k, l, dx, dy, id, i, j, w);
      cells[k + l * 10] := id;
      t := t[k + l * 10 := id];
      k, l := k + dx, l + dy;
    }
    WalkingDone(t, s, dx, dy, id, i, j, w);
    assert cells[..] == t;
  }

  /** The order ValidMoves lists moves in: by column, then by row. */
  function Key(m: (int, int)): int
  {
    m.0 * 10 + m.1
  }

  /** The cells (c, e) of the grid with ok(c, e) that come before (x, y)
      in the order of ValidMoves: all of columns 0..x-1, then rows 0..y-1
      of column x. */
  ghost function Listed(ok: (int, int) -> bool, x: int, y: int): seq<(int, int)>
    requires (0 <= x < 10 && 0 <= y <= 10) || (x == 10 && y == 0)
    decreases x, y
  {
    if y == 0 then
      if x == 0 then [] else Listed(ok, x - 1, 10)
    else
      Listed(ok, x, y - 1) + (if ok(x, y - 1) then [(x, y - 1)] else [])
  }

  /** Legality of id's moves on s, as a test on a cell. */
  ghost function LegalFor(s: seq<int>, id: int): (int, int) -> bool
    requires |s| == 100 && IsPlayer(id)
  {
    (c, e) => Legal(s, c, e, id)
  }

  /** The list valid_moves returns. */
  ghost function LegalMoves(s: seq<int>, id: int): seq<(int, int)>
    requires |s| == 100 && IsPlayer(id)
  {
    Listed(LegalFor(s, id), 10, 0)
  }

  /** valid_moves lists exactly the legal moves, in strictly increasing key
      order (so without repetition). */
  lemma LegalMovesSpec(s: seq<int>, id: int)
    requires |s| == 100 && IsPlayer(id)
    ensures forall m :: m in LegalMoves(s, id) <==> InBounds(m.0, m.1) && Legal(s, m.0, m.1, id)
    ensures forall m :: m in LegalMoves(s, id) ==> InBounds(m.0, m.1) && s[m.0 + m.1 * 10] == 0
    ensures forall a, b :: 0 <= a < b < |LegalMoves(s, id)| ==>
              Key(LegalMoves(s, id)[a]) < Key(LegalMoves(s, id)[b])
  {
    var ok := LegalFor(s, id);
    ListedMembers(ok, 10, 0);
    ListedSorted(ok, 10, 0);
    forall m: (int, int) | InBounds(m.0, m.1) ensures Key(m) < 100 && ok(m.0, m.1) == Legal(s, m.0, m.1, id) {
    }
  }

  /** Listed holds exactly the cells before (x, y) that pass the test. */
  lemma {:induction false} ListedMembers(ok: (int, int) -> bool, x: int, y: int)
    requires (0 <= x < 10 && 0 <= y <= 10) || (x == 10 && y == 0)
    ensures forall m :: m in Listed(ok, x, y) <==>
              InBounds(m.0, m.1) && Key(m) < x * 10 + y && ok(m.0, m.1)
    decreases x, y
  {
    if y == 0 {
      if x > 0 {
        ListedMembers(ok, x - 1, 10);
      }
    } else {
      ListedMembers(ok, x, y - 1);
      forall m: (int, int) | InBounds(m.0, m.1) && Key(m) == x * 10 + y - 1 ensures m == (x, y - 1) {
        KeyUnique(m, (x, y - 1));
      }
    }
  }

  /** Distinct cells have distinct keys. */
  lemma KeyUnique(m: (int, int), n: (int, int))
    requires InBounds(m.0, m.1) && InBounds(n.0, n.1) && Key(m) == Key(n)
    ensures m == n
  {
  }

  /** Listed is in strictly increasing key order. */
  lemma {:induction false} ListedSorted(ok: (int, int) -> bool, x: int, y: int)
    requires (0 <= x < 10 && 0 <= y <= 10) || (x == 10 && y == 0)
    ensures forall a, b :: 0 <= a < b < |Listed(ok, x, y)| ==>
              Key(Listed(ok, x, y)[a]) < Key(Listed(ok, x, y)[b])
    decreases x, y
  {
    if y == 0 {
      if x > 0 {
        ListedSorted(ok, x - 1, 10);
      }
    } else {
      ListedSorted(ok, x, y - 1);
      ListedMembers(ok, x, y - 1);
      var prev := Listed(ok, x, y - 1);
      forall a | 0 <= a < |prev| ensures Key(prev[a]) < x * 10 + y - 1 {
        assert prev[a] in prev;
      }
    }
  }

  /** A full board has no legal move for either player. */
  lemma FullBoardHasNoMoves(s: seq<int>, id: int)
    requires |s| == 100 && IsPlayer(id) && Count(s, 0, 100) == 0
    ensures LegalMoves(s, id) == []
  {
    LegalMovesSpec(s, id);
    CountZero(s, 0, 100);
    if LegalMoves(s, id) != [] {
      var m := LegalMoves(s, id)[0];
      assert m in LegalMoves(s, id);
      CellIndex(m.0, m.1);
      assert false;
    }
  }

  /** The driver's pattern: copy the board, then play on the copy. The
      original board keeps its cells. */
  method PlayOnCopy(board: Board, x: int, y: int, id: int) returns (next: Board)
    requires board.Valid() && IsPlayer(id)
    ensures fresh(next) && next.Valid()
    ensures next.state[..] == Play(board.state[..], x, y, id)
    ensures board.state[..] == old(board.state[..])
  {
    next := board.Copy();
    next.Place(x, y, id);
  }
}

/** Chess Blitz: simplified chess against a greedy computer opponent. There
    is no castling and no en passant, and a pawn always promotes to a queen.
    Each side has a 60-second clock and white has three one-shot power-ups
    (undo, double move, freeze). */
module Chess {
  import opened Common

  datatype Kind = Pawn | Rook | Knight | Bishop | Queen | King
  datatype Color = White | Black
  datatype Piece = Piece(kind: Kind, color: Color)

  /** Eight rows of eight squares; row 0 is black's back rank. */
  type Board = seq<seq<Option<Piece>>>

  /** A square, possibly off the board (move generation probes beyond the edges). */
  datatype Sq = Sq(r: int, c: int)

  const InitialTime: int := 60

  predicate ValidBoard(b: Board)
  {
    IsGrid(b, 8, 8)
  }

  predicate OnBoard(sq: Sq)
  {
    0 <= sq.r < 8 && 0 <= sq.c < 8
  }

  function Opponent(c: Color): Color
  {
    if c == White then Black else White
  }

  /** The content of a square; off the board there is nothing. */
  function At(b: Board, sq: Sq): Option<Piece>
    requires ValidBoard(b)
  {
    if OnBoard(sq) then b[sq.r][sq.c] else None
  }

  predicate Own(b: Board, color: Color, sq: Sq)
    requires ValidBoard(b)
  {
    At(b, sq).Some? && At(b, sq).value.color == color
  }

  predicate Enemy(b: Board, color: Color, sq: Sq)
    requires ValidBoard(b)
  {
    At(b, sq).Some? && At(b, sq).value.color != color
  }

  predicate Vacant(b: Board, sq: Sq)
    requires ValidBoard(b)
  {
    OnBoard(sq) && At(b, sq).None?
  }

  function Value(k: Kind): nat
  {
    match k
    case Pawn => 1
    case Knight => 3
    case Bishop => 3
    case Rook => 5
    case Queen => 9
    case King => 100
  }

  // ---------------------------------------------------------------------
  // The initial position

  const BackRank: seq<Kind> := [Rook, Knight, Bishop, Queen, King, Bishop, Knight, Rook]

  function InitialSquare(r: int, c: int): Option<Piece>
    requires 0 <= c < 8
  {
    if r == 0 then Some(Piece(BackRank[c], Black))
    else if r == 1 then Some(Piece(Pawn, Black))
    else if r == 6 then Some(Piece(Pawn, White))
    else if r == 7 then Some(Piece(BackRank[c], White))
    else None
  }

  function InitialBoard(): (b: Board)
    ensures ValidBoard(b)
    ensures forall c :: 0 <= c < 8 ==>
              b[0][c] == Some(Piece(BackRank[c], Black)) && b[1][c] == Some(Piece(Pawn, Black)) &&
              b[6][c] == Some(Piece(Pawn, White)) && b[7][c] == Some(Piece(BackRank[c], White))
    ensures forall r, c :: 2 <= r < 6 && 0 <= c < 8 ==> b[r][c] == None
  {
    seq(8, r => seq(8, c requires 0 <= c < 8 => InitialSquare(r, c)))
  }

  function Mirror(x: Option<Piece>): Option<Piece>
  {
    match x
    case None => None
    case Some(p) => Some(Piece(p.kind, Opponent(p.color)))
  }

  /** White's set-up is black's reflected across the middle of the board. */
  lemma InitialBoardMirrored(r: int, c: int)
    requires 0 <= r < 8 && 0 <= c < 8
    ensures InitialBoard()[7 - r][c] == Mirror(InitialBoard()[r][c])
  {
  }

  // ---------------------------------------------------------------------
  // Move generation without the king-safety filter

  /** The outcome of probing one target square: whether it is recorded as a
      move, and whether a slide may continue past it. */
  datatype Probe = Probe(accepted: bool, slide: bool)

  /** Probing a target: it must be on the board and not hold a piece of the
      mover's colour; a capture-only probe needs an enemy there, a quiet
      probe an empty square. A slide continues only across empty squares. */
  function ProbeAt(b: Board, color: Color, sq: Sq, canCapture: bool, mustCapture: bool): (p: Probe)
    requires ValidBoard(b)
    ensures p.accepted <==>
              OnBoard(sq) && !Own(b, color, sq) && (mustCapture ==> Enemy(b, color, sq)) &&
              (!canCapture ==> Vacant(b, sq))
    ensures p.slide <==> p.accepted && Vacant(b, sq)
  {
    if !OnBoard(sq) then Probe(false, false)
    else if Own(b, color, sq) then Probe(false, false)
    else if mustCapture && At(b, sq).None? then Probe(false, false)
    else if !canCapture && At(b, sq).Some? then Probe(false, false)
    else Probe(true, At(b, sq).None?)
  }

  /** The square `steps` rows ahead of `sq` for a pawn of `color`, shifted `dc` columns. */
  function Ahead(sq: Sq, color: Color, steps: int, dc: int): Sq
  {
    Sq(sq.r + (if color == White then -steps else steps), sq.c + dc)
  }

  predicate OnStartRow(sq: Sq, color: Color)
  {
    (color == White && sq.r == 6) || (color == Black && sq.r == 1)
  }

  /** The pawn rules as stated: one step forward onto an empty square, two
      steps from the start row across two empty squares, or one step
      diagonally onto an enemy piece. */
  predicate PawnTarget(b: Board, sq: Sq, color: Color, m: Sq)
    requires ValidBoard(b)
  {
    (m == Ahead(sq, color, 1, 0) && Vacant(b, m)) ||
    (m == Ahead(sq, color, 2, 0) && OnStartRow(sq, color) && Vacant(b, Ahead(sq, color, 1, 0)) && Vacant(b, m)) ||
    ((m == Ahead(sq, color, 1, -1) || m == Ahead(sq, color, 1, 1)) && Enemy(b, color, m))
  }

  function PawnMoves(b: Board, sq: Sq, color: Color): (ms: seq<Sq>)
    requires ValidBoard(b)
    ensures forall m :: m in ms ==> OnBoard(m) && !Own(b, color, m)
  {
    var one := Ahead(sq, color, 1, 0);
    var step := ProbeAt(b, color, one, false, false);
    var pushes :=
      if step.slide then
        (if OnStartRow(sq, color) && ProbeAt(b, color, Ahead(sq, color, 2, 0), false, false).accepted
         then [one, Ahead(sq, color, 2, 0)] else [one])
      else [];
    var left := if ProbeAt(b, color, Ahead(sq, color, 1, -1), true, true).accepted then [Ahead(sq, color, 1, -1)] else [];
    var right := if ProbeAt(b, color, Ahead(sq, color, 1, 1), true, true).accepted then [Ahead(sq, color, 1, 1)] else [];
    pushes + left + right
  }

  /** A slide direction: one step in each coordinate at most, not standing still. */
  predicate ValidDir(dr: int, dc: int)
  {
    -1 <= dr <= 1 && -1 <= dc <= 1 && (dr != 0 || dc != 0)
  }

  /** Squares left before a coordinate moving in direction `d` leaves 0..7. */
  function Room(x: int, d: int): nat
  {
    if d == 1 && x <= 8 then 8 - x
    else if d == -1 && x >= -1 then x + 1
    else 0
  }

  /** Where a slide cannot continue: off the board or onto a friendly piece. */
  predicate Blocked(b: Board, color: Color, sq: Sq)
    requires ValidBoard(b)
  {
    !OnBoard(sq) || Own(b, color, sq)
  }

  /** A slide from `sq` (the first square past the piece) in direction
      (dr, dc): empty squares are recorded and passed, the first occupied
      square is recorded only when it holds an enemy, and the slide stops
      there or at the edge. */
  function Ray(b: Board, color: Color, sq: Sq, dr: int, dc: int): (ms: seq<Sq>)
    requires ValidBoard(b) && ValidDir(dr, dc)
    ensures forall i :: 0 <= i < |ms| ==> OnBoard(ms[i]) && !Own(b, color, ms[i])
    decreases Room(sq.r, dr) + Room(sq.c, dc)
  {
    if Blocked(b, color, sq) then []
    else if !Vacant(b, sq) then [sq]
    else [sq] + Ray(b, color, Sq(sq.r + dr, sq.c + dc), dr, dc)
  }

  /** A slide starts at `sq` and is empty exactly when `sq` is off the
      board or friendly. */
  lemma RayStart(b: Board, color: Color, sq: Sq, dr: int, dc: int)
    requires ValidBoard(b) && ValidDir(dr, dc)
    ensures var ms := Ray(b, color, sq, dr, dc);
            (|ms| > 0 ==> ms[0] == sq) && (|ms| == 0 <==> !OnBoard(sq) || Own(b, color, sq))
  {
  }

  /** Consecutive squares of `ms` are vacant steps in direction (dr, dc). */
  predicate Steps(b: Board, ms: seq<Sq>, dr: int, dc: int)
    requires ValidBoard(b)
  {
    forall i :: 0 <= i < |ms| - 1 ==> Vacant(b, ms[i]) && ms[i + 1] == Sq(ms[i].r + dr, ms[i].c + dc)
  }

  lemma StepsCons(b: Board, sq: Sq, rest: seq<Sq>, dr: int, dc: int)
    requires ValidBoard(b) && Steps(b, rest, dr, dc)
    requires |rest| > 0 ==> Vacant(b, sq) && rest[0] == Sq(sq.r + dr, sq.c + dc)
    ensures Steps(b, [sq] + rest, dr, dc)
  {
    var ms := [sq] + rest;
    forall i | 0 <= i < |ms| - 1
      ensures Vacant(b, ms[i]) && ms[i + 1] == Sq(ms[i].r + dr, ms[i].c + dc)
    {
      if i > 0 {
        assert ms[i] == rest[i - 1] && ms[i + 1] == rest[i];
      }
    }
  }

  /** A slide advances one step at a time across vacant squares. */
  lemma {:induction false} RaySteps(b: Board, color: Color, sq: Sq, dr: int, dc: int)
    requires ValidBoard(b) && ValidDir(dr, dc)
    ensures Steps(b, Ray(b, color, sq, dr, dc), dr, dc)
    decreases Room(sq.r, dr) + Room(sq.c, dc)
  {
    if !Blocked(b, color, sq) && Vacant(b, sq) {
      var next := Sq(sq.r + dr, sq.c + dc);
      RaySteps(b, color, next, dr, dc);
      RayStart(b, color, next, dr, dc);
      StepsCons(b, sq, Ray(b, color, next, dr, dc), dr, dc);
    }
  }

  /** A run of squares that, when it ends on a vacant square, ends just
      before a blocked one in direction (dr, dc). */
  predicate EndsBlocked(b: Board, color: Color, ms: seq<Sq>, dr: int, dc: int)
    requires ValidBoard(b)
  {
    |ms| > 0 && Vacant(b, ms[|ms| - 1]) ==> Blocked(b, color, Sq(ms[|ms| - 1].r + dr, ms[|ms| - 1].c + dc))
  }

  lemma EndsBlockedCons(b: Board, color: Color, sq: Sq, rest: seq<Sq>, dr: int, dc: int)
    requires ValidBoard(b) && EndsBlocked(b, color, rest, dr, dc)
    requires |rest| == 0 ==> Blocked(b, color, Sq(sq.r + dr, sq.c + dc))
    ensures EndsBlocked(b, color, [sq] + rest, dr, dc)
  {
    var ms := [sq] + rest;
    if |rest| > 0 {
      assert ms[|ms| - 1] == rest[|rest| - 1];
    } else {
      assert ms[|ms| - 1] == sq;
    }
  }

  /** A slide ending on a vacant square stops just before the edge or a
      friendly piece; otherwise it ends on the enemy it captures. */
  lemma {:induction false} RayEnd(b: Board, color: Color, sq: Sq, dr: int, dc: int)
    requires ValidBoard(b) && ValidDir(dr, dc)
    ensures EndsBlocked(b, color, Ray(b, color, sq, dr, dc), dr, dc)
    decreases Room(sq.r, dr) + Room(sq.c, dc)
  {
    if !Blocked(b, color, sq) && Vacant(b, sq) {
      var next := Sq(sq.r + dr, sq.c + dc);
      RayEnd(b, color, next, dr, dc);
      RayStart(b, color, next, dr, dc);
      EndsBlockedCons(b, color, sq, Ray(b, color, next, dr, dc), dr, dc);
    }
  }

  /** The slide of a piece on `from` in direction d. */
  function RayFrom(b: Board, color: Color, from: Sq, d: (int, int)): (ms: seq<Sq>)
    requires ValidBoard(b) && ValidDir(d.0, d.1)
    ensures forall m :: m in ms ==> OnBoard(m) && !Own(b, color, m)
  {
    Ray(b, color, Sq(from.r + d.0, from.c + d.1), d.0, d.1)
  }

  /** The slides of a piece standing on `from`, one per direction, in order. */
  function Slides(b: Board, color: Color, from: Sq, dirs: seq<(int, int)>): (ms: seq<Sq>)
    requires ValidBoard(b)
    requires forall i :: 0 <= i < |dirs| ==> ValidDir(dirs[i].0, dirs[i].1)
    ensures forall m :: m in ms ==> OnBoard(m) && !Own(b, color, m)
  {
    if |dirs| == 0 then []
    else RayFrom(b, color, from, dirs[0]) + Slides(b, color, from, dirs[1..])
  }

  /** A slide target is exactly a square on the slide in one of the directions. */
  lemma {:induction false} SlidesSpec(b: Board, color: Color, from: Sq, dirs: seq<(int, int)>, m: Sq)
    requires ValidBoard(b)
    requires forall i :: 0 <= i < |dirs| ==> ValidDir(dirs[i].0, dirs[i].1)
    ensures m in Slides(b, color, from, dirs) <==>
              exists i :: 0 <= i < |dirs| && m in RayFrom(b, color, from, dirs[i])
  {
    if |dirs| > 0 {
      SlidesSpec(b, color, from, dirs[1..], m);
      assert forall i :: 1 <= i < |dirs| ==> dirs[i] == dirs[1..][i - 1];
      if m in Slides(b, color, from, dirs[1..]) {
        var j :| 0 <= j < |dirs[1..]| && m in RayFrom(b, color, from, dirs[1..][j]);
        assert m in RayFrom(b, color, from, dirs[j + 1]);
      }
    }
  }

  /** Single jumps to fixed offsets (knight and king), in the given order. */
  function Jumps(b: Board, color: Color, from: Sq, offsets: seq<(int, int)>): (ms: seq<Sq>)
    requires ValidBoard(b)
    ensures forall m :: m in ms ==> OnBoard(m) && !Own(b, color, m)
  {
    if |offsets| == 0 then []
    else
      var target := Sq(from.r + offsets[0].0, from.c + offsets[0].1);
      (if ProbeAt(b, color, target, true, false).accepted then [target] else []) + Jumps(b, color, from, offsets[1..])
  }

  /** A jump target is exactly an offset square on the board that does not
      hold a piece of the mover's colour. */
  lemma {:induction false} JumpsSpec(b: Board, color: Color, from: Sq, offsets: seq<(int, int)>, m: Sq)
    requires ValidBoard(b)
    ensures m in Jumps(b, color, from, offsets) <==>
              OnBoard(m) && !Own(b, color, m) &&
              exists i :: 0 <= i < |offsets| && m == Sq(from.r + offsets[i].0, from.c + offsets[i].1)
  {
    if |offsets| > 0 {
      JumpsSpec(b, color, from, offsets[1..], m);
      assert forall i :: 1 <= i < |offsets| ==> offsets[i] == offsets[1..][i - 1];
      if m in Jumps(b, color, from, offsets[1..]) {
        var j :| 0 <= j < |offsets[1..]| && m == Sq(from.r + offsets[1..][j].0, from.c + offsets[1..][j].1);
        assert m == Sq(from.r + offsets[j + 1].0, from.c + offsets[j + 1].1);
      }
    }
  }

  const RookDirs: seq<(int, int)> := [(-1, 0), (1, 0), (0, -1), (0, 1)]
  const BishopDirs: seq<(int, int)> := [(-1, -1), (-1, 1), (1, -1), (1, 1)]
  const QueenDirs: seq<(int, int)> := BishopDirs + RookDirs
  const KnightOffsets: seq<(int, int)> := [(-2, -1), (-2, 1), (-1, -2), (-1, 2), (1, -2), (1, 2), (2, -1), (2, 1)]
  const KingOffsets: seq<(int, int)> := [(-1, -1), (-1, 0), (-1, 1), (0, -1), (0, 1), (1, -1), (1, 0), (1, 1)]

  /** Move generation for a piece `p` standing on `from`, dispatched on its kind. */
  function Generate(b: Board, from: Sq, p: Piece): (ms: seq<Sq>)
    requires ValidBoard(b)
    ensures forall m :: m in ms ==> OnBoard(m) && !Own(b, p.color, m)
  {
    match p.kind
    case Pawn => PawnMoves(b, from, p.color)
    case Rook => Slides(b, p.color, from, RookDirs)
    case Knight => Jumps(b, p.color, from, KnightOffsets)
    case Bishop => Slides(b, p.color, from, BishopDirs)
    case Queen => Slides(b, p.color, from, QueenDirs)
    case King => Jumps(b, p.color, from, KingOffsets)
  }

  // ---------------------------------------------------------------------
  // Check, the king-safety filter and mate detection

  /** The board with `p` placed on `to` and `from` emptied (the trial move
      of the king-safety filter, and the move itself once promotion is decided). */
  function Relocate(b: Board, from: Sq, to: Sq, p: Piece): (b': Board)
    requires ValidBoard(b) && OnBoard(from) && OnBoard(to)
    ensures ValidBoard(b')
    ensures At(b', from) == None
    ensures to != from ==> At(b', to) == Some(p)
    ensures forall sq :: sq != from && sq != to ==> At(b', sq) == At(b, sq)
  {
    Set2(Set2(b, to.r, to.c, Some(p)), from.r, from.c, None)
  }

  /** Row-major order: rows top to bottom, each row left to right. */
  predicate Before(a: Sq, b: Sq)
  {
    a.r < b.r || (a.r == b.r && a.c < b.c)
  }

  /** A position of a row-major scan: a square, or the end past the last one. */
  predicate ScanPos(sq: Sq)
  {
    OnBoard(sq) || sq == Sq(8, 0)
  }

  function NextSq(sq: Sq): (n: Sq)
    requires OnBoard(sq)
    ensures ScanPos(n) && Before(sq, n)
    ensures forall s :: Before(sq, s) && OnBoard(s) ==> !Before(s, n)
  {
    if sq.c < 7 then Sq(sq.r, sq.c + 1) else Sq(sq.r + 1, 0)
  }

  /** The first square at scan position `sq` or later holding the king of `color`. */
  function KingFrom(b: Board, color: Color, sq: Sq): (k: Option<Sq>)
    requires ValidBoard(b) && ScanPos(sq)
    ensures k.Some? ==> OnBoard(k.value) && At(b, k.value) == Some(Piece(King, color)) && !Before(k.value, sq)
    ensures k.Some? ==> forall s :: OnBoard(s) && !Before(s, sq) && Before(s, k.value) ==> At(b, s) != Some(Piece(King, color))
    ensures k.None? ==> forall s :: OnBoard(s) && !Before(s, sq) ==> At(b, s) != Some(Piece(King, color))
    decreases 8 - sq.r, 8 - sq.c
  {
    if !OnBoard(sq) then None
    else if At(b, sq) == Some(Piece(King, color)) then Some(sq)
    else
      var k := KingFrom(b, color, NextSq(sq));
      assert forall s :: OnBoard(s) && !Before(s, sq) && s != sq ==> !Before(s, NextSq(sq));
      k
  }

  function KingSquare(b: Board, color: Color): (k: Option<Sq>)
    requires ValidBoard(b)
  {
    KingFrom(b, color, Sq(0, 0))
  }

  /** The moves of the piece on `from`. Without the king-safety flag these
      are the generator's targets; with it, only the targets after which the
      mover's own king is not in check. The check test asks for the moves of
      the opponent's pieces without the flag, so move generation, the filter
      and the check test are one recursive family. */
  function ValidMoves(b: Board, from: Sq, checkKingSafety: bool): (ms: seq<Sq>)
    requires ValidBoard(b) && OnBoard(from)
    ensures At(b, from).None? ==> ms == []
    ensures forall m :: m in ms ==> OnBoard(m) && At(b, from).Some? && !Own(b, At(b, from).value.color, m)
    decreases if checkKingSafety then 4 else 0, 0, 0
  {
    match At(b, from)
    case None => []
    case Some(p) =>
      if checkKingSafety then SafeOnly(b, from, p, ValidMoves(b, from, false))
      else Generate(b, from, p)
  }

  /** The moves in `cands` that do not leave the king of `p.color` in check,
      in order. */
  function SafeOnly(b: Board, from: Sq, p: Piece, cands: seq<Sq>): (ms: seq<Sq>)
    requires ValidBoard(b) && OnBoard(from)
    requires forall m :: m in cands ==> OnBoard(m)
    ensures forall m :: m in ms ==> m in cands
    decreases 3, |cands|, 0
  {
    if |cands| == 0 then []
    else
      var rest := SafeOnly(b, from, p, cands[1..]);
      if !InCheck(Relocate(b, from, cands[0], p), p.color) then [cands[0]] + rest else rest
  }

  /** The king of `color` is attacked; a side without a king counts as in check. */
  predicate InCheck(b: Board, color: Color)
    requires ValidBoard(b)
    decreases 2, 0, 0
  {
    match KingSquare(b, color)
    case None => true
    case Some(k) => AttackedFrom(b, color, k, Sq(0, 0))
  }

  /** Some piece of the opponent of `color`, at scan position `sq` or later,
      can move to `target` when the safety of its own king is ignored. */
  predicate AttackedFrom(b: Board, color: Color, target: Sq, sq: Sq)
    requires ValidBoard(b) && ScanPos(sq)
    decreases 1, 8 - sq.r, 8 - sq.c
  {
    OnBoard(sq) &&
    ((Enemy(b, color, sq) && target in ValidMoves(b, sq, false)) || AttackedFrom(b, color, target, NextSq(sq)))
  }

  /** The scan finds an attacker exactly when one exists. */
  lemma {:induction false} AttackedFromSpec(b: Board, color: Color, target: Sq, sq: Sq)
    requires ValidBoard(b) && ScanPos(sq)
    ensures AttackedFrom(b, color, target, sq) <==>
              exists s :: OnBoard(s) && !Before(s, sq) && Enemy(b, color, s) && target in ValidMoves(b, s, false)
    decreases 8 - sq.r, 8 - sq.c
  {
    if OnBoard(sq) {
      var n := NextSq(sq);
      AttackedFromSpec(b, color, target, n);
      if Enemy(b, color, sq) && target in ValidMoves(b, sq, false) {
        assert OnBoard(sq) && !Before(sq, sq) && Enemy(b, color, sq) && target in ValidMoves(b, sq, false);
      } else if exists s :: OnBoard(s) && !Before(s, sq) && Enemy(b, color, s) && target in ValidMoves(b, s, false) {
        var s :| OnBoard(s) && !Before(s, sq) && Enemy(b, color, s) && target in ValidMoves(b, s, false);
        assert s != sq;
        assert !Before(s, n);
      }
    }
  }

  lemma NoKingIsCheck(b: Board, color: Color)
    requires ValidBoard(b)
    requires forall r, c :: 0 <= r < 8 && 0 <= c < 8 ==> b[r][c] != Some(Piece(King, color))
    ensures InCheck(b, color)
  {
    var k := KingSquare(b, color);
    assert k.None? by {
      if k.Some? {
        assert false;
      }
    }
  }

  lemma {:induction false} SafeOnlyMembers(b: Board, from: Sq, p: Piece, cands: seq<Sq>, m: Sq)
    requires ValidBoard(b) && OnBoard(from)
    requires forall m :: m in cands ==> OnBoard(m)
    ensures m in SafeOnly(b, from, p, cands) <==> m in cands && !InCheck(Relocate(b, from, m, p), p.color)
  {
    if |cands| > 0 {
      SafeOnlyMembers(b, from, p, cands[1..], m);
    }
  }

  /** The unfiltered moves of a pawn are exactly what the pawn rules allow. */
  lemma PawnRules(b: Board, from: Sq, m: Sq)
    requires ValidBoard(b) && OnBoard(from)
    requires At(b, from).Some? && At(b, from).value.kind == Pawn
    ensures m in ValidMoves(b, from, false) <==> PawnTarget(b, from, At(b, from).value.color, m)
  {
    var color := At(b, from).value.color;
    assert ValidMoves(b, from, false) == PawnMoves(b, from, color);
    PawnMovesSpec(b, from, color, m);
  }

  lemma PawnMovesSpec(b: Board, from: Sq, color: Color, m: Sq)
    requires ValidBoard(b)
    ensures m in PawnMoves(b, from, color) <==> PawnTarget(b, from, color, m)
  {
    var one := Ahead(from, color, 1, 0);
    var two := Ahead(from, color, 2, 0);
    var l := Ahead(from, color, 1, -1);
    var r := Ahead(from, color, 1, 1);
    assert ProbeAt(b, color, one, false, false).slide <==> Vacant(b, one);
    assert ProbeAt(b, color, two, false, false).accepted <==> Vacant(b, two);
    assert ProbeAt(b, color, l, true, true).accepted <==> Enemy(b, color, l);
    assert ProbeAt(b, color, r, true, true).accepted <==> Enemy(b, color, r);
  }

  /** With the king-safety flag a move is kept exactly when it is an
      unfiltered move after which the mover's own king is not in check. */
  lemma KingSafeMovesSpec(b: Board, from: Sq, m: Sq)
    requires ValidBoard(b) && OnBoard(from) && At(b, from).Some?
    ensures m in ValidMoves(b, from, true) <==>
              m in ValidMoves(b, from, false) && !InCheck(Relocate(b, from, m, At(b, from).value), At(b, from).value.color)
  {
    SafeOnlyMembers(b, from, At(b, from).value, ValidMoves(b, from, false), m);
  }

  /** The piece of `color` on `sq`, if any, has no king-safe move. */
  predicate Stuck(b: Board, color: Color, sq: Sq)
    requires ValidBoard(b) && OnBoard(sq)
  {
    Own(b, color, sq) ==> ValidMoves(b, sq, true) == []
  }

  /** No piece of `color` has a king-safe move. */
  predicate NoLegalMoves(b: Board, color: Color)
    requires ValidBoard(b)
  {
    forall r, c :: 0 <= r < 8 && 0 <= c < 8 ==> Stuck(b, color, Sq(r, c))
  }

  /** The scan for mate or stalemate: true exactly when no piece of
      `color` has a king-safe move. */
  method CheckForMate(b: Board, color: Color) returns (mate: bool)
    requires ValidBoard(b)
    ensures mate <==> NoLegalMoves(b, color)
  {
    var r := 0;
    while r < 8
      invariant 0 <= r <= 8
      invariant forall sq :: OnBoard(sq) && sq.r < r ==> Stuck(b, color, sq)
    {
      var c := 0;
      while c < 8
        invariant 0 <= c <= 8
        invariant forall sq :: OnBoard(sq) && Before(sq, Sq(r, c)) ==> Stuck(b, color, sq)
      {
        if !Stuck(b, color, Sq(r, c)) {
          return false;
        }
        c := c + 1;
      }
      r := r + 1;
    }
    return true;
  }

  /** A legal (king-safe) move never leaves the mover's own king in check. */
  lemma KingSafeMoveLeavesNoCheck(b: Board, from: Sq, to: Sq)
    requires ValidBoard(b) && OnBoard(from)
    requires to in ValidMoves(b, from, true)
    ensures OnBoard(to) && At(b, from).Some?
    ensures !InCheck(Relocate(b, from, to, At(b, from).value), At(b, from).value.color)
  {
    KingSafeMovesSpec(b, from, to);
  }

  // ---------------------------------------------------------------------
  // The computer opponent's choice

  /** A candidate move and its score: the value of the captured piece, or 0. */
  datatype Candidate = Candidate(from: Sq, to: Sq, score: int)

  function CaptureValue(b: Board, to: Sq): nat
    requires ValidBoard(b)
  {
    if At(b, to).Some? then Value(At(b, to).value.kind) else 0
  }

  /** A candidate is a king-safe move of a piece of `color`, scored by what it captures. */
  predicate Sound(b: Board, color: Color, m: Candidate)
    requires ValidBoard(b)
  {
    OnBoard(m.from) && Own(b, color, m.from) && m.to in ValidMoves(b, m.from, true) && m.score == CaptureValue(b, m.to)
  }

  function ScoreMoves(b: Board, from: Sq, ts: seq<Sq>): (cs: seq<Candidate>)
    requires ValidBoard(b)
    ensures |cs| == |ts|
    ensures forall i :: 0 <= i < |ts| ==> cs[i] == Candidate(from, ts[i], CaptureValue(b, ts[i]))
  {
    seq(|ts|, i requires 0 <= i < |ts| => Candidate(from, ts[i], CaptureValue(b, ts[i])))
  }

  /** The candidate list of the scan from `sq` on: for each square in
      row-major order holding a piece of `color`, its king-safe moves in
      generation order. */
  function CandidatesFrom(b: Board, color: Color, sq: Sq): (cs: seq<Candidate>)
    requires ValidBoard(b) && ScanPos(sq)
    ensures forall i :: 0 <= i < |cs| ==> Sound(b, color, cs[i]) && !Before(cs[i].from, sq)
    ensures forall s, t :: OnBoard(s) && !Before(s, sq) && Own(b, color, s) && t in ValidMoves(b, s, true) ==>
              Candidate(s, t, CaptureValue(b, t)) in cs
    decreases 8 - sq.r, 8 - sq.c
  {
    if !OnBoard(sq) then []
    else
      var here := if Own(b, color, sq) then ScoreMoves(b, sq, ValidMoves(b, sq, true)) else [];
      var rest := CandidatesFrom(b, color, NextSq(sq));
      assert forall s :: OnBoard(s) && !Before(s, sq) && s != sq ==> !Before(s, NextSq(sq));
      assert forall t :: Own(b, color, sq) && t in ValidMoves(b, sq, true) ==> Candidate(sq, t, CaptureValue(b, t)) in here by {
        forall t | Own(b, color, sq) && t in ValidMoves(b, sq, true)
          ensures Candidate(sq, t, CaptureValue(b, t)) in here
        {
          var i :| 0 <= i < |ValidMoves(b, sq, true)| && ValidMoves(b, sq, true)[i] == t;
          assert here[i] == Candidate(sq, t, CaptureValue(b, t));
        }
      }
      here + rest
  }

  function Candidates(b: Board, color: Color): seq<Candidate>
    requires ValidBoard(b)
  {
    CandidatesFrom(b, color, Sq(0, 0))
  }

  function Scores(cs: seq<Candidate>): (ss: seq<int>)
    ensures |ss| == |cs| && forall i :: 0 <= i < |cs| ==> ss[i] == cs[i].score
  {
    seq(|cs|, i requires 0 <= i < |cs| => cs[i].score)
  }

  /** There is no candidate exactly when no piece of `color` can move. */
  lemma NoCandidatesIffNoMoves(b: Board, color: Color)
    requires ValidBoard(b)
    ensures |Candidates(b, color)| == 0 <==> NoLegalMoves(b, color)
  {
    var cs := Candidates(b, color);
    if !NoLegalMoves(b, color) {
      var r, c :| 0 <= r < 8 && 0 <= c < 8 && !Stuck(b, color, Sq(r, c));
      var t := ValidMoves(b, Sq(r, c), true)[0];
      assert Candidate(Sq(r, c), t, CaptureValue(b, t)) in cs;
    }
    if |cs| > 0 {
      assert Sound(b, color, cs[0]);
      assert !Stuck(b, color, Sq(cs[0].from.r, cs[0].from.c));
    }
  }

  /** A candidate scoring at least as much as every other candidate scores
      at least as much as every king-safe move of `color`. */
  lemma BestBeatsEveryMove(b: Board, color: Color, k: nat)
    requires ValidBoard(b) && k < |Candidates(b, color)|
    requires forall i :: 0 <= i < |Candidates(b, color)| ==> Candidates(b, color)[i].score <= Candidates(b, color)[k].score
    ensures forall s, t :: OnBoard(s) && Own(b, color, s) && t in ValidMoves(b, s, true) ==>
              CaptureValue(b, t) <= Candidates(b, color)[k].score
  {
    var cs := Candidates(b, color);
    forall s, t | OnBoard(s) && Own(b, color, s) && t in ValidMoves(b, s, true)
      ensures CaptureValue(b, t) <= cs[k].score
    {
      assert Candidate(s, t, CaptureValue(b, t)) in cs;
    }
  }

  /** Index `k` holds a highest score of `cs`, and every earlier entry
      scores strictly less. */
  predicate FirstBest(cs: seq<Candidate>, k: nat)
  {
    k < |cs| &&
    (forall i :: 0 <= i < |cs| ==> cs[i].score <= cs[k].score) &&
    (forall i :: 0 <= i < k ==> cs[i].score < cs[k].score)
  }

  /** The first entry of highest score; None for no entries. */
  function PickBest(cs: seq<Candidate>): (k: Option<nat>)
    ensures k.None? <==> |cs| == 0
    ensures k.Some? ==> FirstBest(cs, k.value)
  {
    if |cs| == 0 then None
    else
      var ss := Scores(cs);
      var k := FirstArgMax(ss);
      assert forall i :: 0 <= i < |cs| ==> ss[i] == cs[i].score;
      Some(k)
  }

  /** The computer's choice: the first candidate of highest score, which is
      what a stable sort by descending score puts first. None exactly when
      `color` has no king-safe move. */
  function ChooseMove(b: Board, color: Color): (k: Option<nat>)
    requires ValidBoard(b)
    ensures k.None? <==> NoLegalMoves(b, color)
    ensures k.Some? ==> FirstBest(Candidates(b, color), k.value)
  {
    var cs := Candidates(b, color);
    var k := PickBest(cs);
    NoCandidatesIffNoMoves(b, color);
    k
  }

  /** The chosen candidate is a king-safe move of `color` capturing at least
      as much as any other king-safe move of `color`. */
  lemma ChosenIsBest(b: Board, color: Color, k: nat)
    requires ValidBoard(b) && FirstBest(Candidates(b, color), k)
    ensures k < |Candidates(b, color)| && Sound(b, color, Candidates(b, color)[k])
    ensures forall s, t :: OnBoard(s) && Own(b, color, s) && t in ValidMoves(b, s, true) ==>
              CaptureValue(b, t) <= Candidates(b, color)[k].score
  {
    var cs := Candidates(b, color);
    assert Sound(b, color, cs[k]);
    BestBeatsEveryMove(b, color, k);
  }

  // ---------------------------------------------------------------------
  // The game: moves, clocks, power-ups, the computer's turn and clicks

  datatype Phase = Start | Playing | GameOver

  /** How the game ended: mate (naming the winner), stalemate, or a flag fall
      (naming the side that did not run out of time). */
  datatype Outcome = Undecided | Checkmate(winner: Color) | Stalemate | OnTime(winner: Color)

  /** White's remaining power-up uses. */
  datatype PowerUps = PowerUps(undo: int, doubleMove: int, freeze: int)

  datatype ChessState = ChessState(
    phase: Phase, outcome: Outcome, board: Board,
    whiteTime: int, blackTime: int, turn: Color,
    selected: Option<Sq>, validMoves: seq<Sq>,
    history: seq<Board>, powers: PowerUps,
    doubleMoveActive: bool, opponentFrozen: bool)

  ghost predicate Valid(s: ChessState)
  {
    ValidBoard(s.board) &&
    (forall i :: 0 <= i < |s.history| ==> ValidBoard(s.history[i])) &&
    (s.selected.Some? ==> OnBoard(s.selected.value)) &&
    (forall m :: m in s.validMoves ==> OnBoard(m))
  }

  /** The state a reset produces: the initial position, full clocks, white
      to move, one use of each power-up, no selection, and the history
      holding only the initial position. */
  function Reset(): (s: ChessState)
    ensures Valid(s) && s.phase == Start && s.outcome == Undecided
    ensures s.board == InitialBoard() && s.history == [InitialBoard()]
    ensures s.whiteTime == InitialTime && s.blackTime == InitialTime && s.turn == White
    ensures s.powers == PowerUps(1, 1, 1) && !s.doubleMoveActive && !s.opponentFrozen
    ensures s.selected.None? && s.validMoves == []
  {
    ChessState(Start, Undecided, InitialBoard(), InitialTime, InitialTime, White,
               None, [], [InitialBoard()], PowerUps(1, 1, 1), false, false)
  }

  /** A pawn reaching the first or last row becomes a queen. */
  function Promote(p: Piece, to: Sq): (q: Piece)
    ensures q.color == p.color
    ensures q.kind == (if p.kind == Pawn && (to.r == 0 || to.r == 7) then Queen else p.kind)
  {
    if p.kind == Pawn && (to.r == 0 || to.r == 7) then Piece(Queen, p.color) else p
  }

  /** Plays the piece on `from` to `to` (the callers only offer king-safe
      moves), records the position, and then ends the game if the opponent
      has no king-safe move, or else passes the turn unless a double move
      is pending, which is consumed instead. An empty `from` changes nothing. */
  function MakeMove(s: ChessState, from: Sq, to: Sq): (s': ChessState)
    requires Valid(s) && OnBoard(from) && OnBoard(to)
    ensures Valid(s')
    ensures At(s.board, from).None? ==> s' == s
    ensures At(s.board, from).Some? ==>
              At(s'.board, from) == None &&
              (to != from ==> At(s'.board, to) == Some(Promote(At(s.board, from).value, to))) &&
              (forall sq :: sq != from && sq != to ==> At(s'.board, sq) == At(s.board, sq)) &&
              s'.history == s.history + [s'.board] &&
              s'.selected == None && s'.validMoves == [] &&
              s'.powers == s.powers && s'.whiteTime == s.whiteTime && s'.blackTime == s.blackTime
    ensures At(s.board, from).Some? && NoLegalMoves(s'.board, Opponent(s.turn)) ==>
              s'.phase == GameOver &&
              s'.outcome == (if InCheck(s'.board, Opponent(s.turn)) then Checkmate(s.turn) else Stalemate) &&
              s'.turn == s.turn
    ensures At(s.board, from).Some? && !NoLegalMoves(s'.board, Opponent(s.turn)) ==>
              s'.phase == s.phase && s'.outcome == s.outcome &&
              (s.doubleMoveActive ==> s'.turn == s.turn && !s'.doubleMoveActive) &&
              (!s.doubleMoveActive ==> s'.turn == Opponent(s.turn) && !s'.doubleMoveActive)
  {
    match At(s.board, from)
    case None => s
    case Some(p) =>
      var nb := Relocate(s.board, from, to, Promote(p, to));
      var opp := Opponent(s.turn);
      var moved := s.(board := nb, selected := None, validMoves := [], history := s.history + [nb]);
      if NoLegalMoves(nb, opp) then
        moved.(phase := GameOver, outcome := if InCheck(nb, opp) then Checkmate(s.turn) else Stalemate)
      else if s.doubleMoveActive then moved.(doubleMoveActive := false)
      else moved.(turn := opp)
  }

  /** A king-safe move that is not a promotion leaves the mover's king out of check. */
  lemma MoveKeepsKingSafe(s: ChessState, from: Sq, to: Sq)
    requires Valid(s) && OnBoard(from)
    requires to in ValidMoves(s.board, from, true)
    requires !(At(s.board, from).value.kind == Pawn && (to.r == 0 || to.r == 7))
    ensures OnBoard(to)
    ensures !InCheck(MakeMove(s, from, to).board, At(s.board, from).value.color)
  {
    KingSafeMoveLeavesNoCheck(s.board, from, to);
    var p := At(s.board, from).value;
    assert Promote(p, to) == p;
  }

  function TimeOf(s: ChessState, c: Color): int
  {
    if c == White then s.whiteTime else s.blackTime
  }

  /** One second of the side to move's clock. The clock runs only while
      playing with no result; reaching zero or less stops it at zero and
      the opponent wins on time. */
  function Tick(s: ChessState): (s': ChessState)
    ensures s.phase != Playing || s.outcome != Undecided ==> s' == s
    ensures s.phase == Playing && s.outcome == Undecided ==>
              TimeOf(s', Opponent(s.turn)) == TimeOf(s, Opponent(s.turn)) &&
              s'.board == s.board && s'.turn == s.turn &&
              (TimeOf(s, s.turn) - 1 <= 0 ==>
                 TimeOf(s', s.turn) == 0 && s'.phase == GameOver && s'.outcome == OnTime(Opponent(s.turn))) &&
              (TimeOf(s, s.turn) - 1 > 0 ==>
                 TimeOf(s', s.turn) == TimeOf(s, s.turn) - 1 && s'.phase == Playing && s'.outcome == Undecided)
    ensures Valid(s) ==> Valid(s')
  {
    if s.phase != Playing || s.outcome != Undecided then s
    else
      var t := TimeOf(s, s.turn) - 1;
      var t' := if t <= 0 then 0 else t;
      var clocked := if s.turn == White then s.(whiteTime := t') else s.(blackTime := t');
      if t <= 0 then clocked.(phase := GameOver, outcome := OnTime(Opponent(s.turn))) else clocked
  }

  function Ticks(s: ChessState, n: nat): ChessState
    decreases n
  {
    if n == 0 then s else Ticks(Tick(s), n - 1)
  }

  /** Left alone, the side to move with `t` seconds loses on time after
      exactly `t` ticks, and is still playing before that. */
  lemma {:induction false} ClockRunsOut(s: ChessState, n: nat)
    requires s.phase == Playing && s.outcome == Undecided
    requires n < TimeOf(s, s.turn)
    ensures Ticks(s, n).phase == Playing && TimeOf(Ticks(s, n), s.turn) == TimeOf(s, s.turn) - n
    ensures Ticks(s, n).turn == s.turn && Ticks(s, n).outcome == Undecided
    ensures TimeOf(Ticks(s, n), Opponent(s.turn)) == TimeOf(s, Opponent(s.turn))
    ensures var f := Tick(Ticks(s, n));
            n + 1 == TimeOf(s, s.turn) ==> f.phase == GameOver && f.outcome == OnTime(Opponent(s.turn)) && TimeOf(f, s.turn) == 0
    decreases n
  {
    if n > 0 {
      var s1 := Tick(s);
      ClockRunsOut(s1, n - 1);
    }
  }

  /** Undo (white only, with a use left, and at least three recorded
      positions): drops the last two positions, the computer's reply and
      white's move, and restores the position before them. */
  function Undo(s: ChessState): (s': ChessState)
    requires Valid(s)
    ensures Valid(s')
    ensures s.turn != White || s.powers.undo < 1 || |s.history| < 3 ==> s' == s
    ensures s.turn == White && s.powers.undo >= 1 && |s.history| >= 3 ==>
              s'.history == s.history[..|s.history| - 2] && s'.board == s.history[|s.history| - 3] &&
              s'.powers == s.powers.(undo := s.powers.undo - 1) && s'.turn == s.turn && s'.phase == s.phase
  {
    if s.turn != White || s.powers.undo < 1 || |s.history| < 3 then s
    else
      var h := s.history[..|s.history| - 2];
      s.(history := h, board := h[|h| - 1], powers := s.powers.(undo := s.powers.undo - 1))
  }

  /** Undo after two recorded moves (white's move and the computer's reply,
      each of which appends its board to the history, as MakeMove ensures)
      brings back the position and history from before white's move. */
  lemma UndoRevertsExchange(s2: ChessState, h: seq<Board>, b0: Board, b1: Board)
    requires Valid(s2) && s2.turn == White && s2.powers.undo >= 1 && |h| >= 1 && h[|h| - 1] == b0
    requires s2.history == h + [b1] + [s2.board]
    ensures Undo(s2).board == b0 && Undo(s2).history == h
  {
    assert s2.history[..|s2.history| - 2] == h;
  }

  /** Double move: white's next move does not pass the turn. */
  function DoubleMove(s: ChessState): (s': ChessState)
    ensures s.turn != White || s.powers.doubleMove < 1 ==> s' == s
    ensures s.turn == White && s.powers.doubleMove >= 1 ==>
              s' == s.(doubleMoveActive := true, powers := s.powers.(doubleMove := s.powers.doubleMove - 1))
  {
    if s.turn != White || s.powers.doubleMove < 1 then s
    else s.(doubleMoveActive := true, powers := s.powers.(doubleMove := s.powers.doubleMove - 1))
  }

  /** Freeze: the computer skips its next turn. */
  function Freeze(s: ChessState): (s': ChessState)
    ensures s.turn != White || s.powers.freeze < 1 ==> s' == s
    ensures s.turn == White && s.powers.freeze >= 1 ==>
              s' == s.(opponentFrozen := true, powers := s.powers.(freeze := s.powers.freeze - 1))
  {
    if s.turn != White || s.powers.freeze < 1 then s
    else s.(opponentFrozen := true, powers := s.powers.(freeze := s.powers.freeze - 1))
  }

  datatype PowerButton = UndoButton | DoubleMoveButton | FreezeButton

  function ButtonCount(s: ChessState, which: PowerButton): int
  {
    match which
    case UndoButton => s.powers.undo
    case DoubleMoveButton => s.powers.doubleMove
    case FreezeButton => s.powers.freeze
  }

  /** A power-up button is enabled with a use left, while playing, on
      white's turn, and while no double move is pending. */
  predicate ButtonEnabled(s: ChessState, which: PowerButton)
  {
    ButtonCount(s, which) >= 1 && s.phase == Playing && s.turn == White && !s.doubleMoveActive
  }

  function Press(s: ChessState, which: PowerButton): (s': ChessState)
    requires Valid(s)
    ensures Valid(s')
    ensures !ButtonEnabled(s, which) ==> s' == s
    ensures forall w :: ButtonCount(s', w) <= ButtonCount(s, w)
    ensures forall w :: ButtonCount(s, w) >= 0 ==> ButtonCount(s', w) >= 0
    ensures s'.board == s.board || which == UndoButton
  {
    if !ButtonEnabled(s, which) then s
    else match which
      case UndoButton => Undo(s)
      case DoubleMoveButton => DoubleMove(s)
      case FreezeButton => Freeze(s)
  }

  /** Each power-up is single use: after a use from one charge, pressing
      the same button again changes nothing. */
  lemma PowerUpsAreSingleUse(s: ChessState, which: PowerButton)
    requires Valid(s) && ButtonCount(s, which) == 1
    requires which != UndoButton || (s.turn == White && |s.history| >= 3)
    ensures Press(Press(s, which), which) == Press(s, which)
  {
  }

  /** The computer's turn. A pending freeze is consumed and the turn goes
      straight back to white; otherwise the first highest-scoring king-safe
      move is played, or nothing happens when there is none. */
  function AiTurn(s: ChessState): (s': ChessState)
    requires Valid(s)
    ensures Valid(s')
    ensures s.phase != Playing || s.turn != Black ==> s' == s
    ensures s.phase == Playing && s.turn == Black && s.opponentFrozen ==>
              s' == s.(opponentFrozen := false, turn := White)
    ensures s.phase == Playing && s.turn == Black && !s.opponentFrozen && NoLegalMoves(s.board, Black) ==> s' == s
    ensures s.phase == Playing && s.turn == Black && !s.opponentFrozen && !NoLegalMoves(s.board, Black) ==>
              exists from, to ::
                OnBoard(from) && Own(s.board, Black, from) && to in ValidMoves(s.board, from, true) &&
                (forall f, t :: OnBoard(f) && Own(s.board, Black, f) && t in ValidMoves(s.board, f, true) ==>
                   CaptureValue(s.board, t) <= CaptureValue(s.board, to)) &&
                s' == MakeMove(s, from, to)
  {
    if s.phase != Playing || s.turn != Black then s
    else if s.opponentFrozen then s.(opponentFrozen := false, turn := White)
    else match ChooseMove(s.board, Black)
      case None => s
      case Some(k) =>
        ChosenIsBest(s.board, Black, k);
        var m := Candidates(s.board, Black)[k];
        KingSafeMovesSpec(s.board, m.from, m.to);
        MakeMove(s, m.from, m.to)
  }

  /** A click or tap on the board at (row, col). Before and after a game it
      starts a new one. While playing, and only on white's turn: with a
      piece selected, a highlighted square makes that move and any other
      square clears the selection; with nothing selected, a white piece is
      selected and its king-safe moves highlighted. */
  function Click(s: ChessState, row: int, col: int): (s': ChessState)
    requires Valid(s)
    ensures Valid(s')
    ensures s.phase != Playing ==> s' == Reset().(phase := Playing)
    ensures s.phase == Playing && (s.turn != White || !OnBoard(Sq(row, col))) ==> s' == s
    ensures s.phase == Playing && s.turn == White && OnBoard(Sq(row, col)) && s.selected.Some? ==>
              (Sq(row, col) in s.validMoves ==> s' == MakeMove(s, s.selected.value, Sq(row, col))) &&
              (Sq(row, col) !in s.validMoves ==> s' == s.(selected := None, validMoves := []))
    ensures s.phase == Playing && s.turn == White && OnBoard(Sq(row, col)) && s.selected.None? ==>
              (Own(s.board, White, Sq(row, col)) ==>
                 s' == s.(selected := Some(Sq(row, col)), validMoves := ValidMoves(s.board, Sq(row, col), true))) &&
              (!Own(s.board, White, Sq(row, col)) ==> s' == s)
  {
    var sq := Sq(row, col);
    if s.phase != Playing then Reset().(phase := Playing)
    else if s.turn != White || !OnBoard(sq) then s
    else if s.selected.Some? then
      if sq in s.validMoves then MakeMove(s, s.selected.value, sq)
      else s.(selected := None, validMoves := [])
    else if Own(s.board, White, sq) then s.(selected := Some(sq), validMoves := ValidMoves(s.board, sq, true))
    else s
  }

  /** Selecting a white piece and then clicking a highlighted square plays a
      king-safe move: unless it promotes, white's king is not in check afterwards. */
  lemma SelectThenMoveIsSafe(s: ChessState, r1: int, c1: int, r2: int, c2: int)
    requires Valid(s) && s.phase == Playing && s.turn == White && s.selected.None?
    requires OnBoard(Sq(r1, c1)) && Own(s.board, White, Sq(r1, c1))
    requires Sq(r2, c2) in Click(s, r1, c1).validMoves
    requires !(At(s.board, Sq(r1, c1)).value.kind == Pawn && (r2 == 0 || r2 == 7))
    ensures !InCheck(Click(Click(s, r1, c1), r2, c2).board, White)
  {
    var s1 := Click(s, r1, c1);
    KingSafeMovesSpec(s.board, Sq(r1, c1), Sq(r2, c2));
    MoveKeepsKingSafe(s1, Sq(r1, c1), Sq(r2, c2));
  }
}

/** The analysis request that the evaluation controller hands to its engine:
    the tree nodes it is built from, the castling-notation normaliser applied
    to every move, and the `Work` record itself. Everything here is a pure
    value computation; the controller's mutable state is in CevalCtrl. */
module CevalWork {

  datatype Option<+T> = None | Some(value: T)

  /** Search limits the controller passes to the engine. */
  const MinDepth: int := 8
  const MaxDepth: int := 20
  const MultiPv: int := 3

  /** The options the engine is created with. */
  datatype EngineConfig = EngineConfig(minDepth: int, maxDepth: int, cores: int, multiPv: int)

  /** An engine evaluation attached to a tree node or emitted by the engine.
      Only the depth is inspected by the controller; the rest of the record
      (scores, principal variations) is not part of this model. */
  datatype ClientEval = ClientEval(depth: int)

  /** One node of the analysis tree along the current path. `uci` and `san`
      are the move that led to the node (unused for the root). */
  datatype Node = Node(fen: string, uci: string, san: string, ply: int, ceval: Option<ClientEval>)

  /** The request sent to the engine. The `emit` callback of the source is
      not a field here: the controller models it as its own operation. */
  datatype Work = Work(
    initialFen: string,
    currentFen: string,
    moves: seq<string>,
    maxDepth: int,
    path: string,
    ply: int,
    multiPv: int,
    threatMode: bool)

  // ---------------------------------------------------------------------
  // String search: the `indexOf` used to recognise a castling SAN

  /** `p` occurs in `s` starting at position `i`. */
  ghost predicate OccursAt(s: string, p: string, i: int)
  {
    0 <= i && i + |p| <= |s| && s[i..i + |p|] == p
  }

  /** An occurrence past the first position is an occurrence in the tail. */
  lemma OccursAtShift(s: string, p: string, j: int)
    requires |s| > 0 && j >= 1
    ensures OccursAt(s, p, j) <==> OccursAt(s[1..], p, j - 1)
  {
    if j + |p| <= |s| {
      assert s[1..][j - 1..j - 1 + |p|] == s[j..j + |p|];
    }
  }

  /** First position at which `p` occurs in `s`, or -1 when it occurs
      nowhere: the behaviour of `String.prototype.indexOf` from position 0. */
  function IndexOf(s: string, p: string): (r: int)
    ensures -1 <= r <= |s|
    ensures r >= 0 ==> OccursAt(s, p, r)
    ensures r >= 0 ==> forall j :: 0 <= j < r ==> !OccursAt(s, p, j)
    ensures r == -1 ==> forall j :: !OccursAt(s, p, j)
    decreases |s|
  {
    if |s| < |p| then
      -1
    else if s[..|p|] == p then
      0
    else
      var k := IndexOf(s[1..], p);
      assert !OccursAt(s, p, 0);
      assert forall j :: 1 <= j ==> (OccursAt(s, p, j) <==> OccursAt(s[1..], p, j - 1)) by {
        forall j | 1 <= j ensures OccursAt(s, p, j) <==> OccursAt(s[1..], p, j - 1) {
          OccursAtShift(s, p, j);
        }
      }
      if k < 0 then -1 else k + 1
  }

  /** A SAN is a castling move when `indexOf('O-O')` is 0, which covers both
      `O-O` and `O-O-O` (and their check/mate suffixes). */
  predicate IsCastlingSan(san: string)
    ensures IsCastlingSan(san) <==> "O-O" <= san
  {
    assert "O-O" <= san ==> OccursAt(san, "O-O", 0);
    IndexOf(san, "O-O") == 0
  }

  // ---------------------------------------------------------------------
  // Castling normalisation

  /** A UCI move written as "king captures own rook": the king on its home
      square e1 or e8 moving onto the a- or h-file corner of the same rank. */
  predicate IsKingOntoRook(uci: string)
  {
    |uci| == 4 && uci[0] == 'e' && (uci[1] == '1' || uci[1] == '8')
    && (uci[2] == 'a' || uci[2] == 'h') && uci[3] == uci[1]
  }

  /** Rewrites a castling move given as king-captures-rook (`e1h1`) into the
      king-moves-two-squares form of the UCI protocol (`e1g1`). Moves whose
      SAN is not castling, and castling moves already in that form, are
      returned unchanged. */
  function FixCastle(uci: string, san: string): (r: string)
    ensures !("O-O" <= san) ==> r == uci
    ensures r != uci <==> "O-O" <= san && IsKingOntoRook(uci)
    ensures r != uci ==>
      |r| == 4 && r[..2] == uci[..2] && r[3] == uci[3]
      && r[2] == (if uci[2] == 'h' then 'g' else 'c')
  {
    if !IsCastlingSan(san) then uci
    else if uci == "e1h1" then "e1g1"
    else if uci == "e1a1" then "e1c1"
    else if uci == "e8h8" then "e8g8"
    else if uci == "e8a8" then "e8c8"
    else uci
  }

  /** Normalising twice is normalising once: the output of a rewrite is
      never itself a king-captures-rook move. */
  lemma FixCastleIdempotent(uci: string, san: string)
    ensures FixCastle(FixCastle(uci, san), san) == FixCastle(uci, san)
  {
  }

  /** For a castling SAN, the four corner moves map to the king's two-square
      moves, on each side and for each colour. */
  lemma FixCastleTable(san: string)
    requires "O-O" <= san
    ensures FixCastle("e1h1", san) == "e1g1"
    ensures FixCastle("e1a1", san) == "e1c1"
    ensures FixCastle("e8h8", san) == "e8g8"
    ensures FixCastle("e8a8", san) == "e8c8"
  {
  }

  // ---------------------------------------------------------------------
  // Building the request

  /** The move list of a request: every node's move, normalised, in order
      (the source's `slice(1).map(fixCastle)` applied to the nodes after
      the root). */
  function Moves(nodes: seq<Node>): (r: seq<string>)
    ensures |r| == |nodes|
    ensures forall i :: 0 <= i < |nodes| ==> r[i] == FixCastle(nodes[i].uci, nodes[i].san)
  {
    if nodes == [] then [] else Moves(nodes[..|nodes| - 1]) + [FixCastle(nodes[|nodes| - 1].uci, nodes[|nodes| - 1].san)]
  }

  /** Moves of a concatenation are the concatenation of the moves. */
  lemma {:induction false} MovesAppend(a: seq<Node>, b: seq<Node>)
    ensures Moves(a + b) == Moves(a) + Moves(b)
  {
    if b != [] {
      var ab := a + b;
      assert ab[..|ab| - 1] == a + b[..|b| - 1];
      MovesAppend(a, b[..|b| - 1]);
    } else {
      assert a + b == a;
    }
  }

  /** The engine has nothing to add for a node already evaluated to the
      maximum depth. */
  predicate NeedsAnalysis(node: Node)
  {
    !(node.ceval.Some? && node.ceval.value.depth >= MaxDepth)
  }

  /** The request for the last node of `steps`, where `steps` runs from the
      root of the game to the position to analyse. */
  function BuildWork(path: string, steps: seq<Node>): (w: Work)
    requires |steps| > 0
    ensures w.initialFen == steps[0].fen
    ensures w.currentFen == steps[|steps| - 1].fen && w.ply == steps[|steps| - 1].ply
    ensures |w.moves| == |steps| - 1
    ensures forall i :: 0 <= i < |w.moves| ==> w.moves[i] == FixCastle(steps[i + 1].uci, steps[i + 1].san)
    ensures w.path == path
    ensures w.maxDepth == MaxDepth && w.multiPv == MultiPv && !w.threatMode
  {
    var step := steps[|steps| - 1];
    Work(steps[0].fen, step.fen, Moves(steps[1..]), MaxDepth, path, step.ply, MultiPv, false)
  }

  /** Analysing one ply further down the same line keeps the initial
      position and extends the move list by exactly the new node's
      normalised move. */
  lemma ExtendLine(path: string, steps: seq<Node>, path': string, next: Node)
    requires |steps| > 0
    ensures var w, w' := BuildWork(path, steps), BuildWork(path', steps + [next]);
      w'.initialFen == w.initialFen
      && w'.moves == w.moves + [FixCastle(next.uci, next.san)]
      && w'.currentFen == next.fen && w'.ply == next.ply
  {
    assert (steps + [next])[1..] == steps[1..] + [next];
    MovesAppend(steps[1..], [next]);
  }
}

/** The eight compass directions for which multipliers are computed, and the
    substring tests the driver applies to their codes. */
module Directions {

  datatype Direction = N | S | E | W | NE | NW | SE | SW

  /** The direction code as it appears in the command list and file names. */
  function Code(d: Direction): string {
    match d
    case N => "n"
    case S => "s"
    case E => "e"
    case W => "w"
    case NE => "ne"
    case NW => "nw"
    case SE => "se"
    case SW => "sw"
  }

  /** The direction list run() hands to work(), in its order. */
  const All: seq<Direction> := [N, S, E, W, NE, NW, SE, SW]

  /** direction.find('n') >= 0 */
  predicate HasN(d: Direction) {
    'n' in Code(d)
  }

  /** direction.find('s') >= 0 */
  predicate HasS(d: Direction) {
    's' in Code(d)
  }

  /** direction.find('e') >= 0 */
  predicate HasE(d: Direction) {
    'e' in Code(d)
  }

  /** direction.find('w') >= 0 */
  predicate HasW(d: Direction) {
    'w' in Code(d)
  }

  /** len(direction) == 2: the line spacing is cellsize*sqrt(2). */
  predicate IsDiagonal(d: Direction) {
    |Code(d)| == 2
  }

  /** A code of length two is exactly one that names a north/south edge and
      an east/west edge; a code of length one names exactly one edge. */
  lemma EdgesOfCode(d: Direction)
    ensures IsDiagonal(d) <==> (HasN(d) || HasS(d)) && (HasE(d) || HasW(d))
    ensures !(HasN(d) && HasS(d)) && !(HasE(d) && HasW(d))
    ensures HasN(d) || HasS(d) || HasE(d) || HasW(d)
  {
    match d
    case N => assert Code(d) == ['n'];
    case S => assert Code(d) == ['s'];
    case E => assert Code(d) == ['e'];
    case W => assert Code(d) == ['w'];
    case NE => assert Code(d) == ['n', 'e'];
    case NW => assert Code(d) == ['n', 'w'];
    case SE => assert Code(d) == ['s', 'e'];
    case SW => assert Code(d) == ['s', 'w'];
  }

  /** Which directions name which edge. */
  lemma Flags(d: Direction)
    ensures HasN(d) <==> d == N || d == NE || d == NW
    ensures HasS(d) <==> d == S || d == SE || d == SW
    ensures HasE(d) <==> d == E || d == NE || d == SE
    ensures HasW(d) <==> d == W || d == NW || d == SW
  {
    match d
    case N => assert Code(d) == ['n'];
    case S => assert Code(d) == ['s'];
    case E => assert Code(d) == ['e'];
    case W => assert Code(d) == ['w'];
    case NE => assert Code(d) == ['n', 'e'];
    case NW => assert Code(d) == ['n', 'w'];
    case SE => assert Code(d) == ['s', 'e'];
    case SW => assert Code(d) == ['s', 'w'];
  }
}

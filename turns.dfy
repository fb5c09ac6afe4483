/**
 * The quarter-turn rotation the editors keep per image: `(r + 90) % 360` to the right,
 * `(r - 90 + 360) % 360` to the left, with JavaScript's remainder operator.
 */
module Turns {

  /** The rotations an image can have: 0, 90, 180 or 270 degrees. */
  predicate Quarter(r: int)
  {
    r == 0 || r == 90 || r == 180 || r == 270
  }

  /** JavaScript's `a % b` for b > 0: the remainder takes the sign of a. */
  function JsRem(a: int, b: int): (r: int)
    requires b > 0
    ensures -b < r < b
    ensures a >= 0 ==> r == a % b
  {
    if a >= 0 then a % b else -((-a) % b)
  }

  /** `(r + 90) % 360`. */
  function RotateRight(r: int): (t: int)
    ensures Quarter(r) ==> Quarter(t)
  {
    JsRem(r + 90, 360)
  }

  /** `(r - 90 + 360) % 360`. */
  function RotateLeft(r: int): (t: int)
    ensures Quarter(r) ==> Quarter(t)
  {
    JsRem(r - 90 + 360, 360)
  }

  /** A turn to the right adds 90 degrees, wrapping from 270 back to 0. */
  lemma RightTurnStep(r: int)
    requires Quarter(r)
    ensures RotateRight(r) == if r == 270 then 0 else r + 90
    ensures RotateLeft(r) == if r == 0 then 270 else r - 90
  {
  }

  /** A left turn undoes a right turn and the other way round. */
  lemma TurnsUndo(r: int)
    requires Quarter(r)
    ensures RotateLeft(RotateRight(r)) == r && RotateRight(RotateLeft(r)) == r
  {
    RightTurnStep(r);
    RightTurnStep(RotateRight(r));
    RightTurnStep(RotateLeft(r));
  }

  /** Four right turns bring an image back to where it was. */
  lemma FourTurns(r: int)
    requires Quarter(r)
    ensures RotateRight(RotateRight(RotateRight(RotateRight(r)))) == r
  {
    var a := RotateRight(r);
    var b := RotateRight(a);
    var c := RotateRight(b);
    RightTurnStep(r);
    RightTurnStep(a);
    RightTurnStep(b);
    RightTurnStep(c);
  }

  /** `rotation % 180 !== 0`: the turned image has its width and height exchanged. */
  predicate TurnsSides(r: int)
  {
    r % 180 != 0
  }

  /** Each quarter turn exchanges the sides once more. */
  lemma TurnFlipsSides(r: int)
    requires Quarter(r)
    ensures TurnsSides(RotateRight(r)) == !TurnsSides(r)
    ensures TurnsSides(RotateLeft(r)) == !TurnsSides(r)
  {
    RightTurnStep(r);
  }
}

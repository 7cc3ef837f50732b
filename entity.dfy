/**
 * The `Entity` constructor (veld.js:23-29). Its numeric parameters may be left
 * out by the caller; a missing argument is `None`. Defaults are chosen with
 * JavaScript's `||`, which also replaces the falsy value 0.
 */
module Entities {
  import opened Wrappers

  /** `arg || fallback` for a number argument: `undefined` and 0 are falsy. */
  function OrElse(arg: Option<real>, fallback: real): real
  {
    if arg.Some? && arg.value != 0.0 then arg.value else fallback
  }

  /** For a fallback of 0 the `||` idiom is indistinguishable from a plain default. */
  lemma OrElseZeroIsDefault(arg: Option<real>)
    ensures OrElse(arg, 0.0) == arg.GetOr(0.0)
  {
  }

  /** For any other fallback an explicit 0 is lost, as `direction || 180` loses direction 0. */
  lemma OrElseLosesZero(fallback: real)
    requires fallback != 0.0
    ensures OrElse(Some(0.0), fallback) == fallback
    ensures OrElse(Some(0.0), fallback) != Some(0.0).GetOr(fallback)
  {
  }

  /** A game object. The pool holds references to it, and removal is by identity. */
  class Entity {
    var x: real
    var y: real
    var direction: real
    var speed: real
    /** Set by the game after construction; `render` draws only when it is present. */
    var sprite: Option<string>

    constructor (x0: Option<real>, y0: Option<real>, direction0: Option<real>)
      ensures x == x0.GetOr(0.0) && y == y0.GetOr(0.0)
      ensures direction == (if direction0 == None || direction0 == Some(0.0) then 180.0 else direction0.value)
      ensures speed == 1.0
      ensures sprite == None
    {
      OrElseZeroIsDefault(x0);
      OrElseZeroIsDefault(y0);
      x := OrElse(x0, 0.0);
      y := OrElse(y0, 0.0);
      direction := OrElse(direction0, 180.0);
      speed := 1.0;
      sprite := None;
    }
  }
}

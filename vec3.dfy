/** The `vec3` helper of labs/worksheet8/scripts/vec3.js: a GLSL-like constructor of a
    three-component list whose missing arguments are filled in from the first one.

    JavaScript evaluates default parameters left to right: `x` defaults to 0, and both
    `y` and `z` default to the (possibly defaulted) value of `x`. An argument that is
    absent, or explicitly `undefined`, is `None` here. */
module Vectors {
  import opened Options

  function Vec3(x: Option<real>, y: Option<real>, z: Option<real>): (r: seq<real>)
    ensures |r| == 3
    ensures r[0] == (if x.Some? then x.value else 0.0)
    ensures y.Some? ==> r[1] == y.value
    ensures z.Some? ==> r[2] == z.value
    ensures y.None? ==> r[1] == r[0]
    ensures z.None? ==> r[2] == r[0]
  {
    var vx := x.GetOr(0.0);
    [vx, y.GetOr(vx), z.GetOr(vx)]
  }

  /** `vec3()` is the origin. */
  lemma NoArguments()
    ensures Vec3(None, None, None) == [0.0, 0.0, 0.0]
  {
  }

  /** `vec3(a)` splats its one argument over all three components. */
  lemma OneArgument(a: real)
    ensures Vec3(Some(a), None, None) == [a, a, a]
  {
  }

  /** `vec3(a, b)` is `[a, b, a]`: the third component defaults to `x`, not to `y`. */
  lemma TwoArguments(a: real, b: real)
    ensures Vec3(Some(a), Some(b), None) == [a, b, a]
    ensures a != b ==> Vec3(Some(a), Some(b), None)[2] != b
  {
  }

  /** `vec3(a, b, c)` keeps its arguments as given. */
  lemma ThreeArguments(a: real, b: real, c: real)
    ensures Vec3(Some(a), Some(b), Some(c)) == [a, b, c]
  {
  }
}

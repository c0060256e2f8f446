/**
 * 4x4 matrices, kept symbolic.
 *
 * The loader builds node transforms with gl-matrix (`mat4.create`, `mat4.multiply`,
 * `mat4.fromRotationTranslation`, `mat4.scale`), all in floating point. A `Mat4` here
 * is the term that names how a matrix was composed, so the structure of a composition
 * can be checked without any arithmetic.
 */
module Matrix {
  datatype Mat4 =
    | Identity                                                  // mat4.create()
    | FromArray(elements: seq<real>)                            // element-wise copy of a node's `matrix`
    | FromRotationTranslation(rotation: seq<real>, translation: seq<real>)
    | Scaling(factors: seq<real>)                               // the matrix `mat4.scale` multiplies by
    | Mul(left: Mat4, right: Mat4)                              // mat4.multiply(out, left, right)
}

/** Small shared vocabulary: an optional value and text concatenation helpers. */
module Common {

  /** Python's `None` / a present value. */
  datatype Option<+T> = None | Some(value: T)

  /** True when `p` occurs in `s` at offset `i`. */
  predicate OccursAt(s: string, p: string, i: nat)
  {
    i + |p| <= |s| && s[i..i + |p|] == p
  }
}

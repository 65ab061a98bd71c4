/** Substring occurrence, shared by the search semantics and the mail templates. */
module Text {

  /** q occurs in t starting at position i. */
  predicate ContainsAt(t: string, q: string, i: int)
  {
    0 <= i && i + |q| <= |t| && t[i..i + |q|] == q
  }

  /** q occurs in t as a contiguous substring. */
  predicate Contains(t: string, q: string)
  {
    exists i :: 0 <= i <= |t| && ContainsAt(t, q, i)
  }
}

/** Python's open-ended slice `s[start:]`, for any integer `start`. */
module PySlice {

  function Min(a: int, b: int): int { if a <= b then a else b }

  function Max(a: int, b: int): int { if a >= b then a else b }

  /** `s[start:]`: a negative start counts from the end and is clamped at the
      front; a start past the end yields the empty sequence. The result is
      always a suffix of `s`, and its length is fixed by the sign of `start`. */
  function SliceFrom<T>(s: seq<T>, start: int): (r: seq<T>)
    ensures |r| <= |s| && r == s[|s| - |r|..]
    ensures start < 0 ==> |r| == Min(-start, |s|)
    ensures start >= 0 ==> |r| == Max(|s| - start, 0)
  {
    var from := if start < 0 then Max(|s| + start, 0) else Min(start, |s|);
    s[from..]
  }
}

/** The one JavaScript string primitive the service relies on. */
module JsString {

  function Min(a: int, b: int): int
  {
    if a < b then a else b
  }

  /** `s.substr(start, length)` for non-negative arguments: the characters of
      `s` from `start` on, at most `length` of them, cut off at the end of `s`;
      empty when `start` is at or past the end. */
  function Substr(s: string, start: nat, length: nat): (r: string)
    ensures |r| == if start < |s| then Min(length, |s| - start) else 0
    ensures forall i :: 0 <= i < |r| ==> r[i] == s[start + i]
  {
    if start < |s| then s[start..Min(start + length, |s|)] else ""
  }
}

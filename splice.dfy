/** The JavaScript array operations the engine uses on copies of its arrays, with their clamping. */
module Splice {

  function Min(a: int, b: int): int { if a < b then a else b }

  function Max(a: int, b: int): int { if a < b then b else a }

  /** `a.splice(start, deleteCount)`: the start is clamped to the length and the count to
      [0, length - start], so a negative count removes nothing. */
  function Removed<T>(s: seq<T>, start: nat, deleteCount: int): seq<T>
  {
    var st := Min(start, |s|);
    var dc := if deleteCount < 0 then 0 else Min(deleteCount, |s| - st);
    s[..st] + s[st + dc..]
  }

  /** `a.splice(start, 0, x)`: inserts `x` before index `start`, or at the end past it. */
  function Inserted<T>(s: seq<T>, start: nat, x: T): seq<T>
  {
    var st := Min(start, |s|);
    s[..st] + [x] + s[st..]
  }

  /** `a.splice(start)`: keeps the first `start` elements. */
  function Truncated<T>(s: seq<T>, start: nat): seq<T>
  {
    s[..Min(start, |s|)]
  }

  /** `a.slice(0, end)`: a negative end counts from the back, a large one is clamped. */
  function SlicedTo<T>(s: seq<T>, end: int): seq<T>
  {
    if end < 0 then s[..Max(|s| + end, 0)] else s[..Min(end, |s|)]
  }
}

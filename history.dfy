/** The linear history of full line-list snapshots kept by `saveToHistory`. */
module History {
  import opened Splice

  /** `history.slice(0, historyIndex + 1)` with the snapshot pushed; the new index is the last
      entry. Entries after the index (a discarded branch) are dropped. */
  function Record<S>(entries: seq<S>, index: int, snapshot: S): (r: seq<S>)
    ensures |r| >= 1 && r[|r| - 1] == snapshot
    ensures r[..|r| - 1] <= entries
    ensures -1 <= index < |entries| ==> |r| == index + 2
  {
    SlicedTo(entries, index + 1) + [snapshot]
  }

  /** Recording after a recording keeps the earlier snapshot: the index left by one call is the
      last entry, so the next call truncates nothing. */
  lemma RecordTwice<S>(entries: seq<S>, index: int, a: S, b: S)
    requires -1 <= index < |entries|
    ensures Record(Record(entries, index, a), index + 1, b) == entries[..index + 1] + [a, b]
  {
    var first := Record(entries, index, a);
    assert first == entries[..index + 1] + [a];
    assert Record(first, index + 1, b) == first + [b];
  }
}

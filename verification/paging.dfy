/** Offset paging over a stable row order, the reading loop all the extractors share. */
module Paging {

  /** LIMIT `size` OFFSET `offset`. */
  function Page<T>(rows: seq<T>, offset: nat, size: nat): seq<T> {
    if offset >= |rows| then []
    else if offset + size <= |rows| then rows[offset..offset + size]
    else rows[offset..]
  }

  /** Reads until a page comes back empty or short. */
  method ReadPages<T>(rows: seq<T>, size: nat) returns (all: seq<T>)
    ensures all == if size == 0 then [] else rows
  {
    all := [];
    var offset := 0;
    while true
      invariant offset <= |rows| && all == rows[..offset]
      invariant size == 0 ==> offset == 0
      decreases |rows| - offset
    {
      var page := Page(rows, offset, size);
      if page == [] {
        break;
      }
      all := all + page;
      offset := offset + |page|;
      if |page| < size {
        break;
      }
    }
    assert offset == if size == 0 then 0 else |rows|;
    assert rows[..|rows|] == rows;
  }
}

/**
 * The time-domain buffer: an append-only log with one row per time slice,
 * every row holding exactly one metadata entry per tag.
 */
module TimeDomainBuffer {

  import Wrappers
  import opened Saf

  class TDBufMeta {
    const numTags: nat
    var data: seq<seq<BufferMetadata>>

    /** Every stored row has one entry per tag. */
    ghost predicate Valid()
      reads this
    {
      forall i :: 0 <= i < |data| ==> |data[i]| == numTags
    }

    constructor (numTags: nat)
      ensures this.numTags == numTags && data == [] && Valid()
    {
      this.numTags := numTags;
      data := [];
    }

    /**
     * `add`: appends one row at the end, leaving the earlier rows as they
     * were; a row of the wrong width is a panic (`assert_eq!`) and stores
     * nothing.
     */
    method Add(row: seq<BufferMetadata>) returns (panicked: bool)
      requires Valid()
      modifies this
      ensures Valid()
      ensures panicked <==> |row| != numTags
      ensures data == if panicked then old(data) else old(data) + [row]
    {
      if |row| != numTags {
        return true;
      }
      data := data + [row];
      panicked := false;
    }

    /** `dump`: every row collected, in insertion order. */
    method Dump() returns (rows: seq<seq<BufferMetadata>>)
      requires Valid()
      ensures rows == data
      ensures forall i :: 0 <= i < |rows| ==> |rows[i]| == numTags
    {
      rows := data;
    }
  }

  /**
   * A fresh buffer of width `numTags` fed `rows` one after another: dumping
   * it gives back exactly those rows, unless one of them has the wrong
   * width, which panics.
   */
  method Record(numTags: nat, rows: seq<seq<BufferMetadata>>) returns (dumped: Wrappers.Option<seq<seq<BufferMetadata>>>)
    ensures dumped.Some? <==> forall i :: 0 <= i < |rows| ==> |rows[i]| == numTags
    ensures dumped.Some? ==> dumped.value == rows
  {
    var buf := new TDBufMeta(numTags);
    var i := 0;
    while i < |rows|
      invariant 0 <= i <= |rows|
      invariant buf.Valid() && buf.numTags == numTags && buf.data == rows[..i]
    {
      var panicked := buf.Add(rows[i]);
      if panicked {
        return Wrappers.None;
      }
      i := i + 1;
    }
    var all := buf.Dump();
    assert rows[..i] == rows;
    dumped := Wrappers.Some(all);
  }
}

/** The buffer a caller passes to a read, as an array with a filled part. */
module ReadBuffers {
  import opened Octets

  /** A caller-owned buffer that is filled from the front. */
  class ReadBuf {
    const data: array<Byte>
    var filled: nat

    ghost predicate Valid()
      reads this
    {
      filled <= data.Length
    }

    ghost function Filled(): seq<Byte>
      requires Valid()
      reads this, data
    {
      data[..filled]
    }

    constructor (data: array<Byte>)
      ensures Valid() && this.data == data && filled == 0
    {
      this.data := data;
      filled := 0;
    }

    function Remaining(): nat
      requires Valid()
      reads this
    {
      data.Length - filled
    }

    method PutSlice(bytes: seq<Byte>)
      requires Valid() && |bytes| <= Remaining()
      modifies this, data
      ensures Valid() && Filled() == old(Filled()) + bytes
    {
      var base := filled;
      for i := 0 to |bytes|
        invariant filled == base
        invariant data[..base] == old(data[..filled])
        invariant data[base..base + i] == bytes[..i]
        modifies data
      {
        data[base + i] := bytes[i];
      }
      filled := base + |bytes|;
      assert data[..filled] == data[..base] + data[base..filled];
    }

    /** Writes behind the filled part, which the caller does not get to see. */
    method Scribble(bytes: seq<Byte>)
      requires Valid() && |bytes| <= Remaining()
      modifies data
      ensures Valid() && Filled() == old(Filled()) && data[filled..filled + |bytes|] == bytes
    {
      for i := 0 to |bytes|
        invariant data[..filled] == old(data[..filled]) && data[filled..filled + i] == bytes[..i]
      {
        data[filled + i] := bytes[i];
      }
    }
  }
}

/** The data buffer of a section: `append_data` writes into spare capacity or moves to a larger buffer. */
module SectionData {
  import opened Words
  import opened Bytes

  class SectionData {
    var stype: nat
    var data: array?<Byte>
    var dataSize: nat
    var size: nat

    ghost predicate Valid()
      reads this
    {
      && size <= dataSize < W32
      && (data == null ==> dataSize == 0)
      && (data != null ==> dataSize <= data.Length)
    }

    /** The section's bytes. */
    ghost function Contents(): (s: seq<Byte>)
      reads this, data
      requires Valid()
      ensures |s| == size
    {
      if data == null then [] else data[..size]
    }

    constructor (stype: nat)
      ensures Valid() && Contents() == [] && this.stype == stype
    {
      this.stype, data, dataSize, size := stype, null, 0, 0;
    }

    /** The old bytes followed by `raw`, whether or not the buffer has to grow. Growing must not pass 32 bits. */
    method AppendData(raw: seq<Byte>)
      requires Valid() && 2 * (dataSize + |raw|) < W32
      modifies this, data
      ensures Valid() && stype == old(stype) && (data == old(data) || fresh(data))
      ensures Contents() == old(Contents()) + if stype == SHT_NOBITS then [] else raw
      ensures size <= dataSize && dataSize <= 2 * (old(dataSize) + |raw|)
    {
      if stype != SHT_NOBITS {
        if size + |raw| < dataSize {
          Copy(raw, data, size);
        } else {
          dataSize := 2 * (dataSize + |raw|);
          var newData := new Byte[dataSize](_ => 0);
          if data != null {
            Copy(data[..size], newData, 0);
          }
          Copy(raw, newData, size);
          assert data == null ==> size == 0;
          data := newData;
        }
        size := size + |raw|;
      }
    }

    /** Replaces the bytes, or empties the section when there are none to copy; a section without file bytes keeps its
        (empty) buffer. */
    method SetData(raw: Option<seq<Byte>>, count: nat)
      requires Valid() && count < W32 && (raw.Some? ==> count == |raw.value|)
      modifies this
      ensures Valid() && stype == old(stype)
      ensures stype != SHT_NOBITS ==> Contents() == if raw.Some? then raw.value else []
      ensures stype == SHT_NOBITS ==> size == old(dataSize) && data == old(data)
    {
      if stype != SHT_NOBITS {
        data := new Byte[count](_ => 0);
        if raw.Some? {
          dataSize := count;
          Copy(raw.value, data, 0);
        } else {
          dataSize := 0;
        }
      }
      size := dataSize;
    }
  }

  /** Overwrites `dst` from position `at`. */
  method Copy(src: seq<Byte>, dst: array<Byte>, at: nat)
    requires at + |src| <= dst.Length
    modifies dst
    ensures dst[..] == old(dst[..at]) + src + old(dst[at + |src|..])
  {
    var i := 0;
    while i < |src|
      invariant 0 <= i <= |src|
      invariant forall k :: 0 <= k < dst.Length ==> dst[k] == if at <= k < at + i then src[k - at] else old(dst[k])
    {
      dst[at + i] := src[i];
      i := i + 1;
    }
  }
}

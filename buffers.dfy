/** Netty's ByteBuf, reduced to what the wrappers and handlers use: the
    written bytes, a reader index into them and a reference count. Writing
    appends; `clear` empties the buffer and rewinds the reader. */
module Buffers {
  import opened Wire

  class ByteBuf {
    var bytes: seq<byte>
    var readerIndex: nat
    var refCnt: nat

    ghost predicate Valid()
      reads this
    {
      readerIndex <= |bytes|
    }

    constructor (content: seq<byte>)
      ensures Valid() && bytes == content && readerIndex == 0 && refCnt == 1
    {
      bytes := content;
      readerIndex := 0;
      refCnt := 1;
    }

    /** The bytes not yet read. */
    function Readable(): (r: seq<byte>)
      reads this
      requires Valid()
      ensures |r| == |bytes| - readerIndex
    {
      bytes[readerIndex..]
    }

    predicate IsReadable()
      reads this
      requires Valid()
    {
      readerIndex < |bytes|
    }

    method WriteBytes(b: seq<byte>)
      requires Valid()
      modifies this
      ensures Valid() && bytes == old(bytes) + b && readerIndex == old(readerIndex)
      ensures refCnt == old(refCnt)
    {
      bytes := bytes + b;
    }

    method Clear()
      modifies this
      ensures Valid() && bytes == [] && readerIndex == 0 && refCnt == old(refCnt)
    {
      bytes := [];
      readerIndex := 0;
    }

    method SetReaderIndex(i: nat)
      requires i <= |bytes|
      modifies this`readerIndex
      ensures Valid() && readerIndex == i
    {
      readerIndex := i;
    }

    /** Another holder takes a reference. */
    method Retain()
      modifies this`refCnt
      ensures refCnt == old(refCnt) + 1
    {
      refCnt := refCnt + 1;
    }

    /** A holder gives its reference up. */
    method Release()
      requires refCnt > 0
      modifies this`refCnt
      ensures refCnt == old(refCnt) - 1
    {
      refCnt := refCnt - 1;
    }
  }
}

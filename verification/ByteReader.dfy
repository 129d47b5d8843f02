/** A read cursor over borrowed bytes; every read is all-or-nothing. */
module ByteReader {
  import opened Machine

  /** Network byte order. */
  function Be16(b: seq<U8>, o: nat): U16
    requires o + 2 <= |b|
  {
    b[o] as int * 0x100 + b[o + 1]
  }

  function Be32(b: seq<U8>, o: nat): U32
    requires o + 4 <= |b|
  {
    b[o] as int * 0x100_0000 + b[o + 1] as int * 0x1_0000 + b[o + 2] as int * 0x100 + b[o + 3]
  }

  class ByteCursor {
    const data: seq<U8>
    var offset: nat

    predicate Valid()
      reads this
    {
      offset <= |data|
    }

    constructor (data: seq<U8>)
      ensures Valid() && this.data == data && offset == 0
    {
      this.data := data;
      offset := 0;
    }

    function Remaining(): nat
      reads this
      ensures Valid() ==> offset + Remaining() == |data|
    {
      if offset > |data| then 0 else |data| - offset
    }

    function RequireBytes(n: nat): (code: Errno)
      requires Valid()
      reads this
      ensures code == OK <==> offset + n <= |data|
      ensures code != OK ==> code == ENODATA
    {
      if Remaining() < n then ENODATA else OK
    }

    method PeekU8() returns (code: Errno, value: U8)
      requires Valid()
      ensures code == RequireBytes(1)
      ensures code == OK ==> value == data[offset]
    {
      value := 0;
      code := RequireBytes(1);
      if code == OK {
        value := data[offset];
      }
    }

    method ReadU8() returns (code: Errno, value: U8)
      requires Valid()
      modifies this
      ensures Valid() && code == old(RequireBytes(1))
      ensures offset == if code == OK then old(offset) + 1 else old(offset)
      ensures code == OK ==> value == data[old(offset)]
    {
      code, value := PeekU8();
      if code == OK {
        offset := offset + 1;
      }
    }

    method ReadBe16() returns (code: Errno, value: U16)
      requires Valid()
      modifies this
      ensures Valid() && code == old(RequireBytes(2))
      ensures offset == if code == OK then old(offset) + 2 else old(offset)
      ensures code == OK ==> value == Be16(data, old(offset))
    {
      value := 0;
      code := RequireBytes(2);
      if code == OK {
        value := data[offset] as int * 0x100 + data[offset + 1];
        offset := offset + 2;
      }
    }

    method ReadBe32() returns (code: Errno, value: U32)
      requires Valid()
      modifies this
      ensures Valid() && code == old(RequireBytes(4))
      ensures offset == if code == OK then old(offset) + 4 else old(offset)
      ensures code == OK ==> value == Be32(data, old(offset))
    {
      value := 0;
      code := RequireBytes(4);
      if code == OK {
        value := data[offset] as int * 0x100_0000 + data[offset + 1] as int * 0x1_0000
                 + data[offset + 2] as int * 0x100 + data[offset + 3];
        offset := offset + 4;
      }
    }

    method ReadBytes(n: nat) returns (code: Errno, bytes: seq<U8>)
      requires Valid()
      modifies this
      ensures Valid() && code == old(RequireBytes(n))
      ensures offset == if code == OK then old(offset) + n else old(offset)
      ensures code == OK ==> bytes == data[old(offset)..old(offset) + n]
    {
      bytes := [];
      code := RequireBytes(n);
      if code == OK {
        bytes := data[offset..offset + n];
        offset := offset + n;
      }
    }

    method Skip(n: nat) returns (code: Errno)
      requires Valid()
      modifies this
      ensures Valid() && code == old(RequireBytes(n))
      ensures offset == if code == OK then old(offset) + n else old(offset)
    {
      code := RequireBytes(n);
      if code == OK {
        offset := offset + n;
      }
    }

    /** A child cursor over the next `n` bytes, which this cursor then passes. */
    method ReadSlice(n: nat) returns (code: Errno, slice: ByteCursor)
      requires Valid()
      modifies this
      ensures Valid() && code == old(RequireBytes(n))
      ensures offset == if code == OK then old(offset) + n else old(offset)
      ensures fresh(slice) && slice.Valid() && slice.offset == 0
      ensures code == OK ==> slice.data == data[old(offset)..old(offset) + n]
    {
      code := RequireBytes(n);
      if code == OK {
        slice := new ByteCursor(data[offset..offset + n]);
        offset := offset + n;
      } else {
        slice := new ByteCursor([]);
      }
    }
  }
}

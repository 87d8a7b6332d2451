/** The memory of one page, as the buffer pool hands it out: 256 bytes and the
    mark that they were changed. */
module PageBuffers {
  import opened Types
  import opened Bytes

  class PageBuffer {
    const data: array<byte>
    var dirty: bool

    constructor (b: bytes)
      ensures fresh(data) && data[..] == b && !dirty
    {
      data := new byte[|b|](i requires 0 <= i < |b| => b[i]);
      dirty := false;
    }

    method SetDirty()
      modifies this`dirty
      ensures dirty
    {
      dirty := true;
    }
  }
}

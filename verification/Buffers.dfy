/** Go's `bytes.Buffer`, as far as it is appended to and emptied. */
module Buffers {

  class Buffer {
    var data: string

    constructor ()
      ensures data == ""
    {
      data := "";
    }

    method Write(s: string)
      modifies this
      ensures data == old(data) + s
    {
      data := data + s;
    }

    method Reset()
      modifies this
      ensures data == ""
    {
      data := "";
    }
  }
}

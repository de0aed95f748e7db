/** heapless::String<N>: a string in a fixed buffer. */
module Buffers {

  class HString {
    const capacity: nat
    var text: string

    predicate Valid()
      reads this
    {
      |text| <= capacity
    }

    constructor (capacity: nat)
      ensures Valid() && this.capacity == capacity && text == ""
    {
      this.capacity := capacity;
      text := "";
    }

    /** write!: the pieces of a formatted text are appended until one does not fit;
        what a failed call leaves behind is some prefix. */
    method Write(s: string) returns (ok: bool)
      requires Valid()
      modifies this
      ensures Valid()
      ensures ok <==> |old(text)| + |s| <= capacity
      ensures ok ==> text == old(text) + s
      ensures !ok ==> old(text) <= text <= old(text) + s
    {
      ok := |text| + |s| <= capacity;
      if ok {
        text := text + s;
      } else {
        var k: nat :| k <= |s| && |text| + k <= capacity by {
          assert 0 <= |s| && |text| + 0 <= capacity;
        }
        text := text + s[..k];
        assert s == s[..k] + s[k..];
        assert old(text) + s == old(text) + s[..k] + s[k..];
      }
    }
  }
}

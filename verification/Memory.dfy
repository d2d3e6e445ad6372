/** The capped growable buffer of src/mua/memory.c. */
module Memory {
  import opened Bytes

  const FIRST_CAPACITY := 64

  /** `block` is the allocation; only its first `size` bytes are content, the rest is stale. */
  class Buf {
    var block: bytes
    var size: nat
    const max: nat

    predicate Valid()
      reads this
    {
      && size <= |block|
      && size <= max
      && (|block| <= max || |block| == FIRST_CAPACITY)
    }

    function Contents(): (s: bytes)
      requires Valid()
      reads this
      ensures |s| == size
    {
      block[..size]
    }

    constructor (max: nat)
      ensures Valid() && Contents() == [] && this.max == max
    {
      this.max := max;
      block, size := [], 0;
    }

    /** Appends all of `bytes` or, when the cap would be passed, nothing. */
    method Append(bytes: bytes) returns (ok: bool)
      requires Valid()
      modifies this
      ensures Valid()
      ensures ok <==> old(size) + |bytes| <= max
      ensures Contents() == if ok then old(Contents()) + bytes else old(Contents())
      ensures |block| >= old(|block|) && (old(size) + |bytes| <= old(|block|) ==> |block| == old(|block|))
    {
      if |bytes| == 0 {
        assert old(Contents()) + bytes == Contents();
        return true;
      }
      if |bytes| > max - size {
        return false;
      }
      var needed := size + |bytes|;
      if needed > |block| {
        var newCap := if |block| != 0 then |block| else FIRST_CAPACITY;
        while newCap < needed
          invariant newCap >= |block| && newCap > 0
          invariant newCap <= max || newCap == FIRST_CAPACITY
          decreases max - newCap
        {
          if newCap > max / 2 {
            newCap := max;
          } else {
            newCap := newCap * 2;
          }
        }
        block := block + seq(newCap - |block|, _ => 0);
      }
      ghost var kept := block[..size];
      block := block[..size] + bytes + block[needed..];
      size := needed;
      assert block[..size] == kept + bytes;
      return true;
    }

    method Reset()
      requires Valid()
      modifies this`size
      ensures Valid() && Contents() == []
    {
      size := 0;
    }
  }
}

/** `SharedAlignedBuffer`: one of several handles to a frozen buffer, whose word is the length. */
module SharedBuffers {
  import opened Words
  import opened BlockLayouts
  import opened TaggedCaps
  import opened Memory
  import opened RawBuffers
  import opened UniqueBuffers
  import BufferRuns

  // `into_shared`
  method IntoShared(u: UniqueAlignedBuffer) returns (s: SharedAlignedBuffer)
    requires u.Valid()
    modifies u.raw
    ensures fresh(s) && s.raw == u.raw && s.Valid() && s.raw.Count() == 1
    ensures s.Bytes() == old(u.View()).bytes && s.raw.HeaderCap() == old(u.View()).capacity
    ensures s.raw.Others() == old(u.raw.Others())
  {
    u.raw.ResetLen(u.len);
    s := new SharedAlignedBuffer.FromRaw(u.raw);
  }

  class SharedAlignedBuffer {
    const raw: RawAlignedBuffer

    ghost predicate Valid()
      reads this, raw, raw.sys
    {
      raw.Valid()
    }

    ghost function Bytes(): seq<Byte>
      requires Valid()
      reads this, raw, raw.sys
    {
      raw.Data()[..raw.CapOrLen()]
    }

    constructor FromRaw(raw: RawAlignedBuffer)
      ensures this.raw == raw
    {
      this.raw := raw;
    }

    // `try_unique` succeeds for the only handle, and then gives back the very buffer that was
    // shared; `None` gives the handle back unchanged.
    method TryUnique() returns (u: Option<UniqueAlignedBuffer>)
      requires Valid()
      modifies raw
      ensures Valid() && raw.Others() == old(raw.Others())
      ensures u.Some? <==> old(raw.Count()) == 1
      ensures u.Some? ==>
                && fresh(u.value) && u.value.raw == raw && u.value.Valid()
                && u.value.View() == BufferRuns.View(old(Bytes()), old(raw.HeaderCap()))
      ensures u.None? ==> raw.capOrLen == old(raw.capOrLen) && Bytes() == old(Bytes())
    {
      var count := raw.RefCount();
      if count != 1 {
        return None;
      }
      var len := raw.CapOrLen();
      raw.ResetCap();
      var owner := new UniqueAlignedBuffer.FromRaw(raw, len);
      u := Some(owner);
    }

    // Another handle to the same bytes; `None` is the abort on a runaway count.
    method Clone() returns (c: Option<SharedAlignedBuffer>)
      requires Valid()
      modifies raw.sys`heap
      ensures Valid() && raw.Data() == old(raw.Data()) && Bytes() == old(Bytes()) && raw.HeaderCap() == old(raw.HeaderCap())
      ensures raw.Others() == old(raw.Others())
      ensures raw.IsAllocated() ==>
                Recounted(raw.p, old(raw.sys.heap), raw.sys.heap, raw.Base(), WrappingAdd(old(raw.Count()), 1))
      ensures c.None? <==> raw.IsAllocated() && MAX_REFCOUNT < old(raw.Count())
      ensures c.Some? ==>
                && fresh(c.value) && fresh(c.value.raw) && c.value.raw.p == raw.p && c.value.raw.sys == raw.sys && c.value.Valid()
                && c.value.Bytes() == Bytes() && c.value.raw.buf == raw.buf && c.value.raw.capOrLen == raw.capOrLen && c.value.raw.Count() == raw.Count()
      ensures raw.Count() == if raw.IsAllocated() then WrappingAdd(old(raw.Count()), 1) else 1
    {
      var r := raw.RefClone();
      if r.None? {
        return None;
      }
      var clone := new SharedAlignedBuffer.FromRaw(r.value);
      c := Some(clone);
    }
  }
}

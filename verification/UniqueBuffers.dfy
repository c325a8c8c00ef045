/** `UniqueAlignedBuffer`: one owner of a raw buffer, and the number of bytes it has initialised. */
module UniqueBuffers {
  import opened Words
  import opened Bits
  import opened Layouts
  import opened BlockLayouts
  import opened TaggedCaps
  import opened Memory
  import opened RawBuffers
  import opened BufferRuns

  // Storing right behind the first `n` bytes appends to them.
  lemma StoreAppends(d: seq<Byte>, n: nat, data: seq<Byte>)
    requires n + |data| <= |d|
    ensures Patched(d, n, data)[..n + |data|] == d[..n] + data
  {}

  lemma PrefixStays(s: seq<Byte>, t: seq<Byte>, n: nat)
    requires SamePrefix(s, t) && n <= |s| && n <= |t|
    ensures s[..n] == t[..n]
  {}

  lemma TakeSplits(s: seq<Byte>, m: nat, n: nat)
    requires m + n <= |s|
    ensures s[..m] + s[m..][..n] == s[..m + n]
  {}

  lemma TakesOneMore(s: seq<Byte>, items: seq<Byte>, n: nat)
    requires n < |items|
    ensures (s + items[..n]) + [items[n]] == s + items[..n + 1]
  {}

  lemma RepeatsOnceMore(s: seq<Byte>, value: Byte, n: nat)
    ensures (s + Repeat(value, n)) + [value] == s + Repeat(value, n + 1)
  {}

  class UniqueAlignedBuffer {
    const raw: RawAlignedBuffer
    var len: nat

    ghost predicate Valid()
      reads this, raw, raw.sys
    {
      raw.Owned() && len <= raw.CapOrLen()
    }

    ghost function View(): (v: View)
      requires Valid()
      reads this, raw, raw.sys
      ensures BufferRuns.Fits(v) && |v.bytes| == len && v.capacity == raw.CapOrLen()
    {
      CapIsSmall(raw.capOrLen);
      BufferRuns.View(raw.Data()[..len], raw.CapOrLen())
    }

    // The first `n` bytes of the block, of which `len` count as initialised.
    ghost function Written(n: nat): (s: seq<Byte>)
      requires Valid() && n <= raw.CapOrLen()
      reads this, raw, raw.sys
      ensures |s| == n && (n == len ==> s == View().bytes)
    {
      raw.Data()[..n]
    }

    constructor (p: Params, sys: System)
      requires ValidParams(p) && WellFormed(sys.heap)
      ensures Valid() && fresh(raw) && raw.p == p && raw.sys == sys
      ensures View() == BufferRuns.View([], 0) && raw.Others() == sys.heap
    {
      raw := new RawAlignedBuffer(p, sys);
      len := 0;
    }

    constructor FromRaw(raw: RawAlignedBuffer, len: nat)
      ensures this.raw == raw && this.len == len
    {
      this.raw := raw;
      this.len := len;
    }

    lemma CapacityHasLayout()
      requires Valid()
      ensures LayoutOf(raw.p, View().capacity).Some?
    {
      EmptyHasLayout(raw.p);
    }

    // `reserve` and `try_reserve`
    method TryReserve(additional: nat) returns (o: Outcome)
      requires Valid() && additional < WORD
      modifies raw, raw.sys
      ensures Valid() && raw.Others() == old(raw.Others()) && (!o.Done? ==> raw.sys.heap == old(raw.sys.heap))
      ensures Step(raw.p, Reserve(additional), old(View()), View(), o)
      ensures View().bytes == old(View()).bytes
      ensures o.Done? ==> len + additional <= raw.CapOrLen()
      ensures o.Done? ==> Roomed(old(View()), additional, View().capacity)
      ensures additional <= old(raw.CapOrLen()) - len ==> o.Done? && raw.buf == old(raw.buf)
      ensures raw.sys.refusals == old(raw.sys.refusals) + Refused(o)
    {
      EmptyHasLayout(raw.p);
      hide RawAlignedBuffer.Valid;
      hide And;
      ghost var d := raw.Data();
      o := raw.TryReserve(len, additional);
      if o.Done? {
        PrefixStays(d, raw.Data(), len);
      }
    }

    // `reserve_exact` and `try_reserve_exact`
    method TryReserveExact(additional: nat) returns (o: Outcome)
      requires Valid() && additional < WORD
      modifies raw, raw.sys
      ensures Valid() && raw.Others() == old(raw.Others()) && (!o.Done? ==> raw.sys.heap == old(raw.sys.heap))
      ensures Step(raw.p, ReserveExact(additional), old(View()), View(), o)
      ensures View().bytes == old(View()).bytes
      ensures o.Done? ==> View().capacity == Max(old(View()).capacity, len + additional)
      ensures old(len) + additional <= old(raw.CapOrLen()) ==> o.Done?
      ensures raw.sys.refusals == old(raw.sys.refusals) + Refused(o)
    {
      EmptyHasLayout(raw.p);
      hide RawAlignedBuffer.Valid;
      hide And;
      ghost var d := raw.Data();
      o := raw.TryReserveExact(len, additional);
      if o.Done? {
        PrefixStays(d, raw.Data(), len);
      }
    }

    method ShrinkToFit() returns (o: Outcome)
      requires Valid()
      modifies raw, raw.sys
      ensures Valid() && raw.Others() == old(raw.Others()) && (!o.Done? ==> raw.sys.heap == old(raw.sys.heap))
      ensures Step(raw.p, BufferRuns.ShrinkToFit, old(View()), View(), o)
      ensures View().bytes == old(View()).bytes
      ensures o.Done? ==> View().capacity == len
      ensures len == 0 ==> o.Done?
      ensures o.Done? && len == 0 ==> !raw.IsAllocated()
      ensures raw.sys.refusals == old(raw.sys.refusals) + Refused(o)
    {
      CapacityHasLayout();
      o := Done;
      if raw.CapOrLen() > len {
        o := ShrinkRaw(len);
      }
    }

    method ShrinkTo(minCapacity: nat) returns (o: Outcome)
      requires Valid() && minCapacity < WORD
      modifies raw, raw.sys
      ensures Valid() && raw.Others() == old(raw.Others()) && (!o.Done? ==> raw.sys.heap == old(raw.sys.heap))
      ensures Step(raw.p, BufferRuns.ShrinkTo(minCapacity), old(View()), View(), o)
      ensures View().bytes == old(View()).bytes
      ensures o.Done? ==> View().capacity == if old(View()).capacity <= minCapacity then old(View()).capacity else Max(len, minCapacity)
      ensures raw.sys.refusals == old(raw.sys.refusals) + Refused(o)
    {
      CapacityHasLayout();
      o := Done;
      if raw.CapOrLen() > minCapacity {
        o := ShrinkRaw(Max(len, minCapacity));
      }
    }

    method Truncate(newLen: nat)
      requires Valid()
      modifies this
      ensures Valid() && Step(raw.p, BufferRuns.Truncate(newLen), old(View()), View(), Done)
      ensures View() == old(View()).(bytes := old(View()).bytes[..if newLen < old(len) then newLen else old(len)])
    {
      CapacityHasLayout();
      ghost var v := View();
      len := if newLen < len then newLen else len;
      assert v.bytes[..len] == raw.Data()[..len];
    }

    // `set_len`, to a length within what was written.
    method SetLen(newLen: nat)
      requires Valid() && newLen <= raw.CapOrLen()
      modifies this
      ensures Valid() && len == newLen && View() == BufferRuns.View(old(Written(newLen)), old(raw.CapOrLen()))
      ensures newLen <= old(len) ==> View().bytes == old(View()).bytes[..newLen]
    {
      ghost var v := View();
      len := newLen;
      assert newLen <= |v.bytes| ==> v.bytes[..newLen] == raw.Data()[..newLen];
    }

    method Clear()
      requires Valid()
      modifies this
      ensures Valid() && Step(raw.p, BufferRuns.Clear, old(View()), View(), Done)
      ensures View() == BufferRuns.View([], old(View()).capacity)
    {
      CapacityHasLayout();
      len := 0;
    }

    // A raw write at `ptr`, at or behind the length.
    method WriteBytes(ptr: nat, data: seq<Byte>)
      requires Valid() && len <= ptr && ptr + |data| <= raw.CapOrLen()
      modifies raw.sys`heap
      ensures Valid() && raw.Others() == old(raw.Others())
      ensures View() == old(View()) && Written(ptr + |data|) == old(Written(ptr)) + data
    {
      StoreAppends(raw.Data(), ptr, data);
      raw.WriteData(ptr, data);
    }

    // The raw copy behind the initialised bytes, and the new length.
    method Store(data: seq<Byte>)
      requires Valid() && len + |data| <= raw.CapOrLen()
      modifies this, raw.sys`heap
      ensures Valid() && raw.Others() == old(raw.Others())
      ensures View() == BufferRuns.View(old(View()).bytes + data, old(View()).capacity)
    {
      hide RawAlignedBuffer.Valid;
      WriteBytes(len, data);
      len := len + |data|;
    }

    method Push(value: Byte) returns (o: Outcome)
      requires Valid()
      modifies this, raw, raw.sys
      ensures Valid() && raw.Others() == old(raw.Others()) && (!o.Done? ==> raw.sys.heap == old(raw.sys.heap))
      ensures Step(raw.p, BufferRuns.Push(value), old(View()), View(), o)
      ensures o.Done? ==> View().bytes == old(View()).bytes + [value] && Roomed(old(View()), 1, View().capacity)
      ensures old(len) + 1 <= old(raw.CapOrLen()) ==> o.Done?
      ensures !o.Done? ==> View() == old(View())
      ensures raw.sys.refusals == old(raw.sys.refusals) + Refused(o)
    {
      hide View;
      hide RawAlignedBuffer.Valid;
      hide LayoutOf;
      hide ErrorFor;
      CapacityHasLayout();
      o := Done;
      if len == raw.CapOrLen() {
        o := TryReserve(1);
        if !o.Done? {
          return;
        }
      }
      Store([value]);
    }

    // `append` and `extend_from_slice`
    method Append(other: seq<Byte>) returns (o: Outcome)
      requires Valid() && |other| < WORD
      modifies this, raw, raw.sys
      ensures Valid() && raw.Others() == old(raw.Others()) && (!o.Done? ==> raw.sys.heap == old(raw.sys.heap))
      ensures Step(raw.p, BufferRuns.Append(other), old(View()), View(), o)
      ensures o.Done? ==> View().bytes == old(View()).bytes + other && Roomed(old(View()), |other|, View().capacity)
      ensures old(len) + |other| <= old(raw.CapOrLen()) ==> o.Done?
      ensures !o.Done? ==> View() == old(View())
      ensures raw.sys.refusals == old(raw.sys.refusals) + Refused(o)
    {
      hide View;
      hide RawAlignedBuffer.Valid;
      hide LayoutOf;
      hide ErrorFor;
      o := TryReserve(|other|);
      if o.Done? {
        Store(other);
      }
    }

    method Resize(newLen: nat, value: Byte) returns (o: Outcome)
      requires Valid() && newLen < WORD
      modifies this, raw, raw.sys
      ensures Valid() && raw.Others() == old(raw.Others()) && (!o.Done? ==> raw.sys.heap == old(raw.sys.heap))
      ensures Step(raw.p, BufferRuns.Resize(newLen, value), old(View()), View(), o)
      ensures o.Done? && newLen <= old(len) ==> View() == old(View()).(bytes := old(View()).bytes[..newLen])
      ensures o.Done? && old(len) < newLen ==>
                && Filled(old(View()).bytes, View().bytes, newLen - old(len), value)
                && Roomed(old(View()), newLen - old(len), View().capacity)
      ensures newLen <= old(raw.CapOrLen()) ==> o.Done?
      ensures !o.Done? ==> View() == old(View())
      ensures raw.sys.refusals == old(raw.sys.refusals) + Refused(o)
    {
      hide View;
      hide And;
      hide Reserved;
      hide RawAlignedBuffer.Valid;
      hide LayoutOf;
      if newLen > len {
        o := ExtendWith(newLen - len, value);
      } else {
        Truncate(newLen);
        o := Done;
      }
    }

    method ExtendWith(n: nat, value: Byte) returns (o: Outcome)
      requires Valid() && n < WORD
      modifies this, raw, raw.sys
      ensures Valid() && raw.Others() == old(raw.Others()) && (!o.Done? ==> raw.sys.heap == old(raw.sys.heap))
      ensures Step(raw.p, BufferRuns.PutBytes(value, n), old(View()), View(), o)
      ensures o.Done? ==> Filled(old(View()).bytes, View().bytes, n, value) && Roomed(old(View()), n, View().capacity)
      ensures old(len) + n <= old(raw.CapOrLen()) ==> o.Done?
      ensures !o.Done? ==> View() == old(View())
      ensures raw.sys.refusals == old(raw.sys.refusals) + Refused(o)
    {
      ghost var v := View();
      assert ValidParams(raw.p);
      hide View;
      hide RawAlignedBuffer.Valid;
      hide Step;
      hide Filled;
      hide Roomed;
      hide Repeat;
      o := TryReserve(n);
      ghost var w := View();
      if o.Done? {
        Fill(n, value);
      }
      FillStep(raw.p, value, n, v, w, View(), o);
    }

    // The write loop of `extend_with`; the length is written once, when it is over.
    method Fill(n: nat, value: Byte)
      requires Valid() && len + n <= raw.CapOrLen()
      modifies this, raw.sys`heap
      ensures Valid() && raw.Others() == old(raw.Others())
      ensures View() == BufferRuns.View(old(View()).bytes + Repeat(value, n), old(View()).capacity)
    {
      hide RawAlignedBuffer.Valid;
      hide View;
      hide Written;
      ghost var v := View();
      ghost var others := raw.Others();
      var ptr := len;
      for i := 0 to n
        invariant Valid() && View() == v && ptr == len + i && Written(ptr) == v.bytes + Repeat(value, i)
        invariant raw.Others() == others
        modifies raw.sys`heap
      {
        WriteBytes(ptr, [value]);
        ptr := ptr + 1;
        RepeatsOnceMore(v.bytes, value, i);
      }
      SetLen(len + n);
    }

    method PutBytes(value: Byte, cnt: nat) returns (o: Outcome)
      requires Valid() && cnt < WORD
      modifies this, raw, raw.sys
      ensures Valid() && raw.Others() == old(raw.Others()) && (!o.Done? ==> raw.sys.heap == old(raw.sys.heap))
      ensures Step(raw.p, BufferRuns.PutBytes(value, cnt), old(View()), View(), o)
      ensures o.Done? ==> Filled(old(View()).bytes, View().bytes, cnt, value) && Roomed(old(View()), cnt, View().capacity)
      ensures old(len) + cnt <= old(raw.CapOrLen()) ==> o.Done?
      ensures !o.Done? ==> View() == old(View())
      ensures raw.sys.refusals == old(raw.sys.refusals) + Refused(o)
    {
      ghost var v := View();
      assert ValidParams(raw.p);
      hide RawAlignedBuffer.Valid;
      hide View;
      hide And;
      hide WrappingAdd;
      hide Written;
      hide LayoutOf;
      hide Step;
      hide Filled;
      hide Roomed;
      hide Repeat;
      o := TryReserve(cnt);
      ghost var w := View();
      if o.Done? {
        WriteBytes(len, Repeat(value, cnt));
        assert Written(len + cnt) == w.bytes + Repeat(value, cnt);
        o := AdvanceMut(cnt);
      }
      FillStep(raw.p, value, cnt, v, w, View(), o);
    }

    // Behind the length lies initialised memory or not; advancing is the caller's claim that
    // it is. The sum is a machine word: past the capacity it panics, but past the last word it
    // wraps, in a build without overflow checks, and cuts the buffer short instead.
    method AdvanceMut(cnt: nat) returns (o: Outcome)
      requires Valid() && cnt < WORD
      modifies this
      ensures Valid()
      ensures o == if raw.CapOrLen() < old(len) + cnt < WORD then Panicked else Done
      ensures old(len) + cnt <= raw.CapOrLen() ==>
                View() == BufferRuns.View(old(Written(len + cnt)), old(raw.CapOrLen()))
      ensures o.Panicked? ==> View() == old(View())
      ensures WORD <= old(len) + cnt ==>
                && 0 <= old(len) + cnt - WORD < old(len)
                && View() == old(View()).(bytes := old(View()).bytes[..old(len) + cnt - WORD])
    {
      CapIsSmall(raw.capOrLen);
      AddWraps(len, cnt);
      hide WrappingAdd;
      hide View;
      hide Written;
      hide RawAlignedBuffer.Valid;
      var newLen := WrappingAdd(len, cnt);
      if newLen > raw.CapOrLen() {
        return Panicked;
      }
      SetLen(newLen);
      o := Done;
    }

    // The writable rest of the block, never empty: its start and its length.
    method ChunkMut() returns (o: Outcome, start: nat, size: nat)
      requires Valid()
      modifies this, raw, raw.sys
      ensures Valid() && raw.Others() == old(raw.Others()) && (!o.Done? ==> raw.sys.heap == old(raw.sys.heap))
      ensures var v := old(View());
              Step(raw.p, if |v.bytes| == v.capacity then Reserve(64) else Reserve(0), v, View(), o)
      ensures old(len) < old(raw.CapOrLen()) ==> o.Done? && View() == old(View())
      ensures o.Done? ==> start == len && 0 < size && start + size == raw.HeaderCap()
      ensures raw.sys.refusals == old(raw.sys.refusals) + Refused(o)
    {
      EmptyHasLayout(raw.p);
      hide RawAlignedBuffer.Valid;
      o := Done;
      start, size := 0, 0;
      if raw.CapOrLen() == len {
        o := TryReserve(64);
        if !o.Done? {
          return;
        }
      }
      start := len;
      size := raw.CapOrLen() - start;
    }

    method ShrinkRaw(cap: nat) returns (o: Outcome)
      requires Valid() && len <= cap <= raw.CapOrLen()
      modifies raw, raw.sys
      ensures Valid() && raw.Others() == old(raw.Others()) && (!o.Done? ==> raw.sys.heap == old(raw.sys.heap))
      ensures !o.Panicked? && (o.Failed? ==> 0 < cap < old(View()).capacity && o.error == ErrorFor(raw.p, cap))
      ensures View() == old(View()).(capacity := if o.Done? then cap else old(View()).capacity)
      ensures LayoutOf(raw.p, cap).Some? && LayoutOf(raw.p, old(View()).capacity).Some?
      ensures o.Done? && cap == 0 ==> !raw.IsAllocated()
      ensures raw.sys.refusals == old(raw.sys.refusals) + Refused(o)
    {
      ghost var d := raw.Data();
      CapIsSmall(raw.capOrLen);
      LayoutOfIs(raw.p, raw.CapOrLen());
      LayoutOfIs(raw.p, cap);
      o := raw.Shrink(cap);
      if o.Done? {
        PrefixStays(d, raw.Data(), len);
      }
    }

    // The bounded write loop of `extend`: until the iterator ends or the room does. The guard
    // writes the length on every way out.
    method WriteItems(items: seq<Byte>, free: nat) returns (taken: nat)
      requires Valid() && len + free <= raw.CapOrLen()
      modifies this, raw.sys`heap
      ensures Valid() && raw.Others() == old(raw.Others())
      ensures taken == if |items| < free then |items| else free
      ensures View() == BufferRuns.View(old(View()).bytes + items[..taken], old(View()).capacity)
    {
      hide RawAlignedBuffer.Valid;
      hide View;
      hide Written;
      ghost var v := View();
      ghost var others := raw.Others();
      var localLen := len;
      taken := 0;
      while taken < free && taken < |items|
        invariant Valid() && View() == v && taken <= free && taken <= |items| && localLen == len + taken
        invariant Written(localLen) == v.bytes + items[..taken]
        invariant raw.Others() == others
        modifies raw.sys`heap
      {
        WriteBytes(localLen, [items[taken]]);
        TakesOneMore(v.bytes, items, taken);
        localLen := localLen + 1;
        taken := taken + 1;
      }
      SetLen(localLen);
    }

    // `extend`. The iterator yields `items` and then ends, or panics if `panics`; `lower` is its
    // size hint, which may be anything. `taken` counts the items appended; an item whose push
    // fails is lost.
    method Extend(items: seq<Byte>, lower: nat, panics: bool) returns (o: Outcome, taken: nat)
      requires Valid() && lower < WORD
      modifies this, raw, raw.sys
      ensures Valid() && raw.Others() == old(raw.Others())
      ensures taken <= |items| && View().bytes == old(View()).bytes + items[..taken]
      ensures o.Done? || o.Panicked? ==> taken == |items| && o.Panicked? == panics
      ensures View() == PushAll(Success(BufferRuns.Reserve(lower), old(View())), items[..taken])
              || (o.Failed? && View() == old(View()))
      ensures o.Failed? ==>
                || (old(len) + lower > old(raw.CapOrLen()) && View() == old(View()))
                || (taken < |items| && len == raw.CapOrLen())
      ensures old(len) + Max(lower, |items|) <= old(raw.CapOrLen()) ==> !o.Failed?
      ensures raw.sys.refusals == old(raw.sys.refusals) + Refused(o)
    {
      hide View;
      hide RawAlignedBuffer.Valid;
      hide PushAll;
      taken := 0;
      o := TryReserve(lower);
      if !o.Done? {
        return;
      }
      hide Step;
      hide LayoutOf;
      hide ErrorFor;
      o, taken := ExtendRoomed(items, panics);
    }

    // `extend` behind its reservation.
    method ExtendRoomed(items: seq<Byte>, panics: bool) returns (o: Outcome, taken: nat)
      requires Valid()
      modifies this, raw, raw.sys
      ensures Valid() && raw.Others() == old(raw.Others())
      ensures taken <= |items| && View() == PushAll(old(View()), items[..taken])
      ensures View().bytes == old(View()).bytes + items[..taken]
      ensures o.Failed? ==> taken < |items| && len == raw.CapOrLen()
      ensures old(len) + |items| <= old(raw.CapOrLen()) ==> !o.Failed?
      ensures !o.Failed? ==> taken == |items| && o == if panics then Panicked else Done
      ensures raw.sys.refusals == old(raw.sys.refusals) + Refused(o)
    {
      hide View;
      hide RawAlignedBuffer.Valid;
      hide PushAll;
      hide Success;
      ghost var v := View();
      var free := raw.CapOrLen() - len;
      var written := WriteItems(items, free);
      taken := written;
      PushAllAppends(v, items[..written]);
      if written < free {
        o := if panics then Panicked else Done;
        return;
      }
      var pushed: nat;
      o, pushed := PushRest(items[written..], panics);
      taken := written + pushed;
      PushAllSplits(v, items[..written], items[written..][..pushed]);
      TakeSplits(items, written, pushed);
      PushAllAppends(v, items[..taken]);
    }

    // The fallback loop of `extend`.
    method PushRest(items: seq<Byte>, panics: bool) returns (o: Outcome, taken: nat)
      requires Valid()
      modifies this, raw, raw.sys
      ensures Valid() && raw.Others() == old(raw.Others())
      ensures taken <= |items| && View() == PushAll(old(View()), items[..taken])
      ensures o.Failed? ==> taken < |items| && len == raw.CapOrLen()
      ensures !o.Failed? ==> taken == |items| && o == if panics then Panicked else Done
      ensures raw.sys.refusals == old(raw.sys.refusals) + Refused(o)
    {
      hide View;
      hide RawAlignedBuffer.Valid;
      hide Success;
      ghost var v := View();
      taken := 0;
      while taken < |items|
        invariant Valid() && raw.Others() == old(raw.Others()) && raw.sys.refusals == old(raw.sys.refusals)
        invariant taken <= |items| && View() == PushAll(v, items[..taken])
      {
        o := Push(items[taken]);
        if !o.Done? {
          return;
        }
        PushAllSplits(v, items[..taken], [items[taken]]);
        assert items[..taken] + [items[taken]] == items[..taken + 1];
        taken := taken + 1;
      }
      o := if panics then Panicked else Done;
    }

    // `put`, from a source that yields the chunks in turn; a source that has bytes left yields
    // a nonempty chunk.
    method Put(chunks: seq<seq<Byte>>) returns (o: Outcome, taken: nat)
      requires Valid() && forall c :: c in chunks ==> 0 < |c| < WORD
      modifies this, raw, raw.sys
      ensures Valid() && raw.Others() == old(raw.Others())
      ensures taken <= |chunks| && !o.Panicked? && (o.Done? ==> taken == |chunks|)
      ensures View() == AppendAll(old(View()), chunks[..taken])
      ensures View().bytes == old(View()).bytes + Concat(chunks[..taken])
      ensures o.Failed? ==> taken < |chunks| && raw.CapOrLen() < len + |chunks[taken]|
      ensures raw.sys.refusals == old(raw.sys.refusals) + Refused(o)
    {
      hide View;
      hide Concat;
      hide RawAlignedBuffer.Valid;
      ghost var v := View();
      taken := 0;
      o := Done;
      while taken < |chunks|
        invariant Valid() && raw.Others() == old(raw.Others()) && raw.sys.refusals == old(raw.sys.refusals) && o.Done?
        invariant taken <= |chunks| && View() == AppendAll(v, chunks[..taken])
      {
        var s := chunks[taken];
        o := Append(s);
        if !o.Done? {
          PutAppendsEverything(v, chunks[..taken]);
          return;
        }
        assert chunks[..taken + 1][..taken] == chunks[..taken];
        taken := taken + 1;
      }
      PutAppendsEverything(v, chunks[..taken]);
    }

    // `remaining_mut`: a machine subtraction, which does not wrap if the block's alignment is
    // at least 128.
    method RemainingMut() returns (r: nat)
      requires Valid()
      ensures r == MaxCapacity(raw.p) - len + (if len <= MaxCapacity(raw.p) then 0 else WORD)
      ensures Offset(raw.p) + len + 64 <= ISIZE_MAX ==> r == ISIZE_MAX - 64 - Offset(raw.p) - len
      ensures 128 <= BlockAlign(raw.p) ==> len <= MaxCapacity(raw.p)
    {
      CapacityHasLayout();
      CapIsSmall(raw.capOrLen);
      MaxCapacityIs(raw.p, len);
      SubWraps(MaxCapacity(raw.p), len);
      if 128 <= BlockAlign(raw.p) {
        RemainingNeverUnderflows(raw.p);
      }
      hide WrappingSub;
      hide MaxCapacity;
      r := WrappingSub(MaxCapacity(raw.p), len);
    }

    // Any one call.
    method Call(op: Op) returns (o: Outcome)
      requires Valid() && IsCall(op)
      modifies this, raw, raw.sys
      ensures Valid() && raw.Others() == old(raw.Others())
      ensures Step(raw.p, op, old(View()), View(), o)
      ensures raw.sys.refusals == old(raw.sys.refusals) + Refused(o)
    {
      hide View;
      hide RawAlignedBuffer.Valid;
      hide NextCapacity;
      hide Plain;
      match op {
        case Push(value) => o := Push(value);
        case Append(other) => o := Append(other);
        case Resize(newLen, value) => o := Resize(newLen, value);
        case PutBytes(value, cnt) => o := PutBytes(value, cnt);
        case Truncate(newLen) =>
          Truncate(newLen);
          o := Done;
        case Clear =>
          Clear();
          o := Done;
        case Reserve(additional) => o := TryReserve(additional);
        case ReserveExact(additional) => o := TryReserveExact(additional);
        case ShrinkToFit => o := ShrinkToFit();
        case ShrinkTo(minCapacity) => o := ShrinkTo(minCapacity);
      }
    }

    // A user making any calls, one after the other, whatever fails on the way: the buffer shows
    // what the calls that succeeded make of a plain byte sequence. `vs` are its views between the
    // calls. If it starts without a block and only grows amortised, its reallocations together
    // moved at most its final capacity; if it is only pushed to, it stays tight.
    method Execute(ops: seq<Op>) returns (es: seq<Event>, ghost vs: seq<BufferRuns.View>)
      requires Valid() && forall op :: op in ops ==> IsCall(op)
      modifies this, raw, raw.sys
      ensures Valid() && raw.Others() == old(raw.Others())
      ensures |es| == |ops| && forall i :: 0 <= i < |es| ==> es[i].op == ops[i]
      ensures Run(raw.p, es, vs) && vs[0] == old(View()) && vs[|es|] == View()
      ensures View().bytes == PlainRun(es, old(View()).bytes) && len <= raw.CapOrLen()
      ensures raw.sys.refusals == old(raw.sys.refusals) ==>
                forall i :: 0 <= i < |es| ==> es[i].outcome.Done? || es[i].outcome == Failed(CapacityOverflow)
      ensures old(View()) == BufferRuns.View([], 0) && (forall op :: op in ops ==> GrowsAmortised(op)) ==>
                Copied(vs) <= View().capacity
      ensures old(View()) == BufferRuns.View([], 0) && (forall op :: op in ops ==> op.Push?) ==>
                View().capacity <= Max(8, 2 * len)
    {
      assert ValidParams(raw.p);
      hide View;
      hide RawAlignedBuffer.Valid;
      hide Step;
      hide PlainRun;
      hide Copied;
      hide Run;
      es := [];
      vs := [View()];
      RunStarts(raw.p, View());
      while |es| < |ops|
        invariant Valid() && raw.Others() == old(raw.Others())
        invariant |es| <= |ops| && forall i :: 0 <= i < |es| ==> es[i].op == ops[i]
        invariant old(raw.sys.refusals) <= raw.sys.refusals
        invariant raw.sys.refusals == old(raw.sys.refusals) ==>
                    forall i :: 0 <= i < |es| ==> es[i].outcome.Done? || es[i].outcome == Failed(CapacityOverflow)
        invariant Run(raw.p, es, vs) && vs[0] == old(View()) && vs[|es|] == View()
      {
        var op := ops[|es|];
        var o := Call(op);
        RunSnoc(raw.p, es, vs, Event(op, o), View());
        es, vs := es + [Event(op, o)], vs + [View()];
      }
      RunTells(raw.p, ops, es, vs);
    }
  }

  // `with_capacity_in`: a buffer without a block for capacity 0; panics or aborts on a failure.
  method WithCapacity(p: Params, sys: System, size: nat) returns (o: Outcome, u: UniqueAlignedBuffer)
    requires ValidParams(p) && WellFormed(sys.heap) && size < WORD
    modifies sys
    ensures fresh(u) && fresh(u.raw) && u.raw.p == p && u.raw.sys == sys && u.Valid() && u.raw.Others() == old(sys.heap)
    ensures o.Done? ==> u.View() == BufferRuns.View([], size) && (u.raw.IsAllocated() <==> 0 < size)
    ensures !o.Done? ==> u.View() == BufferRuns.View([], 0) && sys.heap == old(sys.heap)
    ensures o == Failed(CapacityOverflow) <==> LayoutOf(p, size).None?
    ensures !o.Panicked? && (o.Failed? ==> 0 < size && o.error == ErrorFor(p, size))
    ensures sys.refusals == old(sys.refusals) + Refused(o)
  {
    EmptyHasLayout(p);
    u := new UniqueAlignedBuffer(p, sys);
    o := Done;
    if size != 0 {
      o := u.raw.Alloc(size);
    }
  }
}

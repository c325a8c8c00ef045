/**
 What a unique buffer shows its user, bytes and capacity, what each operation may do to it, and
 what follows for whole runs of operations.
 */
module BufferRuns {
  import opened Words
  import opened Layouts
  import opened BlockLayouts
  import opened RawBuffers

  datatype View = View(bytes: seq<Byte>, capacity: nat)

  datatype Op =
    | Push(value: Byte)
    | Append(other: seq<Byte>)
    | Resize(newLen: nat, value: Byte)
    | PutBytes(value: Byte, cnt: nat)
    | Truncate(newLen: nat)
    | Clear
    | Reserve(additional: nat)
    | ReserveExact(additional: nat)
    | ShrinkToFit
    | ShrinkTo(minCapacity: nat)

  function Repeat(value: Byte, n: nat): (s: seq<Byte>)
    ensures |s| == n
  {
    seq(n, _ => value)
  }

  // The operation on a plain byte sequence.
  function Plain(op: Op, s: seq<Byte>): seq<Byte> {
    match op
    case Push(value) => s + [value]
    case Append(other) => s + other
    case Resize(newLen, value) => if |s| < newLen then s + Repeat(value, newLen - |s|) else s[..newLen]
    case PutBytes(value, cnt) => s + Repeat(value, cnt)
    case Truncate(newLen) => if newLen < |s| then s[..newLen] else s
    case Clear => []
    case Reserve(_) | ReserveExact(_) | ShrinkToFit | ShrinkTo(_) => s
  }

  // The capacity a success leaves, for a buffer of length `len`.
  function NextCapacity(op: Op, len: nat, capacity: nat): nat
    requires len <= capacity
  {
    match op
    case Push(_) => Reserved(capacity, len, 1)
    case Append(other) => Reserved(capacity, len, |other|)
    case Resize(newLen, _) => if len < newLen then Reserved(capacity, len, newLen - len) else capacity
    case PutBytes(_, cnt) => Reserved(capacity, len, cnt)
    case Truncate(_) | Clear => capacity
    case Reserve(additional) => Reserved(capacity, len, additional)
    case ReserveExact(additional) => Max(capacity, len + additional)
    case ShrinkToFit => len
    case ShrinkTo(minCapacity) => if minCapacity < capacity then Max(len, minCapacity) else capacity
  }

  // The sizes a caller can name are words.
  predicate IsCall(op: Op) {
    match op
    case Append(other) => |other| < WORD
    case Resize(newLen, _) => newLen < WORD
    case PutBytes(_, cnt) => cnt < WORD
    case Reserve(additional) => additional < WORD
    case ReserveExact(additional) => additional < WORD
    case ShrinkTo(minCapacity) => minCapacity < WORD
    case Push(_) | Truncate(_) | Clear | ShrinkToFit => true
  }

  predicate Fits(v: View) { |v.bytes| <= v.capacity }

  function Success(op: Op, v: View): View
    requires Fits(v)
  {
    View(Plain(op, v.bytes), NextCapacity(op, |v.bytes|, v.capacity))
  }

  // One call: it succeeds, or changes nothing. It fails only if it needs memory, with an overflow
  // exactly when no layout exists for the capacity it needs, else with that layout.
  predicate Step(p: Params, op: Op, v: View, v': View, o: Outcome)
    requires ValidParams(p) && Fits(v)
  {
    var next := NextCapacity(op, |v.bytes|, v.capacity);
    && !o.Panicked?
    && v' == (if o.Done? then Success(op, v) else v)
    && (o.Failed? ==> next != v.capacity && next != 0 && o.error == ErrorFor(p, next))
    && (LayoutOf(p, next).None? ==> o.Failed?)
  }

  lemma StepFits(p: Params, op: Op, v: View, v': View, o: Outcome)
    requires ValidParams(p) && Fits(v) && Step(p, op, v, v', o)
    ensures Fits(v')
  {}

  // The empty buffer has a layout, so no operation that asks for no memory overflows.
  lemma EmptyHasLayout(p: Params)
    requires ValidParams(p)
    ensures LayoutOf(p, 0).Some?
  {
    LayoutOfIs(p, 0);
    ExtendAgrees(HeaderLayout(p), Layout(0, p.alignment));
  }

  // The capacity after amortised growth: as it was if there is room, else doubled, or as much as
  // is needed, and at least 8.
  predicate Roomed(v: View, additional: nat, capacity: nat)
    requires Fits(v)
  {
    if additional <= v.capacity - |v.bytes| then
      capacity == v.capacity
    else
      capacity == Max(8, Max(2 * v.capacity, |v.bytes| + additional))
  }

  // `t` is `s` and then `n` times the value.
  predicate Filled(s: seq<Byte>, t: seq<Byte>, n: nat, value: Byte) {
    |t| == |s| + n && t[..|s|] == s && forall i :: |s| <= i < |t| ==> t[i] == value
  }

  // Reserving, and then storing copies of the value.
  lemma FillStep(p: Params, value: Byte, n: nat, v: View, w: View, v': View, o: Outcome)
    requires ValidParams(p) && Fits(v) && Step(p, Reserve(n), v, w, o)
    requires v' == if o.Done? then View(w.bytes + Repeat(value, n), w.capacity) else w
    ensures Step(p, PutBytes(value, n), v, v', o)
    ensures o.Done? ==> Filled(v.bytes, v'.bytes, n, value) && Roomed(v, n, v'.capacity)
    ensures !o.Done? ==> v' == v
  {}

  // ---------- runs

  datatype Event = Event(op: Op, outcome: Outcome)

  predicate Run(p: Params, es: seq<Event>, vs: seq<View>) {
    && ValidParams(p) && |vs| == |es| + 1 && Fits(vs[0])
    && forall i :: 0 <= i < |es| ==> Fits(vs[i]) && Step(p, es[i].op, vs[i], vs[i + 1], es[i].outcome)
  }

  lemma RunSnoc(p: Params, es: seq<Event>, vs: seq<View>, e: Event, v: View)
    requires Run(p, es, vs) && Fits(vs[|es|]) && Step(p, e.op, vs[|es|], v, e.outcome)
    ensures Run(p, es + [e], vs + [v])
  {
    var es', vs' := es + [e], vs + [v];
    forall i | 0 <= i < |es'|
      ensures Fits(vs'[i]) && Step(p, es'[i].op, vs'[i], vs'[i + 1], es'[i].outcome)
    {
      assert i < |es| ==> es'[i] == es[i] && vs'[i] == vs[i] && vs'[i + 1] == vs[i + 1];
    }
  }

  // The same calls on a plain byte sequence, where a call that failed is one that was not made.
  function PlainRun(es: seq<Event>, s: seq<Byte>): seq<Byte> {
    if es == [] then
      s
    else
      var before := PlainRun(es[..|es| - 1], s);
      var e := es[|es| - 1];
      if e.outcome.Done? then Plain(e.op, before) else before
  }

  // What a run's steps add up to; `UniqueAlignedBuffer.Execute` shows that its calls are a run.
  lemma {:induction false} RunRefines(p: Params, es: seq<Event>, vs: seq<View>)
    requires Run(p, es, vs)
    ensures vs[|es|].bytes == PlainRun(es, vs[0].bytes)
    ensures forall i :: 0 <= i <= |es| ==> Fits(vs[i])
  {
    var n := |es|;
    if n > 0 {
      RunRefines(p, es[..n - 1], vs[..n]);
      StepFits(p, es[n - 1].op, vs[n - 1], vs[n], es[n - 1].outcome);
    }
  }

  // ---------- amortised growth

  predicate GrowsAmortised(op: Op) {
    op.Push? || op.Append? || op.Resize? || op.PutBytes? || op.Truncate? || op.Clear? || op.Reserve?
  }

  // The data bytes that reallocations moved: the whole old capacity each time.
  function Copied(vs: seq<View>): nat
    requires |vs| > 0
  {
    if |vs| == 1 then
      0
    else
      var last, before := vs[|vs| - 1], vs[|vs| - 2];
      Copied(vs[..|vs| - 1]) + if last.capacity != before.capacity then before.capacity else 0
  }

  // From an unallocated buffer, all reallocations together move at most the final capacity.
  lemma {:induction false} GrowthIsAmortised(p: Params, es: seq<Event>, vs: seq<View>)
    requires Run(p, es, vs) && vs[0] == View([], 0)
    requires forall i :: 0 <= i < |es| ==> GrowsAmortised(es[i].op)
    ensures Copied(vs) <= vs[|es|].capacity
  {
    var n := |es|;
    if n > 0 {
      GrowthIsAmortised(p, es[..n - 1], vs[..n]);
      assert vs[..n][n - 1] == vs[n - 1];
      GrowthAtLeastDoubles(p, es[n - 1].op, vs[n - 1], vs[n], es[n - 1].outcome);
    }
  }

  lemma GrowthAtLeastDoubles(p: Params, op: Op, v: View, v': View, o: Outcome)
    requires ValidParams(p) && Fits(v) && Step(p, op, v, v', o) && GrowsAmortised(op)
    ensures v'.capacity == v.capacity || (v'.capacity >= 2 * v.capacity && v'.capacity >= 8)
  {}

  // A run of pushes never holds more than twice what it needs.
  lemma {:induction false} PushesStayTight(p: Params, es: seq<Event>, vs: seq<View>)
    requires Run(p, es, vs) && vs[0] == View([], 0)
    requires forall i :: 0 <= i < |es| ==> es[i].op.Push?
    ensures vs[|es|].capacity <= Max(8, 2 * |vs[|es|].bytes|)
  {
    var n := |es|;
    if n > 0 {
      PushesStayTight(p, es[..n - 1], vs[..n]);
      var v, e := vs[n - 1], es[n - 1];
      assert Step(p, e.op, v, vs[n], e.outcome);
      assert v.capacity <= Max(8, 2 * |v.bytes|);
    }
  }

  lemma RunStarts(p: Params, v: View)
    requires ValidParams(p) && Fits(v)
    ensures Run(p, [], [v])
  {}

  // All of it, for the calls `ops`.
  lemma RunTells(p: Params, ops: seq<Op>, es: seq<Event>, vs: seq<View>)
    requires Run(p, es, vs) && |es| == |ops| && forall i :: 0 <= i < |es| ==> es[i].op == ops[i]
    ensures vs[|es|].bytes == PlainRun(es, vs[0].bytes)
    ensures vs[0] == View([], 0) && (forall op :: op in ops ==> GrowsAmortised(op)) ==> Copied(vs) <= vs[|es|].capacity
    ensures vs[0] == View([], 0) && (forall op :: op in ops ==> op.Push?) ==>
              vs[|es|].capacity <= Max(8, 2 * |vs[|es|].bytes|)
  {
    hide PlainRun;
    hide Copied;
    hide Step;
    RunRefines(p, es, vs);
    if vs[0] == View([], 0) && forall op :: op in ops ==> GrowsAmortised(op) {
      GrowthIsAmortised(p, es, vs);
    }
    if vs[0] == View([], 0) && forall op :: op in ops ==> op.Push? {
      PushesStayTight(p, es, vs);
    }
  }

  // ---------- `extend`

  function PushAll(v: View, items: seq<Byte>): (r: View)
    requires Fits(v)
    ensures Fits(r)
    decreases |items|
  {
    if items == [] then v else PushAll(Success(Push(items[0]), v), items[1..])
  }

  // Pushing a sequence appends it, whatever reallocations that takes.
  lemma {:induction false} PushAllAppends(v: View, items: seq<Byte>)
    requires Fits(v)
    ensures PushAll(v, items).bytes == v.bytes + items
    ensures |v.bytes| + |items| <= v.capacity ==> PushAll(v, items).capacity == v.capacity
    decreases |items|
  {
    if items == [] {
      assert v.bytes + items == v.bytes;
    } else {
      PushAllAppends(Success(Push(items[0]), v), items[1..]);
      assert v.bytes + items == (v.bytes + [items[0]]) + items[1..];
    }
  }

  lemma {:induction false} PushAllSplits(v: View, xs: seq<Byte>, ys: seq<Byte>)
    requires Fits(v)
    ensures PushAll(v, xs + ys) == PushAll(PushAll(v, xs), ys)
    decreases |xs|
  {
    if xs == [] {
      assert xs + ys == ys;
    } else {
      PushAllSplits(Success(Push(xs[0]), v), xs[1..], ys);
      assert (xs + ys)[1..] == xs[1..] + ys;
    }
  }

  // ---------- `put`

  function AppendAll(v: View, chunks: seq<seq<Byte>>): (r: View)
    requires Fits(v)
    ensures Fits(r)
  {
    if chunks == [] then
      v
    else
      Success(Append(chunks[|chunks| - 1]), AppendAll(v, chunks[..|chunks| - 1]))
  }

  function Concat(chunks: seq<seq<Byte>>): seq<Byte> {
    if chunks == [] then [] else chunks[0] + Concat(chunks[1..])
  }

  lemma {:induction false} ConcatSnoc(chunks: seq<seq<Byte>>, c: seq<Byte>)
    ensures Concat(chunks + [c]) == Concat(chunks) + c
  {
    if chunks == [] {
      assert chunks + [c] == [c];
      assert Concat([c]) == c + Concat([c][1..]) == c;
    } else {
      ConcatSnoc(chunks[1..], c);
      assert (chunks + [c])[1..] == chunks[1..] + [c];
    }
  }

  // However a source is cut into chunks, `put` appends its bytes in order.
  lemma {:induction false} PutAppendsEverything(v: View, chunks: seq<seq<Byte>>)
    requires Fits(v)
    ensures AppendAll(v, chunks).bytes == v.bytes + Concat(chunks)
  {
    if chunks == [] {
      assert v.bytes + Concat(chunks) == v.bytes;
    } else {
      var before, c := chunks[..|chunks| - 1], chunks[|chunks| - 1];
      PutAppendsEverything(v, before);
      ConcatSnoc(before, c);
      assert before + [c] == chunks;
      assert (v.bytes + Concat(before)) + c == v.bytes + (Concat(before) + c);
    }
  }
}

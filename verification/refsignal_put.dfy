/** `refsignal_put`: copying the pilots of a reference signal into a slot
    buffer. The resource-grid addressing macro SAMPLE_IDX is a parameter
    `addr(nof_prb, time_idx, freq_idx)`; the slot buffer is a sequence of
    samples and the method returns the buffer as it is after the writes. */
module RefsignalPut {
  import opened Lte
  import opened Refsignal

  type Addressing = (nat, nat, nat) -> int

  /** The first `nofRefs` pilots of `s` have been written. */
  predicate Readable(s: State) {
    s.nofRefs > 0 ==>
      && s.refs.Some? && s.nofRefs <= |s.refs.value|
      && forall i :: 0 <= i < s.nofRefs ==> s.refs.value[i].Some?
  }

  function RefAt(s: State, i: nat): Ref
    requires Readable(s) && i < s.nofRefs
  {
    s.refs.value[i].value
  }

  /** The slot-buffer offset pilot `i` is written to. */
  function AddrOf(s: State, addr: Addressing, i: nat): int
    requires Readable(s) && i < s.nofRefs
  {
    addr(s.nofPrb, RefAt(s, i).timeIdx, RefAt(s, i).freqIdx)
  }

  /** What the C code needs of its caller: every pilot can be read and lands
      inside the slot buffer. */
  predicate Puttable(s: State, slot: seq<Cf>, addr: Addressing) {
    && Readable(s)
    && forall i :: 0 <= i < s.nofRefs ==> 0 <= AddrOf(s, addr, i) < |slot|
  }

  /** None of the first `n` pilots is written to offset `a`. */
  predicate NotWritten(s: State, addr: Addressing, a: int, n: nat)
    requires Readable(s) && n <= s.nofRefs
  {
    forall i :: 0 <= i < n ==> AddrOf(s, addr, i) != a
  }

  /** Pilot `i` is the last of the first `n` pilots written to its offset. */
  predicate LastWriter(s: State, addr: Addressing, i: nat, n: nat)
    requires Readable(s) && i < n <= s.nofRefs
  {
    forall j :: i < j < n ==> AddrOf(s, addr, j) != AddrOf(s, addr, i)
  }

  /** No two pilots share an offset. */
  predicate DistinctAddresses(s: State, addr: Addressing)
    requires Readable(s)
  {
    forall i, j :: 0 <= i < j < s.nofRefs ==> AddrOf(s, addr, i) != AddrOf(s, addr, j)
  }

  /** `refsignal_put(q, slot_symbols)`. */
  method Put(q: Option<State>, slot: Option<seq<Cf>>, addr: Addressing) returns (st: Status, out: Option<seq<Cf>>)
    requires q.Some? && slot.Some? ==> Puttable(q.value, slot.value, addr)
    ensures q.None? || slot.None? ==> st == Failure(InvalidInputs) && out == slot
    ensures q.Some? && slot.Some? ==> st == Success && out.Some? && |out.value| == |slot.value|
    // no cell outside the pilots' offsets changes
    ensures q.Some? && slot.Some? ==>
      forall a :: 0 <= a < |slot.value| && NotWritten(q.value, addr, a, q.value.nofRefs) ==>
        out.value[a] == slot.value[a]
    // a cell written more than once holds the last pilot written there
    ensures q.Some? && slot.Some? ==>
      forall i :: 0 <= i < q.value.nofRefs && LastWriter(q.value, addr, i, q.value.nofRefs) ==>
        out.value[AddrOf(q.value, addr, i)] == RefAt(q.value, i).simbol
    // with distinct offsets every pilot reads back
    ensures q.Some? && slot.Some? && DistinctAddresses(q.value, addr) ==>
      forall i :: 0 <= i < q.value.nofRefs ==> out.value[AddrOf(q.value, addr, i)] == RefAt(q.value, i).simbol
  {
    if q.None? || slot.None? {
      return Failure(InvalidInputs), slot;
    }
    var s := q.value;
    var buf := slot.value;
    var i := 0;
    while i < s.nofRefs
      invariant 0 <= i <= s.nofRefs
      invariant |buf| == |slot.value|
      invariant forall a :: 0 <= a < |buf| && NotWritten(s, addr, a, i) ==> buf[a] == slot.value[a]
      invariant forall k :: 0 <= k < i && LastWriter(s, addr, k, i) ==> buf[AddrOf(s, addr, k)] == RefAt(s, k).simbol
    {
      PutStep(s, addr, slot.value, buf, i);
      buf := buf[AddrOf(s, addr, i) := RefAt(s, i).simbol];
      i := i + 1;
    }
    st, out := Success, Some(buf);
  }

  /** Writing pilot `i` keeps the cells no earlier pilot addresses at their
      original values and makes pilot `i` the last writer of its cell. */
  lemma PutStep(s: State, addr: Addressing, orig: seq<Cf>, buf: seq<Cf>, i: nat)
    requires Puttable(s, orig, addr) && i < s.nofRefs && |buf| == |orig|
    requires forall a :: 0 <= a < |buf| && NotWritten(s, addr, a, i) ==> buf[a] == orig[a]
    requires forall k :: 0 <= k < i && LastWriter(s, addr, k, i) ==> buf[AddrOf(s, addr, k)] == RefAt(s, k).simbol
    ensures var buf' := buf[AddrOf(s, addr, i) := RefAt(s, i).simbol];
      && (forall a :: 0 <= a < |buf'| && NotWritten(s, addr, a, i + 1) ==> buf'[a] == orig[a])
      && (forall k :: 0 <= k < i + 1 && LastWriter(s, addr, k, i + 1) ==> buf'[AddrOf(s, addr, k)] == RefAt(s, k).simbol)
  {
    var buf' := buf[AddrOf(s, addr, i) := RefAt(s, i).simbol];
    forall k | 0 <= k < i + 1 && LastWriter(s, addr, k, i + 1)
      ensures buf'[AddrOf(s, addr, k)] == RefAt(s, k).simbol
    {
      if k < i {
        assert LastWriter(s, addr, k, i);
      }
    }
  }
}

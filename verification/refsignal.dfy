/** `refsignal_init_LTEDL` and `refsignal_free`: building the reference
    signal of one antenna port and slot (3GPP TS 36.211 section 6.10.1) and
    tearing it down again.

    The pseudo-random sequence generator (`sequence_LTEPRS`, the Gold
    sequence of section 7.2) is a parameter `gen(c_init, length)`; the three
    allocations are an oracle `Alloc` saying which of them succeed. Complex
    values are kept scaled by sqrt 2, so every pilot component is +1 or -1. */
module Refsignal {
  import opened Lte
  import opened RefsignalMap

  type Bit = b: nat | b < 2

  /** What `sequence_LTEPRS` leaves behind: the bits `seq.c`, or an error. */
  datatype GenResult = Bits(c: seq<Bit>) | GenFailed(code: ErrorCode)

  type Generator = (nat, nat) -> GenResult

  /** The generator delivers exactly as many bits as were asked for. */
  ghost predicate GenWellFormed(gen: Generator) {
    forall cinit, len :: gen(cinit, len).Bits? ==> |gen(cinit, len).c| == len
  }

  /** A complex sample multiplied by sqrt 2. */
  datatype Cf = Cf(re: int, im: int)

  /** `ref_t`: one pilot, its value and its (subcarrier, OFDM symbol). */
  datatype Ref = Ref(simbol: Cf, freqIdx: nat, timeIdx: nat)

  /** `refsignal_t`. A null pointer is `None`; the estimate buffer `ch_est`
      is only sized here, so it is kept as its length. Entries of `refs` that
      were allocated but not yet written are `None`. */
  datatype State = State(
    nofRefs: nat,
    nsymbols: nat,
    voffset: nat,
    nofPrb: nat,
    symbolsRef: Option<seq<nat>>,
    refs: Option<seq<Option<Ref>>>,
    chEst: Option<nat>)

  /** The all-zero structure `bzero` produces. */
  const Empty: State := State(0, 0, 0, 0, None, None, None)

  /** Which of the three allocations (`symbols_ref`, `refs`, `ch_est`) succeed. */
  datatype Alloc = Alloc(symbolsRefOk: bool, refsOk: bool, chEstOk: bool)

  datatype InitOutcome = InitOutcome(status: Status, q: Option<State>)

  /** N_cp of section 6.10.1.1: 1 for the normal cyclic prefix, else 0. */
  function CpFlag(cp: Cp): (n: nat)
    ensures n < 2
    ensures n == 1 <==> CpIsNorm(cp)
  {
    if CpIsNorm(cp) then 1 else 0
  }

  /** The seed of section 6.10.1.1 as an unbounded integer. */
  function SeedFormula(ns: nat, l: nat, id: nat, ncp: nat): nat {
    1024 * (7 * (ns + 1) + l + 1) * (2 * id + 1) + 2 * id + ncp
  }

  /** `c_init` as the source computes it, in `uint32_t` arithmetic. */
  function CInit(ns: nat, l: nat, cell: Cell): (c: nat)
    ensures c < U32
    ensures (c - SeedFormula(ns, l, cell.id, CpFlag(cell.cp))) % U32 == 0
  {
    SeedFormula(ns, l, cell.id, CpFlag(cell.cp)) % U32
  }

  /** Number of bits requested from the generator, `2 * 2 * MAX_PRB`. */
  function SeqLen(p: Platform): nat {
    4 * p.maxPrb
  }

  /** `mp = i + MAX_PRB - nof_prb`: the configured band is the middle of the
      sequence generated for the largest bandwidth, and both bits of the pair
      lie inside the requested length. */
  function BitOffset(p: Platform, nofPrb: nat, i: nat): (mp: nat)
    requires nofPrb <= p.maxPrb && i < 2 * nofPrb
    ensures p.maxPrb - nofPrb <= mp < p.maxPrb + nofPrb
    ensures 2 * mp + 1 < SeqLen(p)
  {
    i + p.maxPrb - nofPrb
  }

  /** A pilot value from the bit pair at `2 * mp`: `1 - 2 * bit` per component.
      The value determines the bit pair again. */
  function PilotValue(c: seq<Bit>, mp: nat): (x: Cf)
    requires 2 * mp + 1 < |c|
    ensures x.re in {1, -1} && x.im in {1, -1}
    ensures c[2 * mp] == (1 - x.re) / 2 && c[2 * mp + 1] == (1 - x.im) / 2
  {
    Cf(1 - 2 * (c[2 * mp] as int), 1 - 2 * (c[2 * mp + 1] as int))
  }

  /** What pilot `i` of OFDM symbol `l` is, given the bits generated for that
      symbol: it sits on symbol `l`, in the i-th group of six subcarriers at
      the port's offset (`refsignal_k`), and its two components encode the
      bit pair at `2 * mp`, `mp = i + MAX_PRB - nof_prb`. */
  ghost predicate IsPilot(p: Platform, c: seq<Bit>, port: nat, ns: nat, l: nat, cell: Cell, i: nat, r: Ref)
    requires cell.nofPrb <= p.maxPrb && i < 2 * cell.nofPrb && |c| == SeqLen(p)
  {
    var mp := BitOffset(p, cell.nofPrb, i);
    && r.timeIdx == l
    && r.freqIdx / 6 == i
    && r.freqIdx % 6 == ShiftResidue(ShiftV(port, ns, l), cell.id)
    && r.simbol.re in {1, -1} && r.simbol.im in {1, -1}
    && c[2 * mp] == (1 - r.simbol.re) / 2 && c[2 * mp + 1] == (1 - r.simbol.im) / 2
  }

  /** The i-th pilot of pilot symbol `l`, given the bits generated for it. */
  function ExpectedRef(p: Platform, c: seq<Bit>, port: nat, ns: nat, l: nat, cell: Cell, i: nat): (r: Ref)
    requires cell.nofPrb <= p.maxPrb && i < 2 * cell.nofPrb && |c| == SeqLen(p)
    ensures IsPilot(p, c, port, ns, l, cell, i, r)
    ensures r.freqIdx < 12 * cell.nofPrb
  {
    Ref(PilotValue(c, BitOffset(p, cell.nofPrb, i)), SubcarrierK(i, ShiftV(port, ns, l), cell.id), l)
  }

  /** The `2 * nof_prb` pilots of one pilot symbol, in subcarrier order. */
  function SymbolRefs(p: Platform, c: seq<Bit>, port: nat, ns: nat, l: nat, cell: Cell): (block: seq<Ref>)
    requires cell.nofPrb <= p.maxPrb && |c| == SeqLen(p)
    ensures |block| == 2 * cell.nofPrb
    ensures forall i :: 0 <= i < |block| ==> IsPilot(p, c, port, ns, l, cell, i, block[i])
    ensures forall i1, i2 :: 0 <= i1 < i2 < |block| ==> block[i1].freqIdx < block[i2].freqIdx
  {
    seq(2 * cell.nofPrb, i requires 0 <= i < 2 * cell.nofPrb => ExpectedRef(p, c, port, ns, l, cell, i))
  }

  /** The bits generated for pilot symbol `l` of slot `ns`: the sequence
      seeded with `c_init`, `4 * MAX_PRB` bits long when it succeeds. */
  function GenFor(p: Platform, gen: Generator, ns: nat, l: nat, cell: Cell): (r: GenResult)
    ensures GenWellFormed(gen) && r.Bits? ==> |r.c| == 4 * p.maxPrb
  {
    gen(CInit(ns, l, cell), SeqLen(p))
  }

  /** Writes a block of pilots at positions `l * |block| ..` of the flat array;
      every other entry keeps its value. */
  function WriteBlock(buf: seq<Option<Ref>>, l: nat, block: seq<Ref>): (r: seq<Option<Ref>>)
    requires (l + 1) * |block| <= |buf|
    ensures |r| == |buf|
    ensures forall i :: 0 <= i < |block| ==> r[FlatIdx(l, i, |block|)] == Some(block[i])
    ensures forall j :: 0 <= j < |buf| && (j < l * |block| || (l + 1) * |block| <= j) ==> r[j] == buf[j]
  {
    var lo := l * |block|;
    assert lo + |block| == (l + 1) * |block|;
    buf[..lo] + seq(|block|, i requires 0 <= i < |block| => Some(block[i])) + buf[lo + |block|..]
  }

  datatype FillResult = Filled(buf: seq<Option<Ref>>) | Aborted(code: ErrorCode, buf: seq<Option<Ref>>)

  /** The loop over pilot symbols `l .. |lp| - 1` of `refsignal_init_LTEDL`:
      for each, seed the generator, stop on its first failure, otherwise
      write the symbol's pilots at `idx(l, i)`. */
  function FillFrom(p: Platform, gen: Generator, port: nat, ns: nat, cell: Cell,
                    lp: seq<nat>, l: nat, buf: seq<Option<Ref>>): (r: FillResult)
    requires GenWellFormed(gen) && cell.nofPrb <= p.maxPrb
    requires l <= |lp| && |buf| == 2 * cell.nofPrb * |lp|
    ensures |r.buf| == |buf|
    ensures r.Filled? <==> forall l' :: l <= l' < |lp| ==> GenFor(p, gen, ns, lp[l'], cell).Bits?
    // it stops at the first failing call and passes on that call's code
    ensures r.Aborted? ==> exists l' :: l <= l' < |lp| && GenFor(p, gen, ns, lp[l'], cell) == GenFailed(r.code)
                                   && forall l'' :: l <= l'' < l' ==> GenFor(p, gen, ns, lp[l''], cell).Bits?
    decreases |lp| - l
  {
    if l == |lp| then Filled(buf)
    else
      match GenFor(p, gen, ns, lp[l], cell)
      case GenFailed(e) => Aborted(e, buf)
      case Bits(c) =>
        var per := 2 * cell.nofPrb;
        assert (l + 1) * per <= |lp| * per by { MulMono(l + 1, |lp|, per); }
        var block := SymbolRefs(p, c, port, ns, lp[l], cell);
        FillFrom(p, gen, port, ns, cell, lp, l + 1, WriteBlock(buf, l, block))
  }

  /** The arguments `refsignal_init_LTEDL` accepts: a structure to fill, a
      port below MAX_PORTS, a slot below NSLOTS_X_FRAME and a valid cell. */
  predicate InputsValid(p: Platform, q: Option<State>, port: nat, nslot: nat, cell: Cell)
    ensures InputsValid(p, q, port, nslot, cell) ==> q.Some?
    // a cell that passes the check fits the largest band, so every bit
    // offset `mp` is in range
    ensures InputsValid(p, q, port, nslot, cell) && WellFormed(p) ==> cell.nofPrb <= p.maxPrb
  {
    q.Some? && port < p.maxPorts && nslot < p.slotsPerFrame && p.cellValid(cell)
  }

  /** The shape a successfully initialised structure has for a port and cell. */
  predicate Configured(p: Platform, s: State, port: nat, cell: Cell)
    requires WellFormed(p)
  {
    var lp := PilotSymbols(p, port, cell.cp);
    && s.nsymbols == |lp|
    && s.symbolsRef == Some(lp)
    && s.nofRefs == 2 * cell.nofPrb * s.nsymbols
    && s.voffset == cell.id % 6
    && s.nofPrb == cell.nofPrb
    && s.refs.Some? && |s.refs.value| == s.nofRefs
    && s.chEst == Some(s.nofRefs)
  }

  /** The four fields set before any allocation: pilot count, number of
      pilot symbols, the cell's shift offset and its bandwidth. */
  predicate Counted(p: Platform, s: State, port: nat, cell: Cell)
    requires WellFormed(p)
  {
    var lp := PilotSymbols(p, port, cell.cp);
    && s.nofRefs == 2 * cell.nofPrb * |lp|
    && s.nsymbols == |lp|
    && s.voffset == cell.id % 6
    && s.nofPrb == cell.nofPrb
  }

  /** `refsignal_init_LTEDL(q, port_id, nslot, cell)`. */
  function Init(p: Platform, gen: Generator, alloc: Alloc, q: Option<State>,
                port: nat, nslot: nat, cell: Cell): (r: InitOutcome)
    requires WellFormed(p) && GenWellFormed(gen)
    // rejected arguments: the structure is left exactly as it was
    ensures !InputsValid(p, q, port, nslot, cell) ==> r == InitOutcome(Failure(InvalidInputs), q)
    ensures InputsValid(p, q, port, nslot, cell) ==> r.q.Some?
    // success exactly when every allocation and every generator call succeeds
    ensures r.status == Success <==>
      && InputsValid(p, q, port, nslot, cell)
      && alloc.symbolsRefOk && alloc.refsOk && alloc.chEstOk
      && forall l :: l in PilotSymbols(p, port, cell.cp) ==> GenFor(p, gen, nslot, l, cell).Bits?
    ensures r.status == Success ==> Configured(p, r.q.value, port, cell)
    // an allocation failure is reported as INVALID_INPUTS and what was
    // already allocated stays allocated
    ensures InputsValid(p, q, port, nslot, cell) && !(alloc.symbolsRefOk && alloc.refsOk && alloc.chEstOk) ==>
      && r.status == Failure(InvalidInputs)
      && Counted(p, r.q.value, port, cell)
      && (r.q.value.symbolsRef.Some? <==> alloc.symbolsRefOk)
      && (alloc.symbolsRefOk ==> r.q.value.symbolsRef == Some(PilotSymbols(p, port, cell.cp)))
      && (r.q.value.refs.Some? <==> alloc.symbolsRefOk && alloc.refsOk)
      && (alloc.symbolsRefOk && alloc.refsOk ==> |r.q.value.refs.value| == r.q.value.nofRefs)
      && r.q.value.chEst.None?
    // a generator failure is passed on; only LIBLTE_ERROR releases the structure
    ensures r.status.Failure? && r.status.code == Error ==> r.q == Some(Empty)
    ensures r.status.Failure? && r.status.code != InvalidInputs && r.status.code != Error ==>
      r.q.Some? && r.q.value.refs.Some? && r.q.value.chEst.Some?
    // the first failing generator call decides the status, and whether the
    // structure is released or returned half built
    ensures InputsValid(p, q, port, nslot, cell) && alloc.symbolsRefOk && alloc.refsOk && alloc.chEstOk ==>
      var lp := PilotSymbols(p, port, cell.cp);
      forall l0 :: 0 <= l0 < |lp| && GenFor(p, gen, nslot, lp[l0], cell).GenFailed?
                   && (forall l' :: 0 <= l' < l0 ==> GenFor(p, gen, nslot, lp[l'], cell).Bits?) ==>
        var e := GenFor(p, gen, nslot, lp[l0], cell).code;
        && r.status == Failure(e)
        && (e == Error ==> r.q == Some(Empty))
        && (e != Error ==>
              && Counted(p, r.q.value, port, cell)
              && r.q.value.symbolsRef == Some(lp)
              && r.q.value.refs.Some? && |r.q.value.refs.value| == r.q.value.nofRefs
              && r.q.value.chEst == Some(r.q.value.nofRefs))
  {
    if !InputsValid(p, q, port, nslot, cell) then InitOutcome(Failure(InvalidInputs), q)
    else
      var lp := PilotSymbols(p, port, cell.cp);
      var per := 2 * cell.nofPrb;
      var n := per * |lp|;
      var base := State(n, |lp|, cell.id % 6, cell.nofPrb, None, None, None);
      if !alloc.symbolsRefOk then InitOutcome(Failure(InvalidInputs), Some(base))
      else
        var s1 := base.(symbolsRef := Some(lp));
        if !alloc.refsOk then InitOutcome(Failure(InvalidInputs), Some(s1))
        else
          var s2 := s1.(refs := Some(seq(n, _ => None)));
          if !alloc.chEstOk then InitOutcome(Failure(InvalidInputs), Some(s2))
          else
            var s3 := s2.(chEst := Some(n));
            var fill := FillFrom(p, gen, port, nslot, cell, lp, 0, s2.refs.value);
            match fill
            case Filled(buf) => InitOutcome(Success, Some(s3.(refs := Some(buf))))
            case Aborted(e, buf) =>
              if e == Error then InitOutcome(Failure(Error), Some(Free(s3)))
              else InitOutcome(Failure(e), Some(s3.(refs := Some(buf))))
  }

  /** `refsignal_free`: every buffer released, every field zero. */
  function Free(q: State): (r: State)
    ensures r.symbolsRef.None? && r.refs.None? && r.chEst.None?
    ensures r.nofRefs == 0 && r.nsymbols == 0 && r.voffset == 0 && r.nofPrb == 0
  {
    Empty
  }
}

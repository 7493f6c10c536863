/** Properties of the reference-signal model that relate several operations:
    the flat layout `idx(l, i)` after a successful `refsignal_init_LTEDL`,
    positions in range and never repeated, pilots reading back after
    `refsignal_put`, the seed of section 6.10.1.1, and the teardown. */
module RefsignalProofs {
  import opened Lte
  import opened RefsignalMap
  import opened Refsignal
  import opened RefsignalPut

  // ---------------------------------------------------------------------
  // Shift pattern and subcarrier mapping

  /** Antenna ports 0 and 1 never use the same subcarrier of an OFDM symbol,
      nor do ports 2 and 3 within a slot. */
  lemma PortPairsDisjoint(ns: nat, symbolId: nat, m: nat, m': nat, cellId: nat)
    ensures SubcarrierK(m, ShiftV(0, ns, symbolId), cellId) != SubcarrierK(m', ShiftV(1, ns, symbolId), cellId)
    ensures SubcarrierK(m, ShiftV(2, ns, symbolId), cellId) != SubcarrierK(m', ShiftV(3, ns, symbolId), cellId)
  {
    var r := cellId % 6;
    assert ShiftResidue(0, cellId) == r % 6;
    assert ShiftResidue(3, cellId) == (3 + r) % 6;
    assert ShiftResidue(6, cellId) == r % 6;
  }

  /** The shift of every port repeats with period two slots. */
  lemma ShiftPeriodic(port: nat, ns: nat, symbolId: nat)
    ensures ShiftV(port, ns + 2, symbolId) == ShiftV(port, ns, symbolId)
  {
    assert (ns + 2) % 2 == ns % 2;
  }

  /** Pilots of one OFDM symbol lie at strictly increasing subcarriers. */
  lemma SubcarrierIncreasing(m1: nat, m2: nat, v: int, cellId: nat)
    requires m1 < m2
    ensures SubcarrierK(m1, v, cellId) < SubcarrierK(m2, v, cellId)
  {
  }

  /** The `2 * nof_prb` pilots of a symbol lie inside the `12 * nof_prb`
      subcarriers of the configured band, whatever the shift. */
  lemma SubcarrierInBand(m: nat, v: int, cellId: nat, nofPrb: nat)
    requires m < 2 * nofPrb
    ensures SubcarrierK(m, v, cellId) < 12 * nofPrb
  {
  }

  // ---------------------------------------------------------------------
  // Seed

  /** Within the ranges of TS 36.211 (slot below 20, symbol below 7, cell
      identity below 504) the `uint32_t` computation does not wrap, the seed
      fits 31 bits, and its low ten bits hold `2 * id + N_cp`. */
  lemma SeedInRange(ns: nat, l: nat, cell: Cell)
    requires ns < 20 && l < 7 && cell.id < 504
    ensures CInit(ns, l, cell) == SeedFormula(ns, l, cell.id, CpFlag(cell.cp))
    ensures CInit(ns, l, cell) < 0x8000_0000
    ensures CInit(ns, l, cell) % 1024 == 2 * cell.id + CpFlag(cell.cp)
  {
    var x := 7 * (ns + 1) + l + 1;
    var y := 2 * cell.id + 1;
    assert x <= 147 && y <= 1007;
    assert x * y <= 147 * 1007 by { MulLe(x, 147, y, 1007); }
    var low := 2 * cell.id + CpFlag(cell.cp);
    assert SeedFormula(ns, l, cell.id, CpFlag(cell.cp)) == (x * y) * 1024 + low;
    DivModOfSum(x * y, low, 1024);
  }

  lemma MulLe(a: nat, b: nat, c: nat, d: nat)
    requires a <= b && c <= d
    ensures a * c <= b * d
  {
    MulMono(a, b, c);
    assert b * c <= b * d;
  }

  /** Distinct (slot, symbol, cell identity, prefix) give distinct seeds:
      the seed formula can be decoded for symbols below 7 and identities
      below 512. */
  lemma {:induction false} SeedInjective(ns1: nat, l1: nat, id1: nat, ncp1: nat,
                                         ns2: nat, l2: nat, id2: nat, ncp2: nat)
    requires l1 < 7 && l2 < 7 && id1 < 512 && id2 < 512 && ncp1 < 2 && ncp2 < 2
    requires SeedFormula(ns1, l1, id1, ncp1) == SeedFormula(ns2, l2, id2, ncp2)
    ensures ns1 == ns2 && l1 == l2 && id1 == id2 && ncp1 == ncp2
  {
    SeedSplit(ns1, l1, id1, ncp1);
    SeedSplit(ns2, l2, id2, ncp2);
    assert 2 * id1 + ncp1 == 2 * id2 + ncp2;
    assert id1 == id2 && ncp1 == ncp2;
    var x1, x2 := 7 * (ns1 + 1) + l1 + 1, 7 * (ns2 + 1) + l2 + 1;
    assert x1 * (2 * id1 + 1) == x2 * (2 * id1 + 1);
    MulCancel(x1, x2, 2 * id1 + 1);
    DivModOfSum(ns1, l1, 7);
    DivModOfSum(ns2, l2, 7);
  }

  /** The seed is `1024` times the slot-and-symbol term times `2 * id + 1`,
      plus `2 * id + N_cp` in the low ten bits. */
  lemma SeedSplit(ns: nat, l: nat, id: nat, ncp: nat)
    requires id < 512 && ncp < 2
    ensures SeedFormula(ns, l, id, ncp) / 1024 == (7 * (ns + 1) + l + 1) * (2 * id + 1)
    ensures SeedFormula(ns, l, id, ncp) % 1024 == 2 * id + ncp
  {
    DivModOfSum((7 * (ns + 1) + l + 1) * (2 * id + 1), 2 * id + ncp, 1024);
  }

  lemma MulCancel(a: nat, b: nat, y: nat)
    requires y > 0 && a * y == b * y
    ensures a == b
  {
  }

  // ---------------------------------------------------------------------
  // Layout of a successfully initialised reference signal

  /** The pilot-symbol loop never touches the blocks before the one it
      starts at. */
  lemma {:induction false} FillFromKeepsPrefix(p: Platform, gen: Generator, port: nat, ns: nat, cell: Cell,
                                               lp: seq<nat>, l: nat, buf: seq<Option<Ref>>, j: nat)
    requires GenWellFormed(gen) && cell.nofPrb <= p.maxPrb
    requires l <= |lp| && |buf| == 2 * cell.nofPrb * |lp|
    requires j < l * (2 * cell.nofPrb) && j < |buf|
    ensures FillFrom(p, gen, port, ns, cell, lp, l, buf).buf[j] == buf[j]
    decreases |lp| - l
  {
    if l < |lp| {
      match GenFor(p, gen, ns, lp[l], cell)
      case GenFailed(e) =>
      case Bits(c) =>
        var per := 2 * cell.nofPrb;
        MulMono(l + 1, |lp|, per);
        MulMono(l, l + 1, per);
        var buf' := WriteBlock(buf, l, SymbolRefs(p, c, port, ns, lp[l], cell));
        FillFromKeepsPrefix(p, gen, port, ns, cell, lp, l + 1, buf', j);
    }
  }

  /** When the pilot-symbol loop runs to the end, pilot `i` of pilot symbol
      `l'` is at `idx(l', i)`. */
  lemma {:induction false} FillFromLayout(p: Platform, gen: Generator, port: nat, ns: nat, cell: Cell,
                                          lp: seq<nat>, l: nat, buf: seq<Option<Ref>>, l': nat, i: nat)
    requires GenWellFormed(gen) && cell.nofPrb <= p.maxPrb
    requires l <= |lp| && |buf| == 2 * cell.nofPrb * |lp|
    requires FillFrom(p, gen, port, ns, cell, lp, l, buf).Filled?
    requires l <= l' < |lp| && i < 2 * cell.nofPrb
    ensures GenFor(p, gen, ns, lp[l'], cell).Bits?
    ensures var r := FillFrom(p, gen, port, ns, cell, lp, l, buf).buf;
      && FlatIdx(l', i, 2 * cell.nofPrb) < |r|
      && r[FlatIdx(l', i, 2 * cell.nofPrb)]
           == Some(ExpectedRef(p, GenFor(p, gen, ns, lp[l'], cell).c, port, ns, lp[l'], cell, i))
    decreases |lp| - l
  {
    var per := 2 * cell.nofPrb;
    match GenFor(p, gen, ns, lp[l], cell)
    case Bits(c) =>
      MulMono(l + 1, |lp|, per);
      MulMono(l' + 1, |lp|, per);
      BlockBounds(l', i, per);
      var block := SymbolRefs(p, c, port, ns, lp[l], cell);
      var buf' := WriteBlock(buf, l, block);
      assert FillFrom(p, gen, port, ns, cell, lp, l, buf) == FillFrom(p, gen, port, ns, cell, lp, l + 1, buf');
      if l' == l {
        BlockBounds(l, i, per);
        assert |block| == per;
        assert buf'[FlatIdx(l, i, per)] == Some(block[i]);
        FillFromKeepsPrefix(p, gen, port, ns, cell, lp, l + 1, buf', FlatIdx(l, i, per));
      } else {
        FillFromLayout(p, gen, port, ns, cell, lp, l + 1, buf', l', i);
      }
  }

  lemma BlockBounds(l: nat, i: nat, per: nat)
    requires i < per
    ensures l * per <= FlatIdx(l, i, per) < (l + 1) * per
    ensures l * per <= (l + 1) * per
  {
  }

  /** The shape of a successfully initialised structure: two pilot symbols
      (the first and the third-from-last) for ports 0 and 1, one (the
      second) otherwise; `2 * nof_prb` pilots per pilot symbol; the cell's
      shift offset and bandwidth cached; the estimate buffer as long as the
      pilot array. */
  lemma InitShape(p: Platform, gen: Generator, alloc: Alloc, q: Option<State>,
                  port: nat, nslot: nat, cell: Cell)
    requires WellFormed(p) && GenWellFormed(gen)
    requires Init(p, gen, alloc, q, port, nslot, cell).status == Success
    ensures var s := Init(p, gen, alloc, q, port, nslot, cell).q.value;
      && (port < 2 ==> s.nsymbols == 2 && s.symbolsRef == Some([0, CpNsymb(p, cell.cp) - 3]))
      && (port >= 2 ==> s.nsymbols == 1 && s.symbolsRef == Some([1]))
      && s.nofRefs == 2 * cell.nofPrb * s.nsymbols
      && s.voffset == cell.id % 6
      && s.nofPrb == cell.nofPrb
      && s.refs.Some? && |s.refs.value| == s.nofRefs
      && s.chEst == Some(s.nofRefs)
  {
    var lp := PilotSymbols(p, port, cell.cp);
    if port < 2 {
      assert lp == [0, CpNsymb(p, cell.cp) - 3];
    } else {
      assert lp == [1];
    }
  }

  /** After a successful `refsignal_init_LTEDL`, entry `idx(l, i)` holds the
      i-th pilot of the l-th pilot symbol: its value comes from the bits
      generated for that symbol, its subcarrier is `refsignal_k(i, v, id)`
      and its OFDM symbol is `lp[l]`. */
  lemma InitLayout(p: Platform, gen: Generator, alloc: Alloc, q: Option<State>,
                   port: nat, nslot: nat, cell: Cell)
    requires WellFormed(p) && GenWellFormed(gen)
    requires Init(p, gen, alloc, q, port, nslot, cell).status == Success
    ensures var s := Init(p, gen, alloc, q, port, nslot, cell).q.value;
      var lp := PilotSymbols(p, port, cell.cp);
      forall l, i :: 0 <= l < |lp| && 0 <= i < 2 * cell.nofPrb ==>
        && GenFor(p, gen, nslot, lp[l], cell).Bits?
        && s.refs.value[FlatIdx(l, i, 2 * cell.nofPrb)]
             == Some(ExpectedRef(p, GenFor(p, gen, nslot, lp[l], cell).c, port, nslot, lp[l], cell, i))
  {
    var lp := PilotSymbols(p, port, cell.cp);
    var n := 2 * cell.nofPrb * |lp|;
    forall l, i | 0 <= l < |lp| && 0 <= i < 2 * cell.nofPrb
      ensures && GenFor(p, gen, nslot, lp[l], cell).Bits?
              && Init(p, gen, alloc, q, port, nslot, cell).q.value.refs.value[FlatIdx(l, i, 2 * cell.nofPrb)]
                   == Some(ExpectedRef(p, GenFor(p, gen, nslot, lp[l], cell).c, port, nslot, lp[l], cell, i))
    {
      FillFromLayout(p, gen, port, nslot, cell, lp, 0, seq(n, _ => None), l, i);
    }
  }

  /** Entry `j` of a successfully initialised structure is pilot `i` of
      pilot symbol `l` for the one pair with `j == idx(l, i)`. */
  lemma InitEntry(p: Platform, gen: Generator, alloc: Alloc, q: Option<State>,
                  port: nat, nslot: nat, cell: Cell, j: nat)
    returns (l: nat, i: nat)
    requires WellFormed(p) && GenWellFormed(gen)
    requires Init(p, gen, alloc, q, port, nslot, cell).status == Success
    requires j < Init(p, gen, alloc, q, port, nslot, cell).q.value.nofRefs
    ensures var s := Init(p, gen, alloc, q, port, nslot, cell).q.value;
      var lp := PilotSymbols(p, port, cell.cp);
      && l < |lp| && i < 2 * cell.nofPrb && j == FlatIdx(l, i, 2 * cell.nofPrb)
      && GenFor(p, gen, nslot, lp[l], cell).Bits?
      && j < |s.refs.value|
      && s.refs.value[j] == Some(ExpectedRef(p, GenFor(p, gen, nslot, lp[l], cell).c, port, nslot, lp[l], cell, i))
  {
    var lp := PilotSymbols(p, port, cell.cp);
    var per := 2 * cell.nofPrb;
    l, i := FlatIdxSplit(j, |lp|, per);
    InitAt(p, gen, alloc, q, port, nslot, cell, l, i);
  }

  /** An index below `count * per` is `idx(l, i)` of its quotient and remainder. */
  lemma FlatIdxSplit(j: nat, count: nat, per: nat) returns (l: nat, i: nat)
    requires j < count * per
    ensures l < count && i < per && j == FlatIdx(l, i, per)
  {
    FlatIdxBijective(count, per);
    l, i := j / per, j % per;
  }

  /** Entry `idx(l, i)` of a successfully initialised structure, for one pair. */
  lemma InitAt(p: Platform, gen: Generator, alloc: Alloc, q: Option<State>,
               port: nat, nslot: nat, cell: Cell, l: nat, i: nat)
    requires WellFormed(p) && GenWellFormed(gen)
    requires Init(p, gen, alloc, q, port, nslot, cell).status == Success
    requires l < |PilotSymbols(p, port, cell.cp)| && i < 2 * cell.nofPrb
    ensures var s := Init(p, gen, alloc, q, port, nslot, cell).q.value;
      var lp := PilotSymbols(p, port, cell.cp);
      && GenFor(p, gen, nslot, lp[l], cell).Bits?
      && FlatIdx(l, i, 2 * cell.nofPrb) < |s.refs.value|
      && s.refs.value[FlatIdx(l, i, 2 * cell.nofPrb)]
           == Some(ExpectedRef(p, GenFor(p, gen, nslot, lp[l], cell).c, port, nslot, lp[l], cell, i))
  {
    var lp := PilotSymbols(p, port, cell.cp);
    var per := 2 * cell.nofPrb;
    FillFromLayout(p, gen, port, nslot, cell, lp, 0, seq(per * |lp|, _ => None), l, i);
  }

  /** `IsPilot` pins a pilot down completely: two pilots with the same
      index, symbol and bits are equal. */
  lemma PilotDetermined(p: Platform, c: seq<Bit>, port: nat, ns: nat, l: nat, cell: Cell, i: nat, a: Ref, b: Ref)
    requires cell.nofPrb <= p.maxPrb && i < 2 * cell.nofPrb && |c| == SeqLen(p)
    requires IsPilot(p, c, port, ns, l, cell, i, a) && IsPilot(p, c, port, ns, l, cell, i, b)
    ensures a == b
  {
    assert a.freqIdx == 6 * (a.freqIdx / 6) + a.freqIdx % 6;
    assert b.freqIdx == 6 * (b.freqIdx / 6) + b.freqIdx % 6;
  }

  /** Every pilot has been written, sits on one of the cached pilot symbols,
      inside the band of `12 * nof_prb` subcarriers, at the residue mod 6
      given by the port's shift `v` and `voffset`, and carries a value with
      components +1 or -1. */
  predicate PositionsValid(s: State, port: nat, nslot: nat) {
    && Readable(s)
    && s.symbolsRef.Some?
    && forall j :: 0 <= j < s.nofRefs ==>
      && RefAt(s, j).timeIdx in s.symbolsRef.value
      && RefAt(s, j).freqIdx < 12 * s.nofPrb
      && RefAt(s, j).freqIdx % 6 == ShiftResidue(ShiftV(port, nslot, RefAt(s, j).timeIdx), s.voffset)
      && RefAt(s, j).simbol.re in {1, -1} && RefAt(s, j).simbol.im in {1, -1}
  }

  /** No two pilots share a (subcarrier, OFDM symbol) pair. */
  predicate PositionsUnique(s: State) {
    && Readable(s)
    && forall j1, j2 :: 0 <= j1 < j2 < s.nofRefs ==>
      (RefAt(s, j1).freqIdx, RefAt(s, j1).timeIdx) != (RefAt(s, j2).freqIdx, RefAt(s, j2).timeIdx)
  }

  /** The pilots of a successfully initialised structure are where TS 36.211
      section 6.10.1.2 puts them. */
  lemma InitPositionsValid(p: Platform, gen: Generator, alloc: Alloc, q: Option<State>,
                           port: nat, nslot: nat, cell: Cell)
    requires WellFormed(p) && GenWellFormed(gen)
    requires Init(p, gen, alloc, q, port, nslot, cell).status == Success
    ensures PositionsValid(Init(p, gen, alloc, q, port, nslot, cell).q.value, port, nslot)
  {
    var s := Init(p, gen, alloc, q, port, nslot, cell).q.value;
    var lp := PilotSymbols(p, port, cell.cp);
    forall j | 0 <= j < s.nofRefs
      ensures s.refs.value[j].Some?
    {
      var l, i := InitEntry(p, gen, alloc, q, port, nslot, cell, j);
    }
    assert Readable(s);
    forall j | 0 <= j < s.nofRefs
      ensures && RefAt(s, j).timeIdx in s.symbolsRef.value
              && RefAt(s, j).freqIdx < 12 * s.nofPrb
              && RefAt(s, j).freqIdx % 6 == ShiftResidue(ShiftV(port, nslot, RefAt(s, j).timeIdx), s.voffset)
              && RefAt(s, j).simbol.re in {1, -1} && RefAt(s, j).simbol.im in {1, -1}
    {
      var l, i := InitEntry(p, gen, alloc, q, port, nslot, cell, j);
      var c := GenFor(p, gen, nslot, lp[l], cell).c;
      assert RefAt(s, j) == ExpectedRef(p, c, port, nslot, lp[l], cell, i);
      ExpectedRefPosition(p, c, port, nslot, lp[l], cell, i);
      assert lp[l] in s.symbolsRef.value;
    }
  }

  /** One pilot's position and value, as `ExpectedRef` builds it. */
  lemma ExpectedRefPosition(p: Platform, c: seq<Bit>, port: nat, ns: nat, l: nat, cell: Cell, i: nat)
    requires cell.nofPrb <= p.maxPrb && i < 2 * cell.nofPrb && |c| == SeqLen(p)
    ensures var r := ExpectedRef(p, c, port, ns, l, cell, i);
      && r.timeIdx == l
      && r.freqIdx < 12 * cell.nofPrb
      && r.freqIdx % 6 == ShiftResidue(ShiftV(port, ns, l), cell.id % 6)
      && r.simbol.re in {1, -1} && r.simbol.im in {1, -1}
  {
    SubcarrierInBand(i, ShiftV(port, ns, l), cell.id, cell.nofPrb);
    assert (cell.id % 6) % 6 == cell.id % 6;
  }

  /** No two pilots of a successfully initialised structure share a
      (subcarrier, OFDM symbol) pair. */
  lemma InitPositionsUnique(p: Platform, gen: Generator, alloc: Alloc, q: Option<State>,
                            port: nat, nslot: nat, cell: Cell)
    requires WellFormed(p) && GenWellFormed(gen)
    requires Init(p, gen, alloc, q, port, nslot, cell).status == Success
    ensures PositionsUnique(Init(p, gen, alloc, q, port, nslot, cell).q.value)
  {
    var s := Init(p, gen, alloc, q, port, nslot, cell).q.value;
    var lp := PilotSymbols(p, port, cell.cp);
    InitPositionsValid(p, gen, alloc, q, port, nslot, cell);
    forall j1, j2 | 0 <= j1 < j2 < s.nofRefs
      ensures (RefAt(s, j1).freqIdx, RefAt(s, j1).timeIdx) != (RefAt(s, j2).freqIdx, RefAt(s, j2).timeIdx)
    {
      var l1, i1 := InitEntry(p, gen, alloc, q, port, nslot, cell, j1);
      var l2, i2 := InitEntry(p, gen, alloc, q, port, nslot, cell, j2);
      if l1 == l2 {
        assert i1 != i2;
        assert RefAt(s, j1).freqIdx / 6 == i1 && RefAt(s, j2).freqIdx / 6 == i2;
      } else {
        assert lp[l1] != lp[l2];
      }
    }
  }

  /** SAMPLE_IDX sends distinct (symbol, subcarrier) pairs of the resource
      grid of a slot (`nsymb` symbols, `12 * nofPrb` subcarriers) to distinct
      offsets. */
  ghost predicate AddrInjective(addr: Addressing, nofPrb: nat, nsymb: nat) {
    forall t1: nat, f1: nat, t2: nat, f2: nat ::
      (&& t1 < nsymb && f1 < 12 * nofPrb && t2 < nsymb && f2 < 12 * nofPrb
       && addr(nofPrb, t1, f1) == addr(nofPrb, t2, f2)) ==> t1 == t2 && f1 == f2
  }

  /** The row-major grid layout `t * 12 * nofPrb + f` is injective on the grid. */
  lemma {:induction false} RowMajorInjective(nofPrb: nat, nsymb: nat)
    ensures AddrInjective((n: nat, t: nat, f: nat) => t * (12 * n) + f, nofPrb, nsymb)
  {
    var addr := (n: nat, t: nat, f: nat) => t * (12 * n) + f;
    forall t1: nat, f1: nat, t2: nat, f2: nat |
      t1 < nsymb && f1 < 12 * nofPrb && t2 < nsymb && f2 < 12 * nofPrb
      && addr(nofPrb, t1, f1) == addr(nofPrb, t2, f2)
      ensures t1 == t2 && f1 == f2
    {
      DivModOfSum(t1, f1, 12 * nofPrb);
      DivModOfSum(t2, f2, 12 * nofPrb);
    }
  }

  /** With a SAMPLE_IDX that is injective on the slot's grid, the pilots of a
      successfully initialised structure go to distinct offsets, so
      `refsignal_put` writes each of them and every one reads back (see the
      contract of `Put`). */
  lemma InitAddressesDistinct(p: Platform, gen: Generator, alloc: Alloc, q: Option<State>,
                              port: nat, nslot: nat, cell: Cell, addr: Addressing)
    requires WellFormed(p) && GenWellFormed(gen)
    requires Init(p, gen, alloc, q, port, nslot, cell).status == Success
    ensures var s := Init(p, gen, alloc, q, port, nslot, cell).q.value;
      Readable(s) && (AddrInjective(addr, cell.nofPrb, CpNsymb(p, cell.cp)) ==> DistinctAddresses(s, addr))
  {
    var s := Init(p, gen, alloc, q, port, nslot, cell).q.value;
    var lp := PilotSymbols(p, port, cell.cp);
    InitPositionsValid(p, gen, alloc, q, port, nslot, cell);
    InitPositionsUnique(p, gen, alloc, q, port, nslot, cell);
    assert s.nofPrb == cell.nofPrb && s.symbolsRef == Some(lp);
    forall i, j | AddrInjective(addr, cell.nofPrb, CpNsymb(p, cell.cp)) && 0 <= i < j < s.nofRefs
      ensures AddrOf(s, addr, i) != AddrOf(s, addr, j)
    {
      assert (RefAt(s, i).freqIdx, RefAt(s, i).timeIdx) != (RefAt(s, j).freqIdx, RefAt(s, j).timeIdx);
      assert RefAt(s, i).timeIdx < CpNsymb(p, cell.cp) && RefAt(s, j).timeIdx < CpNsymb(p, cell.cp);
    }
  }

  // ---------------------------------------------------------------------
  // Reuse and teardown

  /** `refsignal_init_LTEDL` clears the structure before filling it, so what
      it held before (a fresh one, a freed one, a stale one) does not matter. */
  lemma InitIgnoresPriorState(p: Platform, gen: Generator, alloc: Alloc, a: State, b: State,
                              port: nat, nslot: nat, cell: Cell)
    requires WellFormed(p) && GenWellFormed(gen)
    ensures Init(p, gen, alloc, Some(a), port, nslot, cell).status == Init(p, gen, alloc, Some(b), port, nslot, cell).status
    ensures InputsValid(p, Some(a), port, nslot, cell) ==>
      Init(p, gen, alloc, Some(a), port, nslot, cell) == Init(p, gen, alloc, Some(b), port, nslot, cell)
  {
  }

  /** `refsignal_free` twice is `refsignal_free` once, and a freed structure
      puts nothing into a slot. */
  lemma FreeIdempotent(s: State)
    ensures Free(Free(s)) == Free(s)
    ensures Readable(Free(s)) && Free(s).nofRefs == 0
  {
  }

  // ---------------------------------------------------------------------
  // A worked configuration

  /** Port 0, slot 0, six resource blocks, cell 0, normal prefix with seven
      symbols per slot: pilots on symbols 0 and 4, 24 of them, and on symbol
      0 the m-th pilot is at subcarrier 6m. */
  lemma SixPrbExample(p: Platform, gen: Generator, alloc: Alloc, q: Option<State>)
    requires WellFormed(p) && GenWellFormed(gen) && p.nsymbNormal == 7
    requires Init(p, gen, alloc, q, 0, 0, Cell(0, 6, Normal)).status == Success
    ensures var s := Init(p, gen, alloc, q, 0, 0, Cell(0, 6, Normal)).q.value;
      && s.symbolsRef == Some([0, 4])
      && s.nofRefs == 24
      && forall m :: 0 <= m < 12 ==> s.refs.value[m].Some? && s.refs.value[m].value.freqIdx == 6 * m
                                       && s.refs.value[m].value.timeIdx == 0
  {
    var cell := Cell(0, 6, Normal);
    InitLayout(p, gen, alloc, q, 0, 0, cell);
    forall m | 0 <= m < 12
      ensures FlatIdx(0, m, 12) == m
    {
    }
  }
}

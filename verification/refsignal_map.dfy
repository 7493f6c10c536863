/** Where the cell-specific reference signals go (3GPP TS 36.211 section
    6.10.1.2): the frequency shift `v` of an antenna port, the subcarrier
    `k` of the m-th pilot, the OFDM symbols that carry pilots, and the flat
    layout `l * (2 * nof_prb) + i` of the reference array. */
module RefsignalMap {
  import opened Lte

  /** `refsignal_v`: the frequency shift of port `port` in slot `ns` on OFDM
      symbol `symbolId`; -1 for a port outside 0..3. */
  function ShiftV(port: nat, ns: nat, symbolId: nat): (v: int)
    ensures v == -1 <==> port >= 4
    ensures port < 4 ==> v in {0, 3, 6}
    ensures port < 3 ==> v != 6
    ensures port < 2 ==> (v == 0 <==> ((port == 0) == (symbolId == 0)))
    ensures 2 <= port < 4 ==> (v - 3 * (port - 2)) / 3 == ns % 2
  {
    match port
    case 0 => if symbolId == 0 then 0 else 3
    case 1 => if symbolId == 0 then 3 else 0
    case 2 => 3 * (ns % 2)
    case 3 => 3 + 3 * (ns % 2)
    case _ => -1
  }

  /** The offset of `refsignal_k` inside a group of six subcarriers. In C,
      `v + (cell_id % 6)` adds an `int` to a `uint32_t`, so the sum is taken
      modulo 2^32 before the final `% 6`. */
  function ShiftResidue(v: int, cellId: nat): (r: nat)
    ensures r < 6
    ensures 0 <= v && v + 5 < U32 ==> r == (v + cellId % 6) % 6
  {
    ((v + cellId % 6) % U32) % 6
  }

  /** `refsignal_k`: the subcarrier of the m-th pilot of an OFDM symbol. The
      m-th pilot sits in the m-th group of six subcarriers, at the same
      offset for every m. */
  function SubcarrierK(m: nat, v: int, cellId: nat): (k: nat)
    ensures k / 6 == m
    ensures k % 6 == ShiftResidue(v, cellId)
  {
    6 * m + ShiftResidue(v, cellId)
  }

  /** The OFDM symbols of a slot that carry pilots for a port (`lp` in the
      source): the first and the third-from-last symbol for ports 0 and 1,
      the second symbol otherwise. */
  function PilotSymbols(p: Platform, port: nat, cp: Cp): (lp: seq<nat>)
    requires WellFormed(p)
    ensures |lp| == if port < 2 then 2 else 1
    ensures port < 2 ==> lp[0] == 0 && lp[1] + 3 == CpNsymb(p, cp)
    ensures port >= 2 ==> lp[0] == 1
    ensures forall a, b :: 0 <= a < b < |lp| ==> lp[a] < lp[b]
    ensures forall a :: 0 <= a < |lp| ==> lp[a] < CpNsymb(p, cp)
  {
    if port < 2 then [0, CpNsymb(p, cp) - 3] else [1]
  }

  /** The `idx(l, i)` macro: the position of pilot `i` of the l-th pilot
      symbol in the flat reference array. */
  function FlatIdx(l: nat, i: nat, perSymbol: nat): (j: nat)
    requires i < perSymbol
    ensures j / perSymbol == l && j % perSymbol == i
  {
    DivModOfSum(l, i, perSymbol);
    l * perSymbol + i
  }

  /** `l * n + i` with `i < n` splits back into quotient `l` and remainder `i`. */
  lemma DivModOfSum(l: nat, i: nat, n: nat)
    requires i < n
    ensures (l * n + i) / n == l && (l * n + i) % n == i
  {
    var j := l * n + i;
    var q, r := j / n, j % n;
    assert j == q * n + r;
    MulGap(q, l, n);
    MulGap(l, q, n);
  }

  /** A larger factor adds at least one more `n`. */
  lemma MulGap(a: int, b: int, n: nat)
    ensures a > b ==> a * n >= b * n + n
  {
    if a > b {
      MulAtLeast(a - b, n);
      assert (a - b) * n == a * n - b * n;
    }
  }

  lemma MulAtLeast(a: nat, n: nat)
    requires a >= 1
    ensures a * n >= n
  {
  }

  /** Every flat index below `count * perSymbol` is the index of exactly one
      (symbol, pilot) pair, and no pair lies outside that range. */
  lemma {:induction false} FlatIdxBijective(count: nat, perSymbol: nat)
    requires perSymbol > 0
    ensures forall l: nat, i: nat :: l < count && i < perSymbol ==> FlatIdx(l, i, perSymbol) < count * perSymbol
    ensures forall j :: 0 <= j < count * perSymbol ==>
      j / perSymbol < count && FlatIdx(j / perSymbol, j % perSymbol, perSymbol) == j
  {
    forall l: nat, i: nat | l < count && i < perSymbol
      ensures FlatIdx(l, i, perSymbol) < count * perSymbol
    {
      assert l + 1 <= count;
      MulMono(l + 1, count, perSymbol);
    }
    forall j | 0 <= j < count * perSymbol
      ensures j / perSymbol < count && FlatIdx(j / perSymbol, j % perSymbol, perSymbol) == j
    {
      QuotientBelow(j, count, perSymbol);
    }
  }

  /** An index below `count * perSymbol` has quotient below `count`. */
  lemma QuotientBelow(j: nat, count: nat, perSymbol: nat)
    requires perSymbol > 0 && j < count * perSymbol
    ensures j / perSymbol < count
  {
    var q := j / perSymbol;
    assert j == q * perSymbol + j % perSymbol;
    assert (q + 1) * perSymbol == q * perSymbol + perSymbol;
    MulGap(q + 1, count, perSymbol);
  }

  lemma MulMono(a: nat, b: nat, n: nat)
    requires a <= b
    ensures a * n <= b * n
  {
  }
}

# LTE downlink cell-specific reference signals, in Dafny

A model of `lte/phy/lib/ch_estimation/src/refsignal.c` from libLTE (srsLTE).
That file generates and places the cell-specific reference signals (pilots)
of the LTE downlink. It follows 3GPP TS 36.211 section 6.10.1.

- `refsignal_v` gives the frequency shift `v` of an antenna port.
- `refsignal_k` maps pilot `m` to subcarrier `k = 6m + (v + v_shift) mod 6`.
- `refsignal_init_LTEDL` chooses the pilot-carrying OFDM symbols of a port. It
  seeds the Gold sequence with `c_init`, turns bit pairs into QPSK values, and
  fills the flat pilot array `refs[l * 2 * nof_prb + i]`.
- `refsignal_put` writes the pilots into a slot buffer.
- `refsignal_free` releases the buffers and zeroes the structure.

Files:

- `lte.dfy` (module `Lte`): status codes, the cell and the platform constants.
  The constants come from headers that are not part of this model: MAX_PRB,
  MAX_PORTS, NSLOTS_X_FRAME, CP_NSYMB and `lte_cell_isvalid`. They are fields
  of a `Platform` value. `WellFormed` states what the model assumes of them:
  - a slot has at least four OFDM symbols;
  - `12 * MAX_PRB` fits an `int`;
  - a valid cell has at most MAX_PRB resource blocks.
- `refsignal_map.dfy` (module `RefsignalMap`): `v`, `k`, the pilot symbols
  `lp` and the `idx(l, i)` layout.
- `refsignal.dfy` (module `Refsignal`): the seed, the pilot values,
  `refsignal_init_LTEDL` and `refsignal_free`.
- `refsignal_put.dfy` (module `RefsignalPut`): `refsignal_put`.
- `refsignal_proofs.dfy` (module `RefsignalProofs`): lemmas that tie the
  operations together.

Modelling choices:

- A C null pointer is `None`, so both the structure and the slot buffer are
  `Option` values.
- The sequence generator `sequence_LTEPRS` is a function parameter
  `gen(c_init, length)`. It yields the bits or an error code, and is assumed
  to yield exactly `length` bits when it succeeds.
- The three allocations are an oracle `Alloc` that says which of them succeed.
- SAMPLE_IDX is a function parameter `addr(nof_prb, time_idx, freq_idx)`.
- Pilot values are kept multiplied by sqrt 2, so each component is `1 - 2 * bit`,
  that is +1 or -1.
- C's `uint32_t` arithmetic is written out as arithmetic modulo 2^32.
  - `c_init` is computed modulo 2^32.
  - In `refsignal_k`, the sum `v + (cell_id % 6)` adds an `int` to a
    `uint32_t`, so C computes it as an unsigned number. For `v = -1` (a port
    beyond 3) the sum wraps, and the result is still a valid offset below 6.
    The model keeps this wrap, so the band bound holds for every shift.

Behaviour of the code worth knowing, which the model keeps:

- The bit offset is `m' = i + MAX_PRB - nof_prb` (line 167), the offset
  `m' = m + N_RB^max - N_RB` of TS 36.211 section 6.10.1.2.
- Subcarrier indices lie in `[0, 12 * nof_prb)`: pilot `m` is in the m-th
  group of six subcarriers, for `m < 2 * nof_prb` (lines 71 and 130).
- A failed allocation is reported as `LIBLTE_ERROR_INVALID_INPUTS`, because
  `ret` still holds its initial value at the `goto` (lines 101 and 137-152).
  The cleanup at lines 180-187 then does nothing, and the buffers already
  allocated stay allocated. `Init` states this.
- A generator failure is returned with the generator's own code (lines
  159-161). Only the code `LIBLTE_ERROR` makes the cleanup call
  `refsignal_free` (lines 184-186). With any other code the half-built
  structure is returned.

## Model

| member | source | states |
|---|---|---|
| RefsignalMap.ShiftV | lte/phy/lib/ch_estimation/src/refsignal.c:43-68 | `v` is -1 exactly for ports 4 and up; ports 0-3 give 0, 3 or 6, and ports 0-2 never 6; for ports 0 and 1, `v` is 0 exactly when "port 0" and "symbol 0" agree; for ports 2 and 3, `(v - 3 * (port - 2)) / 3` is the slot parity `ns mod 2` |
| RefsignalMap.ShiftResidue | lte/phy/lib/ch_estimation/src/refsignal.c:70-72 | the in-group offset of `refsignal_k` is below 6 for every `v`, including the unsigned wrap of `v = -1`; for non-negative `v` it is `(v + id mod 6) mod 6` |
| RefsignalMap.SubcarrierK | lte/phy/lib/ch_estimation/src/refsignal.c:70-72 | subcarrier `k` of pilot `m` lies in the m-th group of six (`k / 6 == m`), at an offset `k mod 6` that does not depend on `m` |
| RefsignalMap.PilotSymbols | lte/phy/lib/ch_estimation/src/refsignal.c:122-129 | ports 0 and 1 use symbols 0 and `CP_NSYMB - 3`, other ports symbol 1; the list is strictly increasing and inside the slot |
| RefsignalMap.FlatIdx | lte/phy/lib/ch_estimation/src/refsignal.c:41 | `idx(l, i)` divided by `2 * nof_prb` gives back `l`, and the remainder gives back `i` |
| RefsignalMap.FlatIdxBijective | lte/phy/lib/ch_estimation/src/refsignal.c:130-132 | `idx` maps the (symbol, pilot) pairs onto `[0, nof_refs)`: every pair lands inside, and every index comes from its quotient and remainder |
| Refsignal.CpFlag | lte/phy/lib/ch_estimation/src/refsignal.c:116-120 | `N_cp` is 1 exactly for the normal cyclic prefix, else 0 |
| Refsignal.CInit | lte/phy/lib/ch_estimation/src/refsignal.c:157-158 | `c_init` is below 2^32 and congruent, modulo 2^32, to the seed formula of section 6.10.1.1 |
| Refsignal.BitOffset | lte/phy/lib/ch_estimation/src/refsignal.c:159-167 | `m'` lies in the window `[MAX_PRB - N, MAX_PRB + N)` at the middle of the maximum band, and both bits `2m'` and `2m'+1` are inside the `4 * MAX_PRB` bits requested |
| Refsignal.PilotValue | lte/phy/lib/ch_estimation/src/refsignal.c:170-171 | each component is +1 or -1, and the value gives back its bit pair (`bit == (1 - x) / 2`) |
| Refsignal.ExpectedRef | lte/phy/lib/ch_estimation/src/refsignal.c:166-175 | pilot `i` of symbol `l` sits on symbol `l`, in subcarrier group `i` at residue `(v + id) mod 6`, below `12 * nof_prb`, with components +1 or -1 that encode bits `2m'` and `2m'+1` of the sequence |
| Refsignal.SymbolRefs | lte/phy/lib/ch_estimation/src/refsignal.c:166-176 | one pilot symbol carries `2 * nof_prb` pilots; pilot `i` is on symbol `l`, in subcarrier group `i` at the port's offset, and encodes bits `2m'` and `2m'+1`; subcarriers strictly increase with `i` |
| Refsignal.WriteBlock | lte/phy/lib/ch_estimation/src/refsignal.c:166-176 | writing symbol `l`'s pilots puts pilot `i` at `idx(l, i)` and leaves every entry outside the block alone |
| Refsignal.GenFor | lte/phy/lib/ch_estimation/src/refsignal.c:157-159 | the generator is seeded with `c_init` for the symbol and asked for `4 * MAX_PRB` bits, which it delivers when it succeeds |
| Refsignal.FillFrom | lte/phy/lib/ch_estimation/src/refsignal.c:155-177 | the pilot-symbol loop completes exactly when every generator call succeeds; when it stops, it stops at the first failing call and its code is that call's code |
| Refsignal.InputsValid | lte/phy/lib/ch_estimation/src/refsignal.c:107-110 | accepted arguments include a non-null structure, and a cell that passes the check fits within MAX_PRB resource blocks |
| Refsignal.Init | lte/phy/lib/ch_estimation/src/refsignal.c:94-188 | rejected arguments leave the structure as it was; success holds exactly when the arguments are valid and every allocation and generator call succeeds, and then the structure has the configured shape; an allocation failure is reported as INVALID_INPUTS, with `nof_refs`, `nsymbols`, `voffset` and `nof_prb` set, the symbol list copied if it was allocated, and the pilot array sized if it was allocated; otherwise the first failing generator call's code is returned, with the structure released when that code is LIBLTE_ERROR and returned with its four counters, symbol list, sized pilot array and estimate buffer for any other code |
| Refsignal.Free | lte/phy/lib/ch_estimation/src/refsignal.c:190-201 | every buffer is released and every counter is zero |
| RefsignalPut.Put | lte/phy/lib/ch_estimation/src/refsignal.c:74-89 | a null structure or buffer gives INVALID_INPUTS and no change; otherwise the buffer keeps its length, cells no pilot addresses are unchanged, a cell holds the last pilot written there, and with distinct addresses every pilot reads back |
| RefsignalProofs.PortPairsDisjoint | lte/phy/lib/ch_estimation/src/refsignal.c:43-72 | on one OFDM symbol the pilots of ports 0 and 1 never share a subcarrier; nor do those of ports 2 and 3 |
| RefsignalProofs.ShiftPeriodic | lte/phy/lib/ch_estimation/src/refsignal.c:43-68 | the shift of every port repeats every two slots |
| RefsignalProofs.SubcarrierIncreasing | lte/phy/lib/ch_estimation/src/refsignal.c:70-72 | `k` is strictly increasing in `m` |
| RefsignalProofs.SubcarrierInBand | lte/phy/lib/ch_estimation/src/refsignal.c:70-72 | for `m < 2 * nof_prb`, `k < 12 * nof_prb` whatever the shift |
| RefsignalProofs.SeedInRange | lte/phy/lib/ch_estimation/src/refsignal.c:157-158 | within the TS 36.211 ranges (slot below 20, symbol below 7, cell id below 504), `c_init` does not wrap, fits 31 bits, and its low ten bits are `2 * id + N_cp` |
| RefsignalProofs.SeedSplit | lte/phy/lib/ch_estimation/src/refsignal.c:157-158 | the seed splits into `1024 * (7(ns+1)+l+1)(2id+1)` plus `2id + N_cp` |
| RefsignalProofs.SeedInjective | lte/phy/lib/ch_estimation/src/refsignal.c:157-158 | distinct (slot, symbol, cell id, prefix) give distinct seeds, for symbols below 7 and cell ids below 512 |
| RefsignalProofs.FillFromKeepsPrefix | lte/phy/lib/ch_estimation/src/refsignal.c:155-177 | the loop never changes the blocks of symbols before the one it starts at |
| RefsignalProofs.FillFromLayout | lte/phy/lib/ch_estimation/src/refsignal.c:155-177 | when the loop completes, `idx(l, i)` holds pilot `i` of symbol `lp[l]`, built from the bits generated with that symbol's seed |
| RefsignalProofs.InitShape | lte/phy/lib/ch_estimation/src/refsignal.c:122-149 | on success: `nsymbols` is 2 with `symbols_ref = [0, CP_NSYMB - 3]` for ports 0 and 1, and 1 with `[1]` otherwise; `nof_refs = 2 * nof_prb * nsymbols`; `voffset = id mod 6`; `nof_prb` copied; `refs` and `ch_est` sized `nof_refs` |
| RefsignalProofs.InitLayout | lte/phy/lib/ch_estimation/src/refsignal.c:155-176 | on success, every generator call succeeded, and entry `idx(l, i)` has `time_idx = lp[l]`, `freq_idx = refsignal_k(i, refsignal_v(port, ns, lp[l]), id)`, and a value from bits `2m'` and `2m'+1` of the sequence seeded for `lp[l]` |
| RefsignalProofs.InitEntry | lte/phy/lib/ch_estimation/src/refsignal.c:155-176 | on success, each entry `j < nof_refs` is `idx(l, i)` for the pair given by division, and holds that pair's pilot |
| RefsignalProofs.InitAt | lte/phy/lib/ch_estimation/src/refsignal.c:155-176 | on success, entry `idx(l, i)` exists and holds pilot `i` of symbol `lp[l]` |
| RefsignalProofs.PilotDetermined | lte/phy/lib/ch_estimation/src/refsignal.c:166-175 | the description of a pilot (symbol, subcarrier group and residue, bit encoding) fixes it completely |
| RefsignalProofs.ExpectedRefPosition | lte/phy/lib/ch_estimation/src/refsignal.c:166-176 | one pilot sits on its symbol, inside `12 * nof_prb` subcarriers, at residue `(v + voffset)` mod 6, with components +1 or -1 |
| RefsignalProofs.InitPositionsValid | lte/phy/lib/ch_estimation/src/refsignal.c:122-176 | on success, every pilot is written, its `time_idx` is in `symbols_ref`, its `freq_idx` is below `12 * nof_prb` at the port's residue, and its components are +1 or -1 |
| RefsignalProofs.InitPositionsUnique | lte/phy/lib/ch_estimation/src/refsignal.c:122-176 | on success, no two pilots share a (freq_idx, time_idx) pair |
| RefsignalProofs.InitAddressesDistinct | lte/phy/lib/ch_estimation/src/refsignal.c:80-84 | if SAMPLE_IDX is injective on the slot's grid (symbols below CP_NSYMB, subcarriers below `12 * nof_prb`), the pilots of a successful init go to distinct offsets, so by `Put`'s contract each reads back its own value |
| RefsignalProofs.RowMajorInjective | lte/phy/lib/ch_estimation/src/refsignal.c:83 | the row-major grid layout `t * 12 * nof_prb + f` meets the injectivity hypothesis of InitAddressesDistinct |
| RefsignalProofs.InitIgnoresPriorState | lte/phy/lib/ch_estimation/src/refsignal.c:107-113 | the structure's previous contents never affect the status, and never affect the result when the arguments are valid: the structure can be reused after a free |
| RefsignalProofs.FreeIdempotent | lte/phy/lib/ch_estimation/src/refsignal.c:190-201 | freeing twice equals freeing once, and a freed structure has no pilots to put |
| RefsignalProofs.SixPrbExample | lte/phy/lib/ch_estimation/src/refsignal.c:122-176 | for port 0, slot 0, 6 PRBs, cell 0 and a 7-symbol normal prefix: pilots on symbols 0 and 4, 24 of them, the m-th on symbol 0 at subcarrier 6m |

## Left out

- The `/ sqrt(2)` scaling and `cf_t` floating point (lines 170-171): pilot values are kept as integer pairs scaled by sqrt 2.
- `sequence_LTEPRS` and `sequence_free` (the Gold sequence of TS 36.211 section 7.2) are not part of this model; the generator is a parameter, assumed to return exactly the number of bits requested when it succeeds.
- `malloc`, `vec_malloc`, `free`, `perror`, `bzero` and the `goto` cleanup: allocation is an oracle, freeing is the reset to the empty structure, and nothing is said about memory reclaimed or leaked beyond which pointers are still set.
- The header constants and the cell check (MAX_PRB, MAX_PORTS, NSLOTS_X_FRAME, CP_NSYMB, CP_ISNORM, SAMPLE_IDX, `lte_cell_isvalid`) are not part of this model; they are parameters, constrained only by `WellFormed`.
- The contents of `ch_est`: it is only allocated here, so the model keeps its length.
- Concurrency and reentrancy: every operation is a pure function or a method on values, so repeated calls with the same arguments give the same result by construction.
- Refsignal.Free: takes a structure, not a pointer; the source dereferences `q` without a null check, so a null argument is outside the model.
- Refsignal.Init: after a generator failure whose code is not LIBLTE_ERROR, the contract gives `nof_refs`, `nsymbols`, `voffset`, `nof_prb`, the symbol list and the sizes of the buffers, but not which pilots of earlier symbols were already written.
- RefsignalPut.Put: the slot buffer holds abstract samples of the same integer-pair type as the pilots; what the other cells hold is not constrained.

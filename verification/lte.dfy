/** Shared LTE PHY types: status codes, the cell description and the
    platform constants that the reference-signal code takes from headers
    outside this model (maximum bandwidth, port and slot counts, symbols
    per slot, the cell validity check). */
module Lte {

  /** 2^32: C `uint32_t` arithmetic is arithmetic modulo this value. */
  const U32: nat := 0x1_0000_0000

  datatype Option<+T> = None | Some(value: T)

  /** The library's non-success return codes. `OtherError` stands for any
      other negative code an external collaborator may return. */
  datatype ErrorCode = Error | InvalidInputs | OtherError(code: int)

  datatype Status = Success | Failure(code: ErrorCode)

  /** Cyclic-prefix length class. */
  datatype Cp = Normal | Extended

  /** The part of `lte_cell_t` the reference signals read: physical cell
      identity, number of resource blocks and cyclic prefix. */
  datatype Cell = Cell(id: nat, nofPrb: nat, cp: Cp)

  /** Header constants and the validity predicate, as parameters:
      MAX_PRB, MAX_PORTS, NSLOTS_X_FRAME, CP_NSYMB for both prefixes and
      `lte_cell_isvalid`. */
  datatype Platform = Platform(
    maxPrb: nat,
    maxPorts: nat,
    slotsPerFrame: nat,
    nsymbNormal: nat,
    nsymbExtended: nat,
    cellValid: Cell -> bool)

  /** CP_ISNORM */
  predicate CpIsNorm(cp: Cp) {
    cp.Normal?
  }

  /** CP_NSYMB: OFDM symbols per slot for a cyclic prefix class. */
  function CpNsymb(p: Platform, cp: Cp): nat {
    if CpIsNorm(cp) then p.nsymbNormal else p.nsymbExtended
  }

  /** What the model assumes of the constants it cannot see: a slot has at
      least four symbols (so `CP_NSYMB - 3` neither wraps nor hits symbol 0)
      and fits a `uint32_t`, every subcarrier index fits an `int`, and a valid
      cell never exceeds the maximum bandwidth. */
  ghost predicate WellFormed(p: Platform) {
    && 4 <= p.nsymbNormal < U32
    && 4 <= p.nsymbExtended < U32
    && 12 * p.maxPrb < 0x8000_0000
    && (forall c :: p.cellValid(c) ==> c.nofPrb <= p.maxPrb)
  }
}

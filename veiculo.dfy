/**
 * The vehicle record shared by the ledger, the CSV snapshot and the
 * in-memory repository.
 *
 * Instants are counts of 100-nanosecond ticks, the unit of .NET's `DateTime`;
 * money is a whole number of cents; the `Guid` identifier is an opaque number.
 */
module Veiculos {

  import opened Options

  const TicksPerSecond: nat := 10_000_000
  const TicksPerHour: nat := 3600 * TicksPerSecond

  datatype Veiculo = Veiculo(
    id: nat,
    placa: string,
    modelo: string,
    entradaUtc: nat,
    saidaUtc: Option<nat>,   // None while the vehicle is still parked
    valorPago: int,          // cents
    pago: bool)

  /** An open record: the vehicle has not left yet. */
  predicate IsOpen(v: Veiculo)
  {
    v.saidaUtc.None?
  }

  /** The open record of exactly this plate (case-sensitive comparison). */
  predicate IsOpenFor(v: Veiculo, placa: string)
  {
    v.placa == placa && v.saidaUtc.None?
  }

}

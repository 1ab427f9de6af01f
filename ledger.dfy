/**
 * The parking ledger: a list of vehicle records, the count of free slots,
 * entry (refusing a plate that is already parked) and exit (closing the
 * plate's first open record and billing every started hour).
 *
 * The clock is a parameter: `agora` is the instant `DateTime.UtcNow` would give.
 */
module Ledger {

  import opened Options
  import opened Veiculos

  // ---------------------------------------------------------------------------
  // Billing

  /**
   * Whole started hours in a stay of `d` ticks, as `Math.Ceiling(TotalHours)`:
   * the least whole number of hours that covers `d`, for negative durations too.
   */
  function BilledHours(d: int): (h: int)
    ensures (h - 1) * TicksPerHour < d <= h * TicksPerHour
  {
    var q := (-d) / TicksPerHour;
    assert q * TicksPerHour <= -d < (q + 1) * TicksPerHour;
    -q
  }

  /**
   * The amount charged at exit: started hours times the hourly price (in cents).
   * At a positive price, a stay costs something exactly when it is positive.
   */
  function Fee(entrada: nat, saida: nat, precoHora: int): (r: int)
    ensures 0 < precoHora ==> (0 < r <==> entrada < saida)
    ensures 0 <= precoHora && entrada <= saida ==> 0 <= r
  {
    var h := BilledHours(saida - entrada);
    assert 0 < h <==> entrada < saida;
    assert 0 < precoHora ==> (0 < h * precoHora <==> 0 < h);
    assert 0 <= h && 0 <= precoHora ==> 0 <= h * precoHora;
    h * precoHora
  }

  /** A stay of one minute is billed as one full hour. */
  lemma OneMinuteBillsOneHour(entrada: nat, precoHora: int)
    ensures Fee(entrada, entrada + 60 * TicksPerSecond, precoHora) == precoHora
  {
    assert BilledHours(60 * TicksPerSecond) == 1;
  }

  /** A stay of exactly k hours is billed k hours. */
  lemma WholeHoursBillExactly(entrada: nat, k: nat, precoHora: int)
    ensures Fee(entrada, entrada + k * TicksPerHour, precoHora) == k * precoHora
  {
    assert BilledHours(k * TicksPerHour) == k;
  }

  /** Any part of an hour begun after k whole hours is billed as a full hour. */
  lemma StartedHourBillsInFull(entrada: nat, k: nat, extra: nat, precoHora: int)
    requires 0 < extra <= TicksPerHour
    ensures Fee(entrada, entrada + k * TicksPerHour + extra, precoHora) == (k + 1) * precoHora
  {
    assert BilledHours(k * TicksPerHour + extra) == k + 1;
  }

  lemma BilledHoursMonotone(d1: int, d2: int)
    requires d1 <= d2
    ensures BilledHours(d1) <= BilledHours(d2)
  {
    var h1, h2 := BilledHours(d1), BilledHours(d2);
    assert (h1 - 1) * TicksPerHour < h2 * TicksPerHour;
  }

  /** With a non-negative price, leaving later never costs less. */
  lemma FeeMonotone(entrada: nat, saida1: nat, saida2: nat, precoHora: int)
    requires 0 <= precoHora && saida1 <= saida2
    ensures Fee(entrada, saida1, precoHora) <= Fee(entrada, saida2, precoHora)
  {
    BilledHoursMonotone(saida1 - entrada, saida2 - entrada);
    var h1, h2 := BilledHours(saida1 - entrada), BilledHours(saida2 - entrada);
    assert h1 * precoHora <= h2 * precoHora by {
      assert (h2 - h1) * precoHora >= 0;
    }
  }

  /** An exit clock less than one hour behind the entry bills nothing. */
  lemma ShortClockSkewBillsZero(entrada: nat, saida: nat, precoHora: int)
    requires saida <= entrada < saida + TicksPerHour
    ensures Fee(entrada, saida, precoHora) == 0
  {
    assert BilledHours(saida - entrada) == 0;
  }

  /** No clamp at zero: an exit clock two hours behind the entry bills minus two hours. */
  lemma LongClockSkewBillsNegative()
    ensures Fee(2 * TicksPerHour, 0, 500) == -1000
  {
    assert BilledHours(-2 * TicksPerHour) == -2;
  }

  // ---------------------------------------------------------------------------
  // The record list

  /** The record after a successful exit at `agora`. */
  function Close(v: Veiculo, agora: nat, precoHora: int): (r: Veiculo)
    ensures r.id == v.id && r.placa == v.placa && r.modelo == v.modelo && r.entradaUtc == v.entradaUtc
    ensures !IsOpen(r) && r.saidaUtc == Some(agora) && r.pago
    ensures r.valorPago == Fee(v.entradaUtc, agora, precoHora)
  {
    v.(saidaUtc := Some(agora), valorPago := Fee(v.entradaUtc, agora, precoHora), pago := true)
  }

  /** The number of records that have no exit time. */
  function CountOpen(vs: seq<Veiculo>): (n: nat)
    ensures n <= |vs|
    ensures n == 0 <==> forall i :: 0 <= i < |vs| ==> !IsOpen(vs[i])
    ensures n == |vs| <==> forall i :: 0 <= i < |vs| ==> IsOpen(vs[i])
    decreases |vs|
  {
    if |vs| == 0 then 0
    else
      var init := vs[..|vs| - 1];
      assert forall i :: 0 <= i < |init| ==> init[i] == vs[i];
      CountOpen(init) + (if IsOpen(vs[|vs| - 1]) then 1 else 0)
  }

  predicate HasOpen(vs: seq<Veiculo>, placa: string)
  {
    exists i :: 0 <= i < |vs| && IsOpenFor(vs[i], placa)
  }

  /** The index of the first record with exactly this plate and no exit time, if any. */
  function FirstOpen(vs: seq<Veiculo>, placa: string): (r: Option<nat>)
    ensures r.None? <==> !HasOpen(vs, placa)
    ensures r.Some? ==> r.value < |vs| && IsOpenFor(vs[r.value], placa)
    ensures r.Some? ==> forall j :: 0 <= j < r.value ==> !IsOpenFor(vs[j], placa)
    decreases |vs|
  {
    if |vs| == 0 then None
    else if IsOpenFor(vs[0], placa) then Some(0)
    else
      match FirstOpen(vs[1..], placa)
      case None =>
        assert forall i :: 1 <= i < |vs| ==> vs[i] == vs[1..][i - 1];
        None
      case Some(k) =>
        assert forall j :: 1 <= j < k + 1 ==> vs[j] == vs[1..][j - 1];
        Some(k + 1)
  }

  /** At most one open record per plate. */
  predicate UniqueOpen(vs: seq<Veiculo>)
  {
    forall i, j :: 0 <= i < j < |vs| && IsOpen(vs[i]) && IsOpen(vs[j]) ==> vs[i].placa != vs[j].placa
  }

  lemma CountOpenAppend(vs: seq<Veiculo>, v: Veiculo)
    ensures CountOpen(vs + [v]) == CountOpen(vs) + (if IsOpen(v) then 1 else 0)
  {
    assert (vs + [v])[..|vs|] == vs;
  }

  /** Closing one open record frees exactly one slot. */
  lemma {:induction false} CountOpenAfterClose(vs: seq<Veiculo>, i: nat, w: Veiculo)
    requires i < |vs| && IsOpen(vs[i]) && !IsOpen(w)
    ensures CountOpen(vs[i := w]) == CountOpen(vs) - 1
    decreases |vs|
  {
    var n := |vs| - 1;
    var ws := vs[i := w];
    if i == n {
      assert ws[..n] == vs[..n];
    } else {
      assert ws[..n] == vs[..n][i := w];
      CountOpenAfterClose(vs[..n], i, w);
    }
  }

  /** Appending a record whose plate has no open record keeps plates unique. */
  lemma EntryKeepsUnique(vs: seq<Veiculo>, v: Veiculo)
    requires UniqueOpen(vs) && !HasOpen(vs, v.placa)
    ensures UniqueOpen(vs + [v])
  {
    var ws := vs + [v];
    forall i, j | 0 <= i < j < |ws| && IsOpen(ws[i]) && IsOpen(ws[j])
      ensures ws[i].placa != ws[j].placa
    {
      if j == |vs| {
        assert !IsOpenFor(vs[i], v.placa);
      }
    }
  }

  /** Closing a record never creates a second open record. */
  lemma CloseKeepsUnique(vs: seq<Veiculo>, i: nat, agora: nat, precoHora: int)
    requires UniqueOpen(vs) && i < |vs|
    ensures UniqueOpen(vs[i := Close(vs[i], agora, precoHora)])
  {
  }

  /** With unique plates, once a plate's open record is closed it has no open record left. */
  lemma SecondExitFindsNothing(vs: seq<Veiculo>, placa: string, agora: nat, precoHora: int)
    requires UniqueOpen(vs) && FirstOpen(vs, placa).Some?
    ensures FirstOpen(vs[FirstOpen(vs, placa).value := Close(vs[FirstOpen(vs, placa).value], agora, precoHora)], placa).None?
  {
    var i := FirstOpen(vs, placa).value;
    var ws := vs[i := Close(vs[i], agora, precoHora)];
    forall j | 0 <= j < |ws| ensures !IsOpenFor(ws[j], placa) {
      if j != i {
        assert ws[j] == vs[j] && IsOpenFor(vs[i], placa);
      }
    }
  }

  /** Without unique plates (a list loaded from a file may break it) the same plate can exit twice. */
  lemma DuplicateOpenExitsTwice(v: Veiculo, agora: nat, precoHora: int)
    requires IsOpen(v)
    ensures var vs := [v, v];
      FirstOpen(vs, v.placa) == Some(0) &&
      FirstOpen(vs[0 := Close(v, agora, precoHora)], v.placa) == Some(1)
  {
    var vs := [v, v];
    assert IsOpenFor(vs[0], v.placa);
    var ws := vs[0 := Close(v, agora, precoHora)];
    assert !IsOpenFor(ws[0], v.placa) && IsOpenFor(ws[1], v.placa);
  }

  // ---------------------------------------------------------------------------
  // The ledger object

  class Estacionamento {
    /** The records, open and closed, in entry order. */
    var veiculos: seq<Veiculo>
    const totalVagas: int
    /** The hourly price, in cents. */
    const precoHora: int

    constructor (totalVagas: int, precoHora: int)
      ensures veiculos == [] && this.totalVagas == totalVagas && this.precoHora == precoHora
    {
      this.totalVagas := totalVagas;
      this.precoHora := precoHora;
      veiculos := [];
    }

    /** The constructor's default arguments: 20 slots at 5.00 per hour. */
    constructor WithDefaults()
      ensures veiculos == [] && totalVagas == 20 && precoHora == 500
    {
      totalVagas := 20;
      precoHora := 500;
      veiculos := [];
    }

    /** Index of the first open record with exactly this plate, if any. */
    method FindOpen(placa: string) returns (r: Option<nat>)
      ensures r == FirstOpen(veiculos, placa)
    {
      var i := 0;
      while i < |veiculos|
        invariant 0 <= i <= |veiculos|
        invariant forall j :: 0 <= j < i ==> !IsOpenFor(veiculos[j], placa)
      {
        if IsOpenFor(veiculos[i], placa) {
          return Some(i);
        }
        i := i + 1;
      }
      return None;
    }

    /** Free slots: the capacity minus the open records. Nothing stops it going negative. */
    method VagasDisponiveis() returns (n: int)
      ensures n == totalVagas - CountOpen(veiculos)
    {
      var abertos := 0;
      var i := 0;
      while i < |veiculos|
        invariant 0 <= i <= |veiculos|
        invariant abertos == CountOpen(veiculos[..i])
      {
        assert veiculos[..i + 1][..i] == veiculos[..i];
        if IsOpen(veiculos[i]) {
          abertos := abertos + 1;
        }
        i := i + 1;
      }
      assert veiculos[..i] == veiculos;
      n := totalVagas - abertos;
    }

    /**
     * Appends `veiculo` unless its plate already has an open record, in which
     * case the source throws; here `ok` is false and nothing changes.
     * There is no capacity check.
     */
    method RegistrarEntrada(veiculo: Veiculo) returns (ok: bool)
      modifies this
      ensures ok == !HasOpen(old(veiculos), veiculo.placa)
      ensures veiculos == if ok then old(veiculos) + [veiculo] else old(veiculos)
      ensures UniqueOpen(old(veiculos)) ==> UniqueOpen(veiculos)
      ensures CountOpen(veiculos) == CountOpen(old(veiculos)) + (if ok && IsOpen(veiculo) then 1 else 0)
    {
      var existente := FindOpen(veiculo.placa);
      if existente.Some? {
        return false;
      }
      if UniqueOpen(veiculos) {
        EntryKeepsUnique(veiculos, veiculo);
      }
      CountOpenAppend(veiculos, veiculo);
      veiculos := veiculos + [veiculo];
      ok := true;
    }

    /**
     * Closes the first open record of `placa` at `agora` and returns the
     * amount billed; with no open record, returns (false, 0) and changes nothing.
     */
    method RegistrarSaida(placa: string, agora: nat) returns (sucesso: bool, valorPago: int)
      modifies this
      ensures sucesso == HasOpen(old(veiculos), placa)
      ensures match FirstOpen(old(veiculos), placa)
        case None => valorPago == 0 && veiculos == old(veiculos)
        case Some(i) =>
          veiculos == old(veiculos)[i := Close(old(veiculos)[i], agora, precoHora)] &&
          valorPago == veiculos[i].valorPago
      ensures |veiculos| == |old(veiculos)|
      ensures UniqueOpen(old(veiculos)) ==> UniqueOpen(veiculos)
      ensures CountOpen(veiculos) == CountOpen(old(veiculos)) - (if sucesso then 1 else 0)
    {
      var encontrado := FindOpen(placa);
      if encontrado.None? {
        return false, 0;
      }
      var i := encontrado.value;
      var fechado := Close(veiculos[i], agora, precoHora);
      if UniqueOpen(veiculos) {
        CloseKeepsUnique(veiculos, i, agora, precoHora);
      }
      CountOpenAfterClose(veiculos, i, fechado);
      veiculos := veiculos[i := fechado];
      sucesso, valorPago := true, fechado.valorPago;
    }
  }

  /** With unique plates, a second exit of the same plate right after the first fails. */
  method ExitTwice(e: Estacionamento, placa: string, agora1: nat, agora2: nat)
    returns (primeira: bool, segunda: bool, valor2: int)
    requires UniqueOpen(e.veiculos) && HasOpen(e.veiculos, placa)
    modifies e
    ensures primeira && !segunda && valor2 == 0
  {
    ghost var antes := e.veiculos;
    var v1;
    primeira, v1 := e.RegistrarSaida(placa, agora1);
    SecondExitFindsNothing(antes, placa, agora1, e.precoHora);
    segunda, valor2 := e.RegistrarSaida(placa, agora2);
  }

  /** Entries are not limited by the capacity: two cars in a one-slot lot leave -1 free slots. */
  method Overbooking(a: Veiculo, b: Veiculo) returns (livres: int)
    requires IsOpen(a) && IsOpen(b) && a.placa != b.placa
    ensures livres == -1
  {
    var e := new Estacionamento(1, 500);
    var ok1 := e.RegistrarEntrada(a);
    assert HasOpen([], a.placa) == false;
    assert e.veiculos == [a];
    assert !HasOpen([a], b.placa);
    var ok2 := e.RegistrarEntrada(b);
    livres := e.VagasDisponiveis();
  }

}

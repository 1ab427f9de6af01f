/**
 * The in-memory repository: the vehicles now in the yard, keyed by the
 * upper-cased plate, and the history of every vehicle ever added.
 *
 * The concurrent dictionary becomes a map and the concurrent bag a multiset:
 * operations are sequential and the history has no order.
 */
module InMemoryRepository {

  import opened Options
  import opened Text
  import opened Veiculos

  /**
   * Every key is the upper-cased plate of the vehicle stored under it, and
   * every vehicle in the yard is also in the history.
   */
  ghost predicate YardInHistory(atuais: map<string, Veiculo>, historico: multiset<Veiculo>)
  {
    forall k :: k in atuais ==> Upper(atuais[k].placa) == k && atuais[k] in historico
  }

  /** There are never more vehicles in the yard than records in the history. */
  lemma {:induction false} YardNoLargerThanHistory(atuais: map<string, Veiculo>, historico: multiset<Veiculo>)
    requires YardInHistory(atuais, historico)
    ensures |atuais| <= |historico|
    decreases |atuais|
  {
    if |atuais| > 0 {
      var k :| k in atuais;
      var v := atuais[k];
      var restAtuais := atuais - {k};
      var restHistorico := historico - multiset{v};
      forall k' | k' in restAtuais
        ensures Upper(restAtuais[k'].placa) == k' && restAtuais[k'] in restHistorico
      {
        assert restAtuais[k'] == atuais[k'] && atuais[k'] != v;
      }
      YardNoLargerThanHistory(restAtuais, restHistorico);
      assert |restAtuais| == |atuais| - 1;
    }
  }

  class InMemoryEstacionamentoRepository {
    var atuais: map<string, Veiculo>
    var historico: multiset<Veiculo>

    ghost predicate Valid()
      reads this
    {
      YardInHistory(atuais, historico)
    }

    constructor ()
      ensures Valid() && atuais == map[] && historico == multiset{}
    {
      atuais := map[];
      historico := multiset{};
    }

    /** Stores the vehicle under its upper-cased plate (replacing any earlier one) and records it in the history. */
    method AddEntrada(veiculo: Veiculo)
      requires Valid()
      modifies this
      ensures Valid()
      ensures atuais == old(atuais)[Upper(veiculo.placa) := veiculo]
      ensures historico == old(historico) + multiset{veiculo}
      ensures |atuais| == |old(atuais)| + (if Upper(veiculo.placa) in old(atuais) then 0 else 1)
      ensures |historico| == |old(historico)| + 1
    {
      var key := Upper(veiculo.placa);
      atuais := atuais[key := veiculo];
      historico := historico + multiset{veiculo};
    }

    /**
     * The vehicle in the yard under the plate's key; otherwise some history
     * record whose plate matches ignoring case, or None when there is none.
     */
    method ObterVeiculoPorPlaca(placa: string) returns (r: Option<Veiculo>)
      requires Valid()
      ensures Upper(placa) in atuais ==> r == Some(atuais[Upper(placa)])
      ensures Upper(placa) !in atuais ==>
        (r.Some? <==> exists x :: x in historico && EqualsIgnoreCase(x.placa, placa))
      ensures r.Some? ==> r.value in historico && EqualsIgnoreCase(r.value.placa, placa)
    {
      var key := Upper(placa);
      if key in atuais {
        r := Some(atuais[key]);
      } else if x :| x in historico && EqualsIgnoreCase(x.placa, placa) {
        r := Some(x);
      } else {
        r := None;
      }
    }

    /** Takes the plate's key out of the yard; the history keeps the record. */
    method RegistrarSaida(veiculo: Veiculo)
      requires Valid()
      modifies this
      ensures Valid()
      ensures atuais == old(atuais) - {Upper(veiculo.placa)}
      ensures historico == old(historico)
    {
      var key := Upper(veiculo.placa);
      atuais := atuais - {key};
    }

    /** Every record ever added, in no particular order. */
    method ListarTodos() returns (todos: seq<Veiculo>)
      ensures multiset(todos) == historico
    {
      todos := [];
      var resto := historico;
      while resto != multiset{}
        invariant multiset(todos) + resto == historico
        decreases |resto|
      {
        var x :| x in resto;
        todos := todos + [x];
        resto := resto - multiset{x};
      }
    }

    method ContarAtuais() returns (n: nat)
      requires Valid()
      ensures n == |atuais|
      ensures n <= |historico|
    {
      n := |atuais|;
      YardNoLargerThanHistory(atuais, historico);
    }

    method ExisteVeiculoNoPatio(placa: string) returns (existe: bool)
      ensures existe == (Upper(placa) in atuais)
    {
      existe := Upper(placa) in atuais;
    }
  }

  /** Right after an entry, the plate is in the yard and looks up to that very record. */
  method EntryIsVisible(repo: InMemoryEstacionamentoRepository, veiculo: Veiculo)
    returns (existe: bool, encontrado: Option<Veiculo>)
    requires repo.Valid()
    modifies repo
    ensures existe && encontrado == Some(veiculo)
  {
    repo.AddEntrada(veiculo);
    existe := repo.ExisteVeiculoNoPatio(veiculo.placa);
    encontrado := repo.ObterVeiculoPorPlaca(veiculo.placa);
  }

  /** After an exit the plate is no longer in the yard, under any letter case. */
  method ExitIsVisible(repo: InMemoryEstacionamentoRepository, veiculo: Veiculo, placa: string)
    returns (existe: bool)
    requires repo.Valid() && EqualsIgnoreCase(placa, veiculo.placa)
    modifies repo
    ensures !existe
    ensures repo.historico == old(repo.historico)
  {
    repo.RegistrarSaida(veiculo);
    existe := repo.ExisteVeiculoNoPatio(placa);
  }

}

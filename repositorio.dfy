/**
 * The CSV snapshot of the ledger's record list: `Salvar` renders the records
 * as lines under a header, `Carregar` reads lines back into records.
 *
 * A file is its sequence of lines. Field encodings: the identifier as
 * decimal digits, each instant as its whole seconds in decimal (the written
 * text keeps no sub-second part), money as signed decimal cents, the paid
 * flag as `True`/`False`.
 */
module CsvRepositorio {

  import opened Options
  import opened Text
  import opened Numerals
  import opened Veiculos

  /** The column names; the header line is "Id,Placa,Modelo,EntradaUtc,SaidaUtc,ValorPago,Pago". */
  const Columns: seq<string> := ["Id", "Placa", "Modelo", "EntradaUtc", "SaidaUtc", "ValorPago", "Pago"]
  const Header: string := Join(Columns, ',')

  lemma HeaderShape()
    ensures StartsWith(Header, "Id,")
    ensures Split(Header, ',') == Columns
  {
    assert Columns[0] == "Id";
    assert Header == "Id" + [','] + Join(Columns[1..], ',');
    assert Header[..3] == "Id,";
    SplitJoin(Columns, ',');
  }

  // ---------------------------------------------------------------------------
  // Fields

  function EncodeBool(b: bool): string
  {
    if b then "True" else "False"
  }

  /** `bool.Parse`: "true" or "false" in any letter case. */
  function ParseBool(s: string): (r: Option<bool>)
    ensures r == Some(true) <==> EqualsIgnoreCase(s, "True")
    ensures r == Some(false) <==> EqualsIgnoreCase(s, "False")
  {
    if Upper(s) == "TRUE" then Some(true)
    else if Upper(s) == "FALSE" then Some(false)
    else None
  }

  /** An instant as it is written: its whole seconds. */
  function EncodeInstant(t: nat): string
  {
    EncodeNat(t / TicksPerSecond)
  }

  function ParseInstant(s: string): Option<nat>
  {
    match ParseNat(s)
    case Some(n) => Some(n * TicksPerSecond)
    case None => None
  }

  /** The instant an instant becomes once written and read back: cut to the whole second. */
  function WholeSecond(t: nat): (w: nat)
    ensures w <= t < w + TicksPerSecond
    ensures w % TicksPerSecond == 0
  {
    t / TicksPerSecond * TicksPerSecond
  }

  lemma ParseEncodeInstant(t: nat)
    ensures ParseInstant(EncodeInstant(t)) == Some(WholeSecond(t))
  {
    ParseEncodeNat(t / TicksPerSecond);
  }

  /**
   * The seven fields of a record, in column order. Plate and model are written
   * as they are; the other five columns never contain a comma.
   */
  function Fields(v: Veiculo): (f: seq<string>)
    ensures |f| == 7 && f[1] == v.placa && f[2] == v.modelo
    ensures forall k :: 0 <= k < 7 && k != 1 && k != 2 ==> ',' !in f[k]
  {
    assert forall k :: 0 <= k < |EncodeInt(v.valorPago)| ==> EncodeInt(v.valorPago)[k] != ',';
    [ EncodeNat(v.id), v.placa, v.modelo, EncodeInstant(v.entradaUtc),
      if v.saidaUtc.None? then "" else EncodeInstant(v.saidaUtc.value),
      EncodeInt(v.valorPago), EncodeBool(v.pago) ]
  }

  /** The line of a record; a record without commas in its text splits back into its fields. */
  function FormatLine(v: Veiculo): (linha: string)
    ensures Writable(v) ==> Split(linha, ',') == Fields(v)
  {
    if Writable(v) then
      SplitJoin(Fields(v), ',');
      Join(Fields(v), ',')
    else
      Join(Fields(v), ',')
  }

  /** An open record is written with an empty exit column, a closed one with a non-empty one. */
  lemma ExitColumnEmptyIffOpen(v: Veiculo)
    ensures Fields(v)[4] == "" <==> IsOpen(v)
  {
  }

  /**
   * Builds a record from the first seven fields; None when a field does not
   * parse (where the source's `Guid.Parse`, `DateTime.Parse`, `decimal.Parse`
   * or `bool.Parse` throws). An empty exit column means "still parked".
   */
  function ParseRecord(p: seq<string>): (r: Option<Veiculo>)
    requires |p| >= 7
    ensures r.Some? <==>
      && ParseNat(p[0]).Some? && ParseInstant(p[3]).Some?
      && (p[4] == "" || ParseInstant(p[4]).Some?)
      && ParseInt(p[5]).Some? && ParseBool(p[6]).Some?
    ensures r.Some? ==> r.value.placa == p[1] && r.value.modelo == p[2]
    ensures r.Some? ==> (r.value.saidaUtc.None? <==> p[4] == "")
    ensures r.Some? ==>
      && r.value.id == ParseNat(p[0]).value
      && r.value.entradaUtc == ParseInstant(p[3]).value
      && (p[4] != "" ==> r.value.saidaUtc == ParseInstant(p[4]))
      && r.value.valorPago == ParseInt(p[5]).value
      && r.value.pago == ParseBool(p[6]).value
  {
    var saida: Option<Option<nat>> :=
      if p[4] == "" then Some(None)
      else match ParseInstant(p[4]) case Some(t) => Some(Some(t)) case None => None;
    match (ParseNat(p[0]), ParseInstant(p[3]), saida, ParseInt(p[5]), ParseBool(p[6]))
    case (Some(id), Some(entrada), Some(s), Some(valor), Some(pago)) =>
      Some(Veiculo(id, p[1], p[2], entrada, s, valor, pago))
    case _ => None
  }

  // ---------------------------------------------------------------------------
  // Writing

  /** The file `Salvar` writes: the header, then one line per record in list order. */
  function Snapshot(vs: seq<Veiculo>): seq<string>
  {
    [Header] + Rows(vs)
  }

  /** One line per record, in list order. */
  function Rows(vs: seq<Veiculo>): (r: seq<string>)
    ensures |r| == |vs|
    ensures forall k :: 0 <= k < |vs| ==> r[k] == FormatLine(vs[k])
    decreases |vs|
  {
    if |vs| == 0 then [] else [FormatLine(vs[0])] + Rows(vs[1..])
  }

  method Salvar(veiculos: seq<Veiculo>) returns (linhas: seq<string>)
    ensures |linhas| == |veiculos| + 1 && linhas[0] == Header
    ensures forall k :: 0 <= k < |veiculos| ==> linhas[k + 1] == FormatLine(veiculos[k])
    ensures linhas == Snapshot(veiculos)
  {
    linhas := [Header];
    var i := 0;
    while i < |veiculos|
      invariant 0 <= i <= |veiculos|
      invariant |linhas| == i + 1 && linhas[0] == Header
      invariant forall k :: 0 <= k < i ==> linhas[k + 1] == FormatLine(veiculos[k])
    {
      linhas := linhas + [FormatLine(veiculos[i])];
      i := i + 1;
    }
    assert linhas == [Header] + linhas[1..];
    assert linhas[1..] == Rows(veiculos);
  }

  // ---------------------------------------------------------------------------
  // Reading

  /** What the reading loop does with one line. */
  datatype LineKind =
    | HeaderLine          // skipped; no further header is recognised
    | BlankLine           // skipped
    | ShortLine           // fewer than seven fields: skipped
    | DataLine(v: Veiculo)
    | BadLine             // a field does not parse: reading stops

  /**
   * `primeiraLinha` is true while no header line has been skipped yet. A line
   * is a header only while that flag is set; otherwise a non-blank line with
   * at least seven fields is read as the parse of those fields.
   */
  function Classify(linha: string, primeiraLinha: bool): (k: LineKind)
    ensures k == HeaderLine <==> primeiraLinha && StartsWith(linha, "Id,")
    ensures k == BlankLine ==> IsBlank(linha)
    ensures k == ShortLine ==> !IsBlank(linha) && |Split(linha, ',')| < 7
    ensures k.DataLine? || k == BadLine ==> !IsBlank(linha) && |Split(linha, ',')| >= 7
    ensures k.DataLine? ==> ParseRecord(Split(linha, ',')) == Some(k.v)
    ensures k == BadLine ==> ParseRecord(Split(linha, ',')).None?
  {
    if primeiraLinha && StartsWith(linha, "Id,") then HeaderLine
    else if IsBlank(linha) then BlankLine
    else
      var partes := Split(linha, ',');
      if |partes| < 7 then ShortLine
      else match ParseRecord(partes)
        case Some(v) => DataLine(v)
        case None => BadLine
  }

  /** The records read from `linhas`, in file order, stopping at the first bad line. */
  function LoadFrom(linhas: seq<string>, primeiraLinha: bool): (r: seq<Veiculo>)
    ensures |r| <= |linhas|
    decreases |linhas|
  {
    if |linhas| == 0 then []
    else match Classify(linhas[0], primeiraLinha)
      case HeaderLine => LoadFrom(linhas[1..], false)
      case BlankLine => LoadFrom(linhas[1..], primeiraLinha)
      case ShortLine => LoadFrom(linhas[1..], primeiraLinha)
      case DataLine(v) => [v] + LoadFrom(linhas[1..], primeiraLinha)
      case BadLine => []
  }

  function Load(linhas: seq<string>): seq<Veiculo>
  {
    LoadFrom(linhas, true)
  }

  method Carregar(linhas: seq<string>) returns (lista: seq<Veiculo>)
    ensures lista == Load(linhas)
  {
    lista := [];
    var primeiraLinha := true;
    var i := 0;
    while i < |linhas|
      invariant 0 <= i <= |linhas|
      invariant lista + LoadFrom(linhas[i..], primeiraLinha) == Load(linhas)
    {
      assert linhas[i..][1..] == linhas[i + 1..];
      match Classify(linhas[i], primeiraLinha) {
        case HeaderLine =>
          primeiraLinha := false;
        case BlankLine =>
        case ShortLine =>
        case DataLine(v) =>
          lista := lista + [v];
        case BadLine =>
          return;
      }
      i := i + 1;
    }
  }

  // ---------------------------------------------------------------------------
  // Reading, as a filter followed by a parse that stops at the first failure

  /** The fields of the lines that are neither a skipped header, blank, nor short. */
  function DataFields(linhas: seq<string>, primeiraLinha: bool): (r: seq<seq<string>>)
    ensures |r| <= |linhas|
    ensures forall k :: 0 <= k < |r| ==> |r[k]| >= 7
    decreases |linhas|
  {
    if |linhas| == 0 then []
    else match Classify(linhas[0], primeiraLinha)
      case HeaderLine => DataFields(linhas[1..], false)
      case BlankLine => DataFields(linhas[1..], primeiraLinha)
      case ShortLine => DataFields(linhas[1..], primeiraLinha)
      case _ => [Split(linhas[0], ',')] + DataFields(linhas[1..], primeiraLinha)
  }

  /** Parses field lists in order until the first one that fails. */
  function ParseAll(ps: seq<seq<string>>): (r: seq<Veiculo>)
    requires forall k :: 0 <= k < |ps| ==> |ps[k]| >= 7
    ensures |r| <= |ps|
    ensures forall k :: 0 <= k < |r| ==> ParseRecord(ps[k]) == Some(r[k])
    ensures |r| < |ps| ==> ParseRecord(ps[|r|]).None?
    decreases |ps|
  {
    if |ps| == 0 then []
    else match ParseRecord(ps[0])
      case None => []
      case Some(v) =>
        var rest := ParseAll(ps[1..]);
        assert forall k :: 1 <= k < |ps| ==> ps[k] == ps[1..][k - 1];
        [v] + rest
  }

  /** Loading is filtering the lines, then parsing the survivors up to the first failure. */
  lemma {:induction false} LoadIsParseOfDataFields(linhas: seq<string>, primeiraLinha: bool)
    ensures LoadFrom(linhas, primeiraLinha) == ParseAll(DataFields(linhas, primeiraLinha))
    decreases |linhas|
  {
    if |linhas| > 0 {
      var l, rest := linhas[0], linhas[1..];
      var d := DataFields(linhas, primeiraLinha);
      match Classify(l, primeiraLinha) {
        case HeaderLine =>
          LoadIsParseOfDataFields(rest, false);
        case BlankLine =>
          LoadIsParseOfDataFields(rest, primeiraLinha);
        case ShortLine =>
          LoadIsParseOfDataFields(rest, primeiraLinha);
        case DataLine(v) =>
          LoadIsParseOfDataFields(rest, primeiraLinha);
          assert ParseRecord(d[0]) == Some(v);
          assert d[1..] == DataFields(rest, primeiraLinha);
        case BadLine =>
          assert ParseRecord(d[0]).None?;
      }
    }
  }

  /** Whether header detection is still on after reading `a`: no line of `a` started with `Id,`. */
  predicate FlagAfter(a: seq<string>, primeiraLinha: bool)
  {
    primeiraLinha && forall i :: 0 <= i < |a| ==> !StartsWith(a[i], "Id,")
  }

  /** The filter keeps file order: the lines of `a + b` keep what `a` keeps, then what `b` keeps. */
  lemma {:induction false} DataFieldsAppend(a: seq<string>, b: seq<string>, primeiraLinha: bool)
    ensures DataFields(a + b, primeiraLinha) == DataFields(a, primeiraLinha) + DataFields(b, FlagAfter(a, primeiraLinha))
    decreases |a|
  {
    if |a| == 0 {
      assert a + b == b;
    } else {
      var ab := a + b;
      assert ab[0] == a[0] && ab[1..] == a[1..] + b;
      var next := if Classify(a[0], primeiraLinha) == HeaderLine then false else primeiraLinha;
      DataFieldsAppend(a[1..], b, next);
      assert FlagAfter(a, primeiraLinha) == FlagAfter(a[1..], next) by {
        assert forall i :: 1 <= i < |a| ==> a[i] == a[1..][i - 1];
      }
    }
  }

  /** One line is kept, as its fields, iff it is not a skipped header, not blank and has at least seven fields. */
  lemma DataFieldsOneLine(linha: string, primeiraLinha: bool)
    ensures DataFields([linha], primeiraLinha) ==
      if (primeiraLinha && StartsWith(linha, "Id,")) || IsBlank(linha) || |Split(linha, ',')| < 7 then []
      else [Split(linha, ',')]
  {
    assert [linha][1..] == [];
  }

  /** A line that the filter drops, and that is not a header, can be removed without changing what is kept. */
  lemma IgnorableLineDroppedFromDataFields(antes: seq<string>, linha: string, depois: seq<string>, primeiraLinha: bool)
    requires Ignorable(linha)
    ensures DataFields(antes + [linha] + depois, primeiraLinha) == DataFields(antes + depois, primeiraLinha)
  {
    var f := FlagAfter(antes, primeiraLinha);
    DataFieldsAppend(antes + [linha], depois, primeiraLinha);
    DataFieldsAppend(antes, [linha], primeiraLinha);
    DataFieldsAppend(antes, depois, primeiraLinha);
    DataFieldsOneLine(linha, f);
    assert FlagAfter(antes + [linha], primeiraLinha) == f by {
      assert forall i :: 0 <= i < |antes| ==> (antes + [linha])[i] == antes[i];
      assert (antes + [linha])[|antes|] == linha;
    }
  }

  /** A line that is blank or short, and not a header, can be removed without changing the result. */
  predicate Ignorable(linha: string)
  {
    !StartsWith(linha, "Id,") && (IsBlank(linha) || |Split(linha, ',')| < 7)
  }

  lemma {:induction false} IgnorableLineDropped(antes: seq<string>, linha: string, depois: seq<string>, primeiraLinha: bool)
    requires Ignorable(linha)
    ensures LoadFrom(antes + [linha] + depois, primeiraLinha) == LoadFrom(antes + depois, primeiraLinha)
    decreases |antes|
  {
    var all := antes + [linha] + depois;
    if |antes| == 0 {
      assert all[1..] == depois && all[0] == linha;
      assert antes + depois == depois;
    } else {
      assert all[0] == antes[0] && (antes + depois)[0] == antes[0];
      assert all[1..] == antes[1..] + [linha] + depois;
      assert (antes + depois)[1..] == antes[1..] + depois;
      IgnorableLineDropped(antes[1..], linha, depois, false);
      IgnorableLineDropped(antes[1..], linha, depois, primeiraLinha);
    }
  }

  /** The header literal is skipped as the first header... */
  lemma HeaderIsSkipped(rest: seq<string>)
    ensures Load([Header] + rest) == LoadFrom(rest, false)
  {
    HeaderShape();
    assert ([Header] + rest)[1..] == rest;
  }

  /** ...but a second one is read as data, and since "Id" is not a number, reading stops there. */
  lemma SecondHeaderStopsLoading(rest: seq<string>)
    ensures Load([Header, Header] + rest) == []
  {
    var ls := [Header, Header] + rest;
    HeaderIsSkipped([Header] + rest);
    assert ls == [Header] + ([Header] + rest);
    HeaderIsBadData();
    assert ([Header] + rest)[0] == Header;
  }

  /** Read as data, the header line does not parse: "Id" is not a number. */
  lemma HeaderIsBadData()
    ensures Classify(Header, false) == BadLine
  {
    HeaderShape();
    assert Header[0] == 'I';
    assert !IsBlank(Header) by { NotBlankWitness(Header, 0); }
    assert ParseNat(Columns[0]).None? by { assert !IsDigit(Columns[0][0]); }
    assert ParseRecord(Split(Header, ',')).None?;
  }

  /** A header after data lines is still the first header, so it is skipped. */
  lemma HeaderAfterDataIsSkipped(v: Veiculo, rest: seq<string>)
    requires Writable(v)
    ensures Load([FormatLine(v), Header] + rest) == [Truncated(v)] + LoadFrom(rest, false)
  {
    var ls := [FormatLine(v), Header] + rest;
    LineRoundTrip(v, true);
    HeaderShape();
    assert ls[1..] == [Header] + rest;
    assert ls[1..][1..] == rest;
    assert Classify(ls[1..][0], true) == HeaderLine;
    assert LoadFrom(ls[1..], true) == LoadFrom(rest, false);
    assert LoadFrom(ls, true) == [Truncated(v)] + LoadFrom(ls[1..], true);
  }

  lemma {:induction false} SplitLength(s: string, sep: char)
    ensures |Split(s, sep)| <= |s| + 1
    decreases |s|
  {
    if |s| > 0 { SplitLength(s[1..], sep); }
  }

  /** Lines with at least seven fields: whatever follows the seventh field is ignored. */
  lemma ExtraFieldsIgnored(linha: string, extra: string, primeiraLinha: bool)
    requires |Split(linha, ',')| >= 7
    ensures Classify(linha + [','] + extra, primeiraLinha) == Classify(linha, primeiraLinha)
  {
    var longer := linha + [','] + extra;
    SplitLength(linha, ',');
    assert longer[..3] == linha[..3];
    SplitAppend(linha, ',', extra);
    var p, q := Split(linha, ','), Split(longer, ',');
    assert q[..7] == p[..7];
    assert forall k :: 0 <= k < 7 ==> q[k] == p[k];
    if IsBlank(linha) {
      assert Split(linha, ',') == [linha] by { SplitNoSep(linha, ','); }
    }
    assert !IsBlank(longer) by { NotBlankWitness(longer, |linha|); }
    assert ParseRecord(q) == ParseRecord(p);
  }

  // ---------------------------------------------------------------------------
  // Round trip

  /** A record can be written without breaking the column or the line layout. */
  predicate Writable(v: Veiculo)
  {
    && ',' !in v.placa && ',' !in v.modelo
    && '\n' !in v.placa && '\n' !in v.modelo
    && '\r' !in v.placa && '\r' !in v.modelo
  }

  /** The record as it reads back: instants cut to the whole second. */
  function Truncated(v: Veiculo): Veiculo
  {
    v.(entradaUtc := WholeSecond(v.entradaUtc),
       saidaUtc := match v.saidaUtc case None => None case Some(t) => Some(WholeSecond(t)))
  }

  /** A written record line is read as exactly that record, up to sub-second precision. */
  lemma LineRoundTrip(v: Veiculo, primeiraLinha: bool)
    requires Writable(v)
    ensures Classify(FormatLine(v), primeiraLinha) == DataLine(Truncated(v))
  {
    var f := Fields(v);
    var linha := FormatLine(v);
    assert linha[0] == f[0][0];
    assert !StartsWith(linha, "Id,");
    assert !IsBlank(linha) by { NotBlankWitness(linha, 0); }
    ParseEncodeNat(v.id);
    ParseEncodeInstant(v.entradaUtc);
    if v.saidaUtc.Some? {
      ParseEncodeInstant(v.saidaUtc.value);
      assert f[4] != "";
    }
    ParseEncodeInt(v.valorPago);
    assert ParseBool(EncodeBool(v.pago)) == Some(v.pago);
  }

  lemma {:induction false} RowsRoundTrip(vs: seq<Veiculo>)
    requires forall k :: 0 <= k < |vs| ==> Writable(vs[k])
    ensures |LoadFrom(Rows(vs), false)| == |vs|
    ensures forall k :: 0 <= k < |vs| ==> LoadFrom(Rows(vs), false)[k] == Truncated(vs[k])
    decreases |vs|
  {
    if |vs| > 0 {
      var rows := Rows(vs);
      LineRoundTrip(vs[0], false);
      assert rows[1..] == Rows(vs[1..]);
      RowsRoundTrip(vs[1..]);
      assert LoadFrom(rows, false) == [Truncated(vs[0])] + LoadFrom(Rows(vs[1..]), false);
    }
  }

  /** Loading what `Salvar` wrote gives back the records, in order, up to sub-second precision. */
  lemma RoundTrip(vs: seq<Veiculo>)
    requires forall k :: 0 <= k < |vs| ==> Writable(vs[k])
    ensures |Load(Snapshot(vs))| == |vs|
    ensures forall k :: 0 <= k < |vs| ==> Load(Snapshot(vs))[k] == Truncated(vs[k])
  {
    HeaderIsSkipped(Rows(vs));
    RowsRoundTrip(vs);
  }

  lemma WholeSecondOfWhole(t: nat)
    requires t % TicksPerSecond == 0
    ensures WholeSecond(t) == t
  {
    assert t == t / TicksPerSecond * TicksPerSecond + t % TicksPerSecond;
  }

  /** Records whose instants are whole seconds come back exactly. */
  lemma RoundTripExact(vs: seq<Veiculo>)
    requires forall k :: 0 <= k < |vs| ==> Writable(vs[k])
    requires forall k :: 0 <= k < |vs| ==> vs[k].entradaUtc % TicksPerSecond == 0
    requires forall k :: 0 <= k < |vs| ==> vs[k].saidaUtc.None? || vs[k].saidaUtc.value % TicksPerSecond == 0
    ensures Load(Snapshot(vs)) == vs
  {
    RoundTrip(vs);
    var loaded := Load(Snapshot(vs));
    forall k | 0 <= k < |vs| ensures loaded[k] == vs[k] {
      var v := vs[k];
      WholeSecondOfWhole(v.entradaUtc);
      if v.saidaUtc.Some? {
        WholeSecondOfWhole(v.saidaUtc.value);
      }
      assert Truncated(v) == v;
    }
  }

}

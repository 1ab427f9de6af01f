# Parking ledger, CSV snapshot, in-memory repository and entry validation

A Dafny model of the core of a small parking system written in C#.

- **Ledger** (`Ledger`, class `Estacionamento`): a list of vehicle records
  updated in place. It counts free slots (capacity minus open records). On
  entry it refuses a plate that already has an open record; otherwise it
  appends the record. On exit it closes the plate's first open record: it
  sets the exit instant and the paid flag, and bills every started hour at
  the hourly price.
- **CSV snapshot** (`CsvRepositorio`): `Salvar` turns the record list into a
  header line plus one line per record. `Carregar` reads lines back. It skips
  the first line that starts with `Id,`, blank lines and lines with fewer
  than seven fields. It stops at the first line whose fields do not parse.
- **In-memory repository** (`InMemoryRepository`, class
  `InMemoryEstacionamentoRepository`): the vehicles now in the yard, in a map
  keyed by the upper-cased plate, plus a history of every vehicle added.
- **Entry validation** (`EntradaValidation`): the `[Required]` and
  `[RegularExpression(^[A-Z0-9\-]+$)]` attributes of the entry request.

Shared pieces: `Veiculos` (the record type), `Text` (.NET string
primitives: white space, upper-casing, case-insensitive comparison, `Split`),
`Numerals` (decimal text) and `Options`.

Modelling choices:

- Instants are `nat` counts of 100 ns ticks, like `DateTime.Ticks`.
- Money is a whole number of cents. The hourly price 5.00 is `500`.
- The `Guid` identifier is an opaque `nat`.
- `Veiculo` is a datatype, so records are values. The ledger's list is a
  `seq` field that the methods reassign. The repository's dictionary is a
  `map` field and its bag is a `multiset` field.
- The clock `DateTime.UtcNow` is the parameter `agora` of `RegistrarSaida`.
- The fee is `ceil(d / TicksPerHour) * price`, where `d` is the stay in
  ticks. The ceiling uses integer division and follows `Math.Ceiling` for
  negative durations too.
- In the CSV snapshot, a file is its sequence of lines. The text field
  encodings are simplified:
  - the identifier is written as decimal digits;
  - each instant is written as its whole seconds in decimal;
  - money is written as signed decimal cents;
  - the paid flag is written as `True`/`False` and read back ignoring case.
  A field that does not parse stands for the exception that the source's
  `try` catches: loading stops there.

Where the code departs from the system's intended design, the model follows
the code:

- Entry has no capacity check, so `VagasDisponiveis` can go negative
  (`Ledger.Overbooking`).
- The fee is not clamped at zero. An exit clock one hour or more behind the
  entry bills a negative amount (`Ledger.LongClockSkewBillsNegative`).
- The ledger compares plates exactly (case-sensitive). The in-memory
  repository compares them ignoring case.

## Model

| member | source | states |
|---|---|---|
| `Ledger.BilledHours` | models/Estacionamento.cs:61-62 | the billed hours are the ceiling of the stay: the least whole number of hours covering it, also for negative stays |
| `Ledger.Fee` | models/Estacionamento.cs:61-64 | the amount is the billed hours times the hourly price; at a positive price it is positive iff the exit is after the entry, and never negative for a forward clock with a non-negative price |
| `Ledger.OneMinuteBillsOneHour` | models/Estacionamento.cs:61-64 | a one-minute stay costs exactly one hour's price |
| `Ledger.WholeHoursBillExactly` | models/Estacionamento.cs:61-64 | a stay of exactly k hours costs k times the price |
| `Ledger.StartedHourBillsInFull` | models/Estacionamento.cs:61-64 | any part of an hour begun after k whole hours costs k + 1 hours |
| `Ledger.BilledHoursMonotone` | models/Estacionamento.cs:62 | a longer stay is never billed fewer hours |
| `Ledger.FeeMonotone` | models/Estacionamento.cs:61-64 | with a non-negative price, a later exit never costs less |
| `Ledger.ShortClockSkewBillsZero` | models/Estacionamento.cs:61-64 | an exit instant less than an hour before the entry bills 0 |
| `Ledger.LongClockSkewBillsNegative` | models/Estacionamento.cs:61-64 | an exit two hours before the entry bills minus two hours: there is no clamp at zero |
| `Ledger.Close` | models/Estacionamento.cs:59-65 | the closed record keeps id, plate, model and entry; it gets the exit instant, the fee for the stay and the paid flag, and is no longer open |
| `Ledger.CountOpen` | models/Estacionamento.cs:28 | the number of records with no exit time: at most the list length, 0 iff every record has exited, the full length iff none has |
| `Ledger.FirstOpen` | models/Estacionamento.cs:37 | the index of the first record that has exactly this plate and no exit; it is absent iff no such record exists |
| `Ledger.CountOpenAppend` | models/Estacionamento.cs:28 | appending a record adds one to the open count iff that record has no exit |
| `Ledger.CountOpenAfterClose` | models/Estacionamento.cs:28 | closing one open record lowers the open count by exactly one |
| `Ledger.EntryKeepsUnique` | models/Estacionamento.cs:37-43 | appending a record whose plate has no open record keeps at most one open record per plate |
| `Ledger.CloseKeepsUnique` | models/Estacionamento.cs:59-65 | closing a record keeps at most one open record per plate |
| `Ledger.SecondExitFindsNothing` | models/Estacionamento.cs:54-59 | with unique open plates, after the plate's open record is closed the lookup finds none |
| `Ledger.DuplicateOpenExitsTwice` | models/Estacionamento.cs:54-59 | without unique open plates, two open records of one plate let it exit twice |
| `Ledger.Estacionamento.constructor` | models/Estacionamento.cs:17-21 | an empty list with the given capacity and hourly price |
| `Ledger.Estacionamento.WithDefaults` | models/Estacionamento.cs:17 | the default arguments: 20 slots at 5.00 per hour |
| `Ledger.Estacionamento.FindOpen` | models/Estacionamento.cs:37 | the loop finds the first open record with this plate (the index `FirstOpen` gives) |
| `Ledger.Estacionamento.VagasDisponiveis` | models/Estacionamento.cs:26-29 | the capacity minus the number of records with no exit time, which may be negative |
| `Ledger.Estacionamento.RegistrarEntrada` | models/Estacionamento.cs:34-45 | fails and changes nothing iff the plate has an open record; otherwise appends exactly the given record; keeps unique open plates; the open count grows by one iff the appended record has no exit |
| `Ledger.Estacionamento.RegistrarSaida` | models/Estacionamento.cs:52-70 | with no open record, returns (false, 0) and changes nothing; otherwise changes only the first open record (exit := now, amount := fee, paid := true), keeps the list length, returns the stored amount, keeps unique open plates and frees one slot |
| `Ledger.ExitTwice` | models/Estacionamento.cs:54-59 | with unique open plates, two exits in a row of a parked plate: the first succeeds, the second fails with amount 0 |
| `Ledger.Overbooking` | models/Estacionamento.cs:26-45 | two vehicles entering a one-slot lot both succeed and leave -1 free slots |
| `Text.IsBlank` | entradaDTO.cs:15-16 | the empty string and strings of spaces are blank, and a blank string holds only white-space characters |
| `Text.Upper` | Repositorios.cs:25 | upper-casing keeps the length and maps each character on its own, ASCII a-z to A-Z |
| `Text.EqualsIgnoreCase` | Repositorios.cs:33-38 | a case-insensitive plate match holds iff the upper-cased keys are equal |
| `Text.Split` | models/Repositorio.cs:58 | splitting gives at least one field and no field contains the separator |
| `Text.JoinSplit` | models/Repositorio.cs:58 | joining the split fields with the separator gives back the line |
| `Text.SplitJoin` | models/Repositorio.cs:22 | splitting a line joined from comma-free fields gives back the fields |
| `Text.SplitAppend` | models/Repositorio.cs:58 | text appended after one more comma only adds fields at the end |
| `Numerals.ParseEncodeNat` | models/Repositorio.cs:63 | reading a written identifier gives back the same number |
| `Numerals.ParseEncodeInt` | models/Repositorio.cs:68 | reading a written amount gives back the same number of cents, negative amounts included |
| `CsvRepositorio.HeaderShape` | models/Repositorio.cs:17 | the header line starts with `Id,` and splits into the seven column names |
| `CsvRepositorio.ParseBool` | models/Repositorio.cs:69 | the paid flag reads as true or false exactly when it spells `True` or `False`, in any letter case |
| `CsvRepositorio.WholeSecond` | models/Repositorio.cs:21-22 | a written instant loses its sub-second part: the result is at most one second earlier and a whole second |
| `CsvRepositorio.ParseEncodeInstant` | models/Repositorio.cs:66-67 | reading a written instant gives it back cut to the whole second |
| `CsvRepositorio.ExitColumnEmptyIffOpen` | models/Repositorio.cs:21 | the exit column is written empty iff the record is open |
| `CsvRepositorio.Fields` | models/Repositorio.cs:21-22 | a record is written as seven columns; plate and model are copied as they are, and the other five never contain a comma |
| `CsvRepositorio.FormatLine` | models/Repositorio.cs:22 | a line written for a record without commas or line breaks in its text splits back into exactly its seven fields |
| `CsvRepositorio.ParseRecord` | models/Repositorio.cs:61-70 | a field list becomes a record iff every parsed field parses; id, entry, exit, amount and paid flag are the values parsed from columns 1, 4, 5, 6 and 7; plate and model are copied; the exit is null iff the fifth field is empty |
| `CsvRepositorio.Rows` | models/Repositorio.cs:19-23 | one line per record, in list order |
| `CsvRepositorio.Salvar` | models/Repositorio.cs:12-29 | the output is the header followed by one line per record, in list order |
| `CsvRepositorio.Classify` | models/Repositorio.cs:49-70 | a line is the header iff header detection is on and it starts with `Id,`; otherwise a blank line and a line of fewer than seven fields are skipped, and any other line is read as the parse of its fields, or stops reading when that fails |
| `CsvRepositorio.LoadFrom` | models/Repositorio.cs:46-79 | reading the lines one by one never yields more records than there are lines |
| `CsvRepositorio.Carregar` | models/Repositorio.cs:34-80 | the loop computes what `Load` specifies: header, blank and short lines skipped, records in file order, stop at the first line that fails to parse |
| `CsvRepositorio.DataFields` | models/Repositorio.cs:46-59 | the lines kept for parsing are at most as many as the input lines, and each has at least seven fields |
| `CsvRepositorio.DataFieldsAppend` | models/Repositorio.cs:46-59 | the filter keeps file order: for two pieces of a file it keeps what the first keeps, then what the second keeps, with header detection on only if the first piece had no header line |
| `CsvRepositorio.DataFieldsOneLine` | models/Repositorio.cs:49-59 | one line is kept, as its fields, iff it is not a header while detection is on, not blank and has at least seven fields |
| `CsvRepositorio.IgnorableLineDroppedFromDataFields` | models/Repositorio.cs:55-59 | removing a blank or short line that does not start with `Id,` does not change the fields kept |
| `CsvRepositorio.ParseAll` | models/Repositorio.cs:61-77 | the records are the parses of a prefix of the kept lines; if the prefix is shorter, the next line does not parse |
| `CsvRepositorio.LoadIsParseOfDataFields` | models/Repositorio.cs:46-79 | loading equals filtering the lines and then parsing the survivors up to the first failure |
| `CsvRepositorio.IgnorableLineDropped` | models/Repositorio.cs:55-59 | removing a blank or short line that does not start with `Id,` from anywhere in the file does not change the result |
| `CsvRepositorio.HeaderIsSkipped` | models/Repositorio.cs:46-53 | a leading header line is skipped and header detection is switched off |
| `CsvRepositorio.HeaderIsBadData` | models/Repositorio.cs:58-63 | once header detection is off, the header line is read as data and fails to parse, because `Id` is not an identifier |
| `CsvRepositorio.SecondHeaderStopsLoading` | models/Repositorio.cs:46-53 | a second header line is read as data; its `Id` field does not parse, so nothing is loaded |
| `CsvRepositorio.HeaderAfterDataIsSkipped` | models/Repositorio.cs:46-53 | an `Id,` line after data lines is skipped while no header has been skipped yet |
| `CsvRepositorio.SplitLength` | models/Repositorio.cs:58 | a line of n characters splits into at most n + 1 fields |
| `CsvRepositorio.ExtraFieldsIgnored` | models/Repositorio.cs:58-70 | fields after the seventh do not change how a line is read |
| `CsvRepositorio.LineRoundTrip` | models/Repositorio.cs:22-70 | a written record line reads back as that record with its instants cut to the second |
| `CsvRepositorio.RowsRoundTrip` | models/Repositorio.cs:19-71 | the written record lines read back as one record per line, in order |
| `CsvRepositorio.RoundTrip` | models/Repositorio.cs:12-80 | loading what `Salvar` wrote gives the same number of records in the same order; identifier, plate, model, amount, paid flag and open/closed state are equal, and instants are cut to the second |
| `CsvRepositorio.WholeSecondOfWhole` | models/Repositorio.cs:21-22 | an instant that is already a whole second is written without loss |
| `CsvRepositorio.RoundTripExact` | models/Repositorio.cs:12-80 | records whose instants are whole seconds come back exactly |
| `InMemoryRepository.YardNoLargerThanHistory` | Repositorios.cs:25-27 | when every yard entry is under its own plate's key and is in the history, the yard holds no more vehicles than the history |
| `InMemoryRepository.InMemoryEstacionamentoRepository.constructor` | Repositorios.cs:18-21 | an empty yard and an empty history |
| `InMemoryRepository.InMemoryEstacionamentoRepository.AddEntrada` | Repositorios.cs:23-29 | stores the vehicle under its upper-cased plate, replacing any earlier one; the history grows by exactly that vehicle; the yard grows by one iff the key was absent |
| `InMemoryRepository.InMemoryEstacionamentoRepository.ObterVeiculoPorPlaca` | Repositorios.cs:31-40 | the yard's vehicle under the upper-cased key; otherwise some history record whose plate matches ignoring case, or none iff there is no such record |
| `InMemoryRepository.InMemoryEstacionamentoRepository.RegistrarSaida` | Repositorios.cs:42-48 | removes the upper-cased key from the yard and leaves the history unchanged |
| `InMemoryRepository.InMemoryEstacionamentoRepository.ListarTodos` | Repositorios.cs:50-54 | returns every record in the history, exited ones included, each as many times as it was added |
| `InMemoryRepository.InMemoryEstacionamentoRepository.ContarAtuais` | Repositorios.cs:56-59 | the number of keys in the yard, never more than the history size |
| `InMemoryRepository.InMemoryEstacionamentoRepository.ExisteVeiculoNoPatio` | Repositorios.cs:61-65 | true iff the upper-cased plate is a key of the yard |
| `InMemoryRepository.EntryIsVisible` | IEstacionamento.Repositories.cs:14-22 | right after an entry, the plate is in the yard and looks up to that very record |
| `InMemoryRepository.ExitIsVisible` | IEstacionamento.Repositories.cs:24-42 | after an exit, the plate is not in the yard under any letter case, and the history is unchanged |
| `EntradaValidation.Required` | entradaDTO.cs:11-16 | `[Required]` refuses null and the empty string, and accepts a value holding a character that is not white space |
| `EntradaValidation.RegularExpression` | entradaDTO.cs:12 | the pattern lets null and the empty string pass; any other value passes iff every character is in A-Z, 0-9 or `-` |
| `EntradaValidation.Errors` | entradaDTO.cs:11-16 | the plate is in error iff it is not present, non-empty and made only of A-Z, 0-9 and `-`; the model is in error iff it is absent or holds only white space; no other field is reported |
| `EntradaValidation.ValidIffBothRules` | entradaDTO.cs:11-16 | the request is valid iff both the plate rule and the model rule hold |
| `EntradaValidation.FieldsCheckedIndependently` | entradaDTO.cs:11-16 | whether one field fails does not depend on the other field |
| `EntradaValidation.MissingPlateRejected` | entradaDTO.cs:11-12 | a null or empty plate is refused |
| `EntradaValidation.BadPlateCharRejected` | entradaDTO.cs:12 | one character outside A-Z, 0-9 and `-` (a lower-case letter, a space, other punctuation) refuses the plate |
| `EntradaValidation.PatternIsCaseSensitive` | entradaDTO.cs:12 | "abc1234" is refused and "ABC1234" is accepted |
| `EntradaValidation.BlankModelRejected` | entradaDTO.cs:15-16 | a null model is refused; any other model is refused iff it is empty or white space only |

## Left out

- Ledger: `SalvarDados` and `CarregarDados` (writing and reading the CSV file after each change) are file I/O. The codec that they call is modelled in `CsvRepositorio`.
- Ledger.Estacionamento.RegistrarSaida: does not return the `(horas, minutos)` part of the result. These are `TimeSpan.Hours`/`Minutes` display values.
- Ledger.Estacionamento.VagasDisponiveis: does not model 32-bit wrap-around of `TotalVagas - count`. It occurs only for a negative capacity close to `int.MinValue`.
- Ledger.BilledHours: uses exact integer ceiling, whereas the source applies `Math.Ceiling` to the `double` `TotalHours`. For stays of many years, floating-point rounding can differ from the exact ceiling.
- Aliasing: in the source, a `Veiculo` is an object shared by the ledger list, the repository map and the history bag. Here a record is a value. The repository's history therefore keeps each record as it was added and does not see exit fields a caller later sets on the same object.
- Concurrency: `ConcurrentDictionary` and `ConcurrentBag` are modelled as a sequential map and multiset. The bag's enumeration order is unspecified, so no order is claimed for `ListarTodos`. `ObterVeiculoPorPlaca` returns an arbitrary matching history record rather than the "most recent" one.
- Case mapping: `ToUpperInvariant` and `OrdinalIgnoreCase` are modelled on the ASCII letters only.
- CSV files: `StreamWriter`, `File.ReadAllLines`, the missing-file check and the error messages are I/O. A file is modelled as its sequence of lines. The round trip therefore requires plate and model to contain no comma, `\n` or `\r`, since `File.ReadAllLines` would split a line at either line break.
- CSV fields: the `Guid`, `yyyy-MM-dd HH:mm:ss` date and `decimal` formats are replaced by decimal digits (identifier, whole seconds, cents). So the round trip shows truncation to the second, but not the local-time shift of `DateTimeStyles.AssumeUniversal`. It also does not model the leniency of the library parsers, such as the white-space trimming of `bool.Parse`.
- The culture-sensitive `StartsWith("Id,")` is modelled as an ordinal prefix test.
- The plate normalisation of the console program (trim, upper-case, reject blank) is not modelled. Neither are the console menus, the HTTP controllers, the JSON repository, the service layer and configuration loading.

/**
 * Validation of the entry request: `Placa` is required and must match
 * `^[A-Z0-9\-]+$`; `Modelo` is required. A `null` field is `None`.
 */
module EntradaValidation {

  import opened Options
  import opened Text

  datatype EntradaDto = EntradaDto(placa: Option<string>, modelo: Option<string>)

  datatype Campo = Placa | Modelo

  /** `[Required]` on a string: not null, and not empty or white space only. */
  predicate Required(s: Option<string>)
    ensures Required(s) ==> s.Some? && s.value != ""
    ensures s.Some? && (exists i :: 0 <= i < |s.value| && !IsWhiteSpace(s.value[i])) ==> Required(s)
  {
    s.Some? && !IsBlank(s.value)
  }

  predicate IsPlateChar(c: char)
  {
    'A' <= c <= 'Z' || '0' <= c <= '9' || c == '-'
  }

  /** The whole string matches `^[A-Z0-9\-]+$` (case-sensitive). */
  predicate MatchesPlatePattern(s: string)
  {
    |s| > 0 && forall i :: 0 <= i < |s| ==> IsPlateChar(s[i])
  }

  /** `[RegularExpression]`: a null or empty value passes; anything else must match in full. */
  predicate RegularExpression(s: Option<string>)
    ensures s.None? || s == Some("") ==> RegularExpression(s)
    ensures s.Some? && s.value != "" ==>
      (RegularExpression(s) <==> forall i :: 0 <= i < |s.value| ==> IsPlateChar(s.value[i]))
  {
    s.None? || s.value == "" || MatchesPlatePattern(s.value)
  }

  /** The plate rule in one line: present, non-empty, and only A-Z, 0-9 and '-'. */
  predicate PlateAccepted(placa: Option<string>)
  {
    placa.Some? && |placa.value| > 0 && forall i :: 0 <= i < |placa.value| ==> IsPlateChar(placa.value[i])
  }

  /** The model rule in one line: present, with some character that is not white space. */
  predicate ModelAccepted(modelo: Option<string>)
  {
    modelo.Some? && exists i :: 0 <= i < |modelo.value| && !IsWhiteSpace(modelo.value[i])
  }

  /** The fields whose attributes fail; each field is checked on its own. */
  function Errors(dto: EntradaDto): (e: set<Campo>)
    // the two attributes on `Placa` together accept exactly the plates of the one-line rule
    ensures Placa in e <==> !PlateAccepted(dto.placa)
    ensures Modelo in e <==> !ModelAccepted(dto.modelo)
    ensures e <= {Placa, Modelo}
  {
    assert PlateAccepted(dto.placa) ==> Required(dto.placa) by {
      if PlateAccepted(dto.placa) { NotBlankWitness(dto.placa.value, 0); }
    }
    (if Required(dto.placa) && RegularExpression(dto.placa) then {} else {Placa})
    + (if Required(dto.modelo) then {} else {Modelo})
  }

  predicate IsValid(dto: EntradaDto)
  {
    Errors(dto) == {}
  }

  /** Valid exactly when both rules hold. */
  lemma ValidIffBothRules(dto: EntradaDto)
    ensures IsValid(dto) <==> PlateAccepted(dto.placa) && ModelAccepted(dto.modelo)
  {
    assert IsValid(dto) <==> Placa !in Errors(dto) && Modelo !in Errors(dto);
  }

  /** The verdict on one field does not depend on the other field. */
  lemma FieldsCheckedIndependently(placa: Option<string>, modelo: Option<string>, a: Option<string>, b: Option<string>)
    ensures (Placa in Errors(EntradaDto(placa, a))) == (Placa in Errors(EntradaDto(placa, b)))
    ensures (Modelo in Errors(EntradaDto(a, modelo))) == (Modelo in Errors(EntradaDto(b, modelo)))
  {
  }

  /** A null or empty plate is refused. */
  lemma MissingPlateRejected(modelo: Option<string>)
    ensures Placa in Errors(EntradaDto(None, modelo))
    ensures Placa in Errors(EntradaDto(Some(""), modelo))
  {
  }

  /** One lower-case letter, space or other character outside A-Z, 0-9, '-' refuses the plate. */
  lemma BadPlateCharRejected(placa: string, i: nat, modelo: Option<string>)
    requires i < |placa| && !IsPlateChar(placa[i])
    ensures Placa in Errors(EntradaDto(Some(placa), modelo))
  {
  }

  /** The pattern is case-sensitive: "abc1234" is refused, "ABC1234" accepted. */
  lemma PatternIsCaseSensitive(modelo: Option<string>)
    ensures Placa in Errors(EntradaDto(Some("abc1234"), modelo))
    ensures Placa !in Errors(EntradaDto(Some("ABC1234"), modelo))
  {
    BadPlateCharRejected("abc1234", 0, modelo);
    assert PlateAccepted(Some("ABC1234"));
  }

  /** A null, empty or white-space-only model is refused; any other model is accepted. */
  lemma BlankModelRejected(placa: Option<string>, modelo: string)
    ensures Modelo in Errors(EntradaDto(placa, None))
    ensures Modelo in Errors(EntradaDto(placa, Some(modelo))) <==> IsBlank(modelo)
  {
  }

}

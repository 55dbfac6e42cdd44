/**
 * AlunoMapper and AlunoDTO: the record as the API shows it -- the average
 * rounded half-up to two decimals and a situation word in place of the
 * stored flag -- and the way back from the API shape to a record.
 */
module Mapper {
  import opened Wrappers
  import opened Entities
  import opened Evaluation

  /** The record as the API shows it; the address and the stored flag are not part of it. */
  datatype AlunoDTO = AlunoDTO(
    cpf: Option<string>,
    nome: Option<string>,
    turma: Option<string>,
    media: Option<real>,
    situacao: Option<string>,
    nota1: Option<real>,
    nota2: Option<real>,
    nota3: Option<real>)

  const APROVADO := "APROVADO"
  const REPROVADO := "REPROVADO"

  /** The number of hundredths nearest to x, for x at least zero: a tie goes up. */
  function HalfUpHundredths(x: real): (n: nat)
    requires x >= 0.0
    ensures -0.5 < n as real - 100.0 * x <= 0.5
  {
    var f := (100.0 * x + 0.5).Floor;
    assert f as real <= 100.0 * x + 0.5 < f as real + 1.0;
    f
  }

  /**
   * formatarMedia: setScale(2, RoundingMode.HALF_UP) -- to the nearest
   * hundredth, a tie going away from zero.
   */
  function RoundHalfUp2(x: real): (r: real)
    ensures -0.005 <= r - x <= 0.005
    ensures (r * 100.0).Floor as real == r * 100.0
    ensures x >= 0.0 ==> r >= 0.0 && -0.005 < r - x
    ensures x < 0.0 ==> r <= 0.0 && r - x < 0.005
  {
    var n: int := if x >= 0.0 then HalfUpHundredths(x) as int else -(HalfUpHundredths(-x) as int);
    assert (n as real / 100.0) * 100.0 == n as real;
    n as real / 100.0
  }

  /** Half-up rounding is symmetric about zero. */
  lemma RoundHalfUpSymmetric(x: real)
    ensures RoundHalfUp2(-x) == -RoundHalfUp2(x)
  {
    if x == 0.0 {
      assert (100.0 * x + 0.5).Floor == 0;
    }
  }

  /**
   * The situation toDTO reports: a stored flag counts as approved only when
   * it is exactly "Sim" or "APROVADO"; without a flag the average decides.
   */
  function Situacao(a: Aluno): (s: string)
    requires HasNotas(a)
    ensures s == APROVADO || s == REPROVADO
    ensures a.aprovado.Some? ==> (s == APROVADO <==> a.aprovado.value == "Sim" || a.aprovado.value == APROVADO)
    ensures a.aprovado.None? ==> (s == APROVADO <==> Media(a) >= THRESHOLD)
  {
    if a.aprovado.Some? then
      if a.aprovado.value == "Sim" || a.aprovado.value == APROVADO then APROVADO else REPROVADO
    else if Media(a) >= THRESHOLD then APROVADO else REPROVADO
  }

  /** toDTO: null stays null; otherwise the visible fields, the rounded average and the situation. */
  function ToDTO(a: Option<Aluno>): (r: Option<AlunoDTO>)
    requires a.Some? ==> HasNotas(a.value)
    ensures r.None? <==> a.None?
    ensures a.Some? ==>
      && r.value.cpf == a.value.cpf && r.value.nome == a.value.nome && r.value.turma == a.value.turma
      && r.value.nota1 == a.value.nota1 && r.value.nota2 == a.value.nota2 && r.value.nota3 == a.value.nota3
      && r.value.media == Some(RoundHalfUp2(Media(a.value)))
      && -0.005 <= r.value.media.value - Media(a.value) <= 0.005
      && r.value.situacao == Some(Situacao(a.value))
      && (r.value.situacao.value == APROVADO || r.value.situacao.value == REPROVADO)
  {
    match a
    case None => None
    case Some(x) =>
      Some(AlunoDTO(x.cpf, x.nome, x.turma, Some(RoundHalfUp2(Media(x))), Some(Situacao(x)), x.nota1, x.nota2, x.nota3))
  }

  /** toEntity: null stays null; otherwise a record with no address whose flag is the situation. */
  function ToEntity(d: Option<AlunoDTO>): (r: Option<Aluno>)
    ensures r.None? <==> d.None?
    ensures d.Some? ==>
      && r.value.cpf == d.value.cpf && r.value.nome == d.value.nome && r.value.turma == d.value.turma
      && r.value.nota1 == d.value.nota1 && r.value.nota2 == d.value.nota2 && r.value.nota3 == d.value.nota3
      && r.value.endereco.None? && r.value.aprovado == d.value.situacao
  {
    match d
    case None => None
    case Some(x) => Some(Aluno(x.cpf, x.nome, None, x.turma, x.nota1, x.nota2, x.nota3, x.situacao))
  }

  /** The DTOs of a listing, one per record, in order. */
  function ToDTOs(s: seq<Aluno>): (r: seq<AlunoDTO>)
    requires forall a :: a in s ==> HasNotas(a)
    ensures |r| == |s|
    ensures forall i :: 0 <= i < |s| ==> Some(r[i]) == ToDTO(Some(s[i]))
    ensures forall d :: d in r ==> d.situacao == Some(APROVADO) || d.situacao == Some(REPROVADO)
  {
    if s == [] then [] else [ToDTO(Some(s[0])).value] + ToDTOs(s[1..])
  }

  // ---------------------------------------------------------------------------
  // Properties of the mapping

  /** The DTOs of records of one class all show that class. */
  lemma ToDTOsKeepTurma(s: seq<Aluno>, turma: Option<string>)
    requires forall a :: a in s ==> HasNotas(a) && a.turma == turma
    ensures forall d :: d in ToDTOs(s) ==> d.turma == turma
  {
    var r := ToDTOs(s);
    forall d | d in r
      ensures d.turma == turma
    {
      var i :| 0 <= i < |r| && r[i] == d;
      assert s[i] in s;
    }
  }

  /** Going to the API shape, back, and to the API shape again changes nothing. */
  lemma RoundTrip(a: Option<Aluno>)
    requires a.Some? ==> HasNotas(a.value)
    ensures var e := ToEntity(ToDTO(a)); (e.Some? ==> HasNotas(e.value)) && ToDTO(e) == ToDTO(a)
  {
    if a.Some? {
      var e := ToEntity(ToDTO(a)).value;
      assert Media(e) == Media(a.value);
    }
  }

  /** toDTO(null) is null, and toEntity(null) is null. */
  lemma NullMapsToNull()
    ensures ToDTO(None) == None && ToEntity(None) == None
  {
  }

  /**
   * The flags the services write, "SIM" and "NÃO", are neither "Sim" nor
   * "APROVADO": every record the services have evaluated is reported as
   * REPROVADO, whatever its average.
   */
  lemma EvaluatedRecordsReportedReprovado(a: Aluno)
    requires FlagConsistent(a)
    ensures Situacao(a) == REPROVADO
  {
    assert SIM != "Sim" && SIM != APROVADO && NAO != "Sim" && NAO != APROVADO;
  }

  /** The address and the stored flag, when it is neither "Sim" nor "APROVADO", do not show. */
  lemma HiddenFields(a: Aluno, endereco: Option<string>, flag: string)
    requires HasNotas(a) && a.aprovado.Some? && a.aprovado.value != "Sim" && a.aprovado.value != APROVADO
    requires flag != "Sim" && flag != APROVADO
    ensures ToDTO(Some(a.(endereco := endereco, aprovado := Some(flag)))) == ToDTO(Some(a))
  {
  }

  /** [5, 10, 10] has average 8.333... and is shown as 8.33. */
  lemma MediaExample(a: Aluno)
    requires a.nota1 == Some(5.0) && a.nota2 == Some(10.0) && a.nota3 == Some(10.0)
    ensures ToDTO(Some(a)).value.media == Some(8.33)
  {
    assert Media(a) == 25.0 / 3.0;
    assert (100.0 * (25.0 / 3.0) + 0.5).Floor == 833 by {
      assert 833.0 <= 100.0 * (25.0 / 3.0) + 0.5 < 834.0;
    }
  }

  /** Without a flag: [7.5, 7, 7] is shown as 7.17 and APROVADO, [6, 6, 6] as REPROVADO. */
  lemma NullFlagExamples(a: Aluno, b: Aluno)
    requires a.aprovado.None? && a.nota1 == Some(7.5) && a.nota2 == Some(7.0) && a.nota3 == Some(7.0)
    requires b.aprovado.None? && b.nota1 == Some(6.0) && b.nota2 == Some(6.0) && b.nota3 == Some(6.0)
    ensures ToDTO(Some(a)).value.media == Some(7.17) && ToDTO(Some(a)).value.situacao == Some(APROVADO)
    ensures ToDTO(Some(b)).value.situacao == Some(REPROVADO)
  {
    assert Media(a) == 21.5 / 3.0;
    assert (100.0 * (21.5 / 3.0) + 0.5).Floor == 717 by {
      assert 717.0 <= 100.0 * (21.5 / 3.0) + 0.5 < 718.0;
    }
  }

  /** A tie rounds up: an average of 7.165 is shown as 7.17. */
  lemma HalfUpTie()
    ensures RoundHalfUp2(7.165) == 7.17
  {
    assert (100.0 * 7.165 + 0.5).Floor == 717;
  }
}

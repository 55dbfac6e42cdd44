/**
 * VerificaAlunoService: the same listings written as loops over findAll, a
 * cruder single-exam test, and the flag-based class page without the
 * "not found" answer.
 */
module VerificaService {
  import opened Wrappers
  import opened Exceptions
  import opened Entities
  import opened Evaluation
  import opened Collections
  import opened Repository
  import ConsultaService

  /** The messages of PageRequest.of for a refused page number and page size. */
  const PAGINA_NEGATIVA := "Page index must not be less than zero"
  const TAMANHO_INVALIDO := "Page size must not be less than one"

  /**
   * Over records that passed validation, everyone with exactly one exam
   * taken has a zero second or third score, so the listing of ConsultaAlunoService
   * is a part of this service's, in the same order.
   */
  lemma UmaProvaWithinFailedInOneExam(s: seq<Aluno>)
    requires forall a :: a in s ==> Valid(a)
    ensures IsSubsequence(Filter(s, ConsultaService.UmaProvaFeita), Filter(s, FailedInOneExam))
  {
    forall a | a in s && ConsultaService.UmaProvaFeita(a)
      ensures FailedInOneExam(a)
    {
      assert a.nota2.value >= 0.0 && a.nota3.value >= 0.0;
    }
    FilterMonotone(s, ConsultaService.UmaProvaFeita, FailedInOneExam);
  }

  /**
   * The threshold boundary: an average of exactly 7.0, as for [7, 7, 7], is
   * flagged "SIM" by the services but is listed among the failed and not
   * among the approved, which compare with > 7.0.
   */
  lemma ThresholdBoundary(a: Aluno)
    requires a.nota1 == Some(7.0) && a.nota2 == Some(7.0) && a.nota3 == Some(7.0)
    ensures Flag(a) == SIM
    ensures !Approved(a) && Failed(a)
  {
  }

  /** Whenever the flag agrees with the scores, an approved record is flagged "SIM", and a "NÃO" one is failed. */
  lemma ApprovedIsFlaggedSim(a: Aluno)
    requires FlagConsistent(a)
    ensures Approved(a) ==> a.aprovado == Some(SIM)
    ensures a.aprovado == Some(NAO) ==> Failed(a)
  {
  }

  /** The checking service over one store. */
  class VerificaAlunoService {
    const alunoRepository: AlunoRepository

    constructor (alunoRepository: AlunoRepository)
      ensures this.alunoRepository == alunoRepository
    {
      this.alunoRepository := alunoRepository;
    }

    /** listarAlunosAprovados: the records whose average is above 7.0, in listing order. */
    method ListarAlunosAprovados() returns (aprovados: seq<Aluno>)
      requires alunoRepository.Valid()
      ensures aprovados == alunoRepository.FindApproved()
      ensures forall a :: a in aprovados <==> a in alunoRepository.FindAll() && Media(a) > 7.0
      ensures IsSubsequence(aprovados, alunoRepository.FindAll())
    {
      var alunos := alunoRepository.FindAll();
      aprovados := [];
      var i := 0;
      while i < |alunos|
        invariant 0 <= i <= |alunos|
        invariant aprovados == Filter(alunos[..i], Approved)
      {
        var aluno := alunos[i];
        FilterPrefixStep(alunos, i, Approved);
        if Media(aluno) > 7.0 {
          aprovados := aprovados + [aluno];
        }
        i := i + 1;
      }
      assert alunos[..i] == alunos;
      FilterIsSubsequence(alunos, Approved);
    }

    /**
     * listarAlunosReprovadosUmaProva: the records whose second or third score
     * is zero, in listing order -- the same list as findFailedInOneExam.
     */
    method ListarAlunosReprovadosUmaProva() returns (reprovados: seq<Aluno>)
      requires alunoRepository.Valid()
      ensures reprovados == alunoRepository.FindFailedInOneExam()
      ensures forall a :: a in reprovados <==>
        a in alunoRepository.FindAll() && (a.nota2.value == 0.0 || a.nota3.value == 0.0)
      ensures IsSubsequence(reprovados, alunoRepository.FindAll())
    {
      var alunos := alunoRepository.FindAll();
      reprovados := [];
      var i := 0;
      while i < |alunos|
        invariant 0 <= i <= |alunos|
        invariant reprovados == Filter(alunos[..i], FailedInOneExam)
      {
        var aluno := alunos[i];
        FilterPrefixStep(alunos, i, FailedInOneExam);
        if aluno.nota2.value == 0.0 || aluno.nota3.value == 0.0 {
          reprovados := reprovados + [aluno];
        }
        i := i + 1;
      }
      assert alunos[..i] == alunos;
      FilterIsSubsequence(alunos, FailedInOneExam);
    }

    /**
     * buscarAlunosAprovadosPorTurma: one page of the class's records flagged
     * "SIM", possibly empty; a refused page request raises PageRequest's error.
     */
    function BuscarAlunosAprovadosPorTurma(turma: string, pageNumber: int, pageSize: int): (r: Result<seq<Aluno>>)
      reads alunoRepository
      requires alunoRepository.Valid()
      ensures pageNumber < 0 ==> r == Err(IllegalArgument(PAGINA_NEGATIVA))
      ensures pageNumber >= 0 && pageSize < 1 ==> r == Err(IllegalArgument(TAMANHO_INVALIDO))
      ensures r.Ok? <==> ConsultaService.PageRequestValid(pageNumber, pageSize)
      ensures r.Ok? ==> && r.value == alunoRepository.FindByTurmaAndAprovado(turma, SIM, pageNumber, pageSize)
                        && |r.value| <= pageSize
                        && forall a :: a in r.value ==> a.turma == Some(turma) && a.aprovado == Some(SIM)
    {
      if pageNumber < 0 then Err(IllegalArgument(PAGINA_NEGATIVA))
      else if pageSize < 1 then Err(IllegalArgument(TAMANHO_INVALIDO))
      else Ok(alunoRepository.FindByTurmaAndAprovado(turma, SIM, pageNumber, pageSize))
    }
  }
}

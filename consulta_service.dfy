/**
 * ConsultaAlunoService: the read-only listings computed over findAll, and
 * the paged class queries that answer "not found" for an empty page.
 */
module ConsultaService {
  import opened Wrappers
  import opened Exceptions
  import opened Entities
  import opened Evaluation
  import opened Collections
  import opened Repository

  const NENHUM_APROVADO := "Nenhum aluno aprovado encontrado na turma "
  const NENHUM_REPROVADO := "Nenhum aluno reprovado encontrado na turma "
  const NENHUM_ALUNO := "Nenhum aluno encontrado na turma "
  const ERRO_APROVADOS_TURMA := "Erro ao buscar alunos aprovados por turma"
  const ERRO_REPROVADOS_TURMA := "Erro ao buscar alunos reprovados por turma"
  const ERRO_TODOS_TURMA := "Erro ao buscar todos os alunos por turma"

  /** A score counts as an exam taken when it is present and above zero. */
  predicate Feita(x: Option<real>) {
    x.Some? && x.value > 0.0
  }

  /** The number of exams taken, as the filter of listarAlunosReprovadosUmaProva counts them. */
  function ProvasFeitas(a: Aluno): (n: nat)
    ensures n <= 3
    ensures n == 0 <==> !Feita(a.nota1) && !Feita(a.nota2) && !Feita(a.nota3)
  {
    (if Feita(a.nota1) then 1 else 0) + (if Feita(a.nota2) then 1 else 0) + (if Feita(a.nota3) then 1 else 0)
  }

  /** The filter of listarAlunosReprovadosUmaProva: exactly one exam taken. */
  predicate UmaProvaFeita(a: Aluno) {
    ProvasFeitas(a) == 1
  }

  /** PageRequest.of refuses a negative page number and a page size below one. */
  predicate PageRequestValid(pageNumber: int, pageSize: int) {
    pageNumber >= 0 && pageSize >= 1
  }

  /** [9, 0, 0] counts one exam and is listed; [9, 8, 7.5] counts three and is not. */
  lemma UmaProvaExamples(a: Aluno, b: Aluno)
    requires a.nota1 == Some(9.0) && a.nota2 == Some(0.0) && a.nota3 == Some(0.0)
    requires b.nota1 == Some(9.0) && b.nota2 == Some(8.0) && b.nota3 == Some(7.5)
    ensures UmaProvaFeita(a) && !UmaProvaFeita(b)
    ensures OnlyOneExam(a) && !OnlyOneExam(b)
  {
  }

  /**
   * For records that passed validation (every score present and at least
   * zero), counting the exams above zero agrees with the native query
   * findAlunosComApenasUmaProva.
   */
  lemma UmaProvaMatchesNativeQuery(a: Aluno)
    requires Valid(a)
    ensures UmaProvaFeita(a) <==> OnlyOneExam(a)
  {
    assert a.nota1.value >= 0.0 && a.nota2.value >= 0.0 && a.nota3.value >= 0.0;
  }

  /** A record with taken exams in the middle only, such as [0, 10, 0], is listed by both. */
  lemma UmaProvaMiddleOnly(a: Aluno)
    requires a.nota1 == Some(0.0) && a.nota2 == Some(10.0) && a.nota3 == Some(0.0)
    ensures UmaProvaFeita(a) && OnlyOneExam(a) && FailedInOneExam(a)
  {
  }

  /** The read-only query service over one store. */
  class ConsultaAlunoService {
    const alunoRepository: AlunoRepository

    constructor (alunoRepository: AlunoRepository)
      ensures this.alunoRepository == alunoRepository
    {
      this.alunoRepository := alunoRepository;
    }

    /** listarTodosAlunos: every stored record, in listing order. */
    function ListarTodosAlunos(): (r: seq<Aluno>)
      reads alunoRepository
      requires alunoRepository.Valid()
      ensures |r| == |alunoRepository.order|
      ensures forall i :: 0 <= i < |r| ==> r[i] == alunoRepository.rows[alunoRepository.order[i]]
    {
      alunoRepository.FindAll()
    }

    /**
     * listarAlunosAprovados: the records whose average is above 7.0, kept in
     * listing order -- the same list as the JPQL query findApproved.
     */
    method ListarAlunosAprovados() returns (aprovados: seq<Aluno>)
      requires alunoRepository.Valid()
      ensures aprovados == alunoRepository.FindApproved()
      ensures forall a :: a in aprovados <==> a in alunoRepository.FindAll() && Media(a) > 7.0
      ensures IsSubsequence(aprovados, alunoRepository.FindAll())
    {
      var alunos := alunoRepository.FindAll();
      aprovados := [];
      var i := 0;
      while i < |alunos|
        invariant 0 <= i <= |alunos|
        invariant aprovados == Filter(alunos[..i], Approved)
      {
        var aluno := alunos[i];
        FilterPrefixStep(alunos, i, Approved);
        if Media(aluno) > 7.0 {
          aprovados := aprovados + [aluno];
        }
        i := i + 1;
      }
      assert alunos[..i] == alunos;
      FilterIsSubsequence(alunos, Approved);
    }

    /** listarAlunosReprovadosUmaProva: the records with exactly one exam taken, in listing order. */
    function ListarAlunosReprovadosUmaProva(): (r: seq<Aluno>)
      reads alunoRepository
      requires alunoRepository.Valid()
      ensures forall a :: a in r <==> a in alunoRepository.FindAll() && ProvasFeitas(a) == 1
      ensures r == alunoRepository.FindAlunosComApenasUmaProva()
      ensures IsSubsequence(r, alunoRepository.FindAll())
    {
      var all := alunoRepository.FindAll();
      forall a | a in all
        ensures UmaProvaFeita(a) == OnlyOneExam(a)
      {
        UmaProvaMatchesNativeQuery(a);
      }
      FilterExtensional(all, UmaProvaFeita, OnlyOneExam);
      FilterIsSubsequence(all, UmaProvaFeita);
      Filter(all, UmaProvaFeita)
    }

    /**
     * listarTodosAlunosReprovados: the records whose average is at most 7.0,
     * in listing order -- the same list as the JPQL query findFailed.
     */
    method ListarTodosAlunosReprovados() returns (reprovados: seq<Aluno>)
      requires alunoRepository.Valid()
      ensures reprovados == alunoRepository.FindFailed()
      ensures forall a :: a in reprovados <==> a in alunoRepository.FindAll() && Media(a) <= 7.0
      ensures IsSubsequence(reprovados, alunoRepository.FindAll())
    {
      var alunos := alunoRepository.FindAll();
      reprovados := [];
      var i := 0;
      while i < |alunos|
        invariant 0 <= i <= |alunos|
        invariant reprovados == Filter(alunos[..i], Failed)
      {
        var aluno := alunos[i];
        FilterPrefixStep(alunos, i, Failed);
        if Media(aluno) <= 7.0 {
          reprovados := reprovados + [aluno];
        }
        i := i + 1;
      }
      assert alunos[..i] == alunos;
      FilterIsSubsequence(alunos, Failed);
    }

    /**
     * buscarAlunosAprovadosPorTurma: one page of the class's records flagged
     * "SIM"; an empty page is "not found", a refused page request a service
     * failure.
     */
    function BuscarAlunosAprovadosPorTurma(turma: string, pageNumber: int, pageSize: int): (r: Result<seq<Aluno>>)
      reads alunoRepository
      requires alunoRepository.Valid()
      ensures !PageRequestValid(pageNumber, pageSize) ==> r == Err(ServiceFailure(ERRO_APROVADOS_TURMA))
      ensures PageRequestValid(pageNumber, pageSize) ==>
        (r.Err? <==> alunoRepository.FindByTurmaAndAprovado(turma, SIM, pageNumber, pageSize) == [])
      ensures r.Err? && PageRequestValid(pageNumber, pageSize) ==> r == Err(NotFound(NENHUM_APROVADO + turma))
      ensures r.Ok? ==> && r.value == alunoRepository.FindByTurmaAndAprovado(turma, SIM, pageNumber, pageSize)
                        && 1 <= |r.value| <= pageSize
                        && forall a :: a in r.value ==> a.turma == Some(turma) && a.aprovado == Some(SIM)
    {
      if !PageRequestValid(pageNumber, pageSize) then Err(ServiceFailure(ERRO_APROVADOS_TURMA))
      else
        var page := alunoRepository.FindByTurmaAndAprovado(turma, SIM, pageNumber, pageSize);
        if page == [] then Err(NotFound(NENHUM_APROVADO + turma)) else Ok(page)
    }

    /** buscarAlunosReprovadosPorTurma: as above, for the records flagged "NÃO". */
    function BuscarAlunosReprovadosPorTurma(turma: string, pageNumber: int, pageSize: int): (r: Result<seq<Aluno>>)
      reads alunoRepository
      requires alunoRepository.Valid()
      ensures !PageRequestValid(pageNumber, pageSize) ==> r == Err(ServiceFailure(ERRO_REPROVADOS_TURMA))
      ensures PageRequestValid(pageNumber, pageSize) ==>
        (r.Err? <==> alunoRepository.FindByTurmaAndAprovado(turma, NAO, pageNumber, pageSize) == [])
      ensures r.Err? && PageRequestValid(pageNumber, pageSize) ==> r == Err(NotFound(NENHUM_REPROVADO + turma))
      ensures r.Ok? ==> && r.value == alunoRepository.FindByTurmaAndAprovado(turma, NAO, pageNumber, pageSize)
                        && 1 <= |r.value| <= pageSize
                        && forall a :: a in r.value ==> a.turma == Some(turma) && a.aprovado == Some(NAO)
    {
      if !PageRequestValid(pageNumber, pageSize) then Err(ServiceFailure(ERRO_REPROVADOS_TURMA))
      else
        var page := alunoRepository.FindByTurmaAndAprovado(turma, NAO, pageNumber, pageSize);
        if page == [] then Err(NotFound(NENHUM_REPROVADO + turma)) else Ok(page)
    }

    /** buscarTodosAlunosPorTurma: one page of the class's records, whatever their flag. */
    function BuscarTodosAlunosPorTurma(turma: string, pageNumber: int, pageSize: int): (r: Result<seq<Aluno>>)
      reads alunoRepository
      requires alunoRepository.Valid()
      ensures !PageRequestValid(pageNumber, pageSize) ==> r == Err(ServiceFailure(ERRO_TODOS_TURMA))
      ensures PageRequestValid(pageNumber, pageSize) ==>
        (r.Err? <==> alunoRepository.FindByTurma(turma, pageNumber, pageSize) == [])
      ensures r.Err? && PageRequestValid(pageNumber, pageSize) ==> r == Err(NotFound(NENHUM_ALUNO + turma))
      ensures r.Ok? ==> && r.value == alunoRepository.FindByTurma(turma, pageNumber, pageSize)
                        && 1 <= |r.value| <= pageSize
                        && forall a :: a in r.value ==> a.turma == Some(turma)
    {
      if !PageRequestValid(pageNumber, pageSize) then Err(ServiceFailure(ERRO_TODOS_TURMA))
      else
        var page := alunoRepository.FindByTurma(turma, pageNumber, pageSize);
        if page == [] then Err(NotFound(NENHUM_ALUNO + turma)) else Ok(page)
    }
  }
}

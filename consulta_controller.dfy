/**
 * ConsultaAlunosController (v2): which listing a request selects, the
 * parameter checks of the class query, and the answers given back.
 */
module ConsultaController {
  import opened Wrappers
  import opened Exceptions
  import opened Entities
  import opened Evaluation
  import opened Repository
  import opened Mapper
  import ConsultaService

  /** The answers of the controller; Failure carries the exception the handler turns into a status. */
  datatype Response<T> = Success(body: T) | NoContent | BadRequest | Failure(error: Error)

  /** The status the application's exception handler gives each answer. */
  function Status<T>(r: Response<T>): (code: int)
    ensures code in {200, 204, 400, 404, 500}
    ensures code == 404 <==> r.Failure? && r.error.NotFound?
    ensures code == 400 <==> r.BadRequest? || (r.Failure? && (r.error.ConstraintViolation? || r.error.BusinessError?))
  {
    match r
    case Success(_) => 200
    case NoContent => 204
    case BadRequest => 400
    case Failure(e) =>
      match e
      case NotFound(_) => 404
      case ConstraintViolation => 400
      case BusinessError(_) => 400
      case _ => 500
  }

  /** The listing GET /v2/alunos runs. */
  datatype Listagem = Recusada | UmaProva | Aprovados | Reprovados | Todos

  const UMA_PROVA := "uma-prova"
  const SITUACAO_APROVADO := "aprovado"
  const SITUACAO_REPROVADO := "reprovado"
  const SITUACAO_TODOS := "todos"

  /**
   * The selection of listarAlunos, with exact (case-sensitive) comparisons:
   * "uma-prova" with "aprovado" is refused, "uma-prova" otherwise wins, then
   * the situation decides, and anything else lists everyone.
   */
  function SelecionarListagem(situacao: Option<string>, tipo: Option<string>): (l: Listagem)
    ensures l == Recusada <==> tipo == Some(UMA_PROVA) && situacao == Some(SITUACAO_APROVADO)
    ensures l == UmaProva <==> tipo == Some(UMA_PROVA) && situacao != Some(SITUACAO_APROVADO)
    ensures l == Aprovados <==> tipo != Some(UMA_PROVA) && situacao == Some(SITUACAO_APROVADO)
    ensures l == Reprovados <==> tipo != Some(UMA_PROVA) && situacao == Some(SITUACAO_REPROVADO)
    ensures l == Todos <==>
      tipo != Some(UMA_PROVA) && situacao != Some(SITUACAO_APROVADO) && situacao != Some(SITUACAO_REPROVADO)
  {
    if tipo == Some(UMA_PROVA) && situacao == Some(SITUACAO_APROVADO) then Recusada
    else if tipo == Some(UMA_PROVA) then UmaProva
    else if situacao == Some(SITUACAO_APROVADO) then Aprovados
    else if situacao == Some(SITUACAO_REPROVADO) then Reprovados
    else Todos
  }

  /** String.equalsIgnoreCase for ASCII text: equal after folding A-Z to a-z. */
  predicate EqualsIgnoreCase(a: string, b: string) {
    |a| == |b| && forall i :: 0 <= i < |a| ==> Lower(a[i]) == Lower(b[i])
  }

  function Lower(c: char): (d: char)
    ensures 'A' <= c <= 'Z' ==> 'a' <= d <= 'z' && d as int == c as int + 32
    ensures !('A' <= c <= 'Z') ==> d == c
  {
    if 'A' <= c <= 'Z' then (c as int + 32) as char else c
  }

  /** The class query the situation selects: case-insensitive, "todos" when absent or empty. */
  datatype ConsultaTurma = AprovadosTurma | ReprovadosTurma | TodosTurma

  function SelecionarConsultaTurma(situacao: Option<string>): (c: ConsultaTurma)
    ensures c == AprovadosTurma <==> situacao.Some? && EqualsIgnoreCase(SITUACAO_APROVADO, situacao.value)
    ensures c == ReprovadosTurma <==> situacao.Some? && EqualsIgnoreCase(SITUACAO_REPROVADO, situacao.value)
  {
    var s := if situacao.None? || situacao.value == "" then SITUACAO_TODOS else situacao.value;
    if EqualsIgnoreCase(SITUACAO_APROVADO, s) then AprovadosTurma
    else if EqualsIgnoreCase(SITUACAO_REPROVADO, s) then ReprovadosTurma
    else TodosTurma
  }

  /** "Aprovado" and "APROVADO" select the approved page like "aprovado"; "aprovados" does not. */
  lemma SituacaoCaseExamples()
    ensures SelecionarConsultaTurma(Some("Aprovado")) == AprovadosTurma
    ensures SelecionarConsultaTurma(Some("REPROVADO")) == ReprovadosTurma
    ensures SelecionarConsultaTurma(Some("aprovados")) == TodosTurma
    ensures SelecionarConsultaTurma(None) == TodosTurma
  {
    assert EqualsIgnoreCase(SITUACAO_APROVADO, "Aprovado");
    assert EqualsIgnoreCase(SITUACAO_REPROVADO, "REPROVADO");
    assert Lower(SITUACAO_REPROVADO[0]) != Lower("aprovados"[0]);
  }

  /** The controller over the query service. */
  class ConsultaAlunosController {
    const consultaAlunoService: ConsultaService.ConsultaAlunoService

    constructor (consultaAlunoService: ConsultaService.ConsultaAlunoService)
      ensures this.consultaAlunoService == consultaAlunoService
    {
      this.consultaAlunoService := consultaAlunoService;
    }

    /** The records the selected listing yields. */
    function Listados(l: Listagem): (r: seq<Aluno>)
      reads consultaAlunoService.alunoRepository
      requires consultaAlunoService.alunoRepository.Valid()
      ensures forall a :: a in r ==> a in consultaAlunoService.alunoRepository.FindAll()
      ensures l == UmaProva ==> r == consultaAlunoService.alunoRepository.FindAlunosComApenasUmaProva()
      ensures l == Aprovados ==> r == consultaAlunoService.alunoRepository.FindApproved()
      ensures l == Reprovados ==> r == consultaAlunoService.alunoRepository.FindFailed()
      ensures l == Todos || l == Recusada ==> r == consultaAlunoService.alunoRepository.FindAll()
    {
      var repo := consultaAlunoService.alunoRepository;
      match l
      case UmaProva => repo.FindAlunosComApenasUmaProva()
      case Aprovados => repo.FindApproved()
      case Reprovados => repo.FindFailed()
      case _ => repo.FindAll()
    }

    /**
     * GET /v2/alunos: the refused combination is a bad request and runs no
     * query; an empty listing is "no content"; otherwise the DTOs in order.
     */
    method ListarAlunos(situacao: Option<string>, tipo: Option<string>) returns (r: Response<seq<AlunoDTO>>)
      requires consultaAlunoService.alunoRepository.Valid()
      ensures var l := SelecionarListagem(situacao, tipo);
        && (l == Recusada ==> r == BadRequest)
        && (l != Recusada && Listados(l) == [] ==> r == NoContent)
        && (l != Recusada && Listados(l) != [] ==> r == Success(ToDTOs(Listados(l))))
      ensures r.Success? ==> |r.body| > 0 && forall d :: d in r.body ==> d.situacao == Some(APROVADO) || d.situacao == Some(REPROVADO)
    {
      var l := SelecionarListagem(situacao, tipo);
      var alunos: seq<Aluno>;
      match l {
        case Recusada =>
          return BadRequest;
        case UmaProva =>
          alunos := consultaAlunoService.ListarAlunosReprovadosUmaProva();
        case Aprovados =>
          alunos := consultaAlunoService.ListarAlunosAprovados();
        case Reprovados =>
          alunos := consultaAlunoService.ListarTodosAlunosReprovados();
        case Todos =>
          alunos := consultaAlunoService.ListarTodosAlunos();
      }
      if alunos == [] {
        return NoContent;
      }
      r := Success(ToDTOs(alunos));
    }

    /** The repository page the selected class query asks for. */
    function PaginaDaTurma(turma: string, c: ConsultaTurma, page: nat, size: nat): seq<Aluno>
      reads consultaAlunoService.alunoRepository
      requires consultaAlunoService.alunoRepository.Valid() && size >= 1
    {
      var repo := consultaAlunoService.alunoRepository;
      match c
      case AprovadosTurma => repo.FindByTurmaAndAprovado(turma, SIM, page, size)
      case ReprovadosTurma => repo.FindByTurmaAndAprovado(turma, NAO, page, size)
      case TodosTurma => repo.FindByTurma(turma, page, size)
    }

    /**
     * GET /v2/alunos/por-turma: a blank class, a negative page or a size
     * outside 1..100 is refused by parameter validation; otherwise the page
     * the situation selects, as DTOs, or the "not found" of an empty page.
     */
    function BuscarAlunosPorTurma(turma: string, situacao: Option<string>, page: int, size: int): (r: Response<seq<AlunoDTO>>)
      reads consultaAlunoService.alunoRepository
      requires consultaAlunoService.alunoRepository.Valid()
      ensures !(NotBlank(Some(turma)) && page >= 0 && 1 <= size <= 100) ==> r == Failure(ConstraintViolation)
      ensures NotBlank(Some(turma)) && page >= 0 && 1 <= size <= 100 ==>
        var p := PaginaDaTurma(turma, SelecionarConsultaTurma(situacao), page, size);
        && (r.Success? <==> p != [])
        && (r.Success? ==> r.body == ToDTOs(p))
        && (!r.Success? ==> r.Failure? && r.error.NotFound?)
      ensures r.Failure? ==> Status(r) == 400 || Status(r) == 404
      ensures r.Success? ==> 1 <= |r.body| <= size <= 100
      ensures r.Success? ==> forall d :: d in r.body ==> d.turma == Some(turma)
    {
      if !(NotBlank(Some(turma)) && page >= 0 && 1 <= size <= 100) then Failure(ConstraintViolation)
      else
        var s := consultaAlunoService;
        var res := match SelecionarConsultaTurma(situacao)
          case AprovadosTurma => s.BuscarAlunosAprovadosPorTurma(turma, page, size)
          case ReprovadosTurma => s.BuscarAlunosReprovadosPorTurma(turma, page, size)
          case TodosTurma => s.BuscarTodosAlunosPorTurma(turma, page, size);
        match res
        case Ok(alunos) =>
          ToDTOsKeepTurma(alunos, Some(turma));
          Success(ToDTOs(alunos))
        case Err(e) => Failure(e)
    }
  }
}

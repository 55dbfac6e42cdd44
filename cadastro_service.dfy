/**
 * The current AlunoService: inclusion, update and removal of a record with
 * the business errors it raises, and the evaluation pass that rewrites
 * every approval flag. Each operation on the store is specified by a pure
 * outcome function on Table; the methods are proved to compute it.
 */
module CadastroService {
  import opened Wrappers
  import opened Exceptions
  import opened Entities
  import opened Evaluation
  import opened Collections
  import opened Repository

  /** incluirAluno accepts only a cpf of exactly this many UTF-16 units. */
  const CPF_LENGTH: nat := 14
  const CPF_INVALIDO := "O CPF do aluno não é válido"
  const CPF_JA_CADASTRADO := "CPF já cadastrado"
  const OUTRA_TURMA := "Aluno já cadastrado em outra turma"
  const ERRO_INCLUIR := "Erro ao incluir aluno"
  const ERRO_ALTERAR := "Erro ao alterar aluno"

  /** The message of ResourceNotFoundException for a missing cpf. */
  function NaoEncontrado(cpf: string): string {
    "Aluno com CPF " + cpf + " não encontrado"
  }

  /** The cpf check of incluirAluno: not null and of length 14. */
  predicate CpfAccepted(cpf: Option<string>) {
    cpf.Some? && JavaLength(cpf.value) == CPF_LENGTH
  }

  // ---------------------------------------------------------------------------
  // The outcomes, as functions of the store before the call

  /** incluirAluno on a store: the answer and the store afterwards. */
  function Inclusion(t: Table, a: Aluno): (o: (Result<Aluno>, Table))
    ensures o.0.Err? ==> o.1 == t
    ensures o.0.Ok? <==> CpfAccepted(a.cpf) && a.cpf.value !in t.rows && HasNotas(a) && Valid(a)
    ensures o.0.Ok? ==> HasNotas(a) && o.0.value == Reevaluated(a) && o.1 == Saved(t, o.0.value)
    ensures !CpfAccepted(a.cpf) ==> o.0 == Err(BusinessError(CPF_INVALIDO))
    ensures CpfAccepted(a.cpf) && a.cpf.value in t.rows ==> o.0 == Err(BusinessError(CPF_JA_CADASTRADO))
    ensures CpfAccepted(a.cpf) && a.cpf.value !in t.rows && !HasNotas(a) ==> o.0 == Err(ServiceFailure(ERRO_INCLUIR))
    ensures o.0 != Err(BusinessError(OUTRA_TURMA))
  {
    if !CpfAccepted(a.cpf) then (Err(BusinessError(CPF_INVALIDO)), t)
    else if a.cpf.value in t.rows then (Err(BusinessError(CPF_JA_CADASTRADO)), t)
    else if !HasNotas(a) then (Err(ServiceFailure(ERRO_INCLUIR)), t)
    else
      var s := Reevaluated(a);
      if Valid(s) then (Ok(s), Saved(t, s)) else (Err(ConstraintViolation), t)
  }

  /** alterarAluno on a store: the answer and the store afterwards. */
  function Alteration(t: Table, cpf: string, incoming: Aluno): (o: (Result<Aluno>, Table))
    ensures cpf !in t.rows ==> o == (Err(NotFound(NaoEncontrado(cpf))), t)
    ensures o.0.Err? ==> o.1 == t
    ensures o.0.Ok? <==> cpf in t.rows && HasNotas(incoming) && Valid(Overwritten(t.rows[cpf], incoming))
    ensures cpf in t.rows && !HasNotas(incoming) ==> o.0 == Err(ServiceFailure(ERRO_ALTERAR))
    ensures o.0.Ok? ==>
      && cpf in t.rows && HasNotas(Overwritten(t.rows[cpf], incoming))
      && o.0.value == Reevaluated(Overwritten(t.rows[cpf], incoming))
      && o.1 == Saved(t, o.0.value)
  {
    if cpf !in t.rows then (Err(NotFound(NaoEncontrado(cpf))), t)
    else
      var u := Overwritten(t.rows[cpf], incoming);
      if !HasNotas(u) then (Err(ServiceFailure(ERRO_ALTERAR)), t)
      else
        var s := Reevaluated(u);
        if Valid(s) then (Ok(s), Saved(t, s)) else (Err(ConstraintViolation), t)
  }

  /** excluirAluno on a store: the answer and the store afterwards. */
  function Exclusion(t: Table, cpf: string): (o: (Result<()>, Table))
    ensures o.0.Err? <==> cpf !in t.rows
    ensures o.0.Err? ==> o == (Err(NotFound(NaoEncontrado(cpf))), t)
    ensures o.0.Ok? ==> o.1 == Deleted(t, cpf)
  {
    if cpf !in t.rows then (Err(NotFound(NaoEncontrado(cpf))), t)
    else (Ok(()), Deleted(t, cpf))
  }

  /** avaliarAlunos on a consistent store: every flag rewritten, the order kept. */
  function Evaluated(t: Table): (r: Table)
    requires Consistent(t)
    ensures r.order == t.order && r.rows.Keys == t.rows.Keys
    ensures forall k :: k in r.rows ==> FlagConsistent(r.rows[k]) && r.rows[k].(aprovado := t.rows[k].aprovado) == t.rows[k]
  {
    Table(ReevaluatedRows(t.rows), t.order)
  }

  /** The rows of a store part-way through the evaluation pass: the keys in done are rewritten. */
  ghost function EvaluatedUpTo(m: map<string, Aluno>, done: seq<string>): map<string, Aluno>
    requires forall k :: k in m ==> HasNotas(m[k])
  {
    map k | k in m :: if k in done then Reevaluated(m[k]) else m[k]
  }

  /** One more key done rewrites exactly that row. */
  lemma EvaluatedUpToStep(m: map<string, Aluno>, done: seq<string>, k: string)
    requires forall x :: x in m ==> HasNotas(m[x])
    requires k in m && k !in done
    ensures EvaluatedUpTo(m, done + [k]) == EvaluatedUpTo(m, done)[k := Reevaluated(m[k])]
  {
  }

  /** Saving the next re-evaluated row of the listing is one more step of the pass. */
  lemma EvaluatedUpToSaved(t: Table, i: nat)
    requires Consistent(t) && i < |t.order|
    ensures var k := t.order[i];
      && k in t.rows && HasNotas(t.rows[k])
      && Reevaluated(t.rows[k]).cpf == Some(k) && Valid(Reevaluated(t.rows[k]))
      && Saved(Table(EvaluatedUpTo(t.rows, t.order[..i]), t.order), Reevaluated(t.rows[k]))
         == Table(EvaluatedUpTo(t.rows, t.order[..i + 1]), t.order)
  {
    var k := t.order[i];
    DistinctNext(t.order, i);
    EvaluatedUpToStep(t.rows, t.order[..i], k);
  }

  /** With no key done, nothing is rewritten yet. */
  lemma EvaluatedUpToNone(m: map<string, Aluno>)
    requires forall k :: k in m ==> HasNotas(m[k])
    ensures EvaluatedUpTo(m, []) == m
  {
  }

  /** With every key done, the pass is complete. */
  lemma EvaluatedUpToAll(t: Table)
    requires Consistent(t)
    ensures EvaluatedUpTo(t.rows, t.order) == Evaluated(t).rows
  {
  }

  // ---------------------------------------------------------------------------
  // What the outcomes preserve

  /**
   * A successful inclusion adds exactly one row, under a cpf not yet stored,
   * last in the listing, with an approval flag that agrees with its scores;
   * the rows already stored are untouched and the store stays consistent.
   */
  lemma InclusionConsistent(t: Table, a: Aluno)
    requires Consistent(t)
    ensures Consistent(Inclusion(t, a).1)
    ensures var o := Inclusion(t, a);
      o.0.Ok? ==>
        && o.0.value.cpf == a.cpf && FlagConsistent(o.0.value)
        && o.1.order == t.order + [a.cpf.value]
        && o.1.rows == t.rows[a.cpf.value := o.0.value]
  {
    var o := Inclusion(t, a);
    if o.0.Ok? {
      SavedConsistent(t, o.0.value);
    }
  }

  /**
   * A successful update keeps the row's cpf and place in the listing, takes
   * the other data from the incoming record, agrees with its scores, and
   * keeps the store consistent.
   */
  lemma AlterationConsistent(t: Table, cpf: string, incoming: Aluno)
    requires Consistent(t)
    ensures Consistent(Alteration(t, cpf, incoming).1)
    ensures var o := Alteration(t, cpf, incoming);
      o.0.Ok? ==>
        && o.0.value.cpf == Some(cpf) && FlagConsistent(o.0.value)
        && o.0.value.(cpf := incoming.cpf, aprovado := incoming.aprovado) == incoming
        && o.1.order == t.order
        && o.1.rows == t.rows[cpf := o.0.value]
  {
    var o := Alteration(t, cpf, incoming);
    if o.0.Ok? {
      SavedConsistent(t, o.0.value);
    }
  }

  /** A successful removal drops the row and its key from the listing; the store stays consistent. */
  lemma ExclusionConsistent(t: Table, cpf: string)
    requires Consistent(t)
    ensures Consistent(Exclusion(t, cpf).1)
    ensures Exclusion(t, cpf).0.Ok? ==> cpf !in Exclusion(t, cpf).1.rows && cpf !in Exclusion(t, cpf).1.order
  {
    DeletedConsistent(t, cpf);
  }

  /** The evaluation pass keeps the store consistent, and a second pass changes nothing. */
  lemma EvaluatedConsistent(t: Table)
    requires Consistent(t)
    ensures Consistent(Evaluated(t))
    ensures Evaluated(Evaluated(t)) == Evaluated(t)
  {
    var e := Evaluated(t);
    forall k | k in e.rows
      ensures e.rows[k].cpf == Some(k) && Valid(e.rows[k])
    {
      AprovadoUnconstrained(t.rows[k], e.rows[k].aprovado);
      assert e.rows[k] == t.rows[k].(aprovado := e.rows[k].aprovado);
    }
    ReevaluationIdempotent(t.rows);
  }

  /** The scores of the service tests: [9, 8, 7] is stored as "SIM" and [6, 5, 7] as "NÃO". */
  lemma InclusionFlagExamples(t: Table, a: Aluno, b: Aluno)
    requires CpfAccepted(a.cpf) && a.cpf.value !in t.rows && Valid(a)
    requires a.nota1 == Some(9.0) && a.nota2 == Some(8.0) && a.nota3 == Some(7.0)
    requires CpfAccepted(b.cpf) && b.cpf.value !in t.rows && Valid(b)
    requires b.nota1 == Some(6.0) && b.nota2 == Some(5.0) && b.nota3 == Some(7.0)
    ensures Inclusion(t, a).0.Ok? && Inclusion(t, a).0.value.aprovado == Some(SIM)
    ensures Inclusion(t, b).0.Ok? && Inclusion(t, b).0.value.aprovado == Some(NAO)
  {
    FlagExamples(a, b);
  }

  // ---------------------------------------------------------------------------
  // The service object

  /** The service over one store. */
  class AlunoService {
    const alunoRepository: AlunoRepository

    constructor (alunoRepository: AlunoRepository)
      ensures this.alunoRepository == alunoRepository
    {
      this.alunoRepository := alunoRepository;
    }

    /** listarAlunos: every stored record, in listing order. */
    function ListarAlunos(): (r: seq<Aluno>)
      reads alunoRepository
      requires alunoRepository.Valid()
      ensures |r| == |alunoRepository.order|
      ensures forall i :: 0 <= i < |r| ==> r[i] == alunoRepository.rows[alunoRepository.order[i]]
      ensures forall a :: a in r ==> Valid(a) && a.cpf.Some? && a.cpf.value in alunoRepository.rows
    {
      alunoRepository.FindAll()
    }

    /**
     * incluirAluno: the checks in order (cpf of length 14, cpf not stored,
     * scores present), then the flag is set on the caller's object and the
     * record saved. The caller's object keeps its new flag even when saving
     * is refused.
     */
    method IncluirAluno(aluno: AlunoEntity) returns (r: Result<Aluno>)
      requires alunoRepository.Valid()
      modifies alunoRepository, aluno
      ensures alunoRepository.Valid()
      ensures (r, alunoRepository.State()) == Inclusion(old(alunoRepository.State()), old(aluno.Snapshot()))
      ensures aluno.Snapshot() ==
        if CpfAccepted(old(aluno.cpf)) && old(aluno.cpf).value !in old(alunoRepository.rows) && HasNotas(old(aluno.Snapshot()))
        then Reevaluated(old(aluno.Snapshot())) else old(aluno.Snapshot())
    {
      var cpf, turma := aluno.cpf, aluno.turma;
      if cpf.None? || JavaLength(cpf.value) != CPF_LENGTH {
        return Err(BusinessError(CPF_INVALIDO));
      }
      if alunoRepository.ExistsById(cpf.value) {
        return Err(BusinessError(CPF_JA_CADASTRADO));
      }
      // The check against another class: findById cannot find what
      // existsById has just missed.
      match alunoRepository.FindById(cpf.value) {
        case Some(existente) =>
          if turma.None? {
            return Err(ServiceFailure(ERRO_INCLUIR));
          }
          if turma != existente.turma {
            return Err(BusinessError(OUTRA_TURMA));
          }
        case None =>
      }
      if !HasNotas(aluno.Snapshot()) {
        return Err(ServiceFailure(ERRO_INCLUIR));
      }
      var media := Media(aluno.Snapshot());
      aluno.SetAprovado(Some(if media >= THRESHOLD then SIM else NAO));
      var salvo := aluno.Snapshot();
      var ok := alunoRepository.Save(salvo);
      if ok {
        r := Ok(salvo);
      } else {
        r := Err(ConstraintViolation);
      }
    }

    /**
     * alterarAluno: the stored record is loaded, six fields are overwritten
     * from the incoming one (not cpf, not the flag), the flag is recomputed
     * and the record saved.
     */
    method AlterarAluno(cpf: string, aluno: Aluno) returns (r: Result<Aluno>)
      requires alunoRepository.Valid()
      modifies alunoRepository
      ensures alunoRepository.Valid()
      ensures (r, alunoRepository.State()) == Alteration(old(alunoRepository.State()), cpf, aluno)
    {
      var encontrado := alunoRepository.FindById(cpf);
      if encontrado.None? {
        return Err(NotFound(NaoEncontrado(cpf)));
      }
      var e := encontrado.value;
      var existente := new AlunoEntity(e.cpf, e.nome, e.endereco, e.turma, e.nota1, e.nota2, e.nota3, e.aprovado);
      existente.SetNome(aluno.nome);
      existente.SetEndereco(aluno.endereco);
      existente.SetTurma(aluno.turma);
      existente.SetNota1(aluno.nota1);
      existente.SetNota2(aluno.nota2);
      existente.SetNota3(aluno.nota3);
      if !HasNotas(existente.Snapshot()) {
        return Err(ServiceFailure(ERRO_ALTERAR));
      }
      var media := Media(existente.Snapshot());
      existente.SetAprovado(Some(if media >= THRESHOLD then SIM else NAO));
      var alterado := existente.Snapshot();
      var ok := alunoRepository.Save(alterado);
      if ok {
        r := Ok(alterado);
      } else {
        r := Err(ConstraintViolation);
      }
    }

    /** excluirAluno: a missing cpf is an error; otherwise the row is deleted. */
    method ExcluirAluno(cpf: string) returns (r: Result<()>)
      requires alunoRepository.Valid()
      modifies alunoRepository
      ensures alunoRepository.Valid()
      ensures (r, alunoRepository.State()) == Exclusion(old(alunoRepository.State()), cpf)
    {
      if !alunoRepository.ExistsById(cpf) {
        return Err(NotFound(NaoEncontrado(cpf)));
      }
      alunoRepository.DeleteById(cpf);
      r := Ok(());
    }

    /** avaliarAlunos: each listed record gets the flag of its average and is saved back. */
    method AvaliarAlunos()
      requires alunoRepository.Valid()
      modifies alunoRepository
      ensures alunoRepository.Valid()
      ensures alunoRepository.State() == Evaluated(old(alunoRepository.State()))
    {
      ghost var t0 := alunoRepository.State();
      var alunos := alunoRepository.FindAll();
      EvaluatedUpToNone(t0.rows);
      var i := 0;
      while i < |alunos|
        invariant 0 <= i <= |alunos| == |t0.order|
        invariant alunoRepository.Valid()
        invariant alunoRepository.State() == Table(EvaluatedUpTo(t0.rows, t0.order[..i]), t0.order)
      {
        EvaluatedUpToSaved(t0, i);
        AvaliarAluno(alunos[i]);
        i := i + 1;
      }
      assert t0.order[..i] == t0.order;
      EvaluatedUpToAll(t0);
    }

    /** The body of the loop of avaliarAlunos: one record gets the flag of its average and is saved. */
    method AvaliarAluno(aluno: Aluno)
      requires alunoRepository.Valid() && HasNotas(aluno) && aluno.cpf.Some?
      modifies alunoRepository
      ensures alunoRepository.Valid()
      ensures alunoRepository.State() ==
        if Valid(Reevaluated(aluno)) then Saved(old(alunoRepository.State()), Reevaluated(aluno))
        else old(alunoRepository.State())
    {
      var media := Media(aluno);
      var avaliado := aluno.(aprovado := Some(if media >= THRESHOLD then SIM else NAO));
      var ok := alunoRepository.Save(avaliado);
    }
  }
}

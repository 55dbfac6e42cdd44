/**
 * The earlier AlunoService (the main/java tree): no cpf-length check, no
 * computation of the flag on the record itself, and a full evaluation pass
 * over the store after every inclusion, update and removal.
 */
module LegacyService {
  import opened Wrappers
  import opened Exceptions
  import opened Entities
  import opened Evaluation
  import opened Collections
  import opened Repository
  import CadastroService

  /** What the store raises when existsById is given a null id. */
  const ID_NULO := "The given id must not be null"

  // ---------------------------------------------------------------------------
  // The outcomes, as functions of the store before the call

  /** incluirAluno, then avaliarAlunos. */
  function Inclusion(t: Table, a: Aluno): (o: (Result<Aluno>, Table))
    requires Consistent(t)
    ensures o.0.Err? ==> o.1 == t
    ensures a.cpf.None? ==> o.0 == Err(StoreFailure(ID_NULO))
    ensures a.cpf.Some? && a.cpf.value in t.rows ==> o.0 == Err(IllegalArgument(CadastroService.CPF_JA_CADASTRADO))
    ensures o.0.Ok? <==> a.cpf.Some? && a.cpf.value !in t.rows && Valid(a)
    ensures o.0.Ok? ==> o.0.value == a && Consistent(Saved(t, a)) && o.1 == CadastroService.Evaluated(Saved(t, a))
    ensures o.0 != Err(IllegalArgument(CadastroService.OUTRA_TURMA))
  {
    if a.cpf.None? then (Err(StoreFailure(ID_NULO)), t)
    else if a.cpf.value in t.rows then (Err(IllegalArgument(CadastroService.CPF_JA_CADASTRADO)), t)
    else if !Valid(a) then (Err(ConstraintViolation), t)
    else
      SavedConsistent(t, a);
      (Ok(a), CadastroService.Evaluated(Saved(t, a)))
  }

  /** alterarAluno, then avaliarAlunos. The answer is the record as saved, before the pass. */
  function Alteration(t: Table, cpf: string, incoming: Aluno): (o: (Result<Aluno>, Table))
    requires Consistent(t)
    ensures cpf !in t.rows ==> o == (Err(IllegalArgument(CadastroService.NaoEncontrado(cpf))), t)
    ensures o.0.Err? ==> o.1 == t
    ensures o.0.Ok? <==> cpf in t.rows && Valid(Overwritten(t.rows[cpf], incoming))
    ensures o.0.Ok? ==>
      && cpf in t.rows && o.0.value == Overwritten(t.rows[cpf], incoming)
      && Consistent(Saved(t, o.0.value)) && o.1 == CadastroService.Evaluated(Saved(t, o.0.value))
  {
    if cpf !in t.rows then (Err(IllegalArgument(CadastroService.NaoEncontrado(cpf))), t)
    else
      var u := Overwritten(t.rows[cpf], incoming);
      if !Valid(u) then (Err(ConstraintViolation), t)
      else
        SavedConsistent(t, u);
        (Ok(u), CadastroService.Evaluated(Saved(t, u)))
  }

  /** excluirAluno, then avaliarAlunos: no existence check, a missing cpf deletes nothing. */
  function Exclusion(t: Table, cpf: string): (o: (Result<()>, Table))
    requires Consistent(t)
    ensures o.0 == Ok(())
    ensures Consistent(Deleted(t, cpf)) && o.1 == CadastroService.Evaluated(Deleted(t, cpf))
  {
    DeletedConsistent(t, cpf);
    (Ok(()), CadastroService.Evaluated(Deleted(t, cpf)))
  }

  // ---------------------------------------------------------------------------
  // Properties of the outcomes

  /** After any successful write every stored flag, not only the written one, agrees with its scores. */
  predicate AllFlagsConsistent(t: Table) {
    forall k :: k in t.rows ==> FlagConsistent(t.rows[k])
  }

  /** The evaluation pass leaves every flag in agreement with its scores. */
  lemma EvaluatedFlags(t: Table)
    requires Consistent(t)
    ensures AllFlagsConsistent(CadastroService.Evaluated(t))
  {
    var e := CadastroService.Evaluated(t);
    forall k | k in e.rows
      ensures FlagConsistent(e.rows[k])
    {
    }
  }

  /**
   * A successful inclusion stores the record, re-evaluated, under its new cpf
   * at the end of the listing; every flag of the store is rewritten and the
   * store stays consistent.
   */
  lemma InclusionConsistent(t: Table, a: Aluno)
    requires Consistent(t)
    ensures Consistent(Inclusion(t, a).1)
    ensures var o := Inclusion(t, a);
      o.0.Ok? ==>
        && AllFlagsConsistent(o.1)
        && o.1.order == t.order + [a.cpf.value]
        && HasNotas(a) && o.1.rows[a.cpf.value] == Reevaluated(a)
  {
    var o := Inclusion(t, a);
    if o.0.Ok? {
      CadastroService.EvaluatedConsistent(Saved(t, a));
      EvaluatedFlags(Saved(t, a));
    }
  }

  /** An update keeps the store consistent. */
  lemma AlterationConsistent(t: Table, cpf: string, incoming: Aluno)
    requires Consistent(t)
    ensures Consistent(Alteration(t, cpf, incoming).1)
  {
    var o := Alteration(t, cpf, incoming);
    if o.0.Ok? {
      CadastroService.EvaluatedConsistent(Saved(t, o.0.value));
    }
  }

  /** A successful update keeps the key and the listing, and rewrites every flag. */
  lemma AlterationKeepsListing(t: Table, cpf: string, incoming: Aluno)
    requires Consistent(t) && Alteration(t, cpf, incoming).0.Ok?
    ensures var o := Alteration(t, cpf, incoming);
      && AllFlagsConsistent(o.1)
      && o.0.value.cpf == Some(cpf)
      && o.1.order == t.order
      && o.1.rows.Keys == t.rows.Keys
  {
    var u := Overwritten(t.rows[cpf], incoming);
    assert u.cpf == Some(cpf);
    var s := Saved(t, u);
    assert s.order == t.order && s.rows.Keys == t.rows.Keys;
    EvaluatedFlags(s);
  }

  /** Removal always keeps the store consistent and rewrites every remaining flag; a missing cpf only re-evaluates. */
  lemma ExclusionConsistent(t: Table, cpf: string)
    requires Consistent(t)
    ensures Consistent(Exclusion(t, cpf).1) && AllFlagsConsistent(Exclusion(t, cpf).1)
    ensures cpf !in t.rows ==> Exclusion(t, cpf).1 == CadastroService.Evaluated(t)
  {
    var d := Deleted(t, cpf);
    CadastroService.EvaluatedConsistent(d);
    EvaluatedFlags(d);
    if cpf !in t.rows {
      assert cpf !in t.order;
    }
  }

  /**
   * A valid record whose cpf has 13 characters is accepted here and refused
   * by the current service, which wants exactly 14.
   */
  lemma ThirteenCharacterCpf(t: Table, a: Aluno)
    requires Consistent(t) && Valid(a) && a.cpf.Some? && a.cpf.value !in t.rows
    requires JavaLength(a.cpf.value) == 13
    ensures Inclusion(t, a).0 == Ok(a)
    ensures CadastroService.Inclusion(t, a).0 == Err(BusinessError(CadastroService.CPF_INVALIDO))
  {
    assert !CadastroService.CpfAccepted(a.cpf);
  }

  /**
   * The answer of an inclusion carries the flag the caller sent, which differs
   * from the stored one whenever the caller's flag disagrees with the scores.
   */
  lemma InclusionAnswersStaleFlag(t: Table, a: Aluno)
    requires Consistent(t) && Inclusion(t, a).0.Ok?
    requires HasNotas(a) && a.aprovado != Some(Flag(a))
    ensures Inclusion(t, a).0.value != Inclusion(t, a).1.rows[a.cpf.value]
  {
    InclusionConsistent(t, a);
  }

  // ---------------------------------------------------------------------------
  // The service object

  /** The earlier service over one store. */
  class AlunoService {
    const alunoRepository: AlunoRepository

    constructor (alunoRepository: AlunoRepository)
      ensures this.alunoRepository == alunoRepository
    {
      this.alunoRepository := alunoRepository;
    }

    /** listarAlunos: every stored record, in listing order. */
    function ListarAlunos(): (r: seq<Aluno>)
      reads alunoRepository
      requires alunoRepository.Valid()
      ensures |r| == |alunoRepository.order|
      ensures forall i :: 0 <= i < |r| ==> r[i] == alunoRepository.rows[alunoRepository.order[i]]
      ensures forall a :: a in r ==> Valid(a) && a.cpf.Some? && a.cpf.value in alunoRepository.rows
    {
      alunoRepository.FindAll()
    }

    /** incluirAluno: the record is saved as given, then every record is re-evaluated. */
    method IncluirAluno(aluno: Aluno) returns (r: Result<Aluno>)
      requires alunoRepository.Valid()
      modifies alunoRepository
      ensures alunoRepository.Valid()
      ensures (r, alunoRepository.State()) == Inclusion(old(alunoRepository.State()), aluno)
    {
      if aluno.cpf.None? {
        return Err(StoreFailure(ID_NULO));
      }
      var cpf := aluno.cpf.value;
      if alunoRepository.ExistsById(cpf) {
        return Err(IllegalArgument(CadastroService.CPF_JA_CADASTRADO));
      }
      if alunoRepository.ExistsByCpfAndTurmaNot(cpf, aluno.turma) {
        return Err(IllegalArgument(CadastroService.OUTRA_TURMA));
      }
      var ok := alunoRepository.Save(aluno);
      if !ok {
        return Err(ConstraintViolation);
      }
      AvaliarAlunos();
      r := Ok(aluno);
    }

    /** alterarAluno: six fields overwritten and saved, then every record is re-evaluated. */
    method AlterarAluno(cpf: string, aluno: Aluno) returns (r: Result<Aluno>)
      requires alunoRepository.Valid()
      modifies alunoRepository
      ensures alunoRepository.Valid()
      ensures (r, alunoRepository.State()) == Alteration(old(alunoRepository.State()), cpf, aluno)
    {
      var encontrado := alunoRepository.FindById(cpf);
      if encontrado.None? {
        return Err(IllegalArgument(CadastroService.NaoEncontrado(cpf)));
      }
      var e := encontrado.value;
      var existente := new AlunoEntity(e.cpf, e.nome, e.endereco, e.turma, e.nota1, e.nota2, e.nota3, e.aprovado);
      existente.SetNome(aluno.nome);
      existente.SetEndereco(aluno.endereco);
      existente.SetTurma(aluno.turma);
      existente.SetNota1(aluno.nota1);
      existente.SetNota2(aluno.nota2);
      existente.SetNota3(aluno.nota3);
      var alterado := existente.Snapshot();
      var ok := alunoRepository.Save(alterado);
      if !ok {
        return Err(ConstraintViolation);
      }
      AvaliarAlunos();
      r := Ok(alterado);
    }

    /** excluirAluno: deleteById without a check, then every record is re-evaluated. */
    method ExcluirAluno(cpf: string) returns (r: Result<()>)
      requires alunoRepository.Valid()
      modifies alunoRepository
      ensures alunoRepository.Valid()
      ensures (r, alunoRepository.State()) == Exclusion(old(alunoRepository.State()), cpf)
    {
      alunoRepository.DeleteById(cpf);
      AvaliarAlunos();
      r := Ok(());
    }

    /** avaliarAlunos: each listed record gets the flag of its average and is saved back. */
    method AvaliarAlunos()
      requires alunoRepository.Valid()
      modifies alunoRepository
      ensures alunoRepository.Valid()
      ensures alunoRepository.State() == CadastroService.Evaluated(old(alunoRepository.State()))
    {
      ghost var t0 := alunoRepository.State();
      var alunos := alunoRepository.FindAll();
      CadastroService.EvaluatedUpToNone(t0.rows);
      var i := 0;
      while i < |alunos|
        invariant 0 <= i <= |alunos| == |t0.order|
        invariant alunoRepository.Valid()
        invariant alunoRepository.State() == Table(CadastroService.EvaluatedUpTo(t0.rows, t0.order[..i]), t0.order)
      {
        CadastroService.EvaluatedUpToSaved(t0, i);
        AvaliarAluno(alunos[i]);
        i := i + 1;
      }
      assert t0.order[..i] == t0.order;
      CadastroService.EvaluatedUpToAll(t0);
    }

    /** The body of the loop of avaliarAlunos, with the average and the flag written inline. */
    method AvaliarAluno(aluno: Aluno)
      requires alunoRepository.Valid() && HasNotas(aluno) && aluno.cpf.Some?
      modifies alunoRepository
      ensures alunoRepository.Valid()
      ensures alunoRepository.State() ==
        if Valid(Reevaluated(aluno)) then Saved(old(alunoRepository.State()), Reevaluated(aluno))
        else old(alunoRepository.State())
    {
      var media := (aluno.nota1.value + aluno.nota2.value + aluno.nota3.value) / 3.0;
      var avaliado := aluno.(aprovado := Some(if media >= 7.0 then "SIM" else "NÃO"));
      assert avaliado == Reevaluated(aluno);
      var ok := alunoRepository.Save(avaliado);
    }
  }
}

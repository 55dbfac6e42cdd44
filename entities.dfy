/**
 * The student record (entity Aluno, table ALUNOS): its fields, the
 * bean-validation constraints declared on them, and the mutable Java object
 * with its constructors and setters.
 */
module Entities {
  import opened Wrappers

  /** The value of one record, as stored in a row of ALUNOS. None is Java's null. */
  datatype Aluno = Aluno(
    cpf: Option<string>,
    nome: Option<string>,
    endereco: Option<string>,
    turma: Option<string>,
    nota1: Option<real>,
    nota2: Option<real>,
    nota3: Option<real>,
    aprovado: Option<string>)

  // ---------------------------------------------------------------------------
  // Java strings

  /** String.length(): UTF-16 code units, so a character outside the BMP counts twice. */
  function JavaLength(s: string): (n: nat)
    ensures |s| <= n <= 2 * |s|
    ensures (forall i :: 0 <= i < |s| ==> s[i] as int <= 0xFFFF) ==> n == |s|
  {
    if s == [] then 0
    else (if s[0] as int > 0xFFFF then 2 else 1) + JavaLength(s[1..])
  }

  // ---------------------------------------------------------------------------
  // The constraints of the entity

  const CPF_MIN: nat := 13
  const CPF_MAX: nat := 14
  const NOME_MIN: nat := 10
  const NOME_MAX: nat := 40
  const ENDERECO_MIN: nat := 25
  const ENDERECO_MAX: nat := 100
  const TURMA_MIN: nat := 4
  const TURMA_MAX: nat := 5
  const NOTA_MIN: real := 0.0
  const NOTA_MAX: real := 10.0

  /**
   * @NotBlank: not null, and not empty once String.trim() has removed the
   * leading and trailing characters up to ' ' -- that is, some character
   * is above ' '.
   */
  predicate NotBlank(s: Option<string>) {
    s.Some? && exists i | 0 <= i < |s.value| :: s.value[i] > ' '
  }

  /** @Size(min, max): null passes; otherwise the Java length is within the bounds. */
  predicate SizeWithin(s: Option<string>, min: nat, max: nat) {
    s.None? || min <= JavaLength(s.value) <= max
  }

  /** @NotNull with @DecimalMin("0.0") and @DecimalMax("10.0"), both inclusive. */
  predicate ScoreInRange(x: Option<real>) {
    x.Some? && NOTA_MIN <= x.value <= NOTA_MAX
  }

  /** A record that passes every constraint declared on the entity. */
  predicate Valid(a: Aluno) {
    && NotBlank(a.cpf) && SizeWithin(a.cpf, CPF_MIN, CPF_MAX)
    && NotBlank(a.nome) && SizeWithin(a.nome, NOME_MIN, NOME_MAX)
    && NotBlank(a.endereco) && SizeWithin(a.endereco, ENDERECO_MIN, ENDERECO_MAX)
    && NotBlank(a.turma) && SizeWithin(a.turma, TURMA_MIN, TURMA_MAX)
    && ScoreInRange(a.nota1) && ScoreInRange(a.nota2) && ScoreInRange(a.nota3)
  }

  /** One failed constraint: the field and the message declared for it. */
  datatype Violation = Violation(field: string, message: string)

  function TextViolations(field: string, s: Option<string>, min: nat, max: nat,
                          blankMessage: string, sizeMessage: string): seq<Violation>
  {
    (if NotBlank(s) then [] else [Violation(field, blankMessage)])
    + (if SizeWithin(s, min, max) then [] else [Violation(field, sizeMessage)])
  }

  function ScoreViolations(field: string, x: Option<real>,
                           nullMessage: string, minMessage: string, maxMessage: string): seq<Violation>
  {
    match x
    case None => [Violation(field, nullMessage)]
    case Some(v) =>
      (if v < NOTA_MIN then [Violation(field, minMessage)] else [])
      + (if v > NOTA_MAX then [Violation(field, maxMessage)] else [])
  }

  /**
   * The violations bean validation reports for a record, with the messages
   * declared on the entity (listed in field order; the validator itself
   * gives them no order). The record is valid exactly when there is none.
   */
  function Violations(a: Aluno): (vs: seq<Violation>)
    ensures vs == [] <==> Valid(a)
    ensures forall v :: v in vs ==> v.field in {"cpf", "nome", "endereco", "turma", "nota1", "nota2", "nota3"}
  {
    TextViolations("cpf", a.cpf, CPF_MIN, CPF_MAX,
      "O CPF do aluno não pode ser nulo ou vazio",
      "O campo CPF deve ter 13 caracteres")
    + TextViolations("nome", a.nome, NOME_MIN, NOME_MAX,
      "O nome do aluno não pode ser nulo ou vazio",
      "O campo NOME_ALUNO deve ter no minimo 10 caracteres e no maximo 40 ")
    + TextViolations("endereco", a.endereco, ENDERECO_MIN, ENDERECO_MAX,
      "O endereço do aluno não pode ser nulo ou vazio",
      "O campo ENDERECO_ALUNO deve ter no minimo 25 caracteres e no maximo 100 ")
    + TextViolations("turma", a.turma, TURMA_MIN, TURMA_MAX,
      "A turma do aluno não pode ser nula ou vazia",
      "O campo TURMA deve ter no minimo 4 caracteres e no maximo 5 ")
    + ScoreViolations("nota1", a.nota1,
      "A nota da primeira avaliação do aluno não pode ser nula ou vazia",
      "O campo NOTA_1 deve ser no mínimo 0.0",
      "O campo NOTA_1 deve ser no máximo 10.0")
    + ScoreViolations("nota2", a.nota2,
      "A nota da primeira avaliação do aluno não pode ser nula ou vazia",
      "O campo NOTA_2 deve ser no mínimo 0.0",
      "O campo NOTA_2 deve ser no máximo 10.0")
    + ScoreViolations("nota3", a.nota3,
      "A nota da primeira avaliação do aluno não pode ser nula ou vazia",
      "O campo NOTA_3 deve ser no mínimo 0.0",
      "O campo NOTA_3 deve ser no máximo 10.0")
  }

  /** A valid record has a cpf of 13 or 14 UTF-16 units with a non-blank character. */
  lemma ValidCpf(a: Aluno)
    requires Valid(a)
    ensures a.cpf.Some? && CPF_MIN <= JavaLength(a.cpf.value) <= CPF_MAX
    ensures exists i | 0 <= i < |a.cpf.value| :: a.cpf.value[i] > ' '
  {
  }

  /** A cpf of three characters, such as "123", never passes. */
  lemma ShortCpfRejected(a: Aluno)
    requires a.cpf == Some("123")
    ensures !Valid(a)
    ensures Violation("cpf", "O campo CPF deve ter 13 caracteres") in Violations(a)
  {
    assert JavaLength("123") == 3;
  }

  /** An address of nine characters, such as "Rua Teste", never passes. */
  lemma ShortEnderecoRejected(a: Aluno)
    requires a.endereco == Some("Rua Teste")
    ensures !Valid(a)
  {
    assert JavaLength("Rua Teste") == 9;
  }

  /** A score outside [0.0, 10.0], or a missing one, fails validation. */
  lemma ScoreOutOfRangeRejected(a: Aluno)
    requires a.nota1.None? || a.nota1.value < 0.0 || a.nota1.value > 10.0
          || a.nota2.None? || a.nota2.value < 0.0 || a.nota2.value > 10.0
          || a.nota3.None? || a.nota3.value < 0.0 || a.nota3.value > 10.0
    ensures !Valid(a)
  {
  }

  /** The approval flag carries no constraint: any string, or null, leaves validity unchanged. */
  lemma AprovadoUnconstrained(a: Aluno, flag: Option<string>)
    ensures Valid(a.(aprovado := flag)) == Valid(a)
  {
  }

  /**
   * The stored record after the six setters of an update: nome, endereco,
   * turma and the three scores come from the incoming record; cpf and the
   * flag stay.
   */
  function Overwritten(existing: Aluno, incoming: Aluno): (r: Aluno)
    ensures r.cpf == existing.cpf && r.aprovado == existing.aprovado
    ensures r.(cpf := incoming.cpf, aprovado := incoming.aprovado) == incoming
  {
    existing.(nome := incoming.nome, endereco := incoming.endereco, turma := incoming.turma,
              nota1 := incoming.nota1, nota2 := incoming.nota2, nota3 := incoming.nota3)
  }

  // ---------------------------------------------------------------------------
  // The mutable Java object

  /**
   * The entity as a Java object: every field can be overwritten by its
   * setter, and Snapshot() is the record it currently holds.
   */
  class AlunoEntity {
    var cpf: Option<string>
    var nome: Option<string>
    var endereco: Option<string>
    var turma: Option<string>
    var nota1: Option<real>
    var nota2: Option<real>
    var nota3: Option<real>
    var aprovado: Option<string>

    function Snapshot(): Aluno
      reads this
    {
      Aluno(cpf, nome, endereco, turma, nota1, nota2, nota3, aprovado)
    }

    /** The no-argument constructor: every field is null. */
    constructor Empty()
      ensures Snapshot() == Aluno(None, None, None, None, None, None, None, None)
    {
      cpf, nome, endereco, turma := None, None, None, None;
      nota1, nota2, nota3, aprovado := None, None, None, None;
    }

    /** The full constructor stores every argument as given; it validates nothing. */
    constructor (cpf: Option<string>, nome: Option<string>, endereco: Option<string>,
                 turma: Option<string>, nota1: Option<real>, nota2: Option<real>,
                 nota3: Option<real>, aprovado: Option<string>)
      ensures Snapshot() == Aluno(cpf, nome, endereco, turma, nota1, nota2, nota3, aprovado)
    {
      this.cpf, this.nome, this.endereco, this.turma := cpf, nome, endereco, turma;
      this.nota1, this.nota2, this.nota3, this.aprovado := nota1, nota2, nota3, aprovado;
    }

    method SetCpf(v: Option<string>)
      modifies this
      ensures Snapshot() == old(Snapshot()).(cpf := v)
    {
      cpf := v;
    }

    method SetNome(v: Option<string>)
      modifies this
      ensures Snapshot() == old(Snapshot()).(nome := v)
    {
      nome := v;
    }

    method SetEndereco(v: Option<string>)
      modifies this
      ensures Snapshot() == old(Snapshot()).(endereco := v)
    {
      endereco := v;
    }

    method SetTurma(v: Option<string>)
      modifies this
      ensures Snapshot() == old(Snapshot()).(turma := v)
    {
      turma := v;
    }

    method SetNota1(v: Option<real>)
      modifies this
      ensures Snapshot() == old(Snapshot()).(nota1 := v)
    {
      nota1 := v;
    }

    method SetNota2(v: Option<real>)
      modifies this
      ensures Snapshot() == old(Snapshot()).(nota2 := v)
    {
      nota2 := v;
    }

    method SetNota3(v: Option<real>)
      modifies this
      ensures Snapshot() == old(Snapshot()).(nota3 := v)
    {
      nota3 := v;
    }

    method SetAprovado(v: Option<string>)
      modifies this
      ensures Snapshot() == old(Snapshot()).(aprovado := v)
    {
      aprovado := v;
    }
  }
}

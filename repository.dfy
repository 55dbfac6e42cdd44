/**
 * The record store behind AlunoRepository: a table of records keyed by cpf,
 * listed by findAll in insertion order, with the derived and JPQL queries
 * of the repository as filters and pages over that listing.
 */
module Repository {
  import opened Wrappers
  import opened Entities
  import opened Evaluation
  import opened Collections

  // ---------------------------------------------------------------------------
  // The stored table as a value

  /** The rows by primary key, and the order in which findAll lists the keys. */
  datatype Table = Table(rows: map<string, Aluno>, order: seq<string>)

  /**
   * The invariant of the store: the order lists every key once, each row
   * sits under its own cpf, and every row passed bean validation when it
   * was saved.
   */
  ghost predicate Consistent(t: Table) {
    && (forall k :: k in t.rows <==> k in t.order)
    && Distinct(t.order)
    && (forall k :: k in t.rows ==> t.rows[k].cpf == Some(k) && Valid(t.rows[k]))
  }

  /** The rows under keys, in the order of keys. */
  function RowsOf(keys: seq<string>, m: map<string, Aluno>): (r: seq<Aluno>)
    requires forall k :: k in keys ==> k in m
    ensures |r| == |keys|
    ensures forall i :: 0 <= i < |r| ==> r[i] == m[keys[i]]
  {
    if keys == [] then [] else [m[keys[0]]] + RowsOf(keys[1..], m)
  }

  /** save: the record replaces the row under its cpf; a new key goes last. */
  function Saved(t: Table, a: Aluno): (r: Table)
    requires a.cpf.Some?
    ensures r.rows == t.rows[a.cpf.value := a]
    ensures a.cpf.value in t.rows ==> r.order == t.order
    ensures a.cpf.value !in t.rows ==> r.order == t.order + [a.cpf.value]
  {
    var k := a.cpf.value;
    Table(t.rows[k := a], if k in t.rows then t.order else t.order + [k])
  }

  /** deleteById: the row under k is gone; a missing key changes nothing. */
  function Deleted(t: Table, k: string): (r: Table)
    ensures r.rows == t.rows - {k}
    ensures k !in t.order ==> r.order == t.order
    ensures k !in t.rows && k !in t.order ==> r == t
    ensures r.order == Filter(t.order, Except(k))
  {
    Table(t.rows - {k}, Without(t.order, k))
  }

  /** Saving a valid record keeps the store consistent. */
  lemma SavedConsistent(t: Table, a: Aluno)
    requires Consistent(t) && Valid(a)
    ensures a.cpf.Some? && Consistent(Saved(t, a))
  {
    var k := a.cpf.value;
    var s := Saved(t, a);
    if k !in t.rows {
      forall i, j | 0 <= i < j < |s.order|
        ensures s.order[i] != s.order[j]
      {
        if j == |t.order| {
          assert s.order[i] == t.order[i];
        }
      }
    }
  }

  /** Deleting a key keeps the store consistent. */
  lemma DeletedConsistent(t: Table, k: string)
    requires Consistent(t)
    ensures Consistent(Deleted(t, k))
  {
    var d := Deleted(t, k);
    forall x
      ensures x in d.rows <==> x in d.order
    {
      assert x in d.order <==> x in t.order && Except(k)(x);
    }
  }

  // ---------------------------------------------------------------------------
  // The query predicates. A score that is null never satisfies an SQL
  // comparison, which is what the HasNotas conjuncts say.

  /** findApproved: (nota1 + nota2 + nota3) / 3.0 > 7.0. */
  predicate Approved(a: Aluno) {
    HasNotas(a) && Media(a) > 7.0
  }

  /** findFailed: (nota1 + nota2 + nota3) / 3.0 <= 7.0. */
  predicate Failed(a: Aluno) {
    HasNotas(a) && Media(a) <= 7.0
  }

  /** findFailedInOneExam: nota2 = 0 OR nota3 = 0. */
  predicate FailedInOneExam(a: Aluno) {
    a.nota2 == Some(0.0) || a.nota3 == Some(0.0)
  }

  predicate IsZero(x: Option<real>) { x == Some(0.0) }
  predicate IsNonZero(x: Option<real>) { x.Some? && x.value != 0.0 }

  /** findAlunosComApenasUmaProva: exactly one of the three scores is non-zero. */
  predicate OnlyOneExam(a: Aluno) {
    || (IsNonZero(a.nota1) && IsZero(a.nota2) && IsZero(a.nota3))
    || (IsZero(a.nota1) && IsNonZero(a.nota2) && IsZero(a.nota3))
    || (IsZero(a.nota1) && IsZero(a.nota2) && IsNonZero(a.nota3))
  }

  /** findByTurma: the class is exactly the given one. */
  predicate InTurma(a: Aluno, turma: string) {
    a.turma == Some(turma)
  }

  /** findByTurmaAndAprovado: both the class and the flag are exactly the given ones. */
  predicate InTurmaWithFlag(a: Aluno, turma: string, aprovado: string) {
    a.turma == Some(turma) && a.aprovado == Some(aprovado)
  }

  /** findApprovedByClass: the class filter and findApproved together. */
  predicate ApprovedInTurma(a: Aluno, turma: string) {
    a.turma == Some(turma) && HasNotas(a) && Media(a) > 7.0
  }

  /** findFailedByClass: the class filter and findFailed together. */
  predicate FailedInTurma(a: Aluno, turma: string) {
    a.turma == Some(turma) && HasNotas(a) && Media(a) <= 7.0
  }

  /** Where the pageNumber-th page of pageSize elements starts. */
  function Offset(pageNumber: nat, pageSize: nat): nat {
    pageNumber * pageSize
  }

  /** Spring's Page.getTotalPages(): ceil(len / size). */
  function PageCount(len: nat, size: nat): (n: nat)
    requires size >= 1
    ensures n * size >= len
    ensures n > 0 ==> (n - 1) * size < len
  {
    var q, m := (len + size - 1) / size, (len + size - 1) % size;
    assert q * size + m == len + size - 1 && 0 <= m < size;
    q
  }

  /**
   * r is the pageNumber-th page of s: the run of s starting at
   * pageNumber * pageSize, in order, of length pageSize or what is left of
   * s, whichever is less.
   */
  ghost predicate IsPageOf<T>(r: seq<T>, s: seq<T>, pageNumber: nat, pageSize: nat) {
    && |r| == (if Offset(pageNumber, pageSize) >= |s| then 0 else Min(pageSize, |s| - Offset(pageNumber, pageSize)))
    && forall i :: 0 <= i < |r| ==> Offset(pageNumber, pageSize) + i < |s| && r[i] == s[Offset(pageNumber, pageSize) + i]
  }

  /** A page request: the pageNumber-th slice of pageSize elements. */
  function Page<T>(s: seq<T>, pageNumber: nat, pageSize: nat): (r: seq<T>)
    requires pageSize >= 1
    ensures |r| <= pageSize
    ensures r == [] <==> Offset(pageNumber, pageSize) >= |s|
    ensures forall i :: 0 <= i < |r| ==> Offset(pageNumber, pageSize) + i < |s| && r[i] == s[Offset(pageNumber, pageSize) + i]
    ensures Offset(pageNumber, pageSize) + pageSize <= |s| ==> |r| == pageSize
    ensures |r| == if Offset(pageNumber, pageSize) >= |s| then 0 else Min(pageSize, |s| - Offset(pageNumber, pageSize))
    ensures IsPageOf(r, s, pageNumber, pageSize)
    ensures forall x :: x in r ==> x in s
  {
    var start := Offset(pageNumber, pageSize);
    if start >= |s| then []
    else if start + pageSize <= |s| then s[start..start + pageSize]
    else s[start..]
  }

  /** Pages 0 to n - 1 of s, one after the other. */
  function Pages<T>(s: seq<T>, pageSize: nat, n: nat): seq<T>
    requires pageSize >= 1
  {
    if n == 0 then [] else Pages(s, pageSize, n - 1) + Page(s, n - 1, pageSize)
  }

  lemma MulSucc(n: nat, k: nat)
    ensures Offset(n + 1, k) == Offset(n, k) + k
  {
  }

  /** The first n pages are the first n * pageSize elements, or all of s when it is shorter. */
  lemma {:induction false} PagesPrefix<T>(s: seq<T>, pageSize: nat, n: nat)
    requires pageSize >= 1
    ensures Pages(s, pageSize, n) == s[..Min(Offset(n, pageSize), |s|)]
  {
    if n > 0 {
      PagesPrefix(s, pageSize, n - 1);
      MulSucc(n - 1, pageSize);
      PageSplit(s, n - 1, pageSize);
      assert Pages(s, pageSize, n) == Pages(s, pageSize, n - 1) + Page(s, n - 1, pageSize);
    }
  }

  /** The prefix up to one page further is the prefix so far followed by that page. */
  lemma PageSplit<T>(s: seq<T>, pageNumber: nat, pageSize: nat)
    requires pageSize >= 1
    ensures s[..Min(Offset(pageNumber, pageSize), |s|)] + Page(s, pageNumber, pageSize)
         == s[..Min(Offset(pageNumber, pageSize) + pageSize, |s|)]
  {
    var start, p := Offset(pageNumber, pageSize), Page(s, pageNumber, pageSize);
    if start >= |s| {
      assert p == [];
    } else if start + pageSize <= |s| {
      assert s[..start + pageSize] == s[..start] + s[start..start + pageSize];
    } else {
      assert s == s[..start] + s[start..];
    }
  }

  /**
   * Paging loses and repeats nothing: enough pages, in particular the
   * ceil(|s| / pageSize) pages Spring's Page counts, put together give s.
   */
  lemma PagesCover<T>(s: seq<T>, pageSize: nat, n: nat)
    requires pageSize >= 1 && n * pageSize >= |s|
    ensures Pages(s, pageSize, n) == s
    ensures Pages(s, pageSize, PageCount(|s|, pageSize)) == s
  {
    PagesReachEnd(s, pageSize, n);
    PagesReachEnd(s, pageSize, PageCount(|s|, pageSize));
  }

  lemma PagesReachEnd<T>(s: seq<T>, pageSize: nat, n: nat)
    requires pageSize >= 1 && Offset(n, pageSize) >= |s|
    ensures Pages(s, pageSize, n) == s
  {
    PagesPrefix(s, pageSize, n);
    assert Min(Offset(n, pageSize), |s|) == |s|;
    assert s[..|s|] == s;
  }

  // ---------------------------------------------------------------------------
  // Properties of the query predicates

  /** Every record with its scores is in exactly one of findApproved and findFailed. */
  lemma ApprovedFailedExclusive(a: Aluno)
    requires HasNotas(a)
    ensures Approved(a) != Failed(a)
  {
  }

  /** Over a listing of records with scores, findApproved and findFailed split the listing. */
  lemma ApprovedFailedPartition(s: seq<Aluno>)
    requires forall a :: a in s ==> HasNotas(a)
    ensures multiset(Filter(s, Approved)) + multiset(Filter(s, Failed)) == multiset(s)
    ensures |Filter(s, Approved)| + |Filter(s, Failed)| == |s|
  {
    FilterPartition(s, Approved, Failed);
  }

  /** The class-scoped JPQL queries are the class filter followed by the global ones. */
  lemma ByClassIsComposition(s: seq<Aluno>, turma: string)
    ensures Filter(Filter(s, a => InTurma(a, turma)), Approved) == Filter(s, a => ApprovedInTurma(a, turma))
    ensures Filter(Filter(s, a => InTurma(a, turma)), Failed) == Filter(s, a => FailedInTurma(a, turma))
  {
    FilterFilter(s, a => InTurma(a, turma), Approved, a => ApprovedInTurma(a, turma));
    FilterFilter(s, a => InTurma(a, turma), Failed, a => FailedInTurma(a, turma));
  }

  /** The record of the repository test, scores [8, 0, 9], matches findFailedInOneExam. */
  lemma FailedInOneExamExample(a: Aluno)
    requires a.nota1 == Some(8.0) && a.nota2 == Some(0.0) && a.nota3 == Some(9.0)
    ensures FailedInOneExam(a) && !OnlyOneExam(a)
  {
  }

  // ---------------------------------------------------------------------------
  // The store as a Java object

  /** The store: the rows by cpf and the findAll order, updated in place by save and deleteById. */
  class AlunoRepository {
    var rows: map<string, Aluno>
    var order: seq<string>

    function State(): Table
      reads this
    {
      Table(rows, order)
    }

    ghost predicate Valid()
      reads this
    {
      Consistent(State())
    }

    /** An empty store. */
    constructor ()
      ensures Valid() && rows == map[] && order == []
    {
      rows, order := map[], [];
    }

    /** existsById. */
    function ExistsById(cpf: string): bool
      reads this
    {
      cpf in rows
    }

    /** findById (and findByCpf, the same lookup on the primary key); None when absent. */
    function FindById(cpf: string): (r: Option<Aluno>)
      reads this
      requires Valid()
      ensures r.Some? <==> ExistsById(cpf)
      ensures r.Some? ==> r.value.cpf == Some(cpf) && Entities.Valid(r.value) && r.value == rows[cpf]
    {
      if cpf in rows then Some(rows[cpf]) else None
    }

    /** existsByCpfAndTurmaNot: a row with this cpf exists and its class differs. */
    function ExistsByCpfAndTurmaNot(cpf: string, turma: Option<string>): (b: bool)
      reads this
      ensures b ==> ExistsById(cpf)
    {
      cpf in rows && rows[cpf].turma != turma
    }

    /** findAll: every row, in store order; each passed validation. */
    function FindAll(): (r: seq<Aluno>)
      reads this
      requires Valid()
      ensures |r| == |order|
      ensures forall i :: 0 <= i < |r| ==> r[i] == rows[order[i]]
      ensures forall a :: a in r ==> Entities.Valid(a) && HasNotas(a) && a.cpf.Some? && a.cpf.value in rows
    {
      RowsOf(order, rows)
    }

    /**
     * save: bean validation runs first; a record that fails it is refused
     * and nothing changes. Otherwise the record is stored under its cpf.
     */
    method Save(a: Aluno) returns (ok: bool)
      requires Valid() && a.cpf.Some?
      modifies this
      ensures Valid()
      ensures ok == Entities.Valid(a)
      ensures State() == if ok then Saved(old(State()), a) else old(State())
    {
      ok := Entities.Valid(a);
      if ok {
        SavedConsistent(State(), a);
        var t := Saved(State(), a);
        rows, order := t.rows, t.order;
      }
    }

    /** deleteById: removes the row under cpf, if any. */
    method DeleteById(cpf: string)
      requires Valid()
      modifies this
      ensures Valid()
      ensures State() == Deleted(old(State()), cpf)
    {
      DeletedConsistent(State(), cpf);
      var t := Deleted(State(), cpf);
      rows, order := t.rows, t.order;
    }

    /** findApproved. */
    function FindApproved(): (r: seq<Aluno>)
      reads this
      requires Valid()
      ensures forall a :: a in r <==> a in FindAll() && Media(a) > 7.0
    {
      Filter(FindAll(), Approved)
    }

    /** findFailed. */
    function FindFailed(): (r: seq<Aluno>)
      reads this
      requires Valid()
      ensures forall a :: a in r <==> a in FindAll() && Media(a) <= 7.0
    {
      Filter(FindAll(), Failed)
    }

    /** findFailedInOneExam. */
    function FindFailedInOneExam(): (r: seq<Aluno>)
      reads this
      requires Valid()
      ensures forall a :: a in r <==> a in FindAll() && (a.nota2.value == 0.0 || a.nota3.value == 0.0)
    {
      Filter(FindAll(), FailedInOneExam)
    }

    /** findAlunosComApenasUmaProva. */
    function FindAlunosComApenasUmaProva(): (r: seq<Aluno>)
      reads this
      requires Valid()
      ensures forall a :: a in r <==> a in FindAll() && OnlyOneExam(a)
    {
      Filter(FindAll(), OnlyOneExam)
    }

    /** findByTurma without paging: the records of the class, in listing order. */
    function ByTurma(turma: string): (r: seq<Aluno>)
      reads this
      requires Valid()
      ensures forall a :: a in r <==> a in FindAll() && a.turma == Some(turma)
      ensures IsSubsequence(r, FindAll())
    {
      FilterIsSubsequence(FindAll(), a => InTurma(a, turma));
      Filter(FindAll(), a => InTurma(a, turma))
    }

    /** findByTurmaAndAprovado without paging. */
    function ByTurmaAndAprovado(turma: string, aprovado: string): (r: seq<Aluno>)
      reads this
      requires Valid()
      ensures forall a :: a in r <==> a in FindAll() && a.turma == Some(turma) && a.aprovado == Some(aprovado)
      ensures IsSubsequence(r, FindAll())
    {
      FilterIsSubsequence(FindAll(), a => InTurmaWithFlag(a, turma, aprovado));
      Filter(FindAll(), a => InTurmaWithFlag(a, turma, aprovado))
    }

    /** findApprovedByClass without paging. */
    function ApprovedByClass(turma: string): (r: seq<Aluno>)
      reads this
      requires Valid()
      ensures forall a :: a in r <==> a in FindAll() && a.turma == Some(turma) && Media(a) > 7.0
      ensures IsSubsequence(r, FindAll())
    {
      FilterIsSubsequence(FindAll(), a => ApprovedInTurma(a, turma));
      Filter(FindAll(), a => ApprovedInTurma(a, turma))
    }

    /** findFailedByClass without paging. */
    function FailedByClass(turma: string): (r: seq<Aluno>)
      reads this
      requires Valid()
      ensures forall a :: a in r <==> a in FindAll() && a.turma == Some(turma) && Media(a) <= 7.0
      ensures IsSubsequence(r, FindAll())
    {
      FilterIsSubsequence(FindAll(), a => FailedInTurma(a, turma));
      Filter(FindAll(), a => FailedInTurma(a, turma))
    }

    /** findByTurma, one page of it: the pageNumber-th run of pageSize records of the class. */
    function FindByTurma(turma: string, pageNumber: nat, pageSize: nat): (r: seq<Aluno>)
      reads this
      requires Valid() && pageSize >= 1
      ensures |r| <= pageSize
      ensures forall a :: a in r ==> a in FindAll() && a.turma == Some(turma)
      ensures IsPageOf(r, ByTurma(turma), pageNumber, pageSize)
    {
      Page(ByTurma(turma), pageNumber, pageSize)
    }

    /** findByTurmaAndAprovado, one page of it. */
    function FindByTurmaAndAprovado(turma: string, aprovado: string, pageNumber: nat, pageSize: nat): (r: seq<Aluno>)
      reads this
      requires Valid() && pageSize >= 1
      ensures |r| <= pageSize
      ensures forall a :: a in r ==> a in FindAll() && a.turma == Some(turma) && a.aprovado == Some(aprovado)
      ensures IsPageOf(r, ByTurmaAndAprovado(turma, aprovado), pageNumber, pageSize)
    {
      Page(ByTurmaAndAprovado(turma, aprovado), pageNumber, pageSize)
    }

    /** findApprovedByClass, one page of it. */
    function FindApprovedByClass(turma: string, pageNumber: nat, pageSize: nat): (r: seq<Aluno>)
      reads this
      requires Valid() && pageSize >= 1
      ensures |r| <= pageSize
      ensures forall a :: a in r ==> a in FindAll() && a.turma == Some(turma) && Media(a) > 7.0
      ensures IsPageOf(r, ApprovedByClass(turma), pageNumber, pageSize)
    {
      Page(ApprovedByClass(turma), pageNumber, pageSize)
    }

    /** findFailedByClass, one page of it. */
    function FindFailedByClass(turma: string, pageNumber: nat, pageSize: nat): (r: seq<Aluno>)
      reads this
      requires Valid() && pageSize >= 1
      ensures |r| <= pageSize
      ensures forall a :: a in r ==> a in FindAll() && a.turma == Some(turma) && Media(a) <= 7.0
      ensures IsPageOf(r, FailedByClass(turma), pageNumber, pageSize)
    {
      Page(FailedByClass(turma), pageNumber, pageSize)
    }

    /** The pages 0 to n - 1 of findByTurma, one after the other. */
    ghost function TurmaPages(turma: string, pageSize: nat, n: nat): seq<Aluno>
      reads this
      requires Valid() && pageSize >= 1
    {
      if n == 0 then [] else TurmaPages(turma, pageSize, n - 1) + FindByTurma(turma, n - 1, pageSize)
    }

    /**
     * Walking the pages of findByTurma until they run out visits every
     * record of the class once, in listing order.
     */
    lemma {:induction false} TurmaPagesCover(turma: string, pageSize: nat, n: nat)
      requires Valid() && pageSize >= 1 && n * pageSize >= |ByTurma(turma)|
      ensures TurmaPages(turma, pageSize, n) == ByTurma(turma)
    {
      TurmaPagesArePages(turma, pageSize, n);
      PagesCover(ByTurma(turma), pageSize, n);
    }

    lemma {:induction false} TurmaPagesArePages(turma: string, pageSize: nat, n: nat)
      requires Valid() && pageSize >= 1
      ensures TurmaPages(turma, pageSize, n) == Pages(ByTurma(turma), pageSize, n)
    {
      if n > 0 {
        TurmaPagesArePages(turma, pageSize, n - 1);
      }
    }
  }
}

/**
 * The evaluation rule shared by the services: the plain average of the three
 * scores and the approval flag written from it.
 */
module Evaluation {
  import opened Wrappers
  import opened Entities

  /** The approval threshold; the services compare with >=. */
  const THRESHOLD: real := 7.0
  /** The flag values the services write. */
  const SIM := "SIM"
  const NAO := "NÃO"

  /** All three scores are present, so calcularMedia does not throw. */
  predicate HasNotas(a: Aluno) {
    a.nota1.Some? && a.nota2.Some? && a.nota3.Some?
  }

  /** calcularMedia: (nota1 + nota2 + nota3) / 3.0, exact. */
  function Media(a: Aluno): (m: real)
    requires HasNotas(a)
    ensures Valid(a) ==> 0.0 <= m <= 10.0
  {
    (a.nota1.value + a.nota2.value + a.nota3.value) / 3.0
  }

  /** The flag "SIM" when the average reaches the threshold, "NÃO" otherwise. */
  function Flag(a: Aluno): (f: string)
    requires HasNotas(a)
    ensures f == SIM || f == NAO
    ensures f == SIM <==> Media(a) >= THRESHOLD
  {
    if Media(a) >= THRESHOLD then SIM else NAO
  }

  /** The stored flag agrees with the evaluation rule. */
  predicate FlagConsistent(a: Aluno) {
    HasNotas(a) && a.aprovado == Some(Flag(a))
  }

  /** One record as the evaluation pass leaves it: only the flag is rewritten. */
  function Reevaluated(a: Aluno): (r: Aluno)
    requires HasNotas(a)
    ensures FlagConsistent(r)
    ensures r.(aprovado := a.aprovado) == a
    ensures Valid(r) == Valid(a)
  {
    AprovadoUnconstrained(a, Some(Flag(a)));
    a.(aprovado := Some(Flag(a)))
  }

  /** Every record of a keyed store as a full evaluation pass leaves it. */
  function ReevaluatedRows(m: map<string, Aluno>): (r: map<string, Aluno>)
    requires forall k :: k in m ==> HasNotas(m[k])
    ensures r.Keys == m.Keys
    ensures forall k :: k in r ==> FlagConsistent(r[k]) && r[k].(aprovado := m[k].aprovado) == m[k]
  {
    map k | k in m :: Reevaluated(m[k])
  }

  /** Re-evaluating a record whose flag already agrees changes nothing. */
  lemma ReevaluatedFixesConsistent(a: Aluno)
    requires FlagConsistent(a)
    ensures Reevaluated(a) == a
  {
  }

  /** Running the evaluation pass twice gives the same store as running it once. */
  lemma ReevaluationIdempotent(m: map<string, Aluno>)
    requires forall k :: k in m ==> HasNotas(m[k])
    ensures ReevaluatedRows(ReevaluatedRows(m)) == ReevaluatedRows(m)
  {
    var once := ReevaluatedRows(m);
    forall k | k in once
      ensures ReevaluatedRows(once)[k] == once[k]
    {
      ReevaluatedFixesConsistent(once[k]);
    }
  }

  /** The scores evaluated in the service tests: [9,8,7] is approved and [6,5,7] is not. */
  lemma FlagExamples(a: Aluno, b: Aluno)
    requires a.nota1 == Some(9.0) && a.nota2 == Some(8.0) && a.nota3 == Some(7.0)
    requires b.nota1 == Some(6.0) && b.nota2 == Some(5.0) && b.nota3 == Some(7.0)
    ensures Reevaluated(a).aprovado == Some(SIM)
    ensures Reevaluated(b).aprovado == Some(NAO)
  {
  }
}

# cadastro-alunos, modelled in Dafny

A model of the student-record system "cadastro-alunos", a Spring application
that keeps one record per student (`Aluno`) in the table ALUNOS, keyed by
cpf. A record holds a name, an address, a class (turma), three exam scores
and an approval flag. The model covers:

- the record and its bean-validation constraints (`entities.dfy`), including
  the mutable entity object with its constructors and setters;
- the evaluation rule: the average of the three scores and the flag
  "SIM"/"NÃO" written from it with `>= 7.0` (`evaluation.dfy`);
- the store behind `AlunoRepository` as a class holding a map from cpf to
  record and the order findAll lists them in. It also holds the derived,
  JPQL and native queries as filters and pages over that listing
  (`repository.dfy`, with generic filter lemmas in `collections.dfy`);
- the current `AlunoService` (`cadastro_service.dfy`), whose inclusion
  checks the cpf length and a duplicate cpf before computing the flag. Its
  update overwrites six fields and recomputes the flag, its removal reports
  a missing cpf, and it has an evaluation pass over the whole store that
  none of its writes calls;
- the older `AlunoService` of the `main/java` tree (`legacy_service.dfy`).
  It saves what it is given and runs the whole evaluation pass after every
  inclusion, update and removal;
- the read-only `ConsultaAlunoService` and `VerificaAlunoService`
  (`consulta_service.dfy`, `verifica_service.dfy`). Their loops are proved
  to compute the repository queries. Two of their rules disagree: the two
  single-exam rules, and the `>` of the listings against the `>=` of the flag;
- `AlunoMapper` and `AlunoDTO` (`mapper.dfy`): half-up rounding of the
  average to hundredths, and the situation word derived from the flag;
- the listing selection and parameter checks of the v2
  `ConsultaAlunosController` (`consulta_controller.dfy`).

Java `null` is `Option.None`. Scores are exact `real`s. Exceptions are the
`Err` cases of a `Result` (`exceptions.dfy`). Each operation that writes the
store is specified by a pure outcome function from the store before to the
answer and the store after, and the imperative method is proved to compute
it. The store invariant is `Repository.Consistent`: every key is listed
once, and every row is valid and sits under its own cpf. Every write is
proved to keep it.

Where the code and its documentation disagree, the model follows the code:

- The listings compare the average with `> 7.0`, while the services flag a
  record "SIM" from `>= 7.0`. So an average of exactly 7.0 is flagged
  approved but listed as failed (`VerificaService.ThresholdBoundary`).
- The mapper recognises only "Sim" and "APROVADO" as approved flags. Every
  flag the services write is therefore shown as REPROVADO
  (`Mapper.EvaluatedRecordsReportedReprovado`).
- The other-class check of both inclusions can never fire, because the
  existence check before it already rejected a stored cpf (the
  `Inclusion` contracts say so).
- The older service checks no existence before removal, and it accepts
  13-character cpfs, which the current service refuses
  (`LegacyService.ThirteenCharacterCpf`).

## Model

| member | source | states |
|---|---|---|
| Entities.JavaLength | src/main/java/br/com/cadastro/alunos/model/entities/Aluno.java:18 | the length @Size measures is String.length() in UTF-16 units: between the number of characters and twice that, and equal to it when every character lies in the Basic Multilingual Plane |
| Entities.Violations | src/main/java/br/com/cadastro/alunos/model/entities/Aluno.java:14-61 | the violations bean validation reports, with the messages declared on the fields; there is none exactly when the record is valid, and each names one of the seven constrained fields |
| Entities.ValidCpf | src/main/java/br/com/cadastro/alunos/model/entities/Aluno.java:16-18 | a valid record has a non-null cpf with a character above ' ' and a length of 13 or 14 |
| Entities.ShortCpfRejected | src/main/java/br/com/cadastro/alunos/model/entities/Aluno.java:18 | the cpf "123" fails validation with the @Size message of the cpf |
| Entities.ShortEnderecoRejected | src/main/java/br/com/cadastro/alunos/model/entities/Aluno.java:31-32 | the address "Rua Teste" (9 characters) fails validation |
| Entities.ScoreOutOfRangeRejected | src/main/java/br/com/cadastro/alunos/model/entities/Aluno.java:44-60 | a missing score, or one below 0.0 or above 10.0, fails validation |
| Entities.AprovadoUnconstrained | src/main/java/br/com/cadastro/alunos/model/entities/Aluno.java:63-65 | the approval flag carries no constraint: replacing it by any string or null leaves validity as it was |
| Entities.Overwritten | src/main/java/br/com/cadastro/alunos/model/services/AlunoService.java:107-112 | the record after the update setters keeps cpf and flag and takes every other field from the incoming record |
| Entities.AlunoEntity.Empty | src/main/java/br/com/cadastro/alunos/model/entities/Aluno.java:68-70 | the no-argument constructor leaves every field null |
| Entities.AlunoEntity.constructor | src/main/java/br/com/cadastro/alunos/model/entities/Aluno.java:72-90 | the full constructor stores every argument as given and validates nothing |
| Entities.AlunoEntity.SetCpf | src/main/java/br/com/cadastro/alunos/model/entities/Aluno.java:98-100 | the setter changes the cpf and no other field |
| Entities.AlunoEntity.SetNome | src/main/java/br/com/cadastro/alunos/model/entities/Aluno.java:106-108 | the setter changes the name and no other field |
| Entities.AlunoEntity.SetEndereco | src/main/java/br/com/cadastro/alunos/model/entities/Aluno.java:114-116 | the setter changes the address and no other field |
| Entities.AlunoEntity.SetTurma | src/main/java/br/com/cadastro/alunos/model/entities/Aluno.java:122-124 | the setter changes the class and no other field |
| Entities.AlunoEntity.SetNota1 | src/main/java/br/com/cadastro/alunos/model/entities/Aluno.java:130-132 | the setter changes the first score and no other field |
| Entities.AlunoEntity.SetNota2 | src/main/java/br/com/cadastro/alunos/model/entities/Aluno.java:138-140 | the setter changes the second score and no other field |
| Entities.AlunoEntity.SetNota3 | src/main/java/br/com/cadastro/alunos/model/entities/Aluno.java:146-148 | the setter changes the third score and no other field |
| Entities.AlunoEntity.SetAprovado | src/main/java/br/com/cadastro/alunos/model/entities/Aluno.java:154-156 | the setter changes the flag and no other field |
| Evaluation.Media | src/main/java/br/com/cadastro/alunos/model/services/AlunoService.java:187-196 | calcularMedia: the exact average of the three scores, within [0, 10] for a valid record |
| Evaluation.Flag | src/main/java/br/com/cadastro/alunos/model/services/AlunoService.java:74 | the flag is "SIM" exactly when the average is at least 7.0, and "NÃO" otherwise |
| Evaluation.Reevaluated | src/main/java/br/com/cadastro/alunos/model/services/AlunoService.java:171-174 | one record after evaluation has a flag that agrees with its scores, differs only in the flag, and is valid exactly when it was |
| Evaluation.ReevaluatedRows | src/main/java/br/com/cadastro/alunos/model/services/AlunoService.java:168-180 | the evaluation pass keeps every key, and every row differs only in a flag that now agrees with its scores |
| Evaluation.ReevaluatedFixesConsistent | src/main/java/br/com/cadastro/alunos/model/services/AlunoService.java:170-174 | re-evaluating a record whose flag already agrees changes nothing |
| Evaluation.ReevaluationIdempotent | src/main/java/br/com/cadastro/alunos/model/services/AlunoService.java:168-180 | running the evaluation pass twice gives the same rows as running it once |
| Evaluation.FlagExamples | main/java/br/com/cadastro/alunos/model/services/AlunoService.java:93-101 | scores [9, 8, 7] are flagged "SIM" and [6, 5, 7] "NÃO" |
| Repository.RowsOf | src/main/java/br/com/cadastro/alunos/model/repository/AlunoRepository.java:14 | findAll lists one row per key, the row stored under that key, in key order |
| Repository.Saved | src/main/java/br/com/cadastro/alunos/model/repository/AlunoRepository.java:14 | save replaces the row under the record's cpf; a new cpf is appended to the listing order, a known one keeps its place |
| Repository.Deleted | src/main/java/br/com/cadastro/alunos/model/repository/AlunoRepository.java:14 | deleteById removes the row under the key and drops the key from the listing, keeping the other keys in their order; a missing key leaves the whole store as it was |
| Repository.SavedConsistent | src/main/java/br/com/cadastro/alunos/model/repository/AlunoRepository.java:14 | saving a valid record keeps the store invariant: keys and listing agree, no key is listed twice, every row is valid and stored under its own cpf |
| Repository.DeletedConsistent | src/main/java/br/com/cadastro/alunos/model/repository/AlunoRepository.java:14 | deleting any key keeps the store invariant |
| Repository.Page | src/main/java/br/com/cadastro/alunos/model/repository/AlunoRepository.java:17-20 | a page request yields the run of the listing starting at pageNumber * pageSize, in order, of length pageSize or what is left of the listing, whichever is less: empty exactly when the start is past the end |
| Repository.PageCount | src/main/java/br/com/cadastro/alunos/model/repository/AlunoRepository.java:17-20 | the number of pages of a listing: enough pages to reach its end, and one fewer would not |
| Repository.PagesPrefix | src/main/java/br/com/cadastro/alunos/model/repository/AlunoRepository.java:17-20 | the first n pages, put together, are the first n * pageSize elements of the listing, or all of it |
| Repository.PagesCover | src/main/java/br/com/cadastro/alunos/model/repository/AlunoRepository.java:17-20 | walking the pages until they run out, and in particular the page count many pages, gives back the whole listing once, in order |
| Repository.ApprovedFailedExclusive | src/main/java/br/com/cadastro/alunos/model/repository/AlunoRepository.java:23-27 | every record with its scores satisfies exactly one of findApproved (> 7.0) and findFailed (<= 7.0) |
| Repository.ApprovedFailedPartition | src/main/java/br/com/cadastro/alunos/model/repository/AlunoRepository.java:23-27 | findApproved and findFailed split a listing: together they hold each record exactly once |
| Repository.ByClassIsComposition | src/main/java/br/com/cadastro/alunos/model/repository/AlunoRepository.java:32-36 | findApprovedByClass and findFailedByClass equal the class filter followed by findApproved and findFailed |
| Repository.FailedInOneExamExample | src/main/java/br/com/cadastro/alunos/model/repository/AlunoRepository.java:29-30 | scores [8, 0, 9] match findFailedInOneExam but not findAlunosComApenasUmaProva |
| Repository.AlunoRepository.FindById | main/java/br/com/cadastro/alunos/model/repository/AlunoRepository.java:18 | the lookup finds a record exactly when the cpf is stored, and what it finds is the valid row stored under that cpf |
| Repository.AlunoRepository.ExistsByCpfAndTurmaNot | main/java/br/com/cadastro/alunos/model/repository/AlunoRepository.java:26 | a cpf stored under a different class is in particular a stored cpf |
| Repository.AlunoRepository.FindAll | src/main/java/br/com/cadastro/alunos/model/repository/AlunoRepository.java:14 | every stored row in listing order; each is valid, has its three scores and sits under its cpf |
| Repository.AlunoRepository.Save | src/main/java/br/com/cadastro/alunos/model/repository/AlunoRepository.java:14 | an invalid record is refused and the store is unchanged; a valid one is stored as Saved says, and the store invariant holds afterwards |
| Repository.AlunoRepository.DeleteById | src/main/java/br/com/cadastro/alunos/model/repository/AlunoRepository.java:14 | the store becomes Deleted of the old store, and the invariant holds |
| Repository.AlunoRepository.FindApproved | src/main/java/br/com/cadastro/alunos/model/repository/AlunoRepository.java:23-24 | exactly the listed records whose average is above 7.0 |
| Repository.AlunoRepository.FindFailed | src/main/java/br/com/cadastro/alunos/model/repository/AlunoRepository.java:26-27 | exactly the listed records whose average is at most 7.0 |
| Repository.AlunoRepository.FindFailedInOneExam | src/main/java/br/com/cadastro/alunos/model/repository/AlunoRepository.java:29-30 | exactly the listed records whose second or third score is zero |
| Repository.AlunoRepository.FindAlunosComApenasUmaProva | src/main/java/br/com/cadastro/alunos/model/repository/AlunoRepository.java:38-44 | exactly the listed records with one non-zero score and the other two zero |
| Repository.AlunoRepository.ByTurma | src/main/java/br/com/cadastro/alunos/model/repository/AlunoRepository.java:20 | the unpaged findByTurma: exactly the listed records of the class, a subsequence of the listing |
| Repository.AlunoRepository.ByTurmaAndAprovado | src/main/java/br/com/cadastro/alunos/model/repository/AlunoRepository.java:17 | the unpaged findByTurmaAndAprovado: exactly the listed records of the class with the given flag, a subsequence of the listing |
| Repository.AlunoRepository.ApprovedByClass | src/main/java/br/com/cadastro/alunos/model/repository/AlunoRepository.java:32-33 | the unpaged findApprovedByClass: exactly the listed records of the class averaging above 7.0, a subsequence of the listing |
| Repository.AlunoRepository.FailedByClass | src/main/java/br/com/cadastro/alunos/model/repository/AlunoRepository.java:35-36 | the unpaged findFailedByClass: exactly the listed records of the class averaging at most 7.0, a subsequence of the listing |
| Repository.AlunoRepository.FindByTurma | src/main/java/br/com/cadastro/alunos/model/repository/AlunoRepository.java:20 | the pageNumber-th page of ByTurma: of its exact length, each element the listed class record at that position |
| Repository.AlunoRepository.FindByTurmaAndAprovado | src/main/java/br/com/cadastro/alunos/model/repository/AlunoRepository.java:17 | the pageNumber-th page of ByTurmaAndAprovado: of its exact length, each element the matching record at that position |
| Repository.AlunoRepository.FindApprovedByClass | src/main/java/br/com/cadastro/alunos/model/repository/AlunoRepository.java:32-33 | the pageNumber-th page of ApprovedByClass: of its exact length, each element the matching record at that position |
| Repository.AlunoRepository.FindFailedByClass | src/main/java/br/com/cadastro/alunos/model/repository/AlunoRepository.java:35-36 | the pageNumber-th page of FailedByClass: of its exact length, each element the matching record at that position |
| Repository.AlunoRepository.TurmaPagesCover | src/main/java/br/com/cadastro/alunos/model/repository/AlunoRepository.java:20 | the pages of findByTurma, requested one after another until they run out, list every record of the class once, in listing order |
| CadastroService.Inclusion | src/main/java/br/com/cadastro/alunos/model/services/AlunoService.java:45-90 | inclusion fails with the cpf message for a null cpf or one not of length 14, with "CPF já cadastrado" for a stored cpf, with a service failure for missing scores, and never with the other-class message; it succeeds exactly for a new valid record, which is stored with the flag of its average; a failure leaves the store unchanged |
| CadastroService.Alteration | src/main/java/br/com/cadastro/alunos/model/services/AlunoService.java:93-132 | an absent cpf is not found; missing scores are a service failure; success exactly when the overwritten record is valid, storing it with the flag of its average; a failure leaves the store unchanged |
| CadastroService.Exclusion | src/main/java/br/com/cadastro/alunos/model/services/AlunoService.java:135-159 | removal fails exactly when the cpf is absent, with the not-found message and the store unchanged; otherwise the row is deleted |
| CadastroService.Evaluated | src/main/java/br/com/cadastro/alunos/model/services/AlunoService.java:162-185 | the evaluation pass keeps keys and order, and every row differs only in a flag that now agrees with its scores |
| CadastroService.InclusionConsistent | src/main/java/br/com/cadastro/alunos/model/services/AlunoService.java:72-77 | a successful inclusion keeps the store invariant, adds exactly one key at the end of the listing, leaves every other row as it was, and stores a flag that agrees with the scores |
| CadastroService.AlterationConsistent | src/main/java/br/com/cadastro/alunos/model/services/AlunoService.java:106-119 | a successful update keeps the invariant, the cpf and the listing order, takes the other data from the incoming record and stores a flag that agrees with the scores |
| CadastroService.ExclusionConsistent | src/main/java/br/com/cadastro/alunos/model/services/AlunoService.java:142-148 | a successful removal keeps the invariant and drops the cpf from the rows and the listing |
| CadastroService.EvaluatedConsistent | src/main/java/br/com/cadastro/alunos/model/services/AlunoService.java:168-180 | the evaluation pass keeps the invariant, and a second pass changes nothing |
| CadastroService.InclusionFlagExamples | src/main/java/br/com/cadastro/alunos/model/services/AlunoService.java:72-74 | including scores [9, 8, 7] stores "SIM", including [6, 5, 7] stores "NÃO" |
| CadastroService.AlunoService.ListarAlunos | src/main/java/br/com/cadastro/alunos/model/services/AlunoService.java:28-42 | every stored record, in listing order |
| CadastroService.AlunoService.IncluirAluno | src/main/java/br/com/cadastro/alunos/model/services/AlunoService.java:45-90 | the answer and the new store are those of Inclusion; the caller's object gets the computed flag once the checks before saving have passed |
| CadastroService.AlunoService.AlterarAluno | src/main/java/br/com/cadastro/alunos/model/services/AlunoService.java:93-132 | the answer and the new store are those of Alteration |
| CadastroService.AlunoService.ExcluirAluno | src/main/java/br/com/cadastro/alunos/model/services/AlunoService.java:135-159 | the answer and the new store are those of Exclusion |
| CadastroService.AlunoService.AvaliarAlunos | src/main/java/br/com/cadastro/alunos/model/services/AlunoService.java:162-185 | the store after the loop is Evaluated of the store before it |
| CadastroService.AlunoService.AvaliarAluno | src/main/java/br/com/cadastro/alunos/model/services/AlunoService.java:171-174 | one pass of the loop: the record is stored with the flag of its average when that record is valid, and the store is otherwise unchanged |
| LegacyService.Inclusion | main/java/br/com/cadastro/alunos/model/services/AlunoService.java:33-54 | a null cpf fails in the store, a stored cpf fails with "CPF já cadastrado", never the other-class message; success exactly for a new valid record, answered as sent, after which the whole store is re-evaluated |
| LegacyService.Alteration | main/java/br/com/cadastro/alunos/model/services/AlunoService.java:57-80 | an absent cpf fails; success exactly when the overwritten record is valid, answered before re-evaluation, after which the whole store is re-evaluated |
| LegacyService.Exclusion | main/java/br/com/cadastro/alunos/model/services/AlunoService.java:82-90 | removal always succeeds: the row, if any, is deleted and the whole store re-evaluated |
| LegacyService.EvaluatedFlags | main/java/br/com/cadastro/alunos/model/services/AlunoService.java:93-101 | after the evaluation pass every stored flag agrees with its scores |
| LegacyService.InclusionConsistent | main/java/br/com/cadastro/alunos/model/services/AlunoService.java:45-50 | a successful inclusion keeps the invariant, appends the new cpf, stores the record re-evaluated and leaves every flag in the store agreeing with its scores |
| LegacyService.AlterationConsistent | main/java/br/com/cadastro/alunos/model/services/AlunoService.java:57-80 | an update keeps the store invariant |
| LegacyService.AlterationKeepsListing | main/java/br/com/cadastro/alunos/model/services/AlunoService.java:59-77 | a successful update keeps the cpf, the keys and the listing order, and leaves every flag agreeing with its scores |
| LegacyService.ExclusionConsistent | main/java/br/com/cadastro/alunos/model/services/AlunoService.java:84-88 | removal keeps the invariant and leaves every flag agreeing; removing an absent cpf only re-evaluates |
| LegacyService.ThirteenCharacterCpf | main/java/br/com/cadastro/alunos/model/services/AlunoService.java:33-54 | a valid new record with a 13-character cpf is accepted here and refused by the current service |
| LegacyService.InclusionAnswersStaleFlag | main/java/br/com/cadastro/alunos/model/services/AlunoService.java:45-52 | when the caller's flag disagrees with the scores, the answer of an inclusion differs from the row stored |
| LegacyService.AlunoService.ListarAlunos | main/java/br/com/cadastro/alunos/model/services/AlunoService.java:28-31 | every stored record, in listing order |
| LegacyService.AlunoService.IncluirAluno | main/java/br/com/cadastro/alunos/model/services/AlunoService.java:33-54 | the answer and the new store are those of Inclusion |
| LegacyService.AlunoService.AlterarAluno | main/java/br/com/cadastro/alunos/model/services/AlunoService.java:57-80 | the answer and the new store are those of Alteration |
| LegacyService.AlunoService.ExcluirAluno | main/java/br/com/cadastro/alunos/model/services/AlunoService.java:82-90 | the answer and the new store are those of Exclusion |
| LegacyService.AlunoService.AvaliarAlunos | main/java/br/com/cadastro/alunos/model/services/AlunoService.java:93-101 | the store after the loop is the evaluated store |
| LegacyService.AlunoService.AvaliarAluno | main/java/br/com/cadastro/alunos/model/services/AlunoService.java:95-99 | one pass of the loop: the record is stored with the flag of its average when that record is valid, and the store is otherwise unchanged |
| ConsultaService.ProvasFeitas | src/main/java/br/com/cadastro/alunos/model/services/ConsultaAlunoService.java:69-74 | the number of scores present and above zero, at most three, zero exactly when none is |
| ConsultaService.UmaProvaExamples | src/main/java/br/com/cadastro/alunos/model/services/ConsultaAlunoService.java:66-78 | [9, 0, 0] counts as one exam taken and [9, 8, 7.5] does not, for this filter and for the native query alike |
| ConsultaService.UmaProvaMatchesNativeQuery | src/main/java/br/com/cadastro/alunos/model/services/ConsultaAlunoService.java:72-76 | for a valid record, exactly one score above zero is the same test as findAlunosComApenasUmaProva |
| ConsultaService.UmaProvaMiddleOnly | src/main/java/br/com/cadastro/alunos/model/services/ConsultaAlunoService.java:72-76 | [0, 10, 0] is listed by this filter, by the native query and by the zero-second-or-third rule |
| ConsultaService.ConsultaAlunoService.ListarTodosAlunos | src/main/java/br/com/cadastro/alunos/model/services/ConsultaAlunoService.java:29-39 | every stored record, in listing order |
| ConsultaService.ConsultaAlunoService.ListarAlunosAprovados | src/main/java/br/com/cadastro/alunos/model/services/ConsultaAlunoService.java:41-59 | the loop yields findApproved: exactly the records averaging above 7.0, in listing order, a subsequence of the listing |
| ConsultaService.ConsultaAlunoService.ListarAlunosReprovadosUmaProva | src/main/java/br/com/cadastro/alunos/model/services/ConsultaAlunoService.java:61-83 | exactly the records with one exam taken, in listing order: the same list as findAlunosComApenasUmaProva, a subsequence of the listing |
| ConsultaService.ConsultaAlunoService.ListarTodosAlunosReprovados | src/main/java/br/com/cadastro/alunos/model/services/ConsultaAlunoService.java:85-103 | the loop yields findFailed: exactly the records averaging at most 7.0, in listing order, a subsequence of the listing |
| ConsultaService.ConsultaAlunoService.BuscarAlunosAprovadosPorTurma | src/main/java/br/com/cadastro/alunos/model/services/ConsultaAlunoService.java:105-122 | a refused page request is a service failure; otherwise "not found" exactly when the page of the class flagged "SIM" is empty, and that page when it is not |
| ConsultaService.ConsultaAlunoService.BuscarAlunosReprovadosPorTurma | src/main/java/br/com/cadastro/alunos/model/services/ConsultaAlunoService.java:124-141 | as above for the flag "NÃO" |
| ConsultaService.ConsultaAlunoService.BuscarTodosAlunosPorTurma | src/main/java/br/com/cadastro/alunos/model/services/ConsultaAlunoService.java:143-160 | as above for every record of the class |
| VerificaService.UmaProvaWithinFailedInOneExam | src/main/java/br/com/cadastro/alunos/model/services/VerificaAlunoService.java:53 | over valid records, the one-exam listing of ConsultaAlunoService is a subsequence of this service's zero-second-or-third listing |
| VerificaService.ThresholdBoundary | src/main/java/br/com/cadastro/alunos/model/services/VerificaAlunoService.java:37 | an average of exactly 7.0 is flagged "SIM" yet listed among the failed and not among the approved |
| VerificaService.ApprovedIsFlaggedSim | src/main/java/br/com/cadastro/alunos/model/services/VerificaAlunoService.java:37 | when the flag agrees with the scores, an approved record is flagged "SIM" and one flagged "NÃO" is failed |
| VerificaService.VerificaAlunoService.ListarAlunosAprovados | src/main/java/br/com/cadastro/alunos/model/services/VerificaAlunoService.java:33-43 | the loop yields findApproved, in listing order, a subsequence of the listing |
| VerificaService.VerificaAlunoService.ListarAlunosReprovadosUmaProva | src/main/java/br/com/cadastro/alunos/model/services/VerificaAlunoService.java:49-59 | the loop yields findFailedInOneExam: exactly the records whose second or third score is zero, in listing order |
| VerificaService.VerificaAlunoService.BuscarAlunosAprovadosPorTurma | src/main/java/br/com/cadastro/alunos/model/services/VerificaAlunoService.java:69-74 | a negative page or a size below one fails with PageRequest's message; otherwise the page of the class flagged "SIM", possibly empty |
| Mapper.HalfUpHundredths | src/main/java/br/com/cadastro/alunos/model/mapper/AlunoMapper.java:84-89 | for a non-negative average x, the whole number of hundredths within half a hundredth of 100 * x, a tie rounded up |
| Mapper.RoundHalfUp2 | src/main/java/br/com/cadastro/alunos/model/mapper/AlunoMapper.java:84-89 | formatarMedia: a whole number of hundredths within 0.005 of the average, ties away from zero, with the sign of the average |
| Mapper.RoundHalfUpSymmetric | src/main/java/br/com/cadastro/alunos/model/mapper/AlunoMapper.java:87 | half-up rounding of -x is minus the rounding of x |
| Mapper.Situacao | src/main/java/br/com/cadastro/alunos/model/mapper/AlunoMapper.java:27-37 | APROVADO or REPROVADO; with a flag, APROVADO exactly for "Sim" or "APROVADO"; without one, APROVADO exactly when the average is at least 7.0 |
| Mapper.ToDTO | src/main/java/br/com/cadastro/alunos/model/mapper/AlunoMapper.java:17-49 | null maps to null; otherwise cpf, name, class and scores are copied, the average is the half-up rounding of the exact average to hundredths, and the situation is Situacao of the record |
| Mapper.ToEntity | src/main/java/br/com/cadastro/alunos/model/mapper/AlunoMapper.java:54-71 | null maps to null; otherwise cpf, name, class and scores are copied, the address is null and the flag is the situation |
| Mapper.ToDTOs | src/main/java/br/com/cadastro/alunos/api/controller/v2/ConsultaAlunosController.java:77-79 | one DTO per record, in order, each with situation APROVADO or REPROVADO |
| Mapper.ToDTOsKeepTurma | src/main/java/br/com/cadastro/alunos/model/mapper/AlunoMapper.java:39-48 | the DTOs of one class's records all show that class |
| Mapper.RoundTrip | src/main/java/br/com/cadastro/alunos/model/mapper/AlunoMapper.java:54-71 | toDTO(toEntity(toDTO(a))) equals toDTO(a) |
| Mapper.NullMapsToNull | src/main/java/br/com/cadastro/alunos/model/mapper/AlunoMapper.java:18-20 | toDTO(null) and toEntity(null) are null |
| Mapper.EvaluatedRecordsReportedReprovado | src/main/java/br/com/cadastro/alunos/model/mapper/AlunoMapper.java:28-34 | a record whose flag the services computed ("SIM" or "NÃO") is always shown as REPROVADO |
| Mapper.HiddenFields | src/main/java/br/com/cadastro/alunos/model/mapper/AlunoMapper.java:39-48 | the address, and a flag other than "Sim" or "APROVADO", do not change the DTO |
| Mapper.MediaExample | src/main/java/br/com/cadastro/alunos/model/mapper/AlunoMapper.java:84-89 | [5, 10, 10] is shown with average 8.33 |
| Mapper.NullFlagExamples | src/main/java/br/com/cadastro/alunos/model/mapper/AlunoMapper.java:36 | without a flag, [7.5, 7, 7] is shown as 7.17 APROVADO and [6, 6, 6] as REPROVADO |
| Mapper.HalfUpTie | src/main/java/br/com/cadastro/alunos/model/mapper/AlunoMapper.java:87 | an average of 7.165 is shown as 7.17 |
| ConsultaController.Status | src/main/java/br/com/cadastro/alunos/model/exceptions/GlobalExceptionHandler.java:38-86 | the status of each answer is one of 200, 204, 400, 404 and 500: 404 exactly for not-found, 400 exactly for a bad request, a validation failure or a business error |
| ConsultaController.SelecionarListagem | src/main/java/br/com/cadastro/alunos/api/controller/v2/ConsultaAlunosController.java:55-71 | the full decision table of listarAlunos: "uma-prova" with "aprovado" refused, "uma-prova" otherwise the one-exam list, then exact "aprovado" or "reprovado", else all |
| ConsultaController.Lower | src/main/java/br/com/cadastro/alunos/api/controller/v2/ConsultaAlunosController.java:108 | ASCII case folding: A-Z to the letter 32 code points further (a-z), every other character unchanged |
| ConsultaController.SelecionarConsultaTurma | src/main/java/br/com/cadastro/alunos/api/controller/v2/ConsultaAlunosController.java:97-114 | the approved page exactly for a situation equal to "aprovado" ignoring case, the failed page likewise for "reprovado", all otherwise (including absent or empty) |
| ConsultaController.SituacaoCaseExamples | src/main/java/br/com/cadastro/alunos/api/controller/v2/ConsultaAlunosController.java:108-114 | "Aprovado" and "REPROVADO" select their pages; "aprovados" and an absent situation select all |
| ConsultaController.ConsultaAlunosController.Listados | src/main/java/br/com/cadastro/alunos/api/controller/v2/ConsultaAlunosController.java:60-71 | the listing each selection runs: the single-exam query, findApproved, findFailed, or findAll for the rest |
| ConsultaController.ConsultaAlunosController.ListarAlunos | src/main/java/br/com/cadastro/alunos/api/controller/v2/ConsultaAlunosController.java:46-82 | a refused selection is a bad request, an empty listing no content, otherwise the DTOs of the listing in order |
| ConsultaController.ConsultaAlunosController.BuscarAlunosPorTurma | src/main/java/br/com/cadastro/alunos/api/controller/v2/ConsultaAlunosController.java:92-118 | a blank class, a negative page or a size outside 1..100 is a validation failure; otherwise the DTOs of the repository page the situation selects when it is not empty, and not-found when it is |

## Left out

- Floating point: scores and averages are exact reals. IEEE doubles, the `BigDecimal(String.valueOf(double))` conversion of formatarMedia and the `String.format("%.2f")` of the evaluation log are not modelled. The DECIMAL(3,1) column rounding of the scores on storage is not modelled either.
- Logging, Spring dependency injection, `@Transactional` boundaries and rollback are left out. An operation that fails leaves the store as it was, which is what the rollback gives.
- The exact moment Hibernate validates (at persist or at flush) is left out. Validation is modelled inside `Repository.AlunoRepository.Save`, and a refusal is the `ConstraintViolation` error. Inside the current service's try block the source would wrap that exception into a ServiceException; the model reports the violation itself.
- The generic `catch (Exception)` wrapping is modelled only for the failures the model can have. These are missing scores (the unboxing NullPointerException of calcularMedia) and a refused page request. Database and connection failures are not modelled.
- `Repository.AlunoRepository.ExistsByCpfAndTurmaNot`: the contract states only that a hit implies a stored cpf. The SQL reading of a null class parameter (`IS NOT NULL`) is taken as Dafny inequality of `Option`s.
- `Mapper.ToDTO`: requires the three scores when the record is present. The source throws NullPointerException there, and every stored record has its scores.
- `ConsultaController.ConsultaAlunosController.BuscarAlunosPorTurma`: the page metadata of Spring's `Page` (total count, page count) is not modelled, only its content.
- equalsIgnoreCase is modelled with ASCII case folding. Unicode case folding beyond A-Z is not modelled; the compared literals are ASCII.
- The listing order of findAll is taken to be insertion order, with an update keeping a record's place. The database guarantees no order without ORDER BY.
- The older service's deleteById of a missing cpf is modelled as doing nothing, as in current Spring Data. Earlier Spring Data versions threw an exception there.
- The @Size(13,13) annotations on the parameters of the full constructor are not modelled, because nothing validates constructor parameters at run time. The field constraint (13..14) holds.
- `ConsultaController.ConsultaAlunosController.BuscarAlunosPorTurma`: takes the class as a string. A request without the parameter fails in Spring before the method runs, and the generic handler answers 500; request binding is not modelled.
- `LegacyService.Inclusion`, `LegacyService.Alteration`, `LegacyService.InclusionAnswersStaleFlag`: the answered record is taken to be a copy that the evaluation pass does not touch, i.e. each repository call is given its own persistence context. With one shared context (Spring's open-in-view default) save returns the managed instance, the pass calls setAprovado on that same instance, and the answer would carry the re-evaluated flag.
- The HTTP layer (request binding, JSON, the v1 and v2 writing controllers, Swagger configuration) and `ErrorResponse` bodies are not modelled. Only the status each error kind gets is modelled (`ConsultaController.Status`).
- A null class passed straight to the service page queries is not modelled (the class is a `string`). The controller refuses a blank class before calling them.

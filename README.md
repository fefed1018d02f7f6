# School evaluations: analysis builders, evaluation index and records

This project models the computational core of a school-management web application:

- **The three analysis builders of the AI service controller.** Each one gathers a group's data, computes the statistics, and cleans the generative model's reply. It then decodes the reply and merges the model's insights into the statistics:
  - the roster analysis: all classes, with class sizes and key metrics;
  - the class analysis for a grading period: per-student means, best and struggling student, general and per-subject mean, median, dispersion and pass/fail counts;
  - the student analysis: means per period and per subject, best and worst subject, compiled teacher reports.
- **The helpers of the evaluations index page.**
  - Rows are grouped into buckets keyed by class, subject and date.
  - The buckets are sorted by date, newest first, then by class and subject.
  - Each bucket has its statistics: mean and the approved / in-recovery / failed bands.
  - Each grade gets a badge variant and a bar width.
  - A bucket is exported as CSV.
  - Dates are formatted as `dd/mm/yyyy`.
- **The sidebar's `isActive`**, which decides whether a navigation item is the current page.
- **The evaluation controller's four state-changing requests** (`store`, `update`, `destroy`, `destroyBulk`). They are modelled as an in-memory table of evaluation records:
  - pure transition functions on a table value;
  - a class `TabelaAvaliacoes` whose methods update its fields and are proved equal to those functions.

Grades are exact reals.

Things outside the program become parameters:
- the generative model's reply text;
- the JSON decoder, as a function from the cleaned text to an optional typed reply;
- PHP's `uniqid()`;
- the number formatting of `String(nota)`;
- the classes, students and subjects that the validation rules look up.

Modules:
- `Wrappers`: Option and Result.
- `Sequences`: a function applied to every element of a sequence.
- `Strings`: PHP `trim`, `ltrim`, `rtrim` and `str_replace`; JS `split` and `join`; code-unit string order.
- `GradeStats`: sum, mean, min, max, sorting, median, sample variance.
- `Grouping`: an insertion-ordered group-by, as PHP arrays and Laravel's `groupBy` keep keys.
- `ReplyCleaning`: the three code-fence stripping rules.
- `TurmaAnalysis`, `AlunoAnalysis`, `RosterAnalysis`: the three builders.
- `Sidebar`: `isActive`.
- `AvaliacoesIndex`: the index page's helpers.
- `AvaliacaoTabela`: the records table.

## Model

Paths are relative to the repository root.

| member | source | states |
|---|---|---|
| Strings.Trim | app/Http/Controllers/IaServiceController.php:125 | the result is a contiguous piece of the input, only whitespace was cut from each side, and it neither starts nor ends with whitespace |
| Strings.TrimLeft | app/Http/Controllers/IaServiceController.php:125 | only leading whitespace is cut, and the result does not start with whitespace |
| Strings.TrimRight | app/Http/Controllers/IaServiceController.php:125 | only trailing whitespace is cut, and the result does not end with whitespace |
| Strings.TrimSurrounded | app/Http/Controllers/IaServiceController.php:125 | whitespace around a text does not change its trim |
| Strings.TrimRightChar | app/Http/Controllers/IaServiceController.php:129 | `rtrim(s, '`')` is a prefix, everything cut is a backtick, and the result does not end with one |
| Strings.ReplaceAll | app/Http/Controllers/IaServiceController.php:128 | `str_replace` with one needle: the lemmas beside it prove that a text without the pattern is kept, that a pattern at the front is replaced and the rest is processed the same way, that a prefix without the pattern's first character is copied, and that a character in neither text nor replacement stays out |
| Strings.ReplaceAllAbsent | app/Http/Controllers/IaServiceController.php:128 | a pattern that occurs nowhere leaves the text unchanged |
| Strings.ReplaceAllAtFront | app/Http/Controllers/IaServiceController.php:128 | a pattern at the front is replaced and the replacement continues on the rest |
| Strings.Split | resources/js/pages/Avaliacoes/Index.tsx:103 | splitting gives at least one part and no part holds the separator |
| Strings.SplitJoin | resources/js/pages/Avaliacoes/Index.tsx:60 | splitting the join of separator-free parts gives the parts back |
| Strings.JoinSplit | resources/js/pages/Avaliacoes/Index.tsx:60 | joining the parts of a split gives the text back |
| Strings.NatToStringInjective | resources/js/pages/Avaliacoes/Index.tsx:73 | distinct ids print differently |
| Strings.LessTotal | resources/js/pages/Avaliacoes/Index.tsx:97 | the string order is total and asymmetric |
| Strings.LessTransitive | resources/js/pages/Avaliacoes/Index.tsx:97 | the string order is transitive |
| GradeStats.MinOf | app/Http/Controllers/IaServiceController.php:354 | `min` of a non-empty list is one of its elements and at most every element |
| GradeStats.MaxOf | app/Http/Controllers/IaServiceController.php:353 | `max` of a non-empty list is one of its elements and at least every element |
| GradeStats.Mean | app/Http/Controllers/IaServiceController.php:340 | the `avg` of a list, 0 when it is empty: the lemmas beside it prove it lies between bounds of the grades, between their minimum and maximum, and equals the grade when all are equal |
| GradeStats.MeanBetweenMinAndMax | app/Http/Controllers/IaServiceController.php:340 | the mean of a non-empty list lies between its minimum and maximum |
| GradeStats.SortAsc | app/Http/Controllers/IaServiceController.php:319 | `sort` gives an ascending permutation of its input |
| GradeStats.SortAscOfSorted | app/Http/Controllers/IaServiceController.php:319 | sorting an ascending list leaves it as it is |
| GradeStats.Median | app/Http/Controllers/IaServiceController.php:315-324 | the median of an empty list is 0, otherwise it lies between the minimum and the maximum |
| GradeStats.MedianHalvesTheGrades | app/Http/Controllers/IaServiceController.php:315-324 | at least half the grades are at most the median and at least half are at least it |
| GradeStats.CountsOfSort | app/Http/Controllers/IaServiceController.php:319 | sorting changes no count of grades below or above a bound |
| GradeStats.SampleVariance | app/Http/Controllers/IaServiceController.php:326-334 | the variance is never negative and is 0 for fewer than two grades |
| GradeStats.SampleVarianceZeroIffConstant | app/Http/Controllers/IaServiceController.php:326-334 | for two or more grades the dispersion is 0 exactly when all grades are equal |
| GradeStats.SampleVarianceExample | app/Http/Controllers/IaServiceController.php:326-334 | the sample variance of 2,4,4,4,5,5,7,9 is 32/7 |
| Grouping.Find | app/Http/Controllers/IaServiceController.php:301 | the position of the first group with a key, or -1 exactly when no group has it |
| Grouping.AppendGroups | app/Http/Controllers/IaServiceController.php:301 | `$a[$k][] = $v` keeps keys distinct, appends to the key's group, and opens a new last group for a new key |
| Grouping.GroupBy | app/Http/Controllers/IaServiceController.php:299-303 | `groupBy` keeping keys in order of first appearance: the lemmas beside it prove distinct keys, each group holding exactly its key's values in input order, a group for every key, no empty group, and no value lost |
| Grouping.GroupBySnoc | app/Http/Controllers/IaServiceController.php:299-303 | grouping one more pair is one more append step |
| Grouping.GroupByGroupsOf | app/Http/Controllers/IaServiceController.php:299-303 | the groups have distinct keys, each group holds exactly the values of its key in input order, and every key has a group |
| Grouping.GroupBySize | app/Http/Controllers/IaServiceController.php:299-303 | the groups together hold as many values as there were pairs |
| Grouping.GroupByNonEmpty | app/Http/Controllers/IaServiceController.php:299-303 | no group is empty |
| Grouping.ItemsWithFrom | app/Http/Controllers/IaServiceController.php:299-303 | every value filed under a key comes from a pair with that key |
| ReplyCleaning.CleanTurmaReply | app/Http/Controllers/IaServiceController.php:398-402 | the class rule: the lemmas beside it prove that a JSON-fenced reply cleans to its body, a reply without backticks is only trimmed, and a bare fence survives |
| ReplyCleaning.CleanRosterReply | app/Http/Controllers/IaServiceController.php:125-129 | the roster rule: the same three outcomes as the class rule on those reply shapes |
| ReplyCleaning.CleanAlunoReply | app/Http/Controllers/IaServiceController.php:529 | the student rule: the lemmas beside it prove that a JSON-fenced or bare-fenced reply cleans to its trimmed body, and a reply without backticks is only trimmed |
| ReplyCleaning.TurmaRuleStripsJsonFence | app/Http/Controllers/IaServiceController.php:398-402 | a reply fenced as JSON, with whitespace around it, cleans to the JSON body |
| ReplyCleaning.RosterRuleStripsJsonFence | app/Http/Controllers/IaServiceController.php:125-129 | the roster rule also cleans a JSON-fenced reply to its body |
| ReplyCleaning.AlunoRuleStripsJsonFence | app/Http/Controllers/IaServiceController.php:529 | the student rule cleans a JSON-fenced reply to its trimmed body |
| ReplyCleaning.UnfencedReply | app/Http/Controllers/IaServiceController.php:125-129 | a reply without backticks is only trimmed, by all three rules |
| ReplyCleaning.PlainFencedReply | app/Http/Controllers/IaServiceController.php:398-402 | a bare fence survives the class and roster rules, while the student rule strips it |
| ReplyCleaning.TrimFenced | app/Http/Controllers/IaServiceController.php:125 | trimming a fenced reply cuts only the whitespace around the fences |
| TurmaAnalysis.InPeriodoOnly | app/Http/Controllers/IaServiceController.php:270-272 | the loaded evaluations all fall in the period and come from the student's |
| TurmaAnalysis.InPeriodoOnlyKeeps | app/Http/Controllers/IaServiceController.php:270-272 | every evaluation in the period is loaded |
| TurmaAnalysis.InPeriodoOnlyEmpty | app/Http/Controllers/IaServiceController.php:270-272 | nothing is loaded exactly when no evaluation falls in the period |
| TurmaAnalysis.LoadForPeriodo | app/Http/Controllers/IaServiceController.php:270-272 | every student stays, with the same id and name and only the evaluations in the period |
| TurmaAnalysis.DadosDe | app/Http/Controllers/IaServiceController.php:284-297 | a student's entry keeps id and name; its mean is 0 without grades, otherwise between the student's lowest and highest grade |
| TurmaAnalysis.StudentEntry | app/Http/Controllers/IaServiceController.php:284-297 | the method computes the student's entry |
| TurmaAnalysis.PushGrades | app/Http/Controllers/IaServiceController.php:299-303 | the inner loop appends the student's grades to the flat list and files them under their subject |
| TurmaAnalysis.Aggregate | app/Http/Controllers/IaServiceController.php:280-304 | the loop over students computes the flat grade list, the grades per subject, the entries and the evaluation count |
| TurmaAnalysis.TotalIsNumberOfGrades | app/Http/Controllers/IaServiceController.php:282 | the evaluation counter equals the number of grades collected |
| TurmaAnalysis.SubjectGroupsCoverAllGrades | app/Http/Controllers/IaServiceController.php:299-303 | the subject groups hold every grade once, under its subject |
| TurmaAnalysis.NoEvaluationsWhenEveryStudentHasNone | app/Http/Controllers/IaServiceController.php:307-309 | the count is 0 exactly when no student has an evaluation |
| TurmaAnalysis.NoEvaluationInPeriod | app/Http/Controllers/IaServiceController.php:307-309 | after loading, the count is 0 exactly when no evaluation of the class falls in the period |
| TurmaAnalysis.RankDesc | app/Http/Controllers/IaServiceController.php:311 | `usort` by mean, descending, gives a permutation of the entries |
| TurmaAnalysis.RankedEnds | app/Http/Controllers/IaServiceController.php:311-313 | the first entry has the highest mean and the last the lowest; both are entries of the class |
| TurmaAnalysis.Aprovados | app/Http/Controllers/IaServiceController.php:343 | the number of students whose mean is at least 6, never more than the students; with `Reprovados` it counts every student once |
| TurmaAnalysis.Reprovados | app/Http/Controllers/IaServiceController.php:344 | the number of students whose mean is below 6, never more than the students; with `Aprovados` it counts every student once |
| TurmaAnalysis.AprovadosMaisReprovados | app/Http/Controllers/IaServiceController.php:343-344 | every student is counted as approved or as failed, never both |
| TurmaAnalysis.CountsOfRanking | app/Http/Controllers/IaServiceController.php:343-344 | ranking does not change the pass or fail counts |
| TurmaAnalysis.StatsOf | app/Http/Controllers/IaServiceController.php:348-355 | a subject's lowest and highest grade are its own and bound every grade; the mean and median lie between them; the variance is not negative |
| TurmaAnalysis.EstatisticasMaterias | app/Http/Controllers/IaServiceController.php:346-356 | one entry per subject group, in the groups' order, each that group's statistics |
| TurmaAnalysis.SubjectStats | app/Http/Controllers/IaServiceController.php:346-356 | the loop builds `EstatisticasMaterias` of the subject groups |
| TurmaAnalysis.FirstWhere | app/Http/Controllers/IaServiceController.php:421-422 | `firstWhere` finds nothing exactly when no insight names the subject, else the first that does |
| TurmaAnalysis.MergeOne | app/Http/Controllers/IaServiceController.php:420-427 | a subject keeps its statistics and takes the first matching insight's texts, with the fallbacks when none matches or a text is missing |
| TurmaAnalysis.Mesclados | app/Http/Controllers/IaServiceController.php:420-427 | one entry per subject, in order, each that subject's statistics merged with its insight |
| TurmaAnalysis.MergeInsights | app/Http/Controllers/IaServiceController.php:420-427 | the loop builds `Mesclados` of the statistics and the reply's insights |
| TurmaAnalysis.BuildAnalise | app/Http/Controllers/IaServiceController.php:337-427 | the method assembles the analysis from the aggregated data and the decoded reply |
| TurmaAnalysis.GenerateTurmaAnalysis | app/Http/Controllers/IaServiceController.php:264-427 | the method's result equals the class analysis of its inputs |
| TurmaAnalysis.TurmaResult | app/Http/Controllers/IaServiceController.php:264-427 | the class analysis for a period: `TurmaResultOutcomes`, `TurmaHighlights` and `TurmaGeneralStats` prove its errors, its highlighted students and its statistics |
| TurmaAnalysis.TurmaResultOutcomes | app/Http/Controllers/IaServiceController.php:307-418 | the result is an error exactly when the period has no evaluation or the cleaned reply does not decode; on success the summary and points of attention are the reply's or the fallbacks |
| TurmaAnalysis.AnaliseHighlights | app/Http/Controllers/IaServiceController.php:311-313 | for a non-empty class, the best and the struggling student exist, are entries of the class, and bound every entry's mean |
| TurmaAnalysis.TurmaHighlights | app/Http/Controllers/IaServiceController.php:311-313 | on success the best and the struggling student exist, are students of the class, and bound every student's mean |
| TurmaAnalysis.TurmaGeneralStats | app/Http/Controllers/IaServiceController.php:337-345 | the student count, the pass and fail counts adding up to it, the evaluation count, mean and median between the lowest and highest grade, non-negative variance |
| TurmaAnalysis.MateriasAreGroupStats | app/Http/Controllers/IaServiceController.php:346-356 | there is one subject entry per subject group, and each is that group's statistics merged with the reply's insight for it |
| TurmaAnalysis.SubjectsDistinct | app/Http/Controllers/IaServiceController.php:346-356 | no subject is listed twice |
| TurmaAnalysis.SubjectsStatsOfTheirGrades | app/Http/Controllers/IaServiceController.php:346-356 | each subject's statistics are the statistics of exactly its grades |
| TurmaAnalysis.SubjectsCoverEveryEvaluation | app/Http/Controllers/IaServiceController.php:300-301 | every evaluation's subject (or 'N/A') has an entry |
| AlunoAnalysis.Medias | app/Http/Controllers/IaServiceController.php:469-472 | one mean per group, with the group's key, in order |
| AlunoAnalysis.EvolucaoByPeriod | app/Http/Controllers/IaServiceController.php:467-473 | the periods are distinct; each period's mean is the mean of exactly its grades and lies between the lowest and highest of them; every evaluation's period appears |
| AlunoAnalysis.MeansOfGroups | app/Http/Controllers/IaServiceController.php:478-479 | the means per key have distinct keys, and each is the mean of exactly that key's grades |
| AlunoAnalysis.PosicaoDaMaior | app/Http/Controllers/IaServiceController.php:478 | `sortDesc()->keys()->first()` points at an entry whose mean is at least every other |
| AlunoAnalysis.PosicaoDaMenor | app/Http/Controllers/IaServiceController.php:479 | `sort()->keys()->first()` points at an entry whose mean is at most every other |
| AlunoAnalysis.EstatisticasAlunoFacts | app/Http/Controllers/IaServiceController.php:476-481 | the overall mean is between the lowest and highest grade; the count is the number of evaluations; the best and worst subject have the highest and lowest subject mean and are subjects of the student's evaluations |
| AlunoAnalysis.SubjectOfSomeEvaluation | app/Http/Controllers/IaServiceController.php:478-479 | every subject listed comes from one of the student's evaluations |
| AlunoAnalysis.RelatoriosCompilados | app/Http/Controllers/IaServiceController.php:484-489 | one entry per report with its text, and the period's name or 'Geral' (in the intended analysis; as written the load fails first) |
| AlunoAnalysis.AlunoResult | app/Http/Controllers/IaServiceController.php:455-541 | the intended student analysis, with the report periods as an input: `AlunoOutcomes`, `EvolucaoByPeriod` and `EstatisticasAlunoFacts` prove its errors, its evolution and its statistics |
| AlunoAnalysis.AlunoResultAsWritten | app/Http/Controllers/IaServiceController.php:458 | the student analysis as written, failing on the eager load of `relatorios.periodo` whenever there is a report |
| AlunoAnalysis.AsWrittenFailsWithReports | app/Http/Controllers/IaServiceController.php:458-461 | as written, the analysis fails on the eager load exactly when the student has a report, and agrees with the intended analysis otherwise |
| AlunoAnalysis.AsWrittenDiffers | app/Http/Controllers/IaServiceController.php:458-489 | a student with an evaluation and a report and a decodable reply: as written an error, intended a success that compiles every report |
| AlunoAnalysis.AsWrittenCounterexample | app/Http/Controllers/IaServiceController.php:458 | a student with one evaluation of 7 and one report without a period, under any decodable reply: as written an error, intended a success with the report under 'Geral' |
| AlunoAnalysis.AlunoOutcomes | app/Http/Controllers/IaServiceController.php:460-541 | in the intended analysis: no evaluation gives the "no evaluations" error; otherwise an undecodable reply gives the reply error; on success the insights are exactly the decoded reply and every report is compiled; reports never cause an error |
| RosterAnalysis.Adapta | app/Http/Controllers/IaServiceController.php:68-74 | a class's size is the number of its students (0 when missing), its description the given one or '' |
| RosterAnalysis.AdaptaTodas | app/Http/Controllers/IaServiceController.php:68-74 | every class is adapted, in order |
| RosterAnalysis.TotalIsSumOfSizes | app/Http/Controllers/IaServiceController.php:78 | the total of students is the sum of the class sizes |
| RosterAnalysis.TotalOfAdapted | app/Http/Controllers/IaServiceController.php:69-78 | the total counts every listed student once |
| RosterAnalysis.MaisAlunos | app/Http/Controllers/IaServiceController.php:80 | `sortByDesc('numero_alunos')->first()` is a class whose size is at least every other |
| RosterAnalysis.MenosAlunos | app/Http/Controllers/IaServiceController.php:81 | `sortBy('numero_alunos')->first()` is a class whose size is at most every other |
| RosterAnalysis.MetricasDe | app/Http/Controllers/IaServiceController.php:77-94 | the key metrics: `MetricasFacts` proves their bounds for a non-empty roster, `MetricasSemTurmas` the zero and 'N/A' values without classes |
| RosterAnalysis.MetricasSemTurmas | app/Http/Controllers/IaServiceController.php:79-93 | without classes the average is 0 and both highlighted classes are 'N/A' with 0 students |
| RosterAnalysis.MetricasFacts | app/Http/Controllers/IaServiceController.php:77-94 | the class count; the largest and smallest class are classes of the list and bound every size; the mean size lies between them |
| RosterAnalysis.FirstWhere | app/Http/Controllers/IaServiceController.php:139-140 | `firstWhere('id_turma', …)` finds nothing exactly when no insight has the id, else the first that does |
| RosterAnalysis.Combina | app/Http/Controllers/IaServiceController.php:138-150 | a class keeps its size and description, its id or a generated one, its name or 'Turma sem nome', and the first matching insight or 'Nenhum insight gerado.' |
| RosterAnalysis.RosterResult | app/Http/Controllers/IaServiceController.php:54-156 | the roster analysis: `RosterOutcomes` proves its errors, one entry per class, the summary and the metrics |
| RosterAnalysis.RosterOutcomes | app/Http/Controllers/IaServiceController.php:62-156 | no classes gives the "no classes" error; otherwise an undecodable reply gives the reply error; on success there is one entry per class, the reply's summary or its fallback, and the metrics of the adapted classes |
| RosterAnalysis.IndividualEntries | app/Http/Controllers/IaServiceController.php:138-150 | each entry of the result is the merge of the class at the same position |
| Sidebar.IsActive | resources/js/layouts/Sidebar.tsx:17-25 | `isActive`: the lemmas beside it prove that an exact item is active only on its own URL, every item on its own URL, and a non-exact item on the paths below it but not on a longer name |
| Sidebar.WithSlash | resources/js/layouts/Sidebar.tsx:22-23 | the URL ends in "/", and is unchanged when it already did |
| Sidebar.ExactIsEquality | resources/js/layouts/Sidebar.tsx:18-20 | an exact item is active only on its own URL |
| Sidebar.ActiveOnItsOwnUrl | resources/js/layouts/Sidebar.tsx:17-25 | every item is active on its own URL |
| Sidebar.PrefixRespectsSegments | resources/js/layouts/Sidebar.tsx:21-24 | a non-exact item is active on its own URL and the paths below it, not on a longer name with the same start |
| Sidebar.TurmasExample | resources/js/layouts/Sidebar.tsx:21-24 | '/turmas' is active on '/turmas/5' and '/turmas/' but not on '/turmasx' |
| AvaliacoesIndex.DataFormatada | resources/js/pages/Avaliacoes/Index.tsx:72 | a row without a date is filed under 'sem-data', otherwise under its date |
| AvaliacoesIndex.GrupoIdInjective | resources/js/pages/Avaliacoes/Index.tsx:73 | two bucket keys are equal only for the same class, subject and date |
| AvaliacoesIndex.BucketsOf | resources/js/pages/Avaliacoes/Index.tsx:74-90 | one bucket per group, keyed as the group |
| AvaliacoesIndex.FindGrupo | resources/js/pages/Avaliacoes/Index.tsx:74 | the first bucket with a key, or -1 exactly when there is none |
| AvaliacoesIndex.PushLinha | resources/js/pages/Avaliacoes/Index.tsx:71-90 | one step of the `forEach`: the result is the buckets with the row added |
| AvaliacoesIndex.AgrupadasSnoc | resources/js/pages/Avaliacoes/Index.tsx:71-91 | grouping one more row is one more step of the `forEach` |
| AvaliacoesIndex.AgruparLinhas | resources/js/pages/Avaliacoes/Index.tsx:69-91 | the loop builds the buckets of the rows |
| AvaliacoesIndex.EveryRowCounted | resources/js/pages/Avaliacoes/Index.tsx:85-90 | the buckets hold one entry per row |
| AvaliacoesIndex.AgrupadasByKey | resources/js/pages/Avaliacoes/Index.tsx:71-91 | bucket keys are distinct, every row's key has a bucket, and each bucket holds exactly its rows' entries in order |
| AvaliacoesIndex.BucketHeader | resources/js/pages/Avaliacoes/Index.tsx:75-83 | a bucket's class, subject and date are those of every row filed under it |
| AvaliacoesIndex.UndatedRowsUnderSemData | resources/js/pages/Avaliacoes/Index.tsx:72-73 | undated rows go to that class and subject's 'sem-data' bucket |
| AvaliacoesIndex.LocaleCompare | resources/js/pages/Avaliacoes/Index.tsx:97 | 0 exactly for equal strings, negative exactly when the first comes first |
| AvaliacoesIndex.Compara | resources/js/pages/Avaliacoes/Index.tsx:92-98 | the sort's comparator: the lemmas beside it prove it antisymmetric, transitive, 0 only for equal headers, and negative exactly for the newer date, then the smaller class, then the smaller subject |
| AvaliacoesIndex.ComparaAntisymmetric | resources/js/pages/Avaliacoes/Index.tsx:92-98 | the comparator is antisymmetric, and 0 only for equal class, subject and date |
| AvaliacoesIndex.ComparaTransitive | resources/js/pages/Avaliacoes/Index.tsx:92-98 | the comparator is transitive |
| AvaliacoesIndex.ComparaNegative | resources/js/pages/Avaliacoes/Index.tsx:92-98 | the comparator is negative exactly when the newer date comes first, or the same date with a smaller class, or the same class with a smaller subject |
| AvaliacoesIndex.Ordena | resources/js/pages/Avaliacoes/Index.tsx:92 | the sort gives a permutation ordered by the comparator |
| AvaliacoesIndex.OrdemUnica | resources/js/pages/Avaliacoes/Index.tsx:92-98 | with distinct headers, any two comparator-ordered permutations are equal, so every correct sort gives this order |
| AvaliacoesIndex.AgrupadasUnicas | resources/js/pages/Avaliacoes/Index.tsx:73 | no two buckets share class, subject and date |
| AvaliacoesIndex.AvaliacoesAgrupadas | resources/js/pages/Avaliacoes/Index.tsx:69-99 | the buckets are a permutation of the grouped rows, strictly in order (newest date first, then class, then subject), with a bucket for every row |
| AvaliacoesIndex.BandsPartition | resources/js/pages/Avaliacoes/Index.tsx:175-177 | approved, in recovery and failed count every grade exactly once |
| AvaliacoesIndex.CalcStats | resources/js/pages/Avaliacoes/Index.tsx:169-179 | the total is the number of students; all zero when empty; otherwise the mean is between the lowest and highest grade; in recovery counts the grades in [50, 70); the three bands add up to the total |
| AvaliacoesIndex.GetVariant | resources/js/pages/Avaliacoes/Index.tsx:134-138 | destructive exactly below 50, secondary exactly in [50, 70), default exactly from 70 |
| AvaliacoesIndex.VariantsMatchStats | resources/js/pages/Avaliacoes/Index.tsx:134-138 | the badge counts of a bucket are exactly its failed, in-recovery and approved counts |
| AvaliacoesIndex.VariantCounts | resources/js/pages/Avaliacoes/Index.tsx:134-138 | each variant counts the grades of its band |
| AvaliacoesIndex.Largura | resources/js/pages/Avaliacoes/Index.tsx:150 | the bar width is the grade clamped to [0, 100] |
| AvaliacoesIndex.LarguraMonotone | resources/js/pages/Avaliacoes/Index.tsx:150 | a higher grade never gets a shorter bar |
| AvaliacoesIndex.Aspas | resources/js/pages/Avaliacoes/Index.tsx:54 | a text field starts and ends with a quote |
| AvaliacoesIndex.DobraDesfeita | resources/js/pages/Avaliacoes/Index.tsx:54 | undoing the quote doubling gives the name back |
| AvaliacoesIndex.AspasRoundTrip | resources/js/pages/Avaliacoes/Index.tsx:54 | unquoting a quoted field gives the name back |
| AvaliacoesIndex.CamposDe | resources/js/pages/Avaliacoes/Index.tsx:52-59 | six fields per student, with the quoted name second and the bucket's date last |
| AvaliacoesIndex.LinhasCsv | resources/js/pages/Avaliacoes/Index.tsx:51-60 | the header row, then one row per student in order |
| AvaliacoesIndex.MakeCsv | resources/js/pages/Avaliacoes/Index.tsx:50-61 | the CSV text: `CsvLines` and `CsvFields` prove that it splits back into the header and one line per student, each with its six fields |
| AvaliacoesIndex.CsvLines | resources/js/pages/Avaliacoes/Index.tsx:50-61 | without line breaks in the data, splitting the CSV at line breaks gives the header line and one line per student |
| AvaliacoesIndex.CsvFields | resources/js/pages/Avaliacoes/Index.tsx:50-61 | without commas in the data, each student's line splits back into its six fields and the name is recovered |
| AvaliacoesIndex.FormatarData | resources/js/pages/Avaliacoes/Index.tsx:101-105 | the date for display: `FormatarSemData` and `FormatarDataYMD` prove '—' for a missing date and 'dd/mm/yyyy' for 'yyyy-mm-dd' |
| AvaliacoesIndex.FormatarSemData | resources/js/pages/Avaliacoes/Index.tsx:102 | an empty date and 'sem-data' print as '—' |
| AvaliacoesIndex.FormatarDataYMD | resources/js/pages/Avaliacoes/Index.tsx:101-105 | 'yyyy-mm-dd' prints as 'dd/mm/yyyy' |
| AvaliacaoTabela.DiaIgnoraHora | app/Http/Controllers/AvaliacaoController.php:130 | two moments of the same day fall on that day, as `whereDate` compares them |
| AvaliacaoTabela.CamposInvalidos | app/Http/Controllers/AvaliacaoController.php:50-54 | a field is reported exactly when its rule fails: a class or subject absent or unknown, a missing date |
| AvaliacaoTabela.NotaMaximaForaDaColuna | database/migrations/2025_09_03_234123_create_avaliacoes_table.php:20 | the rule `max:100` accepts 100, above what a `decimal(4, 2)` column holds |
| AvaliacaoTabela.NovosRegistros | app/Http/Controllers/AvaliacaoController.php:67-76 | one zero-grade record per student, in order, with consecutive ids |
| AvaliacaoTabela.Encontra | app/Http/Controllers/AvaliacaoController.php:103 | the position of a record with the id, or -1 exactly when there is none |
| AvaliacaoTabela.Mantidos | app/Http/Controllers/AvaliacaoController.php:128-131 | the records kept are exactly those outside the class, subject and day |
| AvaliacaoTabela.Armazena | app/Http/Controllers/AvaliacaoController.php:47-82 | the intended `store`: `ArmazenaUmPorAluno`, `ArmazenaValida` and `FalhaNaoMuda` prove its records and the table's invariant |
| AvaliacaoTabela.ArmazenaAsWritten | app/Http/Controllers/AvaliacaoController.php:65-77 | `store` as written, whose inserts lack the required `periodo_id` |
| AvaliacaoTabela.AsWrittenNeverStores | database/migrations/2025_09_03_234123_create_avaliacoes_table.php:19 | as written, every store fails and leaves the table as it was, and the refused insert is exactly the case where the intended store succeeds |
| AvaliacaoTabela.AsWrittenCounterexample | app/Http/Controllers/AvaliacaoController.php:69-75 | a valid request for a class with one student: as written refused, intended one new record |
| AvaliacaoTabela.FalhaNaoMuda | app/Http/Controllers/AvaliacaoController.php:47-149 | a rejected request leaves the table as it was |
| AvaliacaoTabela.ArmazenaUmPorAluno | app/Http/Controllers/AvaliacaoController.php:47-82 | a valid store on a class without students fails and changes nothing; otherwise it keeps every record and adds one zero-grade record per student with that class, subject and date |
| AvaliacaoTabela.ArmazenaValida | app/Http/Controllers/AvaliacaoController.php:65-77 | store keeps ids distinct and below the next id, and grades in [0, 100] |
| AvaliacaoTabela.Atualiza | app/Http/Controllers/AvaliacaoController.php:103-114 | `update`: `AtualizaSoANota` and `AtualizaValida` prove its outcomes and that it keeps the table valid |
| AvaliacaoTabela.AtualizaSoANota | app/Http/Controllers/AvaliacaoController.php:103-114 | a missing record gives "not found", a rejected grade a validation error; success exactly otherwise, changing only that record's grade |
| AvaliacaoTabela.AtualizaValida | app/Http/Controllers/AvaliacaoController.php:106-110 | update keeps the table valid |
| AvaliacaoTabela.Remove | app/Http/Controllers/AvaliacaoController.php:142-149 | `destroy`: `RemoveExato` and `RemoveValida` prove that it removes exactly the named record and keeps the table valid |
| AvaliacaoTabela.RemoveExato | app/Http/Controllers/AvaliacaoController.php:142-149 | destroy succeeds exactly for an existing id and removes exactly that one record |
| AvaliacaoTabela.RemoveValida | app/Http/Controllers/AvaliacaoController.php:145 | destroy keeps the table valid |
| AvaliacaoTabela.RemoveGrupo | app/Http/Controllers/AvaliacaoController.php:116-135 | `destroyBulk`: `RemoveGrupoExato` and `RemoveGrupoValida` prove that it keeps exactly the records outside the group and keeps the table valid |
| AvaliacaoTabela.RemoveGrupoExato | app/Http/Controllers/AvaliacaoController.php:116-135 | a valid bulk delete keeps exactly the records outside the class, subject and day |
| AvaliacaoTabela.MantidosValida | app/Http/Controllers/AvaliacaoController.php:128-131 | deleting a subset keeps the table valid |
| AvaliacaoTabela.RemoveGrupoValida | app/Http/Controllers/AvaliacaoController.php:116-135 | bulk delete keeps the table valid |
| AvaliacaoTabela.TabelaAvaliacoes.Store | app/Http/Controllers/AvaliacaoController.php:47-82 | the loop adds the records one student at a time, and ends in the state and result of `store` |
| AvaliacaoTabela.TabelaAvaliacoes.Update | app/Http/Controllers/AvaliacaoController.php:103-114 | the new state and result are those of `update` |
| AvaliacaoTabela.TabelaAvaliacoes.Destroy | app/Http/Controllers/AvaliacaoController.php:142-149 | the new state and result are those of `destroy` |
| AvaliacaoTabela.TabelaAvaliacoes.DestroyBulk | app/Http/Controllers/AvaliacaoController.php:116-135 | the new state and result are those of `destroyBulk` |

## Left out

- Rounding: PHP `round(…, 2)` and JS `toFixed(2)` are not modelled; means, medians and dispersions are exact reals.
  - The class analysis compares exact student means where the source compares the rounded ones: the pass and fail counts and the ranking can differ.
  - For example, grades 5.99, 6 and 6 have a mean that PHP rounds to 6.00, a pass, while `TurmaAnalysis.Reprovados` counts the exact mean 5.9966… as a fail.
- Square root: the dispersion is modelled as the sample variance; the standard deviation is its square root.
- JSON: `json_decode` of the reply is a parameter (absent = `json_last_error() !== JSON_ERROR_NONE`); `json_encode` of the context and the prompt texts are left out.
- The generative model and the HTTP data service: the reply text and the service's class list are inputs; timeouts and HTTP failures are left out.
- Persistence and web plumbing: `updateOrCreate`, `Auth::id()`, Inertia renders, redirects and flash messages; `index`, `create` and `edit` only render.
- `uniqid()`: a parameter from a class's position to a text; its results are not assumed distinct.
- RosterAnalysis.FirstWhere: PHP's loose `==` in `firstWhere` is modelled as strict equality.
- TurmaAnalysis.FirstWhere: PHP's loose `==` in `firstWhere` is modelled as strict equality.
- AlunoAnalysis.PosicaoDaMaior: states only that the subject has the highest mean; the tied subject that `sortDesc` picks is left open.
- AlunoAnalysis.PosicaoDaMenor: states only that the subject has the lowest mean; the tied subject that `sort` picks is left open.
- RosterAnalysis.MaisAlunos: states only that the class is a largest one; the tied class that `sortByDesc` picks is left open.
- RosterAnalysis.MenosAlunos: states only that the class is a smallest one; the tied class that `sortBy` picks is left open.
- TurmaAnalysis.RankDesc: states a descending permutation; the order `usort` gives tied means is left open.
- Dates:
  - The index page gets each row's date as an already normalised `yyyy-mm-dd` text; `new Date(…).toISOString()` and time zones are left out.
  - `whereDate` days are taken in one fixed time zone.
- AvaliacoesIndex.LocaleCompare: modelled as code-unit order, which agrees with the locale order on `yyyy-mm-dd` dates and 'sem-data'.
- `findOrFail`: a missing period or class is left out; a missing class in `store` is caught by the `exists` rule the model does check.
- The route model binding of `update` and `destroy` is modelled as a "not found" result.
- AvaliacaoTabela.NotaMaximaForaDaColuna: the `decimal(4, 2)` column holds at most 99.99 while the rule accepts 100. What the database then does depends on its engine, so the table keeps the validated grade.
- The class analysis counts a student mean of at least 6 as approved, the index page uses 50 and 70. The model keeps both as written.
- The period of a teacher report: the intended analysis takes each report's period name as an optional input; the analysis as written fails on any report (see Findings).
- The period of an evaluation record: the intended `store` is modelled without `periodo_id`, which the record of the model does not hold; the store as written fails on it (see Findings).
- `usort`, `sortBy` and `sortByDesc` are modelled as pure sorting functions, not in place.
- The prompts, the context object sent to the model, and the type of the student insights, which is a type parameter.
- The CSV download and copy (`Blob`, object URLs, clipboard, alerts) and the download file name: only the CSV text is modelled.
- `String(nota)`: the printing of a grade is a parameter.
- The rest of the page components, the other controllers and the Python service are not part of this model.

## Findings

| source | as written | input that shows it | evidently intended | confidence | as-written member | corrected member |
|---|---|---|---|---|---|---|
| app/Http/Controllers/IaServiceController.php:458 | the student analysis eager-loads `relatorios.periodo`, but app/Models/Relatorio.php:9-40 declares only `aluno()`; the nested load throws as soon as the student has a report, and `forceGenerateAlunoAnalysis` turns that into an analysis error | a student with one evaluation of 7 and one report | each report is compiled under its period's name or 'Geral' | high, not executed | AlunoAnalysis.AlunoResultAsWritten, AlunoAnalysis.AsWrittenFailsWithReports, AlunoAnalysis.AsWrittenCounterexample, AlunoAnalysis.AsWrittenDiffers | AlunoAnalysis.AlunoResult, AlunoAnalysis.AlunoOutcomes |
| app/Http/Controllers/AvaliacaoController.php:69-75 | `Avaliacao::create` never sets `periodo_id`, which database/migrations/2025_09_03_234123_create_avaliacoes_table.php:19 declares as a required foreign key; the first insert is refused and the transaction rolls back | a valid request for a class with one student | one zero-grade record per student is stored | medium (a later schema change could make the column nullable), not executed | AvaliacaoTabela.ArmazenaAsWritten, AvaliacaoTabela.AsWrittenNeverStores, AvaliacaoTabela.AsWrittenCounterexample | AvaliacaoTabela.Armazena, AvaliacaoTabela.ArmazenaUmPorAluno |

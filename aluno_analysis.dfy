/**
 * The student analysis of `IaServiceController::generateAndStoreAlunoAnalysis`:
 * the evolution of a student's mean period by period, their general
 * statistics (overall mean, best and worst subject, number of evaluations),
 * their reports, and the insights decoded from the language model's reply.
 *
 * The collection pipeline of the source (`groupBy`, `map`, `avg`, `sortDesc`,
 * `keys()->first()`) is modelled by functions. The decoded insights are kept
 * as they are, so their type is a parameter `I`.
 */
module AlunoAnalysis {
  import opened Wrappers
  import opened GradeStats
  import Grouping
  import ReplyCleaning

  /** One evaluation of the student: its grade, and the names of its subject and period when those exist. */
  datatype AvaliacaoAluno = AvaliacaoAluno(nota: real, materia: Option<string>, periodo: Option<string>)

  /**
   * A report written about the student, with the name of its period when it
   * has one. The report model declares no period relation (see
   * `AlunoResultAsWritten`). The intended analysis keeps the labelling rule
   * as if it did, and a report without a period is `None`.
   */
  datatype Relatorio = Relatorio(periodo: Option<string>, texto: string)

  datatype Aluno = Aluno(nome: string, avaliacoes: seq<AvaliacaoAluno>, relatorios: seq<Relatorio>)

  /**
   * The key `groupBy('periodo.nome')` files an evaluation under; a missing
   * name becomes the empty key, as it does for an array key in PHP.
   */
  function PeriodoChave(av: AvaliacaoAluno): string {
    av.periodo.GetOr("")
  }

  /** The key `groupBy('materia.nome')` files an evaluation under. */
  function MateriaChave(av: AvaliacaoAluno): string {
    av.materia.GetOr("")
  }

  /** (period, grade) for each evaluation, in order. */
  function PorPeriodoPairs(avs: seq<AvaliacaoAluno>): (ps: seq<(string, real)>)
    ensures |ps| == |avs|
    ensures forall k :: 0 <= k < |avs| ==> ps[k] == (PeriodoChave(avs[k]), avs[k].nota)
  {
    seq(|avs|, k requires 0 <= k < |avs| => (PeriodoChave(avs[k]), avs[k].nota))
  }

  /** (subject, grade) for each evaluation, in order. */
  function PorMateriaPairs(avs: seq<AvaliacaoAluno>): (ps: seq<(string, real)>)
    ensures |ps| == |avs|
    ensures forall k :: 0 <= k < |avs| ==> ps[k] == (MateriaChave(avs[k]), avs[k].nota)
  {
    seq(|avs|, k requires 0 <= k < |avs| => (MateriaChave(avs[k]), avs[k].nota))
  }

  function Notas(avs: seq<AvaliacaoAluno>): (ns: seq<real>)
    ensures |ns| == |avs|
    ensures forall k :: 0 <= k < |avs| ==> ns[k] == avs[k].nota
  {
    seq(|avs|, k requires 0 <= k < |avs| => avs[k].nota)
  }

  /** A key with the mean of the grades filed under it. */
  datatype MediaPorChave = MediaPorChave(chave: string, media: real)

  /** `map(avg)` over groups: one mean per group, in group order. */
  function Medias(gs: seq<Grouping.Group<string, real>>): (ms: seq<MediaPorChave>)
    ensures |ms| == |gs|
    ensures forall i :: 0 <= i < |gs| ==> ms[i].chave == gs[i].key
    ensures forall i :: 0 <= i < |gs| ==> ms[i].media == Mean(gs[i].items)
  {
    seq(|gs|, i requires 0 <= i < |gs| => MediaPorChave(gs[i].key, Mean(gs[i].items)))
  }

  /** `$evolucaoBimestral`: the mean of each period, periods in order of first appearance. */
  function Evolucao(avs: seq<AvaliacaoAluno>): seq<MediaPorChave> {
    Medias(Grouping.GroupBy(PorPeriodoPairs(avs)))
  }

  /** The subject means, subjects in order of first appearance. */
  function MediasPorMateria(avs: seq<AvaliacaoAluno>): seq<MediaPorChave> {
    Medias(Grouping.GroupBy(PorMateriaPairs(avs)))
  }

  /**
   * `sortDesc()->keys()->first()`: the position of an entry with the highest
   * mean. Which of several equal means the sort puts first is not fixed, and
   * the contract leaves it open.
   */
  function PosicaoDaMaior(ms: seq<MediaPorChave>): (r: nat)
    requires |ms| > 0
    ensures r < |ms|
    ensures forall k :: 0 <= k < |ms| ==> ms[k].media <= ms[r].media
  {
    if |ms| == 1 then 0
    else
      var r := PosicaoDaMaior(ms[..|ms| - 1]);
      if ms[|ms| - 1].media > ms[r].media then |ms| - 1 else r
  }

  /** `sort()->keys()->first()`: the position of an entry with the lowest mean, ties left open. */
  function PosicaoDaMenor(ms: seq<MediaPorChave>): (r: nat)
    requires |ms| > 0
    ensures r < |ms|
    ensures forall k :: 0 <= k < |ms| ==> ms[r].media <= ms[k].media
  {
    if |ms| == 1 then 0
    else
      var r := PosicaoDaMenor(ms[..|ms| - 1]);
      if ms[|ms| - 1].media < ms[r].media then |ms| - 1 else r
  }

  /** `estatisticas_gerais` of the student. */
  datatype EstatisticasAluno = EstatisticasAluno(mediaGeral: real, melhorMateria: string, piorMateria: string, totalAvaliacoes: nat)

  /** Grouping a non-empty list yields at least one group. */
  lemma GroupsOfNonEmpty(ps: seq<(string, real)>)
    requires |ps| > 0
    ensures |Grouping.GroupBy(ps)| > 0
  {
    Grouping.GroupByGroupsOf(ps);
    assert ps[0].0 in Grouping.Keys(Grouping.GroupBy(ps));
  }

  function EstatisticasDe(avs: seq<AvaliacaoAluno>): EstatisticasAluno
    requires |avs| > 0
  {
    var ms := MediasPorMateria(avs);
    GroupsOfNonEmpty(PorMateriaPairs(avs));
    EstatisticasAluno(Mean(Notas(avs)), ms[PosicaoDaMaior(ms)].chave, ms[PosicaoDaMenor(ms)].chave, |avs|)
  }

  /** One entry of `$relatoriosCompilados`. */
  datatype RelatorioCompilado = RelatorioCompilado(periodo: string, relatorio: string)

  /** The reports, each labelled with its period's name or "Geral". */
  function RelatoriosCompilados(rs: seq<Relatorio>): (cs: seq<RelatorioCompilado>)
    ensures |cs| == |rs|
    ensures forall k :: 0 <= k < |rs| ==>
      cs[k].relatorio == rs[k].texto && (rs[k].periodo.None? ==> cs[k].periodo == "Geral") &&
      (rs[k].periodo.Some? ==> cs[k].periodo == rs[k].periodo.value)
  {
    seq(|rs|, k requires 0 <= k < |rs| => RelatorioCompilado(rs[k].periodo.GetOr("Geral"), rs[k].texto))
  }

  /** `$contextoParaIA`. */
  datatype Contexto = Contexto(
    nomeAluno: string, estatisticasGerais: EstatisticasAluno, evolucaoBimestral: seq<MediaPorChave>,
    relatoriosPedagogicos: seq<RelatorioCompilado>)

  /** `$analysisData`: the context and the decoded insights. */
  datatype AnaliseAluno<I> = AnaliseAluno(estatisticas: Contexto, insights: I)

  datatype ErroAluno =
    | SemAvaliacoes           // the student has no evaluation
    | RespostaNaoProcessavel  // the cleaned reply is not valid JSON
    | RelacaoInexistente      // the eager load names a relation the report model does not declare

  function ContextoDe(aluno: Aluno): Contexto
    requires |aluno.avaliacoes| > 0
  {
    Contexto(aluno.nome, EstatisticasDe(aluno.avaliacoes), Evolucao(aluno.avaliacoes), RelatoriosCompilados(aluno.relatorios))
  }

  /** `generateAndStoreAlunoAnalysis` without the prompt, the model call, the log and the upsert. */
  function AlunoResult<I>(aluno: Aluno, reply: string, decode: string -> Option<I>): Result<AnaliseAluno<I>, ErroAluno>
  {
    if |aluno.avaliacoes| == 0 then Err(SemAvaliacoes)
    else match decode(ReplyCleaning.CleanAlunoReply(reply))
      case None => Err(RespostaNaoProcessavel)
      case Some(insights) => Ok(AnaliseAluno(ContextoDe(aluno), insights))
  }

  /**
   * `generateAndStoreAlunoAnalysis` as written. Its first step eager-loads
   * `relatorios.periodo`, but the report model declares only its `aluno`
   * relation. The nested load runs only when there is a report to run it on.
   * It then fails before any other check, and `forceGenerateAlunoAnalysis`
   * reports the failure as an analysis error.
   */
  function AlunoResultAsWritten<I>(aluno: Aluno, reply: string, decode: string -> Option<I>): Result<AnaliseAluno<I>, ErroAluno>
  {
    if |aluno.relatorios| > 0 then Err(RelacaoInexistente) else AlunoResult(aluno, reply, decode)
  }

  // ---------------------------------------------------------------------
  // Properties

  /**
   * The student analysis as written fails for every student with a report,
   * whatever their evaluations and the reply; it agrees with the intended
   * analysis exactly on the students without reports.
   */
  lemma AsWrittenFailsWithReports<I>(aluno: Aluno, reply: string, decode: string -> Option<I>)
    ensures AlunoResultAsWritten(aluno, reply, decode) == Err(RelacaoInexistente) <==> |aluno.relatorios| > 0
    ensures |aluno.relatorios| == 0 ==> AlunoResultAsWritten(aluno, reply, decode) == AlunoResult(aluno, reply, decode)
  {
  }

  /**
   * A student with an evaluation and a report, and a reply that decodes:
   * the analysis as written fails on the eager load, while the intended one
   * succeeds and compiles every report.
   */
  lemma AsWrittenDiffers<I>(aluno: Aluno, reply: string, decode: string -> Option<I>)
    requires |aluno.avaliacoes| > 0 && |aluno.relatorios| > 0
    requires decode(ReplyCleaning.CleanAlunoReply(reply)).Some?
    ensures AlunoResultAsWritten(aluno, reply, decode) == Err(RelacaoInexistente)
    ensures AlunoResult(aluno, reply, decode).Ok?
    ensures AlunoResult(aluno, reply, decode).value.estatisticas.relatoriosPedagogicos == RelatoriosCompilados(aluno.relatorios)
  {
    AlunoOutcomes(aluno, reply, decode);
  }

  /**
   * A student with one evaluation of 7 and one report without a period,
   * whatever the reply and with a decoder that accepts it: as written an
   * error, intended a success with the report under 'Geral'.
   */
  lemma AsWrittenCounterexample(reply: string, decode: string -> Option<int>)
    requires decode(ReplyCleaning.CleanAlunoReply(reply)).Some?
    ensures var aluno := Aluno("Ana", [AvaliacaoAluno(7.0, None, None)], [Relatorio(None, "ok")]);
            && AlunoResultAsWritten(aluno, reply, decode) == Err(RelacaoInexistente)
            && AlunoResult(aluno, reply, decode).Ok?
            && AlunoResult(aluno, reply, decode).value.estatisticas.relatoriosPedagogicos == [RelatorioCompilado("Geral", "ok")]
  {
    var aluno := Aluno("Ana", [AvaliacaoAluno(7.0, None, None)], [Relatorio(None, "ok")]);
    AsWrittenDiffers(aluno, reply, decode);
    assert RelatoriosCompilados(aluno.relatorios) == [RelatorioCompilado("Geral", "ok")];
  }

  /**
   * The outcomes of the intended student analysis: a student without
   * evaluations is an error whatever the reply; otherwise an undecodable
   * reply is an error; otherwise the analysis holds the decoded reply
   * unchanged and every report. Reports never make it fail.
   */
  lemma AlunoOutcomes<I>(aluno: Aluno, reply: string, decode: string -> Option<I>)
    ensures AlunoResult(aluno, reply, decode) == Err(SemAvaliacoes) <==> |aluno.avaliacoes| == 0
    ensures AlunoResult(aluno, reply, decode) == Err(RespostaNaoProcessavel) <==>
              |aluno.avaliacoes| > 0 && decode(ReplyCleaning.CleanAlunoReply(reply)).None?
    ensures AlunoResult(aluno, reply, decode).Ok? ==>
              Some(AlunoResult(aluno, reply, decode).value.insights) == decode(ReplyCleaning.CleanAlunoReply(reply))
    ensures AlunoResult(aluno, reply, decode).Ok? ==>
              AlunoResult(aluno, reply, decode).value.estatisticas.relatoriosPedagogicos == RelatoriosCompilados(aluno.relatorios)
    ensures AlunoResult(aluno, reply, decode) != Err(RelacaoInexistente)
  {
  }

  /**
   * The evolution by period: one entry per distinct period, each holding the
   * mean of exactly the grades of that period, which lies between their
   * lowest and highest; every evaluation's period has its entry.
   */
  lemma EvolucaoByPeriod(avs: seq<AvaliacaoAluno>)
    ensures var ev := Evolucao(avs);
            && (forall i, j :: 0 <= i < j < |ev| ==> ev[i].chave != ev[j].chave)
            && (forall i :: 0 <= i < |ev| ==>
                  var ns := Grouping.ItemsWith(PorPeriodoPairs(avs), ev[i].chave);
                  |ns| > 0 && ev[i].media == Mean(ns) && MinOf(ns) <= ev[i].media <= MaxOf(ns))
            && (forall k :: 0 <= k < |avs| ==> exists i :: 0 <= i < |ev| && ev[i].chave == PeriodoChave(avs[k]))
  {
    var ms := Medias(Grouping.GroupBy(PorPeriodoPairs(avs)));
    assert Evolucao(avs) == ms;
    MeansOfGroups(PorPeriodoPairs(avs));
    forall k | 0 <= k < |avs|
      ensures exists i :: 0 <= i < |Evolucao(avs)| && Evolucao(avs)[i].chave == PeriodoChave(avs[k])
    {
      KeyHasGroup(PorPeriodoPairs(avs), k);
      var i :| 0 <= i < |ms| && ms[i].chave == PorPeriodoPairs(avs)[k].0;
      assert ms[i].chave == PeriodoChave(avs[k]);
    }
  }

  /** The means of the groups: distinct keys, and each the mean of exactly the grades under its key. */
  lemma MeansOfGroups(ps: seq<(string, real)>)
    ensures var ms := Medias(Grouping.GroupBy(ps));
            && (forall i, j :: 0 <= i < j < |ms| ==> ms[i].chave != ms[j].chave)
            && (forall i :: 0 <= i < |ms| ==>
                  var ns := Grouping.ItemsWith(ps, ms[i].chave);
                  |ns| > 0 && ms[i].media == Mean(ns) && MinOf(ns) <= ms[i].media <= MaxOf(ns))
  {
    var gs := Grouping.GroupBy(ps);
    var ms := Medias(gs);
    Grouping.GroupByGroupsOf(ps);
    forall i | 0 <= i < |ms|
      ensures var ns := Grouping.ItemsWith(ps, ms[i].chave);
              |ns| > 0 && ms[i].media == Mean(ns) && MinOf(ns) <= ms[i].media <= MaxOf(ns)
    {
      var ns := gs[i].items;
      assert ns == Grouping.ItemsWith(ps, ms[i].chave);
      Grouping.GroupByNonEmpty(ps, i);
      MeanBetweenMinAndMax(ns);
    }
  }

  /** The key of every pair has its group, hence its mean. */
  lemma KeyHasGroup(ps: seq<(string, real)>, k: nat)
    requires k < |ps|
    ensures exists i :: 0 <= i < |Medias(Grouping.GroupBy(ps))| && Medias(Grouping.GroupBy(ps))[i].chave == ps[k].0
  {
    var gs := Grouping.GroupBy(ps);
    Grouping.GroupByGroupsOf(ps);
    assert ps[k].0 in Grouping.Keys(gs);
    var i :| 0 <= i < |gs| && Grouping.Keys(gs)[i] == ps[k].0;
    assert Medias(gs)[i].chave == ps[k].0;
  }

  /**
   * The general statistics: the overall mean lies between the lowest and the
   * highest grade; the best subject has the highest mean and the worst
   * the lowest, both subjects of some evaluation; every evaluation is counted.
   */
  lemma EstatisticasAlunoFacts(avs: seq<AvaliacaoAluno>)
    requires |avs| > 0
    ensures var e, ms := EstatisticasDe(avs), MediasPorMateria(avs);
            && MinOf(Notas(avs)) <= e.mediaGeral <= MaxOf(Notas(avs))
            && e.totalAvaliacoes == |avs|
            && (exists b :: 0 <= b < |ms| && ms[b].chave == e.melhorMateria &&
                  (forall k :: 0 <= k < |ms| ==> ms[k].media <= ms[b].media))
            && (exists w :: 0 <= w < |ms| && ms[w].chave == e.piorMateria &&
                  (forall k :: 0 <= k < |ms| ==> ms[w].media <= ms[k].media))
            && (exists k :: 0 <= k < |avs| && MateriaChave(avs[k]) == e.melhorMateria)
            && (exists k :: 0 <= k < |avs| && MateriaChave(avs[k]) == e.piorMateria)
  {
    var ps := PorMateriaPairs(avs);
    var ms := MediasPorMateria(avs);
    GroupsOfNonEmpty(ps);
    MeanBetweenMinAndMax(Notas(avs));
    var b, w := PosicaoDaMaior(ms), PosicaoDaMenor(ms);
    SubjectOfSomeEvaluation(avs, b);
    SubjectOfSomeEvaluation(avs, w);
  }

  /** Every subject with a mean is the subject of some evaluation. */
  lemma SubjectOfSomeEvaluation(avs: seq<AvaliacaoAluno>, i: nat)
    requires i < |MediasPorMateria(avs)|
    ensures exists k :: 0 <= k < |avs| && MateriaChave(avs[k]) == MediasPorMateria(avs)[i].chave
  {
    var ps := PorMateriaPairs(avs);
    var gs := Grouping.GroupBy(ps);
    Grouping.GroupByGroupsOf(ps);
    assert gs[i].key in Grouping.KeySet(ps);
    var k :| 0 <= k < |ps| && ps[k].0 == gs[i].key;
    assert MateriaChave(avs[k]) == ps[k].0;
  }
}

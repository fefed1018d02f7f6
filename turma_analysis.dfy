/**
 * The class analysis of `IaServiceController::generateAndStoreTurmaAnalysis`:
 * the evaluations of one period are gathered student by student, the
 * statistics of the class and of each subject are computed, and the insights
 * decoded from the language model's reply are merged into them.
 *
 * Dates are integer timestamps. The reply text and the JSON decoder are
 * parameters: `decode` returns `None` exactly when `json_decode` reports an
 * error.
 */
module TurmaAnalysis {
  import opened Wrappers
  import opened GradeStats
  import Grouping
  import ReplyCleaning
  import Sequences

  // ---------------------------------------------------------------------
  // Input: the students of a class with their evaluations

  /** One evaluation: its grade, its subject's name (absent when the subject is missing) and its date. */
  datatype Avaliacao = Avaliacao(nota: real, materia: Option<string>, data: int)

  datatype Aluno = Aluno(id: int, nome: string, avaliacoes: seq<Avaliacao>)

  /**
   * A marking period, from `dataInicio` to `dataFim`, as moments. The periods
   * store bare dates (such as 'YYYY-04-30'), and `whereBetween` compares the
   * evaluation's timestamp with them. So `dataFim` stands for the first
   * moment of the last day, and an evaluation later on that day falls
   * outside the period.
   */
  datatype Periodo = Periodo(dataInicio: int, dataFim: int)

  /** `whereBetween('data_avaliacao', [inicio, fim])`: both ends included. */
  predicate InPeriodo(p: Periodo, av: Avaliacao) {
    p.dataInicio <= av.data <= p.dataFim
  }

  /** The evaluations of `avs` that fall in the period, in their order. */
  function InPeriodoOnly(p: Periodo, avs: seq<Avaliacao>): (r: seq<Avaliacao>)
    ensures |r| <= |avs|
    ensures forall k :: 0 <= k < |r| ==> InPeriodo(p, r[k]) && r[k] in avs
  {
    if |avs| == 0 then []
    else if InPeriodo(p, avs[0]) then [avs[0]] + InPeriodoOnly(p, avs[1..])
    else InPeriodoOnly(p, avs[1..])
  }

  /** An evaluation of the period is never dropped by the filter. */
  lemma {:induction false} InPeriodoOnlyKeeps(p: Periodo, avs: seq<Avaliacao>, av: Avaliacao)
    requires av in avs && InPeriodo(p, av)
    ensures av in InPeriodoOnly(p, avs)
  {
    if avs[0] != av {
      InPeriodoOnlyKeeps(p, avs[1..], av);
    }
  }

  /** The class as loaded for the period: every student, with only the period's evaluations. */
  function LoadForPeriodo(p: Periodo, alunos: seq<Aluno>): (r: seq<Aluno>)
    ensures |r| == |alunos|
    ensures forall k :: 0 <= k < |r| ==>
      (r[k].id == alunos[k].id && r[k].nome == alunos[k].nome && r[k].avaliacoes == InPeriodoOnly(p, alunos[k].avaliacoes))
  {
    seq(|alunos|, k requires 0 <= k < |alunos| =>
      Aluno(alunos[k].id, alunos[k].nome, InPeriodoOnly(p, alunos[k].avaliacoes)))
  }

  // ---------------------------------------------------------------------
  // What the loop over the students accumulates

  /** The grades of some evaluations, in order (`pluck('nota')`). */
  function Notas(avs: seq<Avaliacao>): (ns: seq<real>)
    ensures |ns| == |avs|
    ensures forall k :: 0 <= k < |avs| ==> ns[k] == avs[k].nota
  {
    seq(|avs|, k requires 0 <= k < |avs| => avs[k].nota)
  }

  /** The subject an evaluation is filed under: its subject's name, or "N/A". */
  function MateriaNome(av: Avaliacao): string {
    av.materia.GetOr("N/A")
  }

  /** (subject, grade) for each evaluation, in order. */
  function Pairs(avs: seq<Avaliacao>): (ps: seq<(string, real)>)
    ensures |ps| == |avs|
    ensures forall k :: 0 <= k < |avs| ==> ps[k] == (MateriaNome(avs[k]), avs[k].nota)
  {
    seq(|avs|, k requires 0 <= k < |avs| => (MateriaNome(avs[k]), avs[k].nota))
  }

  /** `$todasAsNotas`: every grade of every student, students in roster order. */
  function TodasAsNotas(alunos: seq<Aluno>): seq<real>
  {
    if |alunos| == 0 then []
    else TodasAsNotas(alunos[..|alunos| - 1]) + Notas(alunos[|alunos| - 1].avaliacoes)
  }

  /** Every (subject, grade) pair, in the order the loop pushes them. */
  function MateriaPairs(alunos: seq<Aluno>): seq<(string, real)>
  {
    if |alunos| == 0 then []
    else MateriaPairs(alunos[..|alunos| - 1]) + Pairs(alunos[|alunos| - 1].avaliacoes)
  }

  /** `$notasPorMateria`: the grades grouped by subject name. */
  function NotasPorMateria(alunos: seq<Aluno>): seq<Grouping.Group<string, real>>
  {
    Grouping.GroupBy(MateriaPairs(alunos))
  }

  /** `$totalAvaliacoes`: the number of evaluations of all the students. */
  function TotalAvaliacoes(alunos: seq<Aluno>): nat
  {
    if |alunos| == 0 then 0
    else TotalAvaliacoes(alunos[..|alunos| - 1]) + |alunos[|alunos| - 1].avaliacoes|
  }

  /** One entry of `$dadosAlunos`. */
  datatype DadosAluno = DadosAluno(id: int, nome: string, media: real)

  /** A student's entry: the mean of their grades, or 0 when they have none. */
  function DadosDe(a: Aluno): (d: DadosAluno)
    ensures d.id == a.id && d.nome == a.nome
    ensures |a.avaliacoes| == 0 ==> d.media == 0.0
    ensures |a.avaliacoes| > 0 ==> MinOf(Notas(a.avaliacoes)) <= d.media <= MaxOf(Notas(a.avaliacoes))
  {
    var ns := Notas(a.avaliacoes);
    if |ns| > 0 then MeanBetweenMinAndMax(ns); DadosAluno(a.id, a.nome, Mean(ns))
    else DadosAluno(a.id, a.nome, 0.0)
  }

  /** `$dadosAlunos` before the sort: one entry per student, in roster order. */
  function DadosAlunos(alunos: seq<Aluno>): (ds: seq<DadosAluno>)
    ensures |ds| == |alunos|
    ensures forall k :: 0 <= k < |alunos| ==> ds[k] == DadosDe(alunos[k])
  {
    seq(|alunos|, k requires 0 <= k < |alunos| => DadosDe(alunos[k]))
  }

  /**
   * The inner `foreach` over one student's evaluations: each grade is pushed
   * onto all the grades and onto the group of its subject.
   */
  method PushGrades(todasAsNotas: seq<real>, notasPorMateria: seq<Grouping.Group<string, real>>,
                    ghost pairsBefore: seq<(string, real)>, avs: seq<Avaliacao>)
    returns (todas': seq<real>, porMateria': seq<Grouping.Group<string, real>>)
    requires notasPorMateria == Grouping.GroupBy(pairsBefore)
    ensures todas' == todasAsNotas + Notas(avs)
    ensures porMateria' == Grouping.GroupBy(pairsBefore + Pairs(avs))
  {
    todas', porMateria' := todasAsNotas, notasPorMateria;
    var j := 0;
    assert pairsBefore + Pairs(avs[..0]) == pairsBefore;
    while j < |avs|
      invariant 0 <= j <= |avs|
      invariant todas' == todasAsNotas + Notas(avs[..j])
      invariant porMateria' == Grouping.GroupBy(pairsBefore + Pairs(avs[..j]))
    {
      var avaliacao := avs[j];
      var materiaNome := avaliacao.materia.GetOr("N/A");
      ghost var before := pairsBefore + Pairs(avs[..j]);
      PushStep(pairsBefore, avs, j);
      Grouping.GroupBySnoc(before, materiaNome, avaliacao.nota);
      porMateria' := Grouping.Append(porMateria', materiaNome, avaliacao.nota);
      todas' := todas' + [avaliacao.nota];
      j := j + 1;
    }
    assert avs[..j] == avs;
  }

  /** One more evaluation adds its grade to the grades and its pair to the pairs. */
  lemma PushStep(pairsBefore: seq<(string, real)>, avs: seq<Avaliacao>, j: nat)
    requires j < |avs|
    ensures Notas(avs[..j + 1]) == Notas(avs[..j]) + [avs[j].nota]
    ensures pairsBefore + Pairs(avs[..j + 1]) == (pairsBefore + Pairs(avs[..j])) + [(MateriaNome(avs[j]), avs[j].nota)]
  {
    assert Pairs(avs[..j + 1]) == Pairs(avs[..j]) + [(MateriaNome(avs[j]), avs[j].nota)];
  }

  /** A student's entry as the loop computes it: `array_sum / count`, or 0 without grades. */
  method StudentEntry(aluno: Aluno) returns (d: DadosAluno)
    ensures d == DadosDe(aluno)
  {
    var notasAluno := Notas(aluno.avaliacoes);
    if |notasAluno| > 0 {
      var mediaAluno := Sum(notasAluno) / (|notasAluno| as real);
      d := DadosAluno(aluno.id, aluno.nome, mediaAluno);
    } else {
      d := DadosAluno(aluno.id, aluno.nome, 0.0);
    }
  }

  lemma AccumulatedStep(alunos: seq<Aluno>, i: nat)
    requires i < |alunos|
    ensures TodasAsNotas(alunos[..i + 1]) == TodasAsNotas(alunos[..i]) + Notas(alunos[i].avaliacoes)
    ensures MateriaPairs(alunos[..i + 1]) == MateriaPairs(alunos[..i]) + Pairs(alunos[i].avaliacoes)
    ensures TotalAvaliacoes(alunos[..i + 1]) == TotalAvaliacoes(alunos[..i]) + |alunos[i].avaliacoes|
  {
    assert alunos[..i + 1][..i] == alunos[..i];
  }

  lemma EntriesStep(alunos: seq<Aluno>, i: nat)
    requires i < |alunos|
    ensures DadosAlunos(alunos[..i + 1]) == DadosAlunos(alunos[..i]) + [DadosDe(alunos[i])]
  {
  }

  /**
   * The `foreach` over the students: counts the evaluations, records each
   * student's mean, and pushes each grade onto all the grades and onto its
   * subject's group.
   */
  method Aggregate(alunos: seq<Aluno>)
    returns (todasAsNotas: seq<real>, notasPorMateria: seq<Grouping.Group<string, real>>,
             dadosAlunos: seq<DadosAluno>, totalAvaliacoes: nat)
    ensures todasAsNotas == TodasAsNotas(alunos)
    ensures notasPorMateria == NotasPorMateria(alunos)
    ensures dadosAlunos == DadosAlunos(alunos)
    ensures totalAvaliacoes == TotalAvaliacoes(alunos)
  {
    todasAsNotas, notasPorMateria, dadosAlunos, totalAvaliacoes := [], [], [], 0;
    var i := 0;
    while i < |alunos|
      invariant 0 <= i <= |alunos|
      invariant todasAsNotas == TodasAsNotas(alunos[..i])
      invariant notasPorMateria == Grouping.GroupBy(MateriaPairs(alunos[..i]))
      invariant dadosAlunos == DadosAlunos(alunos[..i])
      invariant totalAvaliacoes == TotalAvaliacoes(alunos[..i])
    {
      var aluno := alunos[i];
      totalAvaliacoes := totalAvaliacoes + |aluno.avaliacoes|;
      var entry := StudentEntry(aluno);
      dadosAlunos := dadosAlunos + [entry];
      todasAsNotas, notasPorMateria := PushGrades(todasAsNotas, notasPorMateria, MateriaPairs(alunos[..i]), aluno.avaliacoes);
      AccumulatedStep(alunos, i);
      EntriesStep(alunos, i);
      i := i + 1;
    }
    assert alunos[..i] == alunos;
  }

  // ---------------------------------------------------------------------
  // Properties of the accumulated data

  /** Every evaluation is counted once: the count is the number of grades collected and of pairs grouped. */
  lemma {:induction false} TotalIsNumberOfGrades(alunos: seq<Aluno>)
    ensures TotalAvaliacoes(alunos) == |TodasAsNotas(alunos)| == |MateriaPairs(alunos)|
    decreases |alunos|
  {
    if |alunos| > 0 {
      TotalIsNumberOfGrades(alunos[..|alunos| - 1]);
    }
  }

  /** The subject groups hold every grade exactly once: their sizes add up to the evaluation count. */
  lemma SubjectGroupsCoverAllGrades(alunos: seq<Aluno>)
    ensures Grouping.TotalSize(NotasPorMateria(alunos)) == TotalAvaliacoes(alunos)
    ensures Grouping.GroupsOf(NotasPorMateria(alunos), MateriaPairs(alunos))
  {
    Grouping.GroupBySize(MateriaPairs(alunos));
    Grouping.GroupByGroupsOf(MateriaPairs(alunos));
    TotalIsNumberOfGrades(alunos);
  }

  /** No evaluation at all in the class: the accumulated grades are empty, and conversely. */
  lemma {:induction false} NoEvaluationsWhenEveryStudentHasNone(alunos: seq<Aluno>)
    ensures TotalAvaliacoes(alunos) == 0 <==> forall k :: 0 <= k < |alunos| ==> |alunos[k].avaliacoes| == 0
    decreases |alunos|
  {
    if |alunos| > 0 {
      var init := alunos[..|alunos| - 1];
      NoEvaluationsWhenEveryStudentHasNone(init);
      assert forall k :: 0 <= k < |init| ==> init[k] == alunos[k];
    }
  }

  // ---------------------------------------------------------------------
  // Ranking the students (`usort` by mean, highest first)

  predicate SortedDesc(ds: seq<DadosAluno>) {
    forall i, j :: 0 <= i < j < |ds| ==> ds[i].media >= ds[j].media
  }

  /** Inserts an entry before the first entry whose mean is not above its own. */
  function InsertDesc(d: DadosAluno, ds: seq<DadosAluno>): (r: seq<DadosAluno>)
    requires SortedDesc(ds)
    ensures SortedDesc(r)
    ensures multiset(r) == multiset(ds) + multiset{d}
    ensures |r| == |ds| + 1
    ensures r[0] == d || (|ds| > 0 && r[0] == ds[0])
    decreases |ds|
  {
    if |ds| == 0 then [d]
    else if d.media >= ds[0].media then [d] + ds
    else
      var t := InsertDesc(d, ds[1..]);
      assert ds == [ds[0]] + ds[1..];
      PrependDesc(ds[0], t);
      [ds[0]] + t
  }

  /** An entry whose mean is at least the first one's can go in front. */
  lemma PrependDesc(d: DadosAluno, ds: seq<DadosAluno>)
    requires SortedDesc(ds) && (|ds| == 0 || d.media >= ds[0].media)
    ensures SortedDesc([d] + ds)
  {
    var r := [d] + ds;
    forall i, j | 0 <= i < j < |r| ensures r[i].media >= r[j].media {
      assert r[j] == ds[j - 1];
      if i > 0 {
        assert r[i] == ds[i - 1];
      } else if j > 1 {
        assert ds[0].media >= ds[j - 1].media;
      }
    }
  }

  /** The student entries ordered by mean, highest first. */
  function RankDesc(ds: seq<DadosAluno>): (r: seq<DadosAluno>)
    ensures SortedDesc(r)
    ensures multiset(r) == multiset(ds)
    ensures |r| == |ds|
    decreases |ds|
  {
    if |ds| == 0 then []
    else
      assert ds == [ds[0]] + ds[1..];
      InsertDesc(ds[0], RankDesc(ds[1..]))
  }

  /** The first ranked entry has the highest mean and the last the lowest; both are entries of the class. */
  lemma RankedEnds(ds: seq<DadosAluno>)
    requires |ds| > 0
    ensures RankDesc(ds)[0] in ds && RankDesc(ds)[|ds| - 1] in ds
    ensures forall k :: 0 <= k < |ds| ==> RankDesc(ds)[|ds| - 1].media <= ds[k].media <= RankDesc(ds)[0].media
  {
    SortedEnds(RankDesc(ds), ds);
  }

  /** Entries ordered highest first that are a permutation of `ds`: the ends bound every entry of `ds`. */
  lemma SortedEnds(r: seq<DadosAluno>, ds: seq<DadosAluno>)
    requires |r| == |ds| > 0 && SortedDesc(r) && multiset(r) == multiset(ds)
    ensures r[0] in ds && r[|ds| - 1] in ds
    ensures forall k :: 0 <= k < |ds| ==> r[|ds| - 1].media <= ds[k].media <= r[0].media
  {
    assert r[0] in multiset(r) && r[|r| - 1] in multiset(r);
    forall k | 0 <= k < |ds|
      ensures r[|ds| - 1].media <= ds[k].media <= r[0].media
    {
      assert ds[k] in multiset(ds);
      assert ds[k] in r;
      var j :| 0 <= j < |r| && r[j] == ds[k];
    }
  }

  // ---------------------------------------------------------------------
  // Passing and failing students

  /** The pass mark of the class analysis. */
  const NotaDeAprovacao: real := 6.0

  /** `aprovados_geral`: the entries whose mean is at least the pass mark. */
  function Aprovados(ds: seq<DadosAluno>): (c: nat)
    ensures c <= |ds|
  {
    if |ds| == 0 then 0
    else (if ds[0].media >= NotaDeAprovacao then 1 else 0) + Aprovados(ds[1..])
  }

  /** `reprovados_geral`: the entries whose mean is below the pass mark. */
  function Reprovados(ds: seq<DadosAluno>): (c: nat)
    ensures c <= |ds|
  {
    if |ds| == 0 then 0
    else (if ds[0].media < NotaDeAprovacao then 1 else 0) + Reprovados(ds[1..])
  }

  /** Every student either passes or fails. */
  lemma {:induction false} AprovadosMaisReprovados(ds: seq<DadosAluno>)
    ensures Aprovados(ds) + Reprovados(ds) == |ds|
    decreases |ds|
  {
    if |ds| > 0 {
      AprovadosMaisReprovados(ds[1..]);
    }
  }

  lemma {:induction false} CountsOfInsertDesc(d: DadosAluno, ds: seq<DadosAluno>)
    requires SortedDesc(ds)
    ensures Aprovados(InsertDesc(d, ds)) == Aprovados(ds) + (if d.media >= NotaDeAprovacao then 1 else 0)
    ensures Reprovados(InsertDesc(d, ds)) == Reprovados(ds) + (if d.media < NotaDeAprovacao then 1 else 0)
    decreases |ds|
  {
    if |ds| > 0 && d.media < ds[0].media {
      var t := InsertDesc(d, ds[1..]);
      CountsOfInsertDesc(d, ds[1..]);
      assert ([ds[0]] + t)[1..] == t;
    } else {
      assert ([d] + ds)[1..] == ds;
    }
  }

  /** Ranking the students does not change how many pass or fail. */
  lemma {:induction false} CountsOfRanking(ds: seq<DadosAluno>)
    ensures Aprovados(RankDesc(ds)) == Aprovados(ds)
    ensures Reprovados(RankDesc(ds)) == Reprovados(ds)
    decreases |ds|
  {
    if |ds| > 0 {
      CountsOfRanking(ds[1..]);
      CountsOfInsertDesc(ds[0], RankDesc(ds[1..]));
    }
  }

  // ---------------------------------------------------------------------
  // Statistics of the class and of each subject

  /** `$estatisticasGerais`, with the variance standing for `desvio_padrao_geral`. */
  datatype EstatisticasGerais = EstatisticasGerais(
    quantidadeAlunos: nat, quantidadeAvaliacoes: nat, mediaGeral: real, medianaGeral: real,
    varianciaGeral: real, aprovadosGeral: nat, reprovadosGeral: nat)

  function Gerais(alunos: seq<Aluno>, todasAsNotas: seq<real>, ranked: seq<DadosAluno>, total: nat): EstatisticasGerais
  {
    EstatisticasGerais(
      |alunos|, total, if |todasAsNotas| > 0 then Mean(todasAsNotas) else 0.0,
      Median(todasAsNotas), SampleVariance(todasAsNotas), Aprovados(ranked), Reprovados(ranked))
  }

  /** One entry of `$estatisticasMaterias`, with the variance standing for `desvio_padrao`. */
  datatype EstatisticaMateria = EstatisticaMateria(
    materia: string, media: real, mediana: real, variancia: real, maiorNota: real, menorNota: real)

  /** The statistics of one subject's grades: the mean and the median lie between the lowest and the highest grade. */
  function StatsOf(g: Grouping.Group<string, real>): (e: EstatisticaMateria)
    requires |g.items| > 0
    ensures e.materia == g.key
    ensures e.menorNota in g.items && e.maiorNota in g.items
    ensures forall k :: 0 <= k < |g.items| ==> e.menorNota <= g.items[k] <= e.maiorNota
    ensures e.menorNota <= e.media <= e.maiorNota
    ensures e.menorNota <= e.mediana <= e.maiorNota
    ensures e.variancia >= 0.0
  {
    MeanBetweenMinAndMax(g.items);
    EstatisticaMateria(g.key, Mean(g.items), Median(g.items), SampleVariance(g.items), MaxOf(g.items), MinOf(g.items))
  }

  predicate AllNonEmpty(gs: seq<Grouping.Group<string, real>>) {
    forall i :: 0 <= i < |gs| ==> |gs[i].items| > 0
  }

  /** Every subject group of the class holds a grade, so its statistics are defined. */
  lemma SubjectGroupsNonEmpty(alunos: seq<Aluno>)
    ensures AllNonEmpty(NotasPorMateria(alunos))
  {
    forall i | 0 <= i < |NotasPorMateria(alunos)|
      ensures |NotasPorMateria(alunos)[i].items| > 0
    {
      Grouping.GroupByNonEmpty(MateriaPairs(alunos), i);
    }
  }

  /** `$estatisticasMaterias`: the statistics of each subject group, in group order. */
  function EstatisticasMaterias(gs: seq<Grouping.Group<string, real>>): (es: seq<EstatisticaMateria>)
    requires AllNonEmpty(gs)
    ensures |es| == |gs|
    ensures forall i :: 0 <= i < |gs| ==> es[i] == StatsOf(gs[i])
  {
    Sequences.MapSeq(gs, StatsOf)
  }

  /** The `foreach` over `$notasPorMateria`: one statistics entry per subject, in group order. */
  method SubjectStats(gs: seq<Grouping.Group<string, real>>) returns (es: seq<EstatisticaMateria>)
    requires AllNonEmpty(gs)
    ensures es == EstatisticasMaterias(gs)
  {
    es := [];
    var i := 0;
    while i < |gs|
      invariant 0 <= i <= |gs|
      invariant es == Sequences.MapSeq(gs[..i], StatsOf)
    {
      Sequences.MapSeqSnoc(gs, i, StatsOf);
      es := es + [StatsOf(gs[i])];
      i := i + 1;
    }
    assert gs[..|gs|] == gs;
  }

  // ---------------------------------------------------------------------
  // The decoded reply and how its insights are merged

  /** An entry of `insights_por_materia`; a missing or null field is `None`. */
  datatype InsightMateria = InsightMateria(materia: Option<string>, insight: Option<string>, sugestaoPedagogica: Option<string>)

  /** The decoded reply of the class analysis. */
  datatype RespostaTurma = RespostaTurma(
    resumoPedagogico: Option<string>, insightsPorMateria: Option<seq<InsightMateria>>,
    pontosDeAtencao: Option<seq<string>>)

  const SemResumo := "N/A"
  const SemInsight := "Análise não gerada."
  const SemSugestao := "Nenhuma sugestão gerada."

  /** `firstWhere('materia', m)`: the first entry naming the subject, if any. */
  function FirstWhere(xs: seq<InsightMateria>, m: string): (r: Option<InsightMateria>)
    ensures r.None? <==> forall k :: 0 <= k < |xs| ==> xs[k].materia != Some(m)
    ensures r.Some? ==> exists k :: 0 <= k < |xs| && xs[k] == r.value && xs[k].materia == Some(m) &&
                                    forall j :: 0 <= j < k ==> xs[j].materia != Some(m)
  {
    if |xs| == 0 then None
    else if xs[0].materia == Some(m) then Some(xs[0])
    else
      var r := FirstWhere(xs[1..], m);
      assert forall k :: 1 <= k < |xs| ==> xs[k] == xs[1..][k - 1];
      r
  }

  /** One entry of `materias`: the subject's statistics with its insight and suggestion. */
  datatype MateriaAnalise = MateriaAnalise(estatisticas: EstatisticaMateria, insight: string, sugestaoPedagogica: string)

  /**
   * The statistics of a subject merged with the first insight entry naming it;
   * a missing entry or field gives the fallback text.
   */
  function MergeOne(e: EstatisticaMateria, insights: seq<InsightMateria>): (m: MateriaAnalise)
    ensures m.estatisticas == e
    ensures (forall k :: 0 <= k < |insights| ==> insights[k].materia != Some(e.materia)) ==>
              m.insight == SemInsight && m.sugestaoPedagogica == SemSugestao
    ensures forall k :: 0 <= k < |insights| && insights[k].materia == Some(e.materia) &&
                        (forall j :: 0 <= j < k ==> insights[j].materia != Some(e.materia)) ==>
              m.insight == insights[k].insight.GetOr(SemInsight) &&
              m.sugestaoPedagogica == insights[k].sugestaoPedagogica.GetOr(SemSugestao)
  {
    match FirstWhere(insights, e.materia)
    case None => MateriaAnalise(e, SemInsight, SemSugestao)
    case Some(found) => MateriaAnalise(e, found.insight.GetOr(SemInsight), found.sugestaoPedagogica.GetOr(SemSugestao))
  }

  /** `materias`: every subject's statistics merged with its insight, in order. */
  function Mesclados(es: seq<EstatisticaMateria>, insights: seq<InsightMateria>): (ms: seq<MateriaAnalise>)
    ensures |ms| == |es|
    ensures forall i :: 0 <= i < |es| ==> ms[i] == MergeOne(es[i], insights)
  {
    Sequences.MapSeq(es, e => MergeOne(e, insights))
  }

  /** The `foreach` over the subject statistics that builds `materias`. */
  method MergeInsights(es: seq<EstatisticaMateria>, insights: seq<InsightMateria>) returns (ms: seq<MateriaAnalise>)
    ensures ms == Mesclados(es, insights)
  {
    var merge := e => MergeOne(e, insights);
    ms := [];
    for i := 0 to |es|
      invariant ms == Sequences.MapSeq(es[..i], merge)
    {
      Sequences.MapSeqSnoc(es, i, merge);
      ms := ms + [MergeOne(es[i], insights)];
    }
    assert es[..|es|] == es;
  }

  // ---------------------------------------------------------------------
  // The whole class analysis

  /** `$analysisData`. */
  datatype Analise = Analise(
    resumoPedagogico: string, estatisticasGerais: EstatisticasGerais, materias: seq<MateriaAnalise>,
    melhorAluno: Option<DadosAluno>, alunoComDificuldade: Option<DadosAluno>, pontosDeAtencao: seq<string>)

  datatype Erro =
    | SemAvaliacoesNoPeriodo  // no evaluation of the class falls in the period
    | RespostaInvalida        // the cleaned reply is not valid JSON

  /** The analysis built from a class loaded for the period and a decoded reply. */
  function AnaliseDe(alunos: seq<Aluno>, resposta: RespostaTurma): Analise
  {
    var ranked := RankDesc(DadosAlunos(alunos));
    var grupos := NotasPorMateria(alunos);
    SubjectGroupsNonEmpty(alunos);
    var insights := resposta.insightsPorMateria.GetOr([]);
    Analise(
      resposta.resumoPedagogico.GetOr(SemResumo),
      Gerais(alunos, TodasAsNotas(alunos), ranked, TotalAvaliacoes(alunos)),
      Mesclados(EstatisticasMaterias(grupos), insights),
      if |ranked| > 0 then Some(ranked[0]) else None,
      if |ranked| > 0 then Some(ranked[|ranked| - 1]) else None,
      resposta.pontosDeAtencao.GetOr([]))
  }

  /** What the class analysis yields for the class, the period, the reply text and the decoder. */
  function TurmaResult(turma: seq<Aluno>, periodo: Periodo, reply: string, decode: string -> Option<RespostaTurma>): Result<Analise, Erro>
  {
    var alunos := LoadForPeriodo(periodo, turma);
    if TotalAvaliacoes(alunos) == 0 then Err(SemAvaliacoesNoPeriodo)
    else match decode(ReplyCleaning.CleanTurmaReply(reply))
      case None => Err(RespostaInvalida)
      case Some(resposta) => Ok(AnaliseDe(alunos, resposta))
  }

  /** Steps 3 and 6 of the class analysis: the statistics, the highlights and the merge with the reply. */
  method BuildAnalise(alunos: seq<Aluno>, todasAsNotas: seq<real>, notasPorMateria: seq<Grouping.Group<string, real>>,
                      dadosAlunos: seq<DadosAluno>, totalAvaliacoes: nat, resposta: RespostaTurma)
    returns (analise: Analise)
    requires todasAsNotas == TodasAsNotas(alunos)
    requires notasPorMateria == NotasPorMateria(alunos)
    requires dadosAlunos == DadosAlunos(alunos)
    requires totalAvaliacoes == TotalAvaliacoes(alunos)
    ensures analise == AnaliseDe(alunos, resposta)
  {
    var ranked := RankDesc(dadosAlunos);
    var gerais := Gerais(alunos, todasAsNotas, ranked, totalAvaliacoes);
    SubjectGroupsNonEmpty(alunos);
    var estatisticasMaterias := SubjectStats(notasPorMateria);
    var insights := resposta.insightsPorMateria.GetOr([]);
    var materias := MergeInsights(estatisticasMaterias, insights);
    var melhor := if |ranked| > 0 then Some(ranked[0]) else None;
    var pior := if |ranked| > 0 then Some(ranked[|ranked| - 1]) else None;
    analise := Analise(resposta.resumoPedagogico.GetOr(SemResumo), gerais, materias, melhor, pior,
                       resposta.pontosDeAtencao.GetOr([]));
  }

  /** `generateAndStoreTurmaAnalysis` without the prompt, the model call and the upsert. */
  method GenerateTurmaAnalysis(turma: seq<Aluno>, periodo: Periodo, reply: string, decode: string -> Option<RespostaTurma>)
    returns (r: Result<Analise, Erro>)
    ensures r == TurmaResult(turma, periodo, reply, decode)
  {
    var alunos := LoadForPeriodo(periodo, turma);
    var todasAsNotas, notasPorMateria, dadosAlunos, totalAvaliacoes := Aggregate(alunos);
    if totalAvaliacoes == 0 {
      return Err(SemAvaliacoesNoPeriodo);
    }
    var decoded := decode(ReplyCleaning.CleanTurmaReply(reply));
    if decoded.None? {
      return Err(RespostaInvalida);
    }
    var analise := BuildAnalise(alunos, todasAsNotas, notasPorMateria, dadosAlunos, totalAvaliacoes, decoded.value);
    r := Ok(analise);
  }

  // ---------------------------------------------------------------------
  // Properties of the class analysis

  /** The period filter keeps nothing exactly when no evaluation falls in the period. */
  lemma InPeriodoOnlyEmpty(p: Periodo, avs: seq<Avaliacao>)
    ensures |InPeriodoOnly(p, avs)| == 0 <==> forall j :: 0 <= j < |avs| ==> !InPeriodo(p, avs[j])
  {
    if exists j :: 0 <= j < |avs| && InPeriodo(p, avs[j]) {
      var j :| 0 <= j < |avs| && InPeriodo(p, avs[j]);
      InPeriodoOnlyKeeps(p, avs, avs[j]);
    }
    if |InPeriodoOnly(p, avs)| > 0 {
      var r := InPeriodoOnly(p, avs);
      assert r[0] in avs;
    }
  }

  /** Some evaluation of some student falls in the period. */
  ghost predicate AlgumaNoPeriodo(turma: seq<Aluno>, p: Periodo) {
    exists k, j :: 0 <= k < |turma| && 0 <= j < |turma[k].avaliacoes| && InPeriodo(p, turma[k].avaliacoes[j])
  }

  lemma NoEvaluationInPeriod(turma: seq<Aluno>, p: Periodo)
    ensures TotalAvaliacoes(LoadForPeriodo(p, turma)) == 0 <==> !AlgumaNoPeriodo(turma, p)
  {
    var alunos := LoadForPeriodo(p, turma);
    NoEvaluationsWhenEveryStudentHasNone(alunos);
    forall k | 0 <= k < |turma|
      ensures |alunos[k].avaliacoes| == 0 <==> forall j :: 0 <= j < |turma[k].avaliacoes| ==> !InPeriodo(p, turma[k].avaliacoes[j])
    {
      InPeriodoOnlyEmpty(p, turma[k].avaliacoes);
    }
  }

  /**
   * The outcomes of the class analysis: no evaluation in the period is an
   * error whatever the reply; otherwise an undecodable reply is an error; and
   * otherwise the analysis carries the reply's summary and points of attention,
   * or their fallbacks.
   */
  lemma TurmaResultOutcomes(turma: seq<Aluno>, periodo: Periodo, reply: string, decode: string -> Option<RespostaTurma>)
    ensures TurmaResult(turma, periodo, reply, decode) == Err(SemAvaliacoesNoPeriodo) <==> !AlgumaNoPeriodo(turma, periodo)
    ensures TurmaResult(turma, periodo, reply, decode) == Err(RespostaInvalida) <==>
              AlgumaNoPeriodo(turma, periodo) && decode(ReplyCleaning.CleanTurmaReply(reply)).None?
    ensures TurmaResult(turma, periodo, reply, decode).Ok? <==>
              AlgumaNoPeriodo(turma, periodo) && decode(ReplyCleaning.CleanTurmaReply(reply)).Some?
    ensures TurmaResult(turma, periodo, reply, decode).Ok? ==>
              var resposta := decode(ReplyCleaning.CleanTurmaReply(reply)).value;
              var a := TurmaResult(turma, periodo, reply, decode).value;
              a.resumoPedagogico == resposta.resumoPedagogico.GetOr(SemResumo) &&
              a.pontosDeAtencao == resposta.pontosDeAtencao.GetOr([])
  {
    NoEvaluationInPeriod(turma, periodo);
  }

  /**
   * The highlighted students: both are present, the best has the highest
   * mean of the class and the one in difficulty the lowest, and both are
   * entries of the class.
   */
  lemma TurmaHighlights(turma: seq<Aluno>, periodo: Periodo, reply: string, decode: string -> Option<RespostaTurma>)
    requires TurmaResult(turma, periodo, reply, decode).Ok?
    ensures var a := TurmaResult(turma, periodo, reply, decode).value;
            var ds := DadosAlunos(LoadForPeriodo(periodo, turma));
            && a.melhorAluno.Some? && a.alunoComDificuldade.Some?
            && a.melhorAluno.value in ds && a.alunoComDificuldade.value in ds
            && forall k :: 0 <= k < |ds| ==> a.alunoComDificuldade.value.media <= ds[k].media <= a.melhorAluno.value.media
  {
    var alunos := LoadForPeriodo(periodo, turma);
    var resposta := decode(ReplyCleaning.CleanTurmaReply(reply)).value;
    assert TurmaResult(turma, periodo, reply, decode) == Ok(AnaliseDe(alunos, resposta));
    assert |alunos| > 0;
    AnaliseHighlights(alunos, resposta);
  }

  /** The highlights of an analysis of a class with at least one student. */
  lemma AnaliseHighlights(alunos: seq<Aluno>, resposta: RespostaTurma)
    requires |alunos| > 0
    ensures var a, ds := AnaliseDe(alunos, resposta), DadosAlunos(alunos);
            && a.melhorAluno.Some? && a.alunoComDificuldade.Some?
            && a.melhorAluno.value in ds && a.alunoComDificuldade.value in ds
            && forall k :: 0 <= k < |ds| ==> a.alunoComDificuldade.value.media <= ds[k].media <= a.melhorAluno.value.media
  {
    var ds := DadosAlunos(alunos);
    var ranked := RankDesc(ds);
    assert AnaliseDe(alunos, resposta).melhorAluno == Some(ranked[0]);
    assert AnaliseDe(alunos, resposta).alunoComDificuldade == Some(ranked[|ranked| - 1]);
    RankedEnds(ds);
  }

  /**
   * The general statistics: every student of the class passes or fails, the
   * ranking does not change those counts, every evaluation is counted, and
   * the mean and the median lie between the lowest and the highest grade.
   */
  lemma TurmaGeneralStats(turma: seq<Aluno>, periodo: Periodo, reply: string, decode: string -> Option<RespostaTurma>)
    requires TurmaResult(turma, periodo, reply, decode).Ok?
    ensures var e := TurmaResult(turma, periodo, reply, decode).value.estatisticasGerais;
            var alunos := LoadForPeriodo(periodo, turma);
            var todas := TodasAsNotas(alunos);
            && e.quantidadeAlunos == |turma|
            && e.aprovadosGeral + e.reprovadosGeral == |turma|
            && e.aprovadosGeral == Aprovados(DadosAlunos(alunos))
            && e.quantidadeAvaliacoes == |todas| > 0
            && MinOf(todas) <= e.mediaGeral <= MaxOf(todas)
            && MinOf(todas) <= e.medianaGeral <= MaxOf(todas)
            && e.varianciaGeral >= 0.0
  {
    var alunos := LoadForPeriodo(periodo, turma);
    var ds := DadosAlunos(alunos);
    TotalIsNumberOfGrades(alunos);
    AprovadosMaisReprovados(RankDesc(ds));
    CountsOfRanking(ds);
    MeanBetweenMinAndMax(TodasAsNotas(alunos));
  }

  /** An evaluation of a student is pushed as a (subject, grade) pair. */
  lemma {:induction false} PairOfEvaluation(alunos: seq<Aluno>, k: nat, j: nat)
    requires k < |alunos| && j < |alunos[k].avaliacoes|
    ensures (MateriaNome(alunos[k].avaliacoes[j]), alunos[k].avaliacoes[j].nota) in MateriaPairs(alunos)
    decreases |alunos|
  {
    var init := alunos[..|alunos| - 1];
    var av := alunos[k].avaliacoes[j];
    if k < |init| {
      assert init[k] == alunos[k];
      PairOfEvaluation(init, k, j);
    } else {
      assert Pairs(alunos[k].avaliacoes)[j] == (MateriaNome(av), av.nota);
    }
  }

  /** Each entry of `materias` is a subject group's statistics merged with the reply's insight for it. */
  lemma MateriasAreGroupStats(alunos: seq<Aluno>, resposta: RespostaTurma)
    ensures var ms, gs := AnaliseDe(alunos, resposta).materias, NotasPorMateria(alunos);
            && |ms| == |gs| && AllNonEmpty(gs)
            && (forall i :: 0 <= i < |gs| ==> ms[i] == MergeOne(StatsOf(gs[i]), resposta.insightsPorMateria.GetOr([])))
            && (forall i :: 0 <= i < |gs| ==> ms[i].estatisticas == StatsOf(gs[i]))
  {
    SubjectGroupsNonEmpty(alunos);
  }

  /** One entry per subject: no subject has two entries. */
  lemma SubjectsDistinct(alunos: seq<Aluno>, resposta: RespostaTurma)
    ensures var ms := AnaliseDe(alunos, resposta).materias;
            forall i, j :: 0 <= i < j < |ms| ==> ms[i].estatisticas.materia != ms[j].estatisticas.materia
  {
    var gs := NotasPorMateria(alunos);
    Grouping.GroupByGroupsOf(MateriaPairs(alunos));
    MateriasAreGroupStats(alunos, resposta);
    assert Grouping.DistinctKeys(gs);
  }

  /** Each subject's statistics are those of exactly the grades filed under that subject, in the order they were pushed. */
  lemma SubjectsStatsOfTheirGrades(alunos: seq<Aluno>, resposta: RespostaTurma)
    ensures var ms := AnaliseDe(alunos, resposta).materias;
            forall i :: 0 <= i < |ms| ==>
              var ns := Grouping.ItemsWith(MateriaPairs(alunos), ms[i].estatisticas.materia);
              |ns| > 0 && ms[i].estatisticas == StatsOf(Grouping.Group(ms[i].estatisticas.materia, ns))
  {
    var gs := NotasPorMateria(alunos);
    Grouping.GroupByGroupsOf(MateriaPairs(alunos));
    MateriasAreGroupStats(alunos, resposta);
    assert forall i :: 0 <= i < |gs| ==> gs[i] == Grouping.Group(gs[i].key, Grouping.ItemsWith(MateriaPairs(alunos), gs[i].key));
  }

  /** Every evaluation's subject has an entry in the analysis. */
  lemma SubjectsCoverEveryEvaluation(alunos: seq<Aluno>, resposta: RespostaTurma, k: nat, j: nat)
    requires k < |alunos| && j < |alunos[k].avaliacoes|
    ensures var ms := AnaliseDe(alunos, resposta).materias;
            exists i :: 0 <= i < |ms| && ms[i].estatisticas.materia == MateriaNome(alunos[k].avaliacoes[j])
  {
    var ps := MateriaPairs(alunos);
    var gs := NotasPorMateria(alunos);
    var av := alunos[k].avaliacoes[j];
    PairOfEvaluation(alunos, k, j);
    var n :| 0 <= n < |ps| && ps[n] == (MateriaNome(av), av.nota);
    Grouping.PairHasGroup(ps, n);
    var i :| 0 <= i < |gs| && gs[i].key == MateriaNome(av);
    MateriasAreGroupStats(alunos, resposta);
    var ms := AnaliseDe(alunos, resposta).materias;
    assert ms[i].estatisticas.materia == gs[i].key;
  }
}

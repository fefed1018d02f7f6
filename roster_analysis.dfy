/**
 * The roster analysis of `IaServiceController::generateAndStoreAnalysis`:
 * the classes returned by the data service are adapted, the key metrics of
 * the roster are computed, and the insight decoded from the language
 * model's reply for each class is merged into it.
 *
 * The data service's answer, the reply text, the JSON decoder and the
 * identifiers `uniqid()` generates are parameters.
 */
module RosterAnalysis {
  import opened Wrappers
  import opened GradeStats
  import ReplyCleaning

  /** A student of a class as the data service returns it; only how many there are matters here. */
  datatype AlunoDado = AlunoDado(id: Option<int>, nome: Option<string>)

  /** A class as the data service returns it; a missing or null field is `None`. */
  datatype TurmaDado = TurmaDado(id: Option<int>, nome: Option<string>, descricao: Option<string>, alunos: Option<seq<AlunoDado>>)

  /** A class after the adaptation step, with its number of students and a description that is never null. */
  datatype Turma = Turma(id: Option<int>, nome: Option<string>, descricao: string, numeroAlunos: nat)

  /** `numero_alunos` is the size of the student list (0 when there is none), and `descricao` defaults to "". */
  function Adapta(t: TurmaDado): (r: Turma)
    ensures r.id == t.id && r.nome == t.nome
    ensures t.alunos.None? ==> r.numeroAlunos == 0
    ensures t.alunos.Some? ==> r.numeroAlunos == |t.alunos.value|
    ensures t.descricao.None? ==> r.descricao == ""
    ensures t.descricao.Some? ==> r.descricao == t.descricao.value
  {
    Turma(t.id, t.nome, t.descricao.GetOr(""), |t.alunos.GetOr([])|)
  }

  function AdaptaTodas(ts: seq<TurmaDado>): (rs: seq<Turma>)
    ensures |rs| == |ts|
    ensures forall k :: 0 <= k < |ts| ==> rs[k] == Adapta(ts[k])
  {
    seq(|ts|, k requires 0 <= k < |ts| => Adapta(ts[k]))
  }

  // ---------------------------------------------------------------------
  // Key metrics

  /** `sum('numero_alunos')`. */
  function TotalAlunos(ts: seq<Turma>): nat {
    if |ts| == 0 then 0 else TotalAlunos(ts[..|ts| - 1]) + ts[|ts| - 1].numeroAlunos
  }

  /** The class sizes, as reals. */
  function Tamanhos(ts: seq<Turma>): (xs: seq<real>)
    ensures |xs| == |ts|
    ensures forall k :: 0 <= k < |ts| ==> xs[k] == ts[k].numeroAlunos as real
  {
    seq(|ts|, k requires 0 <= k < |ts| => ts[k].numeroAlunos as real)
  }

  /**
   * `sortByDesc('numero_alunos')->first()`: the position of a class with the
   * most students. Which of several equal sizes the sort puts first is not
   * fixed, and the contract leaves it open.
   */
  function MaisAlunos(ts: seq<Turma>): (r: nat)
    requires |ts| > 0
    ensures r < |ts|
    ensures forall k :: 0 <= k < |ts| ==> ts[k].numeroAlunos <= ts[r].numeroAlunos
  {
    if |ts| == 1 then 0
    else
      var r := MaisAlunos(ts[..|ts| - 1]);
      if ts[|ts| - 1].numeroAlunos > ts[r].numeroAlunos then |ts| - 1 else r
  }

  /** `sortBy('numero_alunos')->first()`: the position of a class with the fewest students, ties left open. */
  function MenosAlunos(ts: seq<Turma>): (r: nat)
    requires |ts| > 0
    ensures r < |ts|
    ensures forall k :: 0 <= k < |ts| ==> ts[r].numeroAlunos <= ts[k].numeroAlunos
  {
    if |ts| == 1 then 0
    else
      var r := MenosAlunos(ts[..|ts| - 1]);
      if ts[|ts| - 1].numeroAlunos < ts[r].numeroAlunos then |ts| - 1 else r
  }

  /** A highlighted class: its name ("N/A" when it has none) and its number of students. */
  datatype Destaque = Destaque(nome: string, quantidade: nat)

  /** `$metricasChave`. */
  datatype Metricas = Metricas(
    totalTurmas: nat, totalAlunos: nat, mediaAlunosPorTurma: real,
    turmaComMaisAlunos: Destaque, turmaComMenosAlunos: Destaque)

  function DestaqueDe(t: Turma): Destaque {
    Destaque(t.nome.GetOr("N/A"), t.numeroAlunos)
  }

  /**
   * `$metricasChave`. Without classes the average is 0, and the largest and
   * smallest class are both `null`. So their fields fall back to 'N/A' and 0.
   */
  function MetricasDe(ts: seq<Turma>): Metricas {
    var total := TotalAlunos(ts);
    if |ts| == 0 then Metricas(0, total, 0.0, Destaque("N/A", 0), Destaque("N/A", 0))
    else
      Metricas(|ts|, total, (total as real) / (|ts| as real),
               DestaqueDe(ts[MaisAlunos(ts)]), DestaqueDe(ts[MenosAlunos(ts)]))
  }

  // ---------------------------------------------------------------------
  // The reply and the merge

  /** An entry of `analise_individual` in the reply. */
  datatype InsightTurma = InsightTurma(idTurma: Option<int>, insight: Option<string>)

  /** The decoded reply of the roster analysis. */
  datatype RespostaRoster = RespostaRoster(resumoGeral: Option<string>, analiseIndividual: Option<seq<InsightTurma>>)

  /** The identifier of a class in the result: its own, or one generated for it. */
  datatype IdTurma = Existente(id: int) | Gerado(uniq: string)

  /** One entry of `$analiseIndividualFinal`. */
  datatype AnaliseIndividual = AnaliseIndividual(idTurma: IdTurma, nomeTurma: string, numeroAlunos: nat, descricao: string, insight: string)

  const SemNome := "Turma sem nome"
  const SemInsight := "Nenhum insight gerado."
  const SemResumo := "Nenhum resumo gerado."

  /** `firstWhere('id_turma', id)`: the first entry for the class, if any. */
  function FirstWhere(xs: seq<InsightTurma>, id: Option<int>): (r: Option<InsightTurma>)
    ensures r.None? <==> forall k :: 0 <= k < |xs| ==> xs[k].idTurma != id
    ensures r.Some? ==> exists k :: 0 <= k < |xs| && xs[k] == r.value && xs[k].idTurma == id &&
                                    forall j :: 0 <= j < k ==> xs[j].idTurma != id
  {
    if |xs| == 0 then None
    else if xs[0].idTurma == id then Some(xs[0])
    else
      var r := FirstWhere(xs[1..], id);
      assert forall k :: 1 <= k < |xs| ==> xs[k] == xs[1..][k - 1];
      r
  }

  /**
   * A class merged with the first insight entry for its id; a missing id is
   * replaced by the generated one, a missing name and a missing insight by
   * their fallback texts.
   */
  function Combina(t: Turma, insights: seq<InsightTurma>, uniq: string): (a: AnaliseIndividual)
    ensures a.numeroAlunos == t.numeroAlunos && a.descricao == t.descricao
    ensures a.idTurma == if t.id.Some? then Existente(t.id.value) else Gerado(uniq)
    ensures a.nomeTurma == t.nome.GetOr(SemNome)
    ensures (forall k :: 0 <= k < |insights| ==> insights[k].idTurma != t.id) ==> a.insight == SemInsight
    ensures forall k :: 0 <= k < |insights| && insights[k].idTurma == t.id &&
                        (forall j :: 0 <= j < k ==> insights[j].idTurma != t.id) ==>
              a.insight == insights[k].insight.GetOr(SemInsight)
  {
    var found := FirstWhere(insights, t.id);
    AnaliseIndividual(
      match t.id case Some(id) => Existente(id) case None => Gerado(uniq),
      t.nome.GetOr(SemNome), t.numeroAlunos, t.descricao,
      match found case Some(i) => i.insight.GetOr(SemInsight) case None => SemInsight)
  }

  /** `$analysisData` of the roster. */
  datatype AnaliseRoster = AnaliseRoster(resumoGeral: string, metricasChave: Metricas, analiseIndividual: seq<AnaliseIndividual>)

  datatype ErroRoster =
    | NenhumaTurma       // the data service returned no class
    | RespostaInvalida   // the cleaned reply is not valid JSON

  function AnaliseDe(ts: seq<Turma>, resposta: RespostaRoster, uniqids: nat -> string): AnaliseRoster
    requires |ts| > 0
  {
    var insights := resposta.analiseIndividual.GetOr([]);
    AnaliseRoster(
      resposta.resumoGeral.GetOr(SemResumo), MetricasDe(ts),
      seq(|ts|, k requires 0 <= k < |ts| => Combina(ts[k], insights, uniqids(k))))
  }

  /**
   * The roster analysis for the data service's `data` field, the reply text,
   * the decoder and the identifiers `uniqid()` would generate, class by class.
   */
  function RosterResult(data: Option<seq<TurmaDado>>, reply: string, decode: string -> Option<RespostaRoster>,
                        uniqids: nat -> string): Result<AnaliseRoster, ErroRoster>
  {
    var turmasData := data.GetOr([]);
    if |turmasData| == 0 then Err(NenhumaTurma)
    else match decode(ReplyCleaning.CleanRosterReply(reply))
      case None => Err(RespostaInvalida)
      case Some(resposta) => Ok(AnaliseDe(AdaptaTodas(turmasData), resposta, uniqids))
  }

  // ---------------------------------------------------------------------
  // Properties

  /**
   * The outcomes of the roster analysis: no class (a missing or empty
   * `data`) is an error whatever the reply; otherwise an undecodable reply is
   * an error; otherwise the analysis has one entry per class and the reply's
   * summary or its fallback.
   */
  lemma RosterOutcomes(data: Option<seq<TurmaDado>>, reply: string, decode: string -> Option<RespostaRoster>, uniqids: nat -> string)
    ensures RosterResult(data, reply, decode, uniqids) == Err(NenhumaTurma) <==> data.None? || |data.value| == 0
    ensures RosterResult(data, reply, decode, uniqids) == Err(RespostaInvalida) <==>
              data.Some? && |data.value| > 0 && decode(ReplyCleaning.CleanRosterReply(reply)).None?
    ensures RosterResult(data, reply, decode, uniqids).Ok? ==>
              var a := RosterResult(data, reply, decode, uniqids).value;
              var resposta := decode(ReplyCleaning.CleanRosterReply(reply)).value;
              && |a.analiseIndividual| == |data.value|
              && a.resumoGeral == resposta.resumoGeral.GetOr(SemResumo)
              && a.metricasChave == MetricasDe(AdaptaTodas(data.value))
  {
  }

  lemma {:induction false} TotalIsSumOfSizes(ts: seq<Turma>)
    ensures TotalAlunos(ts) as real == Sum(Tamanhos(ts))
    decreases |ts|
  {
    if |ts| > 0 {
      var init := ts[..|ts| - 1];
      TotalIsSumOfSizes(init);
      assert Tamanhos(ts) == Tamanhos(init) + [ts[|ts| - 1].numeroAlunos as real];
      SumAppend(Tamanhos(init), [ts[|ts| - 1].numeroAlunos as real]);
    }
  }

  /**
   * The key metrics: the largest class has at least as many students as any
   * other and the smallest at most as many, and the average number of
   * students per class lies between the two.
   */
  lemma MetricasFacts(ts: seq<Turma>)
    requires |ts| > 0
    ensures var m := MetricasDe(ts);
            && m.totalTurmas == |ts|
            && (forall k :: 0 <= k < |ts| ==> m.turmaComMenosAlunos.quantidade <= ts[k].numeroAlunos <= m.turmaComMaisAlunos.quantidade)
            && (exists k :: 0 <= k < |ts| && m.turmaComMaisAlunos == DestaqueDe(ts[k]))
            && (exists k :: 0 <= k < |ts| && m.turmaComMenosAlunos == DestaqueDe(ts[k]))
            && m.turmaComMenosAlunos.quantidade as real <= m.mediaAlunosPorTurma <= m.turmaComMaisAlunos.quantidade as real
  {
    var lo, hi := ts[MenosAlunos(ts)].numeroAlunos, ts[MaisAlunos(ts)].numeroAlunos;
    TotalIsSumOfSizes(ts);
    MeanWithin(Tamanhos(ts), lo as real, hi as real);
  }

  /** Without classes every metric is zero and both highlighted classes are 'N/A' with 0 students. */
  lemma MetricasSemTurmas()
    ensures MetricasDe([]) == Metricas(0, 0, 0.0, Destaque("N/A", 0), Destaque("N/A", 0))
  {
  }

  /** The number of students of the roster is the sum of the classes' student lists. */
  lemma {:induction false} TotalOfAdapted(ts: seq<TurmaDado>)
    ensures TotalAlunos(AdaptaTodas(ts)) == TotalListed(ts)
    decreases |ts|
  {
    if |ts| > 0 {
      var init := ts[..|ts| - 1];
      TotalOfAdapted(init);
      assert AdaptaTodas(ts)[..|ts| - 1] == AdaptaTodas(init);
    }
  }

  /** The number of students listed in the classes' `alunos` fields. */
  function TotalListed(ts: seq<TurmaDado>): nat {
    if |ts| == 0 then 0
    else TotalListed(ts[..|ts| - 1]) + (match ts[|ts| - 1].alunos case Some(lista) => |lista| case None => 0)
  }

  /**
   * Each class of the result comes from the class at the same position: its
   * id or the generated one, its name or the fallback, its size and
   * description, and the insight of the first reply entry for its id.
   */
  lemma IndividualEntries(data: Option<seq<TurmaDado>>, reply: string, decode: string -> Option<RespostaRoster>,
                          uniqids: nat -> string, k: nat)
    requires RosterResult(data, reply, decode, uniqids).Ok?
    requires k < |data.value|
    ensures var a := RosterResult(data, reply, decode, uniqids).value.analiseIndividual;
            var insights := decode(ReplyCleaning.CleanRosterReply(reply)).value.analiseIndividual.GetOr([]);
            a[k] == Combina(Adapta(data.value[k]), insights, uniqids(k))
  {
  }
}

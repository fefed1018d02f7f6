/**
 * The helpers of the evaluations page: the rows are gathered into buckets
 * of one class, one subject and one date, the buckets are ordered, and each
 * bucket has its pass/recovery/fail counts, its CSV export and its badge
 * colours.
 *
 * A row's date is the already normalised "YYYY-MM-DD" text of its
 * timestamp, or "" when the row has none.
 */
module AvaliacoesIndex {
  import opened Wrappers
  import opened Strings
  import opened GradeStats
  import Grouping

  /** `NOTA_REPROVACAO`: below this grade a student fails. */
  const NotaReprovacao: real := 50.0
  /** `NOTA_APROVACAO`: from this grade on a student passes. */
  const NotaAprovacao: real := 70.0

  /** An evaluation as the page receives it, with the names of its loaded relations. */
  datatype Linha = Linha(
    id: nat, alunoId: nat, turmaId: nat, materiaId: nat, nota: Option<real>, data: string,
    alunoNome: Option<string>, turmaNome: Option<string>, materiaNome: Option<string>)

  const SemData := "sem-data"

  /** `dataFormatada`: the row's date, or "sem-data" when it has none. */
  function DataFormatada(l: Linha): (d: string)
    ensures l.data == "" ==> d == SemData
    ensures l.data != "" ==> d == l.data
  {
    if l.data == "" then SemData else l.data
  }

  /** `turma-${turma}-materia-${materia}-data-${data}`. */
  function GrupoId(turma: nat, materia: nat, data: string): string {
    "turma-" + (NatToString(turma) + ("-materia-" + (NatToString(materia) + ("-data-" + data))))
  }

  /** The bucket a row belongs to. */
  function GrupoDe(l: Linha): string {
    GrupoId(l.turmaId, l.materiaId, DataFormatada(l))
  }

  /** Two buckets have the same key only when they have the same class, subject and date. */
  lemma GrupoIdInjective(t1: nat, m1: nat, d1: string, t2: nat, m2: nat, d2: string)
    requires GrupoId(t1, m1, d1) == GrupoId(t2, m2, d2)
    ensures t1 == t2 && m1 == m2 && d1 == d2
  {
    var a1, a2 := NatToString(t1), NatToString(t2);
    var b1, b2 := NatToString(m1), NatToString(m2);
    var r1, r2 := "-materia-" + (b1 + ("-data-" + d1)), "-materia-" + (b2 + ("-data-" + d2));
    assert "turma-" + (a1 + r1) == "turma-" + (a2 + r2);
    assert a1 + r1 == ("turma-" + (a1 + r1))[6..] && a2 + r2 == ("turma-" + (a2 + r2))[6..];
    DigitPrefixOfAppend(a1, r1);
    DigitPrefixOfAppend(a2, r2);
    NatToStringInjective(t1, t2);
    assert r1 == (a1 + r1)[|a1|..] && r2 == (a2 + r2)[|a2|..];
    assert b1 + ("-data-" + d1) == r1[9..] && b2 + ("-data-" + d2) == r2[9..];
    DigitPrefixOfAppend(b1, "-data-" + d1);
    DigitPrefixOfAppend(b2, "-data-" + d2);
    NatToStringInjective(m1, m2);
    assert "-data-" + d1 == (b1 + ("-data-" + d1))[|b1|..];
    assert "-data-" + d2 == (b2 + ("-data-" + d2))[|b2|..];
    assert d1 == ("-data-" + d1)[6..] && d2 == ("-data-" + d2)[6..];
  }

  // ---------------------------------------------------------------------
  // Grouping the rows

  /** An entry of a bucket's `alunos`. */
  datatype AlunoAvaliacao = AlunoAvaliacao(id: nat, alunoId: nat, nota: real, alunoNome: Option<string>)

  /** A row's entry: its grade as a number, 0 when it has none. */
  function EntradaDe(l: Linha): AlunoAvaliacao {
    AlunoAvaliacao(l.id, l.alunoId, l.nota.GetOr(0.0), l.alunoNome)
  }

  /** A bucket: its key, the class, subject and date of its first row, and the entries of its rows. */
  datatype AvaliacaoAgrupada = AvaliacaoAgrupada(
    id: string, turmaId: nat, turmaNome: Option<string>, materiaId: nat, materiaNome: Option<string>,
    dataAvaliacao: string, alunos: seq<AlunoAvaliacao>)

  function Entradas(ls: seq<Linha>): (es: seq<AlunoAvaliacao>)
    ensures |es| == |ls|
    ensures forall k :: 0 <= k < |ls| ==> es[k] == EntradaDe(ls[k])
  {
    seq(|ls|, k requires 0 <= k < |ls| => EntradaDe(ls[k]))
  }

  /** The bucket of a group of rows, with the header of its first row. */
  function Bucket(g: Grouping.Group<string, Linha>): AvaliacaoAgrupada
    requires |g.items| > 0
  {
    var first := g.items[0];
    AvaliacaoAgrupada(g.key, first.turmaId, first.turmaNome, first.materiaId, first.materiaNome,
                      DataFormatada(first), Entradas(g.items))
  }

  /** (key, row) for each row, in order. */
  function Chaves(ls: seq<Linha>): (ps: seq<(string, Linha)>)
    ensures |ps| == |ls|
    ensures forall k :: 0 <= k < |ls| ==> ps[k] == (GrupoDe(ls[k]), ls[k])
  {
    seq(|ls|, k requires 0 <= k < |ls| => (GrupoDe(ls[k]), ls[k]))
  }

  predicate AllNonEmpty(gs: seq<Grouping.Group<string, Linha>>) {
    forall i :: 0 <= i < |gs| ==> |gs[i].items| > 0
  }

  lemma GroupsNonEmpty(ls: seq<Linha>)
    ensures AllNonEmpty(Grouping.GroupBy(Chaves(ls)))
  {
    forall i | 0 <= i < |Grouping.GroupBy(Chaves(ls))|
      ensures |Grouping.GroupBy(Chaves(ls))[i].items| > 0
    {
      Grouping.GroupByNonEmpty(Chaves(ls), i);
    }
  }

  /** The buckets of some groups of rows. */
  function BucketsOf(gs: seq<Grouping.Group<string, Linha>>): (bs: seq<AvaliacaoAgrupada>)
    requires AllNonEmpty(gs)
    ensures |bs| == |gs|
    ensures forall i :: 0 <= i < |gs| ==> bs[i] == Bucket(gs[i]) && bs[i].id == gs[i].key
  {
    seq(|gs|, i requires 0 <= i < |gs| => Bucket(gs[i]))
  }

  /** The buckets of some rows, in order of their first row. */
  function Agrupadas(ls: seq<Linha>): seq<AvaliacaoAgrupada>
  {
    GroupsNonEmpty(ls);
    BucketsOf(Grouping.GroupBy(Chaves(ls)))
  }

  /** The position of the bucket with key `id`, or -1: the lookup `grupos[grupoId]`. */
  function FindGrupo(gs: seq<AvaliacaoAgrupada>, id: string): (r: int)
    ensures -1 <= r < |gs|
    ensures r >= 0 ==> gs[r].id == id && forall j :: 0 <= j < r ==> gs[j].id != id
    ensures r < 0 ==> forall j :: 0 <= j < |gs| ==> gs[j].id != id
    decreases |gs|
  {
    if |gs| == 0 then -1
    else if gs[0].id == id then 0
    else
      var r := FindGrupo(gs[1..], id);
      if r < 0 then -1 else r + 1
  }

  /** The new bucket a row opens when its key has none yet. */
  function NovoGrupo(l: Linha): AvaliacaoAgrupada {
    AvaliacaoAgrupada(GrupoDe(l), l.turmaId, l.turmaNome, l.materiaId, l.materiaNome, DataFormatada(l), [EntradaDe(l)])
  }

  /** One step of the `forEach`: open the row's bucket if needed, then push the row's entry onto it. */
  function AddLinha(gs: seq<AvaliacaoAgrupada>, l: Linha): seq<AvaliacaoAgrupada> {
    var i := FindGrupo(gs, GrupoDe(l));
    if i < 0 then gs + [NovoGrupo(l)]
    else gs[i := gs[i].(alunos := gs[i].alunos + [EntradaDe(l)])]
  }

  lemma BucketPush(g: Grouping.Group<string, Linha>, l: Linha)
    requires |g.items| > 0
    ensures Bucket(Grouping.Group(g.key, g.items + [l])) == Bucket(g).(alunos := Bucket(g).alunos + [EntradaDe(l)])
  {
    assert Entradas(g.items + [l]) == Entradas(g.items) + [EntradaDe(l)];
  }

  /** Finding a bucket by key finds the group of that key. */
  lemma FindBucket(gs: seq<Grouping.Group<string, Linha>>, k: string)
    requires AllNonEmpty(gs)
    ensures FindGrupo(BucketsOf(gs), k) == Grouping.Find(gs, k)
    decreases |gs|
  {
    if |gs| > 0 && gs[0].key != k {
      assert BucketsOf(gs)[1..] == BucketsOf(gs[1..]);
      FindBucket(gs[1..], k);
    }
  }

  lemma BucketsOfPushed(gs: seq<Grouping.Group<string, Linha>>, i: nat, l: Linha)
    requires AllNonEmpty(gs) && i < |gs|
    ensures var r := gs[i := Grouping.Group(gs[i].key, gs[i].items + [l])];
            var bs := BucketsOf(gs);
            AllNonEmpty(r) && BucketsOf(r) == bs[i := bs[i].(alunos := bs[i].alunos + [EntradaDe(l)])]
  {
    BucketPush(gs[i], l);
  }

  lemma BucketsOfNew(gs: seq<Grouping.Group<string, Linha>>, l: Linha)
    requires AllNonEmpty(gs)
    ensures var r := gs + [Grouping.Group(GrupoDe(l), [l])];
            AllNonEmpty(r) && BucketsOf(r) == BucketsOf(gs) + [NovoGrupo(l)]
  {
    assert Entradas([l]) == [EntradaDe(l)];
    var r := gs + [Grouping.Group(GrupoDe(l), [l])];
    assert BucketsOf(r)[|gs|] == NovoGrupo(l);
  }

  /** Adding a row to the groups adds its entry to the buckets. */
  lemma BucketsOfAppend(gs: seq<Grouping.Group<string, Linha>>, l: Linha)
    requires AllNonEmpty(gs)
    ensures AllNonEmpty(Grouping.Append(gs, GrupoDe(l), l))
    ensures BucketsOf(Grouping.Append(gs, GrupoDe(l), l)) == AddLinha(BucketsOf(gs), l)
  {
    FindBucket(gs, GrupoDe(l));
    var i := Grouping.Find(gs, GrupoDe(l));
    if i < 0 {
      BucketsOfNew(gs, l);
    } else {
      BucketsOfPushed(gs, i, l);
    }
  }

  /** Grouping one more row is one more step of the `forEach`. */
  lemma AgrupadasSnoc(ls: seq<Linha>, l: Linha)
    ensures Agrupadas(ls + [l]) == AddLinha(Agrupadas(ls), l)
  {
    assert Chaves(ls + [l]) == Chaves(ls) + [(GrupoDe(l), l)];
    Grouping.GroupBySnoc(Chaves(ls), GrupoDe(l), l);
    GroupsNonEmpty(ls);
    BucketsOfAppend(Grouping.GroupBy(Chaves(ls)), l);
  }

  lemma AgrupadasPrefix(ls: seq<Linha>, i: nat)
    requires i < |ls|
    ensures Agrupadas(ls[..i + 1]) == AddLinha(Agrupadas(ls[..i]), ls[i])
  {
    assert ls[..i + 1] == ls[..i] + [ls[i]];
    AgrupadasSnoc(ls[..i], ls[i]);
  }

  /** The `forEach` over the rows, filling the buckets in order of first appearance. */
  method AgruparLinhas(linhas: seq<Linha>) returns (grupos: seq<AvaliacaoAgrupada>)
    ensures grupos == Agrupadas(linhas)
  {
    grupos := [];
    var i := 0;
    while i < |linhas|
      invariant 0 <= i <= |linhas|
      invariant grupos == Agrupadas(linhas[..i])
    {
      grupos := PushLinha(grupos, linhas[i]);
      AgrupadasPrefix(linhas, i);
      i := i + 1;
    }
    assert linhas[..i] == linhas;
  }

  /** The `forEach` callback for one row: the row's entry goes onto its bucket, opened first if missing. */
  method PushLinha(grupos: seq<AvaliacaoAgrupada>, avaliacao: Linha) returns (r: seq<AvaliacaoAgrupada>)
    ensures r == AddLinha(grupos, avaliacao)
  {
    var grupoId := GrupoDe(avaliacao);
    var j := FindGrupo(grupos, grupoId);
    if j < 0 {
      r := grupos + [NovoGrupo(avaliacao)];
    } else {
      var grupo := grupos[j];
      r := grupos[j := grupo.(alunos := grupo.alunos + [EntradaDe(avaliacao)])];
    }
  }

  /** Number of entries across buckets. */
  function TotalEntradas(bs: seq<AvaliacaoAgrupada>): nat {
    if |bs| == 0 then 0 else |bs[0].alunos| + TotalEntradas(bs[1..])
  }

  lemma {:induction false} TotalOfBuckets(gs: seq<Grouping.Group<string, Linha>>)
    requires AllNonEmpty(gs)
    ensures TotalEntradas(BucketsOf(gs)) == Grouping.TotalSize(gs)
    decreases |gs|
  {
    if |gs| > 0 {
      assert BucketsOf(gs)[1..] == BucketsOf(gs[1..]);
      TotalOfBuckets(gs[1..]);
    }
  }

  /** Every row lands in exactly one entry: the buckets hold as many entries as there are rows. */
  lemma EveryRowCounted(ls: seq<Linha>)
    ensures TotalEntradas(Agrupadas(ls)) == |ls|
  {
    GroupsNonEmpty(ls);
    TotalOfBuckets(Grouping.GroupBy(Chaves(ls)));
    Grouping.GroupBySize(Chaves(ls));
  }

  /**
   * The buckets have distinct keys, every row's key has a bucket, and each
   * bucket's entries are those of the rows with its key, in input order.
   */
  lemma AgrupadasByKey(ls: seq<Linha>)
    ensures var bs := Agrupadas(ls);
      && (forall i, j :: 0 <= i < j < |bs| ==> bs[i].id != bs[j].id)
      && (forall k :: 0 <= k < |ls| ==> exists i :: 0 <= i < |bs| && bs[i].id == GrupoDe(ls[k]))
      && (forall i :: 0 <= i < |bs| ==> bs[i].alunos == Entradas(Grouping.ItemsWith(Chaves(ls), bs[i].id)))
  {
    var gs := Grouping.GroupBy(Chaves(ls));
    GroupsNonEmpty(ls);
    Grouping.GroupByGroupsOf(Chaves(ls));
    var bs := Agrupadas(ls);
    forall k | 0 <= k < |ls| ensures exists i :: 0 <= i < |bs| && bs[i].id == GrupoDe(ls[k]) {
      assert Chaves(ls)[k].0 == GrupoDe(ls[k]);
      assert GrupoDe(ls[k]) in Grouping.Keys(gs);
      var i :| 0 <= i < |gs| && Grouping.Keys(gs)[i] == GrupoDe(ls[k]);
      assert bs[i].id == gs[i].key;
    }
  }

  /** Each row with a bucket's key has the bucket's class, subject and date. */
  lemma BucketHeader(ls: seq<Linha>, i: nat, k: nat)
    requires i < |Agrupadas(ls)| && k < |ls|
    requires GrupoDe(ls[k]) == Agrupadas(ls)[i].id
    ensures var b := Agrupadas(ls)[i];
      && b.turmaId == ls[k].turmaId && b.materiaId == ls[k].materiaId
      && b.dataAvaliacao == DataFormatada(ls[k])
  {
    var gs := Grouping.GroupBy(Chaves(ls));
    GroupsNonEmpty(ls);
    Grouping.GroupByGroupsOf(Chaves(ls));
    var g := gs[i];
    assert g.items == Grouping.ItemsWith(Chaves(ls), g.key);
    Grouping.ItemsWithFrom(Chaves(ls), g.key, 0);
    var n :| 0 <= n < |ls| && Chaves(ls)[n] == (g.key, g.items[0]);
    var first := g.items[0];
    assert GrupoDe(first) == g.key;
    GrupoIdInjective(first.turmaId, first.materiaId, DataFormatada(first),
                     ls[k].turmaId, ls[k].materiaId, DataFormatada(ls[k]));
  }

  /** A row without a date is filed under "sem-data". */
  lemma UndatedRowsUnderSemData(ls: seq<Linha>, i: nat, k: nat)
    requires i < |Agrupadas(ls)| && k < |ls|
    requires GrupoDe(ls[k]) == Agrupadas(ls)[i].id && ls[k].data == ""
    ensures Agrupadas(ls)[i].dataAvaliacao == SemData
    ensures Agrupadas(ls)[i].id == GrupoId(ls[k].turmaId, ls[k].materiaId, SemData)
  {
    BucketHeader(ls, i, k);
  }

  // ---------------------------------------------------------------------
  // Ordering the buckets

  /** `x.localeCompare(y)`, as code-unit order: negative, zero or positive. */
  function LocaleCompare(x: string, y: string): (c: int)
    ensures c == 0 <==> x == y
    ensures c < 0 <==> Less(x, y)
  {
    LessTotal(x, y);
    LessIrreflexive(x);
    if x == y then 0 else if Less(x, y) then -1 else 1
  }

  /** The comparator of the sort: later date first, then smaller class id, then smaller subject id. */
  function Compara(a: AvaliacaoAgrupada, b: AvaliacaoAgrupada): int {
    if a.dataAvaliacao == b.dataAvaliacao then
      if a.turmaId == b.turmaId then a.materiaId - b.materiaId else a.turmaId - b.turmaId
    else LocaleCompare(b.dataAvaliacao, a.dataAvaliacao)
  }

  /** Class, subject and date: what the comparator looks at. */
  function Cabecalho(b: AvaliacaoAgrupada): (nat, nat, string) {
    (b.turmaId, b.materiaId, b.dataAvaliacao)
  }

  /** The comparator is antisymmetric, and it calls two buckets even only when they share class, subject and date. */
  lemma ComparaAntisymmetric(a: AvaliacaoAgrupada, b: AvaliacaoAgrupada)
    ensures Compara(a, b) < 0 <==> Compara(b, a) > 0
    ensures Compara(a, b) == 0 <==> Cabecalho(a) == Cabecalho(b)
  {
    LessTotal(a.dataAvaliacao, b.dataAvaliacao);
  }

  /** The comparator is transitive, so the sort it drives is well defined. */
  lemma ComparaTransitive(a: AvaliacaoAgrupada, b: AvaliacaoAgrupada, c: AvaliacaoAgrupada)
    requires Compara(a, b) <= 0 && Compara(b, c) <= 0
    ensures Compara(a, c) <= 0
  {
    var da, db, dc := a.dataAvaliacao, b.dataAvaliacao, c.dataAvaliacao;
    if da != db && db != dc && da != dc {
      LessTransitive(dc, db, da);
    }
    if da != db && db != dc && da == dc {
      LessTotal(db, da);
    }
  }

  /** In order under the comparator: each bucket is not after the next one. */
  predicate Ordenados(bs: seq<AvaliacaoAgrupada>) {
    forall i :: 0 < i < |bs| ==> Compara(bs[i - 1], bs[i]) <= 0
  }

  function InsereOrdenado(b: AvaliacaoAgrupada, bs: seq<AvaliacaoAgrupada>): (r: seq<AvaliacaoAgrupada>)
    requires Ordenados(bs)
    ensures Ordenados(r)
    ensures |r| == |bs| + 1
    ensures multiset(r) == multiset(bs) + multiset{b}
    ensures r[0] == b || (|bs| > 0 && r[0] == bs[0])
    decreases |bs|
  {
    if |bs| == 0 then [b]
    else if Compara(b, bs[0]) <= 0 then
      ConsOrdenados(b, bs);
      [b] + bs
    else
      var rest := InsereOrdenado(b, bs[1..]);
      assert bs == [bs[0]] + bs[1..];
      ComparaAntisymmetric(b, bs[0]);
      ConsOrdenados(bs[0], rest);
      [bs[0]] + rest
  }

  lemma ConsOrdenados(x: AvaliacaoAgrupada, bs: seq<AvaliacaoAgrupada>)
    requires Ordenados(bs)
    requires |bs| > 0 ==> Compara(x, bs[0]) <= 0
    ensures Ordenados([x] + bs)
  {
    var r := [x] + bs;
    forall i | 0 < i < |r| ensures Compara(r[i - 1], r[i]) <= 0 {
      if i > 1 {
        assert r[i - 1] == bs[i - 2] && r[i] == bs[i - 1];
      }
    }
  }

  /** In order, step by step, means every earlier bucket is not after any later one. */
  lemma {:induction false} OrdenadosPairwise(bs: seq<AvaliacaoAgrupada>, i: nat, j: nat)
    requires Ordenados(bs) && i < j < |bs|
    ensures Compara(bs[i], bs[j]) <= 0
    decreases j - i
  {
    if i + 1 < j {
      OrdenadosPairwise(bs, i + 1, j);
      ComparaTransitive(bs[i], bs[i + 1], bs[j]);
    }
  }

  /** The `sort` call, as an insertion sort under the same comparator. */
  function Ordena(bs: seq<AvaliacaoAgrupada>): (r: seq<AvaliacaoAgrupada>)
    ensures |r| == |bs|
    ensures multiset(r) == multiset(bs)
    ensures Ordenados(r)
  {
    if |bs| == 0 then []
    else
      assert bs == [bs[0]] + bs[1..];
      InsereOrdenado(bs[0], Ordena(bs[1..]))
  }

  /** No two buckets share class, subject and date. */
  predicate CabecalhosUnicos(bs: seq<AvaliacaoAgrupada>) {
    forall i, j :: 0 <= i < j < |bs| ==> Cabecalho(bs[i]) != Cabecalho(bs[j])
  }

  lemma {:induction false} InsereUnicos(b: AvaliacaoAgrupada, bs: seq<AvaliacaoAgrupada>)
    requires Ordenados(bs) && CabecalhosUnicos(bs)
    requires forall k :: 0 <= k < |bs| ==> Cabecalho(bs[k]) != Cabecalho(b)
    ensures CabecalhosUnicos(InsereOrdenado(b, bs))
    decreases |bs|
  {
    if |bs| > 0 && Compara(b, bs[0]) > 0 {
      var rest := InsereOrdenado(b, bs[1..]);
      InsereUnicos(b, bs[1..]);
      forall j | 0 <= j < |rest| ensures Cabecalho(rest[j]) != Cabecalho(bs[0]) {
        assert rest[j] in multiset(bs[1..]) + multiset{b};
        if rest[j] != b {
          var k :| 0 <= k < |bs[1..]| && bs[1..][k] == rest[j];
          assert bs[k + 1] == rest[j];
        }
      }
      ConsUnicos(bs[0], rest);
    }
  }

  lemma ConsUnicos(x: AvaliacaoAgrupada, bs: seq<AvaliacaoAgrupada>)
    requires CabecalhosUnicos(bs)
    requires forall k :: 0 <= k < |bs| ==> Cabecalho(bs[k]) != Cabecalho(x)
    ensures CabecalhosUnicos([x] + bs)
  {
    var r := [x] + bs;
    forall i, j | 0 <= i < j < |r| ensures Cabecalho(r[i]) != Cabecalho(r[j]) {
      assert r[j] == bs[j - 1];
      if i > 0 {
        assert r[i] == bs[i - 1];
      }
    }
  }

  lemma {:induction false} OrdenaUnicos(bs: seq<AvaliacaoAgrupada>)
    requires CabecalhosUnicos(bs)
    ensures CabecalhosUnicos(Ordena(bs))
    decreases |bs|
  {
    if |bs| > 0 {
      var rest := Ordena(bs[1..]);
      OrdenaUnicos(bs[1..]);
      forall k | 0 <= k < |rest| ensures Cabecalho(rest[k]) != Cabecalho(bs[0]) {
        assert rest[k] in multiset(bs[1..]);
        var m :| 0 <= m < |bs[1..]| && bs[1..][m] == rest[k];
        assert bs[m + 1] == rest[k];
      }
      InsereUnicos(bs[0], rest);
    }
  }

  /** In sorted buckets with distinct headers, the first comes strictly before every other. */
  lemma PrimeiroAntes(r: seq<AvaliacaoAgrupada>, k: nat)
    requires Ordenados(r) && CabecalhosUnicos(r) && 0 < k < |r|
    ensures Compara(r[0], r[k]) < 0
  {
    OrdenadosPairwise(r, 0, k);
    ComparaAntisymmetric(r[0], r[k]);
  }

  lemma OrdenadosTail(r: seq<AvaliacaoAgrupada>)
    requires |r| > 0 && Ordenados(r)
    ensures Ordenados(r[1..])
  {
    forall i | 0 < i < |r[1..]| ensures Compara(r[1..][i - 1], r[1..][i]) <= 0 {
      assert r[1..][i - 1] == r[i] && r[1..][i] == r[i + 1];
    }
  }

  lemma UnicosTail(r: seq<AvaliacaoAgrupada>)
    requires |r| > 0 && CabecalhosUnicos(r)
    ensures CabecalhosUnicos(r[1..])
  {
    forall i, j | 0 <= i < j < |r[1..]| ensures Cabecalho(r[1..][i]) != Cabecalho(r[1..][j]) {
      assert r[1..][i] == r[i + 1] && r[1..][j] == r[j + 1];
    }
  }

  /** Two orderings of the same buckets, one of them with distinct headers, start with the same bucket. */
  lemma MesmoPrimeiro(r: seq<AvaliacaoAgrupada>, s: seq<AvaliacaoAgrupada>)
    requires Ordenados(r) && Ordenados(s) && CabecalhosUnicos(r)
    requires multiset(r) == multiset(s) && |r| > 0
    ensures |s| > 0 && r[0] == s[0]
  {
    assert |r| == |multiset(r)| == |s|;
    assert s[0] in multiset(r) && r[0] in multiset(s);
    var k :| 0 <= k < |r| && r[k] == s[0];
    var m :| 0 <= m < |s| && s[m] == r[0];
    if k > 0 {
      PrimeiroAntes(r, k);
      ComparaAntisymmetric(r[0], s[0]);
      if m > 0 {
        OrdenadosPairwise(s, 0, m);
      }
    }
  }

  /**
   * Sorted buckets with distinct headers are determined by their contents:
   * any other ordering of the same buckets under the comparator is the same
   * sequence, so the outcome does not depend on how the sort breaks ties.
   */
  lemma {:induction false} OrdemUnica(r: seq<AvaliacaoAgrupada>, s: seq<AvaliacaoAgrupada>)
    requires Ordenados(r) && Ordenados(s) && CabecalhosUnicos(r)
    requires multiset(r) == multiset(s)
    ensures r == s
    decreases |r|
  {
    assert |r| == |multiset(r)| == |s|;
    if |r| > 0 {
      MesmoPrimeiro(r, s);
      OrdenadosTail(r);
      OrdenadosTail(s);
      UnicosTail(r);
      assert r == [r[0]] + r[1..] && s == [s[0]] + s[1..];
      assert multiset(r) == multiset{r[0]} + multiset(r[1..]);
      assert multiset(s) == multiset{s[0]} + multiset(s[1..]);
      assert multiset(r[1..]) == multiset(r) - multiset{r[0]};
      assert multiset(s[1..]) == multiset(s) - multiset{s[0]};
      OrdemUnica(r[1..], s[1..]);
    }
  }

  /** A bucket's key is the key of its own class, subject and date. */
  lemma BucketIdIsHeader(ls: seq<Linha>, i: nat)
    requires i < |Agrupadas(ls)|
    ensures var b := Agrupadas(ls)[i]; b.id == GrupoId(b.turmaId, b.materiaId, b.dataAvaliacao)
  {
    var gs := Grouping.GroupBy(Chaves(ls));
    GroupsNonEmpty(ls);
    Grouping.GroupByGroupsOf(Chaves(ls));
    assert gs[i].items == Grouping.ItemsWith(Chaves(ls), gs[i].key);
    Grouping.ItemsWithFrom(Chaves(ls), gs[i].key, 0);
    var n :| 0 <= n < |ls| && Chaves(ls)[n] == (gs[i].key, gs[i].items[0]);
  }

  /** The buckets of some rows have distinct headers, so the sort meets no ties. */
  lemma AgrupadasUnicas(ls: seq<Linha>)
    ensures CabecalhosUnicos(Agrupadas(ls))
  {
    var bs := Agrupadas(ls);
    AgrupadasByKey(ls);
    forall i, j | 0 <= i < j < |bs| ensures Cabecalho(bs[i]) != Cabecalho(bs[j]) {
      BucketIdIsHeader(ls, i);
      BucketIdIsHeader(ls, j);
    }
  }

  /** Bucket `a` is shown before bucket `b`: a later date, or the same date and a smaller (class, subject). */
  predicate EmOrdem(a: AvaliacaoAgrupada, b: AvaliacaoAgrupada) {
    if a.dataAvaliacao == b.dataAvaliacao then
      a.turmaId < b.turmaId || (a.turmaId == b.turmaId && a.materiaId < b.materiaId)
    else Less(b.dataAvaliacao, a.dataAvaliacao)
  }

  lemma ComparaNegative(a: AvaliacaoAgrupada, b: AvaliacaoAgrupada)
    ensures Compara(a, b) < 0 <==> EmOrdem(a, b)
  {
  }

  /**
   * `avaliacoesAgrupadas`: group the rows, then sort the buckets. The result
   * holds exactly the buckets of the rows, every row's key among them, in
   * strictly decreasing date and then increasing class and subject.
   */
  method AvaliacoesAgrupadas(linhas: seq<Linha>) returns (grupos: seq<AvaliacaoAgrupada>)
    ensures grupos == Ordena(Agrupadas(linhas))
    ensures multiset(grupos) == multiset(Agrupadas(linhas))
    ensures forall i, j :: 0 <= i < j < |grupos| ==> EmOrdem(grupos[i], grupos[j])
    ensures forall k :: 0 <= k < |linhas| ==> exists i :: 0 <= i < |grupos| && grupos[i].id == GrupoDe(linhas[k])
  {
    var buckets := AgruparLinhas(linhas);
    grupos := Ordena(buckets);
    AgrupadasUnicas(linhas);
    OrdenaUnicos(buckets);
    forall i, j | 0 <= i < j < |grupos| ensures EmOrdem(grupos[i], grupos[j]) {
      OrdenadosPairwise(grupos, i, j);
      ComparaAntisymmetric(grupos[i], grupos[j]);
      ComparaNegative(grupos[i], grupos[j]);
    }
    AgrupadasByKey(linhas);
    forall k | 0 <= k < |linhas| ensures exists i :: 0 <= i < |grupos| && grupos[i].id == GrupoDe(linhas[k]) {
      var n :| 0 <= n < |buckets| && buckets[n].id == GrupoDe(linhas[k]);
      assert buckets[n] in multiset(grupos);
    }
  }

  // ---------------------------------------------------------------------
  // `calcStats` and `getVariant`

  /** The grades of a bucket's entries. */
  function NotasDe(g: AvaliacaoAgrupada): (ns: seq<real>)
    ensures |ns| == |g.alunos|
    ensures forall k :: 0 <= k < |ns| ==> ns[k] == g.alunos[k].nota
  {
    seq(|g.alunos|, k requires 0 <= k < |g.alunos| => g.alunos[k].nota)
  }

  predicate Aprovado(n: real) { n >= NotaAprovacao }
  predicate Reprovado(n: real) { n < NotaReprovacao }
  predicate EmRecuperacao(n: real) { NotaReprovacao <= n < NotaAprovacao }

  /** `xs.filter(p).length`. */
  function Conta(xs: seq<real>, p: real -> bool): (c: nat)
    ensures c <= |xs|
  {
    if |xs| == 0 then 0 else (if p(xs[0]) then 1 else 0) + Conta(xs[1..], p)
  }

  /** Every grade is in exactly one of the three bands. */
  lemma {:induction false} BandsPartition(xs: seq<real>)
    ensures Conta(xs, Aprovado) + Conta(xs, EmRecuperacao) + Conta(xs, Reprovado) == |xs|
  {
    if |xs| > 0 {
      BandsPartition(xs[1..]);
    }
  }

  /** What `calcStats` returns for a bucket. */
  datatype Estatisticas = Estatisticas(total: nat, media: real, aprovados: nat, emRecuperacao: int, reprovados: nat)

  /**
   * `calcStats`: all zeros for an empty bucket; otherwise the count, the
   * mean grade, the passes (`>= 70`), the fails (`< 50`) and, as what is
   * left, the students in recovery.
   */
  function CalcStats(g: AvaliacaoAgrupada): (e: Estatisticas)
    ensures e.total == |g.alunos|
    ensures e.total == 0 ==> e == Estatisticas(0, 0.0, 0, 0, 0)
    ensures e.total > 0 ==> MinOf(NotasDe(g)) <= e.media <= MaxOf(NotasDe(g))
    ensures e.emRecuperacao == Conta(NotasDe(g), EmRecuperacao) && e.emRecuperacao >= 0
    ensures e.aprovados + e.emRecuperacao + e.reprovados == e.total
  {
    var notas := NotasDe(g);
    var total := |notas|;
    BandsPartition(notas);
    if total == 0 then Estatisticas(total, 0.0, 0, 0, 0)
    else
      MeanBetweenMinAndMax(notas);
      var aprovados := Conta(notas, Aprovado);
      var reprovados := Conta(notas, Reprovado);
      Estatisticas(total, Mean(notas), aprovados, total - aprovados - reprovados, reprovados)
  }

  /** The badge colour of a grade. */
  datatype Variante = Destructive | Secondary | Default

  /** `getVariant`: red below 50, grey below 70, the default colour from 70 on. */
  function GetVariant(n: real): (v: Variante)
    ensures v == Destructive <==> Reprovado(n)
    ensures v == Secondary <==> EmRecuperacao(n)
    ensures v == Default <==> Aprovado(n)
  {
    if n < NotaReprovacao then Destructive
    else if n < NotaAprovacao then Secondary
    else Default
  }

  /** How many of the grades get badge `v`. */
  function ContaVariante(xs: seq<real>, v: Variante): (c: nat)
    ensures c <= |xs|
  {
    if |xs| == 0 then 0 else (if GetVariant(xs[0]) == v then 1 else 0) + ContaVariante(xs[1..], v)
  }

  /** The badges agree with the counts: red fails, grey recovery, default passes. */
  lemma {:induction false} VariantsMatchStats(g: AvaliacaoAgrupada)
    ensures ContaVariante(NotasDe(g), Destructive) == CalcStats(g).reprovados
    ensures ContaVariante(NotasDe(g), Secondary) == CalcStats(g).emRecuperacao
    ensures ContaVariante(NotasDe(g), Default) == CalcStats(g).aprovados
  {
    var xs := NotasDe(g);
    VariantCounts(xs);
  }

  lemma {:induction false} VariantCounts(xs: seq<real>)
    ensures ContaVariante(xs, Destructive) == Conta(xs, Reprovado)
    ensures ContaVariante(xs, Secondary) == Conta(xs, EmRecuperacao)
    ensures ContaVariante(xs, Default) == Conta(xs, Aprovado)
  {
    if |xs| > 0 {
      VariantCounts(xs[1..]);
    }
  }

  /** The width of a grade's bar: `Math.max(0, Math.min(100, nota))` percent. */
  function Largura(n: real): (w: real)
    ensures 0.0 <= w <= 100.0
    ensures 0.0 <= n <= 100.0 ==> w == n
    ensures n < 0.0 ==> w == 0.0
    ensures n > 100.0 ==> w == 100.0
  {
    var m := if n < 100.0 then n else 100.0;
    if m > 0.0 then m else 0.0
  }

  /** A higher grade never gets a shorter bar. */
  lemma LarguraMonotone(a: real, b: real)
    requires a <= b
    ensures Largura(a) <= Largura(b)
  {
  }

  // ---------------------------------------------------------------------
  // `makeCSV`

  const Cabecalhos: seq<string> := ["Aluno ID", "Aluno Nome", "Nota", "Turma ID", "Matéria ID", "Data"]

  /** Every `"` doubled: `replace(/"/g, '""')`. */
  function Dobra(s: string): string {
    ReplaceAll(s, "\"", "\"\"")
  }

  /** A text field: wrapped in quotes, with its inner quotes doubled. */
  function Aspas(s: string): (f: string)
    ensures |f| >= 2 && f[0] == '"' && f[|f| - 1] == '"'
  {
    "\"" + Dobra(s) + "\""
  }

  /** Reading a quoted field back: drop the outer quotes and undouble the inner ones. */
  function TiraAspas(f: string): string
    requires |f| >= 2
  {
    ReplaceAll(f[1..|f| - 1], "\"\"", "\"")
  }

  lemma {:induction false} DobraDesfeita(s: string)
    ensures ReplaceAll(Dobra(s), "\"\"", "\"") == s
    decreases |s|
  {
    if |s| > 0 {
      var t := s[1..];
      DobraDesfeita(t);
      if s[0] == '"' {
        assert s == "\"" + t;
        ReplaceAllAtFront("\"", t, "\"\"");
        ReplaceAllAtFront("\"\"", Dobra(t), "\"");
      } else {
        assert s == [s[0]] + t;
        ReplaceAllCopiesPrefix([s[0]], t, "\"", "\"\"");
        ReplaceAllCopiesPrefix([s[0]], Dobra(t), "\"\"", "\"");
      }
    }
  }

  /** The quoting round-trips: every name, quotes and commas included, reads back as itself. */
  lemma AspasRoundTrip(s: string)
    ensures TiraAspas(Aspas(s)) == s
  {
    var f := Aspas(s);
    assert f[1..|f| - 1] == Dobra(s);
    DobraDesfeita(s);
  }

  /** The six fields of a student's row; `showNota` is how the page prints a number. */
  function CamposDe(g: AvaliacaoAgrupada, a: AlunoAvaliacao, showNota: real -> string): (fs: seq<string>)
    ensures |fs| == |Cabecalhos|
    ensures fs[1] == Aspas(a.alunoNome.GetOr(""))
    ensures fs[5] == g.dataAvaliacao
  {
    [NatToString(a.alunoId), Aspas(a.alunoNome.GetOr("")), showNota(a.nota),
     NatToString(g.turmaId), NatToString(g.materiaId), g.dataAvaliacao]
  }

  /** The header line followed by one row per student, each as its fields. */
  function LinhasCsv(g: AvaliacaoAgrupada, showNota: real -> string): (rs: seq<seq<string>>)
    ensures |rs| == |g.alunos| + 1 && rs[0] == Cabecalhos
    ensures forall k :: 0 <= k < |g.alunos| ==> rs[k + 1] == CamposDe(g, g.alunos[k], showNota)
  {
    [Cabecalhos] + seq(|g.alunos|, k requires 0 <= k < |g.alunos| => CamposDe(g, g.alunos[k], showNota))
  }

  /** The lines of the CSV text, each its fields joined by commas. */
  function TextoDasLinhas(rs: seq<seq<string>>): (ls: seq<string>)
    ensures |ls| == |rs|
    ensures forall k :: 0 <= k < |rs| ==> ls[k] == Join(rs[k], ",")
  {
    seq(|rs|, k requires 0 <= k < |rs| => Join(rs[k], ","))
  }

  /** `makeCSV`: the lines joined by "\n". */
  function MakeCsv(g: AvaliacaoAgrupada, showNota: real -> string): string {
    Join(TextoDasLinhas(LinhasCsv(g, showNota)), "\n")
  }

  /** No field of the row holds character `c`. */
  predicate SemCaractere(fs: seq<string>, c: char) {
    forall k :: 0 <= k < |fs| ==> c !in fs[k]
  }

  /** The digits of a number hold no separator. */
  lemma NumeroSemSeparador(n: nat, c: char)
    requires !IsDigit(c)
    ensures c !in NatToString(n)
  {
    var d := NatToString(n);
    forall k | 0 <= k < |d| ensures d[k] != c {
      assert IsDigit(d[k]);
    }
  }

  /** A row's fields hold no `c` when the name, the printed grade and the date hold none. */
  lemma CamposSemCaractere(g: AvaliacaoAgrupada, a: AlunoAvaliacao, showNota: real -> string, c: char)
    requires !IsDigit(c) && c != '"'
    requires c !in a.alunoNome.GetOr("") && c !in showNota(a.nota) && c !in g.dataAvaliacao
    ensures SemCaractere(CamposDe(g, a, showNota), c)
  {
    NumeroSemSeparador(a.alunoId, c);
    NumeroSemSeparador(g.turmaId, c);
    NumeroSemSeparador(g.materiaId, c);
    ReplaceAllAvoids(a.alunoNome.GetOr(""), "\"", "\"\"", c);
  }

  /** The conditions under which every field of the export is free of `c`. */
  predicate ExportSemCaractere(g: AvaliacaoAgrupada, showNota: real -> string, c: char) {
    && c !in g.dataAvaliacao
    && forall k :: 0 <= k < |g.alunos| ==> c !in g.alunos[k].alunoNome.GetOr("") && c !in showNota(g.alunos[k].nota)
  }

  /**
   * When no name, printed grade or date holds a line break, splitting the
   * CSV at line breaks gives back the header line and one line per student,
   * in the bucket's order.
   */
  lemma CsvLines(g: AvaliacaoAgrupada, showNota: real -> string)
    requires ExportSemCaractere(g, showNota, '\n')
    ensures Split(MakeCsv(g, showNota), '\n') == TextoDasLinhas(LinhasCsv(g, showNota))
    ensures |Split(MakeCsv(g, showNota), '\n')| == |g.alunos| + 1
  {
    LinhasSemQuebra(g, showNota);
    SplitJoin(TextoDasLinhas(LinhasCsv(g, showNota)), '\n');
  }

  /** No line of the export holds a line break when no field does. */
  lemma LinhasSemQuebra(g: AvaliacaoAgrupada, showNota: real -> string)
    requires ExportSemCaractere(g, showNota, '\n')
    ensures forall k :: 0 <= k < |TextoDasLinhas(LinhasCsv(g, showNota))| ==> '\n' !in TextoDasLinhas(LinhasCsv(g, showNota))[k]
  {
    forall k | 0 <= k < |g.alunos| + 1 ensures '\n' !in TextoDasLinhas(LinhasCsv(g, showNota))[k] {
      LinhaSemQuebra(g, showNota, k);
    }
  }

  lemma LinhaSemQuebra(g: AvaliacaoAgrupada, showNota: real -> string, k: nat)
    requires ExportSemCaractere(g, showNota, '\n') && k <= |g.alunos|
    ensures '\n' !in TextoDasLinhas(LinhasCsv(g, showNota))[k]
  {
    var rs := LinhasCsv(g, showNota);
    if k == 0 {
      CabecalhosSemQuebra();
    } else {
      CamposSemCaractere(g, g.alunos[k - 1], showNota, '\n');
      assert rs[k] == CamposDe(g, g.alunos[k - 1], showNota);
    }
    JoinAvoids(rs[k], ",", '\n');
  }

  lemma CabecalhosSemQuebra()
    ensures SemCaractere(Cabecalhos, '\n')
  {
    forall k | 0 <= k < |Cabecalhos| ensures '\n' !in Cabecalhos[k] {
      var h := Cabecalhos[k];
      assert forall i :: 0 <= i < |h| ==> h[i] != '\n';
    }
  }

  /**
   * When no name, printed grade or date holds a comma, each student's line
   * splits at commas into exactly its six fields, and the name field reads
   * back as the student's name.
   */
  lemma CsvFields(g: AvaliacaoAgrupada, showNota: real -> string, k: nat)
    requires ExportSemCaractere(g, showNota, ',') && k < |g.alunos|
    ensures var fs := Split(TextoDasLinhas(LinhasCsv(g, showNota))[k + 1], ',');
      && fs == CamposDe(g, g.alunos[k], showNota)
      && |fs| == 6
      && TiraAspas(fs[1]) == g.alunos[k].alunoNome.GetOr("")
  {
    var fs := CamposDe(g, g.alunos[k], showNota);
    CamposSemCaractere(g, g.alunos[k], showNota, ',');
    SplitJoin(fs, ',');
    AspasRoundTrip(g.alunos[k].alunoNome.GetOr(""));
  }

  // ---------------------------------------------------------------------
  // `formatarData`

  /** JavaScript's text for a missing destructured part. */
  const Indefinido := "undefined"

  /** `formatarData`: "—" for no date, otherwise the dash-separated parts as `dia/mes/ano`. */
  function FormatarData(data: string): string {
    if data == "" || data == SemData then "—"
    else
      var partes := Split(data, '-');
      var ano := partes[0];
      var mes := if |partes| > 1 then partes[1] else Indefinido;
      var dia := if |partes| > 2 then partes[2] else Indefinido;
      dia + "/" + mes + "/" + ano
  }

  lemma FormatarSemData()
    ensures FormatarData("") == "—" && FormatarData(SemData) == "—"
  {
  }

  /** A "YYYY-MM-DD" date is shown as "DD/MM/YYYY". */
  lemma FormatarDataYMD(ano: string, mes: string, dia: string)
    requires '-' !in ano && '-' !in mes && '-' !in dia
    ensures FormatarData(ano + "-" + mes + "-" + dia) == dia + "/" + mes + "/" + ano
  {
    var data := ano + "-" + mes + "-" + dia;
    var partes := [ano, mes, dia];
    assert partes[1..] == [mes, dia] && partes[1..][1..] == [dia];
    assert Join([dia], "-") == dia;
    assert data == Join(partes, "-");
    SplitJoin(partes, '-');
    var i, j := |ano|, |ano| + 1 + |mes|;
    assert data[i] == '-' && data[j] == '-';
    var m := if i != 3 then i else j;
    assert forall k :: 0 <= k < |SemData| && k != 3 ==> SemData[k] != '-';
    assert m >= |SemData| || SemData[m] != data[m];
  }
}

/**
 * The evaluation records behind `store`, `update`, `destroy` and
 * `destroyBulk`, as an in-memory table: one record per student and
 * evaluation, with the grade, the class, the subject and the moment of the
 * evaluation, and ids handed out in increasing order.
 *
 * A request's fields arrive already parsed: a missing or unparsable field is
 * `None`, a moment is a count of seconds, and the classes with their
 * students and the subjects the `exists:` rules consult are a parameter.
 */
module AvaliacaoTabela {
  import opened Wrappers

  /** A row of the `avaliacoes` table. */
  datatype Registro = Registro(id: nat, alunoId: nat, turmaId: nat, materiaId: nat, nota: real, dataAvaliacao: int)

  /** The request fields a validation rule can reject. */
  datatype Campo = CampoTurma | CampoMateria | CampoData | CampoNota

  datatype Erro =
    | Invalido(campos: set<Campo>)   // the validation failed on these fields
    | TurmaSemAlunos                 // "Esta turma não possui alunos cadastrados."
    | NaoEncontrado                  // the route names no existing record
    | InsercaoRecusada               // the database refuses a record without its required `periodo_id`

  /** What the `exists:` rules and `Turma::with('alunos')` look up: each class's students, and the subjects. */
  datatype Escola = Escola(alunosDaTurma: map<nat, seq<nat>>, materias: set<nat>)

  /** The records and the next id the table will hand out. */
  datatype Tabela = Tabela(registros: seq<Registro>, proximoId: nat)

  /** The outcome of a request and the table after it. */
  datatype Saida = Saida(resultado: Result<(), Erro>, tabela: Tabela)

  const NotaMinima: real := 0.0
  const NotaMaxima: real := 100.0
  const SegundosPorDia: int := 86400

  /** The calendar day of a moment, as `whereDate` compares it (in one fixed time zone). */
  function Dia(ts: int): int {
    ts / SegundosPorDia
  }

  /** Every moment of a day falls on that day, whatever its time. */
  lemma DiaIgnoraHora(dia: int, segundos: int)
    requires 0 <= segundos < SegundosPorDia
    ensures Dia(dia * SegundosPorDia + segundos) == dia
  {
  }

  /** No two records share an id. */
  predicate IdsDistintos(rs: seq<Registro>) {
    forall i, j :: 0 <= i < j < |rs| ==> rs[i].id != rs[j].id
  }

  /** The table's invariant: ids are distinct and below the next id, grades are on the 0–100 scale. */
  predicate Valida(t: Tabela) {
    && IdsDistintos(t.registros)
    && (forall i :: 0 <= i < |t.registros| ==> t.registros[i].id < t.proximoId)
    && (forall i :: 0 <= i < |t.registros| ==> NotaMinima <= t.registros[i].nota <= NotaMaxima)
  }

  /**
   * The fields the rules `required|exists:turmas,id`,
   * `required|exists:materias,id` and `required|date` reject; every failing
   * field is reported, not just the first.
   */
  function CamposInvalidos(turma: Option<nat>, materia: Option<nat>, data: Option<int>, escola: Escola): (cs: set<Campo>)
    ensures CampoTurma in cs <==> !(turma.Some? && turma.value in escola.alunosDaTurma)
    ensures CampoMateria in cs <==> !(materia.Some? && materia.value in escola.materias)
    ensures CampoData in cs <==> data.None?
    ensures CampoNota !in cs
    ensures cs == {} ==> turma.Some? && turma.value in escola.alunosDaTurma && materia.Some? && data.Some?
  {
    (if turma.Some? && turma.value in escola.alunosDaTurma then {} else {CampoTurma})
    + (if materia.Some? && materia.value in escola.materias then {} else {CampoMateria})
    + (if data.Some? then {} else {CampoData})
  }

  /** `required|numeric|min:0|max:100`. */
  predicate NotaAceita(nota: Option<real>) {
    nota.Some? && NotaMinima <= nota.value <= NotaMaxima
  }

  /** The `nota` column is `decimal(4, 2)`: the largest grade it stores is 99.99. */
  const MaiorNotaDaColuna: real := 99.99

  /** The rule `max:100` lets through a grade of 100, above what the column stores. */
  lemma NotaMaximaForaDaColuna()
    ensures NotaAceita(Some(NotaMaxima)) && NotaMaxima > MaiorNotaDaColuna
  {
  }

  /** The records `store` creates: one per student, in order, with grade 0 and consecutive ids. */
  function NovosRegistros(alunos: seq<nat>, turma: nat, materia: nat, data: int, primeiroId: nat): (rs: seq<Registro>)
    ensures |rs| == |alunos|
    ensures forall k :: 0 <= k < |alunos| ==> rs[k] == Registro(primeiroId + k, alunos[k], turma, materia, 0.0, data)
  {
    seq(|alunos|, k requires 0 <= k < |alunos| => Registro(primeiroId + k, alunos[k], turma, materia, 0.0, data))
  }

  /** The position of the record with id `id`, or -1: the route-model binding. */
  function Encontra(rs: seq<Registro>, id: nat): (r: int)
    ensures -1 <= r < |rs|
    ensures r >= 0 ==> rs[r].id == id
    ensures r < 0 ==> forall j :: 0 <= j < |rs| ==> rs[j].id != id
    decreases |rs|
  {
    if |rs| == 0 then -1
    else if rs[0].id == id then 0
    else
      var r := Encontra(rs[1..], id);
      if r < 0 then -1 else r + 1
  }

  /** A record `destroyBulk` deletes: the class, the subject, and the day of the moment given. */
  predicate DoGrupo(r: Registro, turma: nat, materia: nat, data: int) {
    r.turmaId == turma && r.materiaId == materia && Dia(r.dataAvaliacao) == Dia(data)
  }

  /** The records that do not match, in their order. */
  function Mantidos(rs: seq<Registro>, turma: nat, materia: nat, data: int): (ms: seq<Registro>)
    ensures |ms| <= |rs|
    ensures forall x :: x in ms <==> x in rs && !DoGrupo(x, turma, materia, data)
  {
    if |rs| == 0 then []
    else
      var rest := Mantidos(rs[1..], turma, materia, data);
      assert forall x :: x in rs <==> x == rs[0] || x in rs[1..];
      if DoGrupo(rs[0], turma, materia, data) then rest else [rs[0]] + rest
  }

  // ---------------------------------------------------------------------
  // The four requests, on table values

  /** `store`: validate, refuse a class without students, then add one zero-grade record per student. */
  function Armazena(t: Tabela, turma: Option<nat>, materia: Option<nat>, data: Option<int>, escola: Escola): Saida {
    var campos := CamposInvalidos(turma, materia, data, escola);
    if campos != {} then Saida(Err(Invalido(campos)), t)
    else
      var alunos := escola.alunosDaTurma[turma.value];
      if |alunos| == 0 then Saida(Err(TurmaSemAlunos), t)
      else
        var novos := NovosRegistros(alunos, turma.value, materia.value, data.value, t.proximoId);
        Saida(Ok(()), Tabela(t.registros + novos, t.proximoId + |alunos|))
  }

  /**
   * `store` as written. The migration declares `periodo_id` as a required
   * foreign key, and `Avaliacao::create` never sets it. So on a class with
   * students the first insert is refused, the transaction rolls back, and
   * nothing is stored. Only the requests refused before inserting behave as
   * `Armazena` does.
   */
  function ArmazenaAsWritten(t: Tabela, turma: Option<nat>, materia: Option<nat>, data: Option<int>, escola: Escola): Saida {
    var s := Armazena(t, turma, materia, data, escola);
    if s.resultado.Ok? then Saida(Err(InsercaoRecusada), t) else s
  }

  /** `update`: a missing record first, then the grade's validation, then the new grade. */
  function Atualiza(t: Tabela, id: nat, nota: Option<real>): Saida {
    var i := Encontra(t.registros, id);
    if i < 0 then Saida(Err(NaoEncontrado), t)
    else if !NotaAceita(nota) then Saida(Err(Invalido({CampoNota})), t)
    else Saida(Ok(()), t.(registros := t.registros[i := t.registros[i].(nota := nota.value)]))
  }

  /** `destroy`: a missing record, or the table without it. */
  function Remove(t: Tabela, id: nat): Saida {
    var i := Encontra(t.registros, id);
    if i < 0 then Saida(Err(NaoEncontrado), t)
    else Saida(Ok(()), t.(registros := t.registros[..i] + t.registros[i + 1..]))
  }

  /** `destroyBulk`: validate, then delete every record of that class, subject and day. */
  function RemoveGrupo(t: Tabela, turma: Option<nat>, materia: Option<nat>, data: Option<int>, escola: Escola): Saida {
    var campos := CamposInvalidos(turma, materia, data, escola);
    if campos != {} then Saida(Err(Invalido(campos)), t)
    else Saida(Ok(()), t.(registros := Mantidos(t.registros, turma.value, materia.value, data.value)))
  }

  // ---------------------------------------------------------------------
  // What the requests guarantee

  /** A request that fails leaves the table as it was. */
  lemma FalhaNaoMuda(t: Tabela, turma: Option<nat>, materia: Option<nat>, data: Option<int>, escola: Escola, id: nat, nota: Option<real>)
    ensures Armazena(t, turma, materia, data, escola).resultado.Err? ==> Armazena(t, turma, materia, data, escola).tabela == t
    ensures Atualiza(t, id, nota).resultado.Err? ==> Atualiza(t, id, nota).tabela == t
    ensures Remove(t, id).resultado.Err? ==> Remove(t, id).tabela == t
    ensures RemoveGrupo(t, turma, materia, data, escola).resultado.Err? ==> RemoveGrupo(t, turma, materia, data, escola).tabela == t
  {
  }

  /**
   * `store` on a valid request for a class without students reports it and
   * adds nothing; for a class with students it adds exactly one record per
   * student, in the class's order, each with grade 0 and the requested
   * class, subject and moment, and keeps every earlier record.
   */
  lemma ArmazenaUmPorAluno(t: Tabela, turma: nat, materia: nat, data: int, escola: Escola)
    requires turma in escola.alunosDaTurma && materia in escola.materias
    ensures var s := Armazena(t, Some(turma), Some(materia), Some(data), escola);
            var alunos := escola.alunosDaTurma[turma];
      && (|alunos| == 0 ==> s == Saida(Err(TurmaSemAlunos), t))
      && (|alunos| > 0 ==>
            && s.resultado == Ok(())
            && |s.tabela.registros| == |t.registros| + |alunos|
            && s.tabela.registros[..|t.registros|] == t.registros
            && forall k :: 0 <= k < |alunos| ==>
                 var r := s.tabela.registros[|t.registros| + k];
                 r.alunoId == alunos[k] && r.nota == 0.0 && r.turmaId == turma
                 && r.materiaId == materia && r.dataAvaliacao == data)
  {
    var alunos := escola.alunosDaTurma[turma];
    if |alunos| > 0 {
      var novos := NovosRegistros(alunos, turma, materia, data, t.proximoId);
      assert (t.registros + novos)[..|t.registros|] == t.registros;
    }
  }

  /**
   * `store` as written never stores anything: every request fails and
   * leaves the table as it was, and the refused insert is exactly the case
   * in which the intended `store` succeeds.
   */
  lemma AsWrittenNeverStores(t: Tabela, turma: Option<nat>, materia: Option<nat>, data: Option<int>, escola: Escola)
    ensures ArmazenaAsWritten(t, turma, materia, data, escola).resultado.Err?
    ensures ArmazenaAsWritten(t, turma, materia, data, escola).tabela == t
    ensures ArmazenaAsWritten(t, turma, materia, data, escola).resultado == Err(InsercaoRecusada) <==>
              Armazena(t, turma, materia, data, escola).resultado.Ok?
  {
  }

  /**
   * A class 1 with one student 7, a subject 2, an empty table: the request
   * is valid; as written it is refused, while the intended `store` adds the
   * student's record.
   */
  lemma AsWrittenCounterexample()
    ensures var escola := Escola(map[1 := [7]], {2});
            && ArmazenaAsWritten(Tabela([], 1), Some(1), Some(2), Some(0), escola) == Saida(Err(InsercaoRecusada), Tabela([], 1))
            && Armazena(Tabela([], 1), Some(1), Some(2), Some(0), escola).resultado == Ok(())
            && |Armazena(Tabela([], 1), Some(1), Some(2), Some(0), escola).tabela.registros| == 1
  {
    var escola := Escola(map[1 := [7]], {2});
    ArmazenaUmPorAluno(Tabela([], 1), 1, 2, 0, escola);
  }

  /** `store` keeps the invariant: the new ids are fresh and distinct, and 0 is on the scale. */
  lemma ArmazenaValida(t: Tabela, turma: Option<nat>, materia: Option<nat>, data: Option<int>, escola: Escola)
    requires Valida(t)
    ensures Valida(Armazena(t, turma, materia, data, escola).tabela)
  {
    var s := Armazena(t, turma, materia, data, escola);
    if s.resultado.Ok? {
      var rs := s.tabela.registros;
      var n := |t.registros|;
      forall i, j | 0 <= i < j < |rs| ensures rs[i].id != rs[j].id {
        if j >= n {
          assert rs[j].id == t.proximoId + (j - n);
          if i < n {
            assert rs[i] == t.registros[i];
          }
        }
      }
    }
  }

  /**
   * `update` on an existing record with an accepted grade changes that
   * record's grade and nothing else; a grade off the 0–100 scale or missing
   * is refused.
   */
  lemma AtualizaSoANota(t: Tabela, id: nat, nota: Option<real>)
    ensures var s := Atualiza(t, id, nota);
            var i := Encontra(t.registros, id);
      && (i < 0 ==> s.resultado == Err(NaoEncontrado))
      && (i >= 0 && !NotaAceita(nota) ==> s.resultado == Err(Invalido({CampoNota})))
      && (s.resultado.Ok? <==> i >= 0 && NotaAceita(nota))
      && |s.tabela.registros| == |t.registros| && s.tabela.proximoId == t.proximoId
      && (forall k :: 0 <= k < |t.registros| && k != i ==> s.tabela.registros[k] == t.registros[k])
      && (s.resultado.Ok? ==> s.tabela.registros[i] == t.registros[i].(nota := nota.value))
  {
  }

  lemma AtualizaValida(t: Tabela, id: nat, nota: Option<real>)
    requires Valida(t)
    ensures Valida(Atualiza(t, id, nota).tabela)
  {
    var s := Atualiza(t, id, nota);
    var i := Encontra(t.registros, id);
    if s.resultado.Ok? {
      var rs := s.tabela.registros;
      assert forall k :: 0 <= k < |rs| ==> rs[k].id == t.registros[k].id;
    }
  }

  /** `destroy` of an existing record removes exactly that record and keeps the others in order. */
  lemma RemoveExato(t: Tabela, id: nat)
    requires Valida(t)
    ensures var s := Remove(t, id);
      && (s.resultado.Ok? <==> exists k :: 0 <= k < |t.registros| && t.registros[k].id == id)
      && (s.resultado.Ok? ==> |s.tabela.registros| == |t.registros| - 1)
      && (forall x :: x in s.tabela.registros <==> x in t.registros && (s.resultado.Err? || x.id != id))
  {
    var rs := t.registros;
    var i := Encontra(rs, id);
    if i >= 0 {
      ApagaIndice(rs, i);
      ApagaMembros(rs, i, rs[..i] + rs[i + 1..]);
    }
  }

  /** Deleting the record at `i` from records with distinct ids keeps exactly the records with another id. */
  lemma ApagaMembros(rs: seq<Registro>, i: nat, ms: seq<Registro>)
    requires i < |rs| && IdsDistintos(rs)
    requires |ms| == |rs| - 1
    requires forall k :: 0 <= k < i ==> ms[k] == rs[k]
    requires forall k :: i <= k < |ms| ==> ms[k] == rs[k + 1]
    ensures forall x :: x in ms <==> x in rs && x.id != rs[i].id
  {
    forall x | x in rs && x.id != rs[i].id ensures x in ms {
      var k :| 0 <= k < |rs| && rs[k] == x;
      if k < i { assert ms[k] == x; } else { assert ms[k - 1] == x; }
    }
    forall x | x in ms ensures x in rs && x.id != rs[i].id {
      var k :| 0 <= k < |ms| && ms[k] == x;
      var origem := if k < i then k else k + 1;
      assert ms[k] == rs[origem];
      IdsDiferentes(rs, origem, i);
    }
  }

  /** Records at different positions have different ids. */
  lemma IdsDiferentes(rs: seq<Registro>, a: nat, b: nat)
    requires IdsDistintos(rs) && a < |rs| && b < |rs| && a != b
    ensures rs[a].id != rs[b].id
  {
    if a > b {
      assert rs[b].id != rs[a].id;
    }
  }

  lemma ApagaIndice(rs: seq<Registro>, i: nat)
    requires i < |rs|
    ensures var ms := rs[..i] + rs[i + 1..];
      |ms| == |rs| - 1 && forall k :: 0 <= k < |ms| ==> ms[k] == (if k < i then rs[k] else rs[k + 1])
  {
  }

  lemma RemoveValida(t: Tabela, id: nat)
    requires Valida(t)
    ensures Valida(Remove(t, id).tabela)
  {
    var rs := t.registros;
    var i := Encontra(rs, id);
    if i >= 0 {
      ApagaIndice(rs, i);
    }
  }

  /**
   * `destroyBulk` on a valid request deletes exactly the records of that
   * class, subject and day, whatever their time, and keeps every other one.
   */
  lemma RemoveGrupoExato(t: Tabela, turma: nat, materia: nat, data: int, escola: Escola)
    requires turma in escola.alunosDaTurma && materia in escola.materias
    ensures var s := RemoveGrupo(t, Some(turma), Some(materia), Some(data), escola);
      && s.resultado == Ok(())
      && s.tabela.proximoId == t.proximoId
      && forall x :: x in s.tabela.registros <==>
           x in t.registros && !(x.turmaId == turma && x.materiaId == materia && Dia(x.dataAvaliacao) == Dia(data))
  {
  }

  lemma MantidosValida(rs: seq<Registro>, proximoId: nat, turma: nat, materia: nat, data: int)
    requires Valida(Tabela(rs, proximoId))
    ensures Valida(Tabela(Mantidos(rs, turma, materia, data), proximoId))
  {
    MantidosDistintos(rs, turma, materia, data);
    var ms := Mantidos(rs, turma, materia, data);
    forall i | 0 <= i < |ms| ensures ms[i].id < proximoId && NotaMinima <= ms[i].nota <= NotaMaxima {
      assert ms[i] in rs;
      var k :| 0 <= k < |rs| && rs[k] == ms[i];
    }
  }

  /** Keeping some of the records, in order, keeps their ids distinct. */
  lemma {:induction false} MantidosDistintos(rs: seq<Registro>, turma: nat, materia: nat, data: int)
    requires IdsDistintos(rs)
    ensures IdsDistintos(Mantidos(rs, turma, materia, data))
    decreases |rs|
  {
    if |rs| > 0 {
      DistintosCauda(rs);
      MantidosDistintos(rs[1..], turma, materia, data);
      if !DoGrupo(rs[0], turma, materia, data) {
        DistintosCons(rs[0], Mantidos(rs[1..], turma, materia, data));
      }
    }
  }

  lemma DistintosCauda(rs: seq<Registro>)
    requires |rs| > 0 && IdsDistintos(rs)
    ensures IdsDistintos(rs[1..])
    ensures forall x :: x in rs[1..] ==> x.id != rs[0].id
  {
    forall x | x in rs[1..] ensures x.id != rs[0].id {
      var k :| 0 <= k < |rs[1..]| && rs[1..][k] == x;
      assert rs[k + 1] == x;
    }
    assert forall i :: 0 <= i < |rs[1..]| ==> rs[1..][i] == rs[i + 1];
  }

  lemma DistintosCons(r: Registro, rest: seq<Registro>)
    requires IdsDistintos(rest)
    requires forall x :: x in rest ==> x.id != r.id
    ensures IdsDistintos([r] + rest)
  {
    var ms := [r] + rest;
    forall i, j | 0 <= i < j < |ms| ensures ms[i].id != ms[j].id {
      assert ms[j] == rest[j - 1];
      if i == 0 {
        assert ms[j] in rest;
      } else {
        assert ms[i] == rest[i - 1];
      }
    }
  }

  lemma RemoveGrupoValida(t: Tabela, turma: Option<nat>, materia: Option<nat>, data: Option<int>, escola: Escola)
    requires Valida(t)
    ensures Valida(RemoveGrupo(t, turma, materia, data, escola).tabela)
  {
    if CamposInvalidos(turma, materia, data, escola) == {} {
      MantidosValida(t.registros, t.proximoId, turma.value, materia.value, data.value);
    }
  }

  // ---------------------------------------------------------------------
  // The controller's table, updated in place

  lemma NovosRegistrosSnoc(alunos: seq<nat>, i: nat, turma: nat, materia: nat, data: int, primeiroId: nat)
    requires i < |alunos|
    ensures NovosRegistros(alunos[..i + 1], turma, materia, data, primeiroId)
         == NovosRegistros(alunos[..i], turma, materia, data, primeiroId)
            + [Registro(primeiroId + i, alunos[i], turma, materia, 0.0, data)]
  {
  }

  class TabelaAvaliacoes {
    var registros: seq<Registro>
    var proximoId: nat

    function Estado(): Tabela
      reads this
    {
      Tabela(registros, proximoId)
    }

    predicate Valid()
      reads this
    {
      Valida(Estado())
    }

    /** An empty table whose first id is 1, as an auto-increment column starts. */
    constructor ()
      ensures Valid() && registros == [] && proximoId == 1
    {
      registros := [];
      proximoId := 1;
    }

    /** `store`: all the records of the class go in together, or none does. */
    method Store(turma: Option<nat>, materia: Option<nat>, data: Option<int>, escola: Escola) returns (r: Result<(), Erro>)
      requires Valid()
      modifies this
      ensures Valid()
      ensures Saida(r, Estado()) == Armazena(old(Estado()), turma, materia, data, escola)
    {
      ArmazenaValida(Estado(), turma, materia, data, escola);
      var campos := CamposInvalidos(turma, materia, data, escola);
      if campos != {} {
        return Err(Invalido(campos));
      }
      var alunos := escola.alunosDaTurma[turma.value];
      if |alunos| == 0 {
        return Err(TurmaSemAlunos);
      }
      ghost var antes, primeiroId := registros, proximoId;
      var i := 0;
      while i < |alunos|
        invariant 0 <= i <= |alunos|
        invariant proximoId == primeiroId + i
        invariant registros == antes + NovosRegistros(alunos[..i], turma.value, materia.value, data.value, primeiroId)
      {
        NovosRegistrosSnoc(alunos, i, turma.value, materia.value, data.value, primeiroId);
        registros := registros + [Registro(proximoId, alunos[i], turma.value, materia.value, 0.0, data.value)];
        proximoId := proximoId + 1;
        i := i + 1;
      }
      assert alunos[..i] == alunos;
      r := Ok(());
    }

    /** `update`: the record is looked up before the grade is validated. */
    method Update(id: nat, nota: Option<real>) returns (r: Result<(), Erro>)
      requires Valid()
      modifies this
      ensures Valid()
      ensures Saida(r, Estado()) == Atualiza(old(Estado()), id, nota)
    {
      AtualizaValida(Estado(), id, nota);
      var i := Encontra(registros, id);
      if i < 0 {
        return Err(NaoEncontrado);
      }
      if !NotaAceita(nota) {
        return Err(Invalido({CampoNota}));
      }
      registros := registros[i := registros[i].(nota := nota.value)];
      r := Ok(());
    }

    /** `destroy`. */
    method Destroy(id: nat) returns (r: Result<(), Erro>)
      requires Valid()
      modifies this
      ensures Valid()
      ensures Saida(r, Estado()) == Remove(old(Estado()), id)
    {
      RemoveValida(Estado(), id);
      var i := Encontra(registros, id);
      if i < 0 {
        return Err(NaoEncontrado);
      }
      registros := registros[..i] + registros[i + 1..];
      r := Ok(());
    }

    /** `destroyBulk`: one query deleting every matching record. */
    method DestroyBulk(turma: Option<nat>, materia: Option<nat>, data: Option<int>, escola: Escola) returns (r: Result<(), Erro>)
      requires Valid()
      modifies this
      ensures Valid()
      ensures Saida(r, Estado()) == RemoveGrupo(old(Estado()), turma, materia, data, escola)
    {
      RemoveGrupoValida(Estado(), turma, materia, data, escola);
      var campos := CamposInvalidos(turma, materia, data, escola);
      if campos != {} {
        return Err(Invalido(campos));
      }
      registros := Mantidos(registros, turma.value, materia.value, data.value);
      r := Ok(());
    }
  }
}

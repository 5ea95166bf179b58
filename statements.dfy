/**
  The three SQL statements app.py runs against `agendamentos`, each as the
  single atomic step SQLite makes of it: the INSERT of criar_agendamento, the
  UPDATE of atualizar_agendamento and the SELECT ... JOIN ... ORDER BY of
  listar_agendamentos. Every failure leaves the table as it was.
*/
module Statements {
  import opened Wrappers
  import opened Json
  import opened Sqlite
  import opened Schema

  /** The columns the INSERT names, in the order NOT NULL is checked. */
  const InsertColumns: seq<string> := ["usuario_id", "data_retirada", "tipo_lixo", "status"]

  function NotNullFailed(column: string): Exception
  {
    IntegrityError("NOT NULL constraint failed: agendamentos." + column)
  }

  /** SQLITE_FULL: AUTOINCREMENT has already handed out the largest rowid. */
  const DatabaseFull: Exception := OperationalError("database or disk is full")

  /** The first NULL among bound parameters, if any. */
  function FirstNull(bound: seq<Option<Scalar>>): (r: Option<nat>)
    ensures r.None? <==> forall k :: 0 <= k < |bound| ==> bound[k].Some?
    ensures r.Some? ==> r.value < |bound| && bound[r.value].None?
                        && forall k :: 0 <= k < r.value ==> bound[k].Some?
  {
    if bound == [] then None
    else if bound[0].None? then Some(0)
    else match FirstNull(bound[1..])
      case None => None
      case Some(k) => Some(k + 1)
  }

  /**
    INSERT INTO agendamentos (usuario_id, data_retirada, tipo_lixo, status)
    VALUES (?, ?, ?, ?): binding, then AUTOINCREMENT, then NOT NULL in
    column order, then the row as the columns' affinities store it.
  */
  function Insert(params: seq<Value>, sequencia: nat): (r: Result<Agendamento, Exception>)
    requires |params| == |InsertColumns|
    ensures r.Ok? <==> sequencia < MaxInt64
                       && forall k :: 0 <= k < 4 ==> Bind(params[k], k + 1).Ok? && !params[k].Null?
    ensures r.Ok? ==> r.value.usuarioId == NumericAffinity(Bind(params[0], 1).value.value)
                      && r.value.dataRetirada == NumericAffinity(Bind(params[1], 2).value.value)
                      && r.value.tipoLixo == TextAffinity(Bind(params[2], 3).value.value)
                      && r.value.status == TextAffinity(Bind(params[3], 4).value.value)
    ensures r.Err? && r.error.IntegrityError? <==>
              sequencia < MaxInt64
              && (forall k :: 0 <= k < 4 ==> Bind(params[k], k + 1).Ok?)
              && (exists k :: 0 <= k < 4 && params[k].Null?)
    ensures r.Err? && r.error.IntegrityError? ==>
              exists k :: 0 <= k < 4 && params[k].Null? && r.error == NotNullFailed(InsertColumns[k])
                          && forall j :: 0 <= j < k ==> !params[j].Null?
  {
    match BindAll(params)
    case Err(e) => Err(e)
    case Ok(bound) =>
      assert forall k :: 0 <= k < 4 ==> Bind(params[k], k + 1) == Ok(bound[k]);
      if sequencia >= MaxInt64 then Err(DatabaseFull)
      else
        match FirstNull(bound)
        case Some(k) => Err(NotNullFailed(InsertColumns[k]))
        case None =>
          Ok(Agendamento(
            NumericAffinity(bound[0].value),
            NumericAffinity(bound[1].value),
            TextAffinity(bound[2].value),
            TextAffinity(bound[3].value)))
  }

  /**
    UPDATE agendamentos SET status = ? WHERE id = ?: the new table and the
    number of rows changed. NOT NULL is checked only on a row the WHERE
    clause selects.
  */
  function UpdateStatus(agendamentos: map<int, Agendamento>, status: Value, id: int)
    : (r: Result<(map<int, Agendamento>, nat), Exception>)
    ensures r.Ok? <==> Bind(status, 1).Ok? && InInt64(id) && (id in agendamentos ==> !status.Null?)
    ensures r.Ok? && r.value.1 == 0 <==> Bind(status, 1).Ok? && InInt64(id) && id !in agendamentos
    ensures r.Ok? && r.value.1 == 0 ==> r.value.0 == agendamentos
    ensures r.Ok? && r.value.1 != 0 ==>
              r.value.1 == 1 && id in agendamentos
              && r.value.0 == agendamentos[id := agendamentos[id].(status := TextAffinity(Bind(status, 1).value.value))]
    ensures r.Err? && r.error.IntegrityError? <==>
              Bind(status, 1).Ok? && InInt64(id) && id in agendamentos && status.Null?
  {
    var params := [status, Int(id)];
    match BindAll(params)
    case Err(e) =>
      assert !(Bind(params[0], 1).Ok? && Bind(params[1], 2).Ok?);
      Err(e)
    case Ok(bound) =>
      assert Bind(params[0], 1) == Ok(bound[0]) && Bind(params[1], 2) == Ok(bound[1]);
      if id !in agendamentos then Ok((agendamentos, 0))
      else if bound[0].None? then Err(NotNullFailed("status"))
      else Ok((agendamentos[id := agendamentos[id].(status := TextAffinity(bound[0].value))], 1))
  }

  /** Running the same UPDATE twice leaves the table the first run left. */
  lemma UpdateStatusIdempotent(agendamentos: map<int, Agendamento>, status: Value, id: int)
    requires UpdateStatus(agendamentos, status, id).Ok?
    ensures var (once, n) := UpdateStatus(agendamentos, status, id).value;
            UpdateStatus(once, status, id) == Ok((once, n))
  {
    var (once, n) := UpdateStatus(agendamentos, status, id).value;
    if n != 0 {
      var text := TextAffinity(Bind(status, 1).value.value);
      assert once[id].status == text;
      assert once[id].(status := text) == once[id];
      assert once[id := once[id].(status := text)] == once;
    }
  }

  /** A row of the listing: request columns followed by the owner's name and email. */
  datatype Linha = Linha(
    id: int,
    dataRetirada: Scalar,
    tipoLixo: string,
    status: string,
    nomeUsuario: string,
    emailUsuario: string)

  /** `JOIN usuarios u ON a.usuario_id = u.id`: the one user a request joins with, if any. */
  function Dono(a: Agendamento, usuarios: map<int, Usuario>): (r: Option<Usuario>)
    ensures r.Some? ==> exists id :: id in usuarios && a.usuarioId == SInt(id) && r.value == usuarios[id]
    ensures r.None? ==> forall id :: id in usuarios ==> a.usuarioId != SInt(id)
  {
    if a.usuarioId.SInt? && a.usuarioId.i in usuarios then Some(usuarios[a.usuarioId.i]) else None
  }

  function LinhaDe(id: int, a: Agendamento, u: Usuario): Linha
  {
    Linha(id, a.dataRetirada, a.tipoLixo, a.status, u.nome, u.email)
  }

  /** The row the join produces for the request with this id. */
  ghost predicate JoinedRow(row: Linha, agendamentos: map<int, Agendamento>, usuarios: map<int, Usuario>)
  {
    row.id in agendamentos
    && Dono(agendamentos[row.id], usuarios).Some?
    && row == LinhaDe(row.id, agendamentos[row.id], Dono(agendamentos[row.id], usuarios).value)
  }

  /**
    The inner join of the requests with ids 1..n and their owners, in rowid
    order: each joined request once, and only those.
  */
  function Join(agendamentos: map<int, Agendamento>, usuarios: map<int, Usuario>, n: nat): (rows: seq<Linha>)
    ensures forall i :: 0 <= i < |rows| ==> 1 <= rows[i].id <= n && JoinedRow(rows[i], agendamentos, usuarios)
    ensures forall i, j :: 0 <= i < j < |rows| ==> rows[i].id < rows[j].id
    ensures forall k :: 1 <= k <= n && k in agendamentos && Dono(agendamentos[k], usuarios).Some? ==>
              exists i :: 0 <= i < |rows| && rows[i].id == k
  {
    if n == 0 then []
    else
      var before := Join(agendamentos, usuarios, n - 1);
      if n in agendamentos && Dono(agendamentos[n], usuarios).Some? then
        var row := LinhaDe(n, agendamentos[n], Dono(agendamentos[n], usuarios).value);
        JoinAppend(agendamentos, usuarios, n, before, row);
        before + [row]
      else before
  }

  /** The step of Join that appends the row of request n behind those of 1..n-1. */
  lemma JoinAppend(agendamentos: map<int, Agendamento>, usuarios: map<int, Usuario>, n: nat,
                   before: seq<Linha>, row: Linha)
    requires n >= 1 && row.id == n && JoinedRow(row, agendamentos, usuarios)
    requires forall i :: 0 <= i < |before| ==> 1 <= before[i].id <= n - 1
    requires forall i, j :: 0 <= i < j < |before| ==> before[i].id < before[j].id
    ensures var rows := before + [row];
            && (forall i :: 0 <= i < |before| ==> rows[i] == before[i])
            && (forall i, j :: 0 <= i < j < |rows| ==> rows[i].id < rows[j].id)
            && rows[|before|].id == n
  {
    var rows := before + [row];
    forall i, j | 0 <= i < j < |rows|
      ensures rows[i].id < rows[j].id
    {
      assert rows[i] == before[i];
    }
  }

  /** `ORDER BY a.data_retirada DESC`: no row's date is below a later row's date. */
  ghost predicate SortedDesc(rows: seq<Linha>)
  {
    forall i, j :: 0 <= i < j < |rows| ==> !Below(rows[i].dataRetirada, rows[j].dataRetirada)
  }

  /** Inserting a row into a list sorted by date, descending. */
  function InsertDesc(row: Linha, rows: seq<Linha>): (r: seq<Linha>)
    requires SortedDesc(rows)
    ensures SortedDesc(r)
    ensures multiset(r) == multiset(rows) + multiset{row}
  {
    if rows == [] then [row]
    else if !Below(row.dataRetirada, rows[0].dataRetirada) then
      InsertHeadSorted(row, rows);
      [row] + rows
    else
      var rest := InsertDesc(row, rows[1..]);
      InsertBehindHead(row, rows, rest);
      [rows[0]] + rest
  }

  lemma InsertHeadSorted(row: Linha, rows: seq<Linha>)
    requires SortedDesc(rows) && rows != []
    requires !Below(row.dataRetirada, rows[0].dataRetirada)
    ensures SortedDesc([row] + rows)
  {
    forall j | 0 < j < |rows|
      ensures !Below(row.dataRetirada, rows[j].dataRetirada)
    {
      AtLeastTransitive(row.dataRetirada, rows[0].dataRetirada, rows[j].dataRetirada);
    }
  }

  lemma InsertBehindHead(row: Linha, rows: seq<Linha>, rest: seq<Linha>)
    requires SortedDesc(rows) && rows != []
    requires Below(row.dataRetirada, rows[0].dataRetirada)
    requires SortedDesc(rest) && multiset(rest) == multiset(rows[1..]) + multiset{row}
    ensures SortedDesc([rows[0]] + rest)
    ensures multiset([rows[0]] + rest) == multiset(rows) + multiset{row}
  {
    assert rows == [rows[0]] + rows[1..];
    BelowTrichotomy(row.dataRetirada, rows[0].dataRetirada);
    var r := [rows[0]] + rest;
    forall j | 0 < j < |r|
      ensures !Below(rows[0].dataRetirada, r[j].dataRetirada)
    {
      assert r[j] == rest[j - 1];
      assert r[j] in multiset(rest);
      if r[j] != row {
        assert r[j] in multiset(rows[1..]);
        var m :| 0 <= m < |rows[1..]| && rows[1..][m] == r[j];
        assert rows[m + 1] == r[j];
      }
    }
  }

  /** Sorting by date, descending; the order among equal dates is not specified by SQL. */
  function SortDesc(rows: seq<Linha>): (r: seq<Linha>)
    ensures SortedDesc(r)
    ensures multiset(r) == multiset(rows)
  {
    if rows == [] then []
    else
      assert rows == [rows[0]] + rows[1..];
      InsertDesc(rows[0], SortDesc(rows[1..]))
  }

  /** The whole SELECT of listar_agendamentos. */
  function Select(agendamentos: map<int, Agendamento>, usuarios: map<int, Usuario>, sequencia: nat): (rows: seq<Linha>)
    ensures SortedDesc(rows)
    ensures multiset(rows) == multiset(Join(agendamentos, usuarios, sequencia))
  {
    SortDesc(Join(agendamentos, usuarios, sequencia))
  }

  /**
    The listing is sorted by date, descending; a request appears in it if and
    only if its usuario_id matches a user, exactly once, and then carries that
    user's name and email; nothing else appears.
  */
  lemma SelectSpec(agendamentos: map<int, Agendamento>, usuarios: map<int, Usuario>, sequencia: nat)
    requires IdsAtribuidos(agendamentos, sequencia)
    ensures var rows := Select(agendamentos, usuarios, sequencia);
            && SortedDesc(rows)
            && (forall i :: 0 <= i < |rows| ==> JoinedRow(rows[i], agendamentos, usuarios))
            && (forall k :: k in agendamentos ==>
                  ((exists i :: 0 <= i < |rows| && rows[i].id == k) <==> Dono(agendamentos[k], usuarios).Some?))
            && (forall i, j :: 0 <= i < j < |rows| ==> rows[i].id != rows[j].id)
  {
    var joined := Join(agendamentos, usuarios, sequencia);
    var rows := Select(agendamentos, usuarios, sequencia);
    SelectRowsJoined(joined, rows, agendamentos, usuarios);
    SelectCoversJoin(joined, rows, agendamentos, usuarios, sequencia);
    SelectIdsDistinct(joined, rows, agendamentos, usuarios);
  }

  lemma SelectRowsJoined(joined: seq<Linha>, rows: seq<Linha>,
                         agendamentos: map<int, Agendamento>, usuarios: map<int, Usuario>)
    requires multiset(rows) == multiset(joined)
    requires forall i :: 0 <= i < |joined| ==> JoinedRow(joined[i], agendamentos, usuarios)
    ensures forall i :: 0 <= i < |rows| ==> JoinedRow(rows[i], agendamentos, usuarios)
  {
    forall i | 0 <= i < |rows|
      ensures JoinedRow(rows[i], agendamentos, usuarios)
    {
      assert rows[i] in multiset(joined);
      var m :| 0 <= m < |joined| && joined[m] == rows[i];
    }
  }

  lemma SelectCoversJoin(joined: seq<Linha>, rows: seq<Linha>,
                         agendamentos: map<int, Agendamento>, usuarios: map<int, Usuario>, sequencia: nat)
    requires multiset(rows) == multiset(joined)
    requires IdsAtribuidos(agendamentos, sequencia)
    requires forall k :: 1 <= k <= sequencia && k in agendamentos && Dono(agendamentos[k], usuarios).Some? ==>
               exists i :: 0 <= i < |joined| && joined[i].id == k
    ensures forall k :: k in agendamentos && Dono(agendamentos[k], usuarios).Some? ==>
              exists i :: 0 <= i < |rows| && rows[i].id == k
  {
    forall k | k in agendamentos && Dono(agendamentos[k], usuarios).Some?
      ensures exists i :: 0 <= i < |rows| && rows[i].id == k
    {
      var m :| 0 <= m < |joined| && joined[m].id == k;
      assert joined[m] in multiset(rows);
      var i :| 0 <= i < |rows| && rows[i] == joined[m];
    }
  }

  lemma SelectIdsDistinct(joined: seq<Linha>, rows: seq<Linha>,
                          agendamentos: map<int, Agendamento>, usuarios: map<int, Usuario>)
    requires multiset(rows) == multiset(joined)
    requires forall i, j :: 0 <= i < j < |joined| ==> joined[i].id < joined[j].id
    requires forall i :: 0 <= i < |rows| ==> JoinedRow(rows[i], agendamentos, usuarios)
    ensures forall i, j :: 0 <= i < j < |rows| ==> rows[i].id != rows[j].id
  {
    forall i, j | 0 <= i < j < |rows|
      ensures rows[i].id != rows[j].id
    {
      if rows[i].id == rows[j].id {
        assert rows[i] == rows[j];
        TwiceInMultiset(rows, i, j);
        JoinOccursOnce(joined, rows[i]);
      }
    }
  }

  /** Two positions holding the same row make it occur twice. */
  lemma TwiceInMultiset(rows: seq<Linha>, i: nat, j: nat)
    requires i < j < |rows| && rows[i] == rows[j]
    ensures multiset(rows)[rows[i]] >= 2
  {
    assert rows == rows[..i] + [rows[i]] + rows[i + 1..j] + [rows[j]] + rows[j + 1..];
  }

  /** A sequence whose ids strictly increase holds any row at most once. */
  lemma {:induction false} JoinOccursOnce(rows: seq<Linha>, x: Linha)
    requires forall i, j :: 0 <= i < j < |rows| ==> rows[i].id < rows[j].id
    ensures multiset(rows)[x] <= 1
  {
    if rows != [] {
      assert rows == [rows[0]] + rows[1..];
      JoinOccursOnce(rows[1..], x);
      if x == rows[0] {
        assert x !in rows[1..];
      }
    }
  }
}

/**
  The four routes of app.py as operations of one database object. Each
  handler takes the request body already parsed by Flask and returns the
  HTTP status code and the JSON envelope; the create and update handlers
  change the `agendamentos` table in place.
*/
module App {
  import opened Wrappers
  import opened Json
  import opened Sqlite
  import opened Schema
  import opened Statements

  /** The JSON envelope of a response. */
  datatype Body =
    | Erro(mensagem: string)                        // {"status": "erro", "mensagem": ...}
    | Criado(mensagem: string, idAgendamento: int)  // {"status": "sucesso", "mensagem", "id_agendamento"}
    | Atualizado(mensagem: string)                  // {"status": "sucesso", "mensagem"}
    | Pontos(lista: seq<PontoColeta>)               // {"status": "sucesso", "dados"}
    | Agendamentos(total: int, dados: seq<Linha>)   // {"status": "sucesso", "total", "dados"}
    | InternalServerError                           // Flask's own page for an exception nobody catches

  datatype Response = Response(code: int, body: Body)

  /** The keys criar_agendamento demands, in the order it looks for them. */
  const CamposObrigatorios: seq<string> := ["usuario_id", "data_retirada", "tipo_lixo"]

  const StatusInicial: string := "pendente"

  const SemDados: string := "Nenhum dado JSON fornecido."

  const CriadoComSucesso: string := "Agendamento criado com sucesso!"

  const StatusObrigatorio: string := "O campo 'status' é obrigatório para atualização."

  function CampoNaoFornecido(campo: string): string
  {
    "Campo obrigatório '" + campo + "' não fornecido."
  }

  function NaoEncontrado(id: nat): string
  {
    "Agendamento com ID " + Digits(id) + " não encontrado."
  }

  function StatusAtualizado(id: nat, novoStatus: Value): string
    requires novoStatus.Bool? || novoStatus.Int? || novoStatus.Str?
  {
    "Status do Agendamento " + Digits(id) + " atualizado para '" + Render(novoStatus) + "'."
  }

  /** The first of `campos` that is not a key of the body: presence only, whatever the value. */
  function PrimeiroAusente(dados: Object, campos: seq<string>): (r: Option<string>)
    ensures r.None? <==> forall k :: 0 <= k < |campos| ==> campos[k] in dados
    ensures r.Some? ==> exists k :: 0 <= k < |campos| && r.value == campos[k] && campos[k] !in dados
                                    && forall j :: 0 <= j < k ==> campos[j] in dados
  {
    if campos == [] then None
    else if campos[0] !in dados then Some(campos[0])
    else
      var r := PrimeiroAusente(dados, campos[1..]);
      assert forall k :: 1 <= k < |campos| ==> campos[k] == campos[1..][k - 1];
      r
  }

  /** The four values bound to the INSERT: the status is the fixed initial one. */
  function ParametrosInsert(dados: Object): (params: seq<Value>)
    requires forall k :: 0 <= k < |CamposObrigatorios| ==> CamposObrigatorios[k] in dados
    ensures |params| == |InsertColumns| == |CamposObrigatorios| + 1
    ensures forall k :: 0 <= k < |CamposObrigatorios| ==> params[k] == dados[CamposObrigatorios[k]]
    ensures params[|CamposObrigatorios|] == Str(StatusInicial)
  {
    assert CamposObrigatorios[0] in dados && CamposObrigatorios[1] in dados && CamposObrigatorios[2] in dados;
    [dados["usuario_id"], dados["data_retirada"], dados["tipo_lixo"], Str(StatusInicial)]
  }

  /** criar_agendamento's `except` clauses: IntegrityError first, then any sqlite3.Error. */
  function RespostaErroCriar(e: Exception): (resp: Response)
    ensures resp.code == 409 <==> e.IntegrityError?
    ensures resp.code != 409 ==> resp.code == 500
  {
    match e
    case IntegrityError(d) => Response(409, Erro("Erro de integridade ao criar agendamento: " + d))
    case ProgrammingError(d) => Response(500, Erro("Erro de banco de dados: " + d))
    case OperationalError(d) => Response(500, Erro("Erro de banco de dados: " + d))
    case OverflowError => Response(500, InternalServerError)
  }

  /** atualizar_agendamento catches only sqlite3.Error, so a constraint failure is a 500 too. */
  function RespostaErroAtualizar(e: Exception): (resp: Response)
    ensures resp.code == 500
    ensures IsSqliteError(e) <==> resp.body.Erro?
  {
    match e
    case OverflowError => Response(500, InternalServerError)
    case _ => Response(500, Erro("Erro de banco de dados na atualização: " + e.detail))
  }

  /**
    A key other than the three required ones never reaches the INSERT: in
    particular a `status` in the body does not change the row created.
  */
  lemma OutrasChavesIgnoradas(dados: Object, chave: string, v: Value)
    requires forall k :: 0 <= k < |CamposObrigatorios| ==> CamposObrigatorios[k] in dados
    requires chave !in CamposObrigatorios
    ensures ParametrosInsert(dados[chave := v]) == ParametrosInsert(dados)
    ensures forall s: nat :: Insert(ParametrosInsert(dados[chave := v]), s) == Insert(ParametrosInsert(dados), s)
  {
    assert chave != "usuario_id" && chave != "data_retirada" && chave != "tipo_lixo" by {
      assert CamposObrigatorios[0] == "usuario_id";
      assert CamposObrigatorios[1] == "data_retirada";
      assert CamposObrigatorios[2] == "tipo_lixo";
    }
  }

  /** A created row is always pending, whatever the body says. */
  lemma CriadoPendente(dados: Object, sequencia: nat)
    requires forall k :: 0 <= k < |CamposObrigatorios| ==> CamposObrigatorios[k] in dados
    requires Insert(ParametrosInsert(dados), sequencia).Ok?
    ensures Insert(ParametrosInsert(dados), sequencia).value.status == StatusInicial
  {
    var params := ParametrosInsert(dados);
    assert Bind(params[3], 4) == Ok(Some(SText(StatusInicial)));
  }

  /**
    A required key that is present but null passes the presence check and
    then fails NOT NULL: 409, naming the first such column.
  */
  lemma NuloPresenteDaConflito(dados: Object, sequencia: nat, k: nat)
    requires forall c :: 0 <= c < |CamposObrigatorios| ==> CamposObrigatorios[c] in dados
    requires k < |CamposObrigatorios| && dados[CamposObrigatorios[k]].Null?
    requires forall j :: 0 <= j < k ==> !dados[CamposObrigatorios[j]].Null?
    requires forall c :: 0 <= c < |CamposObrigatorios| ==> Bind(dados[CamposObrigatorios[c]], c + 1).Ok?
    requires sequencia < MaxInt64
    ensures Insert(ParametrosInsert(dados), sequencia) == Err(NotNullFailed(CamposObrigatorios[k]))
    ensures RespostaErroCriar(Insert(ParametrosInsert(dados), sequencia).error).code == 409
  {
    var params := ParametrosInsert(dados);
    assert forall c :: 0 <= c < 3 ==> params[c] == dados[CamposObrigatorios[c]];
    assert Bind(params[3], 4).Ok?;
    var r := Insert(params, sequencia);
    assert r.Err? && r.error.IntegrityError?;
    var m :| 0 <= m < 4 && params[m].Null? && r.error == NotNullFailed(InsertColumns[m])
             && forall j :: 0 <= j < m ==> !params[j].Null?;
    assert m == k;
  }

  /**
    An UPDATE to null: 404 when the id is not in the table (no row is
    selected, so nothing is checked), a constraint failure on an existing row.
  */
  lemma AtualizarNulo(agendamentos: map<int, Agendamento>, id: nat)
    requires id <= MaxInt64
    ensures id !in agendamentos ==> UpdateStatus(agendamentos, Null, id) == Ok((agendamentos, 0))
    ensures id in agendamentos ==> UpdateStatus(agendamentos, Null, id) == Err(NotNullFailed("status"))
  {
  }

  /**
    Foreign keys are never switched on for the connection, so a request whose
    usuario_id matches no user is stored like any other; the inner join of
    the listing then leaves it out.
  */
  lemma UsuarioInexistenteOculto(agendamentos: map<int, Agendamento>, usuarios: map<int, Usuario>,
                                 sequencia: nat, a: Agendamento)
    requires IdsAtribuidos(agendamentos, sequencia) && sequencia < MaxInt64
    requires Dono(a, usuarios).None?
    ensures var rows := Select(agendamentos[sequencia + 1 := a], usuarios, sequencia + 1);
            forall i :: 0 <= i < |rows| ==> rows[i].id != sequencia + 1
  {
    var after := agendamentos[sequencia + 1 := a];
    SelectSpec(after, usuarios, sequencia + 1);
  }

  /**
    The database file: the three tables, plus the `sqlite_sequence` entry of
    `agendamentos`, the largest id AUTOINCREMENT has handed out.
  */
  class Banco {
    var usuarios: map<int, Usuario>
    var pontos: seq<PontoColeta>
    var agendamentos: map<int, Agendamento>
    var sequencia: nat

    /** The constraints of setup_db.py that the handlers must keep. */
    ghost predicate Valid()
      reads this
    {
      && EmailsUnicos(usuarios)
      && PontosEmOrdem(pontos)
      && IdsAtribuidos(agendamentos, sequencia)
      && sequencia <= MaxInt64
    }

    /** A database as setup_db.py (or earlier use) left it. */
    constructor (usuarios: map<int, Usuario>, pontos: seq<PontoColeta>,
                 agendamentos: map<int, Agendamento>, sequencia: nat)
      requires EmailsUnicos(usuarios) && PontosEmOrdem(pontos)
      requires IdsAtribuidos(agendamentos, sequencia) && sequencia <= MaxInt64
      ensures Valid()
      ensures this.usuarios == usuarios && this.pontos == pontos
      ensures this.agendamentos == agendamentos && this.sequencia == sequencia
    {
      this.usuarios := usuarios;
      this.pontos := pontos;
      this.agendamentos := agendamentos;
      this.sequencia := sequencia;
    }

    /** GET /pontos: every point, in table order; 200 even when there is none. */
    function ListarPontosColeta(): (resp: Response)
      reads this
      ensures resp.code == 200 && resp.body.Pontos?
      ensures resp.body.lista == pontos
    {
      Response(200, Pontos(pontos))
    }

    /**
      GET /agendamentos: the requests joined with their owners, newest date
      first, with `total` the number of rows.
    */
    function ListarAgendamentos(): (resp: Response)
      reads this
      requires Valid()
      ensures resp.code == 200 && resp.body.Agendamentos?
      ensures resp.body.total == |resp.body.dados|
      ensures SortedDesc(resp.body.dados)
      ensures forall i :: 0 <= i < |resp.body.dados| ==> JoinedRow(resp.body.dados[i], agendamentos, usuarios)
      ensures forall k :: k in agendamentos ==>
                ((exists i :: 0 <= i < |resp.body.dados| && resp.body.dados[i].id == k)
                 <==> Dono(agendamentos[k], usuarios).Some?)
      ensures forall i, j :: 0 <= i < j < |resp.body.dados| ==> resp.body.dados[i].id != resp.body.dados[j].id
    {
      var dados := Select(agendamentos, usuarios, sequencia);
      SelectSpec(agendamentos, usuarios, sequencia);
      Response(200, Agendamentos(|dados|, dados))
    }

    /** POST /agendamentos. */
    method CriarAgendamento(dados: Option<Object>) returns (resp: Response)
      requires Valid()
      modifies this`agendamentos, this`sequencia
      ensures Valid()
      ensures !Truthy(dados) ==> resp == Response(400, Erro(SemDados))
      ensures Truthy(dados) && PrimeiroAusente(dados.value, CamposObrigatorios).Some? ==>
                resp == Response(400, Erro(CampoNaoFornecido(PrimeiroAusente(dados.value, CamposObrigatorios).value)))
      ensures Truthy(dados) && PrimeiroAusente(dados.value, CamposObrigatorios).None? ==>
                var inserted := Insert(ParametrosInsert(dados.value), old(sequencia));
                && (inserted.Ok? ==> resp == Response(201, Criado(CriadoComSucesso, old(sequencia) + 1))
                                     && agendamentos == old(agendamentos)[old(sequencia) + 1 := inserted.value])
                && (inserted.Err? ==> resp == RespostaErroCriar(inserted.error))
      ensures resp.code == 201 ==>
                && sequencia == old(sequencia) + 1 == resp.body.idAgendamento
                && sequencia !in old(agendamentos)
                && (forall k :: k in old(agendamentos) ==> k < sequencia)
                && agendamentos.Keys == old(agendamentos).Keys + {sequencia}
                && agendamentos[sequencia].status == StatusInicial
                && (forall k :: k in old(agendamentos) ==> agendamentos[k] == old(agendamentos)[k])
      ensures resp.code != 201 ==> agendamentos == old(agendamentos) && sequencia == old(sequencia)
      ensures resp.code in {201, 400, 409, 500}
    {
      if !Truthy(dados) {
        return Response(400, Erro(SemDados));
      }
      var d := dados.value;
      var i := 0;
      while i < |CamposObrigatorios|
        invariant 0 <= i <= |CamposObrigatorios|
        invariant forall j :: 0 <= j < i ==> CamposObrigatorios[j] in d
      {
        var campo := CamposObrigatorios[i];
        if campo !in d {
          return Response(400, Erro(CampoNaoFornecido(campo)));
        }
        i := i + 1;
      }
      assert CamposObrigatorios[0] in d && CamposObrigatorios[1] in d && CamposObrigatorios[2] in d;
      var usuarioId := d["usuario_id"];
      var dataRetirada := d["data_retirada"];
      var tipoLixo := d["tipo_lixo"];
      var statusInicial := StatusInicial;
      var inserted := Insert([usuarioId, dataRetirada, tipoLixo, Str(statusInicial)], sequencia);
      match inserted {
        case Ok(row) =>
          CriadoPendente(d, sequencia);
          var novoId := sequencia + 1;
          agendamentos := agendamentos[novoId := row];
          sequencia := novoId;
          resp := Response(201, Criado(CriadoComSucesso, novoId));
        case Err(e) =>
          resp := RespostaErroCriar(e);
      }
    }

    /** PUT /agendamentos/<id>; Flask's int converter only matches non-negative ids. */
    method AtualizarAgendamento(id: nat, dados: Option<Object>) returns (resp: Response)
      requires Valid()
      modifies this`agendamentos
      ensures Valid()
      ensures !Truthy(dados) || "status" !in dados.value ==> resp == Response(400, Erro(StatusObrigatorio))
      ensures Truthy(dados) && "status" in dados.value ==>
                var novo := dados.value["status"];
                var updated := UpdateStatus(old(agendamentos), novo, id);
                && (updated.Ok? && updated.value.1 == 0 ==> resp == Response(404, Erro(NaoEncontrado(id))))
                && (updated.Ok? && updated.value.1 != 0 ==>
                      && (novo.Bool? || novo.Int? || novo.Str?)
                      && resp == Response(200, Atualizado(StatusAtualizado(id, novo)))
                      && agendamentos == updated.value.0)
                && (updated.Err? ==> resp == RespostaErroAtualizar(updated.error))
      ensures resp.code == 200 ==>
                && id in old(agendamentos)
                && agendamentos.Keys == old(agendamentos).Keys
                && (forall k :: k in agendamentos && k != id ==> agendamentos[k] == old(agendamentos)[k])
                && agendamentos[id].usuarioId == old(agendamentos)[id].usuarioId
                && agendamentos[id].dataRetirada == old(agendamentos)[id].dataRetirada
                && agendamentos[id].tipoLixo == old(agendamentos)[id].tipoLixo
      ensures resp.code == 404 ==> id !in agendamentos
      ensures resp.code != 200 ==> agendamentos == old(agendamentos)
      ensures resp.code in {200, 400, 404, 500}
    {
      if !Truthy(dados) || "status" !in dados.value {
        return Response(400, Erro(StatusObrigatorio));
      }
      var novoStatus := dados.value["status"];
      var updated := UpdateStatus(agendamentos, novoStatus, id);
      match updated {
        case Ok((tabela, rowcount)) =>
          if rowcount == 0 {
            return Response(404, Erro(NaoEncontrado(id)));
          }
          agendamentos := tabela;
          resp := Response(200, Atualizado(StatusAtualizado(id, novoStatus)));
        case Err(e) =>
          resp := RespostaErroAtualizar(e);
      }
    }
  }
}

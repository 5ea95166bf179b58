/**
  The three tables created by setup_db.py, as values. A NOT NULL column is a
  field that cannot be absent; the remaining constraints (AUTOINCREMENT,
  UNIQUE email, the order of a table scan) are predicates that the database
  class keeps as its invariant.
*/
module Schema {
  import opened Wrappers
  import opened Sqlite

  /** A row of `usuarios`; its id is the key of the map that holds it. */
  datatype Usuario = Usuario(nome: string, email: string, senha: string, tipo: string)

  /**
    A row of `pontos_coleta`. Latitude and longitude are REAL columns and are
    carried without arithmetic; `horario_func` is the one nullable column.
  */
  datatype PontoColeta = PontoColeta(
    id: int,
    nome: string,
    endereco: string,
    latitude: real,
    longitude: real,
    horarioFunc: Option<string>)

  /**
    A row of `agendamentos`; its id is the key of the map that holds it.
    `usuario_id` (INTEGER) and `data_retirada` (DATE, so NUMERIC affinity)
    hold an integer or a text; `tipo_lixo` and `status` (TEXT) hold text.
  */
  datatype Agendamento = Agendamento(
    usuarioId: Scalar,
    dataRetirada: Scalar,
    tipoLixo: string,
    status: string)

  /** `email TEXT NOT NULL UNIQUE`. */
  ghost predicate EmailsUnicos(usuarios: map<int, Usuario>)
  {
    forall a, b :: a in usuarios && b in usuarios && a != b ==> usuarios[a].email != usuarios[b].email
  }

  /** A scan of `pontos_coleta` visits its rows in increasing id order. */
  ghost predicate PontosEmOrdem(pontos: seq<PontoColeta>)
  {
    forall i, j :: 0 <= i < j < |pontos| ==> pontos[i].id < pontos[j].id
  }

  /**
    `id INTEGER PRIMARY KEY AUTOINCREMENT`: every id in the table was assigned
    from the sequence, so lies between 1 and the largest id ever assigned.
  */
  ghost predicate IdsAtribuidos(agendamentos: map<int, Agendamento>, sequencia: nat)
  {
    forall k :: k in agendamentos ==> 1 <= k <= sequencia
  }
}

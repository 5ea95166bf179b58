# Pickup-request backend and its front-end helpers, in Dafny

This project models the core of an e-waste pickup scheduler. The backend is a
Flask application, `app.py`, over a SQLite file whose tables `setup_db.py`
creates. The front end is `FrontEndPI/script.js`.

The backend model is a class `App.Banco`. It holds the tables as a map from
id to request row (`agendamentos`), a map from id to user (`usuarios`), the
collection points in scan order (`pontos`) and AUTOINCREMENT's counter
(`sequencia`). Each route is a member that takes the JSON body Flask parsed:

- `CriarAgendamento` handles POST /agendamentos.
- `AtualizarAgendamento` handles PUT /agendamentos/<id>.
- `ListarAgendamentos` handles GET /agendamentos.
- `ListarPontosColeta` handles GET /pontos.

Each returns the HTTP status code and the JSON envelope. The invariant
`Banco.Valid` states the constraints of `setup_db.py`:

- NOT NULL holds because the row fields cannot be absent.
- UNIQUE email is a predicate.
- AUTOINCREMENT means every id lies between 1 and the largest id ever handed out.

SQLite and Python's sqlite3 are modelled where the handlers' outcomes depend on
them (module `Sqlite`, module `Statements`):

- Parameter binding. A bool binds as 0 or 1. A list or dict cannot be bound (ProgrammingError). An int outside 64 bits raises Python's OverflowError, which is not a `sqlite3.Error`.
- Column affinity. TEXT columns store integers as decimal text. INTEGER and NUMERIC columns store integer-literal text as integers.
- The order in which an INSERT fails: binding, then AUTOINCREMENT exhaustion (SQLITE_FULL), then NOT NULL in column order.
- An UPDATE checks NOT NULL only on a row its WHERE clause selects.
- ORDER BY's order puts every integer before every text and orders texts by code point.

The front-end model (module `Front`) covers these helpers:

- `formatarData`.
- The `includes('pendente')` classification, with the counting loop of `listarAgendamentos`.
- The confirm button.
- The form check and body construction of `handleAgendamento`.

Lemmas connect the two sides. A body the form accepts passes every check of
the POST handler, and its INSERT stores a pending row when the user id fits in
64 bits. The form puts no upper bound on the user id, and a larger id makes the
INSERT raise OverflowError, which the handler does not catch. Confirming through PUT moves a request to the confirmed list.

Parts of the code expect behaviour that `app.py` does not have, and the model
follows `app.py` as written:

- The comment at app.py:116 expects an IntegrityError for a `usuario_id` with no user. `get_db_connection` (app.py:17-23) never enables foreign keys, so such a request is stored and gets 201.
- script.js:276 reads a `novo_agendamento` record from the 201 body. app.py:109-113 sends only the message and `id_agendamento`.
- script.js:247-251 sends `ponto_coleta_id` and `endereco_coleta`. app.py:71 requires only `usuario_id`, `data_retirada` and `tipo_lixo`, and the INSERT stores only those three and the status.

## Model

| member | source | states |
|---|---|---|
| `App.Banco.CriarAgendamento` | app.py:61-123 | An absent or empty body gives 400 "Nenhum dado JSON fornecido.". The first missing key among usuario_id, data_retirada, tipo_lixo gives 400 naming it. Otherwise the INSERT's outcome decides. On success the response is 201 and `id_agendamento` is the new id, one above the sequence. That id is strictly above every existing id. Exactly that row is added, with status 'pendente'. Every other row is unchanged. Any non-201 outcome leaves the table and the counter unchanged. |
| `App.Banco.AtualizarAgendamento` | app.py:175-219 | An absent or empty body, or no `status` key, gives 400. When the status binds and the id fits in 64 bits, an id not in the table gives 404, even for a null status. A null status on an existing row gives 500 from the generic handler. A success gives 200, changes only that row's status, and keeps the keys and every other field and row. Every non-200 outcome leaves the table unchanged. |
| `App.Banco.ListarAgendamentos` | app.py:130-167 | Always 200. `total` equals the number of rows. Rows are sorted non-increasingly by data_retirada. A request appears if and only if its usuario_id matches a user, and then exactly once with that user's nome and email. Every row comes from the table. The listing reads and never writes. |
| `App.Banco.ListarPontosColeta` | app.py:32-55 | Always 200. The result holds every collection point in table order, which is the empty list when there are none. |
| `App.Banco.constructor` | setup_db.py:34-68 | A database in the state setup_db.py describes satisfies the invariant: unique emails, points in id order, ids assigned from the AUTOINCREMENT sequence. |
| `App.PrimeiroAusente` | app.py:71-80 | The check is key presence only. The result is None if and only if all three keys are present. Otherwise it is the first key, in the fixed order, that is absent, and every earlier key is present. |
| `App.ParametrosInsert` | app.py:83-100 | The INSERT binds exactly four values. The first three are the body's usuario_id, data_retirada and tipo_lixo, in that order. The fourth is the constant 'pendente'. |
| `App.RespostaErroCriar` | app.py:115-123 | An IntegrityError gives 409. Any other storage error gives 500. |
| `App.RespostaErroAtualizar` | app.py:217-219 | Every storage error of the update gives 500, a constraint failure included. A JSON envelope is returned exactly for sqlite3.Error subclasses. |
| `App.OutrasChavesIgnoradas` | app.py:83-100 | Adding or changing any key other than the three required ones, `status` included, changes neither the INSERT's parameters nor its outcome. |
| `App.CriadoPendente` | app.py:87-100 | A successful INSERT stores status 'pendente'. |
| `App.NuloPresenteDaConflito` | app.py:83-118 | A required key that is present but null passes validation. The INSERT then fails NOT NULL on the first null column, and the response is 409. |
| `App.AtualizarNulo` | app.py:193-207 | A null status on an unknown id affects zero rows, so the response is 404. On an existing id it fails NOT NULL on `status`. |
| `App.UsuarioInexistenteOculto` | app.py:149-150 | A request stored with a usuario_id that matches no user never appears in the listing. |
| `Statements.Insert` | app.py:95-101 | The INSERT succeeds if and only if every parameter binds, none is null and the sequence is not exhausted. The stored row holds the bound values under their columns' affinities. It raises an IntegrityError if and only if binding succeeds, the sequence is not exhausted and some parameter is null. The error then names the first null column. |
| `Statements.UpdateStatus` | app.py:193-204 | The UPDATE changes one row if and only if the status binds, the id fits in 64 bits, the id is in the table and the status is non-null. It then sets only that row's status. It changes zero rows and keeps the table if and only if the status binds, the id fits in 64 bits and the id is absent. It raises an IntegrityError if and only if the status binds, the id fits in 64 bits, the row exists and the status is null. A status that does not bind raises its binding error, even for an absent id. |
| `Statements.UpdateStatusIdempotent` | app.py:193-201 | Running the same UPDATE again on the resulting table leaves that table and reports the same row count. |
| `Statements.Join` | app.py:141-152 | The join scans ids 1..n in rowid order. That scan order is the model's choice, and it does not matter because the ORDER BY that follows fixes the result up to equal dates. Each row is the request with that id, joined with its owner. Ids strictly increase. Every request whose usuario_id matches a user is present. |
| `Statements.SortDesc` | app.py:151 | The result is sorted by date, descending, and is a permutation of the input. |
| `Statements.InsertDesc` | app.py:151 | Inserting into a descending list keeps it sorted and adds exactly that row. |
| `Statements.Dono` | app.py:150 | A request joins with a user exactly when its usuario_id is the integer id of a user, and then with that user. A text usuario_id joins with no user. |
| `Statements.Select` | app.py:141-152 | The SELECT is the join's rows, reordered, sorted descending by date. |
| `Statements.SelectSpec` | app.py:141-158 | The full SELECT is sorted descending by date and contains only joined rows. A request is listed if and only if its user exists, and ids are distinct. |
| `Statements.FirstNull` | setup_db.py:62-65 | NOT NULL is checked in column order. The result is the first null position, or None when there is none. |
| `Sqlite.Bind` | app.py:95-101 | Null binds as NULL. A bool binds as the integer 1 or 0. An int within 64 bits binds as itself. A string binds as text. A list or dict raises a ProgrammingError naming the 1-based position and the type, and that is a sqlite3.Error. An int outside 64 bits raises an OverflowError, which is not a sqlite3.Error. Binding fails for exactly those last two cases. |
| `Sqlite.BindFrom` | app.py:95-101 | Binding succeeds if and only if every parameter binds. Otherwise the first failing parameter decides the exception. |
| `Sqlite.IntegerLiteral` | setup_db.py:62-63 | A text is read as integer i if and only if it spells i and i fits in 64 bits. Spelling i means digits only, or '+' or '-' followed by at least one digit. The value is the decimal value of the digits, negated after '-'. |
| `Sqlite.NumericAffinity` | setup_db.py:62-63 | INTEGER and NUMERIC columns keep integers. A text that is an integer literal becomes that integer. In the model any other text is kept unchanged; "## Left out" lists the texts SQLite would still convert. |
| `Sqlite.TextAffinity` | setup_db.py:64-65 | A TEXT column keeps text. It stores a 64-bit integer as decimal text that reads back as the same integer. |
| `Sqlite.TextBelow` | app.py:151 | Text order is lexicographic by code point. A proper prefix comes first. Otherwise the text with the smaller character at the first difference comes first. |
| `Sqlite.Below` | app.py:151 | Every integer sorts before every text. Integers compare by value, and texts compare lexicographically. |
| `Json.Truthy` | app.py:73 | A body counts as present exactly when it was parsed and holds at least one key. |
| `Json.Render` | app.py:214 | An f-string renders a bool as "True" or "False", an int as its decimal text, and a string as itself. |
| `Json.Decimal` | app.py:214 | The decimal text of a non-negative number is all digits and denotes that number. A negative number gets a '-' and then the digits of its magnitude. |
| `Sqlite.AffinityRoundTrip` | setup_db.py:62-65 | An integer that a TEXT column stores as decimal text is converted back to the same integer by a NUMERIC column. |
| `Sqlite.DecimalIsIntegerLiteral` | setup_db.py:62-65 | The decimal text of any 64-bit integer parses back to that integer. |
| `Sqlite.BelowTrichotomy` | app.py:151 | ORDER BY's order is total and asymmetric. |
| `Sqlite.BelowTransitive` | app.py:151 | ORDER BY's order is transitive. |
| `Sqlite.AtLeastTransitive` | app.py:151 | "Not below" is transitive, so a descending sort is well defined. |
| `Front.Split` | FrontEndPI/script.js:29 | `split('-')` yields at least one part. No part contains the separator. Joining the parts with the separator gives back the input. |
| `Front.SplitLength` | FrontEndPI/script.js:29-30 | The number of parts is one more than the number of '-' in the string. |
| `Front.SplitAfter` | FrontEndPI/script.js:29 | A separator-free prefix followed by the separator splits off as exactly the first part. |
| `Front.SplitWithout` | FrontEndPI/script.js:29 | A string without the separator splits into itself alone. |
| `Front.FormatarData` | FrontEndPI/script.js:28-34 | The output has the input's length. It is either the input itself or holds no '-'. |
| `Front.FormatarDataValor` | FrontEndPI/script.js:28-29 | formatarData on a listed date works exactly when the date is a JSON string. A JSON number has no `split`, so the call throws. |
| `Front.FormatarDataTresPartes` | FrontEndPI/script.js:28-31 | For '-'-free parts a, b, c, "a-b-c" becomes "c/b/a". |
| `Front.FormatarDataSemHifen` | FrontEndPI/script.js:28-31 | Whenever the split gives three parts, the output contains no '-'. |
| `Front.FormatarDataMuda` | FrontEndPI/script.js:28-33 | The output differs from the input if and only if the input holds exactly two '-'. Otherwise the input is returned unchanged. |
| `Front.FormatarDataIdempotente` | FrontEndPI/script.js:28-33 | Formatting an already formatted date changes nothing. |
| `Front.InsertFormulario` | app.py:95-101 | Binding a 64-bit user id, a date string and a waste type string, with status 'pendente', stores those values under their columns' affinities. |
| `Front.FormatarDataExemplo` | FrontEndPI/script.js:28-33 | "2025-11-15" becomes "15/11/2025". |
| `Front.Minusculas` | FrontEndPI/script.js:38 | Lower-casing keeps the length and lowers each character. |
| `Front.Contem` | FrontEndPI/script.js:39 | `includes` holds if and only if the substring occurs at some position. |
| `Front.EhPendente` | FrontEndPI/script.js:38-39 | A status is pending if and only if "pendente" occurs somewhere in its lower-cased text. |
| `Front.Pendentes` | FrontEndPI/script.js:187-190 | Every item on the pending list is pending. |
| `Front.Confirmados` | FrontEndPI/script.js:191-194 | Every item on the confirmed list is not pending. |
| `Front.Particao` | FrontEndPI/script.js:183-195 | The two lists together are a permutation of the listing, and their sizes add up to its length. |
| `Front.DistribuirAgendamentos` | FrontEndPI/script.js:163-216 | The listing completes if and only if every listed date is a string. It then builds exactly the pending and confirmed lists. Each counter equals the size of its list, and the counters add up to the number of items. Otherwise formatarData throws inside the forEach, both lists show the connection error and both counters stay 0. |
| `Front.InsertDataSete` | app.py:83-101 | A body whose data_retirada is the string "7" is accepted, and the row stores the integer 7 as its date. |
| `Front.DataNumericaInterrompeListagem` | app.py:141-152 | The listing of such a row returns its date as a number, so the front end cannot render the listing. |
| `Front.TextoJs` | FrontEndPI/script.js:44 | `String()` keeps a string and writes a number as its decimal text. |
| `Front.DataExibida` | FrontEndPI/script.js:44 | Formatting `String(data_retirada)` agrees with formatarData on string dates and keeps the length of the text. |
| `Front.DistribuirAgendamentosCorrigido` | FrontEndPI/script.js:183-195 | With the date passed through `String()`, the loop always completes. Every item lands in exactly one list, and the counters add up to the number of items. |
| `Front.ConfirmadoNaoPendente` | FrontEndPI/script.js:89 | 'Confirmado' is not classified pending. |
| `Front.AcaoConfirmar` | FrontEndPI/script.js:86-94 | The confirm button exists if and only if the item is pending. It always asks for 'Confirmado', which is not pending. |
| `Front.ConfirmarMudaDeClasse` | FrontEndPI/script.js:101-120 | Confirming an existing request through PUT changes one row. The row's stored status becomes 'Confirmado', so the request leaves the pending list. |
| `Front.DadosParaApi` | FrontEndPI/script.js:237-256 | The form is accepted if and only if these hold: the user id parses to a positive integer, the point id parses, and date, waste type and address are non-empty. The body then has exactly the five keys, plus `ponto_referencia` only when it is non-empty. Each key holds its form field: the parsed ids as integers, the other fields as strings. |
| `Front.FormularioAceito` | FrontEndPI/script.js:246-252 | For an accepted form whose user id is at most 2^63-1, the body is truthy and holds every required key. Its INSERT stores a pending row with the form's user, date and waste type. |
| `Front.FormularioIdGrande` | FrontEndPI/script.js:241-252 | An accepted form whose user id exceeds 2^63-1 still passes every check of criar_agendamento. Its INSERT raises OverflowError, which is not a sqlite3.Error, so no `except` clause catches it. |

## Left out

- Flask plumbing is not modelled: routing, `jsonify`, `abort`, `app.run`, `get_db_connection` and connection closing. A body that is not a JSON object, and the 415 that newer Flask versions raise for a non-JSON request, are also out. A handler receives the parsed body as an optional object.
- The `sqlite3.connect` failure at app.py:24-27 is not modelled, because opening the file is I/O.
- JSON numbers with a fractional part, and REAL values in general, are not modelled. Latitude and longitude are carried as opaque `real` values with no arithmetic.
- Sqlite.NumericAffinity: the model keeps three kinds of text as text, which SQLite converts:
  - text with surrounding whitespace;
  - real literals: SQLite stores one whose value is a 64-bit integer, such as "1.0" or "3.0e+5", as that INTEGER, and any other, such as "1.5", as REAL;
  - integer literals beyond 64 bits, which become REAL.
- Sqlite.NumericAffinity, effect on the join: a `usuario_id` of "1.0" joins user 1 in SQLite, but the model's Statements.Dono drops it from the listing.
- Sqlite.NumericAffinity, effect on the front end: a `data_retirada` such as "2025.0" is also stored as an integer (2025), and so is another input that breaks the listing in the finding below.
- Sqlite.UnsupportedType: the message follows CPython 3.12's wording. Older versions word it differently and number parameters from 0; every version still gives 500.
- The model has no foreign-key constraint. The connection never enables foreign keys, so an unknown `usuario_id` is accepted. `ON DELETE CASCADE` has no effect because no route deletes.
- setup_db.py's seeding is not modelled, because it is one-off I/O. The constructor takes any database state that satisfies the constraints.
- Front-end DOM updates, `fetch`, `confirm`, `setTimeout` and accordion handling are not modelled. The HTML text built by `criarItemAgendamento` is not modelled either.
- `parseInt`'s prefix parsing and JavaScript's double-precision numbers are not modelled. The form holds the already parsed optional integers.
- Front.Minusculas: "keeps the length" describes the model only. `toLowerCase` can lengthen a string (U+0130 becomes "i" and a combining dot), and the model lowers ASCII letters only, as the next line explains.
- Front.Minuscula: it lowers ASCII letters only. For the `includes('pendente')` test this agrees with `toLowerCase`, because the only non-ASCII characters that lower to ASCII letters lower to 'i' and 'k', and neither letter occurs in "pendente".
- Statements.SortDesc: SQL leaves the order among rows with equal dates unspecified. The model picks one, and its contract says only "sorted and a permutation".
- `ponto_coleta_id`, `endereco_coleta`, `ponto_referencia` and `nome_ponto_coleta` are sent by script.js but never read, stored or returned by app.py. They appear only in the front-end body. The `novo_agendamento` branch of script.js is not modelled, because app.py never sends that field.
- Statements.Insert: execute or commit can also fail with an OperationalError for a locked or read-only database or an I/O error (500 with the error envelope). That is file-system state, so it is not modelled. The contract's "if and only if" holds for a database that accepts the write.
- Statements.UpdateStatus: the same file-system failures are not modelled, for the same reason.
- Sqlite.Bind: a string holding a lone surrogate (such as "\ud800") cannot be encoded to UTF-8, and sqlite3 raises a UnicodeEncodeError. That is not a sqlite3.Error, so Flask answers 500 without the envelope, also on the PUT path for an unknown id. Strings are sequences of code points here, and this case is not modelled.
- Front.TextoJs: JSON numbers become JavaScript doubles, so `String()` is exact only up to 2^53 in magnitude. The model writes the exact integer.

## Findings

| source | as written | input that shows it | evidently intended | confidence | as-written member | corrected member |
|---|---|---|---|---|---|---|
| FrontEndPI/script.js:28-29 | `formatarData` calls `split` on `data_retirada`. app.py stores a date like "7" as the integer 7 under the column's NUMERIC affinity, and the listing returns it as a JSON number. `split` then throws inside the forEach, and the page shows the connection error instead of every request, with both counters at 0. | POST /agendamentos with {"usuario_id": 1, "data_retirada": "7", "tipo_lixo": "Papel"} for an existing user 1, then load the listing | Every listed request is shown and counted whatever its date's storage class, for example by formatting `String(data_retirada)` | not executed | `Front.DistribuirAgendamentos`, with `Front.InsertDataSete` and `Front.DataNumericaInterrompeListagem` | `Front.DistribuirAgendamentosCorrigido` |

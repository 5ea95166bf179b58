/**
  The pure helpers of FrontEndPI/script.js: the date formatter, the split of
  the listing into pending and confirmed requests with their counters, the
  confirm action, and the form check that builds the POST body.
*/
module Front {
  import opened Wrappers
  import opened Json
  import opened Sqlite
  import opened Schema
  import opened Statements
  import App

  /** `String.prototype.split` with a one-character separator. */
  function Split(s: string, sep: char): (parts: seq<string>)
    ensures |parts| >= 1
    ensures forall i :: 0 <= i < |parts| ==> sep !in parts[i]
    ensures JuntarPartes(parts, sep) == s
  {
    if s == [] then [""]
    else
      var rest := Split(s[1..], sep);
      if s[0] == sep then
        assert JuntarPartes([""] + rest, sep) == [sep] + JuntarPartes(rest, sep);
        [""] + rest
      else
        var parts := [[s[0]] + rest[0]] + rest[1..];
        assert parts[1..] == rest[1..];
        assert forall i :: 1 <= i < |parts| ==> parts[i] == rest[i];
        parts
  }

  /** The inverse of Split: the parts with the separator between them. */
  function JuntarPartes(parts: seq<string>, sep: char): string
    requires |parts| >= 1
  {
    if |parts| == 1 then parts[0] else parts[0] + [sep] + JuntarPartes(parts[1..], sep)
  }

  /** A piece without the separator, then the separator, splits off as the first part. */
  lemma {:induction false} SplitAfter(a: string, rest: string, sep: char)
    requires sep !in a
    ensures Split(a + [sep] + rest, sep) == [a] + Split(rest, sep)
  {
    if a != [] {
      assert (a + [sep] + rest)[1..] == a[1..] + [sep] + rest;
      SplitAfter(a[1..], rest, sep);
      assert [a[0]] + a[1..] == a;
    } else {
      assert ([sep] + rest)[1..] == rest;
    }
  }

  /** A string without the separator splits into itself alone. */
  lemma {:induction false} SplitWithout(a: string, sep: char)
    requires sep !in a
    ensures Split(a, sep) == [a]
  {
    if a != [] {
      SplitWithout(a[1..], sep);
      assert [a[0]] + a[1..] == a;
    }
  }

  /** Split gives one more part than there are separators. */
  lemma {:induction false} SplitLength(s: string, sep: char)
    ensures |Split(s, sep)| == multiset(s)[sep] + 1
  {
    if s != [] {
      SplitLength(s[1..], sep);
      assert s == [s[0]] + s[1..];
      assert multiset(s) == multiset{s[0]} + multiset(s[1..]);
    }
  }

  /** formatarData: "YYYY-MM-DD" becomes "DD/MM/YYYY"; any other shape is returned as it is. */
  function FormatarData(dataStr: string): (r: string)
    ensures |r| == |dataStr|
    ensures r == dataStr || '-' !in r
  {
    var partes := Split(dataStr, '-');
    if |partes| == 3 then
      assert dataStr == partes[0] + ['-'] + (partes[1] + ['-'] + partes[2]) by {
        assert JuntarPartes(partes[1..], '-') == partes[1] + ['-'] + JuntarPartes(partes[2..], '-');
      }
      partes[2] + "/" + partes[1] + "/" + partes[0]
    else dataStr
  }

  /**
    formatarData applied to the `data_retirada` of a listed row: a JSON string
    is formatted; a JSON number has no `split`, so the call throws a TypeError
    (None).
  */
  function FormatarDataValor(v: Scalar): (r: Option<string>)
    ensures r.Some? <==> v.SText?
    ensures r.Some? ==> r.value == FormatarData(v.s)
  {
    match v
    case SText(s) => Some(FormatarData(s))
    case SInt(_) => None
  }

  /** Three '-'-free parts joined by '-' come back in reverse order, joined by '/'. */
  lemma FormatarDataTresPartes(a: string, b: string, c: string)
    requires '-' !in a && '-' !in b && '-' !in c
    ensures FormatarData(a + "-" + b + "-" + c) == c + "/" + b + "/" + a
  {
    SplitWithout(c, '-');
    SplitAfter(b, c, '-');
    assert b + "-" + c == b + ['-'] + c;
    SplitAfter(a, b + "-" + c, '-');
    assert a + "-" + b + "-" + c == a + ['-'] + (b + "-" + c);
  }

  /** The output of a reformatting never holds a '-'. */
  lemma FormatarDataSemHifen(s: string)
    requires |Split(s, '-')| == 3
    ensures '-' !in FormatarData(s)
  {
    var p := Split(s, '-');
    assert '-' !in p[0] && '-' !in p[1] && '-' !in p[2];
  }

  /** formatarData changes its input exactly when the input holds two '-'. */
  lemma FormatarDataMuda(s: string)
    ensures FormatarData(s) != s <==> multiset(s)['-'] == 2
  {
    SplitLength(s, '-');
    if multiset(s)['-'] == 2 {
      FormatarDataSemHifen(s);
      assert '-' in s;
    }
  }

  /** Formatting twice is formatting once. */
  lemma FormatarDataIdempotente(s: string)
    ensures FormatarData(FormatarData(s)) == FormatarData(s)
  {
    var t := FormatarData(s);
    if |Split(s, '-')| == 3 {
      FormatarDataSemHifen(s);
      SplitWithout(t, '-');
    }
  }

  /** `toLowerCase` on the ASCII letters; every other character is kept. */
  function Minuscula(c: char): char
  {
    if 'A' <= c <= 'Z' then (c as int + 32) as char else c
  }

  function Minusculas(s: string): (r: string)
    ensures |r| == |s|
    ensures forall i :: 0 <= i < |s| ==> r[i] == Minuscula(s[i])
  {
    if s == [] then [] else [Minuscula(s[0])] + Minusculas(s[1..])
  }

  /** `String.prototype.includes`. */
  predicate Contem(s: string, sub: string): (b: bool)
    decreases |s|
    ensures b <==> exists i :: OcorreEm(s, sub, i)
  {
    if |s| < |sub| then false
    else if s[..|sub|] == sub then assert OcorreEm(s, sub, 0); true
    else if s == [] then false
    else OcorreDesloca(s, sub); Contem(s[1..], sub)
  }

  /** `sub` occurs in `s` starting at position i. */
  ghost predicate OcorreEm(s: string, sub: string, i: int)
  {
    0 <= i && i + |sub| <= |s| && s[i..i + |sub|] == sub
  }

  /** When `sub` does not start `s`, it occurs in `s` exactly when it occurs in `s[1..]`. */
  lemma OcorreDesloca(s: string, sub: string)
    requires |s| >= |sub| && s != [] && s[..|sub|] != sub
    ensures (exists i :: OcorreEm(s, sub, i)) <==> (exists i :: OcorreEm(s[1..], sub, i))
  {
    if exists i :: OcorreEm(s, sub, i) {
      var i :| OcorreEm(s, sub, i);
      assert i != 0;
      assert s[1..][i - 1..i - 1 + |sub|] == s[i..i + |sub|];
      assert OcorreEm(s[1..], sub, i - 1);
    }
    if exists i :: OcorreEm(s[1..], sub, i) {
      var i :| OcorreEm(s[1..], sub, i);
      assert s[i + 1..i + 1 + |sub|] == s[1..][i..i + |sub|];
      assert OcorreEm(s, sub, i + 1);
    }
  }

  /** `statusLower.includes('pendente')`: the test both the list split and the confirm button use. */
  predicate EhPendente(status: string): (b: bool)
    ensures b <==> exists i :: OcorreEm(Minusculas(status), MarcaPendente, i)
  {
    var s := Minusculas(status);
    var r := Contem(s, MarcaPendente);
    assert r ==> exists i :: OcorreEm(Minusculas(status), MarcaPendente, i) by {
      if r {
        var i :| OcorreEm(s, MarcaPendente, i);
        assert OcorreEm(Minusculas(status), MarcaPendente, i);
      }
    }
    assert (exists i :: OcorreEm(Minusculas(status), MarcaPendente, i)) ==> r by {
      if exists i :: OcorreEm(Minusculas(status), MarcaPendente, i) {
        var i :| OcorreEm(Minusculas(status), MarcaPendente, i);
        assert OcorreEm(s, MarcaPendente, i);
      }
    }
    r
  }

  /** The word the status test looks for. */
  const MarcaPendente: string := "pendente"

  /** The items that go to the pending list, in listing order. */
  function Pendentes(itens: seq<Linha>): (r: seq<Linha>)
    ensures forall i :: 0 <= i < |r| ==> EhPendente(r[i].status)
  {
    if itens == [] then []
    else
      var last := itens[|itens| - 1];
      Pendentes(itens[..|itens| - 1]) + (if EhPendente(last.status) then [last] else [])
  }

  /** The items that go to the confirmed list: every one that is not pending. */
  function Confirmados(itens: seq<Linha>): (r: seq<Linha>)
    ensures forall i :: 0 <= i < |r| ==> !EhPendente(r[i].status)
  {
    if itens == [] then []
    else
      var last := itens[|itens| - 1];
      Confirmados(itens[..|itens| - 1]) + (if EhPendente(last.status) then [] else [last])
  }

  /** The two lists partition the listing: every item lands in exactly one of them. */
  lemma {:induction false} Particao(itens: seq<Linha>)
    ensures multiset(Pendentes(itens)) + multiset(Confirmados(itens)) == multiset(itens)
    ensures |Pendentes(itens)| + |Confirmados(itens)| == |itens|
  {
    if itens != [] {
      var init, last := itens[..|itens| - 1], itens[|itens| - 1];
      Particao(init);
      assert multiset(itens) == multiset(init) + multiset{last} by {
        assert itens == init + [last];
      }
      if EhPendente(last.status) {
        assert Pendentes(itens) == Pendentes(init) + [last];
        assert Confirmados(itens) == Confirmados(init);
      } else {
        assert Pendentes(itens) == Pendentes(init);
        assert Confirmados(itens) == Confirmados(init) + [last];
      }
    }
  }

  /** Every listed row's date is a JSON string, so formatarData can split it. */
  predicate DatasTexto(dados: seq<Linha>)
  {
    forall i :: 0 <= i < |dados| ==> dados[i].dataRetirada.SText?
  }

  /**
    The forEach of listarAgendamentos, as written: each item is first rendered
    by criarItemAgendamento, whose formatarData throws on a numeric date; the
    exception leaves the forEach, the catch puts the connection-error text in
    both lists and the counters keep the '0' they were reset to (ok is false,
    the lists are empty and the counters 0). Otherwise each item is appended
    to the list its status selects and that list's counter is incremented.
  */
  method DistribuirAgendamentos(dados: seq<Linha>)
    returns (ok: bool, pendentes: seq<Linha>, confirmados: seq<Linha>, pendentesCount: nat, confirmadosCount: nat)
    ensures ok <==> DatasTexto(dados)
    ensures ok ==> pendentes == Pendentes(dados) && confirmados == Confirmados(dados)
    ensures ok ==> pendentesCount == |pendentes| && confirmadosCount == |confirmados|
    ensures ok ==> pendentesCount + confirmadosCount == |dados|
    ensures !ok ==> pendentes == [] && confirmados == [] && pendentesCount == 0 && confirmadosCount == 0
  {
    pendentes, confirmados := [], [];
    pendentesCount, confirmadosCount := 0, 0;
    var i := 0;
    while i < |dados|
      invariant 0 <= i <= |dados|
      invariant DatasTexto(dados[..i])
      invariant pendentes == Pendentes(dados[..i]) && confirmados == Confirmados(dados[..i])
      invariant pendentesCount == |pendentes| && confirmadosCount == |confirmados|
    {
      var agendamento := dados[i];
      var data := FormatarDataValor(agendamento.dataRetirada);
      if data.None? {
        assert !DatasTexto(dados) by {
          assert !dados[i].dataRetirada.SText?;
        }
        ok := false;
        pendentes, confirmados := [], [];
        pendentesCount, confirmadosCount := 0, 0;
        return;
      }
      assert dados[..i + 1] == dados[..i] + [agendamento];
      assert dados[..i + 1][..i] == dados[..i];
      if EhPendente(agendamento.status) {
        pendentes := pendentes + [agendamento];
        pendentesCount := pendentesCount + 1;
      } else {
        confirmados := confirmados + [agendamento];
        confirmadosCount := confirmadosCount + 1;
      }
      i := i + 1;
    }
    assert dados[..i] == dados;
    Particao(dados);
    ok := true;
  }

  /**
    `String(v)` of a JSON scalar: a number becomes its decimal text. Exact for
    the integers a JavaScript number holds (at most 2^53 in magnitude).
  */
  function TextoJs(v: Scalar): (r: string)
    ensures v.SText? ==> r == v.s
    ensures v.SInt? ==> r == Decimal(v.i)
  {
    match v
    case SText(s) => s
    case SInt(i) => Decimal(i)
  }

  /** The date an item shows once formatarData is given `String(data_retirada)`. */
  function DataExibida(v: Scalar): (r: string)
    ensures v.SText? ==> Some(r) == FormatarDataValor(v)
    ensures |r| == |TextoJs(v)|
  {
    FormatarData(TextoJs(v))
  }

  /**
    The forEach with the date passed through `String()` first: rendering an
    item can no longer throw, so every listed item lands in exactly one list
    and the counters add up to the number of items.
  */
  method DistribuirAgendamentosCorrigido(dados: seq<Linha>)
    returns (pendentes: seq<Linha>, confirmados: seq<Linha>, pendentesCount: nat, confirmadosCount: nat)
    ensures pendentes == Pendentes(dados) && confirmados == Confirmados(dados)
    ensures pendentesCount == |pendentes| && confirmadosCount == |confirmados|
    ensures pendentesCount + confirmadosCount == |dados|
    ensures multiset(pendentes) + multiset(confirmados) == multiset(dados)
  {
    pendentes, confirmados := [], [];
    pendentesCount, confirmadosCount := 0, 0;
    var i := 0;
    while i < |dados|
      invariant 0 <= i <= |dados|
      invariant pendentes == Pendentes(dados[..i]) && confirmados == Confirmados(dados[..i])
      invariant pendentesCount == |pendentes| && confirmadosCount == |confirmados|
    {
      var agendamento := dados[i];
      var data := DataExibida(agendamento.dataRetirada);
      assert dados[..i + 1][..i] == dados[..i];
      if EhPendente(agendamento.status) {
        pendentes := pendentes + [agendamento];
        pendentesCount := pendentesCount + 1;
      } else {
        confirmados := confirmados + [agendamento];
        confirmadosCount := confirmadosCount + 1;
      }
      i := i + 1;
    }
    assert dados[..i] == dados;
    Particao(dados);
  }

  /** The parameters of criar_agendamento for a body whose data_retirada is the string "7". */
  const ParametrosDataSete: seq<Value> := [Int(1), Str("7"), Str("Papel"), Str(App.StatusInicial)]

  /**
    The INSERT accepts those parameters and, under the NUMERIC affinity of
    data_retirada, stores the integer 7.
  */
  lemma InsertDataSete()
    ensures Insert(ParametrosDataSete, 0) == Ok(Agendamento(SInt(1), SInt(7), "Papel", App.StatusInicial))
  {
    var p := ParametrosDataSete;
    assert LiteralOf("7", 7) by {
      assert "7"[0] == '7';
      assert "7"[..0] == [];
    }
    assert IntegerLiteral("7") == Some(7);
    assert Bind(p[0], 1) == Ok(Some(SInt(1)));
    assert Bind(p[1], 2) == Ok(Some(SText("7")));
    assert Bind(p[2], 3) == Ok(Some(SText("Papel")));
    assert Bind(p[3], 4) == Ok(Some(SText(App.StatusInicial)));
    assert forall k :: 0 <= k < 4 ==> Bind(p[k], k + 1).Ok? && !p[k].Null?;
  }

  /**
    The listing of that stored request returns its date as a JSON number, so
    it is not a listing formatarData can render: listarAgendamentos shows the
    connection-error text instead of the requests.
  */
  lemma DataNumericaInterrompeListagem(usuarios: map<int, Usuario>)
    requires 1 in usuarios
    ensures var a := Agendamento(SInt(1), SInt(7), "Papel", App.StatusInicial);
            var rows := Select(map[1 := a], usuarios, 1);
            |rows| == 1 && rows[0].dataRetirada == SInt(7) && !DatasTexto(rows)
  {
    var a := Agendamento(SInt(1), SInt(7), "Papel", App.StatusInicial);
    var m := map[1 := a];
    var joined := Join(m, usuarios, 1);
    assert Join(m, usuarios, 0) == [];
    assert joined == [LinhaDe(1, a, usuarios[1])];
    var rows := Select(m, usuarios, 1);
    assert multiset(rows) == multiset(joined);
    assert |rows| == 1 by {
      assert |multiset(rows)| == |rows|;
      assert |multiset(joined)| == |joined|;
    }
    assert rows[0] in multiset(joined);
  }

  /** The status the confirm button asks for. */
  const Confirmado: string := "Confirmado"

  lemma ConfirmadoNaoPendente()
    ensures !EhPendente(Confirmado)
  {
    var s := Minusculas(Confirmado);
    assert forall i :: 0 <= i < |s| ==> s[i] == "confirmado"[i];
    assert s == "confirmado";
    assert s[..8] != "pendente" by { assert s[..8][0] == 'c'; }
    assert s[1..][..8] != "pendente" by { assert s[1..][..8][0] == 'o'; }
    assert s[2..][..8] != "pendente" by { assert s[2..][..8][0] == 'n'; }
    assert |s[3..]| < 8;
  }

  /** The confirm button of criarItemAgendamento: present only for a pending item. */
  function AcaoConfirmar(item: Linha): (r: Option<(int, string)>)
    ensures r.Some? <==> EhPendente(item.status)
    ensures r.Some? ==> r.value == (item.id, Confirmado) && !EhPendente(r.value.1)
  {
    ConfirmadoNaoPendente();
    if EhPendente(item.status) then Some((item.id, Confirmado)) else None
  }

  /**
    Confirming an existing request through the PUT route stores 'Confirmado',
    so the request moves from the pending list to the confirmed one.
  */
  lemma ConfirmarMudaDeClasse(agendamentos: map<int, Agendamento>, id: nat)
    requires id in agendamentos && id <= MaxInt64
    ensures var r := UpdateStatus(agendamentos, Str(Confirmado), id);
            && r.Ok? && r.value.1 == 1
            && r.value.0[id].status == Confirmado
            && !EhPendente(r.value.0[id].status)
  {
    ConfirmadoNaoPendente();
    assert Bind(Str(Confirmado), 1) == Ok(Some(SText(Confirmado)));
  }

  /**
    The form fields of handleAgendamento; the two ids are what `parseInt`
    gave, None standing for NaN.
  */
  datatype Formulario = Formulario(
    usuarioId: Option<int>,
    pontoColetaId: Option<int>,
    tipoLixo: string,
    dataRetirada: string,
    enderecoColeta: string,
    pontoReferencia: string)

  /** The keys every accepted form sends. */
  const ChavesEnviadas: set<string> :=
    {"usuario_id", "ponto_coleta_id", "data_retirada", "tipo_lixo", "endereco_coleta"}

  /**
    handleAgendamento's check and the body it builds: None when the form is
    rejected. `ponto_referencia` is sent only when it is not empty.
  */
  function DadosParaApi(f: Formulario): (r: Option<Object>)
    ensures r.Some? <==>
              && f.usuarioId.Some? && f.usuarioId.value > 0
              && f.pontoColetaId.Some?
              && f.dataRetirada != [] && f.tipoLixo != [] && f.enderecoColeta != []
    ensures r.Some? ==> r.value.Keys == ChavesEnviadas + (if f.pontoReferencia != [] then {"ponto_referencia"} else {})
    ensures r.Some? ==> r.value["usuario_id"] == Int(f.usuarioId.value)
                        && r.value["data_retirada"] == Str(f.dataRetirada)
                        && r.value["tipo_lixo"] == Str(f.tipoLixo)
    ensures r.Some? ==> r.value["ponto_coleta_id"] == Int(f.pontoColetaId.value)
                        && r.value["endereco_coleta"] == Str(f.enderecoColeta)
    ensures r.Some? && f.pontoReferencia != [] ==> r.value["ponto_referencia"] == Str(f.pontoReferencia)
  {
    if f.usuarioId.None? || f.usuarioId.value <= 0 || f.dataRetirada == [] || f.tipoLixo == []
       || f.enderecoColeta == [] || f.pontoColetaId.None? then
      None
    else
      var dados := map[
        "usuario_id" := Int(f.usuarioId.value),
        "ponto_coleta_id" := Int(f.pontoColetaId.value),
        "data_retirada" := Str(f.dataRetirada),
        "tipo_lixo" := Str(f.tipoLixo),
        "endereco_coleta" := Str(f.enderecoColeta)];
      Some(if f.pontoReferencia != [] then dados["ponto_referencia" := Str(f.pontoReferencia)] else dados)
  }

  /**
    A body the form accepts passes every check of criar_agendamento: it is
    not empty, it holds every required key, and the INSERT stores a pending
    row with the form's user, date and waste type.
  */
  lemma FormularioAceito(f: Formulario, sequencia: nat)
    requires DadosParaApi(f).Some?
    requires f.usuarioId.value <= MaxInt64 && sequencia < MaxInt64
    ensures var dados := DadosParaApi(f).value;
            && Truthy(DadosParaApi(f))
            && App.PrimeiroAusente(dados, App.CamposObrigatorios).None?
            && Insert(App.ParametrosInsert(dados), sequencia)
               == Ok(Agendamento(SInt(f.usuarioId.value), NumericAffinity(SText(f.dataRetirada)),
                                 f.tipoLixo, App.StatusInicial))
  {
    var dados := DadosParaApi(f).value;
    assert "usuario_id" in dados;
    assert forall k :: 0 <= k < |App.CamposObrigatorios| ==> App.CamposObrigatorios[k] in dados;
    var params := App.ParametrosInsert(dados);
    assert params == [Int(f.usuarioId.value), Str(f.dataRetirada), Str(f.tipoLixo), Str(App.StatusInicial)];
    InsertFormulario(f.usuarioId.value, f.dataRetirada, f.tipoLixo, sequencia);
  }

  /**
    The form does not bound the user id: an accepted form whose id lies
    beyond 64 bits passes every check of criar_agendamento, but binding the
    id raises OverflowError, which neither `except` clause catches.
  */
  lemma FormularioIdGrande(f: Formulario, sequencia: nat)
    requires DadosParaApi(f).Some? && f.usuarioId.value > MaxInt64
    ensures var dados := DadosParaApi(f).value;
            && Truthy(DadosParaApi(f))
            && App.PrimeiroAusente(dados, App.CamposObrigatorios).None?
            && Insert(App.ParametrosInsert(dados), sequencia) == Err(OverflowError)
            && !IsSqliteError(OverflowError)
  {
    var dados := DadosParaApi(f).value;
    assert "usuario_id" in dados;
    assert forall k :: 0 <= k < |App.CamposObrigatorios| ==> App.CamposObrigatorios[k] in dados;
    var params := App.ParametrosInsert(dados);
    assert params[0] == Int(f.usuarioId.value);
    assert Bind(params[0], 1) == Err(OverflowError);
    assert BindAll(params) == Err(OverflowError);
  }

  /** The INSERT of a form's user, date and waste type stores a pending row. */
  lemma InsertFormulario(usuarioId: int, data: string, tipo: string, sequencia: nat)
    requires InInt64(usuarioId) && sequencia < MaxInt64
    ensures Insert([Int(usuarioId), Str(data), Str(tipo), Str(App.StatusInicial)], sequencia)
            == Ok(Agendamento(SInt(usuarioId), NumericAffinity(SText(data)), tipo, App.StatusInicial))
  {
    var params := [Int(usuarioId), Str(data), Str(tipo), Str(App.StatusInicial)];
    assert Bind(params[0], 1) == Ok(Some(SInt(usuarioId)));
    assert forall k :: 1 <= k < 4 ==> Bind(params[k], k + 1) == Ok(Some(SText(params[k].s)));
  }

  /** formatarData on the date of setup_db.py's first seed row. */
  lemma FormatarDataExemplo()
    ensures FormatarData("2025-11-15") == "15/11/2025"
  {
    var a, b, c := "2025", "11", "15";
    assert '-' !in a && '-' !in b && '-' !in c;
    FormatarDataTresPartes(a, b, c);
    assert a + "-" + b + "-" + c == "2025-11-15";
    assert c + "/" + b + "/" + a == "15/11/2025";
  }
}

/**
  The part of SQLite and of Python's sqlite3 module that the statements of
  app.py depend on: binding Python values to statement parameters, the
  INTEGER and TEXT storage classes, column affinity, the BINARY ordering used
  by ORDER BY, and the exception classes a failed statement raises.
*/
module Sqlite {
  import opened Wrappers
  import opened Json

  const MinInt64: int := -0x8000_0000_0000_0000
  const MaxInt64: int := 0x7FFF_FFFF_FFFF_FFFF

  predicate InInt64(i: int)
  {
    MinInt64 <= i <= MaxInt64
  }

  /** A non-NULL stored value: SQLite's INTEGER and TEXT storage classes. */
  datatype Scalar = SInt(i: int) | SText(s: string)

  /** What executing a statement can raise in Python. */
  datatype Exception =
    | IntegrityError(detail: string)     // sqlite3.IntegrityError (a constraint failed)
    | ProgrammingError(detail: string)   // sqlite3.ProgrammingError (a parameter cannot be bound)
    | OperationalError(detail: string)   // sqlite3.OperationalError (e.g. SQLITE_FULL)
    | OverflowError                      // Python's OverflowError: an int outside 64 bits

  /** True for the subclasses of sqlite3.Error, which the handlers catch. */
  predicate IsSqliteError(e: Exception)
  {
    !e.OverflowError?
  }

  function UnsupportedType(position: nat, typeName: string): (e: Exception)
    ensures e.ProgrammingError?
  {
    ProgrammingError("Error binding parameter " + Digits(position) + ": type '" + typeName + "' is not supported")
  }

  /**
    Binding one parameter at a 1-based position: None stands for SQL NULL.
    A bool binds as the integer 0 or 1, because Python's bool is an int.
  */
  function Bind(v: Value, position: nat): (r: Result<Option<Scalar>, Exception>)
    ensures r == Ok(None) <==> v.Null?
    ensures r.Err? <==> v.Arr? || v.Obj? || (v.Int? && !InInt64(v.i))
    ensures r.Ok? && r.value.Some? && r.value.value.SInt? ==> InInt64(r.value.value.i)
    ensures v.Str? ==> r == Ok(Some(SText(v.s)))
    ensures v.Bool? ==> r == Ok(Some(SInt(if v.b then 1 else 0)))
    ensures v.Int? && InInt64(v.i) ==> r == Ok(Some(SInt(v.i)))
    ensures v.Int? && !InInt64(v.i) ==> r == Err(OverflowError) && !IsSqliteError(r.error)
    ensures v.Arr? ==> r == Err(UnsupportedType(position, "list")) && IsSqliteError(r.error)
    ensures v.Obj? ==> r == Err(UnsupportedType(position, "dict")) && IsSqliteError(r.error)
  {
    match v
    case Null => Ok(None)
    case Bool(b) => Ok(Some(SInt(if b then 1 else 0)))
    case Int(i) => if InInt64(i) then Ok(Some(SInt(i))) else Err(OverflowError)
    case Str(s) => Ok(Some(SText(s)))
    case Arr(_) => Err(UnsupportedType(position, "list"))
    case Obj(_) => Err(UnsupportedType(position, "dict"))
  }

  /**
    Binding params[k..] at positions k+1, k+2, ...: the first parameter that
    cannot be bound decides the exception.
  */
  function BindFrom(params: seq<Value>, k: nat): (r: Result<seq<Option<Scalar>>, Exception>)
    requires k <= |params|
    decreases |params| - k
    ensures r.Ok? <==> forall j :: k <= j < |params| ==> Bind(params[j], j + 1).Ok?
    ensures r.Ok? ==> |r.value| == |params| - k
    ensures r.Ok? ==> forall j :: k <= j < |params| ==> Bind(params[j], j + 1) == Ok(r.value[j - k])
    ensures r.Err? ==> exists j :: k <= j < |params| && Bind(params[j], j + 1) == Err(r.error)
                                   && forall i :: k <= i < j ==> Bind(params[i], i + 1).Ok?
  {
    if k == |params| then Ok([])
    else
      match Bind(params[k], k + 1)
      case Err(e) => Err(e)
      case Ok(b) =>
        match BindFrom(params, k + 1)
        case Err(e) => Err(e)
        case Ok(bs) => Ok([b] + bs)
  }

  function BindAll(params: seq<Value>): Result<seq<Option<Scalar>>, Exception>
  {
    BindFrom(params, 0)
  }

  /** The text a TEXT-affinity column stores: an integer becomes its decimal text. */
  function TextAffinity(v: Scalar): (r: string)
    ensures v.SText? ==> r == v.s
    ensures v.SInt? && InInt64(v.i) ==> IntegerLiteral(r) == Some(v.i)
  {
    match v
    case SInt(i) =>
      if InInt64(i) then DecimalIsIntegerLiteral(i); Decimal(i) else Decimal(i)
    case SText(s) => s
  }

  /**
    The integer a well-formed integer literal denotes: an optional sign and at
    least one decimal digit, within 64 bits.
  */
  function IntegerLiteral(s: string): (r: Option<int>)
    ensures r.Some? ==> InInt64(r.value) && LiteralOf(s, r.value)
    ensures forall i :: LiteralOf(s, i) && InInt64(i) ==> r == Some(i)
  {
    var signed := |s| > 0 && (s[0] == '-' || s[0] == '+');
    var body := if signed then s[1..] else s;
    if body != [] && forall k :: 0 <= k < |body| ==> IsDigit(body[k]) then
      var n: int := DigitsValue(body);
      var i := if signed && s[0] == '-' then -n else n;
      if InInt64(i) then Some(i) else None
    else None
  }

  /**
    `s` is a decimal literal of `i`: digits only, or a '+' or '-' followed by
    at least one digit.
  */
  ghost predicate LiteralOf(s: string, i: int)
  {
    || (|s| >= 1 && (forall k :: 0 <= k < |s| ==> IsDigit(s[k])) && i == DigitsValue(s))
    || (|s| >= 2 && s[0] == '+' && (forall k :: 1 <= k < |s| ==> IsDigit(s[k]))
        && i == DigitsValue(s[1..]))
    || (|s| >= 2 && s[0] == '-' && (forall k :: 1 <= k < |s| ==> IsDigit(s[k]))
        && i == -(DigitsValue(s[1..]) as int))
  }

  /**
    What an INTEGER- or NUMERIC-affinity column stores: text that is a
    well-formed integer literal becomes an integer; other text stays text.
  */
  function NumericAffinity(v: Scalar): (r: Scalar)
    ensures v.SInt? ==> r == v
    ensures r.SText? ==> r == v
    ensures v.SText? && IntegerLiteral(v.s).Some? ==> r == SInt(IntegerLiteral(v.s).value)
    ensures v.SText? && IntegerLiteral(v.s).None? ==> r == v
  {
    match v
    case SInt(_) => v
    case SText(s) =>
      match IntegerLiteral(s)
      case Some(i) => SInt(i)
      case None => v
  }

  /** The decimal text of a 64-bit integer is read back as that integer. */
  lemma DecimalIsIntegerLiteral(i: int)
    requires InInt64(i)
    ensures IntegerLiteral(Decimal(i)) == Some(i)
  {
    var s := Decimal(i);
    var n: nat := if i < 0 then -i else i;
    var body := Digits(n);
    DigitsRoundTrip(n);
    if i < 0 {
      assert s == "-" + body;
      assert s[1..] == body;
    } else {
      assert s == body;
      assert IsDigit(s[0]);
    }
  }

  /** So an integer stored as text by a TEXT column converts back under NUMERIC affinity. */
  lemma AffinityRoundTrip(i: int)
    requires InInt64(i)
    ensures NumericAffinity(SText(TextAffinity(SInt(i)))) == SInt(i)
  {
  }

  /** The BINARY collation: memcmp on UTF-8, which is code-point order. */
  predicate TextBelow(s: string, t: string): (b: bool)
    decreases |s|
    ensures b <==> LexBelow(s, t)
  {
    if s == [] then t != []
    else if t == [] then false
    else if s[0] != t[0] then HeadDiffers(s, t); s[0] < t[0]
    else ShiftLexicographic(s, t); TextBelow(s[1..], t[1..])
  }

  /** `s` and `t` agree before position k and differ at it. */
  ghost predicate DiffersFirstAt(s: string, t: string, k: int)
  {
    0 <= k < |s| && k < |t| && s[..k] == t[..k] && s[k] != t[k]
  }

  /**
    Lexicographic order: `s` is a proper prefix of `t`, or at the first
    position where they differ, `s` has the smaller character.
  */
  ghost predicate LexBelow(s: string, t: string)
  {
    || (|s| < |t| && s == t[..|s|])
    || exists k :: DiffersFirstAt(s, t, k) && s[k] < t[k]
  }

  lemma HeadDiffers(s: string, t: string)
    requires s != [] && t != [] && s[0] != t[0]
    ensures LexBelow(s, t) <==> s[0] < t[0]
  {
    assert DiffersFirstAt(s, t, 0);
  }

  lemma ShiftLexicographic(s: string, t: string)
    requires s != [] && t != [] && s[0] == t[0]
    ensures LexBelow(s, t) <==> LexBelow(s[1..], t[1..])
  {
    var s', t' := s[1..], t[1..];
    if |s| < |t| && s == t[..|s|] {
      assert s' == t'[..|s'|];
    }
    if |s'| < |t'| && s' == t'[..|s'|] {
      assert s == [s[0]] + s' && t[..|s|] == [t[0]] + t'[..|s'|];
    }
    forall k | DiffersFirstAt(s, t, k) && s[k] < t[k]
      ensures DiffersFirstAt(s', t', k - 1) && s'[k - 1] < t'[k - 1]
    {
      assert k != 0;
      assert s'[..k - 1] == s[..k][1..] && t'[..k - 1] == t[..k][1..];
    }
    forall k | DiffersFirstAt(s', t', k) && s'[k] < t'[k]
      ensures DiffersFirstAt(s, t, k + 1) && s[k + 1] < t[k + 1]
    {
      assert s[..k + 1] == [s[0]] + s'[..k] && t[..k + 1] == [t[0]] + t'[..k];
    }
  }

  /** ORDER BY's strict order on non-NULL values: every INTEGER sorts before every TEXT. */
  predicate Below(a: Scalar, b: Scalar): (r: bool)
    ensures a.SInt? && b.SText? ==> r
    ensures a.SText? && b.SInt? ==> !r
    ensures a.SInt? && b.SInt? ==> (r <==> a.i < b.i)
    ensures a.SText? && b.SText? ==> (r <==> LexBelow(a.s, b.s))
  {
    match (a, b)
    case (SInt(x), SInt(y)) => x < y
    case (SInt(_), SText(_)) => true
    case (SText(_), SInt(_)) => false
    case (SText(s), SText(t)) => TextBelow(s, t)
  }

  lemma {:induction false} TextBelowTrichotomy(s: string, t: string)
    ensures s == t || TextBelow(s, t) || TextBelow(t, s)
    ensures !(TextBelow(s, t) && TextBelow(t, s))
    ensures !TextBelow(s, s)
    decreases |s|
  {
    if s != [] {
      TextBelowTrichotomy(s[1..], s[1..]);
    }
    if s != [] && t != [] {
      TextBelowTrichotomy(s[1..], t[1..]);
      if s[0] == t[0] && s[1..] == t[1..] {
        assert s == [s[0]] + s[1..] && t == [t[0]] + t[1..];
      }
    }
  }

  lemma {:induction false} TextBelowTransitive(s: string, t: string, u: string)
    requires TextBelow(s, t) && TextBelow(t, u)
    ensures TextBelow(s, u)
    decreases |s|
  {
    if s != [] && s[0] == t[0] && t[0] == u[0] {
      TextBelowTransitive(s[1..], t[1..], u[1..]);
    }
  }

  /** Below is a strict total order. */
  lemma BelowTrichotomy(a: Scalar, b: Scalar)
    ensures a == b || Below(a, b) || Below(b, a)
    ensures !(Below(a, b) && Below(b, a))
  {
    if a.SText? && b.SText? {
      TextBelowTrichotomy(a.s, b.s);
    }
  }

  lemma BelowTransitive(a: Scalar, b: Scalar, c: Scalar)
    requires Below(a, b) && Below(b, c)
    ensures Below(a, c)
  {
    if a.SText? && b.SText? && c.SText? {
      TextBelowTransitive(a.s, b.s, c.s);
    }
  }

  /** "Not below" (at least) is transitive, which a sorted-descending proof needs. */
  lemma AtLeastTransitive(a: Scalar, b: Scalar, c: Scalar)
    requires !Below(a, b) && !Below(b, c)
    ensures !Below(a, c)
  {
    BelowTrichotomy(a, b);
    BelowTrichotomy(b, c);
    BelowTrichotomy(a, c);
    if Below(a, c) {
      if a != b {
        BelowTransitive(b, a, c);
      }
    }
  }
}

/**
 * The value objects of an event: single-field dataclasses whose `__post_init__` validates the
 * value they wrap and raises ValueError when it is unacceptable.
 */
module EventsArgs {
  import opened Wrappers
  import opened Exceptions
  import opened DateTimes

  /** The dynamically typed Python values a caller may pass to a value object. */
  datatype PyValue =
    | PyNone
    | PyBool(b: bool)
    | PyInt(i: int)
    | PyFloat(f: real)
    | PyStr(s: string)
    | PyList(items: seq<PyValue>)
    | PyDateTime(dt: DateTime)

  /** `type(v)`: the exact runtime type. `bool` is its own type, not `int`. */
  datatype PyType = NoneType | BoolType | IntType | FloatType | StrType | ListType | DateTimeType

  function TypeOf(v: PyValue): PyType {
    match v
    case PyNone => NoneType
    case PyBool(_) => BoolType
    case PyInt(_) => IntType
    case PyFloat(_) => FloatType
    case PyStr(_) => StrType
    case PyList(_) => ListType
    case PyDateTime(_) => DateTimeType
  }

  /** One dataclass field: its name, its annotated type and the value it holds. */
  datatype Field = Field(name: string, declared: PyType, value: PyValue)

  predicate HasDeclaredType(f: Field) {
    TypeOf(f.value) == f.declared
  }

  /** What `type_validator` is documented to check: every field holds a value of its annotated type. */
  predicate AllFieldsTyped(fields: seq<Field>) {
    forall i :: 0 <= i < |fields| ==> HasDeclaredType(fields[i])
  }

  /**
   * `BaseVO.type_validator` as written: the loop only records the type of each field's value and the
   * comparison sits after the loop, so just the last field is compared with its annotation; with no
   * fields the comparison reads an unassigned local.
   */
  method TypeValidator(fields: seq<Field>) returns (r: Result<bool, Error>)
    ensures fields == [] ==> r == Err(UnboundLocalError)
    ensures fields != [] ==> r == Ok(HasDeclaredType(fields[|fields| - 1]))
  {
    var actualType: Option<PyType> := None;
    var fieldDef: Option<Field> := None;
    for i := 0 to |fields|
      invariant i == 0 ==> actualType == None && fieldDef == None
      invariant i > 0 ==> fieldDef == Some(fields[i - 1]) && actualType == Some(TypeOf(fields[i - 1].value))
    {
      fieldDef := Some(fields[i]);
      actualType := Some(TypeOf(fields[i].value));
    }
    if actualType.None? || fieldDef.None? {
      return Err(UnboundLocalError);
    }
    r := Ok(actualType.value == fieldDef.value.declared);
  }

  /** A second field whose value has the wrong type passes the as-written validator. */
  lemma TypeValidatorMissesEarlierFields()
    ensures exists fields: seq<Field> ::
      |fields| == 2 && HasDeclaredType(fields[1]) && !AllFieldsTyped(fields)
  {
    var fields := [Field("a", IntType, PyStr("x")), Field("b", StrType, PyStr("y"))];
    assert !HasDeclaredType(fields[0]);
  }

  /** The validator the dataclasses evidently intend: it inspects every field. */
  method ValidateAllFields(fields: seq<Field>) returns (ok: bool)
    ensures ok <==> AllFieldsTyped(fields)
  {
    ok := true;
    for i := 0 to |fields|
      invariant ok <==> AllFieldsTyped(fields[..i])
    {
      ok := ok && TypeOf(fields[i].value) == fields[i].declared;
    }
    assert fields[..|fields|] == fields;
  }

  /** On the single-field value objects of this module the intended check and the as-written one agree. */
  lemma {:induction false} SingleFieldValidation(f: Field)
    ensures AllFieldsTyped([f]) <==> HasDeclaredType([f][|[f]| - 1])
  {
    assert [f][0] == f;
  }

  /** `BaseVO.__post_init__` for a value object whose one field `value` is annotated `declared`. */
  predicate PostInitAccepts(declared: PyType, v: PyValue) {
    AllFieldsTyped([Field("value", declared, v)])
  }

  // ---------------------------------------------------------------------------------------------
  // The value objects. Each is a datatype; each `New...` function is the dataclass constructor
  // followed by `__post_init__`, returning the raised exception as an error.
  // ---------------------------------------------------------------------------------------------

  datatype Title = Title(value: string)
  datatype Location = Location(value: string)
  datatype Venue = Venue(value: string)

  /** `Participants.__post_init__` bound: at most 10**200. */
  const MaxParticipants: int := Pow10(200)

  function Pow10(n: nat): (r: int)
    ensures r >= 1
  {
    if n == 0 then 1 else 10 * Pow10(n - 1)
  }

  type ParticipantCount = n: int | 0 <= n <= MaxParticipants

  datatype Participants = Participants(value: ParticipantCount)

  /** `Time`, and `EventTime`, which subclasses it and only adds the futurity check. */
  datatype Time = Time(value: DateTime)

  /** The shared check of Title, Location and Venue: the value must be a `str`, kept as it is. */
  function ValidateString(v: PyValue): (r: Result<string, Error>)
    ensures r.Ok? <==> v.PyStr?
    ensures r.Ok? ==> r.value == v.s
    ensures r.Err? ==> r.error == ValueError
  {
    if PostInitAccepts(StrType, v) then
      assert HasDeclaredType([Field("value", StrType, v)][0]);
      Ok(v.s)
    else
      Err(ValueError)
  }

  function NewTitle(v: PyValue): (r: Result<Title, Error>)
    ensures r.Ok? <==> v.PyStr?
    ensures r.Ok? ==> r.value.value == v.s
    ensures r.Err? ==> r.error == ValueError
  {
    match ValidateString(v)
    case Ok(s) => Ok(Title(s))
    case Err(e) => Err(e)
  }

  function NewLocation(v: PyValue): (r: Result<Location, Error>)
    ensures r.Ok? <==> v.PyStr?
    ensures r.Ok? ==> r.value.value == v.s
    ensures r.Err? ==> r.error == ValueError
  {
    match ValidateString(v)
    case Ok(s) => Ok(Location(s))
    case Err(e) => Err(e)
  }

  function NewVenue(v: PyValue): (r: Result<Venue, Error>)
    ensures r.Ok? <==> v.PyStr?
    ensures r.Ok? ==> r.value.value == v.s
    ensures r.Err? ==> r.error == ValueError
  {
    match ValidateString(v)
    case Ok(s) => Ok(Venue(s))
    case Err(e) => Err(e)
  }

  /**
   * `Participants(value=v)`: its own `__post_init__` replaces the type validator and demands an
   * exact `int` (a `bool` is refused) between 0 and 10**200 inclusive.
   */
  function NewParticipants(v: PyValue): (r: Result<Participants, Error>)
    ensures r.Ok? <==> TypeOf(v) == IntType && 0 <= v.i <= MaxParticipants
    ensures r.Ok? ==> r.value.value == v.i
    ensures r.Err? ==> r.error == ValueError
  {
    if !v.PyInt? || v.i < 0 || v.i > MaxParticipants then Err(ValueError)
    else Ok(Participants(v.i))
  }

  /** `Time(value=v)`: the inherited type validator demands a `datetime`. */
  function NewTime(v: PyValue): (r: Result<Time, Error>)
    ensures r.Ok? <==> v.PyDateTime?
    ensures r.Ok? ==> r.value.value == v.dt
    ensures r.Err? ==> r.error == ValueError
  {
    if PostInitAccepts(DateTimeType, v) then
      assert HasDeclaredType([Field("value", DateTimeType, v)][0]);
      Ok(Time(v.dt))
    else
      Err(ValueError)
  }

  /**
   * `EventTime(value=v)` at wall-clock time `now`: its `__post_init__` replaces the type validator
   * with `value < now`, so a past datetime raises ValueError, a datetime equal to `now` is accepted,
   * and a non-datetime fails the comparison itself with TypeError.
   */
  function NewEventTime(v: PyValue, now: DateTime): (r: Result<Time, Error>)
    ensures r.Ok? <==> v.PyDateTime? && !Before(v.dt, now)
    ensures r.Ok? ==> r.value.value == v.dt
    ensures r.Err? ==> (r.error == TypeError <==> !v.PyDateTime?)
    ensures r.Err? ==> (r.error == ValueError <==> v.PyDateTime? && Before(v.dt, now))
  {
    if !v.PyDateTime? then Err(TypeError)
    else if Before(v.dt, now) then Err(ValueError)
    else Ok(Time(v.dt))
  }
}

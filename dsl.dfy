/** The values the flow DSL's parser produces (flowapi/flowdsl/parser.go) and the check
    ParseDeclaration runs on a parsed declaration's parameters (flowapi/flowdsl/dsl.go).
    The grammar itself is not part of this model: a declaration arrives already parsed. */
module FlowDsl {
  import opened Common

  /** A literal: at most one of the three is set by the parser, and none set is `null`. */
  datatype Value = Value(str: Option<string>, number: Option<string>, boolean: Option<bool>)

  const Null := Value(None, None, None)

  predicate IsNull(v: Value)
  {
    v.str.None? && v.number.None? && v.boolean.None?
  }

  /** A parameter's default: a duration (in nanoseconds) or a literal. */
  datatype ParameterValue = ParameterValue(duration: Option<int>, value: Option<Value>)

  datatype Parameter = Parameter(name: string, typ: string, default: Option<ParameterValue>)

  datatype Declaration = Declaration(identifier: string, parameters: seq<Parameter>)

  datatype UsageStatement = UsageStatement(usages: seq<string>)

  /** A call `ident(args...)` and its arguments; an argument is one of a usage chord, a
      nested call, a duration or a literal. */
  datatype ExpressionStatement = ExpressionStatement(identifier: string, arguments: seq<Argument>)

  datatype Argument = Argument(usage: Option<UsageStatement>, expr: Option<ExpressionStatement>,
                               duration: Option<int>, value: Option<Value>)

  datatype Statement = Statement(usage: Option<UsageStatement>, expr: Option<ExpressionStatement>)

  /** The parameter types the declaration grammar names, and everything else. */
  datatype ParamType = StringType | NumberType | BooleanType | DurationType
                     | ActionType | SignalType | UsageType | AnyType | Unsupported

  function TypeOf(typ: string): ParamType
  {
    match typ
    case "string" => StringType
    case "number" => NumberType
    case "boolean" => BooleanType
    case "Duration" => DurationType
    case "Action" => ActionType
    case "Signal" => SignalType
    case "Usage" => UsageType
    case "any" => AnyType
    case _ => Unsupported
  }

  /** A default is acceptable for its declared type: strings, numbers and booleans need a
      literal of that kind, a Duration needs a duration, Action, Signal and Usage defaults
      can only be `null`, `any` takes anything, and every other type takes no default. */
  predicate DefaultFits(t: ParamType, d: ParameterValue)
  {
    match t
    case StringType => d.value.Some? && d.value.value.str.Some?
    case NumberType => d.value.Some? && d.value.value.number.Some?
    case BooleanType => d.value.Some? && d.value.value.boolean.Some?
    case DurationType => d.duration.Some?
    case ActionType | SignalType | UsageType => d.value.Some? && IsNull(d.value.value)
    case AnyType => true
    case Unsupported => false
  }

  /** A declaration ParseDeclaration accepts: once one parameter has a default every later
      one has one too, and every default fits its type. */
  predicate ValidParameters(ps: seq<Parameter>)
  {
    (forall i, j :: 0 <= i < j < |ps| && ps[i].default.Some? ==> ps[j].default.Some?) &&
    (forall i :: 0 <= i < |ps| && ps[i].default.Some? ==> DefaultFits(TypeOf(ps[i].typ), ps[i].default.value))
  }

  /** The error the check reports for one parameter with a default. */
  function DefaultError(p: Parameter): (msg: string)
    requires p.default.Some?
  {
    match TypeOf(p.typ)
    case StringType => "parameter " + p.name + " default value should be a string"
    case NumberType => "parameter " + p.name + " default value should be a number"
    case BooleanType => "parameter " + p.name + " default value should be a boolean"
    case DurationType => "parameter " + p.name + " default value should be a duration"
    case ActionType | SignalType | UsageType => "parameter " + p.name + " default value can only be 'null'"
    case _ => "unsupported type " + p.typ + " for a default value: " + p.name
  }

  /** The first complaint about ps, scanning left to right with the flag that is set by
      the first default seen; None when there is none. */
  function FirstComplaint(ps: seq<Parameter>, shouldHaveDefault: bool): (r: Option<string>)
    decreases |ps|
  {
    if ps == [] then None
    else if shouldHaveDefault && ps[0].default.None? then
      Some("parameter " + ps[0].name + " should have a default value")
    else if ps[0].default.Some? && !DefaultFits(TypeOf(ps[0].typ), ps[0].default.value) then
      Some(DefaultError(ps[0]))
    else FirstComplaint(ps[1..], shouldHaveDefault || ps[0].default.Some?)
  }

  /** The scan finds nothing exactly when the parameters are valid; with the flag already
      set, it also demands a default on every parameter. */
  lemma {:induction false} FirstComplaintValid(ps: seq<Parameter>, shouldHaveDefault: bool)
    decreases |ps|
    ensures FirstComplaint(ps, shouldHaveDefault).None? <==>
              ValidParameters(ps) && (shouldHaveDefault ==> forall i :: 0 <= i < |ps| ==> ps[i].default.Some?)
  {
    if ps != [] {
      var rest := ps[1..];
      FirstComplaintValid(rest, shouldHaveDefault || ps[0].default.Some?);
      assert forall i :: 1 <= i < |ps| ==> ps[i] == rest[i - 1];
      if FirstComplaint(ps, shouldHaveDefault).None? {
        forall i, j | 0 <= i < j < |ps| && ps[i].default.Some?
          ensures ps[j].default.Some?
        {
          assert rest[j - 1] == ps[j];
        }
      }
    }
  }

  /** The validation ParseDeclaration runs after parsing: it hands the declaration back
      unchanged, or reports the first parameter that breaks the rules. */
  method ParseDeclaration(d: Declaration) returns (r: Result<Declaration>)
    ensures r.Ok? <==> ValidParameters(d.parameters)
    ensures r.Ok? ==> r.value == d
    ensures !r.Ok? ==> r.Err? && FirstComplaint(d.parameters, false) == Some(r.msg)
  {
    var shouldHaveDefault := false;
    var i := 0;
    while i < |d.parameters|
      invariant 0 <= i <= |d.parameters|
      invariant FirstComplaint(d.parameters, false) == FirstComplaint(d.parameters[i..], shouldHaveDefault)
    {
      var p := d.parameters[i];
      assert d.parameters[i..][1..] == d.parameters[i + 1..];
      if shouldHaveDefault && p.default.None? {
        r := Err("parameter " + p.name + " should have a default value");
        FirstComplaintValid(d.parameters, false);
        return;
      }
      if p.default.Some? {
        shouldHaveDefault := true;
        if !DefaultFits(TypeOf(p.typ), p.default.value) {
          r := Err(DefaultError(p));
          FirstComplaintValid(d.parameters, false);
          return;
        }
      }
      i := i + 1;
    }
    assert d.parameters[i..] == [];
    FirstComplaintValid(d.parameters, false);
    return Ok(d);
  }

  /** The parameters without a default come first, so a valid declaration splits into its
      required prefix and its optional suffix at the first default. */
  lemma RequiredPrefix(ps: seq<Parameter>, i: nat)
    requires ValidParameters(ps) && i < |ps| && ps[i].default.None?
    ensures forall j :: 0 <= j <= i ==> ps[j].default.None?
  {
  }

  /** A duration default is accepted only for a Duration parameter, and a `null` default
      only for Action, Signal, Usage and any. */
  lemma DefaultKinds(typ: string, d: ParameterValue)
    ensures d.value.Some? && IsNull(d.value.value) && d.duration.None? ==>
              (DefaultFits(TypeOf(typ), d) <==> typ == "Action" || typ == "Signal" || typ == "Usage" || typ == "any")
    ensures d.value.None? && d.duration.Some? ==> (DefaultFits(TypeOf(typ), d) <==> typ == "Duration" || typ == "any")
  {
  }
}

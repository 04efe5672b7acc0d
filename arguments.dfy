/** The arguments of one action or signal call, bound to the parameters of its declaration
    (flowapi/arguments.go): NewArguments checks the call against the declaration, and the
    getters look an argument up by parameter name, falling back to the declared default. */
module FlowArgs {
  import opened Common
  import opened Usages
  import opened FlowDsl

  /** A repeated parameter name keeps its last position. */
  function NameMap(ps: seq<Parameter>): (m: map<string, nat>)
    decreases |ps|
    ensures forall n :: n in m ==> m[n] < |ps| && ps[m[n]].name == n
    ensures forall i :: 0 <= i < |ps| ==> ps[i].name in m && i <= m[ps[i].name]
  {
    if ps == [] then map[]
    else
      var init := ps[..|ps| - 1];
      assert forall i :: 0 <= i < |init| ==> init[i] == ps[i];
      NameMap(init)[ps[|ps| - 1].name := |ps| - 1]
  }

  /** The number of parameters without a default. */
  function RequiredCount(ps: seq<Parameter>): (n: nat)
    decreases |ps|
    ensures n <= |ps|
  {
    if ps == [] then 0
    else RequiredCount(ps[..|ps| - 1]) + (if ps[|ps| - 1].default.None? then 1 else 0)
  }

  /** In a declaration ParseDeclaration accepts, the required parameters are exactly the
      first RequiredCount of them. */
  lemma {:induction false} RequiredAreFirst(ps: seq<Parameter>)
    requires ValidParameters(ps)
    decreases |ps|
    ensures forall i :: 0 <= i < |ps| ==> (ps[i].default.None? <==> i < RequiredCount(ps))
  {
    if ps != [] {
      var init := ps[..|ps| - 1];
      assert forall i :: 0 <= i < |init| ==> init[i] == ps[i];
      RequiredAreFirst(init);
    }
  }

  /** What a required parameter of each type accepts as its argument. */
  predicate Fits(t: ParamType, arg: Argument)
  {
    match t
    case StringType => arg.value.Some? && arg.value.value.str.Some?
    case NumberType => arg.value.Some? && arg.value.value.number.Some?
    case BooleanType => arg.value.Some? && arg.value.value.boolean.Some?
    case DurationType => arg.duration.Some?
    case ActionType => arg.expr.Some? || arg.usage.Some?
    case SignalType => arg.expr.Some?
    case AnyType => true
    case _ => false
  }

  /** The types whose test reads the argument's literal. */
  predicate ReadsLiteral(t: ParamType)
  {
    t.StringType? || t.NumberType? || t.BooleanType?
  }

  function KindMessage(i: nat, p: Parameter): string
  {
    match TypeOf(p.typ)
    case StringType => "argument " + Decimal(i) + " should be a string"
    case NumberType => "argument " + Decimal(i) + " should be a number"
    case BooleanType => "argument " + Decimal(i) + " should be a boolean"
    case DurationType => "argument " + Decimal(i) + " should be a duration"
    case ActionType => "argument " + Decimal(i) + " should be an action"
    case SignalType => "argument " + Decimal(i) + " should be a signal"
    case _ => "unsupported type " + p.typ + " for a parameter: " + p.name
  }

  /** The test of one required argument as written: the string, number and boolean tests
      read the argument's literal without checking that it has one. */
  function KindCheck(i: nat, p: Parameter, arg: Argument): (r: Result<()>)
    ensures r.Ok? <==> Fits(TypeOf(p.typ), arg)
    ensures r.Panic? <==> ReadsLiteral(TypeOf(p.typ)) && arg.value.None?
  {
    if ReadsLiteral(TypeOf(p.typ)) && arg.value.None? then Panic("nil pointer dereference")
    else if Fits(TypeOf(p.typ), arg) then Ok(())
    else Err(KindMessage(i, p))
  }

  /** The loop over the parameters from index i on, as written: a required parameter past
      the end of the arguments is an index out of range. */
  function CheckKinds(ps: seq<Parameter>, args: seq<Argument>, i: nat): (r: Result<()>)
    decreases |ps| - i
  {
    if i >= |ps| then Ok(())
    else if ps[i].default.Some? then CheckKinds(ps, args, i + 1)
    else if i >= |args| then Panic("index out of range")
    else
      var c := KindCheck(i, ps[i], args[i]);
      if !c.Ok? then c else CheckKinds(ps, args, i + 1)
  }

  /** The loop accepts exactly when every required parameter from i on has an argument of
      its kind. */
  lemma {:induction false} CheckKindsFits(ps: seq<Parameter>, args: seq<Argument>, i: nat)
    decreases |ps| - i
    ensures CheckKinds(ps, args, i).Ok? <==>
              forall k :: i <= k < |ps| && ps[k].default.None? ==> k < |args| && Fits(TypeOf(ps[k].typ), args[k])
  {
    if i < |ps| {
      CheckKindsFits(ps, args, i + 1);
    }
  }

  /** The complaint about the number of arguments, if any. */
  function CountError(ps: seq<Parameter>, args: seq<Argument>): (r: Option<string>)
    ensures r.None? <==> RequiredCount(ps) <= |args| <= |ps|
  {
    if |args| < RequiredCount(ps) then
      Some("not enough arguments provided: " + Decimal(|args|) + " out of " + Decimal(RequiredCount(ps)))
    else if |args| > |ps| then
      Some("too many arguments provided: " + Decimal(|args|) + " out of " + Decimal(|ps|))
    else None
  }

  /** NewArguments' first loop: each parameter name to its position. */
  method BuildNameMap(ps: seq<Parameter>) returns (nameMap: map<string, nat>)
    ensures nameMap == NameMap(ps)
  {
    nameMap := map[];
    var i := 0;
    while i < |ps|
      invariant 0 <= i <= |ps| && nameMap == NameMap(ps[..i])
    {
      assert ps[..i + 1][..i] == ps[..i];
      nameMap := nameMap[ps[i].name := i];
      i := i + 1;
    }
    assert ps[..i] == ps;
  }

  /** NewArguments' second loop: the parameters without a default. */
  method CountRequired(ps: seq<Parameter>) returns (requiredParams: nat)
    ensures requiredParams == RequiredCount(ps)
  {
    requiredParams := 0;
    var i := 0;
    while i < |ps|
      invariant 0 <= i <= |ps| && requiredParams == RequiredCount(ps[..i])
    {
      assert ps[..i + 1][..i] == ps[..i];
      if ps[i].default.None? {
        requiredParams := requiredParams + 1;
      }
      i := i + 1;
    }
    assert ps[..i] == ps;
  }

  /** NewArguments' third loop: the test of every required argument. */
  method CheckArguments(ps: seq<Parameter>, args: seq<Argument>) returns (r: Result<()>)
    ensures r == CheckKinds(ps, args, 0)
  {
    var i := 0;
    while i < |ps|
      invariant 0 <= i <= |ps| && CheckKinds(ps, args, 0) == CheckKinds(ps, args, i)
    {
      if ps[i].default.None? {
        if i >= |args| {
          return Panic("index out of range");
        }
        var c := KindCheck(i, ps[i], args[i]);
        if !c.Ok? {
          return c;
        }
      }
      i := i + 1;
    }
    return Ok(());
  }

  /** NewArguments as written: too few or too many arguments is an error, then each
      required argument is checked; a panic of the source is returned as Panic. */
  method NewArguments(ps: seq<Parameter>, args: seq<Argument>) returns (r: Result<Arguments>)
    ensures CountError(ps, args).Some? ==> r == Err(CountError(ps, args).value)
    ensures CountError(ps, args).None? && !CheckKinds(ps, args, 0).Ok? ==> r == CheckKinds(ps, args, 0).PropagateFailure()
    ensures CountError(ps, args).None? && CheckKinds(ps, args, 0).Ok? ==> r == Ok(Arguments(ps, args, NameMap(ps)))
  {
    var nameMap := BuildNameMap(ps);
    var requiredParams := CountRequired(ps);
    if |args| < requiredParams {
      return Err("not enough arguments provided: " + Decimal(|args|) + " out of " + Decimal(requiredParams));
    }
    if |args| > |ps| {
      return Err("too many arguments provided: " + Decimal(|args|) + " out of " + Decimal(|ps|));
    }
    var checked := CheckArguments(ps, args);
    if !checked.Ok? {
      return checked.PropagateFailure();
    }
    return Ok(Arguments(ps, args, nameMap));
  }

  /** A string parameter given a duration: the test reads a literal the argument lacks. */
  lemma WrongKindPanics()
    ensures CheckKinds([Parameter("text", "string", None)], [Argument(None, None, Some(1000), None)], 0).Panic?
  {
  }

  /** A required parameter declared after an optional one, with only the optional one
      given: the count check passes and the loop indexes past the arguments. */
  lemma MissingRequiredPanics()
    ensures var ps := [Parameter("a", "string", Some(ParameterValue(None, Some(Value(Some("x"), None, None))))),
                       Parameter("b", "string", None)];
            var args := [Argument(None, None, None, Some(Value(Some("y"), None, None)))];
            RequiredCount(ps) <= |args| <= |ps| && CheckKinds(ps, args, 0) == Panic("index out of range")
  {
    var ps := [Parameter("a", "string", Some(ParameterValue(None, Some(Value(Some("x"), None, None))))),
               Parameter("b", "string", None)];
    assert ps[..1] == [ps[0]] && [ps[0]][..0] == [];
  }

  /** The missing-argument panic cannot happen with a declaration ParseDeclaration accepts:
      there every required parameter lies inside the counted prefix. */
  lemma ValidDeclarationHasRequiredArguments(ps: seq<Parameter>, args: seq<Argument>, k: nat)
    requires ValidParameters(ps) && RequiredCount(ps) <= |args|
    requires k < |ps| && ps[k].default.None?
    ensures k < |args|
  {
    RequiredAreFirst(ps);
  }

  /** The same checks with each missing or mismatched argument reported as an error. */
  function CheckKindsSafely(ps: seq<Parameter>, args: seq<Argument>, i: nat): (r: Result<()>)
    decreases |ps| - i
  {
    if i >= |ps| then Ok(())
    else if ps[i].default.Some? then CheckKindsSafely(ps, args, i + 1)
    else if i >= |args| then Err("argument " + Decimal(i) + " is missing")
    else if !Fits(TypeOf(ps[i].typ), args[i]) then Err(KindMessage(i, ps[i]))
    else CheckKindsSafely(ps, args, i + 1)
  }

  /** NewArguments with the two panics turned into errors: it never panics, and it
      accepts exactly the calls whose required arguments are all present and of their
      kind, agreeing with the as-written check wherever that one accepts. */
  function NewArgumentsChecked(ps: seq<Parameter>, args: seq<Argument>): (r: Result<Arguments>)
    ensures !r.Panic?
    ensures !(RequiredCount(ps) <= |args| <= |ps|) ==> r.Err?
    ensures r.Ok? ==> r.value == Arguments(ps, args, NameMap(ps)) && CheckKinds(ps, args, 0).Ok?
  {
    CheckKindsSafelyFits(ps, args, 0);
    if |args| < RequiredCount(ps) then
      Err("not enough arguments provided: " + Decimal(|args|) + " out of " + Decimal(RequiredCount(ps)))
    else if |args| > |ps| then
      Err("too many arguments provided: " + Decimal(|args|) + " out of " + Decimal(|ps|))
    else match CheckKindsSafely(ps, args, 0)
      case Ok(_) => Ok(Arguments(ps, args, NameMap(ps)))
      case Err(m) => Err(m)
      case Panic(m) => Err(m)
  }

  lemma {:induction false} CheckKindsSafelyFits(ps: seq<Parameter>, args: seq<Argument>, i: nat)
    decreases |ps| - i
    ensures !CheckKindsSafely(ps, args, i).Panic?
    ensures CheckKindsSafely(ps, args, i).Ok? <==> CheckKinds(ps, args, i).Ok?
  {
    if i < |ps| {
      CheckKindsSafelyFits(ps, args, i + 1);
    }
  }

  lemma NewArgumentsCheckedSpec(ps: seq<Parameter>, args: seq<Argument>)
    ensures !NewArgumentsChecked(ps, args).Panic?
    ensures NewArgumentsChecked(ps, args).Ok? <==>
              RequiredCount(ps) <= |args| <= |ps| &&
              forall k :: 0 <= k < |ps| && ps[k].default.None? ==> k < |args| && Fits(TypeOf(ps[k].typ), args[k])
    ensures NewArgumentsChecked(ps, args).Ok? ==> NewArgumentsChecked(ps, args).value == Arguments(ps, args, NameMap(ps))
  {
    CheckKindsSafelyFits(ps, args, 0);
    CheckKindsFits(ps, args, 0);
  }

  // ---------------------------------------------------------------- lookups

  /** The argument a default stands in for. */
  function DefaultArgument(d: ParameterValue): Argument
  {
    Argument(None, None, d.duration, d.value)
  }

  /** The integer json.Number.Int64 reads from a numeral: 0 for anything that is not an
      optional sign followed by decimal digits, and the nearest 64-bit bound for a value
      out of range. */
  function Int64Of(s: string): (r: int)
    ensures MinInt64 <= r <= MaxInt64
    ensures Atoi(s).Ok? ==> r == Atoi(s).value
  {
    var digits := Unsigned(s);
    if digits == [] || !AllDigits(digits) then 0
    else
      var v := if s[0] == '-' then 0 - DigitsValue(digits) else DigitsValue(digits);
      if v < MinInt64 then MinInt64 else if v > MaxInt64 then MaxInt64 else v
  }

  /** A bound call. Only nameMap entries inside the parameters arise: NewArguments builds
      them so, and the zero value has none. */
  datatype Arguments = Arguments(parameters: seq<Parameter>, arguments: seq<Argument>, nameMap: map<string, nat>)
  {
    predicate WellFormed()
    {
      forall n :: n in nameMap ==> nameMap[n] < |parameters|
    }

    /** The argument given for a parameter, or its default when the call stopped before
        it, or nothing. */
    function ArgumentOrNil(name: string): (r: Option<Argument>)
      requires WellFormed()
      ensures name !in nameMap ==> r.None?
    {
      if name !in nameMap then None
      else
        var idx := nameMap[name];
        if |arguments| <= idx then
          if parameters[idx].default.None? then None
          else Some(DefaultArgument(parameters[idx].default.value))
        else Some(arguments[idx])
    }

    /** ArgumentOrNil, with an empty literal for nothing. */
    function ArgumentOrEmpty(name: string): (r: Argument)
      requires WellFormed()
      ensures ArgumentOrNil(name).None? ==> r == Argument(None, None, None, Some(Null))
      ensures ArgumentOrNil(name).Some? ==> r == ArgumentOrNil(name).value
    {
      match ArgumentOrNil(name)
      case None => Argument(None, None, None, Some(Null))
      case Some(arg) => arg
    }

    /** The string literal given or defaulted for the name, else "". */
    function String(name: string): (r: string)
      requires WellFormed()
      ensures var arg := ArgumentOrNil(name);
              (arg.Some? && arg.value.value.Some? && arg.value.value.value.str.Some? ==> r == arg.value.value.value.str.value)
              && (r != "" ==> arg.Some? && arg.value.value.Some? && arg.value.value.value.str == Some(r))
    {
      var arg := ArgumentOrEmpty(name);
      if arg.value.None? || arg.value.value.str.None? then "" else arg.value.value.str.value
    }

    /** The numeral given or defaulted for the name, else "0". */
    function Number(name: string): (r: string)
      requires WellFormed()
      ensures var arg := ArgumentOrNil(name);
              (arg.Some? && arg.value.value.Some? && arg.value.value.value.number.Some? ==> r == arg.value.value.value.number.value)
              && (r != "0" ==> arg.Some? && arg.value.value.Some? && arg.value.value.value.number == Some(r))
    {
      var arg := ArgumentOrEmpty(name);
      if arg.value.None? || arg.value.value.number.None? then "0" else arg.value.value.number.value
    }

    /** The duration given or defaulted for the name, else 0. */
    function Duration(name: string): (r: int)
      requires WellFormed()
      ensures var arg := ArgumentOrNil(name);
              (arg.Some? && arg.value.duration.Some? ==> r == arg.value.duration.value)
              && (r != 0 ==> arg.Some? && arg.value.duration == Some(r))
    {
      var arg := ArgumentOrEmpty(name);
      if arg.duration.None? then 0 else arg.duration.value
    }

    /** The chord given or defaulted for the name, else no usages. */
    function Usages(name: string): (r: seq<string>)
      requires WellFormed()
      ensures var arg := ArgumentOrNil(name);
              (arg.Some? && arg.value.usage.Some? ==> r == arg.value.usage.value.usages)
              && (r != [] ==> arg.Some? && arg.value.usage.Some? && arg.value.usage.value.usages == r)
    {
      var arg := ArgumentOrEmpty(name);
      if arg.usage.None? then [] else arg.usage.value.usages
    }

    function StatementOf(name: string): (r: Statement)
      requires WellFormed()
      ensures r.expr == ArgumentOrEmpty(name).expr && r.usage == ArgumentOrEmpty(name).usage
    {
      var arg := ArgumentOrEmpty(name);
      Statement(arg.usage, arg.expr)
    }

    /** The argument as a statement, or nothing when it is neither a call nor a chord. */
    function StatementOrNil(name: string): (r: Option<Statement>)
      requires WellFormed()
      ensures r.Some? <==> ArgumentOrNil(name).Some? &&
                           (ArgumentOrNil(name).value.expr.Some? || ArgumentOrNil(name).value.usage.Some?)
      ensures r.Some? ==> r.value == StatementOf(name)
    {
      match ArgumentOrNil(name)
      case None => None
      case Some(arg) =>
        if arg.expr.None? && arg.usage.None? then None else Some(Statement(arg.usage, arg.expr))
    }

    function Int(name: string): (r: int)
      requires WellFormed()
      ensures MinInt64 <= r <= MaxInt64
    {
      Int64Of(Number(name))
    }

    /** The boolean literal given or defaulted for the name, else false. */
    function Boolean(name: string): (r: bool)
      requires WellFormed()
      ensures var arg := ArgumentOrNil(name);
              (arg.Some? && arg.value.value.Some? && arg.value.value.value.boolean.Some? ==> r == arg.value.value.value.boolean.value)
              && (r ==> arg.Some? && arg.value.value.Some? && arg.value.value.value.boolean == Some(true))
    {
      var arg := ArgumentOrEmpty(name);
      if arg.value.None? || arg.value.value.boolean.None? then false else arg.value.value.boolean.value
    }
  }

  /** NameMap builds only entries inside the parameters. */
  lemma BuiltWellFormed(ps: seq<Parameter>, args: seq<Argument>)
    ensures Arguments(ps, args, NameMap(ps)).WellFormed()
  {
  }

  /** A parameter no later parameter shares its name with is looked up at its own
      position: the argument given there, else its default, else nothing. */
  lemma ArgumentByName(ps: seq<Parameter>, args: seq<Argument>, i: nat)
    requires i < |ps| && forall j :: i < j < |ps| ==> ps[j].name != ps[i].name
    ensures var a := Arguments(ps, args, NameMap(ps));
            a.WellFormed() &&
            a.ArgumentOrNil(ps[i].name) ==
              if i < |args| then Some(args[i])
              else if ps[i].default.Some? then Some(DefaultArgument(ps[i].default.value))
              else None
  {
    assert NameMap(ps)[ps[i].name] == i;
  }

  /** An unknown name reads as the empty string, "0", 0, false, no usages and no
      statement. */
  lemma AbsentGetters(a: Arguments, name: string)
    requires a.WellFormed() && name !in a.nameMap
    ensures a.String(name) == "" && a.Number(name) == "0" && a.Int(name) == 0
    ensures a.Duration(name) == 0 && !a.Boolean(name) && a.Usages(name) == []
    ensures a.StatementOrNil(name).None?
  {
    assert a.ArgumentOrEmpty(name) == Argument(None, None, None, Some(Null));
    AtoiOfDecimal(0);
    assert Decimal(0) == "0";
  }

  /** A required parameter of an accepted call has its own argument, of its kind. */
  lemma RequiredFits(ps: seq<Parameter>, args: seq<Argument>, i: nat)
    requires CheckKinds(ps, args, 0).Ok? && i < |ps| && ps[i].default.None?
    ensures i < |args| && Fits(TypeOf(ps[i].typ), args[i])
  {
    CheckKindsFits(ps, args, 0);
  }

  /** Once NewArguments accepts a call, a required parameter's typed getter returns the
      literal, duration or statement that was passed for it. */
  lemma TypedGetters(ps: seq<Parameter>, args: seq<Argument>, i: nat)
    requires CheckKinds(ps, args, 0).Ok?
    requires i < |ps| && ps[i].default.None? && forall j :: i < j < |ps| ==> ps[j].name != ps[i].name
    ensures var a := Arguments(ps, args, NameMap(ps));
            var t := TypeOf(ps[i].typ);
            a.WellFormed() && i < |args| &&
            (t == StringType ==> args[i].value.Some? && args[i].value.value.str.Some? &&
                                 a.String(ps[i].name) == args[i].value.value.str.value) &&
            (t == NumberType ==> args[i].value.Some? && args[i].value.value.number.Some? &&
                                 a.Number(ps[i].name) == args[i].value.value.number.value) &&
            (t == BooleanType ==> args[i].value.Some? && args[i].value.value.boolean.Some? &&
                                  a.Boolean(ps[i].name) == args[i].value.value.boolean.value) &&
            (t == DurationType ==> args[i].duration.Some? && a.Duration(ps[i].name) == args[i].duration.value) &&
            (t == ActionType || t == SignalType ==>
               a.StatementOrNil(ps[i].name) == Some(Statement(args[i].usage, args[i].expr)))
  {
    RequiredFits(ps, args, i);
    ArgumentByName(ps, args, i);
  }

  /** Int reads back every decimal numeral in the 64-bit range, signed or not. */
  lemma IntOfDecimal(a: Arguments, name: string, n: nat)
    requires a.WellFormed() && n <= MaxInt64
    ensures a.Number(name) == Decimal(n) ==> a.Int(name) == n
    ensures a.Number(name) == "-" + Decimal(n) ==> a.Int(name) == 0 - n
  {
    AtoiOfDecimal(n);
  }
}

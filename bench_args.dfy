/** Command-line validation of the benchmark harness: `parseArgs` and
    `parseUnsignedInt` of the simulation runner (analysis `Common`) and of
    the stand-alone benchmark (analysis `Main`). The two differ only in the
    options they know: the stand-alone benchmark has no `--clients=` and no
    `--strategy=`, so its settings keep those two at their defaults. */
module BenchmarkArgs {
  import opened Wrappers
  import opened JavaBytes
  import opened Decimal
  import opened Text
  import opened JavaInts

  const WORKERS: string := "--workers="
  const CLIENTS: string := "--clients="
  const PAYLOADS: string := "--payloads="
  const WARMUPS: string := "--warmups="
  const NAME: string := "--name="
  const STRATEGY: string := "--strategy="

  /** Which `parseArgs` runs. */
  datatype Harness = Simulation | Standalone

  /** The `IllegalArgumentException`s `parseArgs` throws, by message. */
  datatype ArgError =
    | UnknownArgument(arg: string)
    | NotANumber(option: string)
    | NegativeValue(option: string)
    | NotPositive
    | BadStrategy(strategy: string)

  /** `CommandLineArgs`. */
  datatype Settings = Settings(
    workers: int,
    clients: int,
    payloads: int,
    warmups: int,
    simulationName: string,
    strategy: string)

  /** The values `parseArgs` starts from. */
  const DEFAULTS: Settings := Settings(0, 0, 0, 0, "", "single")

  /** The option prefix `arg` starts with, tested in the order of the
      `if` chain; `None` for an argument the harness does not know. */
  function OptionOf(h: Harness, arg: string): (o: Option<string>)
    ensures o.Some? ==> o.value <= arg
    ensures o.Some? ==> o.value in {WORKERS, PAYLOADS, WARMUPS, NAME} || (h == Simulation && o.value in {CLIENTS, STRATEGY})
  {
    if WORKERS <= arg then Some(WORKERS)
    else if h == Simulation && CLIENTS <= arg then Some(CLIENTS)
    else if PAYLOADS <= arg then Some(PAYLOADS)
    else if WARMUPS <= arg then Some(WARMUPS)
    else if NAME <= arg then Some(NAME)
    else if h == Simulation && STRATEGY <= arg then Some(STRATEGY)
    else None
  }

  /** `parseUnsignedInt(arg, option)`: the text after the option through
      `Integer.parseUnsignedInt`, refused when it does not parse and when
      the `int` it yields is negative. */
  function ParseCount(arg: string, option: string): (r: Result<int, ArgError>)
    requires option <= arg
    ensures r.Success? ==> 0 <= r.value <= INT_MAX
    ensures r.Failure? ==> r.error in {NotANumber(option), NegativeValue(option)}
  {
    match ParseUnsignedInt(arg[|option|..])
    case None => Failure(NotANumber(option))
    case Some(v) => if v < 0 then Failure(NegativeValue(option)) else Success(v)
  }

  /** The settings with the count `option` names set to `v`. */
  function SetCount(s: Settings, option: string, v: int): Settings {
    if option == WORKERS then s.(workers := v)
    else if option == CLIENTS then s.(clients := v)
    else if option == PAYLOADS then s.(payloads := v)
    else s.(warmups := v)
  }

  /** One turn of the loop over the arguments. */
  function Apply(h: Harness, s: Settings, arg: string): Result<Settings, ArgError> {
    match OptionOf(h, arg)
    case None => Failure(UnknownArgument(arg))
    case Some(option) =>
      if option == NAME then Success(s.(simulationName := Underscored(arg[|NAME|..])))
      else if option == STRATEGY then Success(s.(strategy := arg[|STRATEGY|..]))
      else
        match ParseCount(arg, option)
        case Failure(e) => Failure(e)
        case Success(v) => Success(SetCount(s, option, v))
  }

  /** The loop over `args`, from the defaults, stopping at the first error. */
  function Fold(h: Harness, args: seq<string>): Result<Settings, ArgError> {
    if args == [] then Success(DEFAULTS)
    else
      match Fold(h, args[..|args| - 1])
      case Failure(e) => Failure(e)
      case Success(s) => Apply(h, s, args[|args| - 1])
  }

  /** The checks after the loop. */
  function Check(h: Harness, s: Settings): Result<Settings, ArgError> {
    if s.workers <= 0 || s.payloads <= 0 then Failure(NotPositive)
    else if h == Simulation && s.strategy != "single" && s.strategy != "multi" then Failure(BadStrategy(s.strategy))
    else Success(s)
  }

  /** What `parseArgs(args)` returns or throws. */
  function ParseArgsSpec(h: Harness, args: seq<string>): Result<Settings, ArgError> {
    match Fold(h, args)
    case Failure(e) => Failure(e)
    case Success(s) => Check(h, s)
  }

  /** `parseArgs`. */
  method ParseArgs(h: Harness, args: seq<string>) returns (r: Result<Settings, ArgError>)
    ensures r == ParseArgsSpec(h, args)
  {
    var workers, clients, payloads, warmups := 0, 0, 0, 0;
    var simulationName, strategy := "", "single";
    for i := 0 to |args|
      invariant Fold(h, args[..i]) == Success(Settings(workers, clients, payloads, warmups, simulationName, strategy))
    {
      var arg := args[i];
      assert args[..i + 1][..i] == args[..i];
      if WORKERS <= arg || (h == Simulation && CLIENTS <= arg) || PAYLOADS <= arg || WARMUPS <= arg {
        var option := OptionOf(h, arg).value;
        var v := ParseCount(arg, option);
        if v.Failure? {
          FoldFailurePersists(h, args, i + 1);
          return Failure(v.error);
        }
        if option == WORKERS {
          workers := v.value;
        } else if option == CLIENTS {
          clients := v.value;
        } else if option == PAYLOADS {
          payloads := v.value;
        } else {
          warmups := v.value;
        }
      } else if NAME <= arg {
        simulationName := Underscored(arg[|NAME|..]);
      } else if h == Simulation && STRATEGY <= arg {
        strategy := arg[|STRATEGY|..];
      } else {
        FoldFailurePersists(h, args, i + 1);
        return Failure(UnknownArgument(arg));
      }
    }
    assert args[..|args|] == args;
    if workers <= 0 || payloads <= 0 {
      return Failure(NotPositive);
    }
    if h == Simulation && strategy != "single" && strategy != "multi" {
      return Failure(BadStrategy(strategy));
    }
    return Success(Settings(workers, clients, payloads, warmups, simulationName, strategy));
  }

  /** The first error ends the loop: later arguments are not looked at. */
  lemma {:induction false} FoldFailurePersists(h: Harness, args: seq<string>, i: nat)
    requires i <= |args| && Fold(h, args[..i]).Failure?
    ensures Fold(h, args) == Fold(h, args[..i])
    decreases |args| - i
  {
    if i < |args| {
      assert args[..i + 1][..i] == args[..i];
      FoldFailurePersists(h, args, i + 1);
    } else {
      assert args[..i] == args;
    }
  }

  /** Every argument must name one of the harness's options: one that does
      not makes `parseArgs` throw, with that argument in the message when
      nothing before it failed. */
  lemma UnknownArgumentRejected(h: Harness, args: seq<string>, i: nat)
    requires i < |args| && OptionOf(h, args[i]).None?
    ensures ParseArgsSpec(h, args).Failure?
    ensures Fold(h, args[..i]).Success? ==> ParseArgsSpec(h, args) == Failure(UnknownArgument(args[i]))
  {
    assert args[..i + 1][..i] == args[..i];
    FoldFailurePersists(h, args, i + 1);
  }

  /** The stand-alone benchmark does not know `--clients=` and
      `--strategy=`; the simulation runner does. */
  lemma StandaloneLacksClientsAndStrategy(arg: string)
    requires CLIENTS <= arg || STRATEGY <= arg
    ensures OptionOf(Standalone, arg).None?
    ensures OptionOf(Simulation, arg).Some?
  {
    assert arg[2] == 'c' || arg[2] == 's';
    assert WORKERS[2] == 'w' && PAYLOADS[2] == 'p' && WARMUPS[2] == 'w' && NAME[2] == 'n';
  }

  /** A successful run of the loop holds counts in the range of a
      non-negative `int` and a name without whitespace; the stand-alone
      benchmark's clients and strategy stay at their defaults. */
  lemma {:induction false} FoldBounds(h: Harness, args: seq<string>)
    requires Fold(h, args).Success?
    ensures var s := Fold(h, args).value;
      && 0 <= s.workers <= INT_MAX && 0 <= s.clients <= INT_MAX
      && 0 <= s.payloads <= INT_MAX && 0 <= s.warmups <= INT_MAX
      && NoSpaces(s.simulationName)
      && (h == Standalone ==> s.clients == 0 && s.strategy == "single")
  {
    if args != [] {
      var init := args[..|args| - 1];
      FoldBounds(h, init);
      var option := OptionOf(h, args[|args| - 1]);
      if option == Some(NAME) {
        UnderscoredHasNoSpaces(args[|args| - 1][|NAME|..]);
      }
    } else {
      assert NoSpaces(DEFAULTS.simulationName);
    }
  }

  /** `parseArgs` returns only positive workers and payloads, counts in the
      range of an `int`, and the strategy "single" or "multi"; the clients
      and the warmups may stay 0. */
  lemma ParsedSettings(h: Harness, args: seq<string>)
    requires ParseArgsSpec(h, args).Success?
    ensures var s := ParseArgsSpec(h, args).value;
      && 0 < s.workers <= INT_MAX && 0 < s.payloads <= INT_MAX
      && 0 <= s.clients <= INT_MAX && 0 <= s.warmups <= INT_MAX
      && (s.strategy == "single" || s.strategy == "multi")
      && NoSpaces(s.simulationName)
  {
    FoldBounds(h, args);
  }

  /** Settings that pass the loop pass `parseArgs` exactly when workers and
      payloads are positive and, for the simulation runner, the strategy is
      "single" or "multi". */
  lemma ParseArgsAccepts(h: Harness, args: seq<string>)
    requires Fold(h, args).Success?
    ensures var s := Fold(h, args).value;
      ParseArgsSpec(h, args).Success? <==>
        s.workers > 0 && s.payloads > 0 && (h == Simulation ==> s.strategy == "single" || s.strategy == "multi")
    ensures ParseArgsSpec(h, args).Success? ==> ParseArgsSpec(h, args) == Fold(h, args)
  {
  }

  /** A repeated option keeps its last value: the earlier occurrence, if
      it is accepted, leaves no trace. */
  lemma LastOptionWins(h: Harness, args: seq<string>, x: string, y: string)
    requires OptionOf(h, x).Some? && OptionOf(h, x) == OptionOf(h, y)
    requires Fold(h, args + [x]).Success?
    ensures Fold(h, args + [x, y]) == Fold(h, args + [y])
  {
    var ax, axy, ay := args + [x], args + [x, y], args + [y];
    assert axy[..|axy| - 1] == ax && ax[..|ax| - 1] == args && ay[..|ay| - 1] == args;
    assert axy[|axy| - 1] == y && ax[|ax| - 1] == x && ay[|ay| - 1] == y;
    var s := Fold(h, args).value;
    var option := OptionOf(h, x).value;
    if option !in {NAME, STRATEGY} {
      var v := ParseCount(x, option).value;
      assert Fold(h, ax) == Success(SetCount(s, option, v));
    }
  }

  /** An option followed by the decimal digits of `n` reads as the count
      `n` for every `n` up to `Integer.MAX_VALUE`; from 2^31 to 2^32 - 1 it
      is refused as negative, and from 2^32 on as not a number. */
  lemma CountRoundTrip(option: string, n: nat)
    ensures n <= INT_MAX ==> ParseCount(option + Digits(n), option) == Success(n)
    ensures INT_MAX < n < UINT_LIMIT ==> ParseCount(option + Digits(n), option) == Failure(NegativeValue(option))
    ensures UINT_LIMIT <= n ==> ParseCount(option + Digits(n), option) == Failure(NotANumber(option))
  {
    var d := Digits(n);
    assert (option + d)[|option|..] == d;
    ParseUnsignedIntDigits(n);
    if n < UINT_LIMIT {
      WrapUnsigned(n);
    }
  }

  /** `--name=` takes the rest of the argument with its whitespace runs
      turned into single underscores. */
  lemma NameOption(h: Harness, s: Settings, value: string)
    ensures Apply(h, s, NAME + value) == Success(s.(simulationName := Underscored(value)))
  {
    var arg := NAME + value;
    assert arg[2] == 'n' && arg[..|NAME|] == NAME;
    assert WORKERS[2] == 'w' && CLIENTS[2] == 'c' && PAYLOADS[2] == 'p' && WARMUPS[2] == 'w';
    assert arg[|NAME|..] == value;
  }
}

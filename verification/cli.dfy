/**
 The command line of the simulator: the flag parser that fills a
 `SimConfig` from its defaults, the `--help` scan, and the condition that
 decides on which cycles the grid is rendered.

 `atoi` and `atoll` are taken as parameters: any total map from text to an
 integer, whatever the C library does with malformed text.
 */
module Cli {
  import opened Types
  import CArith
  import opened Outcomes

  /** `SIM_CONFIG_DEFAULTS`, field by field from the `DEFAULT_*` constants. */
  const Defaults: SimConfig := SimConfig(
    globalW := 64, globalH := 64,
    totalCycles := 100, seasonLength := 100,
    numAgents := 50, maxWorkload := 500000,
    consumptionRate := 0.2, energyGain := 0.3, energyLoss := 0.4, initialEnergy := 0.8,
    seed := 42,
    tuiEnabled := true, tuiInterval := 1)

  /** The flags that take the next argument as their value. */
  datatype ValueFlag = Width | Height | Cycles | SeasonLength | AgentCount | Workload | SeedValue | TuiInterval

  /** The spelling of each value flag on the command line. */
  function FlagText(f: ValueFlag): string {
    match f
    case Width => "-w"
    case Height => "-h"
    case Cycles => "-c"
    case SeasonLength => "-s"
    case AgentCount => "-a"
    case Workload => "-W"
    case SeedValue => "-S"
    case TuiInterval => "--tui-interval"
  }

  /** The flag that disables rendering; it takes no value. */
  const NoTui: string := "--no-tui"

  /** The argument that asks for the usage text. */
  const Help: string := "--help"

  /** Which value flag, if any, an argument spells. */
  function FlagOf(arg: string): (r: Option<ValueFlag>)
    ensures r.Some? ==> FlagText(r.value) == arg
    ensures r.None? ==> forall f :: FlagText(f) != arg
  {
    if arg == "-w" then Some(Width)
    else if arg == "-h" then Some(Height)
    else if arg == "-c" then Some(Cycles)
    else if arg == "-s" then Some(SeasonLength)
    else if arg == "-a" then Some(AgentCount)
    else if arg == "-W" then Some(Workload)
    else if arg == "-S" then Some(SeedValue)
    else if arg == "--tui-interval" then Some(TuiInterval)
    else None
  }

  /** Each spelling names exactly one flag, and `--no-tui` and `--help` are not value flags. */
  lemma FlagOfInverse(f: ValueFlag)
    ensures FlagOf(FlagText(f)) == Some(f)
    ensures FlagText(f) != NoTui && FlagText(f) != Help
  {
  }

  /** The integer a flag's field holds; the seed is read as an unsigned 64-bit value. */
  function FieldValue(cfg: SimConfig, f: ValueFlag): int {
    match f
    case Width => cfg.globalW
    case Height => cfg.globalH
    case Cycles => cfg.totalCycles
    case SeasonLength => cfg.seasonLength
    case AgentCount => cfg.numAgents
    case Workload => cfg.maxWorkload
    case SeedValue => cfg.seed as int
    case TuiInterval => cfg.tuiInterval
  }

  /** The value a flag stores for its argument: `atoi`, or `(uint64_t)atoll` for the seed. */
  function Converted(f: ValueFlag, v: string, atoi: string -> int, atoll: string -> int): int {
    if f == SeedValue then CArith.U64(atoll(v)) as int else atoi(v)
  }

  /** Store a flag's value; nothing else in the configuration changes. */
  function SetField(cfg: SimConfig, f: ValueFlag, v: string, atoi: string -> int, atoll: string -> int): (r: SimConfig)
    ensures FieldValue(r, f) == Converted(f, v, atoi, atoll)
    ensures forall g :: g != f ==> FieldValue(r, g) == FieldValue(cfg, g)
    ensures r.tuiEnabled == cfg.tuiEnabled
    ensures r.consumptionRate == cfg.consumptionRate && r.energyGain == cfg.energyGain
    ensures r.energyLoss == cfg.energyLoss && r.initialEnergy == cfg.initialEnergy
  {
    match f
    case Width => cfg.(globalW := atoi(v))
    case Height => cfg.(globalH := atoi(v))
    case Cycles => cfg.(totalCycles := atoi(v))
    case SeasonLength => cfg.(seasonLength := atoi(v))
    case AgentCount => cfg.(numAgents := atoi(v))
    case Workload => cfg.(maxWorkload := atoi(v))
    case SeedValue => cfg.(seed := CArith.U64(atoll(v)))
    case TuiInterval => cfg.(tuiInterval := atoi(v))
  }

  /**
   The loop of `parse_args` from argument i on: a value flag followed by
   another argument stores that argument and skips it, `--no-tui` clears
   the render flag, and anything else (including a value flag in last
   position) is passed over.
   */
  function ParseFrom(cfg: SimConfig, args: seq<string>, i: nat, atoi: string -> int, atoll: string -> int): (r: SimConfig)
    decreases |args| - i
    ensures r.tuiEnabled ==> cfg.tuiEnabled
    ensures r.consumptionRate == cfg.consumptionRate && r.energyGain == cfg.energyGain
    ensures r.energyLoss == cfg.energyLoss && r.initialEnergy == cfg.initialEnergy
  {
    if i >= |args| then cfg
    else
      var flag := FlagOf(args[i]);
      if flag.Some? && i + 1 < |args| then
        ParseFrom(SetField(cfg, flag.value, args[i + 1], atoi, atoll), args, i + 2, atoi, atoll)
      else if args[i] == NoTui then
        ParseFrom(cfg.(tuiEnabled := false), args, i + 1, atoi, atoll)
      else
        ParseFrom(cfg, args, i + 1, atoi, atoll)
  }

  /** `parse_args` over `argv`: argument 0 is the program name. */
  function ParseArgs(args: seq<string>, atoi: string -> int, atoll: string -> int): SimConfig {
    ParseFrom(Defaults, args, 1, atoi, atoll)
  }

  /**
   The scan from position i ends exactly at the end of `args` without a
   value flag left waiting for its value: appending more arguments does not
   change how these ones are read.
   */
  predicate Aligned(args: seq<string>, i: nat)
    decreases |args| - i
  {
    if i >= |args| then i == |args|
    else if FlagOf(args[i]).Some? then i + 1 < |args| && Aligned(args, i + 2)
    else Aligned(args, i + 1)
  }

  /** Reading `a + b` from |a| + j is reading `b` from j. */
  lemma {:induction false} ParseShift(cfg: SimConfig, a: seq<string>, b: seq<string>, j: nat, atoi: string -> int, atoll: string -> int)
    ensures ParseFrom(cfg, a + b, |a| + j, atoi, atoll) == ParseFrom(cfg, b, j, atoi, atoll)
    decreases |b| - j
  {
    var ab := a + b;
    if j < |b| {
      assert ab[|a| + j] == b[j];
      var flag := FlagOf(b[j]);
      if flag.Some? && j + 1 < |b| {
        assert ab[|a| + j + 1] == b[j + 1];
        ParseShift(SetField(cfg, flag.value, b[j + 1], atoi, atoll), a, b, j + 2, atoi, atoll);
      } else if b[j] == NoTui {
        ParseShift(cfg.(tuiEnabled := false), a, b, j + 1, atoi, atoll);
      } else {
        ParseShift(cfg, a, b, j + 1, atoi, atoll);
      }
    }
  }

  /**
   Arguments are read left to right, each configuration step feeding the
   next: an aligned prefix can be parsed first and the rest applied to its
   result.
   */
  lemma {:induction false} ParseCompose(cfg: SimConfig, a: seq<string>, b: seq<string>, i: nat, atoi: string -> int, atoll: string -> int)
    requires Aligned(a, i)
    ensures ParseFrom(cfg, a + b, i, atoi, atoll) == ParseFrom(ParseFrom(cfg, a, i, atoi, atoll), b, 0, atoi, atoll)
    decreases |a| - i
  {
    var ab := a + b;
    if i == |a| {
      ParseShift(cfg, a, b, 0, atoi, atoll);
    } else {
      assert ab[i] == a[i];
      var flag := FlagOf(a[i]);
      if flag.Some? {
        assert ab[i + 1] == a[i + 1];
        ParseCompose(SetField(cfg, flag.value, a[i + 1], atoi, atoll), a, b, i + 2, atoi, atoll);
      } else if a[i] == NoTui {
        ParseCompose(cfg.(tuiEnabled := false), a, b, i + 1, atoi, atoll);
      } else {
        ParseCompose(cfg, a, b, i + 1, atoi, atoll);
      }
    }
  }

  /** A value flag in last position is ignored: the `i + 1 < argc` guard fails. */
  lemma TrailingFlagIgnored(cfg: SimConfig, a: seq<string>, f: ValueFlag, i: nat, atoi: string -> int, atoll: string -> int)
    requires Aligned(a, i)
    ensures ParseFrom(cfg, a + [FlagText(f)], i, atoi, atoll) == ParseFrom(cfg, a, i, atoi, atoll)
  {
    ParseCompose(cfg, a, [FlagText(f)], i, atoi, atoll);
    FlagOfInverse(f);
  }

  /**
   A value flag stores the argument after it whatever that argument is,
   and reading resumes after the value.
   */
  lemma ValueFlagConsumes(cfg: SimConfig, f: ValueFlag, v: string, b: seq<string>, atoi: string -> int, atoll: string -> int)
    ensures ParseFrom(cfg, [FlagText(f), v] + b, 0, atoi, atoll)
            == ParseFrom(SetField(cfg, f, v, atoi, atoll), b, 0, atoi, atoll)
  {
    FlagOfInverse(f);
    ParseShift(SetField(cfg, f, v, atoi, atoll), [FlagText(f), v], b, 0, atoi, atoll);
  }

  /** The last occurrence of a flag decides its field. */
  lemma LastOccurrenceWins(cfg: SimConfig, a: seq<string>, f: ValueFlag, v: string, i: nat, atoi: string -> int, atoll: string -> int)
    requires Aligned(a, i)
    ensures FieldValue(ParseFrom(cfg, a + [FlagText(f), v], i, atoi, atoll), f) == Converted(f, v, atoi, atoll)
  {
    var mid := ParseFrom(cfg, a, i, atoi, atoll);
    ParseCompose(cfg, a, [FlagText(f), v], i, atoi, atoll);
    ValueFlagConsumes(mid, f, v, [], atoi, atoll);
    assert [FlagText(f), v] + [] == [FlagText(f), v];
  }

  /** An argument that is neither a value flag nor `--no-tui` is skipped without effect. */
  lemma UnknownSkipped(cfg: SimConfig, a: seq<string>, u: string, b: seq<string>, i: nat, atoi: string -> int, atoll: string -> int)
    requires Aligned(a, i) && FlagOf(u).None? && u != NoTui
    ensures ParseFrom(cfg, a + [u] + b, i, atoi, atoll) == ParseFrom(cfg, a + b, i, atoi, atoll)
  {
    var mid := ParseFrom(cfg, a, i, atoi, atoll);
    assert a + [u] + b == a + ([u] + b);
    ParseCompose(cfg, a, [u] + b, i, atoi, atoll);
    ParseShift(mid, [u], b, 0, atoi, atoll);
    ParseCompose(cfg, a, b, i, atoi, atoll);
  }

  /** `--no-tui`, read as a flag, turns rendering off for good: no later argument turns it back on. */
  lemma NoTuiDisables(cfg: SimConfig, a: seq<string>, b: seq<string>, i: nat, atoi: string -> int, atoll: string -> int)
    requires Aligned(a, i)
    ensures !ParseFrom(cfg, a + [NoTui] + b, i, atoi, atoll).tuiEnabled
  {
    var mid := ParseFrom(cfg, a, i, atoi, atoll);
    assert a + [NoTui] + b == a + ([NoTui] + b);
    ParseCompose(cfg, a, [NoTui] + b, i, atoi, atoll);
    assert FlagOf(NoTui).None?;
    ParseShift(mid.(tuiEnabled := false), [NoTui], b, 0, atoi, atoll);
  }

  /** A field whose flag never appears from position i on keeps the value it had. */
  lemma {:induction false} Untouched(cfg: SimConfig, args: seq<string>, i: nat, f: ValueFlag, atoi: string -> int, atoll: string -> int)
    requires forall k :: i <= k < |args| ==> args[k] != FlagText(f)
    ensures FieldValue(ParseFrom(cfg, args, i, atoi, atoll), f) == FieldValue(cfg, f)
    decreases |args| - i
  {
    if i < |args| {
      var flag := FlagOf(args[i]);
      if flag.Some? && i + 1 < |args| {
        assert flag.value != f;
        Untouched(SetField(cfg, flag.value, args[i + 1], atoi, atoll), args, i + 2, f, atoi, atoll);
      } else if args[i] == NoTui {
        Untouched(cfg.(tuiEnabled := false), args, i + 1, f, atoi, atoll);
      } else {
        Untouched(cfg, args, i + 1, f, atoi, atoll);
      }
    }
  }

  /** Without `--no-tui` among the arguments rendering stays as it was. */
  lemma {:induction false} TuiUntouched(cfg: SimConfig, args: seq<string>, i: nat, atoi: string -> int, atoll: string -> int)
    requires forall k :: i <= k < |args| ==> args[k] != NoTui
    ensures ParseFrom(cfg, args, i, atoi, atoll).tuiEnabled == cfg.tuiEnabled
    decreases |args| - i
  {
    if i < |args| {
      var flag := FlagOf(args[i]);
      if flag.Some? && i + 1 < |args| {
        TuiUntouched(SetField(cfg, flag.value, args[i + 1], atoi, atoll), args, i + 2, atoi, atoll);
      } else {
        TuiUntouched(cfg, args, i + 1, atoi, atoll);
      }
    }
  }

  /** A flag the command line never names keeps its default. */
  lemma DefaultsKept(args: seq<string>, f: ValueFlag, atoi: string -> int, atoll: string -> int)
    requires forall k :: 1 <= k < |args| ==> args[k] != FlagText(f)
    ensures FieldValue(ParseArgs(args, atoi, atoll), f) == FieldValue(Defaults, f)
  {
    Untouched(Defaults, args, 1, f, atoi, atoll);
  }

  /** The usage check: `--help` anywhere after the program name, even where a flag consumed it as a value. */
  predicate HelpRequested(args: seq<string>) {
    exists k :: 1 <= k < |args| && args[k] == Help
  }

  /** `-h` is the height flag, never help; `--help` as a value is still seen by the usage check. */
  lemma HelpIsSeparate(prog: string, v: string, atoi: string -> int, atoll: string -> int)
    requires v != Help
    ensures !HelpRequested([prog, "-h", v]) && ParseArgs([prog, "-h", v], atoi, atoll).globalH == atoi(v)
    ensures HelpRequested([prog, "-S", Help])
            && ParseArgs([prog, "-S", Help], atoi, atoll).seed as int == CArith.U64(atoll(Help)) as int
  {
    ValueFlagConsumes(Defaults, Height, v, [], atoi, atoll);
    ParseShift(Defaults, [prog], ["-h", v], 0, atoi, atoll);
    assert [prog] + ["-h", v] == [prog, "-h", v];
    assert ["-h", v] + [] == ["-h", v];
    ValueFlagConsumes(Defaults, SeedValue, Help, [], atoi, atoll);
    ParseShift(Defaults, [prog], ["-S", Help], 0, atoi, atoll);
    assert [prog] + ["-S", Help] == [prog, "-S", Help];
    assert ["-S", Help] + [] == ["-S", Help];
    assert [prog, "-S", Help][2] == Help;
  }

  /** The fault of a C division or remainder by zero, undefined behaviour in C. */
  datatype Fault = DivisionByZero

  /**
   Whether cycle `cycle` is rendered (and gathered): rendering is on and
   the cycle is a multiple of the interval under C's `%`, or is the last
   one. With rendering on the `%` is evaluated first, so an interval of 0
   divides by zero on every cycle.
   */
  function RenderCycle(cfg: SimConfig, cycle: int): (r: Result<bool, Fault>)
    ensures r.Err? <==> cfg.tuiEnabled && cfg.tuiInterval == 0
    ensures !cfg.tuiEnabled ==> r == Ok(false)
  {
    if !cfg.tuiEnabled then Ok(false)
    else if cfg.tuiInterval == 0 then Err(DivisionByZero)
    else Ok(CArith.Rem(cycle, cfg.tuiInterval) == 0 || cycle == cfg.totalCycles - 1)
  }

  /**
   For the cycles the loop runs, a cycle is rendered exactly when it is a
   multiple of |interval| or the last one; with interval 1 every cycle is.
   */
  lemma RenderSchedule(cfg: SimConfig, cycle: int)
    requires cfg.tuiEnabled && cfg.tuiInterval != 0 && cycle >= 0
    ensures RenderCycle(cfg, cycle) == Ok(true) <==> cycle % CArith.Abs(cfg.tuiInterval) == 0 || cycle == cfg.totalCycles - 1
    ensures RenderCycle(cfg, cycle).Ok?
    ensures cycle == cfg.totalCycles - 1 ==> RenderCycle(cfg, cycle) == Ok(true)
    ensures CArith.Abs(cfg.tuiInterval) == 1 ==> RenderCycle(cfg, cycle) == Ok(true)
  {
    var k := CArith.Abs(cfg.tuiInterval);
    CArith.NonNegativeAgrees(cycle, k);
    assert CArith.Div(cycle, cfg.tuiInterval) * cfg.tuiInterval == CArith.Div(cycle, k) * k;
  }

  /**
   `--tui-interval 0` is accepted by `parse_args`, and with rendering left
   on every cycle's render test then divides by zero.
   */
  lemma ZeroIntervalFaults(prog: string, cycle: int, atoi: string -> int, atoll: string -> int)
    requires atoi("0") == 0
    ensures var cfg := ParseArgs([prog, "--tui-interval", "0"], atoi, atoll);
            && cfg.tuiEnabled && cfg.tuiInterval == 0
            && RenderCycle(cfg, cycle) == Err(DivisionByZero)
  {
    ValueFlagConsumes(Defaults, TuiInterval, "0", [], atoi, atoll);
    ParseShift(Defaults, [prog], ["--tui-interval", "0"], 0, atoi, atoll);
    assert [prog] + ["--tui-interval", "0"] == [prog, "--tui-interval", "0"];
    assert ["--tui-interval", "0"] + [] == ["--tui-interval", "0"];
  }
}

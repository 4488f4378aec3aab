/** `top/top.go`: the command line a `Config` gives `top`, and the two entry points that run it
    and parse what it writes. Whether the executable exists and what the process does are the
    host's business; they come in as parameters. */
module TopRun {

  import opened Wrappers
  import opened Strconv
  import opened TopRow
  import opened TopCapture

  /** The default path of the `top` executable. */
  const DEFAULT_EXEC_PATH := "/usr/bin/top"

  /** The flag that puts `top` in batch mode, and the wide-output setting that keeps long
      command lines whole. */
  const BATCH_FLAGS := ["-b", "-w", "512"]

  /** The flags for an iteration limit, an update interval in seconds and a process id: batch
      mode and width first, then `-n`, `-d` and `-p`, each only when its setting is positive. */
  function FlagList(limit: int, interval: real, pid: int): seq<string> {
    BATCH_FLAGS
    + (if limit > 0 then ["-n", FormatInt(limit)] else [])
    + (if interval > 0.0 then ["-d", Fixed2(interval)] else [])
    + (if pid > 0 then ["-p", FormatInt(pid)] else [])
  }

  /** The argument that follows the first occurrence of `flag` in `args`, as `top` reads it. */
  function FlagArg(args: seq<string>, flag: string): Option<string> {
    if |args| < 2 then None
    else if args[0] == flag then Some(args[1])
    else FlagArg(args[1..], flag)
  }

  /** Arguments that are not `flag` are passed over. */
  lemma {:induction false} FlagArgSkips(pre: seq<string>, rest: seq<string>, flag: string)
    requires forall k :: 0 <= k < |pre| ==> pre[k] != flag
    ensures FlagArg(pre + rest, flag) == FlagArg(rest, flag)
  {
    if pre != [] {
      var s := pre + rest;
      assert s[0] == pre[0] != flag;
      assert s[1..] == pre[1..] + rest;
      FlagArgSkips(pre[1..], rest, flag);
      if |s| < 2 {
        assert pre[1..] + rest == [];
      }
    } else {
      assert pre + rest == rest;
    }
  }

  /** A flag directly followed by its value is found. */
  lemma FlagArgFinds(flag: string, value: string, rest: seq<string>)
    ensures FlagArg([flag, value] + rest, flag) == Some(value)
  {
  }

  /** None of the rendered values looks like a flag. */
  lemma ValuesAreNotFlags(limit: int, interval: real, pid: int)
    ensures limit > 0 ==> FormatInt(limit)[0] != '-'
    ensures interval > 0.0 ==> Fixed2(interval)[0] != '-'
    ensures pid > 0 ==> FormatInt(pid)[0] != '-'
  {
  }

  /** The optional part of the command line: the `-n`, `-d` and `-p` pairs. */
  function LimitFlags(limit: int): seq<string> {
    if limit > 0 then ["-n", FormatInt(limit)] else []
  }

  function IntervalFlags(interval: real): seq<string> {
    if interval > 0.0 then ["-d", Fixed2(interval)] else []
  }

  function PidFlags(pid: int): seq<string> {
    if pid > 0 then ["-p", FormatInt(pid)] else []
  }

  lemma FlagListParts(limit: int, interval: real, pid: int)
    ensures FlagList(limit, interval, pid) ==
            BATCH_FLAGS + LimitFlags(limit) + IntervalFlags(interval) + PidFlags(pid)
  {
  }

  /** A list of settings pairs whose values do not look like `flag` holds `flag` as its first
      element's flag, if at all. */
  lemma PairArg(pair: seq<string>, rest: seq<string>, flag: string)
    requires pair == [] || (|pair| == 2 && pair[1] != flag)
    ensures FlagArg(pair + rest, flag) ==
            (if pair != [] && pair[0] == flag then Some(pair[1]) else FlagArg(rest, flag))
  {
    if pair != [] {
      if pair[0] == flag {
        FlagArgFinds(flag, pair[1], rest);
      } else {
        FlagArgSkips(pair, rest, flag);
      }
    } else {
      assert pair + rest == rest;
    }
  }

  /** The command line read back: `-w` is 512, and `-n`, `-d` and `-p` appear, with their
      rendered settings, exactly when those settings are positive; the list always starts with
      batch mode. */
  lemma FlagListMeaning(limit: int, interval: real, pid: int)
    ensures var fs := FlagList(limit, interval, pid);
      fs[..3] == BATCH_FLAGS && FlagArg(fs, "-w") == Some("512") &&
      FlagArg(fs, "-n") == (if limit > 0 then Some(FormatInt(limit)) else None) &&
      FlagArg(fs, "-d") == (if interval > 0.0 then Some(Fixed2(interval)) else None) &&
      FlagArg(fs, "-p") == (if pid > 0 then Some(FormatInt(pid)) else None)
  {
    var n, d, p := LimitFlags(limit), IntervalFlags(interval), PidFlags(pid);
    FlagListParts(limit, interval, pid);
    var fs := FlagList(limit, interval, pid);
    ValuesAreNotFlags(limit, interval, pid);
    assert fs == BATCH_FLAGS + (n + (d + p));
    assert fs[..3] == BATCH_FLAGS;
    assert fs == ["-b"] + (["-w", "512"] + (n + (d + p)));
    FlagArgSkips(["-b"], ["-w", "512"] + (n + (d + p)), "-w");
    FlagArgFinds("-w", "512", n + (d + p));
    FlagArgSkips(BATCH_FLAGS, n + (d + p), "-n");
    FlagArgSkips(BATCH_FLAGS, n + (d + p), "-d");
    FlagArgSkips(BATCH_FLAGS, n + (d + p), "-p");
    FlagArgOfSettings(n, d, p, limit, interval, pid);
  }

  lemma FlagArgOfSettings(n: seq<string>, d: seq<string>, p: seq<string>,
                          limit: int, interval: real, pid: int)
    requires n == LimitFlags(limit) && d == IntervalFlags(interval) && p == PidFlags(pid)
    ensures FlagArg(n + (d + p), "-n") == (if limit > 0 then Some(FormatInt(limit)) else None)
    ensures FlagArg(n + (d + p), "-d") == (if interval > 0.0 then Some(Fixed2(interval)) else None)
    ensures FlagArg(n + (d + p), "-p") == (if pid > 0 then Some(FormatInt(pid)) else None)
  {
    ValuesAreNotFlags(limit, interval, pid);
    assert p + [] == p;
    PairArg(p, [], "-n");
    PairArg(p, [], "-d");
    PairArg(p, [], "-p");
    PairArg(d, p, "-n");
    PairArg(d, p, "-d");
    PairArg(d, p, "-p");
    PairArg(n, d + p, "-n");
    PairArg(n, d + p, "-d");
    PairArg(n, d + p, "-p");
  }

  /** The values on the command line read back as the settings: the limit and the process id
      exactly, the interval to within half a hundredth of a second. */
  lemma FlagValuesRoundTrip(limit: int64, interval: real, pid: int64)
    ensures var fs := FlagList(limit, interval, pid);
      (limit > 0 ==> FlagArg(fs, "-n").Some? && ParseInt(FlagArg(fs, "-n").value) == WithError(limit, None)) &&
      (pid > 0 ==> FlagArg(fs, "-p").Some? && ParseInt(FlagArg(fs, "-p").value) == WithError(pid, None)) &&
      (interval > 0.0 ==>
        FlagArg(fs, "-d").Some? &&
        var r := ParseFloat(FlagArg(fs, "-d").value);
        r.Ok() && -0.005 <= DecimalValue(r.value) - interval <= 0.005)
  {
    FlagListMeaning(limit, interval, pid);
    FormatIntParses(limit);
    FormatIntParses(pid);
    if interval > 0.0 {
      Fixed2Parses(interval);
    }
  }

  /** The flags come in an odd number: the three batch flags, then flag and value pairs. */
  lemma FlagListLength(limit: int, interval: real, pid: int)
    ensures var fs := FlagList(limit, interval, pid);
      |fs| == 3 + 2 * ((if limit > 0 then 1 else 0) + (if interval > 0.0 then 1 else 0) +
                       (if pid > 0 then 1 else 0)) &&
      |fs| % 2 == 1
  {
  }

  /** `exec.Command(path, args...)`: the program to run and its arguments. */
  datatype Command = Command(path: string, args: seq<string>)

  /** The errors the entry points report besides those of the parser. */
  datatype RunError = ExecMissing(path: string) | RunFailed(reason: string) | Parsing(parseError: ParseError)

  /** The parser's error as an entry point reports it. */
  function Lift(e: Option<ParseError>): (r: Option<RunError>)
    ensures r.None? <==> e.None?
    ensures e.Some? ==> r.value.Parsing? && r.value.parseError == e.value
  {
    if e.None? then None else Some(Parsing(e.value))
  }

  /** `Config`: where `top` is, how many iterations to ask for, the interval between them, the
      process to watch, and the command built from these. */
  class Config {
    var exec: string
    var limit: int
    var intervalSecond: real
    var pid: int64
    var cmd: Option<Command>

    constructor (exec: string, limit: int, intervalSecond: real, pid: int64)
      ensures this.exec == exec && this.limit == limit && this.intervalSecond == intervalSecond
      ensures this.pid == pid && cmd == None
    {
      this.exec := exec;
      this.limit := limit;
      this.intervalSecond := intervalSecond;
      this.pid := pid;
      cmd := None;
    }

    /** `Config.Flags`: the command-line flags for the current settings. */
    method Flags() returns (fs: seq<string>)
      ensures fs == FlagList(limit, intervalSecond, pid)
    {
      fs := [];
      fs := fs + BATCH_FLAGS;
      if limit > 0 {
        fs := fs + ["-n", FormatInt(limit)];
      }
      assert fs == BATCH_FLAGS + LimitFlags(limit);
      if intervalSecond > 0.0 {
        fs := fs + ["-d", Fixed2(intervalSecond)];
      }
      assert fs == BATCH_FLAGS + LimitFlags(limit) + IntervalFlags(intervalSecond);
      if pid > 0 {
        fs := fs + ["-p", FormatInt(pid)];
      }
      FlagListParts(limit, intervalSecond, pid);
    }

    /** `Config.createCmd`: fails when the executable is missing; otherwise records the
        command with the flags of the current settings. */
    method CreateCmd(execExists: bool) returns (err: Option<RunError>)
      modifies this
      ensures exec == old(exec) && limit == old(limit) && intervalSecond == old(intervalSecond)
      ensures pid == old(pid)
      ensures !execExists ==> err == Some(ExecMissing(exec)) && cmd == old(cmd)
      ensures execExists ==> err == None && cmd == Some(Command(exec, FlagList(limit, intervalSecond, pid)))
    {
      if !execExists {
        return Some(ExecMissing(exec));
      }
      var flags := Flags();
      cmd := Some(Command(exec, flags));
      return None;
    }
  }

  /** How a run to completion ends: with what the process wrote, or with the error `Run`
      reports (a failure to start or a non-zero exit). */
  datatype RunResult = Exited(output: string) | Failed(cause: string)

  /** The settings `Get` runs with: at least one iteration, and one second when the interval is
      not positive. */
  function GetCommand(path: string, pid: int64, limit: int, interval: real): Command {
    Command(path, FlagList(if limit < 1 then 1 else limit, if interval <= 0.0 then 1.0 else interval, pid))
  }

  /** `Get`: runs `top` once to completion and parses its output. `execExists` says whether the
      executable is there and `run` what running a command gives. */
  method Get(topPath: string, pid: int64, limit: int, interval: real,
             execExists: bool, run: Command -> RunResult)
    returns (rows: seq<Row>, iterations: int, err: Option<RunError>)
    ensures !execExists ==> rows == [] && iterations == -1 && err == Some(ExecMissing(topPath))
    ensures execExists && run(GetCommand(topPath, pid, limit, interval)).Failed? ==>
      rows == [] && iterations == -1 &&
      err == Some(RunFailed(run(GetCommand(topPath, pid, limit, interval)).cause))
    ensures execExists && run(GetCommand(topPath, pid, limit, interval)).Exited? ==>
      exists perr :: ParseOutcome(run(GetCommand(topPath, pid, limit, interval)).output, rows, iterations, perr) &&
                     err == Lift(perr)
  {
    var cfg := new Config(topPath, limit, interval, pid);
    if cfg.limit < 1 {
      cfg.limit := 1;
    }
    if cfg.intervalSecond <= 0.0 {
      cfg.intervalSecond := 1.0;
    }
    err := cfg.CreateCmd(execExists);
    if err.Some? {
      return [], -1, err;
    }
    var result := run(cfg.cmd.value);
    if result.Failed? {
      return [], -1, Some(RunFailed(result.cause));
    }
    var perr;
    rows, iterations, perr := Parse(result.output);
    err := Lift(perr);
  }

  /** `Get` always asks for a bounded number of iterations, at least one, and sets an
      interval. */
  lemma GetBoundsTheRun(path: string, pid: int64, limit: int64, interval: real)
    ensures var fs := GetCommand(path, pid, limit, interval).args;
      FlagArg(fs, "-n").Some? && FlagArg(fs, "-d").Some? &&
      ParseInt(FlagArg(fs, "-n").value).Ok() && ParseInt(FlagArg(fs, "-n").value).value >= 1 &&
      (limit >= 1 ==> ParseInt(FlagArg(fs, "-n").value).value == limit)
  {
    var l: int64 := if limit < 1 then 1 else limit;
    var i := if interval <= 0.0 then 1.0 else interval;
    FlagListMeaning(l, i, pid);
    FlagValuesRoundTrip(l, i, pid);
  }

  /** How a run against a deadline ends: the process exits first, with what it wrote and the
      error `Wait` reports if any, or the deadline comes first and the process is killed after
      writing what it wrote until then. */
  datatype TimedResult = ExitedFirst(output: string, failure: Option<string>) | Killed(output: string)

  /** The settings `GetTimed` runs with: no iteration limit, and one second when the interval is
      not positive. */
  function GetTimedCommand(path: string, pid: int64, interval: real): Command {
    Command(path, FlagList(0, if interval <= 0.0 then 1.0 else interval, pid))
  }

  /** `GetTimed`: runs `top` until the deadline `stopTimestampNano` and parses what it wrote.
      `run` says what running a command until a deadline gives. */
  method GetTimed(topPath: string, pid: int64, stopTimestampNano: int64, interval: real,
                  execExists: bool, run: (Command, int64) -> TimedResult)
    returns (rows: seq<Row>, iterations: int, err: Option<RunError>)
    ensures !execExists ==> rows == [] && iterations == -1 && err == Some(ExecMissing(topPath))
    ensures execExists ==>
      var r := run(GetTimedCommand(topPath, pid, interval), stopTimestampNano);
      (r.ExitedFirst? && r.failure.Some? ==>
        rows == [] && iterations == -1 && err == Some(RunFailed(r.failure.value))) &&
      (r.Killed? || r.failure.None? ==>
        exists perr :: ParseOutcome(r.output, rows, iterations, perr) && err == Lift(perr))
  {
    var cfg := new Config(topPath, 0, interval, pid);
    if cfg.intervalSecond <= 0.0 {
      cfg.intervalSecond := 1.0;
    }
    err := cfg.CreateCmd(execExists);
    if err.Some? {
      return [], -1, err;
    }
    var result := run(cfg.cmd.value, stopTimestampNano);
    if result.ExitedFirst? && result.failure.Some? {
      return [], -1, Some(RunFailed(result.failure.value));
    }
    var perr;
    rows, iterations, perr := Parse(result.output);
    err := Lift(perr);
  }

  /** `GetTimed` never limits the iterations, so only the deadline ends `top`, and it always
      sets an interval. */
  lemma GetTimedRunsToDeadline(path: string, pid: int64, interval: real)
    ensures var fs := GetTimedCommand(path, pid, interval).args;
      FlagArg(fs, "-n").None? && FlagArg(fs, "-d").Some?
  {
    FlagListMeaning(0, if interval <= 0.0 then 1.0 else interval, pid);
  }

  /** A positive interval of at most five thousandths of a second is written as `0.00` (the
      half-way `0.005` rounds to the even `0`), so `top` is asked to refresh without delay. */
  lemma TinyIntervalRendersAsZero(path: string, pid: int64, interval: real)
    requires 0.0 < interval <= 0.005
    ensures FlagArg(GetTimedCommand(path, pid, interval).args, "-d") == Some("0.00")
  {
    FlagListMeaning(0, interval, pid);
    assert (100.0 * interval).Floor == 0;
    assert RoundHundredths(interval) == 0;
    assert FormatNat(0) == "0";
    assert Hundredths(0) == "0" + "." + "00" == "0.00";
  }
}

/**
 * The launcher of Crusade of Ages (`sm.CrusadeOfAges`): the configuration folder,
 * server host and server port start from built-in defaults, the folder is first
 * taken from the operating system, and `manageArgs` then lets `-c`, `-h` and `-p`
 * override them from the command line.
 */
module Launcher {
  import opened Wrappers
  import opened JavaLang

  const DefaultHost: string := "localhost"
  const DefaultPort: int := 5338

  /** The three options `manageArgs` recognises. */
  const Flags: set<string> := {"-c", "-h", "-p"}

  /** The launcher's static fields; `appdata` is `None` while it is still `null`. */
  datatype LaunchConfig = LaunchConfig(appdata: Option<string>, host: string, port: int)

  /** The exceptions an argument can raise: no value after a flag, or a port that is not an integer. */
  datatype ArgFault = MissingValue | BadPort

  /** The configuration after scanning some arguments, and the fault that stopped the scan, if any. */
  datatype ArgsOutcome = ArgsOutcome(config: LaunchConfig, fault: Option<ArgFault>)

  /**
   * One turn of the argument loop at index i: a flag takes the next argument as its
   * value (reading past the end is out of range), `-p` parses it as an `int`, and
   * every other argument is ignored.
   */
  function ArgStep(c: LaunchConfig, args: seq<string>, i: nat): (r: Result<LaunchConfig, ArgFault>)
    requires i < |args|
    ensures args[i] !in Flags ==> r == Ok(c)
    ensures r.Err? ==> args[i] in Flags
  {
    if args[i] !in Flags then Ok(c)
    else if i + 1 == |args| then Err(MissingValue)
    else
      match args[i]
      case "-c" => Ok(c.(appdata := Some(args[i + 1])))
      case "-h" => Ok(c.(host := args[i + 1]))
      case _ =>
        match ParseInt(args[i + 1])
        case None => Err(BadPort)
        case Some(p) => Ok(c.(port := p))
  }

  /** The loop over the first k arguments, one index at a time, stopping at the first fault. */
  function ScanArgs(c: LaunchConfig, args: seq<string>, k: nat): ArgsOutcome
    requires k <= |args|
  {
    if k == 0 then ArgsOutcome(c, None)
    else
      var prev := ScanArgs(c, args, k - 1);
      if prev.fault.Some? then prev
      else
        match ArgStep(prev.config, args, k - 1)
        case Ok(d) => ArgsOutcome(d, None)
        case Err(f) => ArgsOutcome(prev.config, Some(f))
  }

  /** The launcher's static state. */
  class CrusadeOfAges {
    var appdata: Option<string>
    var host: string
    var port: int

    /** The static initialisers: no folder yet, the local host and port 5338. */
    constructor ()
      ensures Config() == LaunchConfig(None, DefaultHost, DefaultPort)
    {
      appdata := None;
      host := DefaultHost;
      port := DefaultPort;
    }

    function Config(): LaunchConfig
      reads this
    {
      LaunchConfig(appdata, host, port)
    }

    /**
     * `manageArgs`: each index in turn, including the ones just consumed as a value.
     * A fault stops the loop and leaves the fields as the earlier arguments set them.
     */
    method ManageArgs(args: seq<string>) returns (fault: Option<ArgFault>)
      modifies this
      ensures ArgsOutcome(Config(), fault) == ScanArgs(old(Config()), args, |args|)
    {
      ghost var start := Config();
      fault := None;
      var i := 0;
      while i < |args|
        invariant 0 <= i <= |args|
        invariant fault.None? && ScanArgs(start, args, i) == ArgsOutcome(Config(), None)
      {
        match args[i] {
          case "-c" =>
            if i + 1 == |args| {
              fault := Some(MissingValue);
            } else {
              appdata := Some(args[i + 1]);
            }
          case "-h" =>
            if i + 1 == |args| {
              fault := Some(MissingValue);
            } else {
              host := args[i + 1];
            }
          case "-p" =>
            if i + 1 == |args| {
              fault := Some(MissingValue);
            } else {
              var p := ParseInt(args[i + 1]);
              if p.None? {
                fault := Some(BadPort);
              } else {
                port := p.value;
              }
            }
          case _ =>
        }
        if fault.Some? {
          FaultStops(start, args, i + 1, |args|);
          return;
        }
        i := i + 1;
      }
    }

    /**
     * The start of `main` up to the server connection: the folder comes from the
     * `AppData` variable on Windows and from the working directory elsewhere, then
     * the arguments are applied.
     */
    method Start(isWindows: bool, envAppData: Option<string>, userDir: Option<string>, args: seq<string>)
      returns (fault: Option<ArgFault>)
      modifies this
      ensures ArgsOutcome(Config(), fault)
           == ScanArgs(old(Config()).(appdata := if isWindows then envAppData else userDir), args, |args|)
    {
      if isWindows {
        appdata := envAppData;
      } else {
        appdata := userDir;
      }
      fault := ManageArgs(args);
    }
  }

  /** Once the scan has faulted, later arguments are never looked at. */
  lemma {:induction false} FaultStops(c: LaunchConfig, args: seq<string>, k: nat, m: nat)
    requires k <= m <= |args| && ScanArgs(c, args, k).fault.Some?
    ensures ScanArgs(c, args, m) == ScanArgs(c, args, k)
    decreases m
  {
    if m > k {
      FaultStops(c, args, k, m - 1);
    }
  }

  /** Arguments that are not flags change nothing: without flags the defaults stay. */
  lemma {:induction false} NoFlagsNoChange(c: LaunchConfig, args: seq<string>, k: nat)
    requires k <= |args| && forall j :: 0 <= j < k ==> args[j] !in Flags
    ensures ScanArgs(c, args, k) == ArgsOutcome(c, None)
  {
    if k > 0 {
      NoFlagsNoChange(c, args, k - 1);
    }
  }

  /** The setting a flag controls is the same in both configurations. */
  predicate Agree(flag: string, a: LaunchConfig, b: LaunchConfig) {
    match flag
    case "-c" => a.appdata == b.appdata
    case "-h" => a.host == b.host
    case "-p" => a.port == b.port
    case _ => true
  }

  /**
   * A flag that does not occur among the arguments leaves its setting as it was,
   * whatever the other flags do and whether or not the scan faults.
   */
  lemma {:induction false} AbsentFlagKeeps(c: LaunchConfig, args: seq<string>, k: nat, flag: string)
    requires k <= |args| && flag in Flags && forall j :: 0 <= j < k ==> args[j] != flag
    ensures Agree(flag, ScanArgs(c, args, k).config, c)
  {
    if k > 0 {
      AbsentFlagKeeps(c, args, k - 1, flag);
    }
  }

  /** Without `-h` the host stays "localhost", and without `-p` the port stays 5338. */
  lemma ServerDefaultsKept(folder: Option<string>, args: seq<string>)
    ensures "-h" !in args ==> ScanArgs(LaunchConfig(folder, DefaultHost, DefaultPort), args, |args|).config.host == "localhost"
    ensures "-p" !in args ==> ScanArgs(LaunchConfig(folder, DefaultHost, DefaultPort), args, |args|).config.port == 5338
  {
    var c := LaunchConfig(folder, DefaultHost, DefaultPort);
    if "-h" !in args {
      AbsentFlagKeeps(c, args, |args|, "-h");
    }
    if "-p" !in args {
      AbsentFlagKeeps(c, args, |args|, "-p");
    }
  }

  /**
   * A later occurrence of a flag overrides an earlier one: when the scan succeeds,
   * the setting ends up as the last occurrence's value makes it.
   */
  lemma {:induction false} LastFlagWins(c: LaunchConfig, args: seq<string>, k: nat, m: nat)
    requires k < m <= |args| && ScanArgs(c, args, m).fault.None?
    requires args[k] in Flags && forall j :: k < j < m ==> args[j] != args[k]
    ensures k + 1 < |args|
    ensures args[k] == "-c" ==> ScanArgs(c, args, m).config.appdata == Some(args[k + 1])
    ensures args[k] == "-h" ==> ScanArgs(c, args, m).config.host == args[k + 1]
    ensures args[k] == "-p" ==> Some(ScanArgs(c, args, m).config.port) == ParseInt(args[k + 1])
    decreases m
  {
    if m == k + 1 {
      var prev := ScanArgs(c, args, k);
      assert ArgStep(prev.config, args, k).Ok?;
    } else {
      LastFlagWins(c, args, k, m - 1);
      var prev := ScanArgs(c, args, m - 1);
      assert Agree(args[k], ArgStep(prev.config, args, m - 1).value, prev.config);
    }
  }

  /** A flag in last position has no value: the scan fails with an index out of range. */
  lemma FlagLast(c: LaunchConfig, args: seq<string>)
    requires |args| > 0 && args[|args| - 1] in Flags
    ensures ScanArgs(c, args, |args|).fault.Some?
    ensures ScanArgs(c, args, |args| - 1).fault.None? ==> ScanArgs(c, args, |args|).fault == Some(MissingValue)
  {
  }

  /** A `-p` whose value is not an `int` fails the scan with a number-format error, if nothing failed before. */
  lemma BadPortFails(c: LaunchConfig, args: seq<string>, i: nat)
    requires i + 1 < |args| && args[i] == "-p" && ParseInt(args[i + 1]).None?
    requires ScanArgs(c, args, i).fault.None?
    ensures ScanArgs(c, args, |args|).fault == Some(BadPort)
  {
    FaultStops(c, args, i + 1, |args|);
  }

  /** The loop does not skip a consumed value: in `-h -p 80` the host is "-p" and the port 80. */
  lemma ValueIsAlsoAFlag(c: LaunchConfig)
    ensures ScanArgs(c, ["-h", "-p", "80"], 3) == ArgsOutcome(c.(host := "-p", port := 80), None)
  {
    var args := ["-h", "-p", "80"];
    ParseIntOfToString(80);
    assert IntToString(80) == "80";
    assert ScanArgs(c, args, 1) == ArgsOutcome(c.(host := "-p"), None);
    assert ScanArgs(c, args, 2) == ArgsOutcome(c.(host := "-p", port := 80), None);
  }

  /**
   * A `-c` argument overrides the folder the operating system gave, because the
   * arguments are applied after it.
   */
  lemma ConfigFolderOverridesOs(c: LaunchConfig, os: Option<string>, args: seq<string>, k: nat)
    requires k < |args| && args[k] == "-c" && forall j :: k < j < |args| ==> args[j] != "-c"
    requires ScanArgs(c.(appdata := os), args, |args|).fault.None?
    ensures k + 1 < |args|
    ensures ScanArgs(c.(appdata := os), args, |args|).config.appdata == Some(args[k + 1])
  {
    LastFlagWins(c.(appdata := os), args, k, |args|);
  }
}

/** The command-line scanner `ParseCommandLine` (Program.cs:187-209).

    Each argument is cut after its first '-', the rest is matched without
    regard to case against the parameter names, and a recognised name takes
    the next argument as its value.  `Enum.Parse` throwing on an unknown name
    and `args[++i]` running off the end of the array are the two ways the
    scan fails; the model returns them as errors. */
module CommandLine {
  import opened Basics

  /** The members of the `CommandLineParameters` enumeration that the scanner handles. */
  datatype ParameterName = Root | OutputFile

  /** The `Parameters` struct; `None` is a field left `null`. */
  datatype Parameters = Parameters(rootDirectory: Option<string>, outputFile: Option<string>)

  const Unset := Parameters(None, None)

  datatype ParseError =
    | UnknownParameter(text: string)     // `Enum.Parse` rejects the text
    | MissingValue(parameter: ParameterName)  // `args[++i]` is past the end

  /** `s.IndexOf(c)`: the first position of `c`, or -1 when there is none. */
  function IndexOf(s: string, c: char): (k: int)
    ensures -1 <= k < |s|
    ensures k == -1 <==> c !in s
    ensures k >= 0 ==> s[k] == c && c !in s[..k]
  {
    if s == [] then -1
    else if s[0] == c then 0
    else
      var k := IndexOf(s[1..], c);
      assert s[1..][..k + 1] == s[1..k + 2] by { assert k + 2 <= |s| || k == -1; }
      if k == -1 then -1 else k + 1
  }

  /** `args[i].Substring(args[i].IndexOf("-") + 1)`: everything after the
      first '-', or the whole argument when it has none. */
  function NameText(arg: string): (name: string)
    ensures '-' !in arg ==> name == arg
    ensures '-' in arg ==>
      exists k :: 0 <= k < |arg| && arg[k] == '-' && '-' !in arg[..k] && name == arg[k + 1..]
  {
    arg[IndexOf(arg, '-') + 1..]
  }

  /** The spelling of each parameter name. */
  function Spelling(name: ParameterName): string
  {
    match name
    case Root => "Root"
    case OutputFile => "OutputFile"
  }

  /** `Enum.Parse(typeof(CommandLineParameters), text, true)`: the member
      whose name equals the text ignoring case, if there is one. */
  function ParameterNamed(text: string): Option<ParameterName>
  {
    if EqualsIgnoreCase(text, "Root") then Some(Root)
    else if EqualsIgnoreCase(text, "OutputFile") then Some(OutputFile)
    else None
  }

  /** A text selects exactly the names it equals ignoring case. */
  lemma ParameterNamedSpec(text: string, name: ParameterName)
    ensures ParameterNamed(text) == Some(name) <==> EqualsIgnoreCase(text, Spelling(name))
  {
    assert |Spelling(Root)| != |Spelling(OutputFile)|;
  }

  function Assign(p: Parameters, name: ParameterName, value: string): Parameters
  {
    match name
    case Root => p.(rootDirectory := Some(value))
    case OutputFile => p.(outputFile := Some(value))
  }

  /** The scan of the remaining arguments `args`, starting from the fields
      set so far. */
  function Parse(args: seq<string>, p: Parameters): Result<Parameters, ParseError>
    decreases |args|
  {
    if args == [] then Ok(p)
    else
      match ParameterNamed(NameText(args[0]))
      case None => Err(UnknownParameter(NameText(args[0])))
      case Some(name) =>
        if |args| == 1 then Err(MissingValue(name))
        else Parse(args[2..], Assign(p, name, args[1]))
  }

  /** `ParseCommandLine`: the `for` loop whose index also moves past a value. */
  method ParseCommandLine(args: seq<string>) returns (result: Result<Parameters, ParseError>)
    ensures result == Parse(args, Unset)
  {
    var parameters := Unset;
    var i := 0;
    while i < |args|
      invariant 0 <= i <= |args|
      invariant Parse(args[i..], parameters) == Parse(args, Unset)
    {
      var argument := NameText(args[i]);
      match ParameterNamed(argument) {
        case None =>
          return Err(UnknownParameter(argument));
        case Some(name) =>
          if i + 1 >= |args| {
            return Err(MissingValue(name));
          }
          assert args[i..][2..] == args[i + 2..];
          i := i + 1;
          parameters := Assign(parameters, name, args[i]);
      }
      i := i + 1;
    }
    return Ok(parameters);
  }

  // ---------------------------------------------------------------------------
  // Properties
  // ---------------------------------------------------------------------------

  /** A prefix that scans cleanly can be scanned first and the rest continued
      from its fields: the scan goes strictly left to right in name/value pairs. */
  lemma {:induction false} ParseConcat(a: seq<string>, b: seq<string>, p: Parameters, q: Parameters)
    requires Parse(a, p) == Ok(q)
    ensures Parse(a + b, p) == Parse(b, q)
    decreases |a|
  {
    if a == [] {
      assert a + b == b;
    } else {
      var name := ParameterNamed(NameText(a[0])).value;
      assert (a + b)[0] == a[0];
      assert (a + b)[2..] == a[2..] + b;
      ParseConcat(a[2..], b, Assign(p, name, a[1]), q);
    }
  }

  /** An unrecognised name stops the scan, whatever follows it. */
  lemma {:induction false} UnknownNameIsFinal(a: seq<string>, b: seq<string>, p: Parameters)
    requires Parse(a, p).Err? && Parse(a, p).error.UnknownParameter?
    ensures Parse(a + b, p) == Parse(a, p)
    decreases |a|
  {
    var name := ParameterNamed(NameText(a[0]));
    assert (a + b)[0] == a[0];
    if name.Some? {
      assert (a + b)[2..] == a[2..] + b;
      UnknownNameIsFinal(a[2..], b, Assign(p, name.value, a[1]));
    }
  }

  /** A recognised name sets its field to the argument after it, and a later
      occurrence overwrites an earlier one. */
  lemma LaterOccurrenceWins(a: seq<string>, p: Parameters, q: Parameters, flag: string, value: string)
    requires Parse(a, p) == Ok(q)
    requires ParameterNamed(NameText(flag)).Some?
    ensures Parse(a + [flag, value], p) == Ok(Assign(q, ParameterNamed(NameText(flag)).value, value))
  {
    ParseConcat(a, [flag, value], p, q);
  }

  /** A recognised name as the last argument has no value: an error. */
  lemma TrailingNameHasNoValue(a: seq<string>, p: Parameters, q: Parameters, flag: string)
    requires Parse(a, p) == Ok(q)
    requires ParameterNamed(NameText(flag)).Some?
    ensures Parse(a + [flag], p) == Err(MissingValue(ParameterNamed(NameText(flag)).value))
  {
    ParseConcat(a, [flag], p, q);
  }

  /** Case does not matter in a name. */
  lemma {:induction false} NameCaseInsensitive(s: string, t: string)
    requires EqualsIgnoreCase(s, t)
    ensures ParameterNamed(s) == ParameterNamed(t)
  {
    assert EqualsIgnoreCase(s, "Root") <==> EqualsIgnoreCase(t, "Root");
    assert EqualsIgnoreCase(s, "OutputFile") <==> EqualsIgnoreCase(t, "OutputFile");
  }

  /** The command line that sets exactly the given fields. */
  function Arguments(p: Parameters): seq<string>
  {
    (match p.rootDirectory case None => [] case Some(r) => ["-Root", r])
    + (match p.outputFile case None => [] case Some(o) => ["-OutputFile", o])
  }

  /** Scanning that command line gives back exactly those fields, whatever
      the values look like (a value is never read as a name). */
  lemma {:induction false} ArgumentsRoundTrip(p: Parameters)
    ensures Parse(Arguments(p), Unset) == Ok(p)
  {
    var first := match p.rootDirectory case None => [] case Some(r) => ["-Root", r];
    var second := match p.outputFile case None => [] case Some(o) => ["-OutputFile", o];
    var mid := Parameters(p.rootDirectory, None);
    assert NameText("-Root") == "Root";
    assert NameText("-OutputFile") == "OutputFile";
    assert Parse(first, Unset) == Ok(mid);
    ParseConcat(first, second, Unset, mid);
  }

  /** A doubled dash is cut after the first one, leaving "-Root": not a name. */
  lemma DoubleDashIsNotAName()
    ensures Parse(["--Root", "C:"], Unset) == Err(UnknownParameter("-Root"))
  {
    assert NameText("--Root") == "-Root";
  }

  /** Without a '-' nothing is cut, so a '/' prefix is part of the name. */
  lemma SlashIsNotCut()
    ensures Parse(["/Root", "C:"], Unset) == Err(UnknownParameter("/Root"))
  {
    assert NameText("/Root") == "/Root";
  }

  /** Text before the first '-' is dropped, and case is ignored. */
  lemma TextBeforeDashDropped()
    ensures Parse(["x-ROOT", "C:"], Unset) == Ok(Parameters(Some("C:"), None))
  {
    assert IndexOf("x-ROOT", '-') == 1;
    assert NameText("x-ROOT") == "ROOT";
    assert ParameterNamed("ROOT") == Some(Root) by {
      assert forall i :: 0 <= i < 4 ==> LowerAscii("ROOT"[i]) == LowerAscii("Root"[i]);
    }
  }

  /** A name alone at the end has no value. */
  lemma LoneNameIsMissingValue()
    ensures Parse(["-Root"], Unset) == Err(MissingValue(Root))
  {
    assert NameText("-Root") == "Root";
  }
}

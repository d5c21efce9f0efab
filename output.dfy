/** Line routing, `WriteOutput` (Program.cs:118-146): every line goes to the
    console in a colour picked from the text of the whole line, and, while
    an output file is open, to the file, twice (the method has two
    identical `if (outputFile != null)` writes). */
module Output {
  import opened Basics
  import opened FriendlyBytes

  datatype Colour = Red | Yellow | Green | Default

  datatype ConsoleLine = ConsoleLine(colour: Colour, text: string)

  /** The colour of a console line: the first of "GB", "MB", "KB" that occurs
      anywhere in the line decides; none of them gives the default colour. */
  function ColourOf(line: string): (c: Colour)
    ensures c == Red <==> Contains(line, "GB")
    ensures c == Yellow <==> !Contains(line, "GB") && Contains(line, "MB")
    ensures c == Green <==> !Contains(line, "GB") && !Contains(line, "MB") && Contains(line, "KB")
    ensures c == Default <==> MentionsNoUnit(line)
  {
    if Contains(line, "GB") then Red
    else if Contains(line, "MB") then Yellow
    else if Contains(line, "KB") then Green
    else Default
  }

  /** The colour each unit is meant to be shown in. */
  function UnitColour(u: Unit): Colour
  {
    match u
    case GB => Red
    case MB => Yellow
    case KB => Green
    case Bytes => Default
  }

  predicate MentionsNoUnit(s: string)
  {
    !Contains(s, "GB") && !Contains(s, "MB") && !Contains(s, "KB")
  }

  /** The console lines `WriteOutput` produces for `lines`, one per line. */
  function Coloured(lines: seq<string>): (out: seq<ConsoleLine>)
    ensures |out| == |lines|
  {
    if lines == [] then [] else Coloured(lines[..|lines| - 1]) + [ConsoleLine(ColourOf(lines[|lines| - 1]), lines[|lines| - 1])]
  }

  /** The file lines `WriteOutput` produces for `lines`: each one twice. */
  function Doubled(lines: seq<string>): (out: seq<string>)
    ensures |out| == 2 * |lines|
  {
    if lines == [] then [] else Doubled(lines[..|lines| - 1]) + [lines[|lines| - 1], lines[|lines| - 1]]
  }

  /** Line `k` goes to the console as itself, in the colour its text selects. */
  lemma {:induction false} ColouredLines(lines: seq<string>)
    ensures forall k :: 0 <= k < |lines| ==> Coloured(lines)[k] == ConsoleLine(ColourOf(lines[k]), lines[k])
  {
    if lines != [] {
      ColouredLines(lines[..|lines| - 1]);
    }
  }

  /** Line `k` is written to the file at positions `2k` and `2k + 1`. */
  lemma {:induction false} DoubledLines(lines: seq<string>)
    ensures forall k :: 0 <= k < |lines| ==> Doubled(lines)[2 * k] == lines[k] && Doubled(lines)[2 * k + 1] == lines[k]
  {
    if lines != [] {
      DoubledLines(lines[..|lines| - 1]);
    }
  }

  lemma SingleLine(l: seq<string>)
    requires |l| == 1
    ensures Coloured(l) == [ConsoleLine(ColourOf(l[0]), l[0])]
    ensures Doubled(l) == [l[0], l[0]]
  {
    assert l[..0] == [];
  }

  lemma {:induction false} ColouredConcat(a: seq<string>, b: seq<string>)
    ensures Coloured(a + b) == Coloured(a) + Coloured(b)
    decreases |b|
  {
    if b == [] {
      assert a + b == a;
    } else {
      var b0 := b[..|b| - 1];
      assert (a + b)[..|a + b| - 1] == a + b0;
      ColouredConcat(a, b0);
    }
  }

  lemma {:induction false} DoubledConcat(a: seq<string>, b: seq<string>)
    ensures Doubled(a + b) == Doubled(a) + Doubled(b)
    decreases |b|
  {
    if b == [] {
      assert a + b == a;
    } else {
      var b0 := b[..|b| - 1];
      assert (a + b)[..|a + b| - 1] == a + b0;
      DoubledConcat(a, b0);
    }
  }

  // ---------------------------------------------------------------------------
  // The console and the output file
  // ---------------------------------------------------------------------------

  /** The process's two sinks: the console, and the static `outputFile`, which
      is `null` unless an output file was given. */
  class Sink {
    var outputFile: bool   // `outputFile != null`
    var disposed: bool
    var fileLines: seq<string>
    var console: seq<ConsoleLine>

    constructor ()
      ensures !outputFile && !disposed && fileLines == [] && console == []
    {
      outputFile, disposed, fileLines, console := false, false, [], [];
    }

    /** `new StreamWriter(new FileStream(path, FileMode.Create, ...))`: a new, empty file. */
    method Open()
      modifies this
      ensures outputFile && !disposed && fileLines == [] && console == old(console)
    {
      outputFile, disposed, fileLines := true, false, [];
    }

    /** `outputFile.Dispose()`: the file is closed; what it holds stays. */
    method Dispose()
      modifies this
      ensures disposed
      ensures outputFile == old(outputFile) && fileLines == old(fileLines) && console == old(console)
    {
      disposed := true;
    }

    /** `WriteOutput(output)`. */
    method WriteOutput(output: string)
      requires !disposed
      modifies this
      ensures outputFile == old(outputFile) && disposed == old(disposed)
      ensures fileLines == if outputFile then old(fileLines) + [output, output] else old(fileLines)
      ensures console == old(console) + [ConsoleLine(ColourOf(output), output)]
    {
      if outputFile {
        fileLines := fileLines + [output];
      }
      if outputFile {
        fileLines := fileLines + [output];
      }
      if Contains(output, "GB") {
        console := console + [ConsoleLine(Red, output)];
      } else if Contains(output, "MB") {
        console := console + [ConsoleLine(Yellow, output)];
      } else if Contains(output, "KB") {
        console := console + [ConsoleLine(Green, output)];
      } else {
        console := console + [ConsoleLine(Default, output)];
      }
    }

    /** `Console.WriteLine(text)`: the console only, in the default colour. */
    method WriteConsole(text: string)
      modifies this
      ensures outputFile == old(outputFile) && disposed == old(disposed) && fileLines == old(fileLines)
      ensures console == old(console) + [ConsoleLine(Default, text)]
    {
      console := console + [ConsoleLine(Default, text)];
    }
  }

  /** `WriteOutput` applied to each line in turn (the `foreach` loops of `Main`). */
  method WriteAll(sink: Sink, lines: seq<string>)
    requires !sink.disposed
    modifies sink
    ensures sink.outputFile == old(sink.outputFile) && !sink.disposed
    ensures sink.fileLines == old(sink.fileLines) + (if sink.outputFile then Doubled(lines) else [])
    ensures sink.console == old(sink.console) + Coloured(lines)
  {
    var i := 0;
    while i < |lines|
      invariant 0 <= i <= |lines|
      invariant sink.outputFile == old(sink.outputFile) && !sink.disposed
      invariant sink.fileLines == old(sink.fileLines) + (if sink.outputFile then Doubled(lines[..i]) else [])
      invariant sink.console == old(sink.console) + Coloured(lines[..i])
    {
      assert lines[..i + 1][..i] == lines[..i];
      sink.WriteOutput(lines[i]);
      i := i + 1;
    }
    assert lines[..i] == lines;
  }

  // ---------------------------------------------------------------------------
  // Properties of the colour choice
  // ---------------------------------------------------------------------------

  lemma DigitsMentionNoUnit(s: string)
    requires AllDigits(s)
    ensures MentionsNoUnit(s)
  {
    FirstCharAbsent(s, "GB");
    FirstCharAbsent(s, "MB");
    FirstCharAbsent(s, "KB");
  }

  /** The unit name ends the text; whichever unit it is, only that code occurs in it. */
  lemma UnitNameCodes(u: Unit)
    ensures u != Bytes ==> Contains(UnitName(u), UnitName(u))
    ensures forall v :: v != Bytes && v != u ==> !Contains(UnitName(u), UnitName(v))
  {
    assert OccursAt(UnitName(u), UnitName(u), 0);
    forall v | v != Bytes && v != u
      ensures !Contains(UnitName(u), UnitName(v))
    {
      FirstCharAbsent(UnitName(u), UnitName(v));
    }
  }

  /** When neither the entry's name nor the rendered number mentions a unit
      code, the line's colour is exactly the colour of the size's unit. */
  lemma {:induction false} EntryColourFollowsUnit(name: string, bytes: nat, fixed2: (nat, nat) -> string)
    requires MentionsNoUnit(name)
    requires UnitOf(bytes) != Bytes ==> MentionsNoUnit(fixed2(bytes, Divisor(UnitOf(bytes))))
    ensures ColourOf(name + "\t" + FriendlyBytesAmount(bytes, fixed2)) == UnitColour(UnitOf(bytes))
  {
    var u := UnitOf(bytes);
    var text := FriendlyBytesAmount(bytes, fixed2);
    FriendlyIsUnitOf(bytes, fixed2);
    assert name + "\t" + text == name + ['\t'] + text;
    ContainsAcrossSeparator(name, '\t', text, "GB");
    ContainsAcrossSeparator(name, '\t', text, "MB");
    ContainsAcrossSeparator(name, '\t', text, "KB");
    if u == Bytes {
      var digits := DecimalString(bytes);
      assert text == digits + [' '] + "bytes";
      DigitsMentionNoUnit(digits);
      ContainsAcrossSeparator(digits, ' ', "bytes", "GB");
      ContainsAcrossSeparator(digits, ' ', "bytes", "MB");
      ContainsAcrossSeparator(digits, ' ', "bytes", "KB");
      FirstCharAbsent("bytes", "GB");
      FirstCharAbsent("bytes", "MB");
      FirstCharAbsent("bytes", "KB");
    } else {
      var number := fixed2(bytes, Divisor(u));
      assert text == number + [' '] + UnitName(u);
      ContainsAcrossSeparator(number, ' ', UnitName(u), "GB");
      ContainsAcrossSeparator(number, ' ', UnitName(u), "MB");
      ContainsAcrossSeparator(number, ' ', UnitName(u), "KB");
      UnitNameCodes(u);
      assert UnitName(GB) == "GB" && UnitName(MB) == "MB" && UnitName(KB) == "KB";
    }
  }

  /** The choice reads the whole line, names included: a 10-byte entry whose
      name starts with "MB" is shown in the megabyte colour. */
  lemma NameDecidesColour(fixed2: (nat, nat) -> string)
    ensures UnitOf(10) == Bytes
    ensures ColourOf("MBA" + "\t" + FriendlyBytesAmount(10, fixed2)) == Yellow
  {
    UnitRanges(10);
    var text := FriendlyBytesAmount(10, fixed2);
    assert text == "10" + [' '] + "bytes";
    assert "MBA" + "\t" + text == "MBA" + ['\t'] + text;
    ContainsAcrossSeparator("MBA", '\t', text, "GB");
    ContainsAcrossSeparator("MBA", '\t', text, "MB");
    DigitsMentionNoUnit("10");
    ContainsAcrossSeparator("10", ' ', "bytes", "GB");
    FirstCharAbsent("MBA", "GB");
    FirstCharAbsent("bytes", "GB");
    assert OccursAt("MBA", "MB", 0);
  }
}

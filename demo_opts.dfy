/**
 * examples/demo_opts.py: `load_config`, which turns a settings file into
 * extra command-line arguments, and `get_device`, which puts those
 * arguments before the given ones and picks the display family by first
 * match. Argument parsing (argparse) is a parameter: `parse` maps an
 * argument list to the options it yields. The file system is a map from
 * path to raw file text.
 */
module DemoOpts {
  import opened Wrappers
  import opened Text

  /** The exceptions these functions let escape. */
  datatype Failure =
    | IOError             // `open` on a path that cannot be read
    | TypeError           // `name in None`: a family key missing from the table
    | UnboundLocalError   // `return device` when no family matched

  // ---------------------------------------------------------------------------
  // Reading a text file

  /**
   * Text-mode reading with universal newlines: "\r\n" and a lone "\r"
   * both become "\n".
   */
  function UniversalNewlines(raw: string): (t: string)
    ensures '\r' !in t
    ensures '\r' !in raw ==> t == raw
    decreases |raw|
  {
    if |raw| == 0 then []
    else if raw[0] == '\r' then
      "\n" + UniversalNewlines(if |raw| > 1 && raw[1] == '\n' then raw[2..] else raw[1..])
    else [raw[0]] + UniversalNewlines(raw[1..])
  }

  /** The lines laid end to end. */
  function Concat(lines: seq<string>): string
  {
    if |lines| == 0 then [] else lines[0] + Concat(lines[1..])
  }

  /** A line of `readlines()`: not empty, and a newline only at its end. */
  predicate IsLine(line: string)
  {
    |line| > 0 && '\n' !in line[..|line| - 1]
  }

  /**
   * `readlines()`: the text cut after every newline; the last line has no
   * newline when the text does not end with one.
   */
  function ReadLines(text: string): (lines: seq<string>)
    ensures Concat(lines) == text
    ensures forall k :: 0 <= k < |lines| ==> IsLine(lines[k])
    ensures forall k :: 0 <= k < |lines| - 1 ==> |lines[k]| > 0 && lines[k][|lines[k]| - 1] == '\n'
    decreases |text|
  {
    if |text| == 0 then []
    else
      var head := TakeUntil(text, '\n');
      if |head| == |text| then
        assert text[..|text| - 1] <= head;
        [text]
      else
        assert text == head + "\n" + text[|head| + 1..];
        assert (head + "\n")[..|head|] == head;
        [head + "\n"] + ReadLines(text[|head| + 1..])
  }

  // ---------------------------------------------------------------------------
  // load_config

  /** A line is kept when it is not blank and does not begin with '#'. */
  predicate Keep(line: string)
  {
    Strip(line) != [] && !StartsWith(line, "#")
  }

  /** The arguments the kept lines give, newlines removed, in file order. */
  function KeptLines(lines: seq<string>): (args: seq<string>)
    ensures |args| <= |lines|
    ensures forall k :: 0 <= k < |args| ==> '\n' !in args[k]
  {
    if |lines| == 0 then []
    else (if Keep(lines[0]) then [RemoveChar(lines[0], '\n')] else []) + KeptLines(lines[1..])
  }

  /** What `load_config` returns for a file with this raw text. */
  function ConfigArgs(raw: string): seq<string>
  {
    KeptLines(ReadLines(UniversalNewlines(raw)))
  }

  /** Filtering two runs of lines one after the other keeps their order. */
  lemma {:induction false} KeptLinesAppend(a: seq<string>, b: seq<string>)
    ensures KeptLines(a + b) == KeptLines(a) + KeptLines(b)
    decreases |a|
  {
    if |a| > 0 {
      assert (a + b)[1..] == a[1..] + b;
      KeptLinesAppend(a[1..], b);
    } else {
      assert a + b == b;
    }
  }

  /** One more line adds its argument, if it is kept, at the end. */
  lemma KeptLinesSnoc(lines: seq<string>, i: nat)
    requires i < |lines|
    ensures KeptLines(lines[..i + 1]) ==
              KeptLines(lines[..i]) + (if Keep(lines[i]) then [RemoveChar(lines[i], '\n')] else [])
  {
    assert lines[..i + 1] == lines[..i] + [lines[i]];
    KeptLinesAppend(lines[..i], [lines[i]]);
    assert KeptLines([lines[i]]) == (if Keep(lines[i]) then [RemoveChar(lines[i], '\n')] else []) + KeptLines([]);
  }

  /** An argument comes out exactly when some kept line gives it. */
  lemma {:induction false} KeptLinesMembers(lines: seq<string>, x: string)
    ensures x in KeptLines(lines) <==>
              exists k :: 0 <= k < |lines| && Keep(lines[k]) && x == RemoveChar(lines[k], '\n')
    decreases |lines|
  {
    if |lines| > 0 {
      KeptLinesMembers(lines[1..], x);
      if exists k :: 0 <= k < |lines| && Keep(lines[k]) && x == RemoveChar(lines[k], '\n') {
        var k :| 0 <= k < |lines| && Keep(lines[k]) && x == RemoveChar(lines[k], '\n');
        if k > 0 {
          assert lines[1..][k - 1] == lines[k];
        }
      }
      if x in KeptLines(lines[1..]) {
        var k :| 0 <= k < |lines| - 1 && Keep(lines[1..][k]) && x == RemoveChar(lines[1..][k], '\n');
        assert lines[k + 1] == lines[1..][k];
      }
    }
  }

  /** A line is kept exactly when it has a non-blank character and its first one is not '#'. */
  lemma KeepIff(line: string)
    ensures Keep(line) <==> !IsBlank(line) && |line| > 0 && line[0] != '#'
  {
    StripEmpty(line);
    if |line| > 0 {
      assert StartsWith(line, "#") <==> line[..1] == [line[0]] == "#";
    }
  }

  /** The argument a line gives: the line without its final newline. */
  lemma LineArgument(body: string)
    requires '\n' !in body
    ensures RemoveChar(body + "\n", '\n') == body
  {
    RemoveCharAppend(body, "\n", '\n');
    assert RemoveChar("\n", '\n') == [];
  }

  /**
   * A line with blanks before its '#' is not a comment: it is kept,
   * indentation and all, such as "  #x".
   */
  lemma IndentedHashKept(indent: string, rest: string)
    requires |indent| > 0 && IsBlank(indent)
    requires '\n' !in indent && '\n' !in rest
    ensures KeptLines([indent + "#" + rest + "\n"]) == [indent + "#" + rest]
  {
    var body := indent + "#" + rest;
    var line := body + "\n";
    assert line[|indent|] == '#' && !IsSpace(line[|indent|]);
    assert line[0] == indent[0] && IsSpace(line[0]);
    KeepIff(line);
    LineArgument(body);
    assert KeptLines([line]) == [RemoveChar(line, '\n')] + KeptLines([]);
  }

  /** Comment lines and blank lines give no argument. */
  lemma SkippedLine(line: string, lines: seq<string>)
    requires IsBlank(line) || (|line| > 0 && line[0] == '#')
    ensures KeptLines([line] + lines) == KeptLines(lines)
  {
    KeepIff(line);
    assert ([line] + lines)[1..] == lines;
  }

  /** A settings file written one argument per line. */
  function ArgumentFile(args: seq<string>): string
  {
    if |args| == 0 then [] else args[0] + "\n" + ArgumentFile(args[1..])
  }

  /** An argument that survives being written on a line of its own. */
  predicate PlainArgument(a: string)
  {
    '\n' !in a && '\r' !in a && !IsBlank(a) && |a| > 0 && a[0] != '#'
  }

  /** `readlines()` splits off a first line that ends with a newline. */
  lemma ReadLinesCons(a: string, rest: string)
    requires '\n' !in a
    ensures ReadLines(a + "\n" + rest) == [a + "\n"] + ReadLines(rest)
  {
    var text := a + "\n" + rest;
    assert text == a + ("\n" + rest);
    TakeUntilAppend(a, "\n" + rest, '\n');
    assert TakeUntil("\n" + rest, '\n') == [];
    assert TakeUntil(text, '\n') == a;
    assert text[|a| + 1..] == rest;
  }

  /** A file writing each argument on its own line has no carriage return. */
  lemma {:induction false} ArgumentFileNoReturn(args: seq<string>)
    requires forall k :: 0 <= k < |args| ==> PlainArgument(args[k])
    ensures '\r' !in ArgumentFile(args)
    decreases |args|
  {
    if |args| > 0 {
      assert PlainArgument(args[0]);
      assert forall k :: 0 <= k < |args| - 1 ==> args[1..][k] == args[k + 1];
      ArgumentFileNoReturn(args[1..]);
      assert ArgumentFile(args) == args[0] + ("\n" + ArgumentFile(args[1..]));
    }
  }

  /** The line of one such argument is kept and gives the argument. */
  lemma ArgumentLineKept(a: string)
    requires PlainArgument(a)
    ensures Keep(a + "\n") && RemoveChar(a + "\n", '\n') == a
  {
    assert (a + "\n")[0] == a[0];
    assert !IsBlank(a + "\n") by {
      var k :| 0 <= k < |a| && !IsSpace(a[k]);
      assert (a + "\n")[k] == a[k];
    }
    KeepIff(a + "\n");
    LineArgument(a);
  }

  /** The lines of a file that lists `args` one per line. */
  function ArgumentLines(args: seq<string>): (lines: seq<string>)
    ensures |lines| == |args|
  {
    if |args| == 0 then [] else [args[0] + "\n"] + ArgumentLines(args[1..])
  }

  /** `readlines()` cuts such a file into one line per argument. */
  lemma {:induction false} ReadArgumentFile(args: seq<string>)
    requires forall k :: 0 <= k < |args| ==> '\n' !in args[k]
    ensures ReadLines(ArgumentFile(args)) == ArgumentLines(args)
    decreases |args|
  {
    if |args| > 0 {
      var rest := args[1..];
      assert forall k :: 0 <= k < |rest| ==> rest[k] == args[k + 1];
      ReadArgumentFile(rest);
      ReadLinesCons(args[0], ArgumentFile(rest));
    }
  }

  lemma HeadTail(s: seq<string>)
    requires |s| > 0
    ensures s == [s[0]] + s[1..]
  {
  }

  /** A kept first line gives the first argument. */
  lemma KeptLinesCons(line: string, lines: seq<string>)
    requires Keep(line)
    ensures KeptLines([line] + lines) == [RemoveChar(line, '\n')] + KeptLines(lines)
  {
    assert ([line] + lines)[1..] == lines;
  }

  /** Filtering the lines of such a file gives the arguments back. */
  lemma {:induction false} KeptArgumentLines(args: seq<string>)
    requires forall k :: 0 <= k < |args| ==> PlainArgument(args[k])
    ensures KeptLines(ArgumentLines(args)) == args
    decreases |args|
  {
    if |args| > 0 {
      var rest := args[1..];
      var line := args[0] + "\n";
      assert forall k :: 0 <= k < |rest| ==> rest[k] == args[k + 1];
      KeptArgumentLines(rest);
      ArgumentLineKept(args[0]);
      KeptLinesCons(line, ArgumentLines(rest));
      assert ArgumentLines(args) == [line] + ArgumentLines(rest);
      HeadTail(args);
    }
  }

  /**
   * `load_config` gives back the arguments of a file that lists them one
   * per line, in the same order.
   */
  lemma ConfigArgsOfArgumentFile(args: seq<string>)
    requires forall k :: 0 <= k < |args| ==> PlainArgument(args[k])
    ensures ConfigArgs(ArgumentFile(args)) == args
  {
    ArgumentFileNoReturn(args);
    ReadArgumentFile(args);
    KeptArgumentLines(args);
  }

  /** An option such as "--width=800" can be written on a line of its own. */
  lemma OptionArgument(a: string)
    requires |a| > 0 && a[0] == '-' && '\n' !in a && '\r' !in a
    ensures PlainArgument(a)
  {
    assert !IsSpace(a[0]);
  }

  /** The arguments the loading test expects from its settings file, written one per line, come back as listed. */
  lemma TestConfigArguments()
    ensures var args := ["--display=capture", "--width=800", "--height=8600", "--spi-bus-speed=16000000"];
            ConfigArgs(ArgumentFile(args)) == args
  {
    var args := ["--display=capture", "--width=800", "--height=8600", "--spi-bus-speed=16000000"];
    forall k | 0 <= k < |args|
      ensures PlainArgument(args[k])
    {
      OptionArgument(args[k]);
    }
    ConfigArgsOfArgumentFile(args);
  }

  /**
   * `load_config(path)`: reads every line and collects the kept ones with
   * their newlines removed; a missing file raises `IOError`.
   */
  method LoadConfig(files: map<string, string>, path: string) returns (r: Result<seq<string>, Failure>)
    ensures path !in files ==> r == Err(IOError)
    ensures path in files ==> r == Ok(ConfigArgs(files[path]))
  {
    if path !in files {
      return Err(IOError);
    }
    var args := CollectArgs(ReadLines(UniversalNewlines(files[path])));
    return Ok(args);
  }

  /** The loop of `load_config` over the lines `readlines()` returned. */
  method CollectArgs(lines: seq<string>) returns (args: seq<string>)
    ensures args == KeptLines(lines)
  {
    args := [];
    for i := 0 to |lines|
      invariant args == KeptLines(lines[..i])
    {
      KeptLinesSnoc(lines, i);
      if Keep(lines[i]) {
        args := args + [RemoveChar(lines[i], '\n')];
      }
    }
    assert lines[..|lines|] == lines;
  }

  // ---------------------------------------------------------------------------
  // get_device

  /** The display families, in the order `get_device` tries them. */
  datatype Family = Oled | Lcd | LedMatrix | Emulator

  const FamilyOrder: seq<Family> := [Oled, Lcd, LedMatrix, Emulator]

  /** The key of a family in `display_types`. */
  function Key(f: Family): string
  {
    match f
    case Oled => "oled"
    case Lcd => "lcd"
    case LedMatrix => "led_matrix"
    case Emulator => "emulator"
  }

  /** The position of a family in the dispatch order. */
  function Rank(f: Family): (i: nat)
    ensures i < |FamilyOrder| && FamilyOrder[i] == f
  {
    match f
    case Oled => 0
    case Lcd => 1
    case LedMatrix => 2
    case Emulator => 3
  }

  /**
   * The module-level table: for each family key in order, the device
   * names `get_choices` found for it (`choices[i]` for the i-th family).
   */
  method BuildDisplayTypes(choices: seq<seq<string>>) returns (displayTypes: map<string, seq<string>>)
    requires |choices| == |FamilyOrder|
    ensures forall f: Family :: Key(f) in displayTypes && displayTypes[Key(f)] == choices[Rank(f)]
    ensures forall key :: key in displayTypes ==> exists f: Family :: key == Key(f)
  {
    displayTypes := map[];
    for i := 0 to |FamilyOrder|
      invariant forall k :: 0 <= k < i ==> Key(FamilyOrder[k]) in displayTypes && displayTypes[Key(FamilyOrder[k])] == choices[k]
      invariant forall key :: key in displayTypes ==> exists k :: 0 <= k < i && key == Key(FamilyOrder[k])
    {
      displayTypes := displayTypes[Key(FamilyOrder[i]) := choices[i]];
    }
    forall f: Family
      ensures Key(f) in displayTypes && displayTypes[Key(f)] == choices[Rank(f)]
    {
      assert FamilyOrder[Rank(f)] == f;
    }
    forall key | key in displayTypes
      ensures exists f: Family :: key == Key(f)
    {
      var k :| 0 <= k < |FamilyOrder| && key == Key(FamilyOrder[k]);
      assert key == Key(FamilyOrder[k]);
    }
  }

  /**
   * The `if`/`elif` chain over the families from `order` on: the first one
   * whose list holds the name, `None` when none does, and `TypeError` when
   * the chain reaches a family missing from the table.
   */
  function Dispatch(display: string, dtypes: map<string, seq<string>>, order: seq<Family>): (r: Result<Option<Family>, Failure>)
    ensures r.Ok? && r.value.Some? ==>
              r.value.value in order && Key(r.value.value) in dtypes && display in dtypes[Key(r.value.value)]
    ensures r.Err? ==> r.error == TypeError
  {
    if |order| == 0 then Ok(None)
    else if Key(order[0]) !in dtypes then Err(TypeError)
    else if display in dtypes[Key(order[0])] then Ok(Some(order[0]))
    else Dispatch(display, dtypes, order[1..])
  }

  /** Every family has its key in the table. */
  predicate Complete(dtypes: map<string, seq<string>>)
  {
    forall f: Family :: Key(f) in dtypes
  }

  /**
   * With a complete table the chain never raises, and it picks family `f`
   * exactly when `f` lists the name and no earlier family does.
   */
  lemma {:induction false} DispatchFirstMatch(display: string, dtypes: map<string, seq<string>>, order: seq<Family>, i: nat)
    requires forall k :: 0 <= k < |order| ==> Key(order[k]) in dtypes
    requires forall a, b :: 0 <= a < b < |order| ==> order[a] != order[b]
    requires i < |order|
    ensures Dispatch(display, dtypes, order) == Ok(Some(order[i])) <==>
              display in dtypes[Key(order[i])] && forall j :: 0 <= j < i ==> display !in dtypes[Key(order[j])]
    decreases i
  {
    if i > 0 && display !in dtypes[Key(order[0])] {
      assert forall a, b :: 0 <= a < b < |order| - 1 ==> order[1..][a] == order[a + 1] && order[1..][b] == order[b + 1];
      DispatchFirstMatch(display, dtypes, order[1..], i - 1);
      assert forall j :: 1 <= j < i ==> order[j] == order[1..][j - 1];
    } else if i > 0 {
      assert order[i] != order[0];
      assert Dispatch(display, dtypes, order) == Ok(Some(order[0]));
    }
  }

  /** With a complete table, no family listing the name gives `None`. */
  lemma {:induction false} DispatchNoMatch(display: string, dtypes: map<string, seq<string>>, order: seq<Family>)
    requires forall k :: 0 <= k < |order| ==> Key(order[k]) in dtypes
    ensures Dispatch(display, dtypes, order).Ok?
    ensures Dispatch(display, dtypes, order) == Ok(None) <==>
              forall k :: 0 <= k < |order| ==> display !in dtypes[Key(order[k])]
    decreases |order|
  {
    if |order| > 0 {
      DispatchNoMatch(display, dtypes, order[1..]);
      assert forall k :: 1 <= k < |order| ==> order[k] == order[1..][k - 1];
    }
  }

  /** The family-order form of `DispatchFirstMatch`, for a complete table. */
  lemma FamilyFirstMatch(display: string, dtypes: map<string, seq<string>>, f: Family)
    requires Complete(dtypes)
    ensures Dispatch(display, dtypes, FamilyOrder) == Ok(Some(f)) <==>
              display in dtypes[Key(f)] && forall g: Family :: Rank(g) < Rank(f) ==> display !in dtypes[Key(g)]
  {
    DispatchFirstMatch(display, dtypes, FamilyOrder, Rank(f));
    assert forall j :: 0 <= j < Rank(f) ==> Rank(FamilyOrder[j]) == j;
  }

  /** The options argparse yields that `get_device` looks at. */
  datatype Options = Options(config: Option<string>, display: string)

  /** A constructed device: its family, its class name and the options it was built from. */
  datatype Device = Device(family: Family, display: string, opts: Options)

  /** `actual_args`, defaulting to `sys.argv[1:]`. */
  function ActualArgs(actualArgs: Option<seq<string>>, argv: seq<string>): (args: seq<string>)
    ensures actualArgs.Some? ==> args == actualArgs.value
    ensures actualArgs.None? && |argv| > 0 ==> argv == [argv[0]] + args
    ensures actualArgs.None? && |argv| == 0 ==> args == []
  {
    match actualArgs
    case Some(args) => args
    case None => if |argv| == 0 then [] else argv[1..]
  }

  /**
   * `get_device(actual_args)`: parses the arguments; when they name a
   * config file (a non-empty path), parses its lines followed by the
   * arguments again; then dispatches on the display name.
   */
  function GetDevice(actualArgs: Option<seq<string>>, argv: seq<string>, parse: seq<string> -> Options,
                     files: map<string, string>, displayTypes: map<string, seq<string>>): (r: Result<Device, Failure>)
    ensures var args := ActualArgs(actualArgs, argv);
            var first := parse(args);
            var wantsConfig := first.config.Some? && first.config.value != "";
            && (r == Err(IOError) <==> wantsConfig && first.config.value !in files)
            && (r.Ok? ==>
                  && r.value.opts == (if wantsConfig then parse(ConfigArgs(files[first.config.value]) + args) else first)
                  && r.value.display == r.value.opts.display
                  && Dispatch(r.value.display, displayTypes, FamilyOrder) == Ok(Some(r.value.family)))
            && (r.Err? ==> r.error != TypeError)
            && (r != Err(IOError) ==>
                  var opts := if wantsConfig then parse(ConfigArgs(files[first.config.value]) + args) else first;
                  (r == Err(UnboundLocalError) <==> !(Dispatch(opts.display, displayTypes, FamilyOrder).Ok?
                                                       && Dispatch(opts.display, displayTypes, FamilyOrder).value.Some?)))
  {
    var args := ActualArgs(actualArgs, argv);
    var first := parse(args);
    if first.config.Some? && first.config.value != "" && first.config.value !in files then Err(IOError)
    else
      var opts := if first.config.Some? && first.config.value != "" then
                    parse(ConfigArgs(files[first.config.value]) + args)
                  else first;
      match Dispatch(opts.display, displayTypes, FamilyOrder)
      // The `TypeError` of `name in None` comes before any branch has run its
      // `import luma.<family>.device`, and those imports make `luma` a local
      // name of `get_device`, so evaluating `except luma.core.error.Error`
      // raises `UnboundLocalError` in its place.
      case Err(_) => Err(UnboundLocalError)
      case Ok(None) => Err(UnboundLocalError)
      case Ok(Some(f)) => Ok(Device(f, opts.display, opts))
  }

  /**
   * On the table `get_device` uses, a display listed in some family always
   * yields a device, never an exception other than `IOError`.
   */
  lemma GetDeviceListed(actualArgs: Option<seq<string>>, argv: seq<string>, parse: seq<string> -> Options,
                        files: map<string, string>, displayTypes: map<string, seq<string>>, f: Family)
    requires Complete(displayTypes)
    requires GetDevice(actualArgs, argv, parse, files, displayTypes) != Err(IOError)
    requires var args := ActualArgs(actualArgs, argv);
             var first := parse(args);
             var opts := if first.config.Some? && first.config.value != "" then
                           parse(ConfigArgs(files[first.config.value]) + args)
                         else first;
             opts.display in displayTypes[Key(f)]
    ensures GetDevice(actualArgs, argv, parse, files, displayTypes).Ok?
  {
    var args := ActualArgs(actualArgs, argv);
    var first := parse(args);
    var opts := if first.config.Some? && first.config.value != "" then
                  parse(ConfigArgs(files[first.config.value]) + args)
                else first;
    var d := opts.display;
    assert forall k :: 0 <= k < |FamilyOrder| ==> Key(FamilyOrder[k]) in displayTypes;
    DispatchNoMatch(d, displayTypes, FamilyOrder);
    assert FamilyOrder[Rank(f)] == f;
  }

  /**
   * A table without the "oled" key makes the first test raise `TypeError`
   * before any import has run, so `get_device` ends in `UnboundLocalError`.
   */
  lemma GetDeviceWithoutOled(actualArgs: Option<seq<string>>, argv: seq<string>, parse: seq<string> -> Options,
                             files: map<string, string>, displayTypes: map<string, seq<string>>)
    requires "oled" !in displayTypes
    requires GetDevice(actualArgs, argv, parse, files, displayTypes) != Err(IOError)
    ensures GetDevice(actualArgs, argv, parse, files, displayTypes) == Err(UnboundLocalError)
  {
    assert Key(FamilyOrder[0]) == "oled";
  }
}

/**
 * examples/cmdline.py: the newer argument helpers. Its `load_config` is
 * the same as the one in examples/demo_opts.py (`DemoOpts.LoadConfig`);
 * what it adds is `display_settings`, a summary of the chosen settings,
 * and `create_device`, the family dispatch over a table the caller may
 * supply.
 */
module Cmdline {
  import opened Wrappers
  import opened Text
  import opened DemoOpts

  /** The parsed arguments `display_settings` and `create_device` read. */
  datatype Settings = Settings(display: string, interface: string, width: int, height: int)

  /** The rule under the summary. */
  const Rule: string := Repeat('-', 40)

  /** The first line of the summary. */
  function DisplayLine(display: string): string
  {
    "Display: " + display + "\n"
  }

  /** The interface line, left out for emulated displays. */
  function InterfaceLine(display: string, interface: string, emulators: seq<string>): string
  {
    if display !in emulators then "Interface: " + interface + "\n" else ""
  }

  /** The size line. */
  function DimensionsLine(width: int, height: int): string
  {
    "Dimensions: " + IntToString(width) + " x " + IntToString(height) + "\n"
  }

  /** `display_settings(args)`; `emulators` is `display_types["emulator"]`. */
  function DisplaySettings(args: Settings, emulators: seq<string>): (r: string)
    ensures StartsWith(r, DisplayLine(args.display))
    ensures |r| >= 40 && r[|r| - 40..] == Rule
  {
    var head := DisplayLine(args.display);
    var iface := InterfaceLine(args.display, args.interface, emulators);
    var dims := DimensionsLine(args.width, args.height);
    assert (head + iface + dims + Rule)[..|head|] == head;
    head + iface + dims + Rule
  }

  /**
   * The summary's lines in order: the display line, then the interface
   * line for a display that is not an emulator and nothing otherwise, then
   * the dimensions line, then the rule.
   */
  lemma Layout(args: Settings, emulators: seq<string>)
    ensures var r := DisplaySettings(args, emulators);
            var n, d := |DisplayLine(args.display)|, DimensionsLine(args.width, args.height);
            |r| >= n + |d| + 40
            && r[|r| - 40 - |d|..|r| - 40] == d
            && r[n..|r| - 40 - |d|] == if args.display in emulators then "" else "Interface: " + args.interface + "\n"
  {
    var head, dims := DisplayLine(args.display), DimensionsLine(args.width, args.height);
    var iface := InterfaceLine(args.display, args.interface, emulators);
    assert |Rule| == 40;
    assert DisplaySettings(args, emulators) == head + iface + dims + Rule;
    Slices(head, iface, dims, Rule);
  }

  /** What follows the first part of `a + b + c + d`. */
  lemma AfterHead(a: string, b: string, c: string, d: string)
    ensures (a + b + c + d)[|a|..] == b + (c + d)
  {
    assert a + b + c + d == a + (b + (c + d));
  }

  /** Where the middle two parts of `a + b + c + d` sit. */
  lemma Slices(a: string, b: string, c: string, d: string)
    ensures var r := a + b + c + d;
            r[|r| - |d| - |c|..|r| - |d|] == c && r[|a|..|r| - |d| - |c|] == b
  {
    var r := a + b + c + d;
    assert r == (a + b) + (c + d);
    assert r[|a|..|a| + |b|] == b;
    assert r[|a| + |b|..|a| + |b| + |c|] == c;
  }

  /** The summary has an interface line exactly when the display is not an emulator. */
  lemma InterfaceLineIff(args: Settings, emulators: seq<string>)
    ensures var r := DisplaySettings(args, emulators);
            StartsWith(r[|DisplayLine(args.display)|..], "Interface: ") <==> args.display !in emulators
  {
    var r := DisplaySettings(args, emulators);
    var head := DisplayLine(args.display);
    var iface := InterfaceLine(args.display, args.interface, emulators);
    var dims := DimensionsLine(args.width, args.height);
    var rest := dims + Rule;
    assert r == head + iface + dims + Rule;
    AfterHead(head, iface, dims, Rule);
    var tail := r[|head|..];
    assert tail == iface + rest;
    if args.display !in emulators {
      assert tail == "Interface: " + args.interface + "\n" + rest;
      InterfaceShown(args.interface, rest);
    } else {
      assert iface == [];
      assert tail == rest;
      DimensionsFirst(args.width, args.height, Rule);
    }
  }

  lemma InterfaceShown(interface: string, rest: string)
    ensures StartsWith("Interface: " + interface + "\n" + rest, "Interface: ")
  {
    var t := "Interface: " + interface + "\n" + rest;
    assert t == "Interface: " + (interface + "\n" + rest);
    assert t[..11] == "Interface: ";
  }

  lemma DimensionsFirst(width: int, height: int, rest: string)
    ensures !StartsWith(DimensionsLine(width, height) + rest, "Interface: ")
  {
    var t := DimensionsLine(width, height) + rest;
    assert t[0] == 'D';
    assert "Interface: "[0] == 'I';
  }

  /** `Count` of a text that holds none of the character. */
  lemma NoBreaks(a: string, b: string)
    requires '\n' !in a && '\n' !in b
    ensures Count(a + b, '\n') == 0
  {
    CountAbsent(a + b, '\n');
  }

  /** A labelled line: the caption's breaks, the body's and the final one. */
  lemma LabelledLineBreaks(caption: string, body: string)
    requires '\n' !in caption
    ensures Count(caption + body + "\n", '\n') == Count(body, '\n') + 1
  {
    CountAppend(caption, body, '\n');
    CountAppend(caption + body, "\n", '\n');
    CountAbsent(caption, '\n');
    assert Count("\n", '\n') == 1;
  }

  lemma DisplayLineBreaks(display: string)
    ensures Count(DisplayLine(display), '\n') == Count(display, '\n') + 1
  {
    LabelledLineBreaks("Display: ", display);
  }

  lemma InterfaceLineBreaks(display: string, interface: string, emulators: seq<string>)
    ensures Count(InterfaceLine(display, interface, emulators), '\n') ==
              if display in emulators then 0 else 1 + Count(interface, '\n')
  {
    if display !in emulators {
      LabelledLineBreaks("Interface: ", interface);
    }
  }

  lemma DimensionsLineBreaks(width: int, height: int)
    ensures Count(DimensionsLine(width, height), '\n') == 1
  {
    var w, h := IntToString(width), IntToString(height);
    IntToStringChars(width);
    IntToStringChars(height);
    NoBreaks("Dimensions: ", w);
    NoBreaks(" x ", h);
    CountAppend("Dimensions: " + w, " x " + h, '\n');
    assert "Dimensions: " + w + " x " + h == ("Dimensions: " + w) + (" x " + h);
    CountAppend("Dimensions: " + w + " x " + h, "\n", '\n');
  }

  /**
   * The summary has two line breaks of its own, three with the interface
   * line, plus any inside the display and interface names.
   */
  lemma LineBreaks(args: Settings, emulators: seq<string>)
    ensures Count(DisplaySettings(args, emulators), '\n') ==
              Count(args.display, '\n') + 2
              + (if args.display in emulators then 0 else 1 + Count(args.interface, '\n'))
  {
    var head := DisplayLine(args.display);
    var iface := InterfaceLine(args.display, args.interface, emulators);
    var dims := DimensionsLine(args.width, args.height);
    DisplayLineBreaks(args.display);
    InterfaceLineBreaks(args.display, args.interface, emulators);
    DimensionsLineBreaks(args.width, args.height);
    CountAbsent(Rule, '\n');
    CountAppend(head, iface, '\n');
    CountAppend(head + iface, dims, '\n');
    CountAppend(head + iface + dims, Rule, '\n');
    assert DisplaySettings(args, emulators) == head + iface + dims + Rule;
  }

  /** A device `create_device` built: its family and its class name. */
  datatype CreatedDevice = CreatedDevice(family: Family, display: string)

  /** The table `create_device` consults: the module table unless the caller passed one. */
  function Table(dtypes: Option<map<string, seq<string>>>, displayTypes: map<string, seq<string>>): map<string, seq<string>>
  {
    if dtypes.None? then displayTypes else dtypes.value
  }

  /**
   * `create_device(args, dtypes)`: `None` when no family lists the display,
   * `TypeError` when the chain reaches a family the table lacks.
   */
  function CreateDevice(args: Settings, dtypes: Option<map<string, seq<string>>>,
                        displayTypes: map<string, seq<string>>): (r: Result<Option<CreatedDevice>, Failure>)
    ensures r.Ok? && r.value.Some? ==>
              && r.value.value.display == args.display
              && Key(r.value.value.family) in Table(dtypes, displayTypes)
              && args.display in Table(dtypes, displayTypes)[Key(r.value.value.family)]
    ensures r.Err? ==> r.error == TypeError
  {
    match Dispatch(args.display, Table(dtypes, displayTypes), FamilyOrder)
    case Err(e) => Err(e)
    case Ok(None) => Ok(None)
    case Ok(Some(f)) => Ok(Some(CreatedDevice(f, args.display)))
  }

  /** With a complete table, family `f` is built exactly when it is the first to list the display. */
  lemma CreateDeviceFirstMatch(args: Settings, dtypes: Option<map<string, seq<string>>>,
                               displayTypes: map<string, seq<string>>, f: Family)
    requires Complete(Table(dtypes, displayTypes))
    ensures var table := Table(dtypes, displayTypes);
            CreateDevice(args, dtypes, displayTypes) == Ok(Some(CreatedDevice(f, args.display))) <==>
              args.display in table[Key(f)] && forall g: Family :: Rank(g) < Rank(f) ==> args.display !in table[Key(g)]
  {
    FamilyFirstMatch(args.display, Table(dtypes, displayTypes), f);
  }

  /** With a complete table, a display no family lists gives `None`, and nothing raises. */
  lemma CreateDeviceNoMatch(args: Settings, dtypes: Option<map<string, seq<string>>>,
                            displayTypes: map<string, seq<string>>)
    requires Complete(Table(dtypes, displayTypes))
    ensures CreateDevice(args, dtypes, displayTypes).Ok?
    ensures var table := Table(dtypes, displayTypes);
            (CreateDevice(args, dtypes, displayTypes) == Ok(None) <==>
               forall g: Family :: args.display !in table[Key(g)])
  {
    var table := Table(dtypes, displayTypes);
    assert forall k :: 0 <= k < |FamilyOrder| ==> Key(FamilyOrder[k]) in table;
    DispatchNoMatch(args.display, table, FamilyOrder);
    if forall g: Family :: args.display !in table[Key(g)] {
      assert forall k :: 0 <= k < |FamilyOrder| ==> args.display !in table[Key(FamilyOrder[k])];
    }
    if forall k :: 0 <= k < |FamilyOrder| ==> args.display !in table[Key(FamilyOrder[k])] {
      forall g: Family
        ensures args.display !in table[Key(g)]
      {
        assert FamilyOrder[Rank(g)] == g;
      }
    }
  }

  /** A caller table without "oled" raises at the first test. */
  lemma CreateDeviceWithoutOled(args: Settings, dtypes: map<string, seq<string>>, displayTypes: map<string, seq<string>>)
    requires Key(Oled) !in dtypes
    ensures CreateDevice(args, Some(dtypes), displayTypes) == Err(TypeError)
  {
  }
}

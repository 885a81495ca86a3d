/**
 * The command line of the theme compiler (`Options` in src/main.rs): five
 * switches kept as bits of one byte, the monochrome family and the input
 * path. The arguments are those after the program name.
 */
module ThemeOptions {
  import opened Wrappers
  import opened Text

  const PRETTY: bv8 := 1
  const OLED: bv8 := 2
  const COMPAT: bv8 := 4
  const MONOCHROME: bv8 := 8
  const PRINT: bv8 := 16

  datatype Options = Options(flags: bv8, monoFamily: Option<string>, inputSrc: string)

  /** No switch set, no family, and the input `-`. */
  const DEFAULT_OPTIONS := Options(0, None, "-")

  predicate IsPretty(o: Options) { o.flags & PRETTY != 0 }
  predicate IsOled(o: Options) { o.flags & OLED != 0 }
  predicate IsCompat(o: Options) { o.flags & COMPAT != 0 }
  predicate IsMonochrome(o: Options) { o.flags & MONOCHROME != 0 }
  predicate IsPrint(o: Options) { o.flags & PRINT != 0 }

  /** What parsing the arguments ends in: options, or the process exiting with a code. */
  datatype ArgsOutcome = Parsed(opts: Options) | Exit(code: int)

  /** The bit a switch spelling sets, and 0 for every other argument. */
  function SwitchBit(arg: string): (bit: bv8)
    ensures bit in {0, PRETTY, OLED, COMPAT, MONOCHROME, PRINT}
  {
    if arg == "-p" || arg == "--pretty" then PRETTY
    else if arg == "--oled" then OLED
    else if arg == "-m" || arg == "--mono" || arg == "--monochrome" then MONOCHROME
    else if arg == "-c" || arg == "--compat" || arg == "--compatibility" then COMPAT
    else if arg == "--print" then PRINT
    else 0
  }

  predicate IsFamilySwitch(arg: string)
  {
    arg == "--mono-family" || arg == "--monochrome-family"
  }

  /**
   * The loop of `from_env_args` from options `o` over the remaining
   * arguments: a switch ORs in its bit; a family switch consumes the next
   * argument, lowercased, or exits with code 2 when there is none; any other
   * argument becomes the input while the input is still `-`.
   */
  function ParseArgs(o: Options, args: seq<string>): ArgsOutcome
    decreases |args|
  {
    if args == [] then Parsed(o)
    else if SwitchBit(args[0]) != 0 then ParseArgs(o.(flags := o.flags | SwitchBit(args[0])), args[1..])
    else if IsFamilySwitch(args[0]) then
      if |args| == 1 then Exit(2)
      else ParseArgs(o.(monoFamily := Some(Lower(args[1]))), args[2..])
    else if o.inputSrc == "-" then ParseArgs(o.(inputSrc := args[0]), args[1..])
    else ParseArgs(o, args[1..])
  }

  /** `Options::from_env_args`. */
  method FromEnvArgs(args: seq<string>) returns (r: ArgsOutcome)
    ensures r == ParseArgs(DEFAULT_OPTIONS, args)
  {
    var opts := DEFAULT_OPTIONS;
    var i := 0;
    while i < |args|
      invariant 0 <= i <= |args|
      invariant ParseArgs(opts, args[i..]) == ParseArgs(DEFAULT_OPTIONS, args)
      decreases |args| - i
    {
      var arg := args[i];
      assert args[i..][0] == arg && args[i..][1..] == args[i + 1..];
      i := i + 1;
      var bit := SwitchBit(arg);
      if bit != 0 {
        opts := opts.(flags := opts.flags | bit);
      } else if IsFamilySwitch(arg) {
        if i < |args| {
          assert args[i - 1..][1] == args[i] && args[i - 1..][2..] == args[i + 1..];
          opts := opts.(monoFamily := Some(Lower(args[i])));
          i := i + 1;
        } else {
          return Exit(2);
        }
      } else if opts.inputSrc == "-" {
        opts := opts.(inputSrc := arg);
      }
    }
    assert args[i..] == [];
    return Parsed(opts);
  }

  /** An argument as the loop reads it. */
  datatype Arg = SwitchArg(bit: bv8) | FamilyArg(name: string) | InputArg(s: string)

  /**
   * The arguments read one by one, a family switch together with the value
   * after it; None when a family switch is the last argument.
   */
  function Classify(args: seq<string>): Option<seq<Arg>>
    decreases |args|
  {
    if args == [] then Some([])
    else if SwitchBit(args[0]) != 0 then
      var rest := Classify(args[1..]);
      if rest.None? then None else Some([SwitchArg(SwitchBit(args[0]))] + rest.value)
    else if IsFamilySwitch(args[0]) then
      if |args| == 1 then None
      else
        var rest := Classify(args[2..]);
        if rest.None? then None else Some([FamilyArg(Lower(args[1]))] + rest.value)
    else
      var rest := Classify(args[1..]);
      if rest.None? then None else Some([InputArg(args[0])] + rest.value)
  }

  /** The union of the switch bits. */
  function SwitchBits(rd: seq<Arg>): bv8
  {
    if rd == [] then 0
    else (if rd[0].SwitchArg? then rd[0].bit else 0) | SwitchBits(rd[1..])
  }

  /** The last family named, if any. */
  function LastFamily(rd: seq<Arg>): Option<string>
  {
    if rd == [] then None
    else
      var later := LastFamily(rd[1..]);
      if later.Some? then later
      else if rd[0].FamilyArg? then Some(rd[0].name) else None
  }

  /** The first other argument that is not `-` itself, or `-` when there is none. */
  function FirstInput(rd: seq<Arg>): string
  {
    if rd == [] then "-"
    else if rd[0].InputArg? && rd[0].s != "-" then rd[0].s
    else FirstInput(rd[1..])
  }

  /** The options an argument read leaves behind, as the loop's body updates them. */
  function ApplyArg(o: Options, a: Arg): Options
  {
    match a
    case SwitchArg(bit) => o.(flags := o.flags | bit)
    case FamilyArg(name) => o.(monoFamily := Some(name))
    case InputArg(s) => if o.inputSrc == "-" then o.(inputSrc := s) else o
  }

  /**
   * The options after reading `rd` from `o`, stated without the loop: the
   * union of all switch bits, the last family named, and the first other
   * argument that is not `-` (unless an input was chosen already).
   */
  function Summary(o: Options, rd: seq<Arg>): Options
  {
    Options(o.flags | SwitchBits(rd),
            if LastFamily(rd).Some? then LastFamily(rd) else o.monoFamily,
            if o.inputSrc == "-" then FirstInput(rd) else o.inputSrc)
  }

  /** Reading one more argument first is applying it and then summarising the rest. */
  lemma SummaryCons(o: Options, a: Arg, rest: seq<Arg>)
    ensures Summary(o, [a] + rest) == Summary(ApplyArg(o, a), rest)
  {
    assert ([a] + rest)[1..] == rest;
  }

  /**
   * The loop, from any starting options, reads the arguments as `Classify`
   * does: it exits with code 2 exactly when a family switch lacks its value,
   * and otherwise ends with the `Summary` of what it read.
   */
  lemma {:induction false} ParseArgsClassified(o: Options, args: seq<string>)
    ensures Classify(args).None? ==> ParseArgs(o, args) == Exit(2)
    ensures Classify(args).Some? ==> ParseArgs(o, args) == Parsed(Summary(o, Classify(args).value))
    decreases |args|, 1
  {
    if args == [] {
      assert Summary(o, []) == o;
    } else if SwitchBit(args[0]) != 0 {
      ReadSwitch(o, args);
    } else if IsFamilySwitch(args[0]) {
      if |args| > 1 {
        ReadFamily(o, args);
      }
    } else {
      ReadInput(o, args);
    }
  }

  lemma {:induction false} ReadSwitch(o: Options, args: seq<string>)
    requires args != [] && SwitchBit(args[0]) != 0
    ensures Classify(args).None? ==> ParseArgs(o, args) == Exit(2)
    ensures Classify(args).Some? ==> ParseArgs(o, args) == Parsed(Summary(o, Classify(args).value))
    decreases |args|, 0
  {
    ReadOne(o, SwitchArg(SwitchBit(args[0])), args, args[1..]);
  }

  lemma {:induction false} ReadFamily(o: Options, args: seq<string>)
    requires |args| > 1 && SwitchBit(args[0]) == 0 && IsFamilySwitch(args[0])
    ensures Classify(args).None? ==> ParseArgs(o, args) == Exit(2)
    ensures Classify(args).Some? ==> ParseArgs(o, args) == Parsed(Summary(o, Classify(args).value))
    decreases |args|, 0
  {
    ReadOne(o, FamilyArg(Lower(args[1])), args, args[2..]);
  }

  lemma {:induction false} ReadInput(o: Options, args: seq<string>)
    requires args != [] && SwitchBit(args[0]) == 0 && !IsFamilySwitch(args[0])
    ensures Classify(args).None? ==> ParseArgs(o, args) == Exit(2)
    ensures Classify(args).Some? ==> ParseArgs(o, args) == Parsed(Summary(o, Classify(args).value))
    decreases |args|, 0
  {
    ReadOne(o, InputArg(args[0]), args, args[1..]);
  }

  /** One read argument `a`, after which the loop goes on with `tail`. */
  lemma {:induction false} ReadOne(o: Options, a: Arg, args: seq<string>, tail: seq<string>)
    requires |tail| < |args|
    requires ParseArgs(o, args) == ParseArgs(ApplyArg(o, a), tail)
    requires Classify(args) == if Classify(tail).None? then None else Some([a] + Classify(tail).value)
    ensures Classify(args).None? ==> ParseArgs(o, args) == Exit(2)
    ensures Classify(args).Some? ==> ParseArgs(o, args) == Parsed(Summary(o, Classify(args).value))
    decreases |tail|, 2
  {
    ParseArgsClassified(ApplyArg(o, a), tail);
    if Classify(tail).Some? {
      SummaryCons(o, a, Classify(tail).value);
    }
  }

  /** A switch is on iff one of its spellings was read as a switch. */
  lemma {:induction false} SwitchOnIffRead(rd: seq<Arg>, bit: bv8)
    requires bit in {PRETTY, OLED, COMPAT, MONOCHROME, PRINT}
    requires forall k :: 0 <= k < |rd| && rd[k].SwitchArg? ==> rd[k].bit in {PRETTY, OLED, COMPAT, MONOCHROME, PRINT}
    ensures SwitchBits(rd) & bit != 0 <==> SwitchArg(bit) in rd
  {
    if rd != [] {
      SwitchOnIffRead(rd[1..], bit);
      assert rd == [rd[0]] + rd[1..];
    }
  }

  /** Every switch read carries the bit of one of the five switches. */
  lemma {:induction false} ClassifiedBits(args: seq<string>)
    requires Classify(args).Some?
    ensures forall k :: 0 <= k < |Classify(args).value| && Classify(args).value[k].SwitchArg? ==>
      Classify(args).value[k].bit in {PRETTY, OLED, COMPAT, MONOCHROME, PRINT}
    decreases |args|
  {
    if args != [] {
      if SwitchBit(args[0]) != 0 || !IsFamilySwitch(args[0]) {
        ClassifiedBits(args[1..]);
      } else {
        ClassifiedBits(args[2..]);
      }
    }
  }

  /** Giving a switch twice in a row is the same as giving it once. */
  lemma RepeatedSwitch(o: Options, arg: string, rest: seq<string>)
    requires SwitchBit(arg) != 0
    ensures ParseArgs(o, [arg, arg] + rest) == ParseArgs(o, [arg] + rest)
  {
    var b := SwitchBit(arg);
    var o1 := o.(flags := o.flags | b);
    assert [arg, arg] + rest == [arg] + ([arg] + rest);
    SwitchStep(o, arg, [arg] + rest);
    SwitchStep(o1, arg, rest);
    SwitchStep(o, arg, rest);
    OrTwice(o.flags, b);
    assert o1.(flags := o1.flags | b) == o1;
  }

  /** A switch at the head of the list ORs its bit into the flags. */
  lemma SwitchStep(o: Options, arg: string, rest: seq<string>)
    requires SwitchBit(arg) != 0
    ensures ParseArgs(o, [arg] + rest) == ParseArgs(o.(flags := o.flags | SwitchBit(arg)), rest)
  {
    assert ([arg] + rest)[0] == arg && ([arg] + rest)[1..] == rest;
  }

  lemma OrTwice(f: bv8, b: bv8)
    ensures (f | b) | b == f | b
  {
  }

  /** A family switch at the very end makes the program exit with code 2. */
  lemma MissingFamilyExits(args: seq<string>, sw: string)
    requires ParseArgs(DEFAULT_OPTIONS, args).Parsed?
    requires IsFamilySwitch(sw)
    ensures ParseArgs(DEFAULT_OPTIONS, args + [sw]) == Exit(2)
  {
    ParseArgsClassified(DEFAULT_OPTIONS, args);
    ParseArgsClassified(DEFAULT_OPTIONS, args + [sw]);
    ClassifyAppendFamily(args, sw);
  }

  /** Classifying a list that ends in a family switch fails when the list before it classifies. */
  lemma {:induction false} ClassifyAppendFamily(args: seq<string>, sw: string)
    requires Classify(args).Some?
    requires IsFamilySwitch(sw)
    ensures Classify(args + [sw]).None?
    decreases |args|
  {
    if args == [] {
      assert [] + [sw] == [sw];
    } else if SwitchBit(args[0]) != 0 || !IsFamilySwitch(args[0]) {
      assert (args + [sw])[1..] == args[1..] + [sw];
      ClassifyAppendFamily(args[1..], sw);
    } else {
      assert (args + [sw])[2..] == args[2..] + [sw];
      ClassifyAppendFamily(args[2..], sw);
    }
  }
}

/**
 arptables rule specifications: the printer ArpRule.ToSpec and the parser Parse,
 which moves "!" behind the option it negates by swapping arguments in place.
 */
module ArpTables {
  import opened Strings

  datatype ArpRule = ArpRule(
    srcIP: string, dstIP: string, srcMac: string, dstMac: string, hwLength: string, opCode: string,
    hwType: string, protoType: string, inIface: string, outIface: string, target: string, match_: string)

  const EmptyRule: ArpRule := ArpRule("", "", "", "", "", "", "", "", "", "", "", "")

  const Options: set<string> :=
    {"-s", "-d", "--src-mac", "--dst-mac", "-l", "--opcode", "--h-type", "--proto-type", "-i", "-o", "-j", "-m"}

  function Option2(option: string, value: string): seq<string> {
    if value != "" then [option, value] else []
  }

  function ToSpec(a: ArpRule): seq<string> {
    (Option2("-s", a.srcIP) + (Option2("-d", a.dstIP) + (Option2("--src-mac", a.srcMac) +
      Option2("--dst-mac", a.dstMac)))) +
    ((Option2("-l", a.hwLength) + (Option2("--opcode", a.opCode) +
      (Option2("--h-type", a.hwType) + Option2("--proto-type", a.protoType)))) +
     (Option2("-i", a.inIface) + (Option2("-o", a.outIface) + (Option2("-j", a.target) + Option2("-m", a.match_)))))
  }

  /** The rule with the field of a known option assigned. */
  function Assign(rule: ArpRule, option: string, value: string): ArpRule
    requires option in Options
  {
    if option == "-s" then rule.(srcIP := value)
    else if option == "-d" then rule.(dstIP := value)
    else if option == "--src-mac" then rule.(srcMac := value)
    else if option == "--dst-mac" then rule.(dstMac := value)
    else if option == "-i" then rule.(inIface := value)
    else if option == "-o" then rule.(outIface := value)
    else if option == "-l" then rule.(hwLength := value)
    else if option == "--opcode" then rule.(opCode := value)
    else if option == "--h-type" then rule.(hwType := value)
    else if option == "--proto-type" then rule.(protoType := value)
    else if option == "-j" then rule.(target := value)
    else rule.(match_ := value)
  }

  /** Each "!" changes places with the argument after it. */
  function SwapBangs(args: seq<string>): (r: seq<string>)
    ensures |r| == |args|
  {
    if |args| <= 1 then args
    else if args[0] == "!" then [args[1], args[0]] + SwapBangs(args[2..])
    else [args[0]] + SwapBangs(args[1..])
  }

  /** How many leading arguments belong to the current value. */
  function ValueLength(args: seq<string>): (n: nat)
    ensures n <= |args|
    ensures forall i :: 0 <= i < n ==> args[i] !in Options
    ensures n < |args| ==> args[n] in Options
  {
    if args == [] || args[0] in Options then 0 else 1 + ValueLength(args[1..])
  }

  /** Reads options and their values off the front of the arguments. */
  function ParseFrom(args: seq<string>, rule: ArpRule): Result<ArpRule>
    decreases |args|
  {
    if args == [] then Ok(rule)
    else if |args| == 1 || args[1] in Options then Err("invalid args")
    else
      var n := ValueLength(args[1..]);
      if args[0] !in Options then Err("unknown args")
      else ParseFrom(args[1 + n..], Assign(rule, args[0], Join(args[1..1 + n], " ")))
  }

  function ParseSpec(args: seq<string>): Result<ArpRule> { ParseFrom(SwapBangs(args), EmptyRule) }

  /** One turn of the swapping loop extends what is done by two arguments or by one. */
  lemma SwapTurn(args: seq<string>, i: nat, done: seq<string>) returns (done': seq<string>)
    requires i + 1 < |args| && SwapBangs(args) == done + SwapBangs(args[i..])
    ensures done' == done + if args[i] == "!" then [args[i + 1], args[i]] else [args[i]]
    ensures SwapBangs(args) == done' + SwapBangs(if args[i] == "!" then args[i + 2..] else args[i + 1..])
  {
    var rest := args[i..];
    assert rest[2..] == args[i + 2..] && rest[1..] == args[i + 1..];
    done' := done + if args[i] == "!" then [args[i + 1], args[i]] else [args[i]];
  }

  lemma SwapEnds(args: seq<string>, i: nat, done: seq<string>)
    requires i <= |args| <= i + 1 && SwapBangs(args) == done + SwapBangs(args[i..])
    ensures SwapBangs(args) == done + args[i..]
  {
  }

  method SwapInPlace(args: array<string>)
    modifies args
    ensures args[..] == SwapBangs(old(args[..]))
  {
    ghost var start := args[..];
    ghost var done: seq<string> := [];
    var i := 0;
    while i < args.Length - 1
      invariant 0 <= i <= args.Length && |done| == i
      invariant forall k :: 0 <= k < i ==> args[k] == done[k]
      invariant forall k :: i <= k < args.Length ==> args[k] == start[k]
      invariant SwapBangs(start) == done + SwapBangs(start[i..])
    {
      done := SwapTurn(start, i, done);
      if args[i] == "!" {
        args[i], args[i + 1] := args[i + 1], args[i];
        i := i + 1;
      }
      i := i + 1;
    }
    SwapEnds(start, i, done);
    assert args[..] == done + start[i..];
  }

  /** Advances over the arguments of one value. */
  method SkipValue(args: seq<string>, start: nat) returns (i: nat)
    requires start <= |args|
    ensures start <= i <= |args| && i - start == ValueLength(args[start..])
  {
    i := start;
    while i < |args| && args[i] !in Options
      invariant start <= i <= |args|
      invariant ValueLength(args[start..]) == i - start + ValueLength(args[i..])
    {
      assert args[i..][1..] == args[i + 1..];
      i := i + 1;
    }
  }

  /** One turn of ParseFrom, in terms of positions. */
  lemma ParseTurn(args: seq<string>, i: nat, end: nat, rule: ArpRule)
    requires i + 1 < |args| && args[i] in Options && args[i + 1] !in Options
    requires end == i + 1 + ValueLength(args[i + 1..])
    ensures end <= |args|
    ensures ParseFrom(args[i..], rule) == ParseFrom(args[end..], Assign(rule, args[i], Join(args[i + 1..end], " ")))
  {
    SliceAgain(args, i, end);
    ParseUnfold(args[i..], args[i], args[i + 1..end], args[end..], rule);
  }

  lemma SliceAgain(args: seq<string>, i: nat, end: nat)
    requires i + 1 < |args| && i + 1 <= end <= |args|
    ensures args[i..][1..] == args[i + 1..] && args[i..][0] == args[i] && args[i..][1] == args[i + 1]
    ensures args[i..][1..end - i] == args[i + 1..end] && args[i..][end - i..] == args[end..]
  {
  }

  lemma ParseUnfold(args: seq<string>, option: string, value: seq<string>, rest: seq<string>, rule: ArpRule)
    requires |args| > 1 && args[0] == option && option in Options && args[1] !in Options
    requires |value| == ValueLength(args[1..]) < |args| && value == args[1..1 + |value|] && rest == args[1 + |value|..]
    ensures ParseFrom(args, rule) == ParseFrom(rest, Assign(rule, option, Join(value, " ")))
  {
  }

  /** The second loop of Parse, over the swapped arguments. */
  method ParseArgs(args: seq<string>) returns (r: Result<ArpRule>)
    ensures r == ParseFrom(args, EmptyRule)
  {
    var i, rule := 0, EmptyRule;
    while i < |args|
      invariant 0 <= i <= |args|
      invariant ParseFrom(args, EmptyRule) == ParseFrom(args[i..], rule)
      decreases |args| - i
    {
      if i + 1 == |args| || args[i + 1] in Options {
        return Err("invalid args");
      }
      var cmd := args[i];
      var end := SkipValue(args, i + 1);
      if cmd !in Options {
        return Err("unknown args");
      }
      ParseTurn(args, i, end, rule);
      rule := Assign(rule, cmd, Join(args[i + 1..end], " "));
      i := end;
    }
    r := Ok(rule);
  }

  method Parse(args: array<string>) returns (r: Result<ArpRule>)
    modifies args
    ensures r == ParseSpec(old(args[..]))
    ensures args[..] == SwapBangs(old(args[..]))
  {
    SwapInPlace(args);
    r := ParseArgs(args[..]);
  }

  /** An option as it is written: possibly with a "!" in front. */
  datatype Written = Written(negated: bool, option: string, value: string)
  {
    function Tokens(): seq<string> { (if negated then ["!"] else []) + [option, value] }
    function Value(): string { if negated then "! " + value else value }
    predicate Plain() { option in Options && value !in Options && value != "!" }
  }

  predicate AllPlain(ws: seq<Written>) { forall i :: 0 <= i < |ws| ==> ws[i].option in Options && ws[i].Plain() }

  function Flat(ws: seq<Written>): seq<string> {
    if ws == [] then [] else ws[0].Tokens() + Flat(ws[1..])
  }

  function AssignAll(rule: ArpRule, ws: seq<Written>): ArpRule
    requires forall i :: 0 <= i < |ws| ==> ws[i].option in Options
    decreases |ws|
  {
    if ws == [] then rule else AssignAll(Assign(rule, ws[0].option, ws[0].Value()), ws[1..])
  }

  /** Where a "!" is not part of a swap it stays put. */
  lemma SwapFront(first: string, rest: seq<string>)
    requires first != "!"
    ensures SwapBangs([first] + rest) == [first] + SwapBangs(rest)
  {
  }

  lemma OptionsArePlain(option: string)
    requires option in Options
    ensures option != "!"
  {
  }

  /** The written options after swapping start with an option again. */
  lemma SwappedStart(ws: seq<Written>)
    requires ws != [] && ws[0].option in Options
    ensures SwapBangs(Flat(ws))[0] == ws[0].option
  {
  }

  lemma SwapPlain(w: Written, rest: seq<string>)
    requires w.Plain()
    ensures SwapBangs(w.Tokens() + rest) == [w.option] + (if w.negated then ["!"] else []) + [w.value] + SwapBangs(rest)
  {
  }

  lemma {:induction false} ValueLengthOf(value: seq<string>, rest: seq<string>)
    requires forall i :: 0 <= i < |value| ==> value[i] !in Options
    requires rest == [] || rest[0] in Options
    ensures ValueLength(value + rest) == |value|
  {
    if value == [] {
      assert value + rest == rest;
    } else {
      ValueLengthOf(value[1..], rest);
      assert (value + rest)[1..] == value[1..] + rest;
    }
  }

  lemma ParseOne(option: string, value: seq<string>, rest: seq<string>, rule: ArpRule)
    requires option in Options && value != [] && forall i :: 0 <= i < |value| ==> value[i] !in Options
    requires rest == [] || rest[0] in Options
    ensures ParseFrom([option] + value + rest, rule) == ParseFrom(rest, Assign(rule, option, Join(value, " ")))
  {
    var args := [option] + value + rest;
    assert args[1..] == value + rest;
    ValueLengthOf(value, rest);
    assert args[1] == value[0];
    assert args[1..1 + |value|] == value && args[1 + |value|..] == rest;
  }

  function ValueTokens(w: Written): seq<string> { (if w.negated then ["!"] else []) + [w.value] }

  lemma ValueTokensJoin(w: Written)
    requires w.Plain()
    ensures Join(ValueTokens(w), " ") == w.Value() && forall i :: 0 <= i < |ValueTokens(w)| ==>
      ValueTokens(w)[i] !in Options
  {
  }

  lemma SwapFirst(ws: seq<Written>)
    requires ws != [] && ws[0].Plain()
    ensures SwapBangs(Flat(ws)) == [ws[0].option] + ValueTokens(ws[0]) + SwapBangs(Flat(ws[1..]))
  {
    var w, rest := ws[0], Flat(ws[1..]);
    assert Flat(ws) == w.Tokens() + rest;
    SwapPlain(w, rest);
    assert [w.option] + (if w.negated then ["!"] else []) + [w.value] == [w.option] + ValueTokens(w);
  }

  /** Any options, each possibly negated in front, parse to their values with "! " kept in front. */
  lemma {:induction false} ParseWritten(ws: seq<Written>, rule: ArpRule)
    requires AllPlain(ws)
    ensures ParseFrom(SwapBangs(Flat(ws)), rule) == Ok(AssignAll(rule, ws))
    decreases |ws|
  {
    if ws != [] {
      if |ws| > 1 { SwappedStart(ws[1..]); }
      SwapFirst(ws);
      ValueTokensJoin(ws[0]);
      ParseOne(ws[0].option, ValueTokens(ws[0]), SwapBangs(Flat(ws[1..])), rule);
      ParseWritten(ws[1..], Assign(rule, ws[0].option, ws[0].Value()));
    }
  }

  /** Values that the parser keeps apart from options: no option token, and "!" only at the very end. */
  predicate Printable(ws: seq<Written>) {
    forall i :: 0 <= i < |ws| ==> ws[i].value !in Options && (ws[i].value == "!" ==> i == |ws| - 1)
  }

  /** Printed settings parse back iff they are printable; otherwise Parse reports an error. */
  lemma {:induction false} ParsePrintedIff(ws: seq<Written>, rule: ArpRule)
    requires forall i :: 0 <= i < |ws| ==> ws[i].option in Options && !ws[i].negated
    ensures Printable(ws) ==> ParseFrom(SwapBangs(Flat(ws)), rule) == Ok(AssignAll(rule, ws))
    ensures !Printable(ws) ==> ParseFrom(SwapBangs(Flat(ws)), rule).Err?
    decreases |ws|
  {
    if ws != [] {
      var w, rest := ws[0], Flat(ws[1..]);
      OptionsArePlain(w.option);
      assert Flat(ws) == [w.option] + ([w.value] + rest);
      SwapFront(w.option, [w.value] + rest);
      if w.value == "!" && |ws| > 1 {
        OptionsArePlain(ws[1].option);
        assert rest[0] == ws[1].option;
        assert ([w.value] + rest)[1] == rest[0];
        assert SwapBangs([w.value] + rest)[0] == rest[0];
      } else {
        if w.value != "!" { SwapFront(w.value, rest); }
        assert SwapBangs([w.value] + rest) == [w.value] + SwapBangs(rest);
        if w.value !in Options {
          if |ws| > 1 { SwappedStart(ws[1..]); }
          ParsePrintedTail(ws, rule);
          ParsePrintedIff(ws[1..], Assign(rule, w.option, w.value));
          PrintableTail(ws);
        }
      }
    }
  }

  lemma PrintableTail(ws: seq<Written>)
    requires ws != [] && ws[0].value !in Options && (ws[0].value == "!" ==> |ws| == 1)
    ensures Printable(ws) <==> Printable(ws[1..])
  {
  }

  lemma ParsePrintedTail(ws: seq<Written>, rule: ArpRule)
    requires ws != [] && ws[0].option in Options && ws[0].value !in Options
    requires SwapBangs(Flat(ws)) == [ws[0].option] + ([ws[0].value] + SwapBangs(Flat(ws[1..])))
    requires |ws| > 1 ==> SwapBangs(Flat(ws[1..]))[0] in Options
    ensures ParseFrom(SwapBangs(Flat(ws)), rule)
         == ParseFrom(SwapBangs(Flat(ws[1..])), Assign(rule, ws[0].option, ws[0].value))
  {
    var option, value, rest := ws[0].option, ws[0].value, SwapBangs(Flat(ws[1..]));
    assert [option] + [value] + rest == [option] + ([value] + rest);
    if |ws| == 1 { assert Flat(ws[1..]) == []; }
    ParseOne(option, [value], rest, rule);
    assert Join([value], " ") == value;
  }

  function Setting(option: string, value: string): seq<Written> {
    if value != "" then [Written(false, option, value)] else []
  }

  /** The non-empty fields of a rule, in printing order. */
  function Settings(a: ArpRule): seq<Written> { Settings1(a) + (Settings2(a) + Settings3(a)) }

  function Settings1(a: ArpRule): seq<Written> {
    Setting("-s", a.srcIP) + (Setting("-d", a.dstIP) + (Setting("--src-mac", a.srcMac) +
      Setting("--dst-mac", a.dstMac)))
  }

  function Settings2(a: ArpRule): seq<Written> {
    Setting("-l", a.hwLength) + (Setting("--opcode", a.opCode) +
      (Setting("--h-type", a.hwType) + Setting("--proto-type", a.protoType)))
  }

  function Settings3(a: ArpRule): seq<Written> {
    Setting("-i", a.inIface) + (Setting("-o", a.outIface) + (Setting("-j", a.target) + Setting("-m", a.match_)))
  }

  lemma {:induction false} FlatConcat(xs: seq<Written>, ys: seq<Written>)
    ensures Flat(xs + ys) == Flat(xs) + Flat(ys)
    decreases |xs|
  {
    if xs == [] {
      assert xs + ys == ys;
    } else {
      assert (xs + ys)[1..] == xs[1..] + ys;
      FlatConcat(xs[1..], ys);
    }
  }

  lemma FlatSetting(option: string, value: string)
    ensures Flat(Setting(option, value)) == Option2(option, value)
  {
  }

  lemma FlatFour(o1: string, v1: string, o2: string, v2: string, o3: string, v3: string, o4: string, v4: string)
    ensures Flat(Setting(o1, v1) + (Setting(o2, v2) + (Setting(o3, v3) + Setting(o4, v4))))
         == Option2(o1, v1) + (Option2(o2, v2) + (Option2(o3, v3) + Option2(o4, v4)))
  {
    FlatConcat(Setting(o1, v1), Setting(o2, v2) + (Setting(o3, v3) + Setting(o4, v4)));
    FlatConcat(Setting(o2, v2), Setting(o3, v3) + Setting(o4, v4));
    FlatConcat(Setting(o3, v3), Setting(o4, v4));
    FlatSetting(o1, v1); FlatSetting(o2, v2); FlatSetting(o3, v3); FlatSetting(o4, v4);
  }

  /** ToSpec prints the settings. */
  lemma ToSpecIsFlat(a: ArpRule)
    ensures ToSpec(a) == Flat(Settings(a))
  {
    FlatConcat(Settings1(a), Settings2(a) + Settings3(a));
    FlatConcat(Settings2(a), Settings3(a));
    FlatFour("-s", a.srcIP, "-d", a.dstIP, "--src-mac", a.srcMac, "--dst-mac", a.dstMac);
    FlatFour("-l", a.hwLength, "--opcode", a.opCode, "--h-type", a.hwType, "--proto-type", a.protoType);
    FlatFour("-i", a.inIface, "-o", a.outIface, "-j", a.target, "-m", a.match_);
  }

  ghost predicate Known(ws: seq<Written>) { forall i :: 0 <= i < |ws| ==> ws[i].option in Options && !ws[i].negated }

  lemma {:induction false} AssignConcat(rule: ArpRule, xs: seq<Written>, ys: seq<Written>)
    requires Known(xs) && Known(ys)
    ensures AssignAll(rule, xs + ys) == AssignAll(AssignAll(rule, xs), ys)
    decreases |xs|
  {
    if xs == [] {
      assert xs + ys == ys;
    } else {
      assert (xs + ys)[1..] == xs[1..] + ys;
      AssignConcat(Assign(rule, xs[0].option, xs[0].Value()), xs[1..], ys);
    }
  }

  lemma AssignSetting(rule: ArpRule, option: string, value: string, rest: seq<Written>)
    requires option in Options && Known(rest)
    ensures Known(Setting(option, value) + rest)
    ensures AssignAll(rule, Setting(option, value) + rest)
         == AssignAll(if value == "" then rule else Assign(rule, option, value), rest)
  {
    AssignConcat(rule, Setting(option, value), rest);
    if value != "" {
      var w := Written(false, option, value);
      assert AssignAll(rule, [w]) == AssignAll(Assign(rule, w.option, w.Value()), [w][1..]);
    }
  }

  lemma AssignLast(rule: ArpRule, option: string, value: string)
    requires option in Options
    ensures Known(Setting(option, value))
    ensures AssignAll(rule, Setting(option, value)) == if value == "" then rule else Assign(rule, option, value)
  {
  }

  lemma Assign1(a: ArpRule)
    ensures Known(Settings1(a))
    ensures AssignAll(EmptyRule, Settings1(a))
         == EmptyRule.(srcIP := a.srcIP, dstIP := a.dstIP, srcMac := a.srcMac, dstMac := a.dstMac)
  {
    AssignLast(EmptyRule.(srcIP := a.srcIP, dstIP := a.dstIP, srcMac := a.srcMac), "--dst-mac", a.dstMac);
    AssignSetting(EmptyRule.(srcIP := a.srcIP, dstIP := a.dstIP), "--src-mac", a.srcMac,
                  Setting("--dst-mac", a.dstMac));
    AssignSetting(EmptyRule.(srcIP := a.srcIP), "-d", a.dstIP,
                  Setting("--src-mac", a.srcMac) + Setting("--dst-mac", a.dstMac));
    AssignSetting(EmptyRule, "-s", a.srcIP,
                  Setting("-d", a.dstIP) + (Setting("--src-mac", a.srcMac) + Setting("--dst-mac", a.dstMac)));
  }

  lemma Assign2(a: ArpRule, rule: ArpRule)
    requires rule == EmptyRule.(srcIP := a.srcIP, dstIP := a.dstIP, srcMac := a.srcMac, dstMac := a.dstMac)
    ensures Known(Settings2(a))
    ensures AssignAll(rule, Settings2(a))
         == rule.(hwLength := a.hwLength, opCode := a.opCode, hwType := a.hwType, protoType := a.protoType)
  {
    AssignLast(rule.(hwLength := a.hwLength, opCode := a.opCode, hwType := a.hwType), "--proto-type", a.protoType);
    AssignSetting(rule.(hwLength := a.hwLength, opCode := a.opCode), "--h-type", a.hwType,
                  Setting("--proto-type", a.protoType));
    AssignSetting(rule.(hwLength := a.hwLength), "--opcode", a.opCode,
                  Setting("--h-type", a.hwType) + Setting("--proto-type", a.protoType));
    AssignSetting(rule, "-l", a.hwLength, Setting("--opcode", a.opCode) +
      (Setting("--h-type", a.hwType) + Setting("--proto-type", a.protoType)));
  }

  lemma Assign3(a: ArpRule, rule: ArpRule)
    requires rule == a.(inIface := "", outIface := "", target := "", match_ := "")
    ensures Known(Settings3(a)) && AssignAll(rule, Settings3(a)) == a
  {
    AssignLast(rule.(inIface := a.inIface, outIface := a.outIface, target := a.target), "-m", a.match_);
    AssignSetting(rule.(inIface := a.inIface, outIface := a.outIface), "-j", a.target, Setting("-m", a.match_));
    AssignSetting(rule.(inIface := a.inIface), "-o", a.outIface, Setting("-j", a.target) + Setting("-m", a.match_));
    AssignSetting(rule, "-i", a.inIface, Setting("-o", a.outIface) +
      (Setting("-j", a.target) + Setting("-m", a.match_)));
  }

  /** Assigning the settings of a rule to the empty rule rebuilds the rule. */
  lemma AssignSettings(a: ArpRule)
    ensures Known(Settings(a)) && AssignAll(EmptyRule, Settings(a)) == a
  {
    Assign1(a);
    var rule := EmptyRule.(srcIP := a.srcIP, dstIP := a.dstIP, srcMac := a.srcMac, dstMac := a.dstMac);
    Assign2(a, rule);
    var rule' := rule.(hwLength := a.hwLength, opCode := a.opCode, hwType := a.hwType, protoType := a.protoType);
    Assign3(a, rule');
    AssignConcat(EmptyRule, Settings1(a), Settings2(a) + Settings3(a));
    AssignConcat(rule, Settings2(a), Settings3(a));
  }

  /**
   The round trip: parsing what a rule prints gives the rule back iff no value
   is an option token and no value but the last one printed is a bare "!".
   */
  lemma RoundTripIff(a: ArpRule)
    ensures ParseSpec(ToSpec(a)) == Ok(a) <==> Printable(Settings(a))
  {
    ToSpecIsFlat(a);
    AssignSettings(a);
    ParsePrintedIff(Settings(a), EmptyRule);
  }

  /** "!", " !" repeated: the only values for which the side of a "!" does not matter. */
  predicate OnlyBangs(v: string) {
    |v| % 2 == 1 && forall i :: 0 <= i < |v| ==> v[i] == if i % 2 == 0 then '!' else ' '
  }

  lemma BangCommutes(v: string)
    ensures "! " + v == v + " !" <==> OnlyBangs(v)
  {
    var left, right := "! " + v, v + " !";
    if left == right {
      forall i | 0 <= i < |v|
        ensures v[i] == if i % 2 == 0 then '!' else ' '
      {
        BangAt(v, i);
      }
      if |v| % 2 == 0 { assert left[|v|] == right[|v|]; BangAt(v, |v|); }
    }
  }

  lemma {:induction false} BangAt(v: string, i: nat)
    requires "! " + v == v + " !" && i < |v| + 2
    ensures ("! " + v)[i] == if i % 2 == 0 then '!' else ' '
  {
    if i >= 2 {
      BangAt(v, i - 2);
      assert ("! " + v)[i] == v[i - 2];
      assert (v + " !")[i - 2] == v[i - 2];
    }
  }

  lemma SwapAfter(option: string, value: string, rest: seq<string>)
    requires option in Options
    ensures SwapBangs([option, "!", value] + rest) == [option, value, "!"] + SwapBangs(rest)
  {
  }

  /** A "!" written behind its option is swapped past the value as well. */
  lemma ParseNegatedAfter(option: string, value: string, ws: seq<Written>, rule: ArpRule)
    requires option in Options && value !in Options
    requires AllPlain(ws)
    ensures ParseFrom(SwapBangs([option, "!", value] + Flat(ws)), rule)
         == Ok(AssignAll(Assign(rule, option, value + " !"), ws))
  {
    SwapAfter(option, value, Flat(ws));
    var rest := SwapBangs(Flat(ws));
    if ws != [] { SwappedStart(ws); }
    assert [option, value, "!"] + rest == [option] + [value, "!"] + rest;
    ParseOne(option, [value, "!"], rest, rule);
    assert [value, "!"][1..] == ["!"];
    assert Join([value, "!"], " ") == value + " !";
    ParseWritten(ws, Assign(rule, option, value + " !"));
  }

  /** The value of the field that an option sets. */
  function Get(rule: ArpRule, option: string): string
    requires option in Options
  {
    if option == "-s" then rule.srcIP
    else if option == "-d" then rule.dstIP
    else if option == "--src-mac" then rule.srcMac
    else if option == "--dst-mac" then rule.dstMac
    else if option == "-i" then rule.inIface
    else if option == "-o" then rule.outIface
    else if option == "-l" then rule.hwLength
    else if option == "--opcode" then rule.opCode
    else if option == "--h-type" then rule.hwType
    else if option == "--proto-type" then rule.protoType
    else if option == "-j" then rule.target
    else rule.match_
  }

  ghost predicate SameFields(rule: ArpRule, rule': ArpRule) {
    forall o :: o in Options ==> Get(rule, o) == Get(rule', o)
  }

  lemma RulesAreFields(rule: ArpRule, rule': ArpRule)
    ensures rule == rule' <==> SameFields(rule, rule')
  {
    if SameFields(rule, rule') {
      assert Get(rule, "-s") == Get(rule', "-s") && Get(rule, "-d") == Get(rule', "-d");
      assert Get(rule, "--src-mac") == Get(rule', "--src-mac") && Get(rule, "--dst-mac") == Get(rule', "--dst-mac");
      assert Get(rule, "-i") == Get(rule', "-i") && Get(rule, "-o") == Get(rule', "-o");
      assert Get(rule, "-l") == Get(rule', "-l") && Get(rule, "--opcode") == Get(rule', "--opcode");
      assert Get(rule, "--h-type") == Get(rule', "--h-type") && Get(rule, "--proto-type") == Get(rule', "--proto-type");
      assert Get(rule, "-j") == Get(rule', "-j") && Get(rule, "-m") == Get(rule', "-m");
    }
  }

  lemma GetSame(rule: ArpRule, option: string, value: string)
    requires option in Options
    ensures Get(Assign(rule, option, value), option) == value
  {
  }

  const HardwareOptions: set<string> := {"--src-mac", "--dst-mac", "-l", "--opcode", "--h-type", "--proto-type"}

  lemma GetOtherHardware(rule: ArpRule, option: string, value: string, o: string)
    requires option in HardwareOptions && o in Options && o != option
    ensures Get(Assign(rule, option, value), o) == Get(rule, o)
  {
  }

  lemma GetOtherPlain(rule: ArpRule, option: string, value: string, o: string)
    requires option in {"-s", "-d", "-i", "-o", "-j", "-m"} && o in Options && o != option
    ensures Get(Assign(rule, option, value), o) == Get(rule, o)
  {
  }

  lemma GetAssigned(rule: ArpRule, option: string, value: string, o: string)
    requires option in Options && o in Options
    ensures Get(Assign(rule, option, value), o) == if o == option then value else Get(rule, o)
  {
    if o == option { GetSame(rule, option, value); }
    else if option in HardwareOptions { GetOtherHardware(rule, option, value, o); }
    else { GetOtherPlain(rule, option, value, o); }
  }

  /** A later option sets the same field again. */
  predicate Overwritten(ws: seq<Written>, option: string) { exists i :: 0 <= i < |ws| && ws[i].option == option }

  lemma OverwrittenStep(ws: seq<Written>, option: string)
    requires ws != []
    ensures Overwritten(ws, option) <==> ws[0].option == option || Overwritten(ws[1..], option)
  {
    if Overwritten(ws, option) {
      var i :| 0 <= i < |ws| && ws[i].option == option;
      if i > 0 { assert ws[1..][i - 1] == ws[i]; }
    }
  }

  /** Assigning the same options makes two rules equal iff every field in which they differ is overwritten. */
  lemma {:induction false} AssignAllEqualIff(rule: ArpRule, rule': ArpRule, ws: seq<Written>)
    requires AllPlain(ws)
    ensures AssignAll(rule, ws) == AssignAll(rule', ws)
       <==> forall o :: o in Options ==> Get(rule, o) == Get(rule', o) || Overwritten(ws, o)
    decreases |ws|
  {
    if ws == [] {
      RulesAreFields(rule, rule');
    } else {
      var w := ws[0];
      var next, next' := Assign(rule, w.option, w.Value()), Assign(rule', w.option, w.Value());
      AssignAllEqualIff(next, next', ws[1..]);
      forall o | o in Options
        ensures Get(next, o) == Get(next', o) || Overwritten(ws[1..], o)
           <==> Get(rule, o) == Get(rule', o) || Overwritten(ws, o)
      {
        GetAssigned(rule, w.option, w.Value(), o);
        GetAssigned(rule', w.option, w.Value(), o);
        OverwrittenStep(ws, o);
      }
    }
  }

  lemma ParseFirst(w: Written, rest: seq<string>, rule: ArpRule)
    requires w.Plain() && (rest == [] || SwapBangs(rest)[0] in Options)
    ensures ParseFrom(SwapBangs(w.Tokens() + rest), rule)
         == ParseFrom(SwapBangs(rest), Assign(rule, w.option, w.Value()))
  {
    SwapPlain(w, rest);
    ValueTokensJoin(w);
    assert SwapBangs(w.Tokens() + rest) == [w.option] + ValueTokens(w) + SwapBangs(rest);
    ParseOne(w.option, ValueTokens(w), SwapBangs(rest), rule);
  }

  /** Written options in front of other arguments are read first. */
  lemma {:induction false} ParsePrefix(ws: seq<Written>, rest: seq<string>, rule: ArpRule)
    requires AllPlain(ws) && (rest == [] || SwapBangs(rest)[0] in Options)
    ensures ParseFrom(SwapBangs(Flat(ws) + rest), rule) == ParseFrom(SwapBangs(rest), AssignAll(rule, ws))
    decreases |ws|
  {
    if ws == [] {
      assert Flat(ws) + rest == rest;
    } else {
      var w, tail := ws[0], Flat(ws[1..]) + rest;
      assert Flat(ws) + rest == w.Tokens() + tail;
      StartsWithOption(ws[1..], rest);
      ParseFirst(w, tail, rule);
      ParsePrefix(ws[1..], rest, Assign(rule, w.option, w.Value()));
    }
  }

  lemma StartsWithOption(ws: seq<Written>, rest: seq<string>)
    requires AllPlain(ws) && (rest == [] || SwapBangs(rest)[0] in Options)
    ensures Flat(ws) + rest == [] || SwapBangs(Flat(ws) + rest)[0] in Options
  {
    if ws == [] {
      assert Flat(ws) + rest == rest;
    } else {
      assert Flat(ws) + rest == ws[0].Tokens() + (Flat(ws[1..]) + rest);
      SwapPlain(ws[0], Flat(ws[1..]) + rest);
    }
  }

  /** "!" in front of the option: it ends up before the value. */
  lemma ParseNegatedBefore(before: seq<Written>, option: string, value: string, after: seq<Written>)
    requires AllPlain(before) && AllPlain(after) && Written(true, option, value).Plain()
    ensures ParseSpec(Flat(before) + (["!", option, value] + Flat(after)))
         == Ok(AssignAll(Assign(AssignAll(EmptyRule, before), option, "! " + value), after))
  {
    var w := Written(true, option, value);
    var ws := [w] + after;
    assert ws[1..] == after && w.Tokens() == ["!", option, value];
    assert Flat(ws) == ["!", option, value] + Flat(after);
    SwappedStart(ws);
    ParsePrefix(before, Flat(ws), EmptyRule);
    ParseWritten(ws, AssignAll(EmptyRule, before));
  }

  /** "!" behind the option: it ends up behind the value. */
  lemma ParseNegatedBehind(before: seq<Written>, option: string, value: string, after: seq<Written>)
    requires AllPlain(before) && AllPlain(after) && option in Options && value !in Options
    ensures ParseSpec(Flat(before) + ([option, "!", value] + Flat(after)))
         == Ok(AssignAll(Assign(AssignAll(EmptyRule, before), option, value + " !"), after))
  {
    var rest := [option, "!", value] + Flat(after);
    SwapAfter(option, value, Flat(after));
    ParsePrefix(before, rest, EmptyRule);
    ParseNegatedAfter(option, value, after, AssignAll(EmptyRule, before));
  }

  function Flip(w: Written): Written { w.(negated := !w.negated) }

  /** A bare "!" as the value of a negated option reaches over to the next option. */
  function BangThen(rule: ArpRule, option: string, after: seq<Written>): ArpRule
    requires option in Options && AllPlain(after) && after != []
  {
    AssignAll(Assign(rule, option, if after[0].negated then "! ! !" else "!"), Flipped(after))
  }

  function Bangs(w: Written): seq<string> { if w.negated then ["!", "!", "!"] else ["!"] }

  function Flipped(ws: seq<Written>): seq<Written>
    requires ws != []
  {
    [Flip(ws[0])] + ws[1..]
  }

  lemma SwapPair(arg: string, rest: seq<string>)
    ensures SwapBangs(["!", arg] + rest) == [arg, "!"] + SwapBangs(rest)
  {
    assert (["!", arg] + rest)[2..] == rest;
  }

  lemma FlatFirst(ws: seq<Written>)
    requires ws != []
    ensures Flat(ws) == ws[0].Tokens() + Flat(ws[1..]) && Flat(Flipped(ws)) == Flip(ws[0]).Tokens() + Flat(ws[1..])
  {
    assert Flipped(ws)[1..] == ws[1..];
  }

  lemma Regroup(x: seq<string>, y: seq<string>, z: seq<string>)
    ensures (x + y) + z == x + (y + z)
  {
  }

  lemma TwoBangs(tail: seq<string>)
    ensures SwapBangs(["!"] + (["!"] + tail)) == ["!", "!"] + SwapBangs(tail)
  {
    assert ["!"] + (["!"] + tail) == ["!", "!"] + tail;
    SwapPair("!", tail);
  }

  lemma NegatedTokens(w: Written)
    ensures w.negated ==> w.Tokens() == ["!"] + Flip(w).Tokens()
    ensures !w.negated ==> Flip(w).Tokens() == ["!"] + w.Tokens()
  {
  }

  lemma FlippedTokens(ws: seq<Written>)
    requires ws != []
    ensures ws[0].negated ==> Flat(ws) == ["!"] + Flat(Flipped(ws))
    ensures !ws[0].negated ==> Flat(Flipped(ws)) == ["!"] + Flat(ws)
  {
    FlatFirst(ws);
    NegatedTokens(ws[0]);
    Regroup(["!"], Flip(ws[0]).Tokens(), Flat(ws[1..]));
    Regroup(["!"], ws[0].Tokens(), Flat(ws[1..]));
  }

  lemma SwapBangFirst(after: seq<Written>)
    requires AllPlain(after) && after != []
    ensures SwapBangs(["!"] + Flat(after))
         == (if after[0].negated then ["!", "!"] else []) + SwapBangs(Flat(Flipped(after)))
  {
    FlippedTokens(after);
    if after[0].negated { TwoBangs(Flat(Flipped(after))); }
  }

  lemma SwapBang(option: string, after: seq<Written>)
    requires AllPlain(after) && option in Options && after != []
    ensures SwapBangs(["!", option, "!"] + Flat(after)) == [option] + Bangs(after[0]) + SwapBangs(Flat(Flipped(after)))
  {
    var more: seq<string> := if after[0].negated then ["!", "!"] else [];
    var rest := SwapBangs(Flat(Flipped(after)));
    assert ["!", option] + ["!"] == ["!", option, "!"];
    Regroup(["!", option], ["!"], Flat(after));
    SwapPair(option, ["!"] + Flat(after));
    SwapBangFirst(after);
    Regroup([option, "!"], more, rest);
    assert [option, "!"] + more == [option] + Bangs(after[0]);
  }

  lemma JoinBangs(w: Written)
    ensures Join(Bangs(w), " ") == if w.negated then "! ! !" else "!"
  {
    assert ["!", "!", "!"][1..] == ["!", "!"] && ["!", "!"][1..] == ["!"];
  }

  lemma ParseBang(option: string, after: seq<Written>, rule: ArpRule)
    requires AllPlain(after) && option in Options && after != []
    ensures ParseFrom(SwapBangs(["!", option, "!"] + Flat(after)), rule) == Ok(BangThen(rule, option, after))
  {
    var next := Flipped(after);
    SwapBang(option, after);
    SwappedStart(next);
    ParseOne(option, Bangs(after[0]), SwapBangs(Flat(next)), rule);
    JoinBangs(after[0]);
    ParseWritten(next, Assign(rule, option, Join(Bangs(after[0]), " ")));
  }

  lemma ParseBangBefore(before: seq<Written>, option: string, after: seq<Written>)
    requires AllPlain(before) && AllPlain(after) && option in Options && after != []
    ensures ParseSpec(Flat(before) + (["!", option, "!"] + Flat(after)))
         == Ok(BangThen(AssignAll(EmptyRule, before), option, after))
  {
    ParseBang(option, after, AssignAll(EmptyRule, before));
    SwapBang(option, after);
    ParsePrefix(before, ["!", option, "!"] + Flat(after), EmptyRule);
  }

  lemma BangMatters(rule: ArpRule, option: string, after: seq<Written>)
    requires AllPlain(after) && option in Options && after != []
    ensures BangThen(rule, option, after) == AssignAll(Assign(rule, option, "! !"), after)
       <==> Overwritten(after, option) && Overwritten(after[1..], after[0].option)
  {
    var w, rest := after[0], after[1..];
    var x := if w.negated then "! ! !" else "!";
    var left := Assign(Assign(rule, option, x), w.option, Flip(w).Value());
    var right := Assign(Assign(rule, option, "! !"), w.option, w.Value());
    assert Flipped(after)[1..] == rest;
    AssignAllEqualIff(left, right, rest);
    OverwrittenStep(after, option);
    assert |Flip(w).Value()| != |w.Value()| && |x| != |"! !"|;
    forall o | o in Options
      ensures Get(left, o) == Get(right, o) <==> o != option && o != w.option
    {
      GetAssigned(Assign(rule, option, x), w.option, Flip(w).Value(), o);
      GetAssigned(Assign(rule, option, "! !"), w.option, w.Value(), o);
      GetAssigned(rule, option, x, o);
      GetAssigned(rule, option, "! !", o);
    }
  }

  /** A specification with "!" in front of one of its options, and the same one with "!" behind the option. */
  function InFront(before: seq<Written>, option: string, value: string, after: seq<Written>): seq<string> {
    Flat(before) + (["!", option, value] + Flat(after))
  }

  function Behind(before: seq<Written>, option: string, value: string, after: seq<Written>): seq<string> {
    Flat(before) + ([option, "!", value] + Flat(after))
  }

  /** When the side of the "!" makes no difference to the rule. */
  predicate SideIrrelevant(option: string, value: string, after: seq<Written>) {
    if value == "!" && after != [] then Overwritten(after, option) && Overwritten(after[1..], after[0].option)
    else OnlyBangs(value) || Overwritten(after, option)
  }

  /**
   "!" before an option and "!" behind it, anywhere in a specification, parse to
   the same rule iff a later option sets the field again or the value is made of
   "!" itself: in front it negates, behind it trails the value. A bare "!" as
   value disturbs the option after it as well, so that one must be set again too.
   */
  lemma NegationSideMatters(before: seq<Written>, option: string, value: string, after: seq<Written>)
    requires AllPlain(before) && AllPlain(after) && option in Options && value !in Options
    ensures ParseSpec(InFront(before, option, value, after)) == ParseSpec(Behind(before, option, value, after))
       <==> SideIrrelevant(option, value, after)
  {
    if value != "!" {
      PlainSideMatters(before, option, value, after);
    } else if after != [] {
      BangSideMatters(before, option, value, after);
    } else {
      BangAtEnd(before, option, value, after);
    }
  }

  /** An address on the wrong side of its "!". */
  lemma WrongSideExample()
    ensures ParseSpec(["!", "-s", "10.0.0.1"]) != ParseSpec(["-s", "!", "10.0.0.1"])
  {
    var front, behind := ["!", "-s", "10.0.0.1"], ["-s", "!", "10.0.0.1"];
    assert |"10.0.0.1"| == 8 && "10.0.0.1"[0] != '!';
    OptionsAreShort("10.0.0.1");
    NegationSideMatters([], "-s", "10.0.0.1", []);
    assert Flat([]) + (front + Flat([])) == front && Flat([]) + (behind + Flat([])) == behind;
  }

  lemma OptionsAreShort(v: string)
    requires |v| == 8 && v[0] != '-'
    ensures v !in Options
  {
  }

  lemma BangInFront(before: seq<Written>, option: string, value: string, after: seq<Written>)
    requires AllPlain(before) && AllPlain(after) && option in Options && value == "!" && after != []
    ensures ParseSpec(InFront(before, option, value, after))
         == Ok(BangThen(AssignAll(EmptyRule, before), option, after))
  {
    ParseBangBefore(before, option, after);
  }

  lemma BangBehind(before: seq<Written>, option: string, value: string, after: seq<Written>)
    requires AllPlain(before) && AllPlain(after) && option in Options && value == "!"
    ensures ParseSpec(Behind(before, option, value, after))
         == Ok(AssignAll(Assign(AssignAll(EmptyRule, before), option, "! !"), after))
  {
    OptionsArePlain(option);
    ParseNegatedBehind(before, option, value, after);
    assert value + " !" == "! !";
  }

  lemma BangSideMatters(before: seq<Written>, option: string, value: string, after: seq<Written>)
    requires AllPlain(before) && AllPlain(after) && option in Options && value == "!" && after != []
    ensures ParseSpec(InFront(before, option, value, after)) == ParseSpec(Behind(before, option, value, after))
       <==> Overwritten(after, option) && Overwritten(after[1..], after[0].option)
  {
    BangInFront(before, option, value, after);
    BangBehind(before, option, value, after);
    BangMatters(AssignAll(EmptyRule, before), option, after);
  }

  lemma BangAtEnd(before: seq<Written>, option: string, value: string, after: seq<Written>)
    requires AllPlain(before) && option in Options && value == "!" && after == []
    ensures ParseSpec(InFront(before, option, value, after)) == ParseSpec(Behind(before, option, value, after))
    ensures OnlyBangs(value)
  {
    BangLast(before, option);
  }

  lemma BangLast(before: seq<Written>, option: string)
    requires AllPlain(before) && option in Options
    ensures ParseSpec(Flat(before) + (["!", option, "!"] + Flat([])))
         == ParseSpec(Flat(before) + ([option, "!", "!"] + Flat([])))
  {
    var left, right := ["!", option, "!"] + Flat([]), [option, "!", "!"] + Flat([]);
    assert left == ["!", option, "!"] && right == [option, "!", "!"];
    assert left[2..] == ["!"] && right[1..] == ["!", "!"] && right[1..][2..] == [];
    OptionsArePlain(option);
    assert SwapBangs(left) == right;
    assert SwapBangs(right[1..]) == ["!", "!"];
    assert SwapBangs(right) == right;
    ParsePrefix(before, left, EmptyRule);
    ParsePrefix(before, right, EmptyRule);
  }

  lemma PlainSideMatters(before: seq<Written>, option: string, value: string, after: seq<Written>)
    requires AllPlain(before) && AllPlain(after) && Written(true, option, value).Plain()
    ensures ParseSpec(InFront(before, option, value, after)) == ParseSpec(Behind(before, option, value, after))
       <==> OnlyBangs(value) || Overwritten(after, option)
  {
    ParseNegatedBefore(before, option, value, after);
    ParseNegatedBehind(before, option, value, after);
    BangCommutes(value);
    var rule := AssignAll(EmptyRule, before);
    var left, right := Assign(rule, option, "! " + value), Assign(rule, option, value + " !");
    AssignAllEqualIff(left, right, after);
    forall o | o in Options
      ensures Get(left, o) == Get(right, o) <==> o != option || OnlyBangs(value)
    {
      GetAssigned(rule, option, "! " + value, o);
      GetAssigned(rule, option, value + " !", o);
    }
  }
}

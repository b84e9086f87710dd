/** What short-option parsing means, without permuting anything: a left-to-right scan of the argument list following
    guidelines 3 to 10 of section 12.2 of the Base Definitions of POSIX.1-2017, with the GNU extensions of
    tools/getopt/getopt.c (optional arguments, options after operands). Strings stand without their terminator. */
module GetoptScan {
  import opened Wrappers

  datatype Kind = Invalid | Flag | Required | Optional

  /** One returned option: the code, `optarg`, and the character stored in `optopt` if the call reports a fault. */
  datatype Event = Event(code: char, arg: Option<string>, fault: Option<char>)

  /** A whole scan: what was reported, the elements used up as options (with their arguments and any "--"), the operands
      passed over, and the elements not looked at. */
  datatype Parse = Parse(events: seq<Event>, opts: seq<string>, nonopts: seq<string>, rest: seq<string>)

  /** The events of one option element and whether the next element was taken as an argument. */
  datatype Word = Word(events: seq<Event>, took: bool)

  // ----- The option string -----

  /** Character i of a C string, its terminator included. */
  function At(s: string, i: nat): char {
    if i < |s| then s[i] else '\0'
  }

  /** Position of the first c, or the length. */
  function IndexOf(s: string, c: char): (i: nat)
    ensures i <= |s| && c !in s[..i]
    ensures i < |s| ==> s[i] == c
  {
    if s == "" || s[0] == c then 0 else
      var i := IndexOf(s[1..], c) + 1;
      assert s[..i] == [s[0]] + s[1..][..i - 1];
      i
  }

  function KindOf(optstring: string, c: char): Kind {
    var t := IndexOf(optstring, c);
    if t == |optstring| || c == ':' then Invalid
    else if At(optstring, t + 1) != ':' then Flag
    else if At(optstring, t + 2) != ':' then Required
    else Optional
  }

  /** The option strings modelled: no ordering prefix, no `W;`. */
  predicate Plain(optstring: string) {
    && At(optstring, 0) != '-' && At(optstring, 0) != '+'
    && !(IndexOf(optstring, 'W') < |optstring| && At(optstring, IndexOf(optstring, 'W') + 1) == ';')
  }

  function MissingCode(optstring: string): char {
    if At(optstring, 0) == ':' then ':' else '?'
  }

  // ----- The scan -----

  predicate NonOption(arg: string) {
    At(arg, 0) != '-' || |arg| == 1
  }

  /** The characters of one option element, given the elements after it. */
  function ScanWord(optstring: string, chars: string, following: seq<string>): (w: Word)
    ensures chars != "" ==> w.events != []
    ensures w.took ==> following != []
  {
    if chars == "" then Word([], false) else
      var c, tail := chars[0], chars[1..];
      match KindOf(optstring, c)
      case Invalid =>
        var w := ScanWord(optstring, tail, following);
        Word([Event('?', None, Some(c))] + w.events, w.took)
      case Flag =>
        var w := ScanWord(optstring, tail, following);
        Word([Event(c, None, None)] + w.events, w.took)
      case Optional =>
        Word([Event(c, if tail == "" then None else Some(tail), None)], false)
      case Required =>
        if tail != "" then Word([Event(c, Some(tail), None)], false)
        else if following == [] then Word([Event(MissingCode(optstring), None, Some(c))], false)
        else Word([Event(c, Some(following[0]), None)], true)
  }

  function Used(w: Word): nat {
    if w.took then 2 else 1
  }

  function ScanArgs(optstring: string, permute: bool, args: seq<string>): Parse
    decreases |args|, 1
  {
    if args == [] then Parse([], [], [], [])
    else if args[0] == "--" then Parse([], ["--"], [], args[1..])
    else if NonOption(args[0]) then
      if !permute then Parse([], [], [], args) else
        var p := ScanArgs(optstring, permute, args[1..]);
        p.(nonopts := [args[0]] + p.nonopts)
    else
      ScanRest(optstring, permute, args[0][1..], args)
  }

  /** The scan from inside the option element args[0], of which `chars` are left. */
  function ScanRest(optstring: string, permute: bool, chars: string, args: seq<string>): Parse
    requires args != []
    decreases |args|, 0
  {
    var w := ScanWord(optstring, chars, args[1..]);
    var p := ScanArgs(optstring, permute, args[Used(w)..]);
    Parse(w.events + p.events, args[..Used(w)] + p.opts, p.nonopts, p.rest)
  }

  /** Where a scan can be between two calls: in front of args[0], or inside it. */
  function Resume(optstring: string, permute: bool, chars: string, args: seq<string>): Parse
    requires chars != "" ==> args != []
  {
    if chars == "" then ScanArgs(optstring, permute, args) else ScanRest(optstring, permute, chars, args)
  }

  lemma ScanOperand(optstring: string, args: seq<string>)
    requires args != [] && NonOption(args[0])
    ensures var p := ScanArgs(optstring, true, args[1..]);
            ScanArgs(optstring, true, args) == p.(nonopts := [args[0]] + p.nonopts)
  {
    hide ScanRest;
  }

  lemma ScanOption(optstring: string, permute: bool, args: seq<string>)
    requires args != [] && !NonOption(args[0]) && args[0] != "--"
    ensures ScanArgs(optstring, permute, args) == ScanRest(optstring, permute, args[0][1..], args)
  {
    hide ScanRest;
  }

  /** Operands in front only add to the operands. */
  lemma {:induction false} SkipNonOptions(optstring: string, args: seq<string>, k: nat)
    requires k <= |args| && forall i :: 0 <= i < k ==> NonOption(args[i])
    ensures var p := ScanArgs(optstring, true, args[k..]);
            ScanArgs(optstring, true, args) == p.(nonopts := args[..k] + p.nonopts)
  {
    hide ScanArgs, NonOption;
    if k == 0 {
      assert args[0..] == args;
      assert args[..0] == [];
    } else {
      SkipNonOptions(optstring, args[1..], k - 1);
      ScanOperand(optstring, args);
      assert args[1..][k - 1..] == args[k..];
      assert args[..k] == [args[0]] + args[1..][..k - 1];
    }
  }

  /** One option character: what is reported, what is left of the element, and how many elements are finished. */
  ghost predicate CharacterStep(optstring: string, chars: string, args: seq<string>, e: Event, chars': string, n: int) {
    && chars != "" && args != [] && 0 <= n <= |args| && (chars' != "" ==> n == 0)
    && var tail := chars[1..];
       match KindOf(optstring, chars[0])
       case Invalid => e == Event('?', None, Some(chars[0])) && chars' == tail && n == (if tail == "" then 1 else 0)
       case Flag => e == Event(chars[0], None, None) && chars' == tail && n == (if tail == "" then 1 else 0)
       case Optional => e == Event(chars[0], if tail == "" then None else Some(tail), None) && chars' == "" && n == 1
       case Required =>
         && chars' == ""
         && (if tail != "" then e == Event(chars[0], Some(tail), None) && n == 1
             else if |args| == 1 then e == Event(MissingCode(optstring), None, Some(chars[0])) && n == 1
             else e == Event(chars[0], Some(args[1]), None) && n == 2)
  }

  /** That is how the scan goes on. */
  lemma OneCharacter(optstring: string, permute: bool, chars: string, args: seq<string>, e: Event, chars': string, n: nat)
    requires CharacterStep(optstring, chars, args, e, chars', n)
    ensures var p, p' := ScanRest(optstring, permute, chars, args), Resume(optstring, permute, chars', args[n..]);
            && p.events == [e] + p'.events && p.opts == args[..n] + p'.opts
            && p.nonopts == p'.nonopts && p.rest == p'.rest
  {
    hide KindOf, ScanArgs;
    var w := ScanWord(optstring, chars, args[1..]);
    if n == 0 {
      assert args[0..] == args;
      assert args[..0] == [];
    } else {
      assert ScanWord(optstring, "", args[1..]) == Word([], false);
      assert w.events == [e] && n == Used(w);
    }
  }

  // ----- What the scan guarantees -----

  /** `s` is a merge of `a` and `b`: each appears in s in its own order, and together they are all of s. */
  predicate Merge(s: seq<string>, a: seq<string>, b: seq<string>) {
    if s == [] then a == [] && b == []
    else (a != [] && s[0] == a[0] && Merge(s[1..], a[1..], b)) || (b != [] && s[0] == b[0] && Merge(s[1..], a, b[1..]))
  }

  lemma {:induction false} MergePrefix(x: seq<string>, s: seq<string>, a: seq<string>, b: seq<string>)
    requires Merge(s, a, b)
    ensures Merge(x + s, x + a, b)
  {
    if x == [] {
      assert x + s == s && x + a == a;
    } else {
      MergePrefix(x[1..], s, a, b);
      assert (x + s)[1..] == x[1..] + s && (x + a)[1..] == x[1..] + a;
    }
  }

  lemma MergeOperand(args: seq<string>, a: seq<string>, b: seq<string>)
    requires args != [] && |a| + |b| < |args| && Merge(args[1..][..|a| + |b|], a, b)
    ensures Merge(args[..|a| + |b| + 1], a, [args[0]] + b)
    ensures args[1..][|a| + |b|..] == args[|a| + |b| + 1..]
  {
    var s, b' := args[..|a| + |b| + 1], [args[0]] + b;
    assert s[1..] == args[1..][..|a| + |b|] && b'[1..] == b;
  }

  lemma OptionShape(arg: string)
    requires !NonOption(arg)
    ensures |arg| >= 2
  {
  }

  lemma UsedWithin(optstring: string, chars: string, following: seq<string>)
    ensures 1 <= Used(ScanWord(optstring, chars, following)) <= 1 + |following|
  {
  }

  /** The elements looked at are a stable merge of the option elements and the operands; what follows is untouched. */
  lemma {:induction false} StablePartition(optstring: string, permute: bool, args: seq<string>)
    ensures var p := ScanArgs(optstring, permute, args);
            var k := |p.opts| + |p.nonopts|;
            k <= |args| && p.rest == args[k..] && Merge(args[..k], p.opts, p.nonopts)
    decreases |args|
  {
    hide ScanArgs, NonOption, ScanRest, ScanWord, Merge, Used;
    if args == [] || args[0] == "--" || (!permute && NonOption(args[0])) {
      PartitionEnds(optstring, permute, args);
    } else if NonOption(args[0]) {
      StablePartition(optstring, permute, args[1..]);
      ScanOperand(optstring, args);
      var p := ScanArgs(optstring, permute, args[1..]);
      MergeOperand(args, p.opts, p.nonopts);
    } else {
      OptionShape(args[0]);
      UsedWithin(optstring, args[0][1..], args[1..]);
      var w := ScanWord(optstring, args[0][1..], args[1..]);
      StablePartition(optstring, permute, args[Used(w)..]);
      ScanOption(optstring, permute, args);
      PartitionExtends(optstring, permute, args, w);
    }
  }

  lemma PartitionEnds(optstring: string, permute: bool, args: seq<string>)
    requires args == [] || args[0] == "--" || (!permute && NonOption(args[0]))
    ensures var p := ScanArgs(optstring, permute, args);
            var k := |p.opts| + |p.nonopts|;
            k <= |args| && p.rest == args[k..] && Merge(args[..k], p.opts, p.nonopts)
  {
    hide ScanRest;
    if args != [] && args[0] == "--" {
      assert args[..1] == ["--"];
      MergePrefix(["--"], [], [], []);
    } else {
      assert args[..0] == [] && args[0..] == args;
    }
  }

  lemma PartitionExtends(optstring: string, permute: bool, args: seq<string>, w: Word)
    requires args != [] && args[0] != "" && w == ScanWord(optstring, args[0][1..], args[1..])
    requires var q := ScanArgs(optstring, permute, args[Used(w)..]);
             var k := |q.opts| + |q.nonopts|;
             && k <= |args| - Used(w) && q.rest == args[Used(w)..][k..]
             && Merge(args[Used(w)..][..k], q.opts, q.nonopts)
    ensures var p := ScanRest(optstring, permute, args[0][1..], args);
            var k := |p.opts| + |p.nonopts|;
            k <= |args| && p.rest == args[k..] && Merge(args[..k], p.opts, p.nonopts)
  {
    hide ScanArgs, ScanWord, Merge, Used;
    var n := Used(w);
    var q := ScanArgs(optstring, permute, args[n..]);
    var k := |q.opts| + |q.nonopts|;
    MergePrefix(args[..n], args[n..][..k], q.opts, q.nonopts);
    assert args[..n] + args[n..][..k] == args[..k + n];
    assert args[n..][k..] == args[k + n..];
  }

  /** Only operands are passed over. */
  lemma {:induction false} OperandsOnly(optstring: string, permute: bool, args: seq<string>)
    ensures forall x <- ScanArgs(optstring, permute, args).nonopts :: NonOption(x)
    decreases |args|
  {
    if args != [] && args[0] != "--" {
      if NonOption(args[0]) {
        OperandsOnly(optstring, permute, args[1..]);
      } else {
        OperandsOnly(optstring, permute, args[Used(ScanWord(optstring, args[0][1..], args[1..]))..]);
      }
    }
  }

  /** What a scan can report: a listed option character, or one of the two fault codes. */
  predicate Listed(optstring: string, c: char) {
    c in optstring || c == '?' || c == ':'
  }

  lemma {:induction false} WordListed(optstring: string, chars: string, following: seq<string>)
    ensures forall e <- ScanWord(optstring, chars, following).events :: Listed(optstring, e.code)
  {
    if chars != "" {
      WordListed(optstring, chars[1..], following);
      KindListed(optstring, chars[0]);
      hide KindOf;
    }
  }

  lemma KindListed(optstring: string, c: char)
    ensures KindOf(optstring, c) != Invalid ==> c in optstring
  {
  }

  lemma {:induction false} ListedCodes(optstring: string, permute: bool, args: seq<string>)
    ensures forall e <- ScanArgs(optstring, permute, args).events :: Listed(optstring, e.code)
    decreases |args|
  {
    hide Listed, ScanWord, KindOf;
    if args != [] && args[0] != "--" {
      if NonOption(args[0]) {
        ListedCodes(optstring, permute, args[1..]);
      } else {
        OptionShape(args[0]);
        UsedWithin(optstring, args[0][1..], args[1..]);
        var w := ScanWord(optstring, args[0][1..], args[1..]);
        WordListed(optstring, args[0][1..], args[1..]);
        ListedCodes(optstring, permute, args[Used(w)..]);
      }
    }
  }

  // ----- Permuting is invisible -----

  /** The last option reported was one that needs an argument and had none. */
  predicate LacksArgument(optstring: string, events: seq<Event>) {
    && events != []
    && events[|events| - 1].fault.Some? && KindOf(optstring, events[|events| - 1].fault.value) == Required
  }

  /** An option element looks at the next element only to take it as an argument or to miss one. */
  lemma {:induction false} WordLocal(optstring: string, chars: string, f: seq<string>, g: seq<string>)
    requires f != [] && g != [] ==> f[0] == g[0] || !ScanWord(optstring, chars, f).took
    ensures var w, w' := ScanWord(optstring, chars, f), ScanWord(optstring, chars, g);
            && (w.took && g != [] ==> w' == w)
            && (!w.took && (f != [] || g == [] || !LacksArgument(optstring, w.events)) ==> w' == w)
            && (LacksArgument(optstring, w.events) ==> f == [] && !w.took)
            && (LacksArgument(optstring, w.events) && g != [] ==>
                |w'.events| == |w.events| && w'.events[|w'.events| - 1].fault == None)
  {
    hide KindOf, LacksArgument;
    NothingLacked(optstring);
    if chars != "" {
      var k, c := KindOf(optstring, chars[0]), chars[0];
      if k == Invalid || k == Flag {
        WordLocal(optstring, chars[1..], f, g);
        var e := if k == Invalid then Event('?', None, Some(c)) else Event(c, None, None);
        LacksAppend(optstring, [e], ScanWord(optstring, chars[1..], f).events);
        LacksSingle(optstring, e);
      } else {
        LacksSingle(optstring, ScanWord(optstring, chars, f).events[0]);
      }
    }
  }

  lemma NothingLacked(optstring: string)
    ensures !LacksArgument(optstring, [])
  {
  }

  lemma LacksSingle(optstring: string, e: Event)
    ensures LacksArgument(optstring, [e]) <==> e.fault.Some? && KindOf(optstring, e.fault.value) == Required
  {
    hide KindOf;
  }

  lemma LacksAppend(optstring: string, e: seq<Event>, f: seq<Event>)
    ensures LacksArgument(optstring, e + f) <==> if f == [] then LacksArgument(optstring, e) else LacksArgument(optstring, f)
  {
    hide KindOf;
    assert f == [] ==> e + f == e;
  }

  /** Re-reading the option part alone, followed by anything a scan would stop at, reports the same options, except
      that an option found without its argument would now find one. */
  lemma {:induction false} OptionsReread(optstring: string, args: seq<string>, tail: seq<string>)
    requires tail == [] || NonOption(tail[0]) || ScanArgs(optstring, true, args).rest != []
    ensures var p, q := ScanArgs(optstring, true, args), ScanArgs(optstring, false, ScanArgs(optstring, true, args).opts + tail);
            q == Parse(p.events, p.opts, [], tail) <==> !(tail != [] && LacksArgument(optstring, p.events))
    decreases |args|
  {
    hide LacksArgument;
    if args == [] {
      NothingLacked(optstring);
      assert [] + tail == tail;
      OperandStops(optstring, tail);
    } else if args[0] == "--" {
      NothingLacked(optstring);
      assert (["--"] + tail)[1..] == tail;
      assert ScanArgs(optstring, false, ["--"] + tail) == Parse([], ["--"], [], tail);
    } else if NonOption(args[0]) {
      OptionsReread(optstring, args[1..], tail);
      ScanOperand(optstring, args);
    } else {
      ScanOption(optstring, true, args);
      OptionsReread(optstring, args[Used(ScanWord(optstring, args[0][1..], args[1..]))..], tail);
      ElementReread(optstring, args, tail);
    }
  }

  lemma ScanNothing(optstring: string)
    ensures ScanArgs(optstring, true, []) == Parse([], [], [], [])
  {
  }

  lemma OperandStops(optstring: string, tail: seq<string>)
    requires tail == [] || NonOption(tail[0])
    ensures ScanArgs(optstring, false, tail) == Parse([], [], [], tail)
  {
  }

  lemma ElementReread(optstring: string, args: seq<string>, tail: seq<string>)
    requires args != [] && args[0] != "--" && !NonOption(args[0]) && args[0] != ""
    requires var n := Used(ScanWord(optstring, args[0][1..], args[1..]));
             var p := ScanArgs(optstring, true, args[n..]);
             && (ScanArgs(optstring, false, p.opts + tail) == Parse(p.events, p.opts, [], tail)
                 <==> !(tail != [] && LacksArgument(optstring, p.events)))
    ensures var p := ScanRest(optstring, true, args[0][1..], args);
            var q := ScanArgs(optstring, false, p.opts + tail);
            q == Parse(p.events, p.opts, [], tail) <==> !(tail != [] && LacksArgument(optstring, p.events))
  {
    hide ScanArgs, ScanWord, NonOption, LacksArgument, KindOf;
    var chars := args[0][1..];
    var w := ScanWord(optstring, chars, args[1..]);
    var n := Used(w);
    var p := ScanArgs(optstring, true, args[n..]);
    var again := args[..n] + p.opts + tail;
    assert again == args[..n] + (p.opts + tail);
    ScanOption(optstring, false, again);
    WordLocal(optstring, chars, args[1..], again[1..]);
    LacksAppend(optstring, w.events, p.events);
    var w' := ScanWord(optstring, chars, again[1..]);
    assert tail != [] ==> again[1..] != [] by {
      assert |again| == n + |p.opts| + |tail|;
    }
    assert w.took ==> again[1..] != [];
    FaultOfLack(optstring, w.events);
    if w' == w {
      assert again[n..] == p.opts + tail;
      assert again[..n] == args[..n];
      var q := ScanArgs(optstring, false, p.opts + tail);
      Cancel(w.events, q.events, p.events);
      Cancel(args[..n], q.opts, p.opts);
      NothingLacked(optstring);
    } else {
      ScanNothing(optstring);
      assert args[n..] == [] && again[1..] == tail;
      var q := ScanArgs(optstring, false, again);
      assert q.events[|w.events| - 1] == w'.events[|w.events| - 1];
    }
  }

  lemma FaultOfLack(optstring: string, e: seq<Event>)
    ensures LacksArgument(optstring, e) ==> e != [] && e[|e| - 1].fault != None
  {
  }

  lemma Cancel<T>(a: seq<T>, x: seq<T>, y: seq<T>)
    ensures a + x == a + y <==> x == y
  {
    if a + x == a + y {
      assert x == (a + x)[|a|..] && y == (a + y)[|a|..];
    }
  }

  /** Scanning the permuted list, in strict POSIX order, reports exactly the options of the original list and stops at
      the first operand; except that it does not if the last option lacked its argument and anything was moved behind
      it. */
  lemma PermutedReread(optstring: string, args: seq<string>)
    ensures var p := ScanArgs(optstring, true, args);
            var tail := p.nonopts + p.rest;
            var again := ScanArgs(optstring, false, p.opts + tail);
            again == Parse(p.events, p.opts, [], tail) <==> !(tail != [] && LacksArgument(optstring, p.events))
  {
    hide ScanArgs, NonOption, LacksArgument;
    var p := ScanArgs(optstring, true, args);
    OperandsOnly(optstring, true, args);
    if p.nonopts == [] {
      assert [] + p.rest == p.rest;
    } else {
      assert p.nonopts[0] in p.nonopts;
    }
    OptionsReread(optstring, args, p.nonopts + p.rest);
  }

  /** The exception happens. */
  lemma LackFilledByPermuting()
    ensures var p := ScanArgs("o:", true, ["file", "-o"]);
            && p == Parse([Event('?', None, Some('o'))], ["-o"], ["file"], [])
            && ScanArgs("o:", false, ["-o", "file"]).events == [Event('o', Some("file"), None)]
  {
    assert IndexOf("o:", 'o') == 0;
    assert KindOf("o:", 'o') == Required;
    assert ScanWord("o:", "o", []) == Word([Event('?', None, Some('o'))], false);
    assert ScanWord("o:", "o", ["file"]) == Word([Event('o', Some("file"), None)], true);
    assert ["-o"][0][1..] == "o" && ["-o", "file"][0][1..] == "o";
    assert ["file", "-o"][1..] == ["-o"] && ["-o"][1..] == [] && ["-o", "file"][1..] == ["file"];
    assert ["-o", "file"][2..] == [];
    assert ScanArgs("o:", true, ["-o"]) == Parse([Event('?', None, Some('o'))], ["-o"], [], []);
  }
}

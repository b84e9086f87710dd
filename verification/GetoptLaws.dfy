/** The option string read on its own terms: what each form of declaration makes of an option element, and that written
    options are read back (tools/getopt/getopt.c:931-1000). No statement here mentions how the scan classifies a
    character. */
module GetoptLaws {
  import opened GetoptScan
  import opened Wrappers

  // ----- One character, by the place where the option string declares it -----

  /** `optstring` declares c right after `pre` and goes on with `post`. */
  ghost predicate DeclaredAt(optstring: string, pre: string, c: char, post: string) {
    optstring == pre + [c] + post && c !in pre && c != ':'
  }

  lemma DeclaredIndex(optstring: string, pre: string, c: char, post: string)
    requires DeclaredAt(optstring, pre, c, post)
    ensures IndexOf(optstring, c) == |pre| < |optstring|
    ensures forall i: nat :: At(optstring, |pre| + 1 + i) == At(post, i)
  {
    assert optstring[|pre|] == c && optstring[..|pre|] == pre;
    assert optstring[..|pre| + 1] == pre + [c] && c in optstring[..|pre| + 1];
    FirstAt(optstring, c, |pre|);
  }

  lemma FirstAt(s: string, c: char, i: nat)
    requires i < |s| && s[i] == c && c !in s[..i]
    ensures IndexOf(s, c) == i
  {
  }

  /** Not followed by a colon: reported by itself, and the rest of the element is more options. */
  lemma FlagRead(optstring: string, pre: string, c: char, post: string, tail: string, following: seq<string>)
    requires DeclaredAt(optstring, pre, c, post) && (post == "" || post[0] != ':')
    ensures var w := ScanWord(optstring, tail, following);
            ScanWord(optstring, [c] + tail, following) == Word([Event(c, None, None)] + w.events, w.took)
  {
    DeclaredIndex(optstring, pre, c, post);
    assert At(optstring, |pre| + 1 + 0) == At(post, 0);
    assert ([c] + tail)[1..] == tail;
  }

  /** Followed by one colon: the rest of the element is the argument, or else the next element is, or else it is missing,
      which is reported as '?' or, if the option string starts with a colon, as ':'. */
  lemma RequiredRead(optstring: string, pre: string, c: char, post: string, tail: string, following: seq<string>)
    requires DeclaredAt(optstring, pre, c, [':'] + post) && (post == "" || post[0] != ':')
    ensures ScanWord(optstring, [c] + tail, following)
            == if tail != "" then Word([Event(c, Some(tail), None)], false)
               else if following != [] then Word([Event(c, Some(following[0]), None)], true)
               else Word([Event(if optstring[0] == ':' then ':' else '?', None, Some(c))], false)
  {
    DeclaredIndex(optstring, pre, c, [':'] + post);
    assert At(optstring, |pre| + 1 + 0) == ':' && At(optstring, |pre| + 1 + 1) == At([':'] + post, 1);
    assert ([c] + tail)[1..] == tail;
  }

  /** Followed by two: the rest of the element is the argument if there is any, and the next element never is. */
  lemma OptionalRead(optstring: string, pre: string, c: char, post: string, tail: string, following: seq<string>)
    requires DeclaredAt(optstring, pre, c, [':', ':'] + post)
    ensures ScanWord(optstring, [c] + tail, following)
            == Word([Event(c, if tail == "" then None else Some(tail), None)], false)
  {
    DeclaredIndex(optstring, pre, c, [':', ':'] + post);
    assert At(optstring, |pre| + 1 + 0) == ':' && At(optstring, |pre| + 1 + 1) == ':';
    assert ([c] + tail)[1..] == tail;
  }

  /** Not declared, or a colon: a fault, and the rest of the element is still read. */
  lemma UnknownRead(optstring: string, c: char, tail: string, following: seq<string>)
    requires c !in optstring || c == ':'
    ensures var w := ScanWord(optstring, tail, following);
            ScanWord(optstring, [c] + tail, following) == Word([Event('?', None, Some(c))] + w.events, w.took)
  {
    assert ([c] + tail)[1..] == tail;
  }

  lemma AnyFlagRead(optstring: string, c: char, tail: string, following: seq<string>)
    requires ':' !in optstring && c in optstring
    ensures var w := ScanWord(optstring, tail, following);
            ScanWord(optstring, [c] + tail, following) == Word([Event(c, None, None)] + w.events, w.took)
  {
    var t := IndexOf(optstring, c);
    assert optstring[..|optstring|] == optstring;
    hide ScanWord;
    FlagRead(optstring, optstring[..t], c, optstring[t + 1..], tail, following);
  }

  /** With no colon in the option string a cluster of declared characters is as many options, none with an argument. */
  lemma {:induction false} ClusterOfFlags(optstring: string, chars: string, following: seq<string>)
    requires ':' !in optstring && forall c <- chars :: c in optstring
    ensures var w := ScanWord(optstring, chars, following);
            && !w.took && |w.events| == |chars|
            && forall i: nat :: i < |chars| ==> w.events[i] == Event(chars[i], None, None)
  {
    if chars == "" {
      NothingLeft(optstring, following);
    } else {
      hide ScanWord;
      ClusterOfFlags(optstring, chars[1..], following);
      AnyFlagRead(optstring, chars[0], chars[1..], following);
      assert chars == [chars[0]] + chars[1..];
    }
  }

  /** Elements that are not options: the empty string, a lone dash, and anything that does not start with a dash. */
  lemma OperandRead(optstring: string, arg: string, args: seq<string>)
    requires arg == "" || arg[0] != '-' || arg == "-"
    ensures ScanArgs(optstring, false, [arg] + args) == Parse([], [], [], [arg] + args)
    ensures var p := ScanArgs(optstring, true, args);
            ScanArgs(optstring, true, [arg] + args) == Parse(p.events, p.opts, [arg] + p.nonopts, p.rest)
  {
    assert ([arg] + args)[1..] == args;
    ScanOperand(optstring, [arg] + args);
  }

  // ----- Written options are read back -----

  /** One declared option: no argument, a required or an optional one. */
  datatype Declaration = Declaration(c: char, colons: nat)

  function Colons(n: nat): string {
    seq(n, _ => ':')
  }

  function OptionString(ds: seq<Declaration>): string {
    if ds == [] then "" else [ds[0].c] + Colons(ds[0].colons) + OptionString(ds[1..])
  }

  ghost predicate WellDeclared(ds: seq<Declaration>) {
    && (forall d <- ds :: d.c != ':' && d.c != '-' && d.colons <= 2)
    && (forall i: nat, j: nat :: i < j < |ds| ==> ds[i].c != ds[j].c)
  }

  /** One option element as a user writes it: flags in a cluster, then an option with its argument if it has one; `apart`
      puts the argument into an element of its own. */
  datatype Written = Written(flags: seq<Declaration>, d: Declaration, arg: Option<string>, apart: bool)

  predicate Legal(w: Written) {
    && (forall f <- w.flags :: f.colons == 0)
    && match w.d.colons
       case 0 => w.arg == None && !w.apart
       case 1 => w.arg.Some? && (w.apart || w.arg.value != "")
       case _ => !w.apart && w.arg != Some("")
  }

  ghost predicate Uses(w: Written, ds: seq<Declaration>) {
    w.d in ds && forall f <- w.flags :: f in ds
  }

  function Names(ds: seq<Declaration>): string {
    seq(|ds|, i requires 0 <= i < |ds| => ds[i].c)
  }

  function Elements(w: Written): seq<string> {
    var cluster := "-" + Names(w.flags) + [w.d.c];
    match w.arg
    case None => [cluster]
    case Some(a) => if w.apart then [cluster, a] else [cluster + a]
  }

  function CommandLine(ws: seq<Written>): seq<string> {
    if ws == [] then [] else Elements(ws[0]) + CommandLine(ws[1..])
  }

  function Flags(ds: seq<Declaration>): seq<Event> {
    seq(|ds|, i requires 0 <= i < |ds| => Event(ds[i].c, None, None))
  }

  function Meaning(ws: seq<Written>): seq<Event> {
    if ws == [] then [] else Flags(ws[0].flags) + [Event(ws[0].d.c, ws[0].arg, None)] + Meaning(ws[1..])
  }

  lemma {:induction false} DeclaredIn(ds: seq<Declaration>, i: nat) returns (pre: string, post: string)
    requires WellDeclared(ds) && i < |ds|
    ensures DeclaredAt(OptionString(ds), pre, ds[i].c, Colons(ds[i].colons) + post)
    ensures post == "" || post[0] != ':'
  {
    var d, ds' := ds[0], ds[1..];
    assert d in ds && ds[i] in ds;
    if i == 0 {
      pre, post := "", OptionString(ds');
      assert ds' != [] ==> ds'[0] in ds;
    } else {
      assert WellDeclared(ds') by {
        assert forall e <- ds' :: e in ds;
      }
      pre, post := DeclaredIn(ds', i - 1);
      pre := [d.c] + Colons(d.colons) + pre;
    }
  }

  /** The argument, as far as it is attached. */
  function Attached(w: Written): string {
    if w.apart || w.arg == None then "" else w.arg.value
  }

  /** A cluster of flags, whatever follows in the element. */
  lemma {:induction false} ClusterRead(ds: seq<Declaration>, flags: seq<Declaration>, tail: string, following: seq<string>)
    requires WellDeclared(ds) && forall f <- flags :: f in ds && f.colons == 0
    ensures var w := ScanWord(OptionString(ds), tail, following);
            ScanWord(OptionString(ds), Names(flags) + tail, following) == Word(Flags(flags) + w.events, w.took)
  {
    hide ScanWord, OptionString, WellDeclared;
    if flags == [] {
      assert Names(flags) + tail == tail;
    } else {
      var f, flags' := flags[0], flags[1..];
      assert f in flags && forall g <- flags' :: g in flags;
      ClusterRead(ds, flags', tail, following);
      var i :| 0 <= i < |ds| && ds[i] == f;
      var pre, post := DeclaredIn(ds, i);
      assert Colons(0) + post == post;
      FlagRead(OptionString(ds), pre, f.c, post, Names(flags') + tail, following);
      assert Names(flags) + tail == [f.c] + (Names(flags') + tail);
      assert Flags(flags) == [Event(f.c, None, None)] + Flags(flags');
    }
  }

  /** The option at the end of a written element, given what follows its elements. */
  lemma LastRead(ds: seq<Declaration>, w: Written, rest: seq<string>)
    requires WellDeclared(ds) && Uses(w, ds) && Legal(w)
    ensures ScanWord(OptionString(ds), [w.d.c] + Attached(w), Elements(w)[1..] + rest)
            == Word([Event(w.d.c, w.arg, None)], |Elements(w)| == 2)
  {
    var i :| 0 <= i < |ds| && ds[i] == w.d;
    var o, c, following := OptionString(ds), w.d.c, Elements(w)[1..] + rest;
    var pre, post := DeclaredIn(ds, i);
    var tail := Attached(w);
    hide ScanWord, OptionString, DeclaredAt, WellDeclared, Names;
    match w.d.colons
    case 0 =>
      assert Colons(0) + post == post;
      FlagRead(o, pre, c, post, tail, following);
      NothingLeft(o, following);
    case 1 =>
      assert Colons(1) + post == [':'] + post;
      RequiredRead(o, pre, c, post, tail, following);
    case _ =>
      OptionalColons(ds, w.d);
      assert Colons(2) + post == [':', ':'] + post;
      OptionalRead(o, pre, c, post, tail, following);
  }

  lemma OptionalColons(ds: seq<Declaration>, d: Declaration)
    requires WellDeclared(ds) && d in ds
    ensures d.colons <= 2 && d.c != '-'
  {
  }

  lemma NothingLeft(optstring: string, following: seq<string>)
    ensures ScanWord(optstring, "", following) == Word([], false)
  {
  }

  lemma ElementShape(ds: seq<Declaration>, w: Written)
    requires WellDeclared(ds) && Uses(w, ds)
    ensures var e := Elements(w);
            && 1 <= |e| <= 2 && |e[0]| >= 2 && e[0][0] == '-' && e[0] != "--"
            && e[0][1..] == Names(w.flags) + ([w.d.c] + Attached(w))
  {
    var rest := Names(w.flags) + ([w.d.c] + Attached(w));
    hide WellDeclared;
    OptionalColons(ds, w.d);
    if w.flags != [] {
      OptionalColons(ds, w.flags[0]);
    }
    hide Uses;
    assert rest[0] != '-';
    assert Elements(w)[0] == ['-'] + rest;
    assert Elements(w)[0][1] == rest[0] && "--"[1] == '-';
  }

  /** One written element, whatever follows it. */
  lemma ElementRead(ds: seq<Declaration>, w: Written, rest: seq<string>)
    requires WellDeclared(ds) && Uses(w, ds) && Legal(w)
    ensures var e := Elements(w);
            && 1 <= |e| <= 2 && |e[0]| >= 2 && e[0][0] == '-' && e[0] != "--"
            && ScanWord(OptionString(ds), e[0][1..], e[1..] + rest)
               == Word(Flags(w.flags) + [Event(w.d.c, w.arg, None)], |e| == 2)
  {
    hide ScanWord, OptionString, Elements, Names, WellDeclared, Flags, Attached;
    ElementShape(ds, w);
    LastRead(ds, w, rest);
    ClusterRead(ds, w.flags, [w.d.c] + Attached(w), Elements(w)[1..] + rest);
  }

  /** Every command line written for an option string is read back as it was meant, in every form of argument; "--" ends
      the options, and what follows is left alone even if it looks like options. */
  lemma {:induction false} ReadBack(ds: seq<Declaration>, permute: bool, ws: seq<Written>, operands: seq<string>)
    requires WellDeclared(ds) && forall w <- ws :: Uses(w, ds) && Legal(w)
    ensures ScanArgs(OptionString(ds), permute, CommandLine(ws) + ["--"] + operands)
            == Parse(Meaning(ws), CommandLine(ws) + ["--"], [], operands)
    decreases |ws|
  {
    hide ScanWord, Elements, OptionString, Legal, Uses, WellDeclared, ScanRest, Flags;
    var o, args := OptionString(ds), CommandLine(ws) + ["--"] + operands;
    if ws == [] {
      assert args[0] == "--" && args[1..] == operands;
      assert CommandLine(ws) + ["--"] == ["--"];
    } else {
      var w, ws' := ws[0], ws[1..];
      assert w in ws && forall v <- ws' :: v in ws;
      ReadBack(ds, permute, ws', operands);
      hide ScanArgs;
      ElementRead(ds, w, CommandLine(ws') + ["--"] + operands);
      PrependElement(o, permute, Elements(w), CommandLine(ws') + ["--"], operands, Flags(w.flags) + [Event(w.d.c, w.arg, None)],
                     Meaning(ws'));
      assert args == Elements(w) + (CommandLine(ws') + ["--"]) + operands;
      assert CommandLine(ws) + ["--"] == Elements(w) + (CommandLine(ws') + ["--"]);
    }
  }

  lemma PrependElement(o: string, permute: bool, e: seq<string>, opts: seq<string>, operands: seq<string>,
                       events: seq<Event>, more: seq<Event>)
    requires 1 <= |e| <= 2 && |e[0]| >= 2 && e[0][0] == '-' && e[0] != "--"
    requires ScanWord(o, e[0][1..], e[1..] + (opts + operands)) == Word(events, |e| == 2)
    requires ScanArgs(o, permute, opts + operands) == Parse(more, opts, [], operands)
    ensures ScanArgs(o, permute, e + opts + operands) == Parse(events + more, e + opts, [], operands)
  {
    hide ScanWord, ScanArgs;
    var args := e + opts + operands;
    assert args[1..] == e[1..] + (opts + operands) && args[|e|..] == opts + operands && args[..|e|] == e && args[0] == e[0];
    ScanOption(o, permute, args);
  }

  // ----- The option string of airspyhf_rx (tools/src/airspyhf_rx.c:443) -----

  const RX_OPTIONS := "r:ws:f:a:n:g:l:t:m:dhz"

  function RxDeclarations(): seq<Declaration> {
    Declared("r", 1) + Declared("w", 0) + Declared("sfangltm", 1) + Declared("dhz", 0)
  }

  function Declared(names: string, colons: nat): seq<Declaration> {
    seq(|names|, i requires 0 <= i < |names| => Declaration(names[i], colons))
  }

  lemma {:induction false} DeclaredString(names: string, colons: nat)
    ensures OptionString(Declared(names, colons)) == Interleaved(names, Colons(colons))
  {
    if names != "" {
      DeclaredString(names[1..], colons);
      assert Declared(names, colons)[1..] == Declared(names[1..], colons);
    }
  }

  lemma {:induction false} OptionStringConcat(a: seq<Declaration>, b: seq<Declaration>)
    ensures OptionString(a + b) == OptionString(a) + OptionString(b)
  {
    hide Colons;
    if a == [] {
      assert a + b == b;
    } else {
      OptionStringConcat(a[1..], b);
      assert (a + b)[1..] == a[1..] + b && (a + b)[0] == a[0];
      hide OptionString;
      Regroup([a[0].c] + Colons(a[0].colons), OptionString(a[1..]), OptionString(b));
    }
  }

  lemma Regroup(a: string, b: string, c: string)
    ensures a + (b + c) == a + b + c
  {
  }

  function Interleaved(names: string, colons: string): string {
    if names == "" then "" else [names[0]] + colons + Interleaved(names[1..], colons)
  }

  lemma RxOptions()
    ensures OptionString(RxDeclarations()) == RX_OPTIONS
  {
    hide OptionString, Declared;
    RxGroups();
    OptionStringConcat(Declared("r", 1), Declared("w", 0));
    OptionStringConcat(Declared("r", 1) + Declared("w", 0), Declared("sfangltm", 1));
    OptionStringConcat(Declared("r", 1) + Declared("w", 0) + Declared("sfangltm", 1), Declared("dhz", 0));
  }

  lemma RxGroups()
    ensures OptionString(Declared("r", 1)) == "r:" && OptionString(Declared("w", 0)) == "w"
    ensures OptionString(Declared("sfangltm", 1)) == "s:f:a:n:g:l:t:m:" && OptionString(Declared("dhz", 0)) == "dhz"
  {
    RxNames();
    hide OptionString, Declared, Interleaved;
    DeclaredString("r", 1);
    DeclaredString("w", 0);
    DeclaredString("sfangltm", 1);
    DeclaredString("dhz", 0);
    assert Colons(0) == "" && Colons(1) == ":";
  }

  lemma RxNames()
    ensures Interleaved("r", ":") == "r:" && Interleaved("w", "") == "w" && Interleaved("dhz", "") == "dhz"
    ensures Interleaved("sfangltm", ":") == "s:f:a:n:g:l:t:m:"
  {
    hide Interleaved;
    NamesAlone("w");
    NamesAlone("dhz");
    NamesApart("r");
    NamesApart("sfangltm");
    SameEverySecond(Interleaved("r", ":"), "r:", 1);
    SameEverySecond(Interleaved("sfangltm", ":"), "s:f:a:n:g:l:t:m:", 8);
  }

  lemma {:induction false} NamesAlone(names: string)
    ensures Interleaved(names, "") == names
  {
    if names != "" {
      NamesAlone(names[1..]);
    }
  }

  lemma {:induction false} NamesApart(names: string)
    ensures var s := Interleaved(names, ":");
            |s| == 2 * |names| && forall i: nat :: i < |names| ==> s[2 * i] == names[i] && s[2 * i + 1] == ':'
  {
    if names != "" {
      NamesApart(names[1..]);
      var s, t := Interleaved(names, ":"), Interleaved(names[1..], ":");
      forall i: nat | i < |names|
        ensures s[2 * i] == names[i] && s[2 * i + 1] == ':'
      {
        if i > 0 {
          assert s[2 * i] == t[2 * (i - 1)] && s[2 * i + 1] == t[2 * (i - 1) + 1];
        }
      }
    }
  }

  lemma SameEverySecond(s: string, t: string, n: nat)
    requires |s| == |t| == 2 * n
    requires forall i: nat :: i < n ==> s[2 * i] == t[2 * i] && s[2 * i + 1] == t[2 * i + 1]
    ensures s == t
  {
    forall k: nat | k < 2 * n
      ensures s[k] == t[k]
    {
      assert k == 2 * (k / 2) || k == 2 * (k / 2) + 1;
    }
  }

  lemma RxDistinct()
    ensures WellDeclared(RxDeclarations())
  {
    var ds, names := RxDeclarations(), "rwsfangltmdhz";
    assert |ds| == 13 && forall i: nat :: i < 13 ==> ds[i].c == names[i] && ds[i].colons <= 1;
    assert forall i: nat, j: nat :: i < j < 13 ==> names[i] != names[j];
    assert forall i: nat :: i < 13 ==> names[i] != ':' && names[i] != '-';
  }

  /** So every command line a user of airspyhf_rx writes is read as meant; "-dz -f 7.2 -r-", for one. */
  lemma RxReadBack(permute: bool, ws: seq<Written>, operands: seq<string>)
    requires forall w <- ws :: Uses(w, RxDeclarations()) && Legal(w)
    ensures ScanArgs(RX_OPTIONS, permute, CommandLine(ws) + ["--"] + operands)
            == Parse(Meaning(ws), CommandLine(ws) + ["--"], [], operands)
  {
    RxOptions();
    RxDistinct();
    ReadBack(RxDeclarations(), permute, ws, operands);
  }

  lemma RxInstance()
    ensures ScanWord(RX_OPTIONS, "dz", []) == Word([Event('d', None, None), Event('z', None, None)], false)
  {
    hide ScanWord;
    FlagRead(RX_OPTIONS, "r:ws:f:a:n:g:l:t:m:", 'd', "hz", "z", []);
    FlagRead(RX_OPTIONS, "r:ws:f:a:n:g:l:t:m:dh", 'z', "", "", []);
    NothingLeft(RX_OPTIONS, []);
    assert ['d'] + "z" == "dz" && ['z'] + "" == "z";
  }
}

/** The short-option path of tools/getopt/getopt.c (`longopts` null): `exchange`, `_getopt_initialize` and
    `_getopt_internal`, whose globals are the fields here, proved against the non-permuting scan. */
module Getopts {
  import opened GetoptScan
  import opened Wrappers

  const EOF := -1

  /** A `char` returned as an `int`: whether plain `char` is signed is up to the compiler. */
  function CodeOf(charSigned: bool, c: char): (code: int)
    ensures c as int < 0x100 ==> code % 0x100 == c as int && if charSigned then -128 <= code <= 127 else 0 <= code <= 255
  {
    if charSigned && 0x80 <= c as int < 0x100 then c as int - 0x100 else c as int
  }

  datatype Ordering = RequireOrder | Permute

  /** Swaps the blocks of `len` elements at x and at y: the loops of lines 347-353 and 364-370. */
  method SwapBlocks(argv: array<string>, x: nat, y: nat, len: nat)
    requires x + len <= y && y + len <= argv.Length
    modifies argv
    ensures argv[..] == Swapped(old(argv[..]), x, y, len)
  {
    hide Swapped;
    ghost var s := argv[..];
    SwapNone(s, x, y);
    for i := 0 to len
      invariant argv[..] == Swapped(s, x, y, i)
    {
      SwapOne(s, x, y, i);
      argv[x + i], argv[y + i] := argv[y + i], argv[x + i];
      assert argv[..] == Swapped(s, x, y, i)[x + i := s[y + i]][y + i := s[x + i]];
    }
  }

  lemma SwapNone(s: seq<string>, x: nat, y: nat)
    requires x <= y <= |s|
    ensures Swapped(s, x, y, 0) == s
  {
  }

  lemma SwapOne(s: seq<string>, x: nat, y: nat, i: nat)
    requires x + i < y && y + i < |s|
    ensures var t := Swapped(s, x, y, i);
            && t[x + i] == s[x + i] && t[y + i] == s[y + i]
            && t[x + i := s[y + i]][y + i := s[x + i]] == Swapped(s, x, y, i + 1)
  {
    var t, u := Swapped(s, x, y, i), Swapped(s, x, y, i + 1);
    forall p | 0 <= p < |s|
      ensures t[x + i := s[y + i]][y + i := s[x + i]][p] == u[p]
    {
      SwappedAt(s, x, y, i, p);
      SwappedAt(s, x, y, i + 1, p);
    }
    SwappedAt(s, x, y, i, x + i);
    SwappedAt(s, x, y, i, y + i);
  }

  lemma SwappedAt(s: seq<string>, x: nat, y: nat, len: nat, p: nat)
    requires x + len <= y && y + len <= |s| && p < |s|
    ensures Swapped(s, x, y, len)[p]
            == s[if x <= p < x + len then y + (p - x) else if y <= p < y + len then x + (p - y) else p]
  {
  }

  function Swapped(s: seq<string>, x: nat, y: nat, len: nat): (r: seq<string>)
    requires x + len <= y && y + len <= |s|
    ensures |r| == |s|
  {
    s[..x] + s[y..y + len] + s[x + len..y] + s[x..x + len] + s[y + len..]
  }

  /** s with its two adjacent blocks [bottom, middle) and [middle, top) in the other order. */
  function Rotated(s: seq<string>, bottom: nat, middle: nat, top: nat): (r: seq<string>)
    requires bottom <= middle <= top <= |s|
    ensures |r| == |s|
  {
    s[..bottom] + s[middle..top] + s[bottom..middle] + s[top..]
  }

  lemma RotatedAt(s: seq<string>, bottom: nat, middle: nat, top: nat, p: nat)
    requires bottom <= middle <= top <= |s| && p < |s|
    ensures Rotated(s, bottom, middle, top)[p]
            == s[if p < bottom || p >= top then p
                 else if p < bottom + (top - middle) then p + (middle - bottom)
                 else p - (top - middle)]
  {
  }

  /** Lines 340-356: with the bottom block the shorter one, moving it to the top leaves a smaller rotation to do. */
  lemma BottomMoved(s: seq<string>, bottom: nat, middle: nat, top: nat)
    requires bottom <= middle <= top <= |s| && middle - bottom <= top - middle
    ensures var len := middle - bottom;
            Rotated(Swapped(s, bottom, top - len, len), bottom, middle, top - len) == Rotated(s, bottom, middle, top)
  {
    hide Rotated, Swapped;
    var len := middle - bottom;
    var m := Swapped(s, bottom, top - len, len);
    forall p: nat | p < |s|
      ensures Rotated(m, bottom, middle, top - len)[p] == Rotated(s, bottom, middle, top)[p]
    {
      RotatedAt(s, bottom, middle, top, p);
      RotatedAt(m, bottom, middle, top - len, p);
      var q := if p < bottom || p >= top - len then p
               else if p < bottom + (top - len - middle) then p + len
               else p - (top - len - middle);
      SwappedAt(s, bottom, top - len, len, q);
    }
  }

  /** Lines 357-373: the other case. */
  lemma TopMoved(s: seq<string>, bottom: nat, middle: nat, top: nat)
    requires bottom <= middle <= top <= |s| && top - middle <= middle - bottom
    ensures var len := top - middle;
            Rotated(Swapped(s, bottom, middle, len), bottom + len, middle, top) == Rotated(s, bottom, middle, top)
  {
    hide Rotated, Swapped;
    var len := top - middle;
    var m := Swapped(s, bottom, middle, len);
    forall p: nat | p < |s|
      ensures Rotated(m, bottom + len, middle, top)[p] == Rotated(s, bottom, middle, top)[p]
    {
      RotatedAt(s, bottom, middle, top, p);
      RotatedAt(m, bottom + len, middle, top, p);
      var q := if p < bottom + len || p >= top then p else if p < bottom + 2 * len then p + (middle - bottom - len) else p - len;
      SwappedAt(s, bottom, middle, len, q);
    }
  }

  lemma RotatedNothing(s: seq<string>, bottom: nat, middle: nat, top: nat)
    requires bottom <= middle <= top <= |s| && (bottom == middle || middle == top)
    ensures Rotated(s, bottom, middle, top) == s
  {
  }

  class Getopt {
    const posixlyCorrect: bool // the environment variable POSIXLY_CORRECT is set
    const charSigned: bool // plain char is a signed type

    var optarg: Option<string>
    var optind: int
    var optopt: char
    var initialized: bool
    var nextchar: string // what is left of the current option element; empty for a null pointer too
    var firstNonopt: int
    var lastNonopt: int
    var ordering: Ordering

    /** The initial values of the globals. */
    constructor (posix: bool, signed: bool)
      ensures Fresh() && optind == 1 && posixlyCorrect == posix && charSigned == signed
    {
      posixlyCorrect, charSigned := posix, signed;
      optarg, optind, optopt, initialized := None, 1, '?', false;
      nextchar, firstNonopt, lastNonopt, ordering := "", 0, 0, Permute;
    }

    /** The next call starts a new scan. */
    ghost predicate Fresh()
      reads `optind, `initialized
    {
      optind == 0 || (!initialized && optind == 1)
    }

    /** argv is the program name, options, skipped operands, more options, and what has not been looked at. */
    ghost predicate Layout(argc: nat)
      reads `initialized, `ordering, `nextchar, `firstNonopt, `lastNonopt, `optind
    {
      && initialized && (ordering == Permute <==> !posixlyCorrect)
      && 1 <= firstNonopt <= lastNonopt <= optind <= argc
      && (ordering == RequireOrder ==> firstNonopt == lastNonopt)
      && (nextchar != "" ==> optind < argc)
    }

    ghost predicate Ready(argc: nat)
      reads `initialized, `ordering, `nextchar, `firstNonopt, `lastNonopt, `optind
    {
      argc > 0 ==> Fresh() || Layout(argc)
    }

    /** Option elements so far, in order. */
    ghost function Taken(argv: seq<string>): seq<string>
      requires argv != [] && Ready(|argv|)
      reads `initialized, `ordering, `nextchar, `firstNonopt, `lastNonopt, `optind
    {
      if Fresh() then [] else argv[1..firstNonopt] + argv[lastNonopt..optind]
    }

    /** Operands skipped so far, in order. */
    ghost function Passed(argv: seq<string>): seq<string>
      requires argv != [] && Ready(|argv|)
      reads `initialized, `ordering, `nextchar, `firstNonopt, `lastNonopt, `optind
    {
      if Fresh() then [] else argv[firstNonopt..lastNonopt]
    }

    /** What the reference scan makes of the rest. */
    ghost function Ahead(optstring: string, argv: seq<string>): Parse
      requires argv != [] && Ready(|argv|)
      reads `initialized, `ordering, `nextchar, `firstNonopt, `lastNonopt, `optind
    {
      if Fresh() then ScanArgs(optstring, !posixlyCorrect, argv[1..])
      else Resume(optstring, !posixlyCorrect, nextchar, argv[optind..])
    }

    /** Lines 302-380. */
    method Exchange(argv: array<string>)
      requires 0 <= firstNonopt <= lastNonopt <= optind <= argv.Length
      modifies argv, `firstNonopt, `lastNonopt
      ensures argv[..] == Rotated(old(argv[..]), old(firstNonopt), old(lastNonopt), optind)
      ensures firstNonopt == old(firstNonopt) + optind - old(lastNonopt) && lastNonopt == optind
    {
      hide Rotated, Swapped;
      var bottom, middle, top := firstNonopt, lastNonopt, optind;
      ghost var goal := Rotated(argv[..], bottom, middle, top);
      while top > middle && middle > bottom
        invariant firstNonopt <= bottom <= middle <= top <= optind && middle == lastNonopt
        invariant firstNonopt == old(firstNonopt) && lastNonopt == old(lastNonopt)
        invariant Rotated(argv[..], bottom, middle, top) == goal
        decreases top - bottom
      {
        if top - middle > middle - bottom {
          var len := middle - bottom;
          BottomMoved(argv[..], bottom, middle, top);
          SwapBlocks(argv, bottom, top - len, len);
          top := top - len;
        } else {
          var len := top - middle;
          TopMoved(argv[..], bottom, middle, top);
          SwapBlocks(argv, bottom, middle, len);
          bottom := bottom + len;
        }
      }
      RotatedNothing(argv[..], bottom, middle, top);
      firstNonopt := firstNonopt + (optind - lastNonopt);
      lastNonopt := optind;
    }

    /** Lines 387-418, for an option string without an ordering prefix. */
    method Initialize()
      requires optind == 1
      modifies `firstNonopt, `lastNonopt, `nextchar, `ordering
      ensures firstNonopt == lastNonopt == 1 && nextchar == "" && (ordering == Permute <==> !posixlyCorrect)
    {
      firstNonopt, lastNonopt := optind, optind;
      nextchar := "";
      ordering := if posixlyCorrect then RequireOrder else Permute;
    }

    /** Lines 554-560: a first call starts at element 1. */
    method Begin(argv: array<string>, ghost optstring: string)
      requires argv.Length > 0 && Ready(argv.Length)
      modifies `optind, `initialized, `firstNonopt, `lastNonopt, `nextchar, `ordering
      ensures Layout(argv.Length) && Taken(argv[..]) == old(Taken(argv[..])) && Passed(argv[..]) == old(Passed(argv[..]))
      ensures Ahead(optstring, argv[..]) == old(Ahead(optstring, argv[..]))
    {
      hide ScanArgs, ScanRest;
      if optind == 0 || !initialized {
        if optind == 0 {
          optind := 1;
        }
        Initialize();
        initialized := true;
      }
    }

    /** Lines 590-593: brings the options together. */
    method GatherOptions(argv: array<string>)
      requires 1 <= firstNonopt <= lastNonopt <= optind <= argv.Length
      modifies argv, `firstNonopt
      modifies `lastNonopt
      ensures argv[0] == old(argv[0]) && argv[optind..] == old(argv[optind..])
      ensures 1 <= firstNonopt <= optind && argv[1..firstNonopt] == old(argv[1..firstNonopt] + argv[lastNonopt..optind])
      ensures argv[firstNonopt..optind] == old(argv[firstNonopt..lastNonopt])
    {
      if firstNonopt != lastNonopt && lastNonopt != optind {
        ExchangeParts(argv[..], firstNonopt, lastNonopt, optind);
        hide Rotated;
        ghost var s := argv[..];
        Exchange(argv);
        assert argv[..] == Rotated(s, old(firstNonopt), old(lastNonopt), optind);
      } else if lastNonopt != optind {
        firstNonopt := optind;
      }
    }

    /** Lines 585-601 under PERMUTE: then walks over operands. */
    method SkipOperands(argv: array<string>)
      requires Layout(argv.Length) && ordering == Permute && nextchar == ""
      modifies argv, `firstNonopt, `lastNonopt, `optind
      ensures Layout(argv.Length) && lastNonopt == optind >= old(optind)
      ensures argv[0] == old(argv[0])
      ensures argv[1..firstNonopt] == old(argv[1..firstNonopt] + argv[lastNonopt..optind])
      ensures argv[firstNonopt..optind] == old(argv[firstNonopt..lastNonopt]) + old(argv[optind..])[..optind - old(optind)]
      ensures argv[optind..] == old(argv[optind..])[optind - old(optind)..]
      ensures forall i: nat :: i < optind - old(optind) ==> NonOption(old(argv[optind..])[i])
      ensures optind < argv.Length ==> !NonOption(argv[optind])
    {
      hide NonOption;
      GatherOptions(argv);
      ghost var start, tail, passed := optind, argv[optind..], argv[firstNonopt..optind];
      while optind < argv.Length && NonOption(argv[optind])
        invariant start <= optind <= argv.Length
        invariant forall i: nat :: i < optind - start ==> NonOption(tail[i])
        modifies `optind
      {
        assert argv[optind] == tail[optind - start];
        optind := optind + 1;
      }
      assert argv[firstNonopt..optind] == passed + tail[..optind - start];
      lastNonopt := optind;
    }

    /** Lines 608-619: "--" joins the options, everything after it is operands. */
    method EndAtDashes(argv: array<string>)
      requires Layout(argv.Length) && nextchar == "" && (ordering == Permute ==> lastNonopt == optind)
      requires optind < argv.Length && argv[optind] == "--"
      modifies argv, `firstNonopt, `lastNonopt, `optind
      ensures optind == lastNonopt == argv.Length && firstNonopt == 2 + |old(Taken(argv[..]))|
      ensures argv[..] == [old(argv[0])] + old(Taken(argv[..])) + ["--"] + old(Passed(argv[..])) + old(argv[optind..])[1..]
    {
      hide Rotated;
      ghost var s := argv[..];
      optind := optind + 1;
      if firstNonopt != lastNonopt && lastNonopt != optind {
        DashesMoved(s, firstNonopt, optind);
        Exchange(argv);
      } else if firstNonopt == lastNonopt {
        DashesInPlace(s, firstNonopt, optind);
        firstNonopt := optind;
      }
      lastNonopt := argv.Length;
      optind := argv.Length;
    }

    /** Lines 603-642: the places a scan can end. */
    method Stop(argv: array<string>) returns (done: bool)
      requires Layout(argv.Length) && nextchar == "" && (ordering == Permute ==> lastNonopt == optind)
      requires ordering == Permute && optind < argv.Length ==> !NonOption(argv[optind])
      modifies argv, `firstNonopt, `lastNonopt, `optind
      ensures done <==> old(optind == argv.Length || argv[optind] == "--" || NonOption(argv[optind]))
      ensures !done ==> argv[..] == old(argv[..]) && unchanged(`firstNonopt, `lastNonopt, `optind)
      ensures done ==>
                var dashes := if old(optind < argv.Length && argv[optind] == "--") then ["--"] else [];
                && argv[..] == [old(argv[0])] + old(Taken(argv[..])) + dashes + old(Passed(argv[..]))
                               + old(argv[optind..])[|dashes|..]
                && optind == 1 + |old(Taken(argv[..]))| + |dashes|
    {
      hide NonOption;
      if optind != argv.Length && argv[optind] == "--" {
        EndAtDashes(argv);
      } else {
        Pieces(argv[..], firstNonopt, lastNonopt, optind);
      }
      if optind == argv.Length {
        if firstNonopt != lastNonopt {
          optind := firstNonopt;
        }
        return true;
      }
      done := NonOption(argv[optind]);
    }

    /** Lines 578-601. The first two tests undo nothing here: the caller leaves `optind` alone. */
    method Reposition(argv: array<string>, ghost optstring: string)
      requires Layout(argv.Length) && nextchar == ""
      modifies argv, `firstNonopt, `lastNonopt, `optind
      ensures Layout(argv.Length) && (ordering == Permute ==> lastNonopt == optind)
      ensures ordering == Permute && optind < argv.Length ==> !NonOption(argv[optind])
      ensures argv[0] == old(argv[0]) && Taken(argv[..]) == old(Taken(argv[..]))
      ensures SamePlan(old(Passed(argv[..])), old(Ahead(optstring, argv[..])), Passed(argv[..]), Ahead(optstring, argv[..]))
    {
      hide ScanArgs, ScanRest, SamePlan, NonOption;
      ghost var tail, start, passed := argv[optind..], optind, Passed(argv[..]);
      SamePlanItself(passed, ScanArgs(optstring, !posixlyCorrect, tail));
      lastNonopt := if lastNonopt > optind then optind else lastNonopt;
      firstNonopt := if firstNonopt > optind then optind else firstNonopt;
      if ordering == Permute {
        SkipOperands(argv);
        assert argv[optind..] == tail[optind - start..] && Passed(argv[..]) == passed + tail[..optind - start];
        SkipPlan(optstring, tail, optind - start, passed);
      }
    }

    /** Lines 574-649: moves to the next option element, or finds that there is none. */
    method Advance(argv: array<string>, ghost optstring: string) returns (done: bool)
      requires Layout(argv.Length) && nextchar == ""
      modifies argv, `firstNonopt, `lastNonopt, `optind, `nextchar
      ensures argv[0] == old(argv[0])
      ensures done ==> old(Ahead(optstring, argv[..])).events == []
                       && Finished(argv[..], optind, old(argv[0]), old(Taken(argv[..])), old(Passed(argv[..])),
                                   old(Ahead(optstring, argv[..])))
      ensures !done ==> Layout(argv.Length) && nextchar != "" && Taken(argv[..]) == old(Taken(argv[..]))
                        && SamePlan(old(Passed(argv[..])), old(Ahead(optstring, argv[..])),
                                    Passed(argv[..]), Ahead(optstring, argv[..]))
    {
      hide ScanArgs, ScanRest, Rotated, Finished, SamePlan, NonOption;
      ghost var s, plan := argv[..], Ahead(optstring, argv[..]);
      ghost var taken, passed := Taken(s), Passed(s);
      Reposition(argv, optstring);
      ghost var ahead, passed' := argv[optind..], Passed(argv[..]);
      done := Stop(argv);
      if done {
        Concludes(optstring, !posixlyCorrect, argv[..], optind, s[0], taken, passed', ahead, passed, plan);
      } else {
        OptionShape(argv[optind]);
        nextchar := argv[optind][1..];
        ScanOption(optstring, !posixlyCorrect, ahead);
      }
    }

    /** Lines 805-827 and 952-998: the next character of the current option element. */
    method Character(argv: array<string>, optstring: string) returns (c: char, ghost fault: Option<char>)
      requires 0 <= optind < argv.Length && nextchar != "" && optarg == None
      modifies `optarg, `optind, `optopt, `nextchar
      ensures optind >= old(optind)
      ensures CharacterStep(optstring, old(nextchar), argv[old(optind)..], Event(c, optarg, fault),
                            nextchar, optind - old(optind))
      ensures optopt == if fault.Some? then fault.value else old(optopt)
    {
      hide IndexOf;
      c := nextchar[0];
      nextchar := nextchar[1..];
      fault := None;
      var temp := IndexOf(optstring, c);
      if nextchar == "" {
        optind := optind + 1;
      }
      if temp == |optstring| || c == ':' {
        optopt, fault := c, Some(c);
        c := '?';
      } else if At(optstring, temp + 1) == ':' {
        if At(optstring, temp + 2) == ':' {
          if nextchar != "" {
            optarg := Some(nextchar);
            optind := optind + 1;
          } else {
            optarg := None;
          }
        } else {
          if nextchar != "" {
            optarg := Some(nextchar);
            optind := optind + 1;
          } else if optind == argv.Length {
            optopt, fault := c, Some(c);
            c := MissingCode(optstring);
          } else {
            optarg := Some(argv[optind]);
            optind := optind + 1;
          }
        }
        nextchar := "";
      }
    }

    /** The same, seen as the next step of the scan. */
    method Decode(argv: array<string>, optstring: string) returns (code: int, ghost fault: Option<char>)
      requires Layout(argv.Length) && nextchar != "" && optarg == None && Plain(optstring)
      modifies `optarg, `optind, `optopt, `nextchar
      ensures Layout(argv.Length) && Passed(argv[..]) == old(Passed(argv[..]))
      ensures Reports(charSigned, old(Ahead(optstring, argv[..])), code, optarg, fault)
      ensures optopt == if fault.Some? then fault.value else old(optopt)
      ensures var p, p' := old(Ahead(optstring, argv[..])), Ahead(optstring, argv[..]);
              && p'.events == p.events[1..] && p'.nonopts == p.nonopts && p'.rest == p.rest
              && Taken(argv[..]) + p'.opts == old(Taken(argv[..])) + p.opts
    {
      hide Resume, CharacterStep;
      ghost var chars, start, s := nextchar, optind, argv[..];
      var c;
      c, fault := Character(argv, optstring);
      Decoded(optstring, !posixlyCorrect, s, firstNonopt, lastNonopt, start, optind, chars, Event(c, optarg, fault), nextchar);
      code := CodeOf(charSigned, c);
    }

    /** Lines 552-649: up to the next option character, if there is one. */
    method Reach(argv: array<string>, ghost optstring: string) returns (done: bool)
      requires argv.Length > 0 && Ready(argv.Length)
      modifies argv, `optarg, `optind, `initialized, `firstNonopt, `lastNonopt, `nextchar, `ordering
      ensures argv[0] == old(argv[0]) && optarg == None
      ensures done ==> old(Ahead(optstring, argv[..])).events == []
                       && Finished(argv[..], optind, old(argv[0]), old(Taken(argv[..])), old(Passed(argv[..])),
                                   old(Ahead(optstring, argv[..])))
      ensures !done ==> Layout(argv.Length) && nextchar != "" && Taken(argv[..]) == old(Taken(argv[..]))
                        && SamePlan(old(Passed(argv[..])), old(Ahead(optstring, argv[..])),
                                    Passed(argv[..]), Ahead(optstring, argv[..]))
    {
      hide Resume, ScanArgs, Finished, SamePlan;
      optarg := None;
      Begin(argv, optstring);
      SamePlanItself(Passed(argv[..]), Ahead(optstring, argv[..]));
      done := false;
      if nextchar == "" {
        done := Advance(argv, optstring);
      }
    }

    /** One call, lines 536-560 and what follows. */
    method Next(argv: array<string>, optstring: string) returns (code: int, ghost fault: Option<char>)
      requires Ready(argv.Length) && Plain(optstring)
      modifies argv, this
      ensures argv.Length == 0 ==> code == EOF && unchanged(this)
      ensures argv.Length > 0 ==>
                var taken, passed, p := old(Taken(argv[..])), old(Passed(argv[..])), old(Ahead(optstring, argv[..]));
                if p.events == [] then
                  code == EOF && fault == None && Finished(argv[..], optind, old(argv[0]), taken, passed, p)
                else
                  && Layout(argv.Length) && argv[0] == old(argv[0]) && Reports(charSigned, p, code, optarg, fault)
                  && Follows(taken, passed, p, Taken(argv[..]), Passed(argv[..]), Ahead(optstring, argv[..]))
      ensures optopt == if fault.Some? then fault.value else old(optopt)
    {
      hide Resume, ScanArgs, Finished, SamePlan, Follows, Plain, Reports;
      if argv.Length < 1 {
        return EOF, None;
      }
      ghost var taken, passed, plan := Taken(argv[..]), Passed(argv[..]), Ahead(optstring, argv[..]);
      var done := Reach(argv, optstring);
      if done {
        return EOF, None;
      }
      ghost var taken1, passed1, plan1 := Taken(argv[..]), Passed(argv[..]), Ahead(optstring, argv[..]);
      code, fault := Decode(argv, optstring);
      FollowsHere(charSigned, taken, passed, plan, taken1, passed1, plan1,
                  Taken(argv[..]), Passed(argv[..]), Ahead(optstring, argv[..]), code, optarg, fault);
    }

    /** The caller's loop (tools/src/airspyhf_rx.c:443): calls until -1. That is the end of the scan, unless an option
        character is itself returned as -1. */
    method Run(argv: array<string>, optstring: string) returns (events: seq<(int, Option<string>)>)
      requires argv.Length > 0 && Fresh() && Plain(optstring)
      modifies argv, this
      ensures var p := ScanArgs(optstring, !posixlyCorrect, old(argv[1..]));
              var n := Heard(charSigned, p.events);
              && events == Returned(charSigned, p.events[..n])
              && (!charSigned || '\U{ff}' !in optstring ==> n == |p.events|)
              && (n == |p.events| ==>
                  argv[..] == [old(argv[0])] + p.opts + p.nonopts + p.rest && optind == 1 + |p.opts|)
    {
      hide ScanArgs, ScanRest, Follows, Finished, Heard, CodeOf;
      ghost var plan, program := ScanArgs(optstring, !posixlyCorrect, argv[1..]), argv[0];
      AllHeard(charSigned, optstring, !posixlyCorrect, argv[1..]);
      events := [];
      ghost var seen: seq<Event> := [];
      while true
        invariant Ready(argv.Length) && argv[0] == program
        invariant SoFar(plan, seen, Taken(argv[..]), Passed(argv[..]), Ahead(optstring, argv[..]))
        invariant events == Returned(charSigned, seen) && NoneEof(charSigned, seen)
        decreases |plan.events| - |seen|
      {
        ghost var taken, passed, p := Taken(argv[..]), Passed(argv[..]), Ahead(optstring, argv[..]);
        var code, fault := Next(argv, optstring);
        if code == EOF {
          HeardUntil(charSigned, seen, p.events);
          if p.events == [] {
            AllSeen(plan, seen, taken, passed, p, argv[..], optind, program);
          }
          break;
        }
        OneSeen(charSigned, plan, seen, taken, passed, p, Taken(argv[..]), Passed(argv[..]), Ahead(optstring, argv[..]));
        seen := seen + [p.events[0]];
        events := events + [(code, optarg)];
      }
    }
  }

  /** How many events come before one whose code the caller takes for the end. */
  function Heard(charSigned: bool, events: seq<Event>): (n: nat)
    ensures n <= |events|
  {
    if events == [] || CodeOf(charSigned, events[0].code) == EOF then 0 else 1 + Heard(charSigned, events[1..])
  }

  ghost predicate NoneEof(charSigned: bool, events: seq<Event>) {
    forall e <- events :: CodeOf(charSigned, e.code) != EOF
  }

  lemma {:induction false} HeardUntil(charSigned: bool, seen: seq<Event>, left: seq<Event>)
    requires NoneEof(charSigned, seen) && (left == [] || CodeOf(charSigned, left[0].code) == EOF)
    ensures Heard(charSigned, seen + left) == |seen| && (seen + left)[..|seen|] == seen
  {
    if seen == [] {
      assert seen + left == left;
    } else {
      assert seen[0] in seen && forall e <- seen[1..] :: e in seen;
      HeardUntil(charSigned, seen[1..], left);
      assert (seen + left)[1..] == seen[1..] + left;
    }
  }

  /** Only 0xFF as a signed option character can be mistaken for the end. */
  lemma AllHeard(charSigned: bool, optstring: string, permute: bool, args: seq<string>)
    ensures !charSigned || '\U{ff}' !in optstring ==>
              Heard(charSigned, ScanArgs(optstring, permute, args).events) == |ScanArgs(optstring, permute, args).events|
  {
    hide ScanArgs;
    var events := ScanArgs(optstring, permute, args).events;
    ListedCodes(optstring, permute, args);
    if !charSigned || '\U{ff}' !in optstring {
      forall e | e in events
        ensures CodeOf(charSigned, e.code) != EOF
      {
        assert Listed(optstring, e.code);
      }
      HeardUntil(charSigned, events, []);
      assert events + [] == events;
    }
  }

  /** The call reported the first event of p. */
  ghost predicate Reports(charSigned: bool, p: Parse, code: int, arg: Option<string>, fault: Option<char>) {
    p.events != [] && code == CodeOf(charSigned, p.events[0].code) && arg == p.events[0].arg && fault == p.events[0].fault
  }

  /** One event further in the same scan. */
  ghost predicate Follows(taken: seq<string>, passed: seq<string>, p: Parse,
                          taken': seq<string>, passed': seq<string>, p': Parse) {
    && p.events != [] && p'.events == p.events[1..]
    && taken' + p'.opts == taken + p.opts && passed' + p'.nonopts == passed + p.nonopts && p'.rest == p.rest
  }

  /** What the caller sees of the events. */
  function Returned(charSigned: bool, events: seq<Event>): seq<(int, Option<string>)> {
    seq(|events|, i requires 0 <= i < |events| => (CodeOf(charSigned, events[i].code), events[i].arg))
  }

  /** What has been reported and what is ahead make up the whole scan. */
  ghost predicate SoFar(plan: Parse, seen: seq<Event>, taken: seq<string>, passed: seq<string>, p: Parse) {
    && plan.events == seen + p.events && plan.opts == taken + p.opts
    && plan.nonopts == passed + p.nonopts && plan.rest == p.rest
  }

  lemma OneSeen(charSigned: bool, plan: Parse, seen: seq<Event>, taken: seq<string>, passed: seq<string>, p: Parse,
                taken': seq<string>, passed': seq<string>, p': Parse)
    requires SoFar(plan, seen, taken, passed, p) && Follows(taken, passed, p, taken', passed', p')
    ensures SoFar(plan, seen + [p.events[0]], taken', passed', p') && |seen| < |plan.events|
    ensures Returned(charSigned, seen + [p.events[0]])
            == Returned(charSigned, seen) + [(CodeOf(charSigned, p.events[0].code), p.events[0].arg)]
  {
    assert p.events == [p.events[0]] + p'.events;
  }

  lemma AllSeen(plan: Parse, seen: seq<Event>, taken: seq<string>, passed: seq<string>, p: Parse,
                argv: seq<string>, optind: int, program: string)
    requires SoFar(plan, seen, taken, passed, p) && p.events == [] && Finished(argv, optind, program, taken, passed, p)
    ensures plan.events == seen && argv == [program] + plan.opts + plan.nonopts + plan.rest && optind == 1 + |plan.opts|
  {
  }

  lemma FollowsHere(charSigned: bool, taken: seq<string>, passed: seq<string>, p: Parse,
                    taken1: seq<string>, passed1: seq<string>, p1: Parse,
                    taken': seq<string>, passed': seq<string>, p': Parse,
                    code: int, arg: Option<string>, fault: Option<char>)
    requires Reports(charSigned, p1, code, arg, fault)
    requires taken1 == taken && SamePlan(passed, p, passed1, p1)
    requires passed' == passed1 && p'.events == p1.events[1..] && p'.nonopts == p1.nonopts && p'.rest == p1.rest
    requires taken' + p'.opts == taken1 + p1.opts
    ensures Follows(taken, passed, p, taken', passed', p') && Reports(charSigned, p, code, arg, fault) && p.events != []
  {
  }

  lemma StepBounds(optstring: string, chars: string, args: seq<string>, e: Event, chars': string, n: int)
    requires CharacterStep(optstring, chars, args, e, chars', n)
    ensures 0 <= n <= |args| && chars != "" && args != [] && (chars' != "" ==> n == 0)
  {
    hide KindOf;
  }

  lemma Decoded(optstring: string, permute: bool, argv: seq<string>, first: nat, last: nat, start: nat, ind: int,
                chars: string, e: Event, chars': string)
    requires 1 <= first <= last <= start < |argv|
    requires CharacterStep(optstring, chars, argv[start..], e, chars', ind - start)
    ensures start <= ind <= |argv| && (chars' != "" ==> ind < |argv|)
    ensures var p, p' := Resume(optstring, permute, chars, argv[start..]), Resume(optstring, permute, chars', argv[ind..]);
            && p.events != [] && p.events[0] == e && p'.events == p.events[1..]
            && p'.nonopts == p.nonopts && p'.rest == p.rest
            && argv[1..first] + argv[last..ind] + p'.opts == argv[1..first] + argv[last..start] + p.opts
  {
    hide ScanRest, ScanArgs, KindOf, CharacterStep;
    StepBounds(optstring, chars, argv[start..], e, chars', ind - start);
    OneCharacter(optstring, permute, chars, argv[start..], e, chars', ind - start);
    assert argv[start..][ind - start..] == argv[ind..];
    TakenMore(argv, first, last, start, ind, Resume(optstring, permute, chars', argv[ind..]).opts);
  }

  lemma TakenMore(argv: seq<string>, first: nat, last: nat, start: nat, ind: nat, opts: seq<string>)
    requires 1 <= first <= last <= start <= ind <= |argv|
    ensures argv[1..first] + argv[last..ind] + opts == argv[1..first] + argv[last..start] + (argv[start..][..ind - start] + opts)
  {
  }

  /** argv after the last call: options first, then the operands, and `optind` at the first of them. */
  ghost predicate Finished(argv: seq<string>, optind: int, program: string, taken: seq<string>, passed: seq<string>, p: Parse) {
    && argv == [program] + (taken + p.opts) + (passed + p.nonopts + p.rest)
    && optind == 1 + |taken + p.opts|
  }

  /** The two ways of cutting a scan in two agree but for operands already passed. */
  ghost predicate SamePlan(passed: seq<string>, p: Parse, passed': seq<string>, p': Parse) {
    p.events == p'.events && p.opts == p'.opts && passed + p.nonopts == passed' + p'.nonopts && p.rest == p'.rest
  }

  lemma SamePlanItself(passed: seq<string>, p: Parse)
    ensures SamePlan(passed, p, passed, p)
  {
  }

  lemma SkipPlan(optstring: string, args: seq<string>, k: nat, passed: seq<string>)
    requires k <= |args| && forall i: nat :: i < k ==> NonOption(args[i])
    ensures SamePlan(passed, ScanArgs(optstring, true, args), passed + args[..k], ScanArgs(optstring, true, args[k..]))
  {
    hide NonOption;
    SkipNonOptions(optstring, args, k);
  }

  /** Where a scan ends at once. */
  lemma ScanStops(optstring: string, permute: bool, args: seq<string>)
    ensures args == [] ==> ScanArgs(optstring, permute, args) == Parse([], [], [], [])
    ensures args != [] && args[0] == "--" ==> ScanArgs(optstring, permute, args) == Parse([], ["--"], [], args[1..])
    ensures args != [] && NonOption(args[0]) && !permute ==> ScanArgs(optstring, permute, args) == Parse([], [], [], args)
  {
  }

  /** Ending there leaves argv as the whole scan says. */
  lemma Concludes(optstring: string, permute: bool, argv: seq<string>, optind: int, program: string, taken: seq<string>,
                  passed': seq<string>, ahead: seq<string>, passed: seq<string>, plan: Parse)
    requires SamePlan(passed, plan, passed', ScanArgs(optstring, permute, ahead))
    requires ahead == [] || ahead[0] == "--" || (NonOption(ahead[0]) && !permute)
    requires var dashes := if ahead != [] && ahead[0] == "--" then ["--"] else [];
             && argv == [program] + taken + dashes + passed' + ahead[|dashes|..]
             && optind == 1 + |taken| + |dashes|
    ensures plan.events == [] && Finished(argv, optind, program, taken, passed, plan)
  {
    ScanStops(optstring, permute, ahead);
    hide ScanArgs, NonOption;
  }

  lemma Pieces(s: seq<string>, first: nat, last: nat, ind: nat)
    requires 1 <= first <= last <= ind <= |s| && (first == last || last == ind)
    ensures s == [s[0]] + (s[1..first] + s[last..ind]) + [] + s[first..last] + s[ind..][0..]
    ensures first < last == ind ==> first == 1 + |s[1..first] + s[last..ind]|
    ensures first == last ==> ind == 1 + |s[1..first] + s[last..ind]|
  {
  }

  lemma DashesMoved(s: seq<string>, first: nat, ind: nat)
    requires 1 <= first < ind <= |s| && s[ind - 1] == "--"
    ensures Rotated(s, first, ind - 1, ind) == [s[0]] + (s[1..first] + []) + ["--"] + s[first..ind - 1] + s[ind - 1..][1..]
  {
  }

  lemma DashesInPlace(s: seq<string>, first: nat, ind: nat)
    requires 1 <= first < ind <= |s| && s[ind - 1] == "--"
    ensures s == [s[0]] + (s[1..first] + s[first..ind - 1]) + ["--"] + [] + s[ind - 1..][1..]
  {
  }

  lemma ExchangeParts(s: seq<string>, first: nat, last: nat, ind: nat)
    requires 1 <= first <= last <= ind <= |s|
    ensures var r, first' := Rotated(s, first, last, ind), first + ind - last;
            && r[0] == s[0] && r[1..first'] == s[1..first] + s[last..ind]
            && r[first'..ind] == s[first..last] && r[ind..] == s[ind..]
  {
  }
}

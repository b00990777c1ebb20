/** The option parser that moves operands to the end of argv, longgetopt.c:11-198. */
module LongGetopt {
  import opened Getopt
  import opened Wrappers

  class Context {
    var optind: int
    var optopt: int
    var optarg: Option<CString>
    var longindex: int
    var options: Options
    var optend: int
    var argc: nat
    /** argv has one more slot, for the terminating NULL. */
    var argv: array<CString>
    var optpos: nat

    /** Items before `optind` are options and their arguments, those from `optend`
        on are operands passed over, and those between are still to be read. */
    ghost predicate Valid()
      reads this, argv
    {
      && argv.Length == argc + 1 && 0 <= optind <= optend <= argc
      && (optpos > 0 ==> optind > 0 && optpos < |argv[optind - 1]|) && (!options.permute ==> optend == argc)
    }

    /** argv as read items, items to be read, and operands passed over. */
    ghost predicate Shows(taken: seq<CString>, rest: seq<CString>, skipped: seq<CString>)
      reads this, argv
    {
      && argv.Length == argc + 1 && argv[..argc] == taken + rest + skipped
      && optind == |taken| && optend == |taken| + |rest|
    }

    ghost function Taken(): seq<CString>
      reads this, argv
      requires Valid()
    {
      argv[..optind]
    }

    ghost function Rest(): seq<CString>
      reads this, argv
      requires Valid()
    {
      argv[optind..optend]
    }

    ghost function Skipped(): seq<CString>
      reads this, argv
      requires Valid()
    {
      argv[optend..argc]
    }

    /** What is going to be read if calls go on from here. */
    ghost function Ahead(): Reading
      reads this, argv
      requires Valid() && AllPlain(Rest())
    {
      if optpos == 0 then Read(options, Rest()) else Within(options, argv[optind - 1], optpos, Rest())
    }

    lemma Parts()
      requires Valid()
      ensures Shows(Taken(), Rest(), Skipped())
    {
    }

    lemma PartsAre(taken: seq<CString>, rest: seq<CString>, skipped: seq<CString>)
      requires Shows(taken, rest, skipped)
      ensures optind <= optend <= argc && argv[..optind] == taken && argv[optind..optend] == rest
      ensures argv[optend..argc] == skipped
    {
      ghost var items := argv[..argc];
      Cuts(items, taken, rest, skipped);
      assert argv[..optind] == items[..optind];
      assert argv[optind..optend] == items[optind..optend];
      assert argv[optend..argc] == items[optend..];
    }

    /** Starting anew, longgetopt.c:139-156. */
    constructor (argc: nat, argv: array<CString>, optstring: CString, longopts: seq<LongOption>, posixlyCorrect: bool)
      requires argv.Length == argc + 1
      ensures Valid() && this.argv == argv && this.argc == argc && optind == 0 && optend == argc && optpos == 0
      ensures options == Options(if optstring != [] && optstring[0] == '+' then optstring[1..] else optstring, longopts,
                                 !posixlyCorrect && (optstring == [] || optstring[0] != '+'))
    {
      var permute := true;
      if posixlyCorrect {
        permute := false;
      }
      var short := optstring;
      if |optstring| > 0 && optstring[0] == '+' {
        permute := false;
        short := optstring[1..];
      }
      options := Options(short, longopts, permute);
      optend := argc;
      this.argc := argc;
      this.argv := argv;
      optind := 0;
      optpos := 0;
      optarg := None;
      optopt := UNKNOWN;
      longindex := 0;
    }

    /** longgetopt.c:11-23 */
    method Permute()
      requires argv.Length == argc + 1 && 0 <= optind <= optend <= argc
      modifies this`optend, argv
      ensures optend == old(optend) - 1
      ensures argv[..argc] == if optind < old(optend) then old(argv[..optind] + argv[optind + 1..argc] + [argv[optind]])
                              else old(argv[..argc])
      ensures argv[argc] == old(argv[argc])
    {
      var count := optend - optind;
      if count > 0 {
        var swap := argv[optind];
        forall i | optind <= i < argc {
          argv[i] := argv[i + 1];
        }
        optend := optend - 1;
        argv[argc - 1] := swap;
      } else if count == 0 {
        optend := optend - 1;
      }
    }

    ghost function Next(): Option<CString>
      reads this, argv
      requires Valid()
    {
      if optind < optend then Some(argv[optind]) else None
    }

    /** The outcome `o` has been put into effect. */
    twostate predicate Effect(o: Outcome, r: int)
      reads this
    {
      && r == o.result && optpos == o.pos && optind == old(optind) + (if o.takesNext then 1 else 0)
      && (if o.report.Some? then optopt == o.report.value.optopt && optarg == o.report.value.optarg
          else optopt == old(optopt) && optarg == old(optarg))
    }

    /** The search of longgetopt.c:72-73. */
    method SearchShort(ch: char) returns (i: nat)
      ensures i == Find(options.short, ch)
    {
      i := 0;
      while i < |options.short| && options.short[i] != ch
        invariant i <= |options.short| && forall j :: 0 <= j < i ==> options.short[j] != ch
      {
        i := i + 1;
      }
      FindIs(options.short, ch, i);
    }

    /** The search of longgetopt.c:38-39. */
    method SearchLong(name: CString) returns (i: nat)
      ensures i == FindLong(options.long, name)
    {
      i := 0;
      while i < |options.long| && options.long[i].name != name
        invariant i <= |options.long| && forall j :: 0 <= j < i ==> options.long[j].name != name
      {
        i := i + 1;
      }
      FindLongIs(options.long, name, i);
    }

    /** longgetopt.c:70-133: the option letter at `optpos`. */
    method MatchShort(s: CString, attached: Option<CString>) returns (r: int)
      requires Valid() && 0 < optpos < |s|
      modifies this`optind, this`optopt, this`optarg, this`optpos
      ensures Effect(ShortOutcome(options, s, old(optpos), attached, old(Next())), r)
    {
      var ch := s[optpos];
      var after := At(s, optpos + 1);
      if Graphic(ch) && ch != ':' && ch != '+' && ch != '-' && ch != ';' {
        var i := SearchShort(ch);
        if i < |options.short| {
          optopt := ch as int;
          if At(options.short, i + 1) == ':' {
            if after == '=' || after == ' ' || after == ':' {
              optarg := Some(s[optpos + 2..]);
              optpos := |s| - 1;
              return ch as int;
            } else if after != '\0' {
              optarg := Some(s[optpos + 1..]);
              optpos := |s| - 1;
              return ch as int;
            } else if At(options.short, i + 2) != ':' {
              if optind < optend {
                optarg := Some(argv[optind]);
                optind := optind + 1;
                optpos := 0;
                return ch as int;
              } else {
                optarg := None;
                return UNKNOWN;
              }
            } else {
              optarg := None;
              return ch as int;
            }
          } else if after == '=' || after == ' ' {
            optarg := Some(s[optpos + 2..]);
            return UNKNOWN;
          } else {
            optarg := None;
            return ch as int;
          }
        }
      }
      optopt := UNKNOWN;
      optarg := attached;
      r := UNKNOWN;
    }

    /** longgetopt.c:40-61: a long option that was found. */
    method MatchFound(o: LongOption, attached: Option<CString>) returns (r: int)
      requires Valid() && optpos == 0
      modifies this`optind, this`optopt, this`optarg
      ensures Effect(FoundOutcome(o, attached, old(Next())), r)
    {
      optopt := o.val;
      optarg := attached;
      if o.argument == NO_ARGUMENT && attached != None {
        return UNKNOWN;
      } else if o.argument == REQUIRED_ARGUMENT && attached == None {
        if optind < optend {
          optarg := Some(argv[optind]);
          optind := optind + 1;
        } else {
          return UNKNOWN;
        }
      }
      r := if o.hasFlag then 0 else o.val;
    }

    /** longgetopt.c:25-134 */
    method MatchOption(s: CString) returns (r: int)
      requires Valid() && optind > 0 && s == argv[optind - 1] && if optpos == 0 then |s| > 2 else optpos < |s|
      modifies this`optind, this`optopt, this`optarg, this`optpos, this`longindex
      ensures Effect(if old(optpos) == 0 then LongOutcome(options, s, old(Next()))
                     else ShortOutcome(options, s, old(optpos), None, old(Next())), r)
    {
      hide ShortOutcome, FoundOutcome, NameEnd, FindLong;
      var attached: Option<CString> := None;
      if optpos == 0 {
        var text: CString := s[2..];
        var length := NameEnd(text);
        if length < |text| {
          attached := Some(text[length + 1..]);
        }
        var i := SearchLong(text[..length]);
        if i < |options.long| {
          longindex := i;
          r := MatchFound(options.long[i], attached);
          return;
        }
        if length == 1 {
          optpos := 2;
        } else {
          return UNKNOWN;
        }
      }
      r := MatchShort(s, attached);
    }

    method PassOver(ghost taken: seq<CString>, ghost rest: seq<CString>, ghost skipped: seq<CString>)
      requires Shows(taken, rest, skipped) && rest != []
      modifies this`optend, argv
      ensures Shows(taken, rest[1..], skipped + [rest[0]])
    {
      Rotated(argv[..argc], taken, rest, skipped);
      assert argv[..argc][optind + 1..] == argv[optind + 1..argc] && argv[..argc][..optind] == argv[..optind];
      Permute();
    }

    /** longgetopt.c:171-177: the first `n` items still to be read are operands; they
        go to the end, in their order. */
    method SkipOperands(ghost taken: seq<CString>, ghost rest: seq<CString>, ghost skipped: seq<CString>)
      returns (stop: bool, ghost n: nat)
      requires Shows(taken, rest, skipped)
      modifies this`optend, argv
      ensures n <= |rest| && Shows(taken, rest[n..], skipped + rest[..n])
      ensures forall i :: 0 <= i < n ==> !Dashed(rest[i])
      ensures stop <==> !options.permute && rest != [] && !Dashed(rest[0])
      ensures !options.permute ==> n == 0
      ensures !stop ==> n == |rest| || Dashed(rest[n])
    {
      stop, n := false, 0;
      assert rest[0..] == rest && skipped + rest[..0] == skipped;
      while optind < optend && At(argv[optind], 0) != '-'
        invariant n <= |rest| && Shows(taken, rest[n..], skipped + rest[..n])
        invariant (forall i :: 0 <= i < n ==> !Dashed(rest[i])) && (n > 0 ==> options.permute)
        decreases optend
      {
        PartsAre(taken, rest[n..], skipped + rest[..n]);
        if options.permute {
          PassOver(taken, rest[n..], skipped + rest[..n]);
          assert rest[n..][1..] == rest[n + 1..] && skipped + rest[..n] + [rest[n]] == skipped + rest[..n + 1];
          n := n + 1;
        } else {
          stop := true;
          return;
        }
      }
      PartsAre(taken, rest[n..], skipped + rest[..n]);
    }

    /** Matches `s` where `optpos` says, with what that leaves to be read. */
    method MatchItem(s: CString, ghost o: Outcome) returns (r: int)
      requires Valid() && optind > 0 && s == argv[optind - 1] && if optpos == 0 then |s| > 2 else optpos < |s|
      requires o == if optpos == 0 then LongOutcome(options, s, First(Rest()))
                    else ShortOutcome(options, s, optpos, None, First(Rest()))
      modifies this`optind, this`optopt, this`optarg, this`optpos, this`longindex
      ensures Valid() && r == o.result && Skipped() == old(Skipped())
      ensures o.report.Some? ==> optopt == o.report.value.optopt && optarg == o.report.value.optarg
      ensures o.takesNext ==> old(Rest()) != []
      ensures Taken() == old(Taken()) + if o.takesNext then [old(Rest())[0]] else []
      ensures Rest() == if o.takesNext then old(Rest())[1..] else old(Rest())
      ensures AllPlain(old(Rest())) ==> AllPlain(Rest())
      ensures AllPlain(old(Rest())) ==>
                Ahead() == if o.takesNext then Read(options, Rest()) else Within(options, s, o.pos, Rest())
    {
      hide ShortOutcome, LongOutcome, Read, Within;
      OutcomeShape(options, s, optpos, First(Rest()));
      assert First(Rest()) == Next();
      r := MatchOption(s);
      if AllPlain(Rest()) {
        WithinNothing(options, s, Rest());
      }
    }

    /** The items to be read after two dashes, which are `rest[n]`, have been arranged
        with the operands passed over before. */
    ghost predicate Terminated(taken: seq<CString>, rest: seq<CString>, skipped: seq<CString>, n: nat)
      reads this, argv
    {
      && n < |rest| && argv.Length == argc + 1 && optind == |taken| + 1
      && argv[..argc] == taken + [rest[n]] + Operands(skipped + rest[..n], rest[n + 1..])
    }

    /** A call does the first of the calls that were ahead, `a`, and leaves the others ahead. */
    ghost predicate Advances(taken: seq<CString>, skipped: seq<CString>, a: Reading, r: int)
      reads this, argv
    {
      && Valid() && AllPlain(Rest()) && a.calls != []
      && Taken() + Ahead().taken == taken + a.taken && Skipped() + Ahead().skipped == skipped + a.skipped
      && Ahead().calls == a.calls[1..] && Reports(a.calls[0], r)
    }

    ghost predicate Reports(c: Call, r: int)
      reads this
    {
      r == c.result && (c.report.Some? ==> optopt == c.report.value.optopt && optarg == c.report.value.optarg)
    }

    /** The call that ends the reading: nothing was ahead but operands. */
    ghost predicate Ends(taken: seq<CString>, skipped: seq<CString>, a: Reading, r: int)
      reads this, argv
    {
      && r == -1 && a.calls == [] && a.taken == [] && argv.Length == argc + 1
      && argv[..argc] == taken + (skipped + a.skipped) && optind == |taken|
    }

    /** The calls made and those ahead are those of the reading `r`. */
    ghost predicate Running(made: seq<Call>, r: Reading)
      reads this, argv
    {
      && Valid() && AllPlain(Rest()) && made + Ahead().calls == r.calls
      && Taken() + Ahead().taken == r.taken && Skipped() + Ahead().skipped == r.skipped
    }

    ghost predicate RunEnded(made: seq<Call>, r: Reading)
      reads this, argv
    {
      argv.Length == argc + 1 && made == r.calls && argv[..argc] == r.taken + r.skipped && optind == |r.taken|
    }

    lemma RunStep(made: seq<Call>, taken: seq<CString>, skipped: seq<CString>, a: Reading, r: Reading, ch: int)
      requires made + a.calls == r.calls && taken + a.taken == r.taken && skipped + a.skipped == r.skipped
      ensures Advances(taken, skipped, a, ch) ==>
                && a.calls != [] && a.calls[0].result == ch
                && Running(made + [a.calls[0]], r) && |made| < |r.calls|
      ensures Ends(taken, skipped, a, ch) ==> RunEnded(made, r)
    {
      hide Read, Within, AllPlain;
      if a.calls != [] {
        assert a.calls == [a.calls[0]] + a.calls[1..];
      }
    }

    /** The next letter of an item, longgetopt.c:161-164. */
    method GoOn() returns (r: int)
      requires Valid() && optpos > 0 && optpos + 1 < |argv[optind - 1]|
      modifies this`optind, this`optopt, this`optarg, this`optpos, this`longindex
      ensures Valid()
      ensures old(AllPlain(Rest())) ==> Advances(old(Taken()), old(Skipped()), old(Ahead()), r)
      ensures NoEndValue(options) ==> r != -1
    {
      hide Read, Within, Matched, ShortOutcome, LongOutcome;
      var s := argv[optind - 1];
      ghost var rest := Rest();
      ghost var o := ShortOutcome(options, s, optpos + 1, None, First(rest));
      if AllPlain(rest) {
        LetterAhead(options, s, optpos, rest);
      }
      ShortNotEnd(options, s, optpos + 1, None, First(rest));
      optpos := optpos + 1;
      r := MatchItem(s, o);
    }

    /** An option item comes next, longgetopt.c:182-197. */
    method StartItem(ghost taken: seq<CString>, ghost rest: seq<CString>, ghost skipped: seq<CString>)
      returns (r: int, ghost o: Outcome)
      requires Shows(taken, rest, skipped) && optpos == 0 && (!options.permute ==> skipped == [])
      requires rest != [] && Dashed(rest[0]) && Plain(rest[0])
      modifies this`optind, this`optopt, this`optarg, this`optpos, this`longindex
      ensures Valid() && o == FirstOutcome(options, rest[0], First(rest[1..])) && r == o.result
      ensures NoEndValue(options) ==> r != -1
      ensures o.report.Some? ==> optopt == o.report.value.optopt && optarg == o.report.value.optarg
      ensures o.takesNext ==> rest[1..] != []
      ensures Taken() == taken + [rest[0]] + if o.takesNext then [rest[1]] else []
      ensures Rest() == rest[if o.takesNext then 2 else 1..] && Skipped() == skipped
      ensures AllPlain(rest[1..]) ==> AllPlain(Rest())
      ensures AllPlain(rest[1..]) ==>
                Ahead() == if o.takesNext then Read(options, Rest()) else Within(options, rest[0], o.pos, Rest())
    {
      hide Read, Within, Matched, ShortOutcome, LongOutcome;
      PartsAre(taken, rest, skipped);
      var s := argv[optind];
      assert s == rest[0];
      o := FirstOutcome(options, rest[0], First(rest[1..]));
      if s[1] != '-' {
        optpos := 1;
      }
      optind := optind + 1;
      assert Rest() == rest[1..] && Taken() == taken + [rest[0]];
      FirstNotEnd(options, s, First(rest[1..]));
      r := MatchItem(s, o);
    }

    /** After two dashes the operands that are left go to the end until one is left,
        longgetopt.c:183-188. */
    method EndOptions(ghost taken: seq<CString>, ghost rest: seq<CString>, ghost skipped: seq<CString>)
      requires Shows(taken, rest, skipped) && rest != []
      modifies this`optind, this`optend, argv
      ensures argv[..argc] == taken + [rest[0]] + Operands(skipped, rest[1..]) && optind == |taken| + 1
    {
      hide Shows, Operands;
      ghost var before, after, j := taken + [rest[0]], rest[1..], 0;
      ShowsNext(taken, rest, skipped);
      optind := optind + 1;
      MakeShows(before, after[0..], skipped + after[..0]);
      while optend - optind > 1
        invariant j <= |after| && (j == |after| ==> after == [])
        invariant Shows(before, after[j..], skipped + after[..j])
        decreases optend - optind
      {
        ShowsLength(before, after[j..], skipped + after[..j]);
        PassOver(before, after[j..], skipped + after[..j]);
        assert after[j..][1..] == after[j + 1..];
        assert skipped + after[..j] + [after[j]] == skipped + after[..j + 1];
        j := j + 1;
      }
      OneLeft(before, after, skipped, j);
    }

    method StopAtDashes(ghost taken: seq<CString>, ghost rest: seq<CString>, ghost skipped: seq<CString>, ghost n: nat)
      requires n < |rest| && Shows(taken, rest[n..], skipped + rest[..n])
      modifies this`optind, this`optend, argv
      ensures Terminated(taken, rest, skipped, n) && multiset(argv[..argc]) == old(multiset(argv[..argc]))
    {
      hide Operands;
      assert rest[n..] != [] && rest[n..][0] == rest[n] && rest[n..][1..] == rest[n + 1..];
      OperandsPermute(taken, rest, skipped, n);
      EndOptions(taken, rest[n..], skipped + rest[..n]);
    }

    lemma ShowsNext(taken: seq<CString>, rest: seq<CString>, skipped: seq<CString>)
      requires Shows(taken, rest, skipped) && rest != []
      ensures argv.Length == argc + 1 && optind + 1 == |taken + [rest[0]]| && optend == optind + 1 + |rest[1..]|
      ensures rest[1..][0..] == rest[1..] && skipped + rest[1..][..0] == skipped
      ensures argv[..argc] == taken + [rest[0]] + rest[1..] + skipped
    {
    }

    lemma MakeShows(taken: seq<CString>, rest: seq<CString>, skipped: seq<CString>)
      requires argv.Length == argc + 1 && optind == |taken| && optend == optind + |rest|
      requires argv[..argc] == taken + rest + skipped
      ensures Shows(taken, rest, skipped)
    {
    }

    lemma ShowsLength(taken: seq<CString>, rest: seq<CString>, skipped: seq<CString>)
      requires Shows(taken, rest, skipped)
      ensures |rest| == optend - optind
    {
    }

    lemma OneLeft(before: seq<CString>, after: seq<CString>, skipped: seq<CString>, j: nat)
      requires j <= |after| && Shows(before, after[j..], skipped + after[..j]) && optend - optind <= 1
      requires j == |after| ==> after == []
      ensures argv.Length == argc + 1 && argv[..argc] == before + Operands(skipped, after) && optind == |before|
    {
      hide Operands;
      LastFirst(before, after, skipped, j);
    }

    /** longgetopt.c:182-197: the next item starts with a dash; `n` operands before it
        have been passed over. */
    method TakeItem(ghost taken: seq<CString>, ghost rest: seq<CString>, ghost skipped: seq<CString>, ghost n: nat)
      returns (r: int, ghost finished: bool)
      requires n < |rest| && Shows(taken, rest[n..], skipped + rest[..n]) && optpos == 0
      requires (n > 0 ==> options.permute) && (!options.permute ==> skipped + rest[..n] == [])
      requires (forall i :: 0 <= i < n ==> !Dashed(rest[i])) && Dashed(rest[n]) && |rest[n]| > 1
      modifies this`optind, this`optend, this`optopt, this`optarg, this`optpos, this`longindex, argv
      ensures multiset(argv[..argc]) == old(multiset(argv[..argc]))
      ensures if finished then r == -1 else NoEndValue(options) ==> r != -1
      ensures AllPlain(rest) ==> !finished && Advances(taken, skipped, Read(options, rest), r)
      ensures finished <==> rest[n] == "--"
      ensures finished ==> Terminated(taken, rest, skipped, n)
    {
      hide Read, Within, Matched, MatchedReading, ShortOutcome, LongOutcome, FirstOutcome, Advances, AllPlain,
        NoEndValue, Dashed, At, Terminated;
      PartsAre(taken, rest[n..], skipped + rest[..n]);
      var s := argv[optind];
      TwoDashes(s);
      if s[1] == '-' && At(s, 2) == '\0' {
        NotPlain(rest, n);
        StopAtDashes(taken, rest, skipped, n);
        return -1, true;
      }
      finished := false;
      ghost var o;
      r, o := StartItem(taken, rest[n..], skipped + rest[..n]);
      ItemRead(taken, rest, skipped, n, r, o);
    }

    /** longgetopt.c:171-197, between two items. */
    method NextItem(ghost taken: seq<CString>, ghost rest: seq<CString>, ghost skipped: seq<CString>)
      returns (r: int, ghost finished: bool)
      requires Shows(taken, rest, skipped) && optpos == 0 && (!options.permute ==> skipped == [])
      requires forall i :: 0 <= i < |rest| && Dashed(rest[i]) ==> |rest[i]| > 1
      modifies this`optind, this`optend, this`optopt, this`optarg, this`optpos, this`longindex, argv
      ensures multiset(argv[..argc]) == old(multiset(argv[..argc]))
      ensures if finished then r == -1 else NoEndValue(options) ==> r != -1
      ensures AllPlain(rest) ==>
                if finished then Ends(taken, skipped, Read(options, rest), r)
                else Advances(taken, skipped, Read(options, rest), r)
      ensures forall n :: Terminator(options, rest, n) ==> finished && Terminated(taken, rest, skipped, n)
    {
      hide Read, Advances, Ends, AllPlain, NoEndValue, Terminated, Terminator;
      var stop, n := SkipOperands(taken, rest, skipped);
      PassingPermutes(taken, rest, skipped, n);
      PartsAre(taken, rest[n..], skipped + rest[..n]);
      WhereTerminated(options, rest, n, stop);
      if stop {
        OperandAhead(taken, rest, skipped);
        return -1, true;
      }
      if optind >= optend {
        optend := optend - 1;
        OnlyOperandsAhead(taken, rest, skipped, n);
        return -1, true;
      }
      r, finished := TakeItem(taken, rest, skipped, n);
    }

    lemma OperandAhead(taken: seq<CString>, rest: seq<CString>, skipped: seq<CString>)
      requires Shows(taken, rest, skipped) && !options.permute && rest != [] && !Dashed(rest[0])
      requires skipped == []
      ensures AllPlain(rest) ==> Ends(taken, skipped, Read(options, rest), -1)
    {
      hide Within, Matched, FirstOutcome;
    }

    lemma OnlyOperandsAhead(taken: seq<CString>, rest: seq<CString>, skipped: seq<CString>, n: nat)
      requires argv.Length == argc + 1 && n == |rest| && (n > 0 ==> options.permute) && optind == |taken|
      requires argv[..argc] == taken + rest[n..] + (skipped + rest[..n])
      requires forall i :: 0 <= i < n ==> !Dashed(rest[i])
      ensures AllPlain(rest) ==> Ends(taken, skipped, Read(options, rest), -1)
    {
      hide Read;
      if AllPlain(rest) {
        OnlyOperands(options, rest);
        assert rest[n..] == [] && rest[..n] == rest && taken + [] == taken;
      }
    }

    /** An option item after `n` operands has been started on. */
    lemma ItemRead(taken: seq<CString>, rest: seq<CString>, skipped: seq<CString>, n: nat, r: int, o: Outcome)
      requires Valid() && n < |rest| && Dashed(rest[n]) && Plain(rest[n]) && (n > 0 ==> options.permute)
      requires forall i :: 0 <= i < n ==> !Dashed(rest[i])
      requires o == FirstOutcome(options, rest[n], First(rest[n..][1..])) && Reports(Call(o.result, o.report), r)
      requires o.takesNext ==> rest[n..][1..] != []
      requires Taken() == taken + [rest[n]] + if o.takesNext then [rest[n..][1]] else []
      requires Rest() == rest[n..][if o.takesNext then 2 else 1..] && Skipped() == skipped + rest[..n]
      requires AllPlain(rest[n..][1..]) ==> AllPlain(Rest())
      requires AllPlain(rest[n..][1..]) ==>
                 Ahead() == if o.takesNext then Read(options, Rest()) else Within(options, rest[n], o.pos, Rest())
      ensures AllPlain(rest) ==> Advances(taken, skipped, Read(options, rest), r)
    {
      hide Within, Matched, FirstOutcome, Read, AllPlain;
      if AllPlain(rest) {
        ItemReading(options, rest, n, o, if AllPlain(Rest()) then Ahead() else Reading([], [], []));
        Regroup(taken, [rest[n]], if o.takesNext then [rest[n..][1]] else [], Ahead().taken);
        Regroup([], skipped, rest[..n], Ahead().skipped);
      }
    }

    /** longgetopt.c:161-197 */
    method GetOption() returns (r: int, ghost finished: bool)
      requires Valid() && forall s :: s in Rest() && Dashed(s) ==> |s| > 1
      modifies this, argv
      ensures argv == old(argv) && argc == old(argc) && options == old(options)
      ensures multiset(argv[..argc]) == old(multiset(argv[..argc]))
      ensures if finished then r == -1 else NoEndValue(options) ==> r != -1
      ensures old(AllPlain(Rest())) ==>
                if finished then Ends(old(Taken()), old(Skipped()), old(Ahead()), r)
                else Advances(old(Taken()), old(Skipped()), old(Ahead()), r)
      ensures old(optpos == 0 || optpos + 1 >= |argv[optind - 1]|) ==>
                forall n :: Terminator(options, old(Rest()), n) ==>
                  finished && Terminated(old(Taken()), old(Rest()), old(Skipped()), n)
    {
      hide Read, Within, Matched, ShortOutcome, LongOutcome, FirstOutcome, Advances, Ends, NoEndValue, Terminated,
        Terminator;
      finished := false;
      Parts();
      ghost var taken, rest, skipped := Taken(), Rest(), Skipped();
      if optpos > 0 {
        if At(argv[optind - 1], optpos + 1) != '\0' {
          r := GoOn();
          return;
        } else {
          if AllPlain(rest) {
            EndAhead(options, argv[optind - 1], optpos, rest);
          }
          optpos := 0;
        }
      }
      r, finished := NextItem(taken, rest, skipped);
    }
  }

  /** The first item after operands that starts with a dash is two dashes alone. */
  ghost predicate Terminator(options: Options, rest: seq<CString>, n: int) {
    && 0 <= n < |rest| && rest[n] == "--" && (n > 0 ==> options.permute)
    && forall i :: 0 <= i < n ==> !Dashed(rest[i])
  }

  lemma LastFirst(before: seq<CString>, after: seq<CString>, skipped: seq<CString>, j: nat)
    requires j <= |after| && |after[j..]| <= 1 && (j == |after| ==> after == [])
    ensures before + after[j..] + (skipped + after[..j]) == before + Operands(skipped, after)
  {
    if after == [] {
      assert after[j..] == [] && after[..j] == [];
    } else {
      assert after[j..] == [after[j]];
      assert Operands(skipped, after) == [after[j]] + skipped + after[..j];
      hide Operands;
      Associate(before, [after[j]], skipped, after[..j]);
    }
  }

  lemma Associate<T>(a: seq<T>, b: seq<T>, c: seq<T>, d: seq<T>)
    ensures a + b + (c + d) == a + (b + c + d)
  {
  }

  lemma WhereTerminated(options: Options, rest: seq<CString>, n: nat, stop: bool)
    requires n <= |rest| && forall i :: 0 <= i < n ==> !Dashed(rest[i])
    requires stop <==> !options.permute && rest != [] && !Dashed(rest[0])
    requires !stop ==> n == |rest| || Dashed(rest[n])
    ensures forall m :: Terminator(options, rest, m) ==> !stop && m == n && n < |rest| && rest[n] == "--"
  {
  }

  /** The operands as two dashes leave them: of those that follow the dashes, all but
      the last go behind those passed over before. */
  function Operands(skipped: seq<CString>, after: seq<CString>): seq<CString> {
    if after == [] then skipped else [after[|after| - 1]] + skipped + after[..|after| - 1]
  }

  /** They are in their order exactly if nothing follows the dashes, or if all operands
      are the same as the last. */
  lemma OperandOrder(skipped: seq<CString>, after: seq<CString>)
    ensures Operands(skipped, after) == skipped + after <==>
            after == [] || forall s :: s in skipped + after ==> s == after[|after| - 1]
  {
    if after != [] {
      var k := |after| - 1;
      var front := skipped + after[..k];
      assert skipped + after == front + [after[k]];
      assert Operands(skipped, after) == [after[k]] + front;
      TurnedOnce(front, after[k]);
      assert forall s :: s in skipped + after <==> s in front || s == after[k];
    }
  }

  lemma {:induction false} TurnedOnce<T>(a: seq<T>, x: T)
    ensures [x] + a == a + [x] <==> forall y :: y in a ==> y == x
  {
    if a != [] {
      var b := a[1..];
      TurnedOnce(b, x);
      assert a == [a[0]] + b;
      if [x] + a == a + [x] {
        assert a[0] == ([x] + a)[0] == x;
        assert [x] + b == ([x] + a)[1..] == (a + [x])[1..] == b + [x];
      }
      if forall y :: y in a ==> y == x {
        AllSame(a, x);
      }
    }
  }

  lemma AllSame<T>(a: seq<T>, x: T)
    requires forall y :: y in a ==> y == x
    ensures [x] + a == a + [x]
  {
    assert forall i :: 0 <= i < |a| ==> a[i] in a;
  }

  lemma OperandsPermute(taken: seq<CString>, rest: seq<CString>, skipped: seq<CString>, n: nat)
    requires n < |rest|
    ensures multiset(taken + [rest[n]] + Operands(skipped + rest[..n], rest[n + 1..])) ==
            multiset(taken + rest[n..] + (skipped + rest[..n]))
  {
    hide Operands;
    var before, after := skipped + rest[..n], rest[n + 1..];
    SameOperands(before, after);
    assert taken + rest[n..] + before == taken + [rest[n]] + after + before;
  }

  lemma SameOperands(before: seq<CString>, after: seq<CString>)
    ensures multiset(Operands(before, after)) == multiset(after) + multiset(before)
  {
    if after != [] {
      assert after == after[..|after| - 1] + [after[|after| - 1]];
    }
  }

  lemma TwoDashes(s: CString)
    requires |s| > 1 && Dashed(s)
    ensures s[1] == '-' && At(s, 2) == '\0' <==> s == "--"
    ensures s == "--" <==> !Plain(s)
  {
    if |s| > 2 {
      assert s[2] in s;
    }
  }

  /** No option asks to return what the end of the options returns. */
  ghost predicate NoEndValue(options: Options) {
    forall o :: o in options.long ==> o.val != -1
  }

  lemma ShortNotEnd(options: Options, s: CString, pos: nat, attached: Option<CString>, next: Option<CString>)
    requires 0 < pos < |s|
    ensures ShortOutcome(options, s, pos, attached, next).result != -1
  {
  }

  lemma FirstNotEnd(options: Options, s: CString, next: Option<CString>)
    requires |s| > 1
    ensures NoEndValue(options) ==> FirstOutcome(options, s, next).result != -1
  {
    hide NameEnd, FindLong;
  }

  /** The reading that starts with the option item after `n` operands. */
  lemma ItemReading(options: Options, rest: seq<CString>, n: nat, o: Outcome, x: Reading)
    requires AllPlain(rest) && n < |rest| && Dashed(rest[n]) && (n > 0 ==> options.permute)
    requires forall i :: 0 <= i < n ==> !Dashed(rest[i])
    requires o == FirstOutcome(options, rest[n], First(rest[n..][1..]))
    ensures AllPlain(rest[n..][1..]) && (o.takesNext ==> rest[n..][1..] != [])
    ensures AllPlain(rest[n..][if o.takesNext then 2 else 1..])
    ensures x == (if o.takesNext then Read(options, rest[n..][2..]) else Within(options, rest[n], o.pos, rest[n..][1..])) ==>
              Read(options, rest) ==
                Reading([rest[n]] + (if o.takesNext then [rest[n..][1]] else []) + x.taken, rest[..n] + x.skipped,
                        [Call(o.result, o.report)] + x.calls)
  {
    hide Within, Matched, FirstOutcome, Read;
    OperandsAhead(options, rest, n);
    var here := rest[n..];
    ItemAhead(options, here);
    if o.takesNext {
      assert here[1..][1..] == here[2..];
    }
  }

  lemma Regroup<T>(a: seq<T>, b: seq<T>, c: seq<T>, d: seq<T>)
    ensures a + b + c + d == a + (b + c + d)
    ensures a == [] ==> b + c + d == b + (c + d)
  {
  }

  lemma OnlyOperands(options: Options, rest: seq<CString>)
    requires AllPlain(rest) && (rest != [] ==> options.permute) && forall i :: 0 <= i < |rest| ==> !Dashed(rest[i])
    ensures Read(options, rest) == Reading([], rest, [])
  {
    hide Within, Matched, FirstOutcome;
    OperandsAhead(options, rest, |rest|);
    assert rest[|rest|..] == [] && rest[..|rest|] == rest && rest + [] == rest;
  }

  lemma NotPlain(rest: seq<CString>, n: nat)
    requires n < |rest| && rest[n] == "--"
    ensures !AllPlain(rest)
  {
    assert !Plain(rest[n]);
  }

  lemma EndAhead(options: Options, s: CString, pos: nat, rest: seq<CString>)
    requires AllPlain(rest) && pos + 1 >= |s|
    ensures Within(options, s, pos, rest) == Read(options, rest)
  {
  }

  lemma PassingPermutes<T>(taken: seq<T>, rest: seq<T>, skipped: seq<T>, n: nat)
    requires n <= |rest|
    ensures multiset(taken + rest[n..] + (skipped + rest[..n])) == multiset(taken + rest + skipped)
  {
    assert rest == rest[..n] + rest[n..];
  }

  lemma LetterAhead(options: Options, s: CString, pos: nat, rest: seq<CString>)
    requires AllPlain(rest) && pos > 0 && pos + 1 < |s|
    ensures var o := ShortOutcome(options, s, pos + 1, None, First(rest));
            && (o.takesNext ==> rest != [])
            && Within(options, s, pos, rest) == MatchedReading(options, s, o, [], rest)
  {
    OutcomePosition(options, s, pos + 1, None, First(rest));
  }

  /** `Matched`, unfolded. */
  function MatchedReading(options: Options, s: CString, o: Outcome, own: seq<CString>, rest: seq<CString>): Reading
    requires AllPlain(rest) && (o.takesNext ==> rest != [])
  {
    if o.takesNext then After(o, own, [rest[0]], Read(options, rest[1..]))
    else After(o, own, [], Within(options, s, o.pos, rest))
  }

  lemma ItemAhead(options: Options, rest: seq<CString>)
    requires AllPlain(rest) && rest != [] && Dashed(rest[0])
    ensures var o := FirstOutcome(options, rest[0], First(rest[1..]));
            && AllPlain(rest[1..]) && (o.takesNext ==> rest[1..] != [])
            && Read(options, rest) == MatchedReading(options, rest[0], o, [rest[0]], rest[1..])
  {
    OutcomeShape(options, rest[0], if rest[0][1] == '-' then 0 else 1, First(rest[1..]));
  }

  /** Operands that come first are passed over. */
  lemma {:induction false} OperandsAhead(options: Options, rest: seq<CString>, n: nat)
    requires AllPlain(rest) && n <= |rest| && (n > 0 ==> options.permute)
    requires forall i :: 0 <= i < n ==> !Dashed(rest[i])
    ensures AllPlain(rest[n..])
    ensures var r := Read(options, rest[n..]);
            Read(options, rest) == r.(skipped := rest[..n] + r.skipped)
  {
    if n > 0 {
      OperandsAhead(options, rest[1..], n - 1);
      assert rest[1..][n - 1..] == rest[n..];
      assert [rest[0]] + rest[1..][..n - 1] == rest[..n];
    } else {
      assert rest[0..] == rest;
    }
  }

  lemma WithinNothing(options: Options, s: CString, rest: seq<CString>)
    requires AllPlain(rest)
    ensures Within(options, s, 0, rest) == Read(options, rest)
  {
  }

  lemma OutcomeShape(options: Options, s: CString, pos: nat, next: Option<CString>)
    requires if pos == 0 then |s| > 2 else pos < |s|
    ensures var o := if pos == 0 then LongOutcome(options, s, next) else ShortOutcome(options, s, pos, None, next);
            (o.takesNext ==> next.Some? && o.pos == 0) && o.pos < |s|
  {
    if pos == 0 {
      var text: CString := s[2..];
      OutcomePosition(options, s, 2, Attached(text), next);
    } else {
      OutcomePosition(options, s, pos, None, next);
    }
  }

  lemma Cuts<T>(items: seq<T>, a: seq<T>, b: seq<T>, c: seq<T>)
    requires items == a + b + c
    ensures items[..|a|] == a && items[|a|..|a| + |b|] == b && items[|a| + |b|..] == c
  {
  }

  lemma Rotated<T>(items: seq<T>, a: seq<T>, b: seq<T>, c: seq<T>)
    requires items == a + b + c && b != []
    ensures items[..|a|] + items[|a| + 1..] + [items[|a|]] == a + b[1..] + (c + [b[0]])
  {
  }

  lemma FindIs(s: string, c: char, i: nat)
    requires i <= |s| && (i < |s| ==> s[i] == c) && forall j :: 0 <= j < i ==> s[j] != c
    ensures Find(s, c) == i
  {
  }

  lemma FindLongIs(long: seq<LongOption>, name: string, i: nat)
    requires i <= |long| && (i < |long| ==> long[i].name == name) && forall j :: 0 <= j < i ==> long[j].name != name
    ensures FindLong(long, name) == i
  {
  }

  ghost function Results(calls: seq<Call>): seq<int> {
    if calls == [] then [] else [calls[0].result] + Results(calls[1..])
  }

  /** A whole run of calls, as in tests/longgetopttest.c:20: it ends, gives the
      results of reading the items once from left to right, and leaves in argv the
      options with their arguments and after them the operands. */
  method ParseAll(argc: nat, argv: array<CString>, optstring: CString, longopts: seq<LongOption>, posixlyCorrect: bool)
    returns (optind: int, results: seq<int>, ghost r: Reading)
    requires argv.Length == argc + 1 && AllPlain(argv[..argc]) && forall o :: o in longopts ==> o.val != -1
    modifies argv
    ensures r == Read(Options(if optstring != [] && optstring[0] == '+' then optstring[1..] else optstring, longopts,
                              !posixlyCorrect && (optstring == [] || optstring[0] != '+')),
                      old(argv[..argc]))
    ensures results == Results(r.calls) && argv[..argc] == r.taken + r.skipped && optind == |r.taken|
    ensures |results| == |r.calls| && forall i :: 0 <= i < |results| ==> results[i] == r.calls[i].result
  {
    hide Read, Within, AllPlain;
    var c := new Context(argc, argv, optstring, longopts, posixlyCorrect);
    assert c.Rest() == argv[..argc] && c.Taken() == [] && c.Skipped() == [];
    r := c.Ahead();
    results := [];
    ghost var made: seq<Call> := [];
    var ch := 0;
    while ch != -1
      invariant c.argv == argv && c.argc == argc && fresh(c) && NoEndValue(c.options)
      invariant results == Results(made)
      invariant if ch != -1 then c.Running(made, r) else c.RunEnded(made, r)
      decreases if ch != -1 then |r.calls| - |made| + 1 else 0
    {
      ch, made := Once(c, made, r);
      if ch != -1 {
        results := results + [ch];
      }
    }
    optind := c.optind;
    ResultsAre(made);
  }

  lemma {:induction false} ResultsAre(calls: seq<Call>)
    ensures |Results(calls)| == |calls|
    ensures forall i :: 0 <= i < |calls| ==> Results(calls)[i] == calls[i].result
  {
    if calls != [] {
      ResultsAre(calls[1..]);
    }
  }

  /** One turn of the caller's loop. */
  method Once(c: Context, ghost made: seq<Call>, ghost r: Reading) returns (ch: int, ghost made': seq<Call>)
    requires c.Running(made, r) && NoEndValue(c.options)
    modifies c, c.argv
    ensures c.argv == old(c.argv) && c.argc == old(c.argc) && c.options == old(c.options)
    ensures if ch != -1 then c.Running(made', r) && Results(made') == Results(made) + [ch] && |made| < |made'| <= |r.calls|
            else made' == made && c.RunEnded(made, r)
  {
    hide Read, Within, AllPlain, NoEndValue;
    NoLoneDash(c.Rest());
    ghost var a, taken, skipped := c.Ahead(), c.Taken(), c.Skipped();
    ghost var finished;
    ch, finished := c.GetOption();
    c.RunStep(made, taken, skipped, a, r, ch);
    made' := made;
    if ch != -1 {
      ResultsSnoc(made, a.calls[0]);
      made' := made + [a.calls[0]];
    }
  }

  lemma NoLoneDash(rest: seq<CString>)
    requires AllPlain(rest)
    ensures forall s :: s in rest && Dashed(s) ==> |s| > 1
  {
  }

  lemma {:induction false} ResultsSnoc(calls: seq<Call>, c: Call)
    ensures Results(calls + [c]) == Results(calls) + [c.result]
  {
    if calls != [] {
      ResultsSnoc(calls[1..], c);
      assert (calls + [c])[1..] == calls[1..] + [c];
    }
  }

  /** The options and operands of a run are the items it was given, in their order. */
  lemma {:induction false} MergePermutes(items: seq<CString>, taken: seq<CString>, skipped: seq<CString>)
    requires Merge(items, taken, skipped)
    ensures multiset(taken + skipped) == multiset(items)
  {
    if items != [] {
      assert items == [items[0]] + items[1..];
      if taken != [] && taken[0] == items[0] && Merge(items[1..], taken[1..], skipped) {
        MergePermutes(items[1..], taken[1..], skipped);
        assert taken == [taken[0]] + taken[1..];
      } else {
        MergePermutes(items[1..], taken, skipped[1..]);
        assert skipped == [skipped[0]] + skipped[1..];
      }
    }
  }
}

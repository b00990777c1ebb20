/** What the items of a command line are, read once from left to right:
    the reference for longgetopt.c. */
module Getopt {
  import opened Wrappers

  /** C strings end at their first NUL. */
  type CString = s: string | '\0' !in s

  /** The character at a position up to the terminating NUL. */
  function At(s: string, i: nat): char {
    if i < |s| then s[i] else '\0'
  }

  datatype Argument = NO_ARGUMENT | REQUIRED_ARGUMENT | OPTIONAL_ARGUMENT

  /** `struct option`; with a flag, the value goes to the caller's variable and 0 is returned. */
  datatype LongOption = LongOption(name: CString, argument: Argument, hasFlag: bool, val: int)

  datatype Options = Options(short: CString, long: seq<LongOption>, permute: bool)

  /** What a call leaves in `optopt` and `optarg`. */
  datatype Report = Report(optopt: int, optarg: Option<CString>)

  /** The effect of matching at one position: the result, what is reported (if
      anything is), whether the next item is taken, and where to go on. */
  datatype Outcome = Outcome(result: int, report: Option<Report>, takesNext: bool, pos: nat)

  const UNKNOWN := '?' as int

  predicate Graphic(c: char) {
    '!' <= c <= '~'
  }

  /** Where `c` is first found in `s`, or its length. */
  function Find(s: string, c: char): (i: nat)
    ensures i <= |s| && (i < |s| ==> s[i] == c) && forall j :: 0 <= j < i ==> s[j] != c
  {
    if s == [] || s[0] == c then 0 else 1 + Find(s[1..], c)
  }

  predicate Listed(options: Options, c: char) {
    Graphic(c) && c != ':' && c != '+' && c != '-' && c != ';' && c in options.short
  }

  predicate Separates(c: char) {
    c == '=' || c == ' ' || c == ':'
  }

  /** The option letter at `pos`. */
  function ShortOutcome(options: Options, s: CString, pos: nat, attached: Option<CString>, next: Option<CString>): Outcome
    requires 0 < pos < |s|
  {
    var c, after := s[pos], At(s, pos + 1);
    var i := Find(options.short, c);
    if !Listed(options, c) then Outcome(UNKNOWN, Some(Report(UNKNOWN, attached)), false, pos)
    else if At(options.short, i + 1) == ':' then
      if Separates(after) then Outcome(c as int, Some(Report(c as int, Some(s[pos + 2..]))), false, |s| - 1)
      else if after != '\0' then Outcome(c as int, Some(Report(c as int, Some(s[pos + 1..]))), false, |s| - 1)
      else if At(options.short, i + 2) == ':' then Outcome(c as int, Some(Report(c as int, None)), false, pos)
      else if next.Some? then Outcome(c as int, Some(Report(c as int, next)), true, 0)
      else Outcome(UNKNOWN, Some(Report(c as int, None)), false, pos)
    else if after == '=' || after == ' ' then
      Outcome(UNKNOWN, Some(Report(c as int, Some(s[pos + 2..]))), false, pos)
    else Outcome(c as int, Some(Report(c as int, None)), false, pos)
  }

  /** Where the name of a long option ends: at the first of "=", or else of blank, or else of ":". */
  function NameEnd(s: string): (n: nat)
    ensures n <= |s|
  {
    if '=' in s then Find(s, '=') else if ' ' in s then Find(s, ' ') else Find(s, ':')
  }

  /** The first long option of that name, or the number of long options. */
  function FindLong(long: seq<LongOption>, name: string): (i: nat)
    ensures i <= |long| && (i < |long| ==> long[i].name == name) && forall j :: 0 <= j < i ==> long[j].name != name
  {
    if long == [] || long[0].name == name then 0 else 1 + FindLong(long[1..], name)
  }

  function Attached(s: string): Option<string> {
    var n := NameEnd(s);
    if n < |s| then Some(s[n + 1..]) else None
  }

  /** A long option that was found. */
  function FoundOutcome(o: LongOption, attached: Option<CString>, next: Option<CString>): Outcome {
    var result := if o.hasFlag then 0 else o.val;
    if o.argument == NO_ARGUMENT && attached.Some? then
      Outcome(UNKNOWN, Some(Report(o.val, attached)), false, 0)
    else if o.argument == REQUIRED_ARGUMENT && attached.None? then
      if next.Some? then Outcome(result, Some(Report(o.val, next)), true, 0)
      else Outcome(UNKNOWN, Some(Report(o.val, None)), false, 0)
    else Outcome(result, Some(Report(o.val, attached)), false, 0)
  }

  /** An item that starts with two dashes and goes on. */
  function LongOutcome(options: Options, s: CString, next: Option<CString>): Outcome
    requires |s| > 2
  {
    var text: CString := s[2..];
    var n := NameEnd(text);
    var attached: Option<CString> := Attached(text);
    var i := FindLong(options.long, text[..n]);
    if i < |options.long| then FoundOutcome(options.long[i], attached, next)
    else if n == 1 then ShortOutcome(options, s, 2, attached, next)
    else Outcome(UNKNOWN, None, false, 0)
  }

  /** An option item, first met. */
  function FirstOutcome(options: Options, s: CString, next: Option<CString>): Outcome
    requires |s| > 1
  {
    if s[1] == '-' && |s| > 2 then LongOutcome(options, s, next)
    else ShortOutcome(options, s, 1, None, next)
  }

  lemma OutcomePosition(options: Options, s: CString, pos: nat, attached: Option<CString>, next: Option<CString>)
    requires 0 < pos < |s|
    ensures var o := ShortOutcome(options, s, pos, attached, next);
            (o.takesNext ==> next.Some?) && (o.pos == 0 <==> o.takesNext) && (o.pos > 0 ==> pos <= o.pos < |s|)
  {
  }

  // ----- reading a command line from left to right

  datatype Call = Call(result: int, report: Option<Report>)

  /** The options with their arguments, the operands, and what the calls return. */
  datatype Reading = Reading(taken: seq<CString>, skipped: seq<CString>, calls: seq<Call>)

  function First(items: seq<CString>): Option<CString> {
    if items == [] then None else Some(items[0])
  }

  /** A call that read `s`, which may have taken the next item, comes before `r`. */
  function After(o: Outcome, own: seq<CString>, next: seq<CString>, r: Reading): Reading {
    Reading(own + next + r.taken, r.skipped, [Call(o.result, o.report)] + r.calls)
  }

  predicate Dashed(s: string) {
    At(s, 0) == '-'
  }

  /** An item that can be read: a lone dash is followed beyond its end by the
      program, and two dashes alone end the options. */
  predicate Plain(s: CString) {
    Dashed(s) ==> |s| > 1 && (s[1] == '-' ==> |s| > 2)
  }

  predicate AllPlain(items: seq<CString>) {
    forall i :: 0 <= i < |items| ==> Plain(items[i])
  }

  function Left(s: string, pos: nat): nat {
    if pos <= |s| then |s| - pos else 0
  }

  /** All items, none read yet. */
  function Read(options: Options, items: seq<CString>): Reading
    requires AllPlain(items)
    decreases |items|, 0, 0
  {
    if items == [] then Reading([], [], [])
    else if !Dashed(items[0]) then
      if !options.permute then Reading([], items, [])
      else
        var r := Read(options, items[1..]);
        r.(skipped := [items[0]] + r.skipped)
    else
      var s, rest := items[0], items[1..];
      Matched(options, s, FirstOutcome(options, s, First(rest)), [s], rest)
  }

  /** What follows a match of `s`. */
  function Matched(options: Options, s: CString, o: Outcome, own: seq<CString>, rest: seq<CString>): Reading
    requires AllPlain(rest) && (o.takesNext ==> rest != [])
    decreases |rest|, 1, if o.takesNext then 0 else 2 * Left(s, o.pos) + 2
  {
    if o.takesNext then After(o, own, [rest[0]], Read(options, rest[1..]))
    else After(o, own, [], Within(options, s, o.pos, rest))
  }

  /** What is left when `s` has been matched up to `pos`; 0 means all of it. */
  function Within(options: Options, s: CString, pos: nat, rest: seq<CString>): Reading
    requires AllPlain(rest)
    decreases |rest|, 1, 2 * Left(s, pos) + 1
  {
    if pos == 0 || pos + 1 >= |s| then Read(options, rest)
    else
      OutcomePosition(options, s, pos + 1, None, First(rest));
      Matched(options, s, ShortOutcome(options, s, pos + 1, None, First(rest)), [], rest)
  }

  // ----- options and operands keep their order

  /** `items` is a merge of the two, each in its order. */
  ghost predicate Merge(items: seq<CString>, taken: seq<CString>, skipped: seq<CString>) {
    if items == [] then taken == [] && skipped == []
    else
      || (taken != [] && taken[0] == items[0] && Merge(items[1..], taken[1..], skipped))
      || (skipped != [] && skipped[0] == items[0] && Merge(items[1..], taken, skipped[1..]))
  }

  lemma MergeTaken(s: CString, items: seq<CString>, taken: seq<CString>, skipped: seq<CString>)
    requires Merge(items, taken, skipped)
    ensures Merge([s] + items, [s] + taken, skipped)
  {
    assert ([s] + items)[1..] == items && ([s] + taken)[1..] == taken;
  }

  lemma MergeSkipped(s: CString, items: seq<CString>, taken: seq<CString>, skipped: seq<CString>)
    requires Merge(items, taken, skipped)
    ensures Merge([s] + items, taken, [s] + skipped)
  {
    assert ([s] + items)[1..] == items && ([s] + skipped)[1..] == skipped;
  }

  lemma {:induction false} AllSkipped(items: seq<CString>)
    ensures Merge(items, [], items)
  {
    if items != [] {
      AllSkipped(items[1..]);
    }
  }

  /** Reading splits the items into options with their arguments and operands,
      both in their order; when reading goes on past operands, no operand is an
      option. */
  lemma {:induction false} ReadMerges(options: Options, items: seq<CString>)
    requires AllPlain(items)
    ensures var r := Read(options, items);
            && Merge(items, r.taken, r.skipped)
            && (options.permute ==> forall s :: s in r.skipped ==> !Dashed(s))
    decreases |items|, 0, 0
  {
    if items != [] {
      var s, rest := items[0], items[1..];
      assert items == [s] + rest;
      if !Dashed(s) {
        if options.permute {
          ReadMerges(options, rest);
          var r := Read(options, rest);
          MergeSkipped(s, rest, r.taken, r.skipped);
        } else {
          AllSkipped(items);
        }
      } else {
        var o := FirstOutcome(options, s, First(rest));
        MatchedMerges(options, s, o, [s], rest);
        var r := Matched(options, s, o, [], rest);
        MatchedOwn(options, s, o, [s], rest);
        MergeTaken(s, rest, r.taken, r.skipped);
      }
    }
  }

  lemma MatchedOwn(options: Options, s: CString, o: Outcome, own: seq<CString>, rest: seq<CString>)
    requires AllPlain(rest) && (o.takesNext ==> rest != [])
    ensures Matched(options, s, o, own, rest).taken == own + Matched(options, s, o, [], rest).taken
    ensures Matched(options, s, o, own, rest).skipped == Matched(options, s, o, [], rest).skipped
  {
  }

  lemma {:induction false} MatchedMerges(options: Options, s: CString, o: Outcome, own: seq<CString>, rest: seq<CString>)
    requires AllPlain(rest) && (o.takesNext ==> rest != [])
    ensures var r := Matched(options, s, o, [], rest);
            && Merge(rest, r.taken, r.skipped)
            && (options.permute ==> forall s :: s in r.skipped ==> !Dashed(s))
    decreases |rest|, 1, if o.takesNext then 0 else 2 * Left(s, o.pos) + 2
  {
    if o.takesNext {
      ReadMerges(options, rest[1..]);
      var r := Read(options, rest[1..]);
      MergeTaken(rest[0], rest[1..], r.taken, r.skipped);
      assert [rest[0]] + rest[1..] == rest;
    } else {
      WithinMerges(options, s, o.pos, rest);
      assert [] + [] + Within(options, s, o.pos, rest).taken == Within(options, s, o.pos, rest).taken;
    }
  }

  lemma {:induction false} WithinMerges(options: Options, s: CString, pos: nat, rest: seq<CString>)
    requires AllPlain(rest)
    ensures var r := Within(options, s, pos, rest);
            && Merge(rest, r.taken, r.skipped)
            && (options.permute ==> forall s :: s in r.skipped ==> !Dashed(s))
    decreases |rest|, 1, 2 * Left(s, pos) + 1
  {
    if pos == 0 || pos + 1 >= |s| {
      ReadMerges(options, rest);
    } else {
      OutcomePosition(options, s, pos + 1, None, First(rest));
      MatchedMerges(options, s, ShortOutcome(options, s, pos + 1, None, First(rest)), [], rest);
    }
  }
}

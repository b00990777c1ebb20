/** Reading a duration, iso8601.c:148-294. */
module Period {
  import opened Calendar
  import opened Normalize

  predicate Digit(c: char) { '0' <= c <= '9' }

  /** `toupper` in the C locale. */
  function Upper(c: char): char {
    if 'a' <= c <= 'z' then c - 'a' + 'A' else c
  }

  datatype State = State(fields: Fields, value: nat, lastUnit: char, lastChar: char)

  datatype Outcome = Go(state: State) | Fail(message: string, fields: Fields)

  const ZERO := Fields(0, 0, 0, 0, 0, 0)

  const START := State(ZERO, 0, '\0', '\0')

  /** The designators that may come before the unit `u`. */
  function Before(u: char): set<char> {
    if u == 'Y' then {'\0', '/', 'P'}
    else if u == 'M' then {'\0', '/', 'P', 'Y', 'T', 'H'}
    else if u == 'D' then {'\0', '/', 'P', 'Y'}
    else if u == 'H' then {'T'}
    else if u == 'S' then {'T', 'H', 'M'}
    else {'\0', '/', 'P', 'Y', 'M', 'D'}
  }

  /** The field that a unit stands for after the designator `last`. */
  function Put(f: Fields, last: char, u: char, n: int): Fields {
    if u == 'Y' then f.(year := n)
    else if u == 'M' && (last == 'T' || last == 'H') then f.(min := n)
    else if u == 'M' then f.(mon := n)
    else if u == 'D' then f.(mday := n)
    else if u == 'H' then f.(hour := n)
    else f.(sec := n)
  }

  /** One character of the loop. */
  function Step(st: State, c: char): Outcome {
    var u := Upper(c);
    if Digit(c) then Go(st.(value := st.value * 10 + (c - '0') as nat, lastChar := c))
    else if u !in {'R', '/', 'P', 'T', 'Y', 'M', 'D', 'H', 'S'} || st.lastUnit !in Before(u) then Fail("bad", st.fields)
    else if u in {'R', '/', 'P', 'T'} then Go(State(st.fields, 0, u, u))
    else if !Digit(st.lastChar) then Fail("missing value", st.fields)
    else Go(State(Put(st.fields, st.lastUnit, u, st.value), 0, u, u))
  }

  function Run(st: State, s: string): Outcome
    decreases |s|
  {
    if s == "" then Go(st)
    else match Step(st, s[0])
      case Go(st') => Run(st', s[1..])
      case Fail(m, f) => Fail(m, f)
  }

  lemma {:induction false} RunConcat(st: State, a: string, b: string)
    ensures Run(st, a + b) == match Run(st, a) case Go(st') => Run(st', b) case Fail(m, f) => Fail(m, f)
    decreases |a|
  {
    if a == "" {
      assert a + b == b;
    } else {
      assert (a + b)[0] == a[0] && (a + b)[1..] == a[1..] + b;
      if Step(st, a[0]).Go? {
        RunConcat(Step(st, a[0]).state, a[1..], b);
      }
    }
  }

  lemma RunOne(st: State, c: char)
    ensures Run(st, [c]) == Step(st, c)
  {
    assert [c][1..] == "";
    if Step(st, c).Go? {
      assert Run(Step(st, c).state, "") == Step(st, c);
    }
  }

  /** iso8601.c:160-288: what a character that is not a digit does. */
  method Designator(tm: Tm, u: char, value: nat, lastUnit: char, lastChar: char) returns (err: string)
    requires !Digit(u)
    modifies tm
    ensures var step := Step(State(old(tm.Get()), value, lastUnit, lastChar), u);
            if err == "" then step == Go(State(tm.Get(), 0, Upper(u), Upper(u))) else step == Fail(err, tm.Get())
  {
    err := "";
    var c := Upper(u);
    if c == 'R' || c == '/' || c == 'P' || c == 'T' {
      if !(lastUnit == '\0' || lastUnit == '/' || lastUnit == 'P' || lastUnit == 'Y' || lastUnit == 'M' || lastUnit == 'D') {
        err := "bad";
      }
    } else if c == 'Y' {
      if lastUnit == '\0' || lastUnit == '/' || lastUnit == 'P' {
        if Digit(lastChar) {
          tm.year := value;
        } else {
          err := "missing value";
        }
      } else {
        err := "bad";
      }
    } else if c == 'M' {
      if lastUnit == '\0' || lastUnit == '/' || lastUnit == 'P' || lastUnit == 'Y' {
        if Digit(lastChar) {
          tm.mon := value;
        } else {
          err := "missing value";
        }
      } else if lastUnit == 'T' || lastUnit == 'H' {
        if Digit(lastChar) {
          tm.min := value;
        } else {
          err := "missing value";
        }
      } else {
        err := "bad";
      }
    } else if c == 'D' {
      if lastUnit == '\0' || lastUnit == '/' || lastUnit == 'P' || lastUnit == 'Y' {
        if Digit(lastChar) {
          tm.mday := value;
        } else {
          err := "missing value";
        }
      } else {
        err := "bad";
      }
    } else if c == 'H' {
      if lastUnit == 'T' {
        if Digit(lastChar) {
          tm.hour := value;
        } else {
          err := "missing value";
        }
      } else {
        err := "bad";
      }
    } else if c == 'S' {
      if lastUnit == 'T' || lastUnit == 'H' || lastUnit == 'M' {
        if Digit(lastChar) {
          tm.sec := value;
        } else {
          err := "missing value";
        }
      } else {
        err := "bad";
      }
    } else {
      err := "bad";
    }
  }

  /** iso8601.c:148-294.  The empty string stands for the NULL result. */
  method ParsePeriod(s: string, tm: Tm) returns (err: string)
    modifies tm
    ensures var run := Run(START, s);
            if err == "" then run.Go? && tm.Get() == run.state.fields else run == Fail(err, tm.Get())
  {
    tm.year, tm.mon, tm.mday, tm.hour, tm.min, tm.sec := 0, 0, 0, 0, 0, 0;
    var value, lastUnit, lastChar := 0, '\0', '\0';
    err := "";
    for i := 0 to |s|
      invariant value >= 0 && err == ""
      invariant Run(START, s) == Run(State(tm.Get(), value, lastUnit, lastChar), s[i..])
    {
      assert s[i..][0] == s[i] && s[i..][1..] == s[i + 1..];
      if Digit(s[i]) {
        value := value * 10 + (s[i] - '0') as int;
        lastChar := s[i];
      } else {
        err := Designator(tm, s[i], value, lastUnit, lastChar);
        if err != "" {
          return;
        }
        value := 0;
        lastUnit := Upper(s[i]);
        lastChar := lastUnit;
      }
    }
  }

  // ----- written periods

  predicate Digits(s: string) {
    forall i :: 0 <= i < |s| ==> Digit(s[i])
  }

  /** The number a string of digits writes; leading zeros are allowed. */
  function Number(s: string): nat
    requires Digits(s)
  {
    if s == "" then 0 else Number(s[..|s| - 1]) * 10 + (s[|s| - 1] - '0') as nat
  }

  /** A duration as text: the digits before each unit, empty for a unit that is
      left out; years, months and days, and a time part after T. */
  datatype Written = Written(years: string, months: string, days: string,
                             time: bool, hours: string, minutes: string, seconds: string)

  ghost predicate WellWritten(p: Written) {
    && Digits(p.years) && Digits(p.months) && Digits(p.days)
    && Digits(p.hours) && Digits(p.minutes) && Digits(p.seconds)
    && (!p.time ==> p.hours == "" && p.minutes == "" && p.seconds == "")
  }

  function Part(digits: string, unit: char): string {
    if digits == "" then "" else digits + [unit]
  }

  function DateText(p: Written): string {
    "P" + Part(p.years, 'Y') + Part(p.months, 'M') + Part(p.days, 'D')
  }

  function TimeText(p: Written): string {
    if p.time then "T" + Part(p.hours, 'H') + Part(p.minutes, 'M') + Part(p.seconds, 'S') else ""
  }

  function Text(p: Written): string {
    DateText(p) + TimeText(p)
  }

  ghost function Meaning(p: Written): Fields
    requires WellWritten(p)
  {
    Fields(Number(p.years), Number(p.months), Number(p.days), Number(p.hours), Number(p.minutes), Number(p.seconds))
  }

  lemma {:induction false} RunDigits(st: State, ds: string)
    requires Digits(ds) && st.value == 0
    ensures Run(st, ds) == Go(if ds == "" then st else st.(value := Number(ds), lastChar := ds[|ds| - 1]))
    decreases |ds|
  {
    if ds == "" {
      assert Run(st, ds) == Go(st);
    } else {
      var n := |ds| - 1;
      var front, last := ds[..n], ds[n];
      RunDigits(st, front);
      var mid := Run(st, front).state;
      assert ds == front + [last];
      RunConcat(st, front, [last]);
      RunOne(mid, last);
      hide Run;
      assert Step(mid, last) == Go(mid.(value := mid.value * 10 + (last - '0') as nat, lastChar := last));
      assert mid.value == Number(front);
    }
  }

  /** A number and its unit, where the unit may come. */
  lemma RunPart(st: State, ds: string, u: char)
    requires Digits(ds) && st.value == 0 && u in {'Y', 'M', 'D', 'H', 'S'}
    ensures Run(st, Part(ds, u)) ==
            if ds == "" then Go(st)
            else if st.lastUnit in Before(u) then Go(State(Put(st.fields, st.lastUnit, u, Number(ds)), 0, u, u))
            else Fail("bad", st.fields)
  {
    if ds != "" {
      RunDigits(st, ds);
      RunConcat(st, ds, [u]);
      RunOne(Run(st, ds).state, u);
    }
  }

  function After(st: State, ds: string, u: char): State
    requires Digits(ds)
  {
    if ds == "" then st else State(Put(st.fields, st.lastUnit, u, Number(ds)), 0, u, u)
  }

  lemma RunMark(st: State, u: char, rest: string)
    requires u == 'P' || u == 'T'
    ensures Run(st, [u] + rest) ==
            if st.lastUnit in Before(u) then Run(State(st.fields, 0, u, u), rest) else Fail("bad", st.fields)
  {
    RunOne(st, u);
    RunConcat(st, [u], rest);
  }

  lemma ReadDate(p: Written)
    requires WellWritten(p)
    ensures if p.months != "" && p.days != "" then Run(START, DateText(p)).Fail?
            else
              var r := Run(START, DateText(p));
              && r.Go? && r.state.value == 0 && r.state.lastUnit in {'P', 'Y', 'M', 'D'}
              && r.state.fields == Fields(Number(p.years), Number(p.months), Number(p.days), 0, 0, 0)
  {
    var s0 := State(ZERO, 0, 'P', 'P');
    var y, m, d := Part(p.years, 'Y'), Part(p.months, 'M'), Part(p.days, 'D');
    assert "P" + y + m + d == ['P'] + (y + m + d);
    RunMark(START, 'P', y + m + d);
    RunConcat(s0, y + m, d);
    RunConcat(s0, y, m);
    RunPart(s0, p.years, 'Y');
    var s1 := After(s0, p.years, 'Y');
    RunPart(s1, p.months, 'M');
    var s2 := After(s1, p.months, 'M');
    RunPart(s2, p.days, 'D');
  }

  lemma ReadTime(p: Written, st: State)
    requires WellWritten(p) && st.value == 0 && st.lastUnit in {'P', 'Y', 'M', 'D'}
    requires st.fields.hour == st.fields.min == st.fields.sec == 0
    ensures var r := Run(st, TimeText(p));
            r.Go? && r.state.fields == st.fields.(hour := Number(p.hours), min := Number(p.minutes), sec := Number(p.seconds))
  {
    if p.time {
      var s0 := State(st.fields, 0, 'T', 'T');
      var h, m, s := Part(p.hours, 'H'), Part(p.minutes, 'M'), Part(p.seconds, 'S');
      assert "T" + h + m + s == ['T'] + (h + m + s);
      RunMark(st, 'T', h + m + s);
      RunConcat(s0, h + m, s);
      RunConcat(s0, h, m);
      RunPart(s0, p.hours, 'H');
      var s1 := After(s0, p.hours, 'H');
      RunPart(s1, p.minutes, 'M');
      var s2 := After(s1, p.minutes, 'M');
      RunPart(s2, p.seconds, 'S');
    }
  }

  /** A duration written in the order of ISO 8601 is read back exactly when it
      does not give both months and days; M means months before T and minutes
      after it. */
  lemma ReadsBack(p: Written)
    requires WellWritten(p)
    ensures Run(START, Text(p)).Go? <==> p.months == "" || p.days == ""
    ensures p.months == "" || p.days == "" ==> Run(START, Text(p)).state.fields == Meaning(p)
  {
    RunConcat(START, DateText(p), TimeText(p));
    ReadDate(p);
    if p.months == "" || p.days == "" {
      ReadTime(p, Run(START, DateText(p)).state);
    }
  }

  /** Lower-case letters are read as the capitals 32 code points before them. */
  lemma {:induction false} CaseDoesNotMatter(st: State, s: string, t: string)
    requires |s| == |t|
    requires forall i :: 0 <= i < |s| ==>
               s[i] == t[i] || ('A' <= t[i] <= 'Z' && s[i] as int == t[i] as int + 32)
    ensures Run(st, s) == Run(st, t)
    decreases |s|
  {
    if s != "" {
      assert Step(st, s[0]) == Step(st, t[0]);
      if Step(st, s[0]).Go? {
        CaseDoesNotMatter(Step(st, s[0]).state, s[1..], t[1..]);
      }
    }
  }

  /** The same duration with any of its letters in lower case. */
  lemma ReadsBackAnyCase(p: Written, s: string)
    requires WellWritten(p) && |s| == |Text(p)|
    requires forall i :: 0 <= i < |s| ==>
               s[i] == Text(p)[i] || ('A' <= Text(p)[i] <= 'Z' && s[i] as int == Text(p)[i] as int + 32)
    ensures Run(START, s).Go? <==> p.months == "" || p.days == ""
    ensures p.months == "" || p.days == "" ==> Run(START, s).state.fields == Meaning(p)
  {
    CaseDoesNotMatter(START, s, Text(p));
    ReadsBack(p);
  }

  // ----- which texts are refused

  /** The last character before `n` that is no digit, or -1. */
  function LastMark(s: string, n: nat): (j: int)
    requires n <= |s|
    ensures -1 <= j < n && (j >= 0 ==> !Digit(s[j])) && forall k :: j < k < n ==> Digit(s[k])
  {
    if n == 0 then -1 else if Digit(s[n - 1]) then LastMark(s, n - 1) else n - 1
  }

  /** A letter, as a capital or not. */
  predicate Is(c: char, letter: char)
    requires 'A' <= letter <= 'Z'
  {
    c == letter || c as int == letter as int + 32
  }

  /** The character at `i` may come after the mark at `j`, or first if `j` is -1. */
  predicate MayFollow(s: string, j: int, i: nat)
    requires -1 <= j < i < |s|
  {
    var first, digits := j == -1 || s[j] == '/' || Is(s[j], 'P'), i > j + 1;
    if Is(s[i], 'Y') then digits && first
    else if Is(s[i], 'M') then
      digits && (first || Is(s[j], 'Y') || Is(s[j], 'T') || Is(s[j], 'H'))
    else if Is(s[i], 'D') then digits && (first || Is(s[j], 'Y'))
    else if Is(s[i], 'H') then digits && j >= 0 && Is(s[j], 'T')
    else if Is(s[i], 'S') then digits && j >= 0 && (Is(s[j], 'T') || Is(s[j], 'H') || Is(s[j], 'M'))
    else
      && (s[i] == '/' || Is(s[i], 'R') || Is(s[i], 'P') || Is(s[i], 'T'))
      && (first || Is(s[j], 'Y') || Is(s[j], 'M') || Is(s[j], 'D'))
  }

  /** The state after the first `n` characters, if they are accepted. */
  predicate StateAt(s: string, n: nat, st: State)
    requires n <= |s|
  {
    var j := LastMark(s, n);
    && (j == -1 ==> st.lastUnit == '\0') && (j >= 0 ==> st.lastUnit == Upper(s[j]) && s[j] != '\0')
    && (Digit(st.lastChar) <==> j < n - 1)
  }

  lemma BeforeIs(u: char, last: char)
    ensures var first := last == '\0' || last == '/' || last == 'P';
            last in Before(u) <==>
            if u == 'Y' then first
            else if u == 'M' then first || last == 'Y' || last == 'T' || last == 'H'
            else if u == 'D' then first || last == 'Y'
            else if u == 'H' then last == 'T'
            else if u == 'S' then last == 'T' || last == 'H' || last == 'M'
            else first || last == 'Y' || last == 'M' || last == 'D'
    ensures u in {'R', '/', 'P', 'T', 'Y', 'M', 'D', 'H', 'S'} <==>
            u in {'R', '/', 'P', 'T'} || u == 'Y' || u == 'M' || u == 'D' || u == 'H' || u == 'S'
    ensures u in {'R', '/', 'P', 'T'} <==> u == 'R' || u == '/' || u == 'P' || u == 'T'
  {
  }

  lemma CapitalsAre(c: char)
    ensures Is(c, 'Y') <==> Upper(c) == 'Y'
    ensures Is(c, 'M') <==> Upper(c) == 'M'
    ensures Is(c, 'D') <==> Upper(c) == 'D'
    ensures Is(c, 'H') <==> Upper(c) == 'H'
    ensures Is(c, 'S') <==> Upper(c) == 'S'
    ensures Is(c, 'R') <==> Upper(c) == 'R'
    ensures Is(c, 'P') <==> Upper(c) == 'P'
    ensures Is(c, 'T') <==> Upper(c) == 'T'
    ensures (c == '/' <==> Upper(c) == '/') && (c == '\0' <==> Upper(c) == '\0')
  {
  }

  lemma MarkStep(s: string, n: nat, st: State)
    requires n < |s| && StateAt(s, n, st)
    ensures Step(st, s[n]).Go? <==> Digit(s[n]) || MayFollow(s, LastMark(s, n), n)
  {
    hide Before, Is, Upper, Put, LastMark;
    var j := LastMark(s, n);
    BeforeIs(Upper(s[n]), st.lastUnit);
    CapitalsAre(s[n]);
    if j >= 0 {
      CapitalsAre(s[j]);
    }
  }

  lemma StateStep(s: string, n: nat, st: State)
    requires n < |s| && StateAt(s, n, st) && Step(st, s[n]).Go?
    ensures StateAt(s, n + 1, Step(st, s[n]).state)
  {
  }

  lemma StartState(s: string)
    ensures Run(START, s[..0]) == Go(START) && StateAt(s, 0, START)
  {
    assert s[..0] == "";
  }

  lemma {:induction false} AcceptedUpTo(s: string, n: nat)
    requires n <= |s|
    ensures Run(START, s[..n]).Go? <==> forall i :: 0 <= i < n && !Digit(s[i]) ==> MayFollow(s, LastMark(s, i), i)
    ensures Run(START, s[..n]).Go? ==> StateAt(s, n, Run(START, s[..n]).state)
  {
    hide *;
    if n == 0 {
      StartState(s);
    } else {
      var front := s[..n - 1];
      AcceptedUpTo(s, n - 1);
      assert s[..n] == front + [s[n - 1]];
      RunConcat(START, front, [s[n - 1]]);
      if Run(START, front).Go? {
        var st := Run(START, front).state;
        RunOne(st, s[n - 1]);
        MarkStep(s, n - 1, st);
        if Step(st, s[n - 1]).Go? {
          StateStep(s, n - 1, st);
        }
      }
    }
  }

  /** `i` is the next character after `j` that is no digit; -1 is before the text. */
  predicate NextMark(s: string, j: int, i: int) {
    && -1 <= j < i < |s| && !('0' <= s[i] <= '9') && (j >= 0 ==> !('0' <= s[j] <= '9'))
    && forall k :: j < k < i ==> '0' <= s[k] <= '9'
  }

  lemma LastIsNext(s: string, j: int, i: nat)
    requires i < |s| && !Digit(s[i])
    ensures NextMark(s, j, i) <==> j == LastMark(s, i)
  {
    var l := LastMark(s, i);
    if NextMark(s, j, i) {
      assert l < j ==> Digit(s[j]);
      assert j < l ==> Digit(s[l]);
    }
  }

  /** A text is accepted exactly if each of its characters that is no digit may come
      after the last such character before it: units want digits right before them and
      come in their order, months and days exclude each other, H, M for minutes and S
      want a T, and R, P, T and the slash come before the time part. */
  lemma AcceptedExactly(s: string)
    ensures Run(START, s).Go? <==> forall i, j :: NextMark(s, j, i) ==> MayFollow(s, j, i)
  {
    hide MayFollow, Run, NextMark, LastMark;
    AcceptedUpTo(s, |s|);
    assert s[..|s|] == s;
    forall i, j | 0 <= i < |s| && !Digit(s[i]) ensures NextMark(s, j, i) <==> j == LastMark(s, i) {
      LastIsNext(s, j, i);
    }
    forall i, j | NextMark(s, j, i) ensures 0 <= i < |s| && !Digit(s[i]) {
      MarkAt(s, j, i);
    }
  }

  lemma MarkAt(s: string, j: int, i: int)
    requires NextMark(s, j, i)
    ensures -1 <= j < i < |s| && !Digit(s[i])
  {
  }
}

/** What the first call of a reading gives, item by item, for longgetopt.c:25-134. */
module GetoptCalls {
  import opened Wrappers
  import opened Getopt
  import opened LongGetopt

  /** Every text splits in the way `LongCall` wants: at its first "=", without one
      at its first blank, without either at its first ":". */
  lemma SplitText(text: CString) returns (name: CString, sep: char, attached: Option<CString>)
    ensures text == match attached { case None => name case Some(a) => name + [sep] + a }
    ensures match attached {
              case None => '=' !in name && ' ' !in name && ':' !in name
              case Some(a) =>
                && sep !in name && (sep == '=' || sep == ' ' || sep == ':')
                && (sep != '=' ==> '=' !in name && '=' !in a) && (sep == ':' ==> ' ' !in name && ' ' !in a)
            }
  {
    var n := NameEnd(text);
    name, sep, attached := text[..n], '=', None;
    if n < |text| {
      sep, attached := text[n], Some(text[n + 1..]);
    }
  }

  lemma SplitIs(text: CString, name: CString, sep: char, attached: Option<CString>)
    requires text == match attached { case None => name case Some(a) => name + [sep] + a }
    requires match attached {
               case None => '=' !in name && ' ' !in name && ':' !in name
               case Some(a) =>
                 && sep !in name && (sep == '=' || sep == ' ' || sep == ':')
                 && (sep != '=' ==> '=' !in name && '=' !in a) && (sep == ':' ==> ' ' !in name && ' ' !in a)
             }
    ensures NameEnd(text) == |name| && text[..|name|] == name && Attached(text) == attached
  {
    if attached.Some? {
      assert text[|name|] == sep;
    }
  }

  /** The long option that an item names. */
  lemma NamedLong(options: Options, s: CString, name: CString, sep: char, attached: Option<CString>,
                  i: nat, next: Option<CString>)
    requires s == "--" + match attached { case None => name case Some(a) => name + [sep] + a }
    requires match attached {
               case None => '=' !in name && ' ' !in name && ':' !in name
               case Some(a) =>
                 && sep !in name && (sep == '=' || sep == ' ' || sep == ':')
                 && (sep != '=' ==> '=' !in name && '=' !in a) && (sep == ':' ==> ' ' !in name && ' ' !in a)
             }
    requires |s| > 2 && i <= |options.long| && (i < |options.long| ==> options.long[i].name == name)
    requires forall j :: 0 <= j < i ==> options.long[j].name != name
    ensures FirstOutcome(options, s, next) ==
            if i < |options.long| then FoundOutcome(options.long[i], attached, next)
            else if |name| == 1 then ShortOutcome(options, s, 2, attached, next)
            else Outcome(UNKNOWN, None, false, 0)
  {
    hide NameEnd, FoundOutcome, ShortOutcome, Attached;
    var text: CString := s[2..];
    assert text == match attached { case None => name case Some(a) => name + [sep] + a };
    SplitIs(text, name, sep, attached);
    FindLongIs(options.long, name, i);
  }

  /** `--name`, with what is attached to it: the first option of that name in the
      list is answered with its value, or with 0 when the value went to a flag. */
  lemma LongCall(options: Options, items: seq<CString>, name: CString, sep: char, attached: Option<CString>, i: nat)
    requires AllPlain(items) && items != []
    requires items[0] == "--" + match attached { case None => name case Some(a) => name + [sep] + a }
    requires match attached {
               case None => '=' !in name && ' ' !in name && ':' !in name
               case Some(a) =>
                 && sep !in name && (sep == '=' || sep == ' ' || sep == ':')
                 && (sep != '=' ==> '=' !in name && '=' !in a) && (sep == ':' ==> ' ' !in name && ' ' !in a)
             }
    requires i < |options.long| && options.long[i].name == name
    requires forall j :: 0 <= j < i ==> options.long[j].name != name
    ensures var o, rest := options.long[i], items[1..];
            var value := if o.hasFlag then 0 else o.val;
            var used := o.argument.REQUIRED_ARGUMENT? && attached.None? && rest != [];
            var call := match o.argument {
              case NO_ARGUMENT => Call(if attached.Some? then 63 else value, Some(Report(o.val, attached)))
              case REQUIRED_ARGUMENT =>
                if attached.Some? then Call(value, Some(Report(o.val, attached)))
                else if used then Call(value, Some(Report(o.val, Some(rest[0]))))
                else Call(63, Some(Report(o.val, None)))
              case OPTIONAL_ARGUMENT => Call(value, Some(Report(o.val, attached)))
            };
            var n := Read(options, if used then rest[1..] else rest);
            Read(options, items) ==
            Reading((if used then items[..2] else items[..1]) + n.taken, n.skipped, [call] + n.calls)
  {
    hide Read, Within, FirstOutcome;
    var s, rest := items[0], items[1..];
    NamedLong(options, s, name, sep, attached, i, First(rest));
    ItemAhead(options, items);
    WithinNothing(options, s, rest);
    assert items[..1] == [s];
    assert rest != [] ==> items[..2] == [s] + [rest[0]];
  }

  /** A name that is not listed; a single letter is looked for among the letters,
      see `LetterCall`. */
  lemma UnlistedLong(options: Options, items: seq<CString>, name: CString, sep: char, attached: Option<CString>)
    requires AllPlain(items) && items != [] && |name| != 1
    requires items[0] == "--" + match attached { case None => name case Some(a) => name + [sep] + a }
    requires match attached {
               case None => '=' !in name && ' ' !in name && ':' !in name
               case Some(a) =>
                 && sep !in name && (sep == '=' || sep == ' ' || sep == ':')
                 && (sep != '=' ==> '=' !in name && '=' !in a) && (sep == ':' ==> ' ' !in name && ' ' !in a)
             }
    requires forall o :: o in options.long ==> o.name != name
    ensures var n := Read(options, items[1..]);
            Read(options, items) == Reading(items[..1] + n.taken, n.skipped, [Call(63, None)] + n.calls)
  {
    hide Read, Within, FirstOutcome;
    var s, rest := items[0], items[1..];
    NamedLong(options, s, name, sep, attached, |options.long|, First(rest));
    ItemAhead(options, items);
    WithinNothing(options, s, rest);
    assert items[..1] == [s];
  }

  /** Where a letter comes up: at position 1 of an item with one dash, at position 2
      of an item with two dashes whose name is that unlisted letter, or, when `going`,
      after another letter. */
  ghost predicate LetterAt(options: Options, s: CString, pos: nat, attached: Option<CString>, going: bool) {
    && pos < |s|
    && if going then pos >= 2 && attached == None
       else if pos == 1 then s[0] == '-' && s[1] != '-' && attached == None
       else
         && pos == 2 && s[..2] == "--" && (forall o :: o in options.long ==> o.name != s[2..3])
         && match attached {
              case None => s == "--" + [s[2]] && s[2] != '=' && s[2] != ' ' && s[2] != ':'
              case Some(a) =>
                && |s| > 3 && s == "--" + [s[2], s[3]] + a && s[2] != s[3]
                && (s[3] == '=' || (s[3] == ' ' && s[2] != '=' && '=' !in a)
                    || (s[3] == ':' && s[2] != '=' && s[2] != ' ' && '=' !in a && ' ' !in a))
            }
  }

  lemma LetterMatched(options: Options, s: CString, pos: nat, rest: seq<CString>, attached: Option<CString>,
                      going: bool)
    requires AllPlain([s] + rest) && AllPlain(rest) && LetterAt(options, s, pos, attached, going)
    ensures var o := ShortOutcome(options, s, pos, attached, First(rest));
            && (o.takesNext ==> rest != [])
            && (if going then Within(options, s, pos - 1, rest) else Read(options, [s] + rest)) ==
               MatchedReading(options, s, o, if going then [] else [s], rest)
  {
    hide Read, Within, ShortOutcome, LongOutcome;
    if going {
      LetterAhead(options, s, pos - 1, rest);
    } else {
      ItemAhead(options, [s] + rest);
      assert ([s] + rest)[1..] == rest;
      if pos == 2 {
        NamedLong(options, s, [s[2]], if attached.Some? then s[3] else '=', attached, |options.long|, First(rest));
      }
    }
  }

  /** A letter that is not listed, or listed without an argument; `k` is where it
      is first listed.  The answer is the letter or "?". */
  lemma LetterCall(options: Options, s: CString, pos: nat, rest: seq<CString>, attached: Option<CString>,
                   going: bool, k: nat)
    requires AllPlain([s] + rest) && AllPlain(rest) && LetterAt(options, s, pos, attached, going)
    requires k <= |options.short| && s[pos] !in options.short[..k]
    requires k < |options.short| ==> options.short[k] == s[pos]
    ensures var c, tail := s[pos], s[pos + 1..];
            var listed := k < |options.short| && '!' <= c <= '~' && c != ':' && c != '+' && c != '-' && c != ';';
            var r := if going then Within(options, s, pos - 1, rest) else Read(options, [s] + rest);
            var own, on := if going then [] else [s], Within(options, s, pos, rest);
            && (!listed ==>
                  r == Reading(own + on.taken, on.skipped, [Call(63, Some(Report(63, attached)))] + on.calls))
            && (listed && !(k + 1 < |options.short| && options.short[k + 1] == ':') ==>
                  r == Reading(own + on.taken, on.skipped,
                               [if tail != [] && (tail[0] == '=' || tail[0] == ' ')
                                then Call(63, Some(Report(c as int, Some(tail[1..]))))
                                else Call(c as int, Some(Report(c as int, None)))] + on.calls))
  {
    hide Read, Within;
    LetterMatched(options, s, pos, rest, attached, going);
    FindIs(options.short, s[pos], k);
  }

  lemma ArgumentOutcome(options: Options, s: CString, pos: nat, attached: Option<CString>, next: Option<CString>,
                        k: nat)
    requires 0 < pos < |s| && k + 1 < |options.short| && s[pos] !in options.short[..k] && options.short[k] == s[pos]
    requires '!' <= s[pos] <= '~' && s[pos] != ':' && s[pos] != '+' && s[pos] != '-' && s[pos] != ';'
    requires options.short[k + 1] == ':'
    ensures var c, tail := s[pos] as int, s[pos + 1..];
            var optional := k + 2 < |options.short| && options.short[k + 2] == ':';
            ShortOutcome(options, s, pos, attached, next) ==
            if tail == [] then
              if optional then Outcome(c, Some(Report(c, None)), false, |s| - 1)
              else if next.Some? then Outcome(c, Some(Report(c, next)), true, 0)
              else Outcome(UNKNOWN, Some(Report(c, None)), false, |s| - 1)
            else if tail[0] == '=' || tail[0] == ' ' || tail[0] == ':' then
              Outcome(c, Some(Report(c, Some(tail[1..]))), false, |s| - 1)
            else Outcome(c, Some(Report(c, Some(tail))), false, |s| - 1)
  {
    FindIs(options.short, s[pos], k);
    assert pos + 1 < |s| ==> s[pos + 1..][1..] == s[pos + 2..];
    assert s[pos] in options.short;
  }

  /** A letter listed with an argument, which may be left out when there are two
      colons.  What is reported is the rest of the item, without a separator, or the
      next item. */
  lemma LetterArgument(options: Options, s: CString, pos: nat, rest: seq<CString>, attached: Option<CString>,
                       going: bool, k: nat)
    requires AllPlain([s] + rest) && AllPlain(rest) && LetterAt(options, s, pos, attached, going)
    requires k + 1 < |options.short| && s[pos] !in options.short[..k] && options.short[k] == s[pos]
    requires '!' <= s[pos] <= '~' && s[pos] != ':' && s[pos] != '+' && s[pos] != '-' && s[pos] != ';'
    requires options.short[k + 1] == ':'
    ensures var c, tail := s[pos], s[pos + 1..];
            var optional := k + 2 < |options.short| && options.short[k + 2] == ':';
            var r := if going then Within(options, s, pos - 1, rest) else Read(options, [s] + rest);
            var own, all := if going then [] else [s], Read(options, rest);
            if tail == [] && !optional && rest != [] then
              var next := Read(options, rest[1..]);
              r == Reading(own + [rest[0]] + next.taken, next.skipped,
                           [Call(c as int, Some(Report(c as int, Some(rest[0]))))] + next.calls)
            else
              r == Reading(own + all.taken, all.skipped,
                           [if tail == [] then Call(if optional then c as int else 63, Some(Report(c as int, None)))
                            else if tail[0] == '=' || tail[0] == ' ' || tail[0] == ':' then
                              Call(c as int, Some(Report(c as int, Some(tail[1..]))))
                            else Call(c as int, Some(Report(c as int, Some(tail))))] + all.calls)
  {
    hide Read, Within, ShortOutcome, LetterAt;
    LetterMatched(options, s, pos, rest, attached, going);
    LetterPlace(options, s, pos, attached, going);
    ArgumentOutcome(options, s, pos, attached, First(rest), k);
    EndAhead(options, s, |s| - 1, rest);
  }

  lemma LetterPlace(options: Options, s: CString, pos: nat, attached: Option<CString>, going: bool)
    requires LetterAt(options, s, pos, attached, going)
    ensures 0 < pos < |s|
  {
  }

  /** An item without a dash is passed over, or ends the reading. */
  lemma OperandCall(options: Options, items: seq<CString>)
    requires AllPlain(items) && items != [] && (items[0] == "" || items[0][0] != '-')
    ensures var n := Read(options, items[1..]);
            Read(options, items) ==
            if options.permute then Reading(n.taken, items[..1] + n.skipped, n.calls) else Reading([], items, [])
  {
    hide Within;
    assert items[..1] == [items[0]];
  }
}

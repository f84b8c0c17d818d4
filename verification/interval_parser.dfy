/** The interval-list reader of PGUPV/src/intervals.cpp: readIntervalsFromString
    parses text such as "1,3,5-9" with a three-state machine over the tokens
    of a Tokenizer that splits at ',' and '-' and keeps empty tokens, and
    readIntervalsFromCommandLine first re-joins a "{...}" span that the shell
    split over several arguments. */
module IntervalParser {
  import opened Wrappers
  import opened Intervals
  import opened Tokenizing

  // ---------------------------------------------------------------------
  // std::stoi, abstracted: leading white space, an optional sign and a run
  // of decimal digits, in `int` range; any trailing text is ignored.

  const INT_MAX: int := 0x7FFF_FFFF
  const INT_MIN: int := -0x8000_0000

  predicate IsDigit(c: char) {
    '0' <= c <= '9'
  }

  predicate IsSpace(c: char) {
    c == ' ' || c == '\t' || c == '\n' || c == '\U{000B}' || c == '\U{000C}' || c == '\r'
  }

  function SkipSpaces(t: string): (r: string)
    ensures |r| <= |t| && r == t[|t| - |r|..]
    ensures r != [] ==> !IsSpace(r[0])
    decreases |t|
  {
    if t != [] && IsSpace(t[0]) then SkipSpaces(t[1..]) else t
  }

  /** Length of the leading run of digits. */
  function DigitPrefix(t: string): (n: nat)
    ensures n <= |t|
    ensures forall k :: 0 <= k < n ==> IsDigit(t[k])
    ensures n < |t| ==> !IsDigit(t[n])
    decreases |t|
  {
    if t != [] && IsDigit(t[0]) then 1 + DigitPrefix(t[1..]) else 0
  }

  predicate AllDigits(ds: string) {
    forall k :: 0 <= k < |ds| ==> IsDigit(ds[k])
  }

  function DigitsValue(ds: string): nat
    requires AllDigits(ds)
    decreases |ds|
  {
    if ds == [] then 0
    else DigitsValue(ds[..|ds| - 1]) * 10 + (ds[|ds| - 1] as int - '0' as int)
  }

  function Stoi(t: string): (r: Option<int>)
    ensures r.Some? ==> INT_MIN <= r.value <= INT_MAX
  {
    var u := SkipSpaces(t);
    var signed := |u| > 0 && (u[0] == '+' || u[0] == '-');
    var body := if signed then u[1..] else u;
    var n := DigitPrefix(body);
    if n == 0 then None
    else
      var mag := DigitsValue(body[..n]);
      var v: int := if signed && u[0] == '-' then 0 - mag else mag;
      if INT_MIN <= v <= INT_MAX then Some(v) else None
  }

  /** The decimal text of n, without sign or leading zeros. */
  function Decimal(n: nat): (r: string)
    ensures |r| >= 1 && AllDigits(r)
  {
    if n < 10 then [(48 + n) as char] else Decimal(n / 10) + [(48 + n % 10) as char]
  }

  lemma {:induction false} DecimalValue(n: nat)
    ensures DigitsValue(Decimal(n)) == n
  {
    if n >= 10 {
      DecimalValue(n / 10);
      var d := Decimal(n);
      assert d[..|d| - 1] == Decimal(n / 10);
    }
  }

  /** stoi reads back the decimal text of every non-negative int. */
  lemma StoiDecimal(n: nat)
    requires n <= INT_MAX
    ensures Stoi(Decimal(n)) == Some(n)
  {
    DecimalValue(n);
    StoiOfDigits(Decimal(n));
  }

  /** A plain run of digits reads as its value. */
  lemma StoiOfDigits(ds: string)
    requires ds != [] && AllDigits(ds) && DigitsValue(ds) <= INT_MAX
    ensures Stoi(ds) == Some(DigitsValue(ds))
  {
    NoLeadingSpace(ds);
    DigitPrefixAll(ds);
    StoiPlain(ds);
  }

  lemma NoLeadingSpace(ds: string)
    requires ds != [] && AllDigits(ds)
    ensures SkipSpaces(ds) == ds
  {
    assert IsDigit(ds[0]);
  }

  lemma StoiPlain(ds: string)
    requires ds != [] && AllDigits(ds) && DigitsValue(ds) <= INT_MAX
    requires DigitPrefix(ds) == |ds| && SkipSpaces(ds) == ds
    ensures Stoi(ds) == Some(DigitsValue(ds))
  {
    assert ds[..|ds|] == ds;
  }

  lemma {:induction false} DigitPrefixAll(ds: string)
    requires AllDigits(ds)
    ensures DigitPrefix(ds) == |ds|
    decreases |ds|
  {
    if ds != [] {
      assert IsDigit(ds[0]);
      assert AllDigits(ds[1..]) by {
        forall k | 0 <= k < |ds| - 1 ensures IsDigit(ds[1..][k]) {
          assert ds[1..][k] == ds[k + 1];
        }
      }
      DigitPrefixAll(ds[1..]);
    }
  }

  /** Text without any digit is rejected. */
  lemma StoiNeedsDigits(t: string)
    requires forall k :: 0 <= k < |t| ==> !IsDigit(t[k])
    ensures Stoi(t) == None
  {
    var u := SkipSpaces(t);
    assert forall k :: 0 <= k < |u| ==> u[k] == t[|t| - |u| + k];
  }

  /** stoi stops at the first non-digit: "3a" reads as 3. */
  lemma StoiIgnoresTrailing()
    ensures Stoi("3a") == Some(3)
  {
    var t := "3a";
    assert SkipSpaces(t) == t;
    assert DigitPrefix(t[1..]) == 0;
    assert DigitPrefix(t) == 1;
    assert t[..1] == "3";
    assert DigitsValue("3") == 3 by {
      assert "3"[..0] == "";
    }
  }

  /** Neither separator, nor the empty token, reads as a number. */
  lemma SeparatorsAreNotNumbers()
    ensures Stoi(",") == None && Stoi("-") == None && Stoi("") == None
  {
    assert |","| == 1 && !IsDigit(","[0]);
    StoiNeedsDigits(",");
    assert |"-"| == 1 && !IsDigit("-"[0]);
    StoiNeedsDigits("-");
    StoiNeedsDigits("");
  }

  // ---------------------------------------------------------------------
  // The parser as a fold over the token sequence.

  datatype ParseState = Init | ReadStart(start: int) | ReadEnd(from: int)

  /** The thrown messages: "No se esperaba <token>", "Rango sin acabar",
      and the two brace errors of the command-line reader. */
  datatype ParseError =
    | NotExpected(token: string)
    | Unfinished
    | ExpectedOpenBrace(arg: string)
    | ExpectedCloseBrace

  /** The machine's state and the ranges it has passed to addInterval so
      far, in order. */
  datatype Config = Config(state: ParseState, commits: seq<Interval>)

  /** An `int` passed where a `ulong` is expected: taken modulo 2^64. */
  function ToULong(v: int): ULong {
    v % ULONG_LIMIT
  }

  lemma ToULongSmall(v: int)
    requires 0 <= v <= INT_MAX
    ensures ToULong(v) == v
  {
  }

  /** One pass of the switch on the state: it raises only "No se esperaba"
      with the token, and commits at most one range. */
  function StepToken(t: string, c: Config): (r: Result<Config, ParseError>)
    ensures r.Failure? ==> r.error == NotExpected(t)
    ensures r.Success? ==> c.commits <= r.value.commits && |r.value.commits| <= |c.commits| + 1
  {
    match c.state
    case Init =>
      if t == "," || t == "" then Success(c)
      else (
        match Stoi(t)
        case None => Failure(NotExpected(t))
        case Some(v) => Success(Config(ReadStart(v), c.commits)))
    case ReadStart(a) =>
      if t == "," then Success(Config(Init, c.commits + [Interval(ToULong(a), ToULong(a))]))
      else if t == "-" then Success(Config(ReadEnd(a), c.commits))
      else Failure(NotExpected(t))
    case ReadEnd(a) =>
      match Stoi(t)
      case None => Failure(NotExpected(t))
      case Some(b) => Success(Config(Init, c.commits + [Interval(ToULong(a), ToULong(b))]))
  }

  /** The loop over the tokens: ranges committed stay committed, and the
      only error is "No se esperaba" with a token of the input. */
  function Steps(ts: seq<string>, c: Config): (r: Result<Config, ParseError>)
    ensures r.Success? ==> c.commits <= r.value.commits && |r.value.commits| <= |c.commits| + |ts|
    ensures r.Failure? ==> r.error.NotExpected? && r.error.token in ts
    decreases |ts|
  {
    if ts == [] then Success(c)
    else
      match StepToken(ts[0], c)
      case Failure(e) => Failure(e)
      case Success(c') => Steps(ts[1..], c')
  }

  /** The checks after the loop: only READ_END fails, with "Rango sin
      acabar"; READ_START commits its single value. */
  function Finish(c: Config): (r: Result<seq<Interval>, ParseError>)
    ensures r.Failure? <==> c.state.ReadEnd?
    ensures r.Failure? ==> r.error == Unfinished
    ensures r.Success? ==> c.commits <= r.value && |r.value| <= |c.commits| + 1
  {
    match c.state
    case Init => Success(c.commits)
    case ReadStart(a) => Success(c.commits + [Interval(ToULong(a), ToULong(a))])
    case ReadEnd(_) => Failure(Unfinished)
  }

  function Resume(ts: seq<string>, c: Config): Result<seq<Interval>, ParseError> {
    match Steps(ts, c)
    case Failure(e) => Failure(e)
    case Success(c') => Finish(c')
  }

  const SEPARATORS: string := ",-"

  /** readIntervalsFromString as written: the ranges it adds, in order (the
      resulting set is AddedAll([], ranges)). Its tokenizer keeps empty
      tokens. */
  function ParseIntervals(s: string): (r: Result<seq<Interval>, ParseError>)
    ensures r.Failure? ==>
      r.error == Unfinished ||
      (r.error.NotExpected? && r.error.token in Tokens(s, SEPARATORS, At(0), true))
  {
    Resume(Tokens(s, SEPARATORS, At(0), true), Config(Init, []))
  }

  /** The reader as evidently intended: empty tokens dropped, so that a
      trailing '-' reaches the "Rango sin acabar" check. */
  function ParseIntervalsFixed(s: string): Result<seq<Interval>, ParseError> {
    Resume(Tokens(s, SEPARATORS, At(0), false), Config(Init, []))
  }

  method ReadIntervalsFromString(str: string) returns (r: Result<IntervalSet, ParseError>)
    ensures r.Success? ==> fresh(r.value) && ParseIntervals(str).Success?
    ensures r.Success? ==> r.value.intervals == AddedAll([], ParseIntervals(str).value)
    ensures r.Failure? ==> ParseIntervals(str) == Failure(r.error)
  {
    var result := new IntervalSet();
    var tokenizer := new Tokenizer(str, SEPARATORS, true);
    var state := Init;
    ghost var commits: seq<Interval> := [];
    while true
      invariant fresh(result) && fresh(tokenizer)
      invariant tokenizer.Valid() && tokenizer.str == str && tokenizer.sep == SEPARATORS && tokenizer.keepEmpty
      invariant ParseIntervals(str) == Resume(tokenizer.Pending(), Config(state, commits))
      invariant result.intervals == AddedAll([], commits)
      decreases |tokenizer.Pending()|
    {
      var ok, token := tokenizer.Next();
      if !ok {
        break;
      }
      match state {
        case Init =>
          if token == "," || token == "" {
            continue;
          }
          var v := Stoi(token);
          if v.None? {
            return Failure(NotExpected(token));
          }
          state := ReadStart(v.value);
        case ReadStart(a) =>
          if token == "," {
            AddedAllSnoc([], commits, Interval(ToULong(a), ToULong(a)));
            result.AddInterval(ToULong(a), ToULong(a));
            commits := commits + [Interval(ToULong(a), ToULong(a))];
            state := Init;
          } else if token == "-" {
            state := ReadEnd(a);
          } else {
            return Failure(NotExpected(token));
          }
        case ReadEnd(a) =>
          var v := Stoi(token);
          if v.None? {
            return Failure(NotExpected(token));
          }
          AddedAllSnoc([], commits, Interval(ToULong(a), ToULong(v.value)));
          result.AddInterval(ToULong(a), ToULong(v.value));
          commits := commits + [Interval(ToULong(a), ToULong(v.value))];
          state := Init;
      }
    }
    if state.ReadStart? {
      AddedAllSnoc([], commits, Interval(ToULong(state.start), ToULong(state.start)));
      result.AddInterval(ToULong(state.start), ToULong(state.start));
    }
    if state.ReadEnd? {
      return Failure(Unfinished);
    }
    return Success(result);
  }

  // ---------------------------------------------------------------------
  // What the reader accepts.

  /** One entry of a list: a single number or a range "lo-hi". */
  datatype Item = Single(n: nat) | Range(lo: nat, hi: nat)

  predicate ItemInRange(it: Item) {
    match it
    case Single(n) => n <= INT_MAX
    case Range(lo, hi) => lo <= INT_MAX && hi <= INT_MAX
  }

  function ItemText(it: Item): string {
    match it
    case Single(n) => Decimal(n)
    case Range(lo, hi) => Decimal(lo) + "-" + Decimal(hi)
  }

  /** Entries written out and separated by ','. */
  function Render(items: seq<Item>): string
    requires |items| >= 1
    decreases |items|
  {
    if |items| == 1 then ItemText(items[0]) else ItemText(items[0]) + "," + Render(items[1..])
  }

  function ItemInterval(it: Item): Interval
    requires ItemInRange(it)
  {
    match it
    case Single(n) => Interval(n, n)
    case Range(lo, hi) => Interval(lo, hi)
  }

  function ItemIntervals(items: seq<Item>): seq<Interval>
    requires forall k :: 0 <= k < |items| ==> ItemInRange(items[k])
    decreases |items|
  {
    if items == [] then [] else [ItemInterval(items[0])] + ItemIntervals(items[1..])
  }

  function ItemTokens(it: Item): seq<string> {
    match it
    case Single(n) => [Decimal(n)]
    case Range(lo, hi) => [Decimal(lo), "-", Decimal(hi)]
  }

  function RenderTokens(items: seq<Item>): seq<string>
    requires |items| >= 1
    decreases |items|
  {
    if |items| == 1 then ItemTokens(items[0]) else ItemTokens(items[0]) + [","] + RenderTokens(items[1..])
  }

  lemma DecimalIsRun(n: nat)
    ensures Run(Decimal(n), SEPARATORS)
  {
    var d := Decimal(n);
    forall k | 0 <= k < |d| ensures d[k] !in SEPARATORS {
      assert IsDigit(d[k]);
    }
  }

  lemma TokensOfItem(it: Item)
    ensures Tokens(ItemText(it), SEPARATORS, At(0), true) == ItemTokens(it)
  {
    match it
    case Single(n) =>
      DecimalIsRun(n);
      TokensOfRun(Decimal(n), SEPARATORS);
    case Range(lo, hi) =>
      DecimalIsRun(lo);
      DecimalIsRun(hi);
      TokensOfRun(Decimal(hi), SEPARATORS);
      TokensCons(Decimal(lo), '-', Decimal(hi), SEPARATORS);
      assert ItemText(it) == Decimal(lo) + ['-'] + Decimal(hi);
  }

  lemma TokensOfItemThen(it: Item, rest: string)
    ensures Tokens(ItemText(it) + "," + rest, SEPARATORS, At(0), true)
         == ItemTokens(it) + [","] + Tokens(rest, SEPARATORS, At(0), true)
  {
    match it
    case Single(n) =>
      TokensOfSingleThen(n, rest);
    case Range(lo, hi) =>
      TokensOfRangeThen(lo, hi, rest);
  }

  lemma TokensOfSingleThen(n: nat, rest: string)
    ensures Tokens(Decimal(n) + "," + rest, SEPARATORS, At(0), true)
         == [Decimal(n)] + [","] + Tokens(rest, SEPARATORS, At(0), true)
  {
      TokensOfNumberThen(n, ',', rest);
  }

  lemma TokensOfRangeThen(lo: nat, hi: nat, rest: string)
    ensures Tokens(Decimal(lo) + "-" + Decimal(hi) + "," + rest, SEPARATORS, At(0), true)
         == [Decimal(lo), "-", Decimal(hi)] + [","] + Tokens(rest, SEPARATORS, At(0), true)
  {
    DecimalIsRun(lo);
    DecimalIsRun(hi);
    TokensOfRunsThen(Decimal(lo), Decimal(hi), rest);
  }

  lemma TokensOfRunsThen(x: string, y: string, rest: string)
    requires x != [] && y != [] && Run(x, SEPARATORS) && Run(y, SEPARATORS)
    ensures Tokens(x + "-" + y + "," + rest, SEPARATORS, At(0), true)
         == [x, "-", y] + [","] + Tokens(rest, SEPARATORS, At(0), true)
  {
    TokensCons(y, ',', rest, SEPARATORS);
    TokensCons(x, '-', y + [','] + rest, SEPARATORS);
    Regroup(x, '-', y, ',', rest);
    Regroup2(x, "-", y, ",", Tokens(rest, SEPARATORS, At(0), true));
  }

  lemma RightUnit<T>(t: seq<T>, e: seq<T>)
    requires e == []
    ensures t + e == t
  {
  }

  lemma Assoc<T>(a: seq<T>, b: seq<T>, c: seq<T>)
    ensures a + b + c == a + (b + c)
  {
  }

  lemma LeftUnit<T>(e: seq<T>, t: seq<T>)
    requires e == []
    ensures e + t == t
  {
  }

  lemma Regroup3<T>(a: T, b: T, c: T, more: seq<T>)
    ensures [a, b, c] + more == [a] + ([b] + ([c] + more))
  {
  }

  lemma Regroup<T>(x: seq<T>, c: T, y: seq<T>, d: T, rest: seq<T>)
    ensures x + [c] + y + [d] + rest == x + [c] + (y + [d] + rest)
  {
  }

  lemma Regroup2<T>(a: T, b: T, c: T, d: T, t: seq<T>)
    ensures [a, b] + ([c, d] + t) == [a, b, c] + [d] + t
  {
  }

  lemma TokensOfNumberThen(n: nat, c: char, rest: string)
    requires c in SEPARATORS
    ensures Tokens(Decimal(n) + [c] + rest, SEPARATORS, At(0), true)
         == [Decimal(n), [c]] + Tokens(rest, SEPARATORS, At(0), true)
  {
    DecimalIsRun(n);
    TokensCons(Decimal(n), c, rest, SEPARATORS);
  }

  lemma {:induction false} TokensOfRender(items: seq<Item>)
    requires |items| >= 1
    ensures Tokens(Render(items), SEPARATORS, At(0), true) == RenderTokens(items)
    decreases |items|
  {
    if |items| == 1 {
      TokensOfItem(items[0]);
    } else {
      TokensOfRender(items[1..]);
      TokensOfItemThen(items[0], Render(items[1..]));
    }
  }

  lemma DecimalNotSeparator(n: nat)
    ensures Decimal(n) != "," && Decimal(n) != "-" && Decimal(n) != ""
  {
    assert IsDigit(Decimal(n)[0]);
  }

  /** The machine consumes the first token first. */
  lemma StepsCons(t: string, more: seq<string>, c: Config)
    ensures StepToken(t, c).Failure? ==> Steps([t] + more, c) == Failure(StepToken(t, c).error)
    ensures StepToken(t, c).Success? ==> Steps([t] + more, c) == Steps(more, StepToken(t, c).value)
  {
    assert ([t] + more)[0] == t;
    assert ([t] + more)[1..] == more;
  }

  /** In INIT a number starts a range. */
  lemma StepNumber(n: nat, c: seq<Interval>)
    requires n <= INT_MAX
    ensures StepToken(Decimal(n), Config(Init, c)) == Success(Config(ReadStart(n), c))
  {
    StoiDecimal(n);
    DecimalNotSeparator(n);
  }

  /** In READ_END a number closes the range. */
  lemma StepRangeEnd(a: nat, n: nat, c: seq<Interval>)
    requires a <= INT_MAX && n <= INT_MAX
    ensures StepToken(Decimal(n), Config(ReadEnd(a), c)) == Success(Config(Init, c + [Interval(a, n)]))
  {
    StoiDecimal(n);
    ToULongSmall(a);
    ToULongSmall(n);
  }

  /** The state an entry leaves the machine in, with the ranges committed. */
  function AfterItem(it: Item, c: seq<Interval>): Config
    requires ItemInRange(it)
  {
    if it.Single? then Config(ReadStart(it.n), c) else Config(Init, c + [ItemInterval(it)])
  }

  /** The tokens of one entry, from INIT, commit its range. */
  lemma StepsItem(it: Item, more: seq<string>, c: seq<Interval>)
    requires ItemInRange(it)
    ensures Steps(ItemTokens(it) + more, Config(Init, c)) == Steps(more, AfterItem(it, c))
  {
    match it
    case Single(n) =>
      StepNumber(n, c);
      StepsCons(Decimal(n), more, Config(Init, c));
    case Range(lo, hi) =>
      StepNumber(lo, c);
      StepRangeEnd(lo, hi, c);
      StepsCons(Decimal(hi), more, Config(ReadEnd(lo), c));
      StepsCons("-", [Decimal(hi)] + more, Config(ReadStart(lo), c));
      StepsCons(Decimal(lo), ["-"] + ([Decimal(hi)] + more), Config(Init, c));
      Regroup3(Decimal(lo), "-", Decimal(hi), more);
  }

  /** After an entry, "," or the end of the tokens commits a pending single number. */
  lemma ResumeAfterItem(it: Item, c: seq<Interval>, more: seq<string>)
    requires ItemInRange(it)
    ensures Finish(AfterItem(it, c)) == Success(c + [ItemInterval(it)])
    ensures Steps([","] + more, AfterItem(it, c)) == Steps(more, Config(Init, c + [ItemInterval(it)]))
  {
    StepsCons(",", more, AfterItem(it, c));
    if it.Single? {
      ToULongSmall(it.n);
    }
  }

  lemma {:induction false} ResumeRender(items: seq<Item>, c: seq<Interval>)
    requires |items| >= 1
    requires forall k :: 0 <= k < |items| ==> ItemInRange(items[k])
    ensures Resume(RenderTokens(items), Config(Init, c)) == Success(c + ItemIntervals(items))
    decreases |items|
  {
    var it := items[0];
    assert ItemInRange(it);
    assert ItemIntervals(items) == [ItemInterval(it)] + ItemIntervals(items[1..]);
    if |items| == 1 {
      assert items[1..] == [];
      RightUnit(ItemTokens(it), []);
      StepsItem(it, [], c);
      ResumeAfterItem(it, c, []);
      RightUnit([ItemInterval(it)], ItemIntervals(items[1..]));
    } else {
      var more := RenderTokens(items[1..]);
      Assoc(ItemTokens(it), [","], more);
      StepsItem(it, [","] + more, c);
      ResumeAfterItem(it, c, more);
      ResumeRender(items[1..], c + [ItemInterval(it)]);
      Assoc(c, [ItemInterval(it)], ItemIntervals(items[1..]));
    }
  }

  /** Every comma-separated list of numbers and ranges is accepted, and its
      entries are added in order; "n-m" is added as [n, m] even when n > m. */
  lemma RenderAccepted(items: seq<Item>)
    requires |items| >= 1
    requires forall k :: 0 <= k < |items| ==> ItemInRange(items[k])
    ensures ParseIntervals(Render(items)) == Success(ItemIntervals(items))
  {
    TokensOfRender(items);
    ResumeRender(items, []);
    LeftUnit([], ItemIntervals(items));
  }

  lemma RenderNineFive()
    ensures Render([Range(9, 5)]) == "9-5"
    ensures ItemIntervals([Range(9, 5)]) == [Interval(9, 5)]
  {
    assert Decimal(9) == "9" && Decimal(5) == "5";
    assert [Range(9, 5)][1..] == [];
  }

  /** "9-5" adds the reversed range [9, 5]. */
  lemma ReversedRangeKept()
    ensures ParseIntervals("9-5") == Success([Interval(9, 5)])
  {
    RenderAccepted([Range(9, 5)]);
    RenderNineFive();
  }

  lemma TokensLetterDash()
    ensures Tokens("a-3", SEPARATORS, At(0), true) == ["a", "-"] + Tokens("3", SEPARATORS, At(0), true)
  {
    assert Run("a", SEPARATORS);
    TokensCons("a", '-', "3", SEPARATORS);
    assert "a-3" == "a" + ['-'] + "3";
  }

  /** "a-3" stops at "a": "No se esperaba a". */
  lemma LetterRejected()
    ensures ParseIntervals("a-3") == Failure(NotExpected("a"))
  {
    TokensLetterDash();
    StoiNeedsDigits("a");
    var ts := Tokens("a-3", SEPARATORS, At(0), true);
    assert ts[0] == "a";
    assert StepToken("a", Config(Init, [])) == Failure(NotExpected("a"));
  }

  /** The empty text adds nothing. */
  lemma EmptyAccepted()
    ensures ParseIntervals("") == Success([])
  {
    assert Run("", SEPARATORS);
    TokensOfRun("", SEPARATORS);
    assert [""][1..] == [];
  }

  // ---------------------------------------------------------------------
  // The unreachable "Rango sin acabar".

  lemma {:induction false} StepsSnoc(ts: seq<string>, t: string, c: Config)
    ensures Steps(ts + [t], c) ==
      match Steps(ts, c)
      case Failure(e) => Failure(e)
      case Success(c') => StepToken(t, c')
    decreases |ts|
  {
    if ts == [] {
      assert [] + [t] == [t];
    } else {
      assert (ts + [t])[0] == ts[0];
      assert (ts + [t])[1..] == ts[1..] + [t];
      match StepToken(ts[0], c)
      case Failure(e) =>
      case Success(c') =>
        StepsSnoc(ts[1..], t, c');
    }
  }

  lemma StepsFromInit(ts: seq<string>)
    requires ts == []
    ensures Steps(ts, Config(Init, [])) == Success(Config(Init, []))
  {
  }

  /** Only the token "-" leads into READ_END. */
  lemma ReadEndOnlyAfterDash(t: string, c: Config)
    ensures StepToken(t, c).Success? && StepToken(t, c).value.state.ReadEnd? ==> t == "-"
  {
  }

  /** A token list whose last token is not "-" never ends in READ_END. */
  lemma ResumeNotUnfinished(ts: seq<string>, c: Config)
    requires ts != [] && ts[|ts| - 1] != "-"
    ensures Resume(ts, c) != Failure(Unfinished)
  {
    var last := ts[|ts| - 1];
    assert ts == ts[..|ts| - 1] + [last];
    StepsSnoc(ts[..|ts| - 1], last, c);
    match Steps(ts[..|ts| - 1], c)
    case Failure(e) =>
    case Success(c') =>
      ReadEndOnlyAfterDash(last, c');
  }

  lemma RunIsNotSeparator(t: string)
    requires Run(t, SEPARATORS)
    ensures t != "-"
  {
    if |t| == 1 {
      assert t[0] != '-';
    }
  }

  /** The last token never is "-" (it holds no separator), so the loop
      never ends in READ_END and "Rango sin acabar" is never reported. */
  lemma UnfinishedUnreachable(s: string)
    ensures ParseIntervals(s) != Failure(Unfinished)
  {
    var ts := Tokens(s, SEPARATORS, At(0), true);
    TokensShape(s, SEPARATORS, 0);
    var last := ts[|ts| - 1];
    RunIsNotSeparator(last);
    ResumeNotUnfinished(ts, Config(Init, []));
  }

  /** "5-": READ_END receives the final empty token and reports
      "No se esperaba " with an empty token. */
  lemma TrailingDashNotExpected()
    ensures ParseIntervals("5-") == Failure(NotExpected(""))
  {
    TrailingSeparatorExample();
    StepNumber(5, []);
    assert Decimal(5) == "5";
    StepEmpty(Config(ReadEnd(5), []));
    StepsCons("", [], Config(ReadEnd(5), []));
    StepsCons("-", [""], Config(ReadStart(5), []));
    StepsCons("5", ["-", ""], Config(Init, []));
  }

  /** The corrected reader reports "Rango sin acabar" for "5-". */
  lemma FixedReportsUnfinished()
    ensures ParseIntervalsFixed("5-") == Failure(Unfinished)
  {
    TrailingSeparatorExample();
    DropEmpty("5-", SEPARATORS, At(0));
    NonEmptyAppend(["5", "-"], "");
    NonEmptyOfNonEmpty(["5", "-"]);
    assert ["5", "-"] + [""] == ["5", "-", ""];
    StepNumber(5, []);
    assert Decimal(5) == "5";
    StepsCons("-", [], Config(ReadStart(5), []));
    StepsCons("5", ["-"], Config(Init, []));
  }

  /** The empty token is skipped in INIT and rejected anywhere else. */
  lemma StoiEmpty()
    ensures Stoi("") == None
  {
  }

  lemma StepEmpty(c: Config)
    ensures StepToken("", c) == if c.state.Init? then Success(c) else Failure(NotExpected(""))
  {
    StoiEmpty();
    match c.state
    case Init =>
    case ReadStart(_) =>
    case ReadEnd(_) =>
  }

  lemma NonEmptyOfNonEmpty(ts: seq<string>)
    requires forall k :: 0 <= k < |ts| ==> ts[k] != []
    ensures NonEmpty(ts) == ts
    decreases |ts|
  {
    if ts != [] {
      NonEmptyOfNonEmpty(ts[1..]);
    }
  }

  /** After a separator token the machine is in INIT or READ_END. */
  lemma AfterSeparator(t: string, c: Config)
    requires t == "," || t == "-"
    requires StepToken(t, c).Success?
    ensures StepToken(t, c).value.state.Init? || StepToken(t, c).value.state.ReadEnd?
  {
    SeparatorsAreNotNumbers();
    match c.state
    case Init =>
    case ReadStart(a) =>
    case ReadEnd(a) =>
  }

  lemma SepTokenCases(t: string)
    requires SepToken(t, SEPARATORS)
    ensures t == "," || t == "-"
  {
    assert t == [t[0]];
  }

  /** A token list that is empty or ends in a separator leaves the machine,
      started in INIT, in INIT or READ_END. */
  lemma StateAfterSeparators(init: seq<string>, c: Config)
    requires init == [] ==> c.state.Init?
    requires init != [] ==> init[|init| - 1] == "," || init[|init| - 1] == "-"
    ensures Steps(init, c).Success? ==> Steps(init, c).value.state.Init? || Steps(init, c).value.state.ReadEnd?
  {
    if init != [] {
      var n := |init|;
      assert init == init[..n - 1] + [init[n - 1]];
      StepsSnoc(init[..n - 1], init[n - 1], c);
      var before := Steps(init[..n - 1], c);
      if before.Success? && StepToken(init[n - 1], before.value).Success? {
        AfterSeparator(init[n - 1], before.value);
      }
    }
  }

  /** Dropping a final empty token after a separator changes the outcome
      only by turning "No se esperaba " into "Rango sin acabar". */
  lemma ResumeTrailingEmpty(init: seq<string>, c: Config)
    requires forall k :: 0 <= k < |init| ==> init[k] != ""
    requires init == [] ==> c.state.Init?
    requires init != [] ==> init[|init| - 1] == "," || init[|init| - 1] == "-"
    ensures Resume(init + [""], c) == Failure(NotExpected("")) ==> Resume(init, c) == Failure(Unfinished)
    ensures Resume(init + [""], c) != Failure(NotExpected("")) ==> Resume(init, c) == Resume(init + [""], c)
  {
    StepsSnoc(init, "", c);
    StateAfterSeparators(init, c);
    match Steps(init, c)
    case Failure(e) =>
    case Success(c') =>
      StepEmpty(c');
  }

  /** The corrected reader agrees with the written one everywhere, except
      that it turns the "No se esperaba " of an unterminated range into
      "Rango sin acabar". */
  lemma FixedVsWritten(s: string)
    ensures ParseIntervals(s) == Failure(NotExpected("")) ==> ParseIntervalsFixed(s) == Failure(Unfinished)
    ensures ParseIntervals(s) != Failure(NotExpected("")) ==> ParseIntervalsFixed(s) == ParseIntervals(s)
  {
    TokensShape(s, SEPARATORS, 0);
    DropEmpty(s, SEPARATORS, At(0));
    DropTrailingEmpty(Tokens(s, SEPARATORS, At(0), true));
  }

  /** The same comparison on a token list of the shape the tokenizer yields. */
  lemma DropTrailingEmpty(ts: seq<string>)
    requires |ts| >= 1 && InnerTokensSplit(ts, SEPARATORS)
    ensures var c := Config(Init, []);
      && (Resume(ts, c) == Failure(NotExpected("")) ==> Resume(NonEmpty(ts), c) == Failure(Unfinished))
      && (Resume(ts, c) != Failure(NotExpected("")) ==> Resume(NonEmpty(ts), c) == Resume(ts, c))
  {
    var n := |ts|;
    var init := ts[..n - 1];
    SplitLast(ts);
    InnerTokensNonEmpty(ts, SEPARATORS);
    assert forall k :: 0 <= k < |init| ==> init[k] != "" by {
      forall k | 0 <= k < |init| ensures init[k] != "" {
        assert init[k] == ts[k];
      }
    }
    if ts[n - 1] != "" {
      NoEmptyTokens(init, ts[n - 1]);
    } else {
      if init != [] {
        LastInnerIsSeparator(init, ts[n - 1]);
      }
      TrailingEmptyToken(init, ts[n - 1]);
    }
  }

  lemma NoEmptyTokens(init: seq<string>, last: string)
    requires forall k :: 0 <= k < |init| ==> init[k] != ""
    requires last != ""
    ensures NonEmpty(init + [last]) == init + [last]
    ensures Resume(init + [last], Config(Init, [])) != Failure(NotExpected(""))
  {
    NonEmptyOfNonEmpty(init);
    NonEmptyAppend(init, last);
    var ts := init + [last];
    assert forall k :: 0 <= k < |ts| ==> ts[k] != "" by {
      forall k | 0 <= k < |ts| ensures ts[k] != "" {
        if k < |init| {
          assert ts[k] == init[k];
        }
      }
    }
    NoEmptyTokenError(ts, Config(Init, []));
  }

  lemma TrailingEmptyToken(init: seq<string>, last: string)
    requires forall k :: 0 <= k < |init| ==> init[k] != ""
    requires init != [] ==> init[|init| - 1] == "," || init[|init| - 1] == "-"
    requires last == ""
    ensures var c := Config(Init, []);
      && NonEmpty(init + [last]) == init
      && (Resume(init + [last], c) == Failure(NotExpected("")) ==> Resume(init, c) == Failure(Unfinished))
      && (Resume(init + [last], c) != Failure(NotExpected("")) ==> Resume(init, c) == Resume(init + [last], c))
  {
    NonEmptyOfNonEmpty(init);
    NonEmptyAppend(init, last);
    RightUnit(init, []);
    ResumeTrailingEmpty(init, Config(Init, []));
  }

  /** Without empty tokens, "No se esperaba " with an empty token cannot arise. */
  lemma NoEmptyTokenError(ts: seq<string>, c: Config)
    requires forall k :: 0 <= k < |ts| ==> ts[k] != ""
    ensures Resume(ts, c) != Failure(NotExpected(""))
  {
  }

  /** A final empty token follows a separator token. */
  lemma LastInnerIsSeparator(init: seq<string>, last: string)
    requires init != [] && InnerTokensSplit(init + [last], SEPARATORS) && last == ""
    ensures init[|init| - 1] == "," || init[|init| - 1] == "-"
  {
    var ts := init + [last];
    var k := |init| - 1;
    InnerTokenAt(ts, SEPARATORS, k);
    assert ts[k] == init[k] && ts[k + 1] == last;
    SepTokenCases(ts[k]);
  }

  lemma SplitLast<T>(t: seq<T>)
    requires t != []
    ensures t == t[..|t| - 1] + [t[|t| - 1]]
  {
  }

  lemma {:induction false} NonEmptyAppend(ts: seq<string>, t: string)
    ensures NonEmpty(ts + [t]) == NonEmpty(ts) + (if t == [] then [] else [t])
    decreases |ts|
  {
    if ts == [] {
      assert [] + [t] == [t];
      assert [t][1..] == [];
    } else {
      assert (ts + [t])[0] == ts[0];
      assert (ts + [t])[1..] == ts[1..] + [t];
      NonEmptyAppend(ts[1..], t);
    }
  }

  // ---------------------------------------------------------------------
  // readIntervalsFromCommandLine.

  /** strchr / find: the first index of c in s. */
  function IndexOf(s: string, c: char): (r: Option<nat>)
    ensures r.Some? ==> r.value < |s| && s[r.value] == c && c !in s[..r.value]
    ensures r.None? <==> c !in s
    decreases |s|
  {
    if s == [] then None
    else if s[0] == c then Some(0)
    else
      match IndexOf(s[1..], c)
      case None => None
      case Some(i) => Some(i + 1)
  }

  /** The first argument at or after i that contains c. */
  function FirstArgWith(argv: seq<string>, i: nat, c: char): (r: Option<nat>)
    requires i <= |argv|
    ensures r.Some? ==> i <= r.value < |argv| && c in argv[r.value]
    ensures r.Some? ==> forall k :: i <= k < r.value ==> c !in argv[k]
    ensures r.None? ==> forall k :: i <= k < |argv| ==> c !in argv[k]
    decreases |argv| - i
  {
    if i == |argv| then None
    else if c in argv[i] then Some(i)
    else FirstArgWith(argv, i + 1, c)
  }

  datatype Joined = Joined(text: string, next: nat)

  /** The text after the '{' of argv[pos], glued to the following
      arguments up to the first one holding '}', and the index of the
      argument after the last one used. */
  function JoinBraces(argv: seq<string>, pos: nat): (r: Result<Joined, ParseError>)
    requires pos < |argv|
    ensures r.Failure? ==> r.error == ExpectedOpenBrace(argv[pos]) || r.error == ExpectedCloseBrace
    ensures r.Success? ==> pos < r.value.next <= |argv|
  {
    match IndexOf(argv[pos], '{')
    case None => Failure(ExpectedOpenBrace(argv[pos]))
    case Some(b) =>
      var head := argv[pos][b + 1..];
      if '}' in head then Success(Joined(head, pos + 1))
      else (
        match FirstArgWith(argv, pos + 1, '}')
        case None => Failure(ExpectedCloseBrace)
        case Some(q) => Success(Joined(head + Concat(argv[pos + 1..q + 1]), q + 1)))
  }

  /** The text before the first '}'. */
  function CutAtBrace(t: string): (r: string)
    requires '}' in t
    ensures |r| < |t| && '}' !in r && t[..|r| + 1] == r + "}"
  {
    var i := IndexOf(t, '}');
    assert t[..i.value + 1] == t[..i.value] + [t[i.value]];
    t[..i.value]
  }

  /** Parsing the arguments: the joined text cut at its first '}'. Without
      a '{' in argv[pos] nothing else is looked at; every other error is the
      missing '}' or an error of the text between the braces. */
  function ParseCommandLine(argv: seq<string>, pos: nat): (r: Result<seq<Interval>, ParseError>)
    requires pos < |argv|
    ensures '{' !in argv[pos] ==> r == Failure(ExpectedOpenBrace(argv[pos]))
    ensures r.Failure? && '{' in argv[pos] ==> r.error == ExpectedCloseBrace || r.error.NotExpected? || r.error == Unfinished
  {
    JoinBracesSpec(argv, pos);
    match JoinBraces(argv, pos)
    case Failure(e) => Failure(e)
    case Success(j) =>
      if '}' in j.text then ParseIntervals(CutAtBrace(j.text)) else Failure(ExpectedCloseBrace)
  }

  /** What the joining does: it fails with the missing-'{' error exactly
      when argv[pos] has no '{', and with the missing-'}' error exactly when
      neither the rest of argv[pos] nor a later argument holds a '}'.
      Otherwise the text is everything after the first '{' with the later
      arguments appended without separators, up to and including the first
      one holding '}'; the text contains a '}' and `next` is one past the
      last argument used. */
  lemma JoinBracesSpec(argv: seq<string>, pos: nat)
    requires pos < |argv|
    ensures JoinBraces(argv, pos) == Failure(ExpectedOpenBrace(argv[pos])) <==> '{' !in argv[pos]
    ensures '{' in argv[pos] ==>
      var head := argv[pos][IndexOf(argv[pos], '{').value + 1..];
      && (JoinBraces(argv, pos) == Failure(ExpectedCloseBrace) <==>
            '}' !in head && forall k :: pos < k < |argv| ==> '}' !in argv[k])
      && (JoinBraces(argv, pos).Success? ==>
            var j := JoinBraces(argv, pos).value;
            && pos < j.next <= |argv|
            && '}' in j.text
            && j.text == head + Concat(argv[pos + 1..j.next])
            && (forall k :: pos < k < j.next - 1 ==> '}' !in argv[k])
            && (j.next > pos + 1 ==> '}' in argv[j.next - 1]))
  {
    match IndexOf(argv[pos], '{')
    case None =>
    case Some(b) =>
      var head := argv[pos][b + 1..];
      if '}' in head {
        assert argv[pos + 1..pos + 1] == [];
        assert head + Concat([]) == head;
      } else {
        match FirstArgWith(argv, pos + 1, '}')
        case None =>
        case Some(q) =>
          assert argv[pos + 1..q + 1] == argv[pos + 1..q] + [argv[q]];
          ConcatSnoc(argv[pos + 1..q], argv[q]);
      }
  }

  /** A '}' right after the '{': only argv[pos] is used. */
  lemma JoinBracesHere(argv: seq<string>, pos: nat, b: nat)
    requires pos < |argv| && IndexOf(argv[pos], '{') == Some(b)
    requires '}' in argv[pos][b + 1..]
    ensures JoinBraces(argv, pos) == Success(Joined(argv[pos][b + 1..], pos + 1))
  {
  }

  /** The '}' first appears in argv[q]. */
  lemma JoinBracesUpTo(argv: seq<string>, pos: nat, b: nat, q: nat)
    requires pos < q < |argv| && IndexOf(argv[pos], '{') == Some(b)
    requires '}' !in argv[pos][b + 1..]
    requires forall k :: pos + 1 <= k < q ==> '}' !in argv[k]
    requires '}' in argv[q]
    ensures JoinBraces(argv, pos) == Success(Joined(argv[pos][b + 1..] + Concat(argv[pos + 1..q + 1]), q + 1))
  {
    var f := FirstArgWith(argv, pos + 1, '}');
    assert f == Some(q);
  }

  /** No '}' anywhere after the '{'. */
  lemma JoinBracesUnclosed(argv: seq<string>, pos: nat, b: nat)
    requires pos < |argv| && IndexOf(argv[pos], '{') == Some(b)
    requires '}' !in argv[pos][b + 1..]
    requires forall k :: pos + 1 <= k < |argv| ==> '}' !in argv[k]
    ensures JoinBraces(argv, pos) == Failure(ExpectedCloseBrace)
  {
    assert FirstArgWith(argv, pos + 1, '}') == None;
  }

  /** Appending argv[b] to the text joined from argv[a..b]. */
  lemma JoinStep(head: string, argv: seq<string>, a: nat, b: nat)
    requires a <= b < |argv|
    ensures head + Concat(argv[a..b]) + argv[b] == head + Concat(argv[a..b + 1])
  {
    SplitLast(argv[a..b + 1]);
    assert argv[a..b + 1][..b - a] == argv[a..b];
    ConcatSnoc(argv[a..b], argv[b]);
    Assoc(head, Concat(argv[a..b]), argv[b]);
  }

  lemma ParseJoined(argv: seq<string>, pos: nat, j: Joined)
    requires pos < |argv| && JoinBraces(argv, pos) == Success(j) && '}' in j.text
    ensures ParseCommandLine(argv, pos) == ParseIntervals(CutAtBrace(j.text))
  {
  }

  /** The first half of readIntervalsFromCommandLine: the text between the
      braces, gathered from argv[pos] onwards, and the updated `pos`. When no
      argument holds '}', the C++ builds its message from argv[argc], past
      the last argument; here that path is the plain missing-'}' failure
      with pos' == |argv|. */
  method JoinBracedArgs(pos: nat, argv: seq<string>) returns (j: Result<Joined, ParseError>, pos': nat)
    requires pos < |argv|
    ensures j == JoinBraces(argv, pos)
    ensures j.Success? ==> pos' == j.value.next
    ensures j == Failure(ExpectedOpenBrace(argv[pos])) ==> pos' == pos
    ensures j == Failure(ExpectedCloseBrace) ==> pos' == |argv|
  {
    var brace := IndexOf(argv[pos], '{');
    if brace.None? {
      return Failure(ExpectedOpenBrace(argv[pos])), pos;
    }
    var head := argv[pos][brace.value + 1..];
    var os := head;
    pos' := pos;
    if '}' !in head {
      pos' := pos' + 1;
      while pos' < |argv| && '}' !in argv[pos']
        invariant pos + 1 <= pos' <= |argv|
        invariant os == head + Concat(argv[pos + 1..pos'])
        invariant forall k :: pos + 1 <= k < pos' ==> '}' !in argv[k]
      {
        JoinStep(head, argv, pos + 1, pos');
        os := os + argv[pos'];
        pos' := pos' + 1;
      }
      if pos' < |argv| {
        JoinBracesUpTo(argv, pos, brace.value, pos');
        JoinStep(head, argv, pos + 1, pos');
        os := os + argv[pos'];
        pos' := pos' + 1;
      } else {
        JoinBracesUnclosed(argv, pos, brace.value);
        return Failure(ExpectedCloseBrace), pos';
      }
    } else {
      JoinBracesHere(argv, pos, brace.value);
      pos' := pos' + 1;
    }
    return Success(Joined(os, pos')), pos';
  }

  /** `readIntervalsFromCommandLine(pos, argc, argv)`: the set read from the
      text between the braces, and `pos` moved past the arguments used. */
  method ReadIntervalsFromCommandLine(pos: nat, argv: seq<string>) returns (r: Result<IntervalSet, ParseError>, pos': nat)
    requires pos < |argv|
    ensures r.Success? ==> fresh(r.value) && ParseCommandLine(argv, pos).Success?
    ensures r.Success? ==> r.value.intervals == AddedAll([], ParseCommandLine(argv, pos).value)
    ensures r.Failure? ==> ParseCommandLine(argv, pos) == Failure(r.error)
    ensures JoinBraces(argv, pos).Success? ==> pos' == JoinBraces(argv, pos).value.next
    ensures JoinBraces(argv, pos) == Failure(ExpectedOpenBrace(argv[pos])) ==> pos' == pos
    ensures JoinBraces(argv, pos) == Failure(ExpectedCloseBrace) ==> pos' == |argv|
  {
    var j;
    j, pos' := JoinBracedArgs(pos, argv);
    if j.Failure? {
      return Failure(j.error), pos';
    }
    JoinBracesSpec(argv, pos);
    ParseJoined(argv, pos, j.value);
    r := ReadIntervalsFromString(CutAtBrace(j.value.text));
  }
}

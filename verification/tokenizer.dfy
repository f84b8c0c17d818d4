/** The string tokenizer of PGUPV/src/intervals.cpp (class Tokenizer): it
    splits a string at any character of a separator set, returning each
    separator as a one-character token and each run of other characters as
    one token. The tokenizer keeps its place in a `pos` field that is either
    an index into the string or std::string::npos once the input is used up. */
module Tokenizing {
  import opened Wrappers

  /** std::string::size_type position: an index or npos. */
  datatype Pos = NPos | At(i: nat)

  predicate ValidPos(s: string, pos: Pos) {
    pos.At? ==> pos.i <= |s|
  }

  /** std::string::find_first_of(sep, i): the first index at or after i
      holding a separator, or None for npos. */
  function FindFirstOf(s: string, sep: string, i: nat): (r: Option<nat>)
    requires i <= |s|
    ensures r.Some? ==> i <= r.value < |s| && s[r.value] in sep
    ensures r.Some? ==> forall k :: i <= k < r.value ==> s[k] !in sep
    ensures r.None? ==> forall k :: i <= k < |s| ==> s[k] !in sep
    decreases |s| - i
  {
    if i == |s| then None
    else if s[i] in sep then Some(i)
    else FindFirstOf(s, sep, i + 1)
  }

  datatype Step = Step(token: string, next: Pos)

  /** One scan from index i, before the empty-token check. */
  function Advance(s: string, sep: string, i: nat): (r: Step)
    requires i <= |s|
    ensures ValidPos(s, r.next) && (r.next.At? ==> r.next.i > i)
  {
    match FindFirstOf(s, sep, i)
    case None => Step(s[i..], NPos)
    case Some(p) =>
      if p == i then Step(s[i..i + 1], At(i + 1)) else Step(s[i..p], At(p))
  }

  function Measure(s: string, pos: Pos): nat
    requires ValidPos(s, pos)
  {
    match pos
    case NPos => 0
    case At(i) => |s| + 1 - i
  }

  /** Every token the tokenizer still has to return from position pos. */
  function Tokens(s: string, sep: string, pos: Pos, keepEmpty: bool): seq<string>
    requires ValidPos(s, pos)
    decreases Measure(s, pos)
  {
    match pos
    case NPos => []
    case At(i) =>
      var st := Advance(s, sep, i);
      if !keepEmpty && st.token == [] then Tokens(s, sep, st.next, keepEmpty)
      else [st.token] + Tokens(s, sep, st.next, keepEmpty)
  }

  class Tokenizer {
    const str: string
    const sep: string
    const keepEmpty: bool
    var pos: Pos

    predicate Valid()
      reads this
    {
      ValidPos(str, pos)
    }

    /** The tokens still to come. */
    function Pending(): seq<string>
      reads this
      requires Valid()
    {
      Tokens(str, sep, pos, keepEmpty)
    }

    constructor (str: string, sep: string, keepEmpty: bool)
      ensures this.str == str && this.sep == sep && this.keepEmpty == keepEmpty
      ensures pos == At(0) && Valid()
      ensures Pending() == Tokens(str, sep, At(0), keepEmpty)
    {
      this.str := str;
      this.sep := sep;
      this.keepEmpty := keepEmpty;
      pos := At(0);
    }

    /** `next(token)`: returns the next token, or false when none is left.
        Without keepEmpty an empty token is skipped by calling next again. */
    method Next() returns (ok: bool, token: string)
      requires Valid()
      modifies this
      ensures Valid()
      ensures ok ==> old(Pending()) == [token] + Pending()
      ensures !ok ==> old(Pending()) == [] && pos == NPos
      decreases Measure(str, pos)
    {
      if pos == NPos {
        return false, "";
      }
      var i := pos.i;
      var p := FindFirstOf(str, sep, i);
      if p.None? {
        token := str[i..];
        pos := NPos;
      } else if p.value == i {
        token := str[i..i + 1];
        pos := At(i + 1);
      } else {
        token := str[i..p.value];
        pos := At(p.value);
      }
      if !keepEmpty && |token| == 0 {
        ok, token := Next();
        return;
      }
      return true, token;
    }
  }

  // ---------------------------------------------------------------------
  // Properties of the token stream.

  function Concat(ts: seq<string>): string
    decreases |ts|
  {
    if ts == [] then [] else ts[0] + Concat(ts[1..])
  }

  predicate SepToken(t: string, sep: string) {
    |t| == 1 && t[0] in sep
  }

  /** A token holding no separator. */
  predicate Run(t: string, sep: string) {
    forall k :: 0 <= k < |t| ==> t[k] !in sep
  }

  /** Gluing the tokens back together gives the rest of the input. */
  lemma {:induction false} TokensConcat(s: string, sep: string, i: nat)
    requires i <= |s|
    ensures Concat(Tokens(s, sep, At(i), true)) == s[i..]
    decreases |s| - i
  {
    var st := Advance(s, sep, i);
    var ts := Tokens(s, sep, At(i), true);
    assert ts == [st.token] + Tokens(s, sep, st.next, true);
    assert ts[1..] == Tokens(s, sep, st.next, true);
    match st.next
    case NPos =>
      assert st.token == s[i..];
    case At(j) =>
      TokensConcat(s, sep, j);
      assert st.token == s[i..j];
      assert s[i..] == s[i..j] + s[j..];
  }

  /** From a separator position the first token is that separator. */
  lemma FirstAtSeparator(s: string, sep: string, p: nat)
    requires p < |s| && s[p] in sep
    ensures var ts := Tokens(s, sep, At(p), true);
      |ts| >= 1 && ts[0] == [s[p]] && SepToken(ts[0], sep)
  {
    assert FindFirstOf(s, sep, p) == Some(p);
    assert s[p..p + 1] == [s[p]];
  }

  /** Every token but the last is a single separator, or a non-empty run
      of other characters followed by a separator token. */
  predicate InnerTokensSplit(ts: seq<string>, sep: string) {
    forall k :: 0 <= k < |ts| - 1 ==>
      SepToken(ts[k], sep) || (ts[k] != [] && Run(ts[k], sep) && SepToken(ts[k + 1], sep))
  }

  lemma InnerTokenAt(ts: seq<string>, sep: string, k: nat)
    requires InnerTokensSplit(ts, sep) && k < |ts| - 1
    ensures SepToken(ts[k], sep) || (ts[k] != [] && Run(ts[k], sep) && SepToken(ts[k + 1], sep))
  {
    assert SepToken(ts[k], sep) || (ts[k] != [] && Run(ts[k], sep) && SepToken(ts[k + 1], sep));
  }

  /** Only the last token can be empty. */
  lemma InnerTokensNonEmpty(ts: seq<string>, sep: string)
    requires InnerTokensSplit(ts, sep)
    ensures forall k :: 0 <= k < |ts| - 1 ==> ts[k] != []
  {
    forall k | 0 <= k < |ts| - 1 ensures ts[k] != [] {
      InnerTokenAt(ts, sep, k);
    }
  }

  /** With empty tokens kept: every token but the last is a single separator
      or a non-empty separator-free run that a separator token follows (so
      each run is maximal); the last token is a separator-free run, empty
      exactly when the input is empty or ends in a separator. */
  lemma {:induction false} TokensShape(s: string, sep: string, i: nat)
    requires i <= |s|
    ensures var ts := Tokens(s, sep, At(i), true);
      && |ts| >= 1
      && InnerTokensSplit(ts, sep)
      && Run(ts[|ts| - 1], sep)
      && (ts[|ts| - 1] == [] <==> i == |s| || s[|s| - 1] in sep)
    decreases |s| - i
  {
    match FindFirstOf(s, sep, i)
    case None =>
      TokensShapeLast(s, sep, i);
    case Some(p) =>
      var st := Advance(s, sep, i);
      var j := st.next.i;
      TokensShape(s, sep, j);
      var rest := Tokens(s, sep, At(j), true);
      assert Tokens(s, sep, At(i), true) == [st.token] + rest;
      if p == i {
        assert st.token == [s[i]];
      } else {
        FirstAtSeparator(s, sep, p);
      }
      InnerSplitCons(st.token, rest, sep);
  }

  /** The last scan: no separator is left after i. */
  lemma TokensShapeLast(s: string, sep: string, i: nat)
    requires i <= |s| && FindFirstOf(s, sep, i).None?
    ensures var ts := Tokens(s, sep, At(i), true);
      && ts == [s[i..]]
      && Run(s[i..], sep)
      && (s[i..] == [] <==> i == |s| || s[|s| - 1] in sep)
  {
    assert Advance(s, sep, i) == Step(s[i..], NPos);
    if i < |s| {
      assert s[i..][|s| - 1 - i] == s[|s| - 1];
    }
  }

  lemma InnerSplitCons(t: string, rest: seq<string>, sep: string)
    requires |rest| >= 1 && InnerTokensSplit(rest, sep)
    requires SepToken(t, sep) || (t != [] && Run(t, sep) && SepToken(rest[0], sep))
    ensures InnerTokensSplit([t] + rest, sep)
    ensures ([t] + rest)[|rest|] == rest[|rest| - 1]
  {
    var ts := [t] + rest;
    forall k | 0 <= k < |ts| - 1
      ensures SepToken(ts[k], sep) || (ts[k] != [] && Run(ts[k], sep) && SepToken(ts[k + 1], sep))
    {
      if k > 0 {
        assert ts[k] == rest[k - 1] && ts[k + 1] == rest[k];
      }
    }
  }

  function NonEmpty(ts: seq<string>): seq<string>
    decreases |ts|
  {
    if ts == [] then []
    else if ts[0] == [] then NonEmpty(ts[1..])
    else [ts[0]] + NonEmpty(ts[1..])
  }

  /** Without keepEmpty the tokenizer returns the same tokens minus the
      empty ones. */
  lemma {:induction false} DropEmpty(s: string, sep: string, pos: Pos)
    requires ValidPos(s, pos)
    ensures Tokens(s, sep, pos, false) == NonEmpty(Tokens(s, sep, pos, true))
    decreases Measure(s, pos)
  {
    match pos
    case NPos =>
    case At(i) =>
      var st := Advance(s, sep, i);
      DropEmpty(s, sep, st.next);
      var ts := Tokens(s, sep, pos, true);
      assert ts == [st.token] + Tokens(s, sep, st.next, true);
      assert ts[1..] == Tokens(s, sep, st.next, true);
  }

  lemma ConcatSnoc(ts: seq<string>, t: string)
    ensures Concat(ts + [t]) == Concat(ts) + t
    decreases |ts|
  {
    if ts == [] {
      assert [] + [t] == [t];
    } else {
      ConcatSnoc(ts[1..], t);
      assert (ts + [t])[1..] == ts[1..] + [t];
    }
  }

  lemma {:induction false} FindFirstOfShift(s: string, sep: string, i: nat, j: nat)
    requires i <= j <= |s|
    ensures FindFirstOf(s, sep, j) ==
      match FindFirstOf(s[i..], sep, j - i)
      case None => None
      case Some(p) => Some(p + i)
    decreases |s| - j
  {
    if j < |s| && s[j] !in sep {
      FindFirstOfShift(s, sep, i, j + 1);
    }
  }

  lemma AdvanceShift(s: string, sep: string, i: nat, j: nat)
    requires i <= j <= |s|
    ensures var a := Advance(s, sep, j);
      var b := Advance(s[i..], sep, j - i);
      && a.token == b.token
      && (a.next == NPos <==> b.next == NPos)
      && (a.next.At? ==> a.next.i == b.next.i + i)
  {
    FindFirstOfShift(s, sep, i, j);
    assert s[i..][j - i..] == s[j..];
    match FindFirstOf(s, sep, j)
    case None =>
    case Some(p) =>
      if p == j {
        assert s[i..][j - i..j - i + 1] == s[j..j + 1];
      } else {
        assert s[i..][j - i..p - i] == s[j..p];
      }
  }

  /** Tokens depend only on the text from the current position on. */
  lemma {:induction false} TokensShift(s: string, sep: string, i: nat, j: nat)
    requires i <= j <= |s|
    ensures Tokens(s, sep, At(j), true) == Tokens(s[i..], sep, At(j - i), true)
    decreases |s| - j
  {
    AdvanceShift(s, sep, i, j);
    var a := Advance(s, sep, j);
    if a.next.At? {
      TokensShift(s, sep, i, a.next.i);
    }
  }

  /** A separator-free text is a single token. */
  lemma TokensOfRun(y: string, sep: string)
    requires Run(y, sep)
    ensures Tokens(y, sep, At(0), true) == [y]
  {
    assert FindFirstOf(y, sep, 0).None?;
    assert y[0..] == y;
  }

  /** A non-empty run followed by a separator gives two tokens, then the
      tokens of the rest. */
  lemma TokensCons(x: string, c: char, y: string, sep: string)
    requires x != [] && Run(x, sep) && c in sep
    ensures Tokens(x + [c] + y, sep, At(0), true) == [x, [c]] + Tokens(y, sep, At(0), true)
  {
    var s := x + [c] + y;
    var n := |x|;
    RunThenSeparator(x, c, y, sep);
    assert Advance(s, sep, 0) == Step(x, At(n));
    assert Advance(s, sep, n) == Step([c], At(n + 1));
    TokensShift(s, sep, n + 1, n + 1);
    assert s[n + 1..] == y;
  }

  /** In a run followed by a separator, the first separator is the one after
      the run, and it is also the first from its own position. */
  lemma RunThenSeparator(x: string, c: char, y: string, sep: string)
    requires Run(x, sep) && c in sep
    ensures var s := x + [c] + y;
      && FindFirstOf(s, sep, 0) == Some(|x|) && s[0..|x|] == x
      && FindFirstOf(s, sep, |x|) == Some(|x|) && s[|x|..|x| + 1] == [c]
  {
    var s := x + [c] + y;
    assert s[|x|] == c;
    assert forall k :: 0 <= k < |x| ==> s[k] == x[k];
  }

  /** "5-" splits into "5", "-" and a final empty token. */
  lemma TrailingSeparatorExample()
    ensures Tokens("5-", ",-", At(0), true) == ["5", "-", ""]
  {
    var s := "5-";
    assert FindFirstOf(s, ",-", 0) == Some(1);
    assert Advance(s, ",-", 0) == Step("5", At(1)) by {
      assert s[0..1] == "5";
    }
    assert FindFirstOf(s, ",-", 1) == Some(1);
    assert Advance(s, ",-", 1) == Step("-", At(2)) by {
      assert s[1..2] == "-";
    }
    assert FindFirstOf(s, ",-", 2) == None;
    assert Advance(s, ",-", 2) == Step("", NPos);
    assert Tokens(s, ",-", At(2), true) == [""];
    assert Tokens(s, ",-", At(1), true) == ["-", ""];
  }
}

/** Splitting a string at a delimiter (src/common/Utils.cc). */
module Split {
  import opened Common

  predicate At(s: string, d: string, i: nat) {
    i + |d| <= |s| && s[i..i + |d|] == d
  }

  /** std::string::find. */
  function Find(s: string, d: string, pos: nat): (r: Option<nat>)
    ensures r.Some? ==> pos <= r.value && At(s, d, r.value)
    decreases |s| - pos
  {
    if pos + |d| > |s| then None
    else if At(s, d, pos) then Some(pos)
    else if pos == |s| then None
    else Find(s, d, pos + 1)
  }

  predicate Contains(s: string, d: string) {
    Find(s, d, 0).Some?
  }

  lemma {:induction false} FoundFirst(s: string, d: string, pos: nat, j: nat)
    requires pos <= j && At(s, d, j)
    ensures Find(s, d, pos).Some? && Find(s, d, pos).value <= j
    decreases |s| - pos
  {
    if !At(s, d, pos) {
      FoundFirst(s, d, pos + 1, j);
    }
  }

  lemma FoundAt(s: string, d: string, pos: nat, i: nat)
    requires pos <= i && At(s, d, i) && forall j: nat | pos <= j < i :: !At(s, d, j)
    ensures Find(s, d, pos) == Some(i)
  {
    FoundFirst(s, d, pos, i);
  }

  /** Where the loop stands after `turns` turns from `pos`, none once it has ended. */
  function After(s: string, d: string, pos: nat, turns: nat): Option<nat>
    decreases turns
  {
    if turns == 0 then Some(pos)
    else match Find(s, d, pos)
      case None => None
      case Some(end) => After(s, d, end + |d|, turns - 1)
  }

  /** With an empty delimiter the loop never ends: after any number of turns it stands where it began, and its condition
      holds. */
  lemma {:induction false} EmptyDelimiterStays(s: string, pos: nat, turns: nat)
    requires pos <= |s|
    ensures After(s, "", pos, turns) == Some(pos) && Find(s, "", pos).Some?
  {
    if turns > 0 {
      EmptyDelimiterStays(s, pos, turns - 1);
    }
  }

  /** With any other it has ended after as many turns as the string has characters, and one. */
  lemma {:induction false} OtherDelimitersEnd(s: string, d: string, pos: nat, turns: nat)
    requires d != "" && pos <= |s| && turns > |s| - pos
    ensures After(s, d, pos, turns) == None
    decreases turns
  {
    if Find(s, d, pos).Some? {
      OtherDelimitersEnd(s, d, Find(s, d, pos).value + |d|, turns - 1);
    }
  }

  // ------------------------------------------------------------------ what a split is

  /** A piece the delimiter ends: the first delimiter found in the piece with one after it is that one. */
  predicate Ended(t: string, d: string) {
    Find(t + d, d, 0) == Some(|t|)
  }

  predicate AllEnded(tokens: seq<string>, d: string) {
    forall i | 0 <= i < |tokens| :: Ended(tokens[i], d)
  }

  /** Each token with a delimiter after it. */
  function Flat(tokens: seq<string>, d: string): string {
    if tokens == [] then "" else tokens[0] + d + Flat(tokens[1..], d)
  }

  /** The tokens of a string: pieces each ended by a delimiter, and after them perhaps one that is not empty and holds
      none. So a delimiter at the end of the string leaves no trace. */
  ghost predicate SplitOf(tokens: seq<string>, s: string, d: string) {
    || (AllEnded(tokens, d) && s == Flat(tokens, d))
    || (tokens != [] && EndsWith(tokens[..|tokens| - 1], tokens[|tokens| - 1], s, d))
  }

  ghost predicate EndsWith(ended: seq<string>, last: string, s: string, d: string) {
    AllEnded(ended, d) && last != "" && !Contains(last, d) && s == Flat(ended, d) + last
  }

  lemma {:induction false} FlatSnoc(tokens: seq<string>, last: string, d: string)
    ensures Flat(tokens + [last], d) == Flat(tokens, d) + last + d
  {
    if tokens == [] {
      assert [] + [last] == [last];
    } else {
      assert (tokens + [last])[1..] == tokens[1..] + [last];
      FlatSnoc(tokens[1..], last, d);
    }
  }

  lemma SliceOfSlice(s: string, lo: nat, hi: nat, i: nat, j: nat)
    requires lo <= hi <= |s| && i <= j <= hi - lo
    ensures s[lo..hi][i..j] == s[lo + i..lo + j]
  {
    var a, b := s[lo..hi][i..j], s[lo + i..lo + j];
    forall k | 0 <= k < j - i ensures a[k] == b[k] {}
  }

  /** The piece up to a delimiter found from `pos` on. */
  lemma PieceIsEnded(s: string, d: string, pos: nat, end: nat)
    requires pos <= |s| && Find(s, d, pos) == Some(end)
    ensures Ended(s[pos..end], d)
  {
    var t := s[pos..end];
    var piece := s[pos..end + |d|];
    assert t + d == piece;
    forall j: nat | j < |t| ensures !At(t + d, d, j) {
      SliceOfSlice(s, pos, end + |d|, j, j + |d|);
      if At(t + d, d, j) { FoundFirst(s, d, pos, pos + j); }
    }
    FoundAt(t + d, d, 0, |t|);
  }

  lemma RestHasNone(s: string, d: string, pos: nat)
    requires pos <= |s| && Find(s, d, pos) == None
    ensures !Contains(s[pos..], d)
  {
    if Contains(s[pos..], d) {
      var j := Find(s[pos..], d, 0).value;
      SliceOfSlice(s, pos, |s|, j, j + |d|);
      FoundFirst(s, d, pos, pos + j);
    }
  }

  /** The loop. It never advances past an empty delimiter, which is why one is excluded. */
  method Split(str: string, delimeter: string) returns (tokens: seq<string>)
    requires delimeter != ""
    ensures SplitOf(tokens, str, delimeter)
  {
    tokens := [];
    var pos := 0;
    var end := Find(str, delimeter, pos);
    while end.Some?
      invariant 0 <= pos <= |str| && end == Find(str, delimeter, pos)
      invariant AllEnded(tokens, delimeter) && str[..pos] == Flat(tokens, delimeter)
      decreases |str| - pos
    {
      PieceIsEnded(str, delimeter, pos, end.value);
      LoopTurns(tokens, str, delimeter, pos, end.value);
      tokens := tokens + [str[pos..end.value]];
      pos := end.value + |delimeter|;
      end := Find(str, delimeter, pos);
    }
    LoopEnds(tokens, str, delimeter, pos);
    if pos < |str| {
      tokens := tokens + [str[pos..]];
    }
  }

  lemma LoopTurns(tokens: seq<string>, s: string, d: string, pos: nat, end: nat)
    requires pos <= end && At(s, d, end) && s[..pos] == Flat(tokens, d)
    ensures s[..end + |d|] == Flat(tokens + [s[pos..end]], d)
  {
    FlatSnoc(tokens, s[pos..end], d);
    Glued(s, pos, end, d, Flat(tokens, d), Flat(tokens + [s[pos..end]], d));
  }

  lemma Glued(s: string, pos: nat, end: nat, d: string, front: string, all: string)
    requires pos <= end && At(s, d, end) && s[..pos] == front && all == front + s[pos..end] + d
    ensures s[..end + |d|] == all
  {}

  lemma LoopEnds(tokens: seq<string>, s: string, d: string, pos: nat)
    requires pos <= |s| && Find(s, d, pos) == None && AllEnded(tokens, d) && s[..pos] == Flat(tokens, d)
    ensures SplitOf(if pos < |s| then tokens + [s[pos..]] else tokens, s, d)
  {
    RestHasNone(s, d, pos);
    assert s == s[..pos] + s[pos..];
    if pos < |s| {
      assert (tokens + [s[pos..]])[..|tokens|] == tokens;
    }
  }

  // ------------------------------------------------------------------ it is the only one

  lemma EndedInFront(t: string, d: string, rest: string)
    requires Ended(t, d)
    ensures Find(t + d + rest, d, 0) == Some(|t|)
  {
    var s := t + d + rest;
    assert s[|t|..|t| + |d|] == d;
    forall j: nat | j < |t| ensures !At(s, d, j) {
      assert s[j..j + |d|] == (t + d)[j..j + |d|];
      if At(s, d, j) { FoundFirst(t + d, d, 0, j); }
    }
    FoundAt(s, d, 0, |t|);
  }

  lemma EndedHasNone(t: string, d: string)
    requires Ended(t, d) && d != ""
    ensures !Contains(t, d)
  {
    if Contains(t, d) {
      var i := Find(t, d, 0).value;
      assert (t + d)[i..i + |d|] == t[i..i + |d|];
      FoundFirst(t + d, d, 0, i);
    }
  }

  /** What comes after the first token, when the delimiter ends it. */
  ghost predicate Continues(tokens: seq<string>, s: string, d: string, tail: string) {
    tokens != [] && Ended(tokens[0], d) && s == tokens[0] + d + tail && SplitOf(tokens[1..], tail, d)
  }

  lemma ConcatAgain(a: string, b: string, c: string)
    ensures a + b + c == a + (b + c)
  {}

  /** A split is nothing, one piece that holds no delimiter, or a piece and a split of the rest. */
  lemma SplitCases(tokens: seq<string>, s: string, d: string) returns (tail: string)
    requires d != "" && SplitOf(tokens, s, d)
    ensures || (tokens == [] && s == "") || (tokens == [s] && s != "" && !Contains(s, d))
            || Continues(tokens, s, d, tail)
  {
    tail := "";
    if tokens != [] {
      var n := |tokens| - 1;
      if AllEnded(tokens, d) && s == Flat(tokens, d) {
        tail := Flat(tokens[1..], d);
        assert Ended(tokens[0], d);
      } else if n == 0 {
        assert tokens == [tokens[0]] && tokens[..0] == [];
        assert Flat([], d) + tokens[0] == tokens[0];
      } else {
        tail := Flat(tokens[..n][1..], d) + tokens[n];
        EndsLater(tokens, s, d, tail);
      }
    }
  }

  lemma EndsLater(tokens: seq<string>, s: string, d: string, tail: string)
    requires |tokens| > 1 && EndsWith(tokens[..|tokens| - 1], tokens[|tokens| - 1], s, d)
    requires tail == Flat(tokens[..|tokens| - 1][1..], d) + tokens[|tokens| - 1]
    ensures Continues(tokens, s, d, tail)
  {
    var n := |tokens| - 1;
    var ended, last := tokens[..n], tokens[n];
    ConcatAgain(tokens[0] + d, Flat(ended[1..], d), last);
    assert ended[0] == tokens[0] && Ended(ended[0], d);
    assert tokens[1..][..n - 1] == ended[1..] && tokens[1..][n - 1] == last;
    assert EndsWith(ended[1..], last, tail, d);
  }

  lemma ContinuesAtFirst(tokens: seq<string>, s: string, d: string, tail: string)
    requires d != "" && Continues(tokens, s, d, tail)
    ensures Find(s, d, 0) == Some(|tokens[0]|) && s[..|tokens[0]|] == tokens[0] && s[|tokens[0]| + |d|..] == tail
  {
    EndedInFront(tokens[0], d, tail);
  }

  lemma {:induction false} SplitIsUnique(a: seq<string>, b: seq<string>, s: string, d: string)
    requires d != "" && SplitOf(a, s, d) && SplitOf(b, s, d)
    ensures a == b
    decreases |a|
  {
    var x := SplitCases(a, s, d);
    var y := SplitCases(b, s, d);
    if Continues(a, s, d, x) {
      ContinuesAtFirst(a, s, d, x);
      if Continues(b, s, d, y) {
        ContinuesAtFirst(b, s, d, y);
        SplitIsUnique(a[1..], b[1..], x, d);
        assert a == [a[0]] + a[1..] && b == [b[0]] + b[1..];
      }
    } else if Continues(b, s, d, y) {
      ContinuesAtFirst(b, s, d, y);
    }
  }

  // ------------------------------------------------------------------ round trips

  function Join(tokens: seq<string>, d: string): string {
    if tokens == [] then "" else Flat(tokens[..|tokens| - 1], d) + tokens[|tokens| - 1]
  }

  lemma JoinThenEnd(tokens: seq<string>, d: string)
    requires tokens != []
    ensures Flat(tokens, d) == Join(tokens, d) + d
  {
    var n := |tokens| - 1;
    FlatSnoc(tokens[..n], tokens[n], d);
    SnocIsWhole(tokens);
  }

  lemma SnocIsWhole<T>(s: seq<T>)
    requires s != []
    ensures s[..|s| - 1] + [s[|s| - 1]] == s
  {}

  /** The tokens joined are the string, up to one delimiter dropped at its end, and none of them contains the delimiter. */
  lemma SplitThenJoin(tokens: seq<string>, s: string, d: string)
    requires d != "" && SplitOf(tokens, s, d)
    ensures s == Join(tokens, d) || s == Join(tokens, d) + d
    ensures forall t | t in tokens :: !Contains(t, d)
  {
    if tokens != [] {
      JoinThenEnd(tokens, d);
      forall t | t in tokens ensures !Contains(t, d) {
        var i :| 0 <= i < |tokens| && tokens[i] == t;
        if i < |tokens| - 1 {
          assert tokens[..|tokens| - 1][i] == t;
          EndedHasNone(t, d);
        } else if Ended(t, d) {
          EndedHasNone(t, d);
        }
      }
    }
  }

  /** Each token but the last is ended by the delimiter put after it, and the last is a piece by itself. */
  ghost predicate Splittable(tokens: seq<string>, d: string) {
    tokens == [] || EndsWith(tokens[..|tokens| - 1], tokens[|tokens| - 1], Join(tokens, d), d)
  }

  /** Joining tokens and splitting again gives them back exactly when they are splittable. */
  lemma JoinThenSplitIff(tokens: seq<string>, again: seq<string>, d: string)
    requires d != "" && SplitOf(again, Join(tokens, d), d)
    ensures again == tokens <==> Splittable(tokens, d)
  {
    if Splittable(tokens, d) {
      SplitIsUnique(again, tokens, Join(tokens, d), d);
    }
    if tokens != [] {
      JoinThenEnd(tokens, d);
      assert |Join(tokens, d) + d| > |Join(tokens, d)|;
    }
  }

  lemma EndedByChar(t: string, c: char)
    requires c !in t
    ensures Ended(t, [c]) && !Contains(t, [c])
  {
    assert At(t + [c], [c], |t|);
    forall j: nat | j < |t| ensures !At(t + [c], [c], j) {
      assert (t + [c])[j..j + 1] == [t[j]];
    }
    FoundAt(t + [c], [c], 0, |t|);
    EndedHasNone(t, [c]);
  }

  /** For one character: when no token contains it and the last is not empty. */
  lemma CharSplits(tokens: seq<string>, c: char)
    requires forall t | t in tokens :: c !in t
    requires tokens != [] ==> tokens[|tokens| - 1] != ""
    ensures SplitOf(tokens, Join(tokens, [c]), [c])
  {
    forall t | t in tokens ensures Ended(t, [c]) && !Contains(t, [c]) {
      EndedByChar(t, c);
    }
  }

  lemma JoinThenSplit(tokens: seq<string>, again: seq<string>, c: char)
    requires forall t | t in tokens :: c !in t
    requires tokens != [] ==> tokens[|tokens| - 1] != ""
    requires SplitOf(again, Join(tokens, [c]), [c])
    ensures again == tokens
  {
    CharSplits(tokens, c);
    SplitIsUnique(again, tokens, Join(tokens, [c]), [c]);
  }
}

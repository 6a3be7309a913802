/** The `java.lang.String` operations the path and coordinate parsers use:
    `indexOf`, `substring` around the first separator, and splitting on a
    separator. */
module Strings {

  /** `s.indexOf(c)`: the position of the first `c` in `s`, or -1. */
  function IndexOf(s: string, c: char): (i: int)
    ensures -1 <= i < |s|
    ensures i == -1 <==> c !in s
    ensures 0 <= i ==> s[i] == c && c !in s[..i]
  {
    if |s| == 0 then -1
    else if s[0] == c then 0
    else
      var j := IndexOf(s[1..], c);
      assert s == [s[0]] + s[1..];
      if j == -1 then -1
      else
        assert s[..j + 1] == [s[0]] + s[1..][..j];
        j + 1
  }

  /** `s.substring(0, s.indexOf(c))`: the text before the first `c`. */
  function Before(s: string, c: char): (h: string)
    requires c in s
    ensures c !in h
  {
    s[..IndexOf(s, c)]
  }

  /** `s.substring(s.indexOf(c) + 1)`: the text after the first `c`. */
  function After(s: string, c: char): (t: string)
    requires c in s
    ensures s == Before(s, c) + [c] + t
    ensures |t| < |s|
  {
    s[IndexOf(s, c) + 1..]
  }

  /** Cutting `h + [c] + t` at its first `c` gives back `h` and `t` when `h`
      holds no `c`. */
  lemma SplitAtFirst(h: string, c: char, t: string)
    requires c !in h
    ensures c in h + [c] + t
    ensures Before(h + [c] + t, c) == h && After(h + [c] + t, c) == t
  {
    var s := h + [c] + t;
    assert s[|h|] == c;
    assert s[..|h|] == h;
  }

  /** Cuts `s` at every `c`, keeping empty pieces. */
  function SplitOn(s: string, c: char): (parts: seq<string>)
    ensures |parts| >= 1
    ensures forall i :: 0 <= i < |parts| ==> c !in parts[i]
    decreases |s|
  {
    if c in s then [Before(s, c)] + SplitOn(After(s, c), c) else [s]
  }

  /** Glues pieces back together with `c` between neighbours. */
  function JoinWith(parts: seq<string>, c: char): string
  {
    if |parts| == 0 then ""
    else if |parts| == 1 then parts[0]
    else parts[0] + [c] + JoinWith(parts[1..], c)
  }

  lemma {:induction false} JoinSplit(s: string, c: char)
    ensures JoinWith(SplitOn(s, c), c) == s
    decreases |s|
  {
    if c in s {
      JoinSplit(After(s, c), c);
      var rest := SplitOn(After(s, c), c);
      assert SplitOn(s, c)[1..] == rest;
    }
  }

  lemma {:induction false} SplitJoin(parts: seq<string>, c: char)
    requires |parts| >= 1
    requires forall i :: 0 <= i < |parts| ==> c !in parts[i]
    ensures SplitOn(JoinWith(parts, c), c) == parts
  {
    if |parts| > 1 {
      var t := JoinWith(parts[1..], c);
      SplitAtFirst(parts[0], c, t);
      SplitJoin(parts[1..], c);
      assert parts == [parts[0]] + parts[1..];
    }
  }

  /** Every character of `s` is `c`. */
  predicate Only(s: string, c: char)
  {
    forall i :: 0 <= i < |s| ==> s[i] == c
  }

  /** Removes the empty pieces at the end of `parts`. */
  function DropTrailingEmpty(parts: seq<string>): (kept: seq<string>)
    ensures |kept| <= |parts| && kept == parts[..|kept|]
    ensures |kept| > 0 ==> kept[|kept| - 1] != ""
    ensures forall i :: |kept| <= i < |parts| ==> parts[i] == ""
  {
    if |parts| > 0 && parts[|parts| - 1] == "" then DropTrailingEmpty(parts[..|parts| - 1])
    else parts
  }

  /** `s.split(c)` for a separator that is one plain character: with no
      `c` the result is `[s]`; otherwise the pieces between separators,
      without the empty pieces at the end. */
  function Split(s: string, c: char): (parts: seq<string>)
    ensures forall i :: 0 <= i < |parts| ==> c !in parts[i]
  {
    if c in s then DropTrailingEmpty(SplitOn(s, c)) else [s]
  }

  /** Pieces of a run of separators are all empty. */
  lemma {:induction false} SplitOfSeparators(t: string, c: char)
    requires Only(t, c)
    ensures forall i :: 0 <= i < |SplitOn(t, c)| ==> SplitOn(t, c)[i] == ""
    decreases |t|
  {
    if |t| > 0 {
      assert t[0] == c;
      assert t == "" + [c] + t[1..];
      SplitAtFirst("", c, t[1..]);
      assert SplitOn(t, c) == [""] + SplitOn(t[1..], c);
      SplitOfSeparators(t[1..], c);
    }
  }

  /** Joining empty pieces gives a run of separators. */
  lemma {:induction false} JoinOfEmpties(parts: seq<string>, c: char)
    requires forall i :: 0 <= i < |parts| ==> parts[i] == ""
    ensures Only(JoinWith(parts, c), c)
  {
    if |parts| > 1 {
      JoinOfEmpties(parts[1..], c);
    }
  }

  /** Dropping empties after a list that ends in a non-empty piece. */
  lemma {:induction false} DropAfterLast(parts: seq<string>, empties: seq<string>)
    requires |parts| > 0 && parts[|parts| - 1] != ""
    requires forall i :: 0 <= i < |empties| ==> empties[i] == ""
    ensures DropTrailingEmpty(parts + empties) == parts
    decreases |empties|
  {
    if |empties| > 0 {
      var shorter := empties[..|empties| - 1];
      assert (parts + empties)[..|parts + empties| - 1] == parts + shorter;
      DropAfterLast(parts, shorter);
    } else {
      assert parts + empties == parts;
    }
  }

  /** One step of splitting: the piece before the first separator, then
      the pieces of the rest. */
  lemma SplitStep(s: string, h: string, c: char, t: string)
    requires c !in h && s == h + [c] + t
    ensures SplitOn(s, c) == [h] + SplitOn(t, c)
  {
    SplitAtFirst(h, c, t);
  }

  lemma OnlyTail(t: string, c: char)
    requires Only(t, c) && |t| > 0
    ensures t == [c] + t[1..] && Only(t[1..], c)
  {
    assert t[0] == c;
  }

  lemma ConsTwo<T>(x: seq<T>, y: seq<T>, z: seq<T>, a: T, b: T)
    requires x == [a] + y && y == [b] + z
    ensures x == [a, b] + z
  {
  }

  /** Splitting `a,b` followed by separators only gives exactly `[a, b]`
      when `b` is not empty. */
  lemma SplitTwoFields(a: string, b: string, t: string, c: char)
    requires c !in a && c !in b && b != "" && Only(t, c)
    ensures Split(a + [c] + b + t, c) == [a, b]
  {
    var s := a + [c] + b + t;
    var bt := b + t;
    assert s == a + [c] + bt;
    assert s[|a|] == c;
    SplitStep(s, a, c, bt);
    if |t| > 0 {
      OnlyTail(t, c);
      var more := t[1..];
      assert bt == b + [c] + more;
      SplitStep(bt, b, c, more);
      var rest := SplitOn(more, c);
      ConsTwo(SplitOn(s, c), SplitOn(bt, c), rest, a, b);
      SplitOfSeparators(more, c);
      DropAfterLast([a, b], rest);
    } else {
      assert bt == b;
      assert SplitOn(bt, c) == [b] + [];
      ConsTwo(SplitOn(s, c), SplitOn(bt, c), [], a, b);
      DropAfterLast([a, b], []);
    }
  }

  /** Conversely, a text that splits into two pieces is the first piece, the
      separator, the second (non-empty) piece and then separators only. */
  lemma TwoFieldsOfSplit(s: string, c: char)
    requires |Split(s, c)| == 2
    ensures var p := Split(s, c);
            var n := |p[0]| + 1 + |p[1]|;
            n <= |s| && s[..n] == p[0] + [c] + p[1] && p[1] != "" && Only(s[n..], c)
  {
    assert c in s;
    SplitKeepsPrefix(s, c);
    KeptTwoOfJoin(SplitOn(s, c), Split(s, c), s, c);
  }

  /** With a separator present, `Split` keeps a prefix of the pieces that
      join back into `s`. */
  lemma SplitKeepsPrefix(s: string, c: char)
    requires c in s
    ensures var all := SplitOn(s, c);
            var kept := Split(s, c);
            |kept| <= |all| && kept == all[..|kept|] && JoinWith(all, c) == s
            && (|kept| > 0 ==> kept[|kept| - 1] != "")
            && forall i :: |kept| <= i < |all| ==> all[i] == ""
  {
    JoinSplit(s, c);
  }

  /** The two kept pieces of a joined sequence whose other pieces are empty. */
  lemma KeptTwoOfJoin(all: seq<string>, kept: seq<string>, s: string, c: char)
    requires |kept| == 2 && |kept| <= |all| && kept == all[..2] && kept[1] != ""
    requires forall i :: 2 <= i < |all| ==> all[i] == ""
    requires s == JoinWith(all, c)
    ensures var n := |kept[0]| + 1 + |kept[1]|;
            n <= |s| && s[..n] == kept[0] + [c] + kept[1] && Only(s[n..], c)
  {
    JoinTwoThenEmpties(all, c);
  }

  /** Joining two pieces and then empty ones: the two pieces with a
      separator between them, then separators only. */
  lemma JoinTwoThenEmpties(all: seq<string>, c: char)
    requires |all| >= 2
    requires forall i :: 2 <= i < |all| ==> all[i] == ""
    ensures var s := JoinWith(all, c);
            var n := |all[0]| + 1 + |all[1]|;
            n <= |s| && s[..n] == all[0] + [c] + all[1] && Only(s[n..], c)
  {
    var more := all[2..];
    assert all[1..] == [all[1]] + more;
    var head := all[0] + [c] + all[1];
    var s := JoinWith(all, c);
    if |more| > 0 {
      assert all[1..][1..] == more;
      JoinOfEmpties(more, c);
      var seps := [c] + JoinWith(more, c);
      assert s == head + seps;
      assert s[..|head|] == head;
      assert s[|head|..] == seps;
    } else {
      assert s == head;
      assert s[|head|..] == [];
    }
  }

  /** The text before the end of the second piece of a split is the first
      piece, the separator and the second piece; when there are more pieces,
      a separator follows. */
  lemma SplitPrefixes(s: string, c: char)
    requires |Split(s, c)| >= 2
    ensures var p := Split(s, c);
            var n := |p[0]| + 1 + |p[1]|;
            n <= |s| && s[..n] == p[0] + [c] + p[1] && (|p| > 2 ==> n < |s| && s[n] == c)
  {
    assert c in s;
    SplitKeepsPrefix(s, c);
    KeptPrefixOfJoin(SplitOn(s, c), Split(s, c), s, c);
  }

  /** The first two kept pieces of a joined sequence, and the separator
      after them when more pieces are kept. */
  lemma KeptPrefixOfJoin(all: seq<string>, kept: seq<string>, s: string, c: char)
    requires 2 <= |kept| <= |all| && kept == all[..|kept|]
    requires s == JoinWith(all, c)
    ensures var n := |kept[0]| + 1 + |kept[1]|;
            n <= |s| && s[..n] == kept[0] + [c] + kept[1] && (|kept| > 2 ==> n < |s| && s[n] == c)
  {
    JoinFirstTwo(all, c);
  }

  lemma JoinFirstTwo(all: seq<string>, c: char)
    requires |all| >= 2
    ensures var s := JoinWith(all, c);
            var n := |all[0]| + 1 + |all[1]|;
            n <= |s| && s[..n] == all[0] + [c] + all[1] && (|all| > 2 ==> n < |s| && s[n] == c)
  {
    var head := all[0] + [c] + all[1];
    var s := JoinWith(all, c);
    assert all[1..][0] == all[1];
    if |all| > 2 {
      var more := JoinWith(all[2..], c);
      assert all[1..][1..] == all[2..];
      assert s == head + ([c] + more);
      assert s[..|head|] == head;
    } else {
      assert s == head;
      assert s[..|head|] == head;
    }
  }
}

/** Splitting at a delimiter as the source's line reader does, and joining. */
module Strings {

  predicate Free(s: string, d: char) {
    forall k | 0 <= k < |s| :: s[k] != d
  }

  /** Where the first delimiter is, or the length. */
  function Cut(s: string, d: char): (i: nat)
    ensures i <= |s| && (forall k | 0 <= k < i :: s[k] != d) && (i < |s| ==> s[i] == d)
  {
    if s == "" || s[0] == d then 0 else 1 + Cut(s[1..], d)
  }

  /** The reader stops at the end of the input: no part follows a final delimiter, and none is read from "". */
  function Split(s: string, d: char): seq<string>
    decreases |s|
  {
    if s == "" then []
    else
      var i := Cut(s, d);
      if i == |s| then [s] else [s[..i]] + Split(s[i + 1..], d)
  }

  function Join(parts: seq<string>, d: char): string {
    if parts == [] then ""
    else if |parts| == 1 then parts[0]
    else parts[0] + [d] + Join(parts[1..], d)
  }

  predicate AllFree(parts: seq<string>, d: char) {
    forall i | 0 <= i < |parts| :: Free(parts[i], d)
  }

  /** One line: the characters up to the next delimiter, and where reading goes on. */
  method GetLine(s: string, at: nat, d: char) returns (item: string, next: nat)
    requires at < |s|
    ensures item == s[at..at + Cut(s[at..], d)] && next == After(s, at, d)
  {
    var i := at;
    while i < |s| && s[i] != d
      invariant at <= i <= |s| && forall k | at <= k < i :: s[k] != d
    {
      i := i + 1;
    }
    CutIs(s[at..], d, i - at);
    item := s[at..i];
    next := if i < |s| then i + 1 else i;
  }

  function After(s: string, at: nat, d: char): (next: nat)
    requires at < |s|
    ensures at < next <= |s|
  {
    var i := at + Cut(s[at..], d);
    if i < |s| then i + 1 else i
  }

  method SplitString(s: string, d: char) returns (parts: seq<string>)
    ensures parts == Split(s, d)
  {
    hide Split, Cut, After;
    parts := [];
    var at := 0;
    assert s[0..] == s && [] + Split(s, d) == Split(s, d);
    while at < |s|
      invariant at <= |s| && parts + Split(s[at..], d) == Split(s, d)
    {
      SplitStep(s, at, d);
      var item, next := GetLine(s, at, d);
      assert (parts + [item]) + Split(s[next..], d) == parts + ([item] + Split(s[next..], d));
      parts := parts + [item];
      at := next;
    }
    SplitEmpty(s[at..], d);
    assert parts + [] == parts;
  }

  lemma SplitEmpty(s: string, d: char)
    requires s == ""
    ensures Split(s, d) == []
  {
  }

  lemma SplitStep(s: string, at: nat, d: char)
    requires at < |s|
    ensures Split(s[at..], d) == [s[at..at + Cut(s[at..], d)]] + Split(s[After(s, at, d)..], d)
  {
    hide Split, Cut;
    var t := s[at..];
    var i := Cut(t, d);
    SplitUnfolds(t, d);
    assert t[..i] == s[at..at + i];
    if i < |t| {
      assert t[i + 1..] == s[at + i + 1..];
    } else {
      assert t[..i] == t && s[|s|..] == "";
      SplitEmpty(s[|s|..], d);
      assert [t] + [] == [t];
    }
  }

  lemma SplitUnfolds(s: string, d: char)
    requires s != ""
    ensures var i := Cut(s, d);
            Split(s, d) == if i == |s| then [s] else [s[..i]] + Split(s[i + 1..], d)
  {
    hide Cut;
  }

  lemma CutIs(s: string, d: char, i: nat)
    requires i <= |s| && (forall k | 0 <= k < i :: s[k] != d) && (i < |s| ==> s[i] == d)
    ensures Cut(s, d) == i
  {
  }

  lemma {:induction false} PartsAreFree(s: string, d: char)
    ensures AllFree(Split(s, d), d)
    decreases |s|
  {
    if s != "" && Cut(s, d) < |s| {
      PartsAreFree(s[Cut(s, d) + 1..], d);
    }
  }

  /** Joining a split gives the string back but for one final delimiter. */
  lemma {:induction false} JoinOfSplit(s: string, d: char)
    ensures s == Join(Split(s, d), d) + Tail(s, d)
    decreases |s|
  {
    if s != "" {
      var i := Cut(s, d);
      assert s[..i][..] == s[..i];
      if i == |s| {
        assert s[..i] == s;
        assert s[|s| - 1] in s;
      } else {
        var rest := s[i + 1..];
        JoinOfSplit(rest, d);
        JoinSplitStep(s, d, rest);
      }
    }
  }

  function Tail(s: string, d: char): string {
    if s != "" && s[|s| - 1] == d then [d] else ""
  }

  lemma JoinSplitStep(s: string, d: char, rest: string)
    requires s != "" && Cut(s, d) < |s| && rest == s[Cut(s, d) + 1..]
    requires rest == Join(Split(rest, d), d) + Tail(rest, d)
    ensures s == Join(Split(s, d), d) + Tail(s, d)
  {
    hide Split, Join, Cut, Tail;
    var head, tail := s[..Cut(s, d)], Split(rest, d);
    SplitUnfolds(s, d);
    Pieces(s, Cut(s, d));
    TailOfRest(s, d, Cut(s, d));
    if rest == "" {
      SplitEmpty(rest, d);
      JoinOne(head, d);
      Emptiness([head], head + [d]);
    } else {
      SplitNonEmpty(rest, d);
      JoinMore(head, tail, d);
      Regroup(head + [d], Join(tail, d), Tail(rest, d));
    }
  }

  lemma TailOfRest(s: string, d: char, i: nat)
    requires i < |s| && s[i] == d
    ensures Tail(s, d) == if s[i + 1..] == "" then [d] else Tail(s[i + 1..], d)
  {
  }

  lemma Emptiness<T, U>(a: seq<T>, b: seq<U>)
    ensures a + [] == a && b + [] == b
  {
  }

  lemma Pieces(s: string, i: nat)
    requires i < |s|
    ensures s == s[..i] + [s[i]] + s[i + 1..]
  {
  }

  lemma JoinOne(head: string, d: char)
    ensures Join([head], d) == head
  {
  }

  lemma JoinMore(head: string, tail: seq<string>, d: char)
    requires tail != []
    ensures Join([head] + tail, d) == head + [d] + Join(tail, d)
  {
    assert ([head] + tail)[1..] == tail;
  }

  lemma Regroup(a: string, b: string, c: string)
    ensures a + (b + c) == a + b + c
  {
  }

  lemma SplitNonEmpty(s: string, d: char)
    requires s != ""
    ensures Split(s, d) != []
  {
  }

  /** Splitting a join gives the parts back exactly when the last part is not empty. */
  lemma SplitOfJoinIff(parts: seq<string>, d: char)
    requires parts != [] && AllFree(parts, d)
    ensures Split(Join(parts, d), d) == parts <==> parts[|parts| - 1] != ""
  {
    if parts[|parts| - 1] != "" {
      SplitOfJoin(parts, d);
    } else if Split(Join(parts, d), d) == parts {
      LastIsNotEmpty(Join(parts, d), d, parts);
    }
  }

  lemma {:induction false} SplitOfJoin(parts: seq<string>, d: char)
    requires parts != [] && AllFree(parts, d) && parts[|parts| - 1] != ""
    ensures Split(Join(parts, d), d) == parts && Join(parts, d) != ""
    decreases |parts|
  {
    hide Split, Join, Cut;
    var head, tail := parts[0], parts[1..];
    assert parts == [head] + tail && Free(head, d);
    if tail == [] {
      assert parts == [head];
      JoinOne(head, d);
      CutIs(head, d, |head|);
      SplitUnfolds(head, d);
    } else {
      SplitOfJoin(tail, d);
      JoinMore(head, tail, d);
      SplitHead(head, Join(tail, d), d);
    }
  }

  lemma SplitHead(head: string, rest: string, d: char)
    requires Free(head, d)
    ensures Split(head + [d] + rest, d) == [head] + Split(rest, d)
  {
    hide Split, Cut;
    var s := head + [d] + rest;
    CutIs(s, d, |head|);
    SplitUnfolds(s, d);
    assert s[..|head|] == head && s[|head| + 1..] == rest;
  }

  /** A joined string whose last part is empty ends in the delimiter or is empty, and loses that part. */
  lemma {:induction false} LastIsNotEmpty(s: string, d: char, parts: seq<string>)
    requires s == Join(parts, d) && parts != [] && AllFree(parts, d) && parts[|parts| - 1] == ""
    ensures Split(s, d) != parts
    decreases |parts|
  {
    if |parts| > 1 {
      var head := parts[0];
      assert s[..|head|] == head && s[|head| + 1..] == Join(parts[1..], d);
      CutIs(s, d, |head|);
      LastIsNotEmpty(Join(parts[1..], d), d, parts[1..]);
      assert Split(s, d)[1..] == Split(Join(parts[1..], d), d);
    }
  }
}

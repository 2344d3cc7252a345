/** The few functions of Go's strings and strconv packages that the repository uses. */
module Strings {

  /** strings.IndexByte: the index of the first c in s, or -1. */
  function IndexByte(s: string, c: char): (i: int)
    ensures -1 <= i < |s|
    ensures i == -1 ==> c !in s
    ensures i >= 0 ==> s[i] == c && c !in s[..i]
  {
    if s == "" then -1
    else if s[0] == c then 0
    else
      var i := IndexByte(s[1..], c);
      assert i >= 0 ==> s[..i + 1] == [s[0]] + s[1..][..i];
      if i == -1 then -1 else i + 1
  }

  lemma NoneBefore(s: string, c: char, k: int)
    requires 0 <= k < IndexByte(s, c)
    ensures s[k] != c
  {
    assert s[..IndexByte(s, c)][k] == s[k];
  }

  /** The first c of a + [c] + b is the one after a when a has none. */
  lemma FirstSeparator(a: string, c: char, b: string)
    requires c !in a
    ensures IndexByte(a + [c] + b, c) == |a|
    ensures (a + [c] + b)[..|a|] == a && (a + [c] + b)[|a| + 1..] == b
  {
    var s := a + [c] + b;
    assert s[|a|] == c;
    assert forall k :: 0 <= k < |a| ==> s[k] == a[k];
    if |a| < IndexByte(s, c) {
      NoneBefore(s, c, |a|);
    }
  }

  predicate HasPrefix(s: string, c: char) {
    s != "" && s[0] == c
  }

  predicate HasSuffix(s: string, c: char) {
    s != "" && s[|s| - 1] == c
  }

  /** strings.Split at every c. */
  function Split(s: string, c: char): (parts: seq<string>)
    ensures parts != []
    decreases |s|
  {
    var i := IndexByte(s, c);
    if i == -1 then [s] else [s[..i]] + Split(s[i + 1..], c)
  }

  /** strings.Join with c between the parts. */
  function Join(parts: seq<string>, c: char): string {
    if parts == [] then ""
    else if |parts| == 1 then parts[0]
    else parts[0] + [c] + Join(parts[1..], c)
  }

  lemma JoinCons(head: string, tail: seq<string>, c: char)
    requires tail != []
    ensures Join([head] + tail, c) == head + [c] + Join(tail, c)
  {
    assert ([head] + tail)[1..] == tail;
  }

  lemma {:induction false} JoinSplit(s: string, c: char)
    ensures Join(Split(s, c), c) == s
    decreases |s|
  {
    var i := IndexByte(s, c);
    if i >= 0 {
      var head, rest := s[..i], s[i + 1..];
      JoinSplit(rest, c);
      JoinCons(head, Split(rest, c), c);
      assert s == head + [c] + rest;
    }
  }

  lemma SplitCons(s: string, c: char)
    requires IndexByte(s, c) >= 0
    ensures Split(s, c) == [s[..IndexByte(s, c)]] + Split(s[IndexByte(s, c) + 1..], c)
  {
  }

  lemma HeadAndTail<T>(head: T, tail: seq<T>)
    ensures ([head] + tail)[0] == head && ([head] + tail)[1..] == tail
  {
  }

  lemma {:induction false} SplitAvoids(s: string, c: char, k: nat)
    requires k < |Split(s, c)|
    ensures c !in Split(s, c)[k]
    decreases |s|
  {
    var i := IndexByte(s, c);
    if i >= 0 {
      SplitCons(s, c);
      HeadAndTail(s[..i], Split(s[i + 1..], c));
      if k > 0 {
        SplitAvoids(s[i + 1..], c, k - 1);
      }
    }
  }

  lemma SplitJoined(head: string, c: char, rest: string, tail: seq<string>)
    requires c !in head && Split(rest, c) == tail
    ensures Split(head + [c] + rest, c) == [head] + tail
  {
    FirstSeparator(head, c, rest);
    SplitCons(head + [c] + rest, c);
  }

  lemma {:induction false} SplitJoin(parts: seq<string>, c: char)
    requires parts != [] && forall i :: 0 <= i < |parts| ==> c !in parts[i]
    ensures Split(Join(parts, c), c) == parts
    decreases |parts|
  {
    if |parts| == 1 {
      SplitAlone(parts[0], c);
      assert parts == [parts[0]];
    } else {
      var head, tail := parts[0], parts[1..];
      SplitJoin(tail, c);
      JoinCons(head, tail, c);
      SplitJoined(head, c, Join(tail, c), tail);
      assert [head] + tail == parts;
    }
  }

  lemma SplitAlone(s: string, c: char)
    requires c !in s
    ensures Split(s, c) == [s]
  {
  }

  /** A character of the joined text is in a part or is the separator. */
  lemma {:induction false} JoinAvoids(parts: seq<string>, c: char, d: char)
    requires c != d
    ensures d !in Join(parts, c) <==> forall i :: 0 <= i < |parts| ==> d !in parts[i]
    decreases |parts|
  {
    if |parts| == 1 {
      assert forall i :: 0 <= i < |parts| ==> parts[i] == parts[0];
    } else if |parts| > 1 {
      JoinAvoids(parts[1..], c, d);
      assert forall i :: 1 <= i < |parts| ==> parts[i] == parts[1..][i - 1];
      assert forall i :: 0 <= i < |parts[1..]| ==> parts[1..][i] == parts[i + 1];
    }
  }

  predicate AllDigits(s: string) {
    s != "" && forall i :: 0 <= i < |s| ==> '0' <= s[i] <= '9'
  }

  function Value(s: string): nat
    requires forall i :: 0 <= i < |s| ==> '0' <= s[i] <= '9'
  {
    if s == "" then 0 else Value(s[..|s| - 1]) * 10 + (s[|s| - 1] - '0') as nat
  }

  /** strconv.ParseUint(s, 10, 64) succeeds. */
  predicate IsUint64(s: string) {
    AllDigits(s) && Value(s) < 0x1_0000_0000_0000_0000
  }

  /** strconv.Atoi succeeds, on a 64-bit machine. */
  predicate IsInt(s: string) {
    if HasPrefix(s, '-') then AllDigits(s[1..]) && Value(s[1..]) <= 0x8000_0000_0000_0000
    else if HasPrefix(s, '+') then AllDigits(s[1..]) && Value(s[1..]) < 0x8000_0000_0000_0000
    else AllDigits(s) && Value(s) < 0x8000_0000_0000_0000
  }

  /** What strconv.Atoi finds. */
  function IntValue(s: string): int
    requires IsInt(s)
  {
    if HasPrefix(s, '-') then 0 - Value(s[1..]) as int
    else if HasPrefix(s, '+') then Value(s[1..])
    else Value(s)
  }

  /** Numbers are decimal. */
  lemma Decimal(s: string, d: nat)
    requires d < 10 && (s == "" || AllDigits(s))
    ensures Value("") == 0 && AllDigits(s + ['0' + d as char])
    ensures Value(s + ['0' + d as char]) == 10 * Value(s) + d
  {
    var c := '0' + d as char;
    assert (s + [c])[..|s|] == s && (s + [c])[|s|] == c;
  }

  /** They have to fit: 64 bits, one of them for the sign of an int. */
  lemma Unsigned(s: string)
    requires AllDigits(s)
    ensures IsUint64(s) <==> Value(s) <= 18446744073709551615
    ensures IsInt(s) <==> Value(s) <= 9223372036854775807
    ensures IsInt(s) ==> IntValue(s) == Value(s)
  {
  }

  lemma Signed(s: string)
    requires AllDigits(s)
    ensures IsInt("+" + s) <==> Value(s) <= 9223372036854775807
    ensures IsInt("-" + s) <==> Value(s) <= 9223372036854775808
    ensures IsInt("+" + s) ==> IntValue("+" + s) == Value(s)
    ensures IsInt("-" + s) ==> IntValue("-" + s) == 0 - (Value(s) as int)
  {
    HeadAndTail('+', s);
    HeadAndTail('-', s);
  }

  /** Nothing but digits makes a number, after one sign. */
  lemma OnlyDigits(s: string, i: nat)
    requires i < |s| && !('0' <= s[i] <= '9')
    ensures !IsUint64(s)
    ensures IsInt(s) ==> i == 0 && (s[0] == '+' || s[0] == '-')
  {
    if i > 0 {
      assert s[1..][i - 1] == s[i];
    }
  }
}

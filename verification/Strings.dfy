/** The string operations the workflow leans on. */
module Strings {

  predicate StartsWith(s: string, prefix: string) {
    |prefix| <= |s| && s[..|prefix|] == prefix
  }

  predicate EndsWith(s: string, suffix: string) {
    |suffix| <= |s| && s[|s| - |suffix|..] == suffix
  }

  predicate OneOf(s: string, words: seq<string>) {
    words != [] && (s == words[0] || OneOf(s, words[1..]))
  }

  /** The pieces between separators; always at least one. */
  function Split(s: string, sep: char): (parts: seq<string>)
    ensures parts != []
  {
    if s == "" then [""]
    else if s[0] == sep then [""] + Split(s[1..], sep)
    else
      var rest := Split(s[1..], sep);
      [[s[0]] + rest[0]] + rest[1..]
  }

  function NonEmpty(parts: seq<string>): seq<string> {
    if parts == [] then [] else (if parts[0] == "" then [] else [parts[0]]) + NonEmpty(parts[1..])
  }

  function RemovePrefix(s: string, prefix: string): string {
    if StartsWith(s, prefix) then s[|prefix|..] else s
  }

  /** `part` is what `whole` holds at these places, left to right. */
  ghost predicate Picked<T>(part: seq<T>, whole: seq<T>, at: seq<nat>) {
    && |at| == |part|
    && (forall k | 0 <= k < |at| :: at[k] < |whole| && part[k] == whole[at[k]])
    && Rising(at)
  }

  ghost predicate Rising(at: seq<nat>) {
    forall k, l | 0 <= k < l < |at| :: at[k] < at[l]
  }

  /** The same places, seen from `by` places further left. */
  function Shifted(at: seq<nat>, off: nat): (r: seq<nat>)
    ensures |r| == |at| && forall k | 0 <= k < |at| :: r[k] == at[k] + off
  {
    seq(|at|, k requires 0 <= k < |at| => at[k] + off)
  }

  lemma ShiftedHas(at: seq<nat>, off: nat, i: nat)
    requires i >= off
    ensures i in Shifted(at, off) <==> i - off in at
  {
    if i - off in at {
      var k :| 0 <= k < |at| && at[k] == i - off;
      assert Shifted(at, off)[k] == i;
    }
  }

  /** The places, once one more element stands in front. */
  function InFront(keep: bool, at: seq<nat>): seq<nat> {
    (if keep then [0] else []) + Shifted(at, 1)
  }

  lemma InFrontHas(keep: bool, at: seq<nat>, i: nat)
    ensures i in InFront(keep, at) <==> if i == 0 then keep else i - 1 in at
  {
    if i > 0 { ShiftedHas(at, 1, i); }
    assert i in InFront(keep, at) <==> (keep && i == 0) || i in Shifted(at, 1);
  }

  lemma PickedInFront<T>(part: seq<T>, whole: seq<T>, at: seq<nat>, head: T, keep: bool)
    requires Picked(part, whole, at)
    ensures Picked((if keep then [head] else []) + part, [head] + whole, InFront(keep, at))
  {
    var all, places := (if keep then [head] else []) + part, InFront(keep, at);
    var n := if keep then 1 else 0;
    forall k | 0 <= k < |places| ensures places[k] < |whole| + 1 && all[k] == ([head] + whole)[places[k]] {
      if k >= n { assert places[k] == at[k - n] + 1 && all[k] == part[k - n]; }
    }
  }

  /** Pieces hold no separator, and there is one piece exactly when the string holds none. */
  lemma {:induction false} SplitPieces(s: string, sep: char)
    ensures forall p | p in Split(s, sep) :: sep !in p
    ensures |Split(s, sep)| == 1 <==> sep !in s
    ensures sep !in s ==> Split(s, sep) == [s]
  {
    if s != "" {
      SplitPieces(s[1..], sep);
      assert s == [s[0]] + s[1..];
      var rest := Split(s[1..], sep);
      forall p | p in Split(s, sep) ensures sep !in p {
        if p !in rest && s[0] != sep { assert p == [s[0]] + rest[0]; assert rest[0] in rest; }
      }
    }
  }

  lemma Associative<T>(a: seq<T>, b: seq<T>, c: seq<T>)
    ensures a + b + c == a + (b + c)
  {
  }

  /** A dot-free head in front of a separator is the first piece. */
  lemma {:induction false} SplitHead(head: string, sep: char, tail: string)
    requires sep !in head
    ensures Split(head + [sep] + tail, sep) == [head] + Split(tail, sep)
  {
    if head == "" {
      assert head + [sep] + tail == [sep] + tail;
    } else {
      assert head + [sep] + tail == [head[0]] + (head[1..] + [sep] + tail);
      SplitHead(head[1..], sep, tail);
      assert (head + [sep] + tail)[1..] == head[1..] + [sep] + tail;
      assert [head[0]] + head[1..] == head;
    }
  }
}

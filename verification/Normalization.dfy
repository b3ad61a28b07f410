/** Identity keys: the sorted set of a title's words, joined. Titles are taken already folded and case-folded. */
module Normalization {

  predicate TokenChar(c: char) {
    'a' <= c <= 'z' || '0' <= c <= '9'
  }

  /** Length of the leading run of token characters. */
  function Run(s: string): (n: nat)
    ensures n <= |s|
    ensures forall i | 0 <= i < n :: TokenChar(s[i])
    ensures n < |s| ==> !TokenChar(s[n])
  {
    if s == "" || !TokenChar(s[0]) then 0 else 1 + Run(s[1..])
  }

  /** All maximal runs of token characters, left to right. */
  function Tokens(s: string): seq<string>
    decreases |s|
  {
    if s == "" then []
    else if Run(s) == 0 then Tokens(s[1..])
    else [s[..Run(s)]] + Tokens(s[Run(s)..])
  }

  // ---- Order on words ----

  predicate Less(a: string, b: string) {
    b != "" && (a == "" || a[0] < b[0] || (a[0] == b[0] && Less(a[1..], b[1..])))
  }

  lemma {:induction false} LessTotal(a: string, b: string)
    ensures a == b || Less(a, b) || Less(b, a)
  {
    if a != "" && b != "" && a[0] == b[0] {
      LessTotal(a[1..], b[1..]);
      assert a == [a[0]] + a[1..] && b == [b[0]] + b[1..];
    }
  }

  lemma {:induction false} LessIrreflexive(a: string)
    ensures !Less(a, a)
  {
    if a != "" { LessIrreflexive(a[1..]); }
  }

  lemma {:induction false} LessTransitive(a: string, b: string, c: string)
    requires Less(a, b) && Less(b, c)
    ensures Less(a, c)
  {
    if a != "" && a[0] == b[0] && b[0] == c[0] { LessTransitive(a[1..], b[1..], c[1..]); }
  }

  ghost predicate Sorted(words: seq<string>) {
    forall i, j | 0 <= i < j < |words| :: Less(words[i], words[j])
  }

  function Members(words: seq<string>): set<string> {
    set w | w in words
  }

  /** Insert into a sorted list, unless already there. */
  function Insert(words: seq<string>, w: string): seq<string> {
    if words == [] then [w]
    else if w == words[0] then words
    else if Less(w, words[0]) then [w] + words
    else [words[0]] + Insert(words[1..], w)
  }

  function SortedSet(words: seq<string>): seq<string> {
    if words == [] then [] else Insert(SortedSet(words[1..]), words[0])
  }

  lemma {:induction false} InsertSorts(words: seq<string>, w: string)
    requires Sorted(words)
    ensures Sorted(Insert(words, w))
    ensures forall v :: v in Insert(words, w) <==> v in words || v == w
  {
    if words != [] && w != words[0] {
      if Less(w, words[0]) {
        forall j | 0 <= j < |words| ensures Less(w, words[j]) {
          if j > 0 { LessTransitive(w, words[0], words[j]); }
        }
      } else {
        LessTotal(w, words[0]);
        InsertSorts(words[1..], w);
        var rest := Insert(words[1..], w);
        forall j | 0 <= j < |rest| ensures Less(words[0], rest[j]) {
          assert rest[j] in words[1..] || rest[j] == w;
        }
        assert forall v :: v in words <==> v == words[0] || v in words[1..];
      }
    }
  }

  lemma {:induction false} SortedSetSorts(words: seq<string>)
    ensures Sorted(SortedSet(words))
    ensures Members(SortedSet(words)) == Members(words)
  {
    if words != [] {
      SortedSetSorts(words[1..]);
      InsertSorts(SortedSet(words[1..]), words[0]);
      forall v ensures v in SortedSet(words) <==> v in words {
        assert v in words <==> v == words[0] || v in words[1..];
        assert v in Members(words[1..]) <==> v in Members(SortedSet(words[1..]));
      }
    }
  }

  lemma HeadIsLeast(words: seq<string>, w: string)
    requires Sorted(words) && w in words
    ensures w == words[0] || Less(words[0], w)
  {
    var i :| 0 <= i < |words| && words[i] == w;
  }

  lemma EmptyIff(words: seq<string>)
    ensures Members(words) == {} <==> words == []
  {
    if words != [] { assert words[0] in Members(words); }
  }

  /** A sorted list without repeats is determined by its members. */
  lemma {:induction false} SortedCanonical(a: seq<string>, b: seq<string>)
    requires Sorted(a) && Sorted(b) && Members(a) == Members(b)
    ensures a == b
  {
    EmptyIff(a);
    EmptyIff(b);
    if a != [] {
      assert a[0] in Members(b);
      var i :| 0 <= i < |b| && b[i] == a[0];
      assert b[0] in Members(a);
      HeadIsLeast(a, b[0]);
      HeadIsLeast(b, a[0]);
      if a[0] != b[0] {
        LessTransitive(a[0], b[0], a[0]);
        LessIrreflexive(a[0]);
      }
      forall w ensures w in a[1..] <==> w in b[1..] {
        TailMembers(a, w);
        TailMembers(b, w);
        assert w in Members(a) <==> w in Members(b);
      }
      SortedCanonical(a[1..], b[1..]);
    }
  }

  lemma TailMembers(words: seq<string>, w: string)
    requires Sorted(words) && words != []
    ensures w in words[1..] <==> w in words && w != words[0]
  {
    if w in words[1..] {
      var i :| 0 <= i < |words| - 1 && words[1..][i] == w;
      assert Less(words[0], words[i + 1]);
      LessIrreflexive(w);
    }
  }

  // ---- The join ----

  function Join(words: seq<string>, sep: char): string {
    if words == [] then "" else if |words| == 1 then words[0] else words[0] + [sep] + Join(words[1..], sep)
  }

  predicate Word(w: string) {
    w != "" && forall i | 0 <= i < |w| :: TokenChar(w[i])
  }

  lemma {:induction false} RunOfWord(w: string, rest: string)
    requires forall i | 0 <= i < |w| :: TokenChar(w[i])
    requires rest == "" || !TokenChar(rest[0])
    ensures Run(w + rest) == |w|
  {
    if w == "" {
      assert w + rest == rest;
    } else {
      assert (w + rest)[1..] == w[1..] + rest;
      RunOfWord(w[1..], rest);
    }
  }

  /** What follows the first word of a join. */
  function Rest(words: seq<string>): string
    requires words != []
  {
    if |words| == 1 then "" else "|" + Join(words[1..], '|')
  }

  lemma JoinSplits(words: seq<string>)
    requires words != [] && forall w | w in words :: Word(w)
    ensures Join(words, '|') == words[0] + Rest(words)
    ensures Run(Join(words, '|')) == |words[0]| > 0
  {
    assert Word(words[0]);
    RunOfWord(words[0], Rest(words));
  }

  /** No two lists of words join to the same key. */
  lemma {:induction false} JoinInjective(a: seq<string>, b: seq<string>)
    requires (forall w | w in a :: Word(w)) && (forall w | w in b :: Word(w))
    requires Join(a, '|') == Join(b, '|')
    ensures a == b
    decreases |a|
  {
    if a != [] { JoinSplits(a); }
    if b != [] { JoinSplits(b); }
    if a != [] && b != [] {
      var key := Join(a, '|');
      assert key[..|a[0]|] == a[0] && key[..|b[0]|] == b[0];
      assert key[|a[0]|..] == Rest(a) && key[|b[0]|..] == Rest(b);
      if Rest(a) == "" {
        assert a == [a[0]] && b == [b[0]];
      } else {
        assert Rest(a)[1..] == Join(a[1..], '|') && Rest(b)[1..] == Join(b[1..], '|');
        JoinInjective(a[1..], b[1..]);
      }
    }
  }

  // ---- Keys ----

  function IdentityKey(text: string): string {
    Join(SortedSet(Tokens(text)), '|')
  }

  lemma {:induction false} TokensAreWords(s: string)
    ensures forall w | w in Tokens(s) :: Word(w)
    decreases |s|
  {
    if s != "" {
      if Run(s) == 0 { TokensAreWords(s[1..]); } else { TokensAreWords(s[Run(s)..]); }
    }
  }

  /** Two titles have the same key exactly when they are made of the same set of words. */
  lemma KeysEqualIff(s: string, t: string)
    ensures IdentityKey(s) == IdentityKey(t) <==> Members(Tokens(s)) == Members(Tokens(t))
  {
    SortedSetSorts(Tokens(s));
    SortedSetSorts(Tokens(t));
    if Members(Tokens(s)) == Members(Tokens(t)) {
      SortedCanonical(SortedSet(Tokens(s)), SortedSet(Tokens(t)));
    }
    if IdentityKey(s) == IdentityKey(t) {
      TokensAreWords(s);
      TokensAreWords(t);
      assert forall w | w in SortedSet(Tokens(s)) :: w in Members(Tokens(s));
      assert forall w | w in SortedSet(Tokens(t)) :: w in Members(Tokens(t));
      JoinInjective(SortedSet(Tokens(s)), SortedSet(Tokens(t)));
    }
  }

  lemma {:induction false} RunConcat(a: string, b: string)
    requires b != "" && !TokenChar(b[0])
    ensures Run(a + b) == Run(a)
  {
    if a == "" {
      assert a + b == b;
    } else if TokenChar(a[0]) {
      assert (a + b)[1..] == a[1..] + b;
      RunConcat(a[1..], b);
    }
  }

  /** A separator splits the reading: the words before it, then the words after it. */
  lemma {:induction false} TokensConcat(a: string, b: string)
    requires b != "" && !TokenChar(b[0])
    ensures Tokens(a + b) == Tokens(a) + Tokens(b[1..])
    decreases |a|
  {
    if a == "" {
      assert a + b == b;
    } else {
      RunConcat(a, b);
      var n := Run(a);
      if n == 0 {
        assert (a + b)[1..] == a[1..] + b;
        TokensConcat(a[1..], b);
      } else {
        assert (a + b)[n..] == a[n..] + b && (a + b)[..n] == a[..n];
        TokensConcat(a[n..], b);
        assert Tokens(a) == [a[..n]] + Tokens(a[n..]);
      }
    }
  }

  predicate Separator(s: string) {
    s != "" && forall i | 0 <= i < |s| :: !TokenChar(s[i])
  }

  lemma TokensAround(a: string, sep: string, b: string)
    requires Separator(sep)
    ensures Tokens(a + sep + b) == Tokens(a) + Tokens(b)
  {
    assert a + sep + b == a + (sep + b);
    TokensConcat(a, sep + b);
    assert (sep + b)[1..] == sep[1..] + b;
    TokensSkip(sep[1..], b);
  }

  lemma {:induction false} TokensSkip(sep: string, b: string)
    requires forall i | 0 <= i < |sep| :: !TokenChar(sep[i])
    ensures Tokens(sep + b) == Tokens(b)
  {
    if sep == "" {
      assert sep + b == b;
    } else {
      assert (sep + b)[1..] == sep[1..] + b;
      TokensSkip(sep[1..], b);
    }
  }

  /** Word order, repetition, punctuation and spacing never change a key. */
  lemma KeyIgnoresArrangement(a: string, b: string, sep: string, other: string)
    requires Separator(sep) && Separator(other)
    ensures IdentityKey(a + sep + b) == IdentityKey(b + other + a)
    ensures IdentityKey(a + sep + a) == IdentityKey(a)
    ensures IdentityKey(sep + a + other) == IdentityKey(a)
  {
    TokensAround(a, sep, b);
    TokensAround(b, other, a);
    assert Members(Tokens(a) + Tokens(b)) == Members(Tokens(b) + Tokens(a));
    KeysEqualIff(a + sep + b, b + other + a);
    TokensAround(a, sep, a);
    assert Members(Tokens(a) + Tokens(a)) == Members(Tokens(a));
    KeysEqualIff(a + sep + a, a);
    TokensAround(sep + a, other, "");
    assert sep + a + other + "" == sep + a + other;
    TokensSkip(sep, a);
    assert Tokens(a) + [] == Tokens(a);
  }

  /** A run of token characters that no token character adjoins. */
  predicate MaximalRun(s: string, i: nat, j: nat) {
    && i < j <= |s|
    && (forall k | i <= k < j :: TokenChar(s[k]))
    && (i == 0 || !TokenChar(s[i - 1]))
    && (j == |s| || !TokenChar(s[j]))
  }

  /** No run goes on across this place. */
  predicate Between(s: string, k: nat) {
    k <= |s| && (k == 0 || k == |s| || !TokenChar(s[k - 1]) || !TokenChar(s[k]))
  }

  ghost predicate RunsAs(s: string, from: nat, t: string) {
    exists i, j | from <= i < j <= |s| && MaximalRun(s, i, j) :: s[i..j] == t
  }

  lemma {:induction false} TokensFrom(s: string, from: nat, t: string)
    requires Between(s, from)
    ensures t in Tokens(s[from..]) <==> RunsAs(s, from, t)
    decreases |s| - from
  {
    if from < |s| {
      var rest := s[from..];
      var n := Run(rest);
      if n == 0 {
        assert rest[1..] == s[from + 1..] && rest[0] == s[from];
        TokensFrom(s, from + 1, t);
      } else {
        assert rest[n..] == s[from + n..] && rest[..n] == s[from..from + n];
        assert forall k | from <= k < from + n :: rest[k - from] == s[k];
        if from + n < |s| { assert rest[n] == s[from + n]; }
        FirstRunIs(s, from, n, t);
        TokensFrom(s, from + n, t);
      }
    }
  }

  lemma FirstRunIs(s: string, from: nat, n: nat, t: string)
    requires Between(s, from) && 0 < n && from + n <= |s|
    requires (forall k | from <= k < from + n :: TokenChar(s[k])) && (from + n == |s| || !TokenChar(s[from + n]))
    ensures RunsAs(s, from, t) <==> s[from..from + n] == t || RunsAs(s, from + n, t)
  {
    assert TokenChar(s[from]);
    assert MaximalRun(s, from, from + n);
    forall i, j | from <= i < j <= |s| && MaximalRun(s, i, j) && s[i..j] == t
      ensures s[from..from + n] == t || RunsAs(s, from + n, t)
    {
      if i < from + n {
        assert i == from;
        assert j == from + n;
      }
    }
  }

  /** The words are the maximal runs of letters and digits, each and no others. */
  lemma TokenIff(s: string, t: string)
    ensures t in Tokens(s) <==> exists i, j | 0 <= i < j <= |s| && MaximalRun(s, i, j) :: s[i..j] == t
  {
    assert s[0..] == s;
    TokensFrom(s, 0, t);
  }
}

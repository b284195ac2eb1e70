/** Facts about sequences that the solver does not find on its own. */
module Sequences {
  lemma Associate<T>(a: seq<T>, b: seq<T>, c: seq<T>)
    ensures a + b + c == a + (b + c)
    ensures a + b + [] == a + b && a + [] == a
  {
  }

  /** The first place where `c` is, or the length of `s`. */
  function IndexOf<T(==)>(s: seq<T>, c: T): (k: nat)
    ensures k <= |s| && c !in s[..k]
    ensures k < |s| ==> s[k] == c
  {
    if s == [] || s[0] == c then 0
    else
      var k := 1 + IndexOf(s[1..], c);
      assert s[..k] == [s[0]] + s[1..][..k - 1];
      k
  }

  lemma IndexOfFirst<T>(a: seq<T>, c: T, rest: seq<T>)
    requires c !in a
    ensures IndexOf(a + [c] + rest, c) == |a|
    ensures IndexOf(a, c) == |a|
  {
    var s := a + [c] + rest;
    var k := IndexOf(s, c);
    assert s[|a|] == c && s[..|a|] == a;
  }

  /** A word, the character that ends it, and what follows. */
  lemma SplitFirst<T>(word: seq<T>, c: T, rest: seq<T>)
    requires c !in word
    ensures var s := word + ([c] + rest); IndexOf(s, c) == |word| && s[..|word|] == word && s[|word| + 1..] == rest
  {
    Associate(word, [c], rest);
    IndexOfFirst(word, c, rest);
  }

  /** What is left of `s` after `prefix`. */
  function Strip<T(==)>(prefix: seq<T>, s: seq<T>): (r: seq<T>)
    requires prefix <= s
    ensures prefix + r == s
  {
    s[|prefix|..]
  }

  lemma StripPrefix<T>(prefix: seq<T>, rest: seq<T>)
    ensures prefix <= prefix + rest && Strip(prefix, prefix + rest) == rest
  {
  }
}

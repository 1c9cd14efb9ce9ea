/** String primitives the program relies on: the case-insensitive prefix
    test, the first-occurrence search and the removal of every occurrence of a
    character. Strings are `seq<char>`; case folding is ASCII only. */
module Text {

  /** ASCII case folding: upper-case Latin letters map to their lower-case form,
      every other character to itself. */
  function Fold(c: char): (r: char)
    ensures !('A' <= r <= 'Z')
    ensures r != c ==> 'A' <= c <= 'Z' && r as int == c as int + 32
  {
    if 'A' <= c <= 'Z' then (c as int + 32) as char else c
  }

  /** `s` starts with `prefix` when letters are compared without regard to case. */
  predicate StartsWithIgnoreCase(s: string, prefix: string) {
    |prefix| <= |s| && forall i :: 0 <= i < |prefix| ==> Fold(s[i]) == Fold(prefix[i])
  }

  /** `a` and `b` are the same string when letters are compared without regard
      to case. */
  predicate EqualsIgnoreCase(a: string, b: string) {
    |a| == |b| && StartsWithIgnoreCase(a, b)
  }

  /** A character that case folding does not move occurs in a string exactly
      where it occurs in any string equal to it up to case. */
  lemma FoldFixedAt(s: string, prefix: string, i: int, c: char)
    requires StartsWithIgnoreCase(s, prefix)
    requires 0 <= i < |prefix|
    requires !('A' <= c <= 'Z') && !('a' <= c <= 'z')
    ensures s[i] == c <==> prefix[i] == c
  {
    assert Fold(s[i]) == Fold(prefix[i]);
  }

  /** Index of the first occurrence of `c` in `s`, or -1 when there is none. */
  function IndexOf(s: string, c: char): (r: int)
    ensures -1 <= r < |s|
    ensures r == -1 <==> c !in s
    ensures 0 <= r ==> s[r] == c && c !in s[..r]
  {
    IndexFrom(s, c, 0)
  }

  /** A position holding `c` with no `c` before it is the one IndexOf finds. */
  lemma IndexOfFirst(s: string, c: char, k: int)
    requires 0 <= k < |s| && s[k] == c && c !in s[..k]
    ensures IndexOf(s, c) == k
  {
    var r := IndexOf(s, c);
    assert forall j :: 0 <= j < k ==> s[..k][j] == s[j];
    assert forall j :: 0 <= j < r ==> s[..r][j] == s[j];
  }

  /** Index of the first occurrence of `c` in `s` at or after `from`, or -1. */
  function IndexFrom(s: string, c: char, from: nat): (r: int)
    requires from <= |s| && c !in s[..from]
    ensures -1 <= r < |s|
    ensures r == -1 <==> c !in s
    ensures 0 <= r ==> from <= r && s[r] == c && c !in s[..r]
    decreases |s| - from
  {
    if from == |s| then
      assert s[..from] == s;
      -1
    else if s[from] == c then from
    else
      assert s[..from + 1] == s[..from] + [s[from]];
      IndexFrom(s, c, from + 1)
  }

  /** `s` with every occurrence of `c` removed, the other characters kept. */
  function RemoveAll(s: string, c: char): (r: string)
    ensures c !in r
    ensures |r| <= |s|
  {
    if |s| == 0 then []
    else Kept(s[0], c) + RemoveAll(s[1..], c)
  }

  /** Two names free of `sep` that each follow `p` at the start of `s` and are
      each followed there by `sep` are the same name. */
  lemma SeparatedNamesEqual(s: string, p: string, sep: char, name1: string, name2: string)
    requires sep !in name1 && sep !in name2
    requires p + name1 + [sep] <= s && p + name2 + [sep] <= s
    ensures name1 == name2
  {
    var m := |p|;
    assert forall j :: 0 <= j < |name1| ==> s[m + j] == (p + name1 + [sep])[m + j] == name1[j] != sep;
    assert forall j :: 0 <= j < |name2| ==> s[m + j] == (p + name2 + [sep])[m + j] == name2[j] != sep;
    assert s[m + |name1|] == (p + name1 + [sep])[m + |name1|] == sep;
    assert s[m + |name2|] == (p + name2 + [sep])[m + |name2|] == sep;
  }

  /** Removal keeps every other character as often as it occurs. */
  lemma {:induction false} RemoveAllCounts(s: string, c: char)
    ensures multiset(RemoveAll(s, c)) == multiset(s)[c := 0]
  {
    if |s| > 0 {
      RemoveAllCounts(s[1..], c);
      assert s == [s[0]] + s[1..];
      assert multiset(RemoveAll(s, c)) == multiset(Kept(s[0], c)) + multiset(RemoveAll(s[1..], c));
      DropCount(s[0], multiset(s[1..]), c);
    }
  }

  /** What removal keeps of one character. */
  function Kept(x: char, c: char): string {
    if x == c then [] else [x]
  }

  /** Zeroing the count of `c` in a multiset that holds one more `x`. */
  lemma DropCount(x: char, m: multiset<char>, c: char)
    ensures (multiset{x} + m)[c := 0] == multiset(Kept(x, c)) + m[c := 0]
  {
  }

  /** Removing a character that does not occur changes nothing. */
  lemma {:induction false} RemoveAllAbsent(s: string, c: char)
    requires c !in s
    ensures RemoveAll(s, c) == s
  {
    if |s| > 0 {
      assert s[0] != c && c !in s[1..];
      RemoveAllAbsent(s[1..], c);
      assert RemoveAll(s, c) == [s[0]] + s[1..] == s;
    }
  }

  /** Removal keeps the relative order of what it keeps: it distributes over
      concatenation. */
  lemma {:induction false} RemoveAllAppend(a: string, b: string, c: char)
    ensures RemoveAll(a + b, c) == RemoveAll(a, c) + RemoveAll(b, c)
  {
    if |a| > 0 {
      assert (a + b)[1..] == a[1..] + b;
      RemoveAllAppend(a[1..], b, c);
    } else {
      assert a + b == b;
    }
  }
}

/** Sequence helpers that stand for the JavaScript built-ins the widget calls:
    `Array.prototype.indexOf`, `splice(i, 1)`, `String.prototype.split(".")`
    (as far as the widget uses it) and `String.prototype.includes`. */
module Seqs {

  /** `indexOf`: the first position of `x` in `s`, or -1 when `x` does not occur. */
  function IndexOf<T(==)>(s: seq<T>, x: T): (r: int)
    ensures -1 <= r < |s|
    ensures r == -1 <==> x !in s
    ensures 0 <= r ==> s[r] == x && x !in s[..r]
  {
    if |s| == 0 then -1
    else if s[0] == x then 0
    else
      var k := IndexOf(s[1..], x);
      assert s[1..][..if k < 0 then 0 else k] == s[1..1 + if k < 0 then 0 else k];
      if k < 0 then -1 else k + 1
  }

  /** The first occurrence of `x` follows a prefix that does not contain it. */
  lemma {:induction false} IndexOfAfterPrefix<T>(w: seq<T>, x: T, rest: seq<T>)
    requires x !in w
    ensures IndexOf(w + [x] + rest, x) == |w|
  {
    if |w| > 0 {
      assert (w + [x] + rest)[1..] == w[1..] + [x] + rest;
      IndexOfAfterPrefix(w[1..], x, rest);
    }
  }

  /** `splice(i, 1)`: the sequence without its element at position `i`. */
  function RemoveAt<T>(s: seq<T>, i: nat): (r: seq<T>)
    requires i < |s|
    ensures |r| == |s| - 1
    ensures forall j :: 0 <= j < i ==> r[j] == s[j]
    ensures forall j :: i <= j < |r| ==> r[j] == s[j + 1]
  {
    s[..i] + s[i + 1..]
  }

  /** Splicing out position `i` removes one copy of `s[i]`. */
  lemma RemoveAtMultiset<T>(s: seq<T>, i: nat)
    requires i < |s|
    ensures multiset(RemoveAt(s, i)) == multiset(s) - multiset{s[i]}
  {
    assert s == s[..i] + [s[i]] + s[i + 1..];
    assert multiset(s) == multiset(s[..i]) + multiset{s[i]} + multiset(s[i + 1..]);
  }

  /** How many times `x` occurs in `s`. */
  function Count<T(==)>(s: seq<T>, x: T): (r: nat)
  {
    multiset(s)[x]
  }

  /** No element occurs twice. */
  predicate NoDuplicates<T(==)>(s: seq<T>)
  {
    forall i, j :: 0 <= i < j < |s| ==> s[i] != s[j]
  }

  /** Splicing out one element keeps a sequence duplicate-free. */
  lemma RemoveAtKeepsNoDuplicates<T>(s: seq<T>, i: nat)
    requires i < |s| && NoDuplicates(s)
    ensures NoDuplicates(RemoveAt(s, i))
  {
    var r := RemoveAt(s, i);
    forall a, b | 0 <= a < b < |r| ensures r[a] != r[b] {
      var a' := if a < i then a else a + 1;
      var b' := if b < i then b else b + 1;
      assert r[a] == s[a'] && r[b] == s[b'];
    }
  }

  /** Appending an absent element keeps a sequence duplicate-free. */
  lemma AppendAbsentKeepsNoDuplicates<T>(s: seq<T>, x: T)
    requires x !in s && NoDuplicates(s)
    ensures NoDuplicates(s + [x])
  {
    var r := s + [x];
    forall a, b | 0 <= a < b < |r| ensures r[a] != r[b] {
      assert r[a] == s[a];
    }
  }

  /** `t.includes(sub)` on strings: `sub` occurs in `t` as a contiguous block. */
  predicate IsSubstring<T(==)>(sub: seq<T>, t: seq<T>)
    ensures IsSubstring(sub, t) ==> |sub| <= |t|
    // every text includes the empty text
    ensures sub == [] ==> IsSubstring(sub, t)
    decreases |t|
  {
    sub <= t || (|t| > 0 && IsSubstring(sub, t[1..]))
  }

  /** `sub` occurs in `t` starting at position `i`. */
  predicate OccursAt<T(==)>(sub: seq<T>, t: seq<T>, i: nat)
  {
    i + |sub| <= |t| && t[i..i + |sub|] == sub
  }

  /** The recursive definition agrees with "occurs at some position". */
  lemma {:induction false} IsSubstringAt<T>(sub: seq<T>, t: seq<T>)
    ensures IsSubstring(sub, t) <==> exists i: nat :: OccursAt(sub, t, i)
    decreases |t|
  {
    if sub <= t {
      assert OccursAt(sub, t, 0);
    } else if |t| == 0 {
    } else {
      IsSubstringAt(sub, t[1..]);
      if IsSubstring(sub, t[1..]) {
        var i: nat :| OccursAt(sub, t[1..], i);
        assert t[i + 1..i + 1 + |sub|] == t[1..][i..i + |sub|];
        assert OccursAt(sub, t, i + 1);
      }
      if exists i: nat :: OccursAt(sub, t, i) {
        var i: nat :| OccursAt(sub, t, i);
        if i != 0 {
          assert t[1..][i - 1..i - 1 + |sub|] == t[i..i + |sub|];
          assert OccursAt(sub, t[1..], i - 1);
        }
      }
    }
  }
}

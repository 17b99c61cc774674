/** Sequence operations the store and the market view are built from: find the first
    element with a key (`findIndex`, `find`), keep or drop the elements with a key
    (`filter`), and reversal. Elements are identified through a key function. */
module Seqs {

  import opened Types

  /** `r` is `s` with some elements left out and the rest in their original order. */
  predicate IsSubsequence<T(==)>(r: seq<T>, s: seq<T>)
  {
    r == [] || (s != [] && ((r[0] == s[0] && IsSubsequence(r[1..], s[1..])) || IsSubsequence(r, s[1..])))
  }

  /** Putting an element in front of the longer side keeps a subsequence. */
  lemma {:induction false} SubsequenceCons<T>(r: seq<T>, s: seq<T>, x: T)
    requires IsSubsequence(r, s)
    ensures IsSubsequence(r, [x] + s)
  {
    assert ([x] + s)[1..] == s;
  }

  /** Every element of a subsequence is an element of the whole. */
  lemma {:induction false} SubsequenceMembers<T>(r: seq<T>, s: seq<T>, x: T)
    requires IsSubsequence(r, s) && x in r
    ensures x in s
  {
    if r[0] == s[0] && IsSubsequence(r[1..], s[1..]) {
      if x != r[0] {
        SubsequenceMembers(r[1..], s[1..], x);
      }
    } else {
      SubsequenceMembers(r, s[1..], x);
    }
  }

  /** `s.findIndex(x => key(x) === k)`, with -1 as None. */
  function IndexOfKey<T>(s: seq<T>, key: T -> string, k: string): (r: Option<nat>)
    ensures r.Some? ==> r.value < |s| && key(s[r.value]) == k
                        && forall i :: 0 <= i < r.value ==> key(s[i]) != k
    ensures r.None? <==> forall i :: 0 <= i < |s| ==> key(s[i]) != k
  {
    if s == [] then None
    else if key(s[0]) == k then Some(0)
    else match IndexOfKey(s[1..], key, k)
      case None => None
      case Some(i) => Some(i + 1)
  }

  /** Extending `s` at the back leaves an existing first match where it was. */
  lemma IndexOfKeySnoc<T>(s: seq<T>, key: T -> string, x: T, k: string)
    ensures IndexOfKey(s + [x], key, k)
            == if IndexOfKey(s, key, k).Some? then IndexOfKey(s, key, k)
               else if key(x) == k then Some(|s|) else None
  {
    var t := s + [x];
    assert t[|s|] == x;
    assert forall j :: 0 <= j < |s| ==> t[j] == s[j];
    match IndexOfKey(s, key, k)
    case None =>
      if key(x) == k {
        assert IndexOfKey(t, key, k) == Some(|s|);
      }
    case Some(i) =>
      assert IndexOfKey(t, key, k) == Some(i);
  }

  /** `s.find(x => key(x) === k) ?? null`. */
  function FindByKey<T>(s: seq<T>, key: T -> string, k: string): (r: Option<T>)
    ensures r.None? <==> forall i :: 0 <= i < |s| ==> key(s[i]) != k
    ensures r.Some? ==> exists i :: 0 <= i < |s| && s[i] == r.value && key(s[i]) == k
                                    && forall j :: 0 <= j < i ==> key(s[j]) != k
  {
    match IndexOfKey(s, key, k)
    case None => None
    case Some(i) => Some(s[i])
  }

  /** `s.filter(keep)`: the elements `keep` accepts, in their order. */
  function Filter<T(==,!new)>(s: seq<T>, keep: T -> bool): (r: seq<T>)
    ensures forall i :: 0 <= i < |r| ==> keep(r[i])
    ensures forall x :: x in r <==> x in s && keep(x)
    ensures IsSubsequence(r, s)
    ensures |r| == |s| <==> forall i :: 0 <= i < |s| ==> keep(s[i])
    ensures |r| <= |s|
  {
    if s == [] then []
    else
      var rest := Filter(s[1..], keep);
      assert forall i :: 1 <= i < |s| ==> s[i] == s[1..][i - 1];
      if keep(s[0]) then
        assert ([s[0]] + rest)[1..] == rest;
        [s[0]] + rest
      else
        SubsequenceCons(rest, s[1..], s[0]);
        assert [s[0]] + s[1..] == s;
        rest
  }

  /** Filtering a list in two parts filters each part; a single element is kept
      exactly when `keep` accepts it. Together these fix the result element by
      element: every accepted element once, in its place. */
  lemma {:induction false} FilterSplit<T(!new)>(a: seq<T>, b: seq<T>, keep: T -> bool)
    ensures Filter(a + b, keep) == Filter(a, keep) + Filter(b, keep)
    ensures |a| == 1 ==> Filter(a, keep) == if keep(a[0]) then a else []
  {
    if a == [] {
      assert a + b == b;
    } else {
      assert (a + b)[0] == a[0] && (a + b)[1..] == a[1..] + b;
      FilterSplit(a[1..], b, keep);
      if |a| == 1 {
        assert a[1..] == [];
      }
    }
  }

  /** A narrower filter keeps an order-preserving selection of what a wider one keeps. */
  lemma {:induction false} FilterNarrower<T(!new)>(s: seq<T>, narrow: T -> bool, wide: T -> bool)
    requires forall x :: narrow(x) ==> wide(x)
    ensures IsSubsequence(Filter(s, narrow), Filter(s, wide))
  {
    if s != [] {
      FilterNarrower(s[1..], narrow, wide);
      var n, w := Filter(s[1..], narrow), Filter(s[1..], wide);
      if narrow(s[0]) {
        assert ([s[0]] + n)[1..] == n && ([s[0]] + w)[1..] == w;
      } else if wide(s[0]) {
        SubsequenceCons(n, w, s[0]);
      }
    }
  }

  /** `s.filter(x => key(x) !== k)`. */
  function RemoveKey<T(==,!new)>(s: seq<T>, key: T -> string, k: string): (r: seq<T>)
    ensures forall x :: x in r <==> x in s && key(x) != k
    ensures IsSubsequence(r, s)
    ensures |r| == |s| <==> forall i :: 0 <= i < |s| ==> key(s[i]) != k
    ensures |r| <= |s|
  {
    Filter(s, KeyIsNot(key, k))
  }

  /** `x => key(x) !== k`. */
  function KeyIsNot<T>(key: T -> string, k: string): T -> bool {
    x => key(x) != k
  }

  /** Dropping the key from a list in two parts drops it from each part; a single
      element is dropped exactly when it has the key. */
  lemma RemoveKeySplit<T(!new)>(a: seq<T>, b: seq<T>, key: T -> string, k: string)
    ensures RemoveKey(a + b, key, k) == RemoveKey(a, key, k) + RemoveKey(b, key, k)
    ensures |a| == 1 ==> RemoveKey(a, key, k) == if key(a[0]) == k then [] else a
  {
    FilterSplit(a, b, KeyIsNot(key, k));
  }

  /** `s.filter(x => key(x) === k)`: the elements with key `k`, in order. Written from
      the back so that extending `s` by one element extends the result by at most one. */
  function WithKey<T(==,!new)>(s: seq<T>, key: T -> string, k: string): (r: seq<T>)
    ensures forall x :: x in r <==> x in s && key(x) == k
    ensures IsSubsequence(r, s)
    ensures r == [] <==> forall i :: 0 <= i < |s| ==> key(s[i]) != k
  {
    if s == [] then []
    else
      var init := s[..|s| - 1];
      var last := s[|s| - 1];
      assert forall x :: x in s <==> x in init || x == last;
      var r := WithKey(init, key, k) + (if key(last) == k then [last] else []);
      SubsequenceSnoc(WithKey(init, key, k), init, last, key(last) == k);
      assert s == init + [last];
      r
  }

  /** Extending `s` at the back extends the elements with key `k` by at most that one. */
  lemma WithKeySnoc<T(!new)>(s: seq<T>, key: T -> string, x: T, k: string)
    ensures WithKey(s + [x], key, k) == WithKey(s, key, k) + (if key(x) == k then [x] else [])
  {
    assert (s + [x])[..|s|] == s;
  }

  /** Extending both sides by the same element, or only the longer one, keeps a subsequence. */
  lemma {:induction false} SubsequenceSnoc<T>(r: seq<T>, s: seq<T>, x: T, keep: bool)
    requires IsSubsequence(r, s)
    ensures IsSubsequence(r + (if keep then [x] else []), s + [x])
    decreases |s|
  {
    var r' := r + (if keep then [x] else []);
    if r == [] {
      if keep {
        assert r' == [x];
        SubsequenceOfSingleton(x, s);
      }
    } else {
      assert s != [];
      assert (s + [x])[1..] == s[1..] + [x];
      assert r'[0] == r[0];
      if r[0] == s[0] && IsSubsequence(r[1..], s[1..]) {
        SubsequenceSnoc(r[1..], s[1..], x, keep);
        assert r'[1..] == r[1..] + (if keep then [x] else []);
      } else {
        SubsequenceSnoc(r, s[1..], x, keep);
      }
    }
  }

  lemma {:induction false} SubsequenceOfSingleton<T>(x: T, s: seq<T>)
    ensures IsSubsequence([x], s + [x])
    decreases |s|
  {
    if s != [] {
      assert (s + [x])[1..] == s[1..] + [x];
      SubsequenceOfSingleton(x, s[1..]);
    }
  }

  /** After the first element with a key is overwritten by `x`, looking up `x`'s key
      finds `x` (update, then get). */
  lemma FindAfterReplace<T>(s: seq<T>, key: T -> string, i: nat, x: T)
    requires IndexOfKey(s, key, key(x)) == Some(i)
    ensures FindByKey(s[i := x], key, key(x)) == Some(x)
  {
    var s' := s[i := x];
    assert forall j :: 0 <= j < i ==> s'[j] == s[j];
    assert key(s'[i]) == key(x);
    match IndexOfKey(s', key, key(x))
    case None =>
    case Some(j) =>
      assert j <= i;
      assert j == i;
  }

  /** After every element with key `k` is dropped, looking up `k` finds nothing
      (delete, then get). */
  lemma FindAfterRemove<T(!new)>(s: seq<T>, key: T -> string, k: string)
    ensures FindByKey(RemoveKey(s, key, k), key, k).None?
  {
  }

  /** After `x` is put in front, looking up its key finds `x` (create, then get). */
  lemma FindAfterPrepend<T>(s: seq<T>, key: T -> string, x: T)
    ensures FindByKey([x] + s, key, key(x)) == Some(x)
  {
  }

  /** After `x` is put at the back, looking up its key finds the first element with
      that key, which is `x` only when no earlier element has it. */
  lemma FindAfterAppend<T>(s: seq<T>, key: T -> string, x: T)
    ensures FindByKey(s + [x], key, key(x))
            == if FindByKey(s, key, key(x)).Some? then FindByKey(s, key, key(x)) else Some(x)
  {
    IndexOfKeySnoc(s, key, x, key(x));
    assert (s + [x])[|s|] == x;
    assert forall j :: 0 <= j < |s| ==> (s + [x])[j] == s[j];
  }

  /** One more element of `s` extends its prefix by that element. */
  lemma PrefixSnoc<T>(s: seq<T>, n: nat)
    requires n < |s|
    ensures s[..n + 1] == s[..n] + [s[n]]
  {
  }

  /** `s` back to front. */
  function Reversed<T>(s: seq<T>): (r: seq<T>)
    ensures |r| == |s|
    ensures forall i :: 0 <= i < |s| ==> r[i] == s[|s| - 1 - i]
  {
    if s == [] then [] else Reversed(s[1..]) + [s[0]]
  }

  /** Reversal keeps the elements. */
  lemma ReversedMembers<T>(s: seq<T>, x: T)
    ensures x in Reversed(s) <==> x in s
  {
    var r := Reversed(s);
    if x in s {
      var i :| 0 <= i < |s| && s[i] == x;
      assert r[|s| - 1 - i] == x;
    }
  }

  /** Reversing `s` followed by `x` puts `x` first. */
  lemma ReversedSnoc<T>(s: seq<T>, x: T)
    ensures Reversed(s + [x]) == [x] + Reversed(s)
  {
    assert |Reversed(s + [x])| == |[x] + Reversed(s)|;
    forall i | 0 <= i < |s| + 1
      ensures Reversed(s + [x])[i] == ([x] + Reversed(s))[i]
    {
      if i > 0 {
        assert (s + [x])[|s| - i] == s[|s| - i];
      }
    }
  }

  /** Pushing `x` in front of a reversed prefix and a tail is the reversal of the
      longer prefix followed by the same tail. */
  lemma PrependReversedSnoc<T>(s: seq<T>, x: T, tail: seq<T>)
    ensures [x] + (Reversed(s) + tail) == Reversed(s + [x]) + tail
  {
    ReversedSnoc(s, x);
    assert [x] + (Reversed(s) + tail) == ([x] + Reversed(s)) + tail;
  }
}

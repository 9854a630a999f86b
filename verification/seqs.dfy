/** Sequence and string rules shared by the models: filtering as lodash and Array.prototype.filter
    do it, subsequences, JavaScript's clamping `slice`, `indexOf`, `endsWith` and `includes`. */
module Seqs {
  import opened Wrappers

  /** `sub` is obtained from `s` by deleting some elements, keeping the order of the rest. */
  predicate IsSubseq<T(==)>(sub: seq<T>, s: seq<T>)
  {
    if sub == [] then true
    else if s == [] then false
    else if sub[0] == s[0] then IsSubseq(sub[1..], s[1..])
    else IsSubseq(sub, s[1..])
  }

  /** How many elements of `s` satisfy `p`. */
  function Count<T>(s: seq<T>, p: T -> bool): (n: nat)
    ensures n <= |s|
  {
    if s == [] then 0 else (if p(s[0]) then 1 else 0) + Count(s[1..], p)
  }

  /** When `q` holds exactly where `p` fails, the two counts add up to the length. */
  lemma {:induction false} CountSplit<T>(s: seq<T>, p: T -> bool, q: T -> bool)
    requires forall x :: p(x) <==> !q(x)
    ensures Count(s, p) + Count(s, q) == |s|
  {
    if s != [] {
      CountSplit(s[1..], p, q);
    }
  }

  /** The elements of `s` that satisfy `p`, in their original order. */
  function Filter<T(==,!new)>(s: seq<T>, p: T -> bool): (r: seq<T>)
    ensures forall x :: x in r <==> x in s && p(x)
    ensures forall i :: 0 <= i < |r| ==> p(r[i])
    ensures IsSubseq(r, s)
    ensures |r| == Count(s, p)
  {
    if s == [] then []
    else if p(s[0]) then [s[0]] + Filter(s[1..], p)
    else
      var rest := Filter(s[1..], p);
      assert rest != [] ==> rest[0] != s[0];
      rest
  }

  /** Filtering a sequence extended by one element filters the prefix and then that element. */
  lemma {:induction false} FilterSnoc<T(!new)>(s: seq<T>, x: T, p: T -> bool)
    ensures Filter(s + [x], p) == Filter(s, p) + (if p(x) then [x] else [])
  {
    if s == [] {
      assert s + [x] == [x];
    } else {
      assert (s + [x])[1..] == s[1..] + [x];
      FilterSnoc(s[1..], x, p);
    }
  }

  /** Filtering with a predicate that every element satisfies changes nothing. */
  lemma {:induction false} FilterAll<T(!new)>(s: seq<T>, p: T -> bool)
    requires forall i :: 0 <= i < |s| ==> p(s[i])
    ensures Filter(s, p) == s
  {
    if s != [] {
      FilterAll(s[1..], p);
    }
  }

  /** A subsequence made only of elements satisfying `p` is no longer than their count. */
  lemma {:induction false} SubseqCountBound<T>(r: seq<T>, s: seq<T>, p: T -> bool)
    requires IsSubseq(r, s)
    requires forall i :: 0 <= i < |r| ==> p(r[i])
    ensures |r| <= Count(s, p)
  {
    if r != [] && s != [] {
      if r[0] == s[0] {
        SubseqCountBound(r[1..], s[1..], p);
      } else {
        SubseqCountBound(r, s[1..], p);
      }
    }
  }

  /** `Filter` is the only subsequence of `s` that keeps exactly the elements satisfying `p`:
      a subsequence whose elements all satisfy `p` and that has as many elements as `s` has
      satisfying ones is `Filter(s, p)`. */
  lemma {:induction false} FilterUnique<T(!new)>(r: seq<T>, s: seq<T>, p: T -> bool)
    requires IsSubseq(r, s)
    requires forall i :: 0 <= i < |r| ==> p(r[i])
    requires |r| == Count(s, p)
    ensures r == Filter(s, p)
  {
    if s == [] {
    } else if r == [] {
      assert Count(s, p) == 0;
      assert !p(s[0]);
      FilterUnique(r, s[1..], p);
    } else if r[0] == s[0] {
      FilterUnique(r[1..], s[1..], p);
    } else {
      if p(s[0]) {
        SubseqCountBound(r, s[1..], p);
        assert false;
      }
      FilterUnique(r, s[1..], p);
    }
  }

  /** No element occurs twice. */
  predicate Distinct<T(==)>(s: seq<T>)
  {
    forall i, j :: 0 <= i < j < |s| ==> s[i] != s[j]
  }

  /** A subsequence of a sequence without repeats has no repeats. */
  lemma {:induction false} SubseqDistinct<T>(r: seq<T>, s: seq<T>)
    requires IsSubseq(r, s) && Distinct(s)
    ensures Distinct(r)
  {
    if r != [] && s != [] {
      if r[0] == s[0] {
        SubseqDistinct(r[1..], s[1..]);
        SubseqMembers(r[1..], s[1..]);
        assert forall j :: 0 < j < |r| ==> r[j] in s[1..];
      } else {
        SubseqDistinct(r, s[1..]);
      }
    }
  }

  /** Every element of a subsequence is an element of the sequence. */
  lemma {:induction false} SubseqMembers<T>(r: seq<T>, s: seq<T>)
    requires IsSubseq(r, s)
    ensures forall x :: x in r ==> x in s
  {
    if r != [] && s != [] {
      if r[0] == s[0] {
        SubseqMembers(r[1..], s[1..]);
        assert r == [r[0]] + r[1..];
      } else {
        SubseqMembers(r, s[1..]);
      }
      assert s == [s[0]] + s[1..];
    }
  }

  /** A prefix of a subsequence is a subsequence. */
  lemma {:induction false} SubseqPrefix<T>(r: seq<T>, s: seq<T>, n: nat)
    requires IsSubseq(r, s) && n <= |r|
    ensures IsSubseq(r[..n], s)
  {
    if n > 0 && s != [] {
      if r[0] == s[0] {
        assert r[..n][1..] == r[1..][..n - 1];
        SubseqPrefix(r[1..], s[1..], n - 1);
      } else {
        SubseqPrefix(r, s[1..], n);
      }
    }
  }

  /** `Array.prototype.find` / `findIndex`: the first index whose element satisfies `p`. */
  function FindFirst<T>(s: seq<T>, p: T -> bool): (r: Option<nat>)
    ensures r.None? <==> forall k :: 0 <= k < |s| ==> !p(s[k])
    ensures r.Some? ==> r.value < |s| && p(s[r.value]) && forall k :: 0 <= k < r.value ==> !p(s[k])
  {
    if s == [] then None
    else if p(s[0]) then Some(0)
    else
      match FindFirst(s[1..], p)
      case None => None
      case Some(k) => Some(k + 1)
  }

  /** JavaScript's `Array.prototype.slice(start, end)` for non-negative bounds: both bounds are
      clamped to the length, and a start at or past the end gives the empty sequence. */
  function Slice<T>(s: seq<T>, start: nat, end: nat): (r: seq<T>)
    ensures start <= end <= |s| ==> r == s[start..end]
    ensures end <= start || |s| <= start ==> r == []
    ensures start <= |s| <= end ==> r == s[start..]
    ensures |r| <= |s|
  {
    var lo := if start < |s| then start else |s|;
    var hi := if end < |s| then end else |s|;
    if lo < hi then s[lo..hi] else []
  }

  /** JavaScript's `indexOf`: the first index holding `x`, or -1 when there is none. */
  function IndexOf<T(==)>(s: seq<T>, x: T): (r: int)
    ensures -1 <= r
    ensures r == -1 <==> x !in s
    ensures 0 <= r ==> r < |s| && s[r] == x && x !in s[..r]
  {
    if s == [] then -1
    else if s[0] == x then 0
    else
      var k := IndexOf(s[1..], x);
      if k == -1 then -1
      else
        assert s[1..][..k] == s[1..k + 1];
        assert s[..k + 1] == [s[0]] + s[1..k + 1];
        k + 1
  }

  /** `s.endsWith(suffix)`: `s` is some string followed by `suffix`. */
  function EndsWith<T(==,!new)>(s: seq<T>, suffix: seq<T>): (r: bool)
    ensures r <==> exists prefix :: s == prefix + suffix
  {
    SuffixSplit(s, suffix);
    |suffix| <= |s| && s[|s| - |suffix|..] == suffix
  }

  lemma SuffixSplit<T(!new)>(s: seq<T>, suffix: seq<T>)
    ensures (|suffix| <= |s| && s[|s| - |suffix|..] == suffix) <==> exists prefix :: s == prefix + suffix
  {
    if |suffix| <= |s| && s[|s| - |suffix|..] == suffix {
      assert s == s[..|s| - |suffix|] + suffix;
    }
    if exists prefix :: s == prefix + suffix {
      var prefix :| s == prefix + suffix;
      assert s[|s| - |suffix|..] == suffix;
    }
  }

  /** `s` begins with `prefix`. */
  predicate StartsWith<T(==)>(s: seq<T>, prefix: seq<T>)
  {
    |prefix| <= |s| && s[..|prefix|] == prefix
  }

  /** `needle` occurs in `hay` at index `i`. */
  predicate OccursAt<T(==)>(hay: seq<T>, needle: seq<T>, i: nat)
  {
    i + |needle| <= |hay| && hay[i..i + |needle|] == needle
  }

  /** `hay.includes(needle)`: `needle` occurs in `hay` as a contiguous block. */
  function Contains<T(==)>(hay: seq<T>, needle: seq<T>): (r: bool)
    ensures r <==> exists i: nat :: OccursAt(hay, needle, i)
    decreases |hay|
  {
    if StartsWith(hay, needle) then
      assert OccursAt(hay, needle, 0);
      true
    else if hay == [] then
      false
    else
      var rest := Contains(hay[1..], needle);
      ContainsStep(hay, needle, rest);
      rest
  }

  lemma ContainsStep<T>(hay: seq<T>, needle: seq<T>, rest: bool)
    requires hay != [] && !StartsWith(hay, needle)
    requires rest <==> exists i: nat :: OccursAt(hay[1..], needle, i)
    ensures rest <==> exists i: nat :: OccursAt(hay, needle, i)
  {
    if rest {
      var i: nat :| OccursAt(hay[1..], needle, i);
      assert hay[i + 1..i + 1 + |needle|] == hay[1..][i..i + |needle|];
      assert OccursAt(hay, needle, i + 1);
    }
    if exists i: nat :: OccursAt(hay, needle, i) {
      var i: nat :| OccursAt(hay, needle, i);
      if i > 0 {
        assert hay[1..][i - 1..i - 1 + |needle|] == hay[i..i + |needle|];
        assert OccursAt(hay[1..], needle, i - 1);
      }
    }
  }
}

/** Sequence helpers for the tables of the store: LINQ's `Where`, `FirstOrDefault`
    and `string.Join`, with the facts the table proofs rely on. */
module Seqs {
  import opened Wrappers

  /** `s.Where(p)`: the elements of `s` satisfying `p`, in their original order. */
  function Filter<T(!new)>(s: seq<T>, p: T -> bool): (r: seq<T>)
    ensures |r| <= |s|
    ensures forall x :: x in r <==> x in s && p(x)
  {
    if s == [] then []
    else if p(s[0]) then [s[0]] + Filter(s[1..], p)
    else Filter(s[1..], p)
  }

  /** Appending one row to a table extends the filtered view by that row exactly when it matches. */
  lemma {:induction false} FilterAppend<T(!new)>(s: seq<T>, x: T, p: T -> bool)
    ensures Filter(s + [x], p) == Filter(s, p) + (if p(x) then [x] else [])
  {
    if s == [] {
      assert s + [x] == [x];
      assert [x][1..] == [];
    } else {
      assert (s + [x])[0] == s[0];
      assert (s + [x])[1..] == s[1..] + [x];
      FilterAppend(s[1..], x, p);
    }
  }

  /** A filter that rejects every element yields nothing. */
  lemma {:induction false} FilterNone<T(!new)>(s: seq<T>, p: T -> bool)
    requires forall x :: x in s ==> !p(x)
    ensures Filter(s, p) == []
  {
    if s != [] {
      assert s[0] in s;
      assert forall x :: x in s[1..] ==> x in s;
      FilterNone(s[1..], p);
    }
  }

  /** A filter that accepts every element changes nothing. */
  lemma {:induction false} FilterAll<T(!new)>(s: seq<T>, p: T -> bool)
    requires forall x :: x in s ==> p(x)
    ensures Filter(s, p) == s
  {
    if s != [] {
      assert s[0] in s;
      assert forall x :: x in s[1..] ==> x in s;
      FilterAll(s[1..], p);
      assert s == [s[0]] + s[1..];
    }
  }

  /** The keys of `s` strictly increase from left to right (an identity column). */
  ghost predicate IncreasingBy<T(!new)>(s: seq<T>, key: T -> int) {
    forall i, j :: 0 <= i < j < |s| ==> key(s[i]) < key(s[j])
  }

  /** A filter that rejects exactly the element at `i` removes that element and nothing else. */
  lemma {:induction false} FilterRemovesOne<T(!new)>(s: seq<T>, i: nat, p: T -> bool)
    requires i < |s| && !p(s[i])
    requires forall j :: 0 <= j < |s| && j != i ==> p(s[j])
    ensures Filter(s, p) == s[..i] + s[i + 1..]
  {
    if i == 0 {
      forall x | x in s[1..] ensures p(x) {
        var k :| 0 <= k < |s[1..]| && s[1..][k] == x;
        assert s[k + 1] == x;
      }
      FilterAll(s[1..], p);
    } else {
      FilterRemovesOne(s[1..], i - 1, p);
      assert s[..i] == [s[0]] + s[1..][..i - 1];
      assert s[i + 1..] == s[1..][i..];
    }
  }

  /** The tail of an increasing sequence is increasing, and its head is below every later element. */
  lemma IncreasingTail<T(!new)>(s: seq<T>, key: T -> int)
    requires IncreasingBy(s, key) && s != []
    ensures IncreasingBy(s[1..], key)
    ensures forall x :: x in s[1..] ==> key(s[0]) < key(x)
  {
    var tail := s[1..];
    forall i, j | 0 <= i < j < |tail| ensures key(tail[i]) < key(tail[j]) {
      assert tail[i] == s[i + 1] && tail[j] == s[j + 1];
    }
    forall x | x in tail ensures key(s[0]) < key(x) {
      var k :| 0 <= k < |tail| && tail[k] == x;
      assert tail[k] == s[k + 1];
    }
  }

  /** Putting an element below every element of an increasing sequence in front keeps it increasing. */
  lemma IncreasingCons<T(!new)>(x: T, rest: seq<T>, key: T -> int)
    requires IncreasingBy(rest, key)
    requires forall y :: y in rest ==> key(x) < key(y)
    ensures IncreasingBy([x] + rest, key)
  {
    var r := [x] + rest;
    forall i, j | 0 <= i < j < |r| ensures key(r[i]) < key(r[j]) {
      assert r[j] == rest[j - 1] && r[j] in rest;
      if i > 0 { assert r[i] == rest[i - 1]; }
    }
  }

  /** Deleting rows keeps the identity column increasing. */
  lemma {:induction false} FilterIncreasing<T(!new)>(s: seq<T>, p: T -> bool, key: T -> int)
    requires IncreasingBy(s, key)
    ensures IncreasingBy(Filter(s, p), key)
  {
    if s != [] {
      IncreasingTail(s, key);
      FilterIncreasing(s[1..], p, key);
      if p(s[0]) {
        IncreasingCons(s[0], Filter(s[1..], p), key);
      }
    }
  }

  /** Appending a row whose key exceeds every existing key keeps the identity column increasing. */
  lemma AppendIncreasing<T(!new)>(s: seq<T>, x: T, key: T -> int)
    requires IncreasingBy(s, key)
    requires forall y :: y in s ==> key(y) < key(x)
    ensures IncreasingBy(s + [x], key)
  {
    var r := s + [x];
    forall i, j | 0 <= i < j < |r| ensures key(r[i]) < key(r[j]) {
      assert r[i] == s[i];
      if j < |s| { assert r[j] == s[j]; } else { assert s[i] in s; }
    }
  }

  /** Replacing an element that fails `p` by one that satisfies it adds one to the count. */
  lemma {:induction false} FilterCountReplace<T(!new)>(ts: seq<T>, i: nat, y: T, p: T -> bool)
    requires i < |ts| && !p(ts[i]) && p(y)
    ensures |Filter(ts[i := y], p)| == |Filter(ts, p)| + 1
  {
    if i == 0 {
      assert ts[i := y] == [y] + ts[1..];
      assert ts == [ts[0]] + ts[1..];
    } else {
      FilterCountReplace(ts[1..], i - 1, y, p);
      assert ts[i := y] == [ts[0]] + ts[1..][i - 1 := y];
    }
  }
  /** Replacing a row by one with the same key keeps the identity column increasing. */
  lemma UpdateIncreasing<T(!new)>(s: seq<T>, i: nat, x: T, key: T -> int)
    requires IncreasingBy(s, key) && i < |s| && key(x) == key(s[i])
    ensures IncreasingBy(s[i := x], key)
  {
    var r := s[i := x];
    forall a, b | 0 <= a < b < |r| ensures key(r[a]) < key(r[b]) {
      assert key(r[a]) == key(s[a]);
      assert key(r[b]) == key(s[b]);
    }
  }

  /** `s.FirstOrDefault(p)` as an index: the first position whose element satisfies `p`. */
  function IndexWhere<T(!new)>(s: seq<T>, p: T -> bool): (r: Option<nat>)
    ensures r.Some? ==> r.value < |s| && p(s[r.value]) && forall k :: 0 <= k < r.value ==> !p(s[k])
    ensures r.None? <==> forall x :: x in s ==> !p(x)
  {
    if s == [] then None
    else if p(s[0]) then Some(0)
    else match IndexWhere(s[1..], p)
      case None => None
      case Some(k) => Some(k + 1)
  }

  /** The first match is the one `IndexWhere` reports. */
  lemma IndexWhereIs<T(!new)>(s: seq<T>, p: T -> bool, i: nat)
    requires i < |s| && p(s[i]) && forall k :: 0 <= k < i ==> !p(s[k])
    ensures IndexWhere(s, p) == Some(i)
  {
    var r := IndexWhere(s, p);
    assert s[i] in s;
  }

  /** `string.Join(sep, xs)`. */
  function Join(xs: seq<string>, sep: string): (r: string)
    ensures xs == [] ==> r == ""
    ensures |xs| == 1 ==> r == xs[0]
  {
    if xs == [] then ""
    else if |xs| == 1 then xs[0]
    else xs[0] + sep + Join(xs[1..], sep)
  }

  /** Joining one more part puts the separator before it, as `string.Join` does. */
  lemma {:induction false} JoinSnoc(xs: seq<string>, b: string, sep: string)
    ensures Join(xs + [b], sep) == if xs == [] then b else Join(xs, sep) + sep + b
  {
    if |xs| > 1 {
      assert (xs + [b])[1..] == xs[1..] + [b];
      JoinSnoc(xs[1..], b, sep);
    } else if |xs| == 1 {
      assert (xs + [b])[1..] == [b];
    } else {
      assert xs + [b] == [b];
    }
  }
}

/** Order-preserving selection from a sequence: the list comprehension
    `[x for x in s if p(x)]` and the positions it keeps. */
module Seqs {

  /** `a` is `b` with some elements left out and the rest in their order. */
  predicate Subsequence<T(==)>(a: seq<T>, b: seq<T>)
    decreases |b|
  {
    if a == [] then true
    else if b == [] then false
    else if a[|a| - 1] == b[|b| - 1] then Subsequence(a[..|a| - 1], b[..|b| - 1])
    else Subsequence(a, b[..|b| - 1])
  }

  /** `[x for x in s if p(x)]`. */
  function Where<T(==)>(s: seq<T>, p: T -> bool): (r: seq<T>)
    ensures |r| <= |s|
    ensures forall i :: 0 <= i < |r| ==> p(r[i])
  {
    if s == [] then []
    else Where(s[..|s| - 1], p) + (if p(s[|s| - 1]) then [s[|s| - 1]] else [])
  }

  /** An element is kept exactly when it is in the input and passes the test. */
  lemma {:induction false} WhereMembers<T>(s: seq<T>, p: T -> bool)
    ensures forall i :: 0 <= i < |Where(s, p)| ==> Where(s, p)[i] in s
    ensures forall i :: 0 <= i < |s| && p(s[i]) ==> s[i] in Where(s, p)
  {
    if s != [] {
      var init := s[..|s| - 1];
      WhereMembers(init, p);
      var r := Where(s, p);
      forall i | 0 <= i < |s| && p(s[i]) ensures s[i] in r {
        if i < |s| - 1 {
          assert s[i] == init[i];
        }
      }
      forall i | 0 <= i < |r| ensures r[i] in s {
        if i < |Where(init, p)| {
          assert r[i] == Where(init, p)[i];
          var k :| 0 <= k < |init| && init[k] == r[i];
          assert s[k] == init[k];
        }
      }
    }
  }

  lemma {:induction false} WhereAppend<T>(a: seq<T>, b: seq<T>, p: T -> bool)
    ensures Where(a + b, p) == Where(a, p) + Where(b, p)
    decreases |b|
  {
    if b == [] {
      assert a + b == a;
    } else {
      var b' := b[..|b| - 1];
      assert (a + b)[..|a + b| - 1] == a + b';
      assert (a + b)[|a + b| - 1] == b[|b| - 1];
      WhereAppend(a, b', p);
    }
  }

  /** When every element qualifies, nothing is left out. */
  lemma {:induction false} WhereAll<T>(s: seq<T>, p: T -> bool)
    requires forall i :: 0 <= i < |s| ==> p(s[i])
    ensures Where(s, p) == s
  {
    if s != [] {
      WhereAll(s[..|s| - 1], p);
      assert s == s[..|s| - 1] + [s[|s| - 1]];
    }
  }

  /** When no element qualifies, nothing is kept. */
  lemma {:induction false} WhereNone<T>(s: seq<T>, p: T -> bool)
    requires forall i :: 0 <= i < |s| ==> !p(s[i])
    ensures Where(s, p) == []
  {
    if s != [] {
      WhereNone(s[..|s| - 1], p);
    }
  }

  /** The kept elements appear in the order they had. */
  lemma {:induction false} WhereOrdered<T>(s: seq<T>, p: T -> bool)
    ensures Subsequence(Where(s, p), s)
  {
    if s != [] {
      var init := s[..|s| - 1];
      WhereOrdered(init, p);
      var r := Where(s, p);
      if p(s[|s| - 1]) {
        assert r[..|r| - 1] == Where(init, p);
      } else {
        assert r == Where(init, p);
        assert r != [] ==> p(r[|r| - 1]);
      }
    }
  }

  /** Selecting twice with the same test selects nothing more. */
  lemma WhereIdempotent<T>(s: seq<T>, p: T -> bool)
    ensures Where(Where(s, p), p) == Where(s, p)
  {
    WhereAll(Where(s, p), p);
  }

  /** Every element is kept by exactly one of a test and its negation. */
  lemma {:induction false} WhereComplement<T>(s: seq<T>, p: T -> bool, q: T -> bool)
    requires forall i :: 0 <= i < |s| ==> q(s[i]) == !p(s[i])
    ensures |Where(s, p)| + |Where(s, q)| == |s|
  {
    if s != [] {
      WhereComplement(s[..|s| - 1], p, q);
    }
  }

  /** The positions of the elements that qualify, in increasing order. */
  function Positions<T(==)>(s: seq<T>, p: T -> bool): (ix: seq<nat>)
    ensures forall j :: 0 <= j < |ix| ==> ix[j] < |s|
  {
    if s == [] then []
    else
      var init := s[..|s| - 1];
      Positions(init, p) + (if p(s[|s| - 1]) then [|s| - 1] else [])
  }

  /** The positions are those of the qualifying elements, each once, in
      increasing order, and as many as the elements kept. */
  lemma PositionsSpec<T>(s: seq<T>, p: T -> bool)
    ensures var ix := Positions(s, p);
      && (forall j :: 0 <= j < |ix| ==> p(s[ix[j]]))
      && (forall j, l :: 0 <= j < l < |ix| ==> ix[j] < ix[l])
      && (forall i :: 0 <= i < |s| && p(s[i]) ==> i in ix)
      && |ix| == |Where(s, p)|
  {
    PositionsQualify(s, p);
    PositionsIncrease(s, p);
    PositionsComplete(s, p);
    PositionsCount(s, p);
  }

  lemma {:induction false} PositionsQualify<T>(s: seq<T>, p: T -> bool)
    ensures forall j :: 0 <= j < |Positions(s, p)| ==> p(s[Positions(s, p)[j]])
  {
    if s != [] {
      var init := s[..|s| - 1];
      PositionsQualify(init, p);
      var rest := Positions(init, p);
      var ix := Positions(s, p);
      forall j | 0 <= j < |ix| ensures p(s[ix[j]]) {
        if j < |rest| {
          assert ix[j] == rest[j] && init[rest[j]] == s[rest[j]];
        }
      }
    }
  }

  lemma {:induction false} PositionsIncrease<T>(s: seq<T>, p: T -> bool)
    ensures forall j, l :: 0 <= j < l < |Positions(s, p)| ==> Positions(s, p)[j] < Positions(s, p)[l]
  {
    if s != [] {
      var init := s[..|s| - 1];
      PositionsIncrease(init, p);
      var rest := Positions(init, p);
      var ix := Positions(s, p);
      assert forall j :: 0 <= j < |rest| ==> ix[j] == rest[j];
    }
  }

  lemma {:induction false} PositionsComplete<T>(s: seq<T>, p: T -> bool)
    ensures forall i :: 0 <= i < |s| && p(s[i]) ==> i in Positions(s, p)
  {
    if s != [] {
      var init := s[..|s| - 1];
      PositionsComplete(init, p);
      var rest := Positions(init, p);
      var ix := Positions(s, p);
      forall i | 0 <= i < |s| && p(s[i]) ensures i in ix {
        if i < |init| {
          assert init[i] == s[i];
          var j :| 0 <= j < |rest| && rest[j] == i;
          assert ix[j] == i;
        } else {
          assert ix[|ix| - 1] == i;
        }
      }
    }
  }

  lemma {:induction false} PositionsCount<T>(s: seq<T>, p: T -> bool)
    ensures |Positions(s, p)| == |Where(s, p)|
  {
    if s != [] {
      PositionsCount(s[..|s| - 1], p);
    }
  }

  /** Removing the element at `i`, none of whose successors up to `c` is
      dropped, from a list whose suffix from `c` is already filtered, leaves
      a list whose suffix from `i` is filtered. */
  lemma {:induction false} RemoveBeforeFiltered<T>(s: seq<T>, p: T -> bool, i: nat, c: nat)
    requires i < c <= |s| && !p(s[i])
    requires forall pos :: i + 1 <= pos < c ==> p(s[pos])
    ensures var cur := s[..c] + Where(s[c..], p);
      cur[..i] + cur[i + 1..] == s[..i] + Where(s[i..], p)
  {
    var w := Where(s[c..], p);
    var gap := s[i + 1..c];
    RemoveAt(s, w, i, c);
    assert forall m :: 0 <= m < |gap| ==> p(gap[m]);
    DroppedHead(s, p, i, c);
  }

  /** Removing the element at `i < c` from `s[..c] + w`. */
  lemma RemoveAt<T>(s: seq<T>, w: seq<T>, i: nat, c: nat)
    requires i < c <= |s|
    ensures var cur := s[..c] + w;
      cur[..i] + cur[i + 1..] == s[..i] + (s[i + 1..c] + w)
  {
    var cur := s[..c] + w;
    assert s[..c] == s[..i] + [s[i]] + s[i + 1..c];
    assert cur[..i] == s[..i];
    assert cur[i + 1..] == s[i + 1..c] + w;
  }

  /** Filtering from a dropped element followed by kept ones up to `c`. */
  lemma {:induction false} DroppedHead<T>(s: seq<T>, p: T -> bool, i: nat, c: nat)
    requires i < c <= |s| && !p(s[i])
    requires forall pos :: i + 1 <= pos < c ==> p(s[pos])
    ensures Where(s[i..], p) == s[i + 1..c] + Where(s[c..], p)
  {
    var gap := s[i + 1..c];
    assert forall m :: 0 <= m < |gap| ==> p(gap[m]);
    WhereAll(gap, p);
    assert s[i..] == [s[i]] + (gap + s[c..]);
    WhereDropFirst(s[i], gap + s[c..], p);
    WhereAppend(gap, s[c..], p);
  }

  /** A first element that fails the test is left out. */
  lemma WhereDropFirst<T>(x: T, rest: seq<T>, p: T -> bool)
    requires !p(x)
    ensures Where([x] + rest, p) == Where(rest, p)
  {
    WhereAppend([x], rest, p);
    assert Where([x], p) == [] by {
      assert [x][..0] == [];
    }
  }

  /** A prefix that needs no filtering followed by a filtered suffix is the
      filtered whole. */
  lemma {:induction false} FilteredFrom<T>(s: seq<T>, p: T -> bool, c: nat)
    requires c <= |s|
    requires forall pos :: 0 <= pos < c ==> p(s[pos])
    ensures s[..c] + Where(s[c..], p) == Where(s, p)
  {
    var head := s[..c];
    assert forall m :: 0 <= m < |head| ==> head[m] == s[m];
    WhereAll(head, p);
    assert s == head + s[c..];
    WhereAppend(head, s[c..], p);
  }
}

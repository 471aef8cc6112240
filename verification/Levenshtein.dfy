/** Edit distance by two rows, and the suggestion made for an unknown option. */
module Levenshtein {
  import opened Wrappers

  // --- edits ---------------------------------------------------------------------------

  /** `t` is `s` with at most one character at one place inserted, deleted or replaced. */
  predicate EditAt(s: string, t: string, u: string, p: string, q: string, v: string) {
    s == u + p + v && t == u + q + v && |p| <= 1 && |q| <= 1
  }

  ghost predicate OneEdit(s: string, t: string) {
    exists u, p, q, v :: EditAt(s, t, u, p, q, v)
  }

  /** A way from `s` to `t`, one edit a step. */
  ghost predicate Edits(path: seq<string>, s: string, t: string) {
    && path != [] && path[0] == s && path[|path| - 1] == t
    && forall i :: 0 <= i < |path| - 1 ==> OneEdit(path[i], path[i + 1])
  }

  function Min(a: nat, b: nat): nat {
    if a <= b then a else b
  }

  function Cost(c: char, d: char): nat {
    if c == d then 0 else 1
  }

  /** The distance between the first `i` characters of `a` and the first `j` of `b`. */
  function Between(a: string, b: string, i: nat, j: nat): nat
    requires i <= |a| && j <= |b|
    decreases i + j
  {
    if i == 0 then j
    else if j == 0 then i
    else
      Min(Min(Between(a, b, i, j - 1) + 1, Between(a, b, i - 1, j) + 1),
        Between(a, b, i - 1, j - 1) + Cost(a[i - 1], b[j - 1]))
  }

  lemma Unfold(a: string, b: string, i: nat, j: nat)
    requires i <= |a| && j <= |b|
    ensures i == 0 ==> Between(a, b, i, j) == j
    ensures j == 0 ==> Between(a, b, i, j) == i
    ensures i > 0 && j > 0 ==>
              Between(a, b, i, j) ==
                Min(Min(Between(a, b, i, j - 1) + 1, Between(a, b, i - 1, j) + 1),
                    Between(a, b, i - 1, j - 1) + Cost(a[i - 1], b[j - 1]))
  {
    hide Min;
    hide Cost;
  }

  function Distance(a: string, b: string): nat {
    Between(a, b, |a|, |b|)
  }

  // --- no way is shorter -----------------------------------------------------------------

  lemma {:induction false} SamePrefix(a: string, s: string, t: string, i: nat, j: nat)
    requires i <= |a| && j <= |s| && j <= |t| && forall k :: 0 <= k < j ==> s[k] == t[k]
    ensures Between(a, s, i, j) == Between(a, t, i, j)
    decreases i + j
  {
    hide Between;
    Unfold(a, s, i, j);
    Unfold(a, t, i, j);
    if i > 0 && j > 0 {
      SamePrefix(a, s, t, i, j - 1);
      SamePrefix(a, s, t, i - 1, j);
      SamePrefix(a, s, t, i - 1, j - 1);
    }
  }

  /** One edit moves the distance by at most one; `m` characters after it are counted in. */
  lemma {:induction false} EditMovesByOne(
    a: string, s: string, t: string, u: string, p: string, q: string, v: string, i: nat, m: nat)
    requires EditAt(s, t, u, p, q, v) && i <= |a| && m <= |v|
    ensures Between(a, t, i, |u| + |q| + m) <= Between(a, s, i, |u| + |p| + m) + 1
    decreases i + m
  {
    hide Between;
    if i == 0 {
      Unfold(a, s, i, |u| + |p| + m);
      Unfold(a, t, i, |u| + |q| + m);
    } else {
      EditMovesByOne(a, s, t, u, p, q, v, i - 1, m);
      if m > 0 {
        EditMovesByOne(a, s, t, u, p, q, v, i, m - 1);
        EditMovesByOne(a, s, t, u, p, q, v, i - 1, m - 1);
        assert s[|u| + |p| + m - 1] == v[m - 1] == t[|u| + |q| + m - 1];
        SameEndsMove(a, s, t, i, |u| + |p| + m, |u| + |q| + m);
      } else {
        SamePrefix(a, s, t, i, |u|);
        SamePrefix(a, s, t, i - 1, |u|);
        LastEditMoves(a, s, t, i, |u|, |p|, |q|);
      }
    }
  }

  /** The step over an equal last character. */
  lemma SameEndsMove(a: string, s: string, t: string, i: nat, j: nat, k: nat)
    requires 0 < i <= |a| && 0 < j <= |s| && 0 < k <= |t| && s[j - 1] == t[k - 1]
    requires Between(a, t, i - 1, k) <= Between(a, s, i - 1, j) + 1
    requires Between(a, t, i, k - 1) <= Between(a, s, i, j - 1) + 1
    requires Between(a, t, i - 1, k - 1) <= Between(a, s, i - 1, j - 1) + 1
    ensures Between(a, t, i, k) <= Between(a, s, i, j) + 1
  {
    hide Between;
    hide Cost;
    Unfold(a, s, i, j);
    Unfold(a, t, i, k);
  }

  /** The step over the edit itself, when nothing follows it. */
  lemma LastEditMoves(a: string, s: string, t: string, i: nat, n: nat, p: nat, q: nat)
    requires 0 < i <= |a| && n + p <= |s| && n + q <= |t| && p <= 1 && q <= 1
    requires Between(a, t, i - 1, n + q) <= Between(a, s, i - 1, n + p) + 1
    requires Between(a, s, i, n) == Between(a, t, i, n) && Between(a, s, i - 1, n) == Between(a, t, i - 1, n)
    ensures Between(a, t, i, n + q) <= Between(a, s, i, n + p) + 1
  {
    hide Between;
    if q == 1 {
      Unfold(a, t, i, n + 1);
    } else {
      OneShorter(a, t, i, n);
    }
    if p == 1 {
      Unfold(a, s, i, n + 1);
    }
  }

  lemma OneShorter(a: string, t: string, i: nat, n: nat)
    requires 0 < i <= |a| && n <= |t|
    ensures Between(a, t, i, n) <= Between(a, t, i - 1, n) + 1
  {
    hide Between;
    hide Cost;
    Unfold(a, t, i, n);
    Unfold(a, t, i - 1, n);
  }

  lemma {:induction false} DistanceToSelf(a: string, i: nat)
    requires i <= |a|
    ensures Between(a, a, i, i) == 0
  {
    if i > 0 {
      DistanceToSelf(a, i - 1);
    }
  }

  /** Every way from `a` to `b` takes at least `Distance(a, b)` edits. */
  lemma {:induction false} NoShorterWay(path: seq<string>, a: string, b: string)
    requires Edits(path, a, b)
    ensures Distance(a, b) <= |path| - 1
    decreases |path|
  {
    if |path| == 1 {
      DistanceToSelf(a, |a|);
    } else {
      var shorter := path[..|path| - 1];
      var s := shorter[|shorter| - 1];
      NoShorterWay(shorter, a, s);
      assert OneEdit(path[|path| - 2], path[|path| - 1]);
      var u, p, q, v :| EditAt(s, b, u, p, q, v);
      EditMovesByOne(a, s, b, u, p, q, v, |a|, |v|);
    }
  }

  // --- and there is one that long ----------------------------------------------------------

  lemma EditStays(s: string, t: string, c: char)
    requires OneEdit(s, t)
    ensures OneEdit(s + [c], t + [c])
  {
    var u, p, q, v :| EditAt(s, t, u, p, q, v);
    assert EditAt(s + [c], t + [c], u, p, q, v + [c]);
  }

  function WithLast(path: seq<string>, c: char): (r: seq<string>)
    ensures |r| == |path| && forall i :: 0 <= i < |r| ==> r[i] == path[i] + [c]
  {
    seq(|path|, i requires 0 <= i < |path| => path[i] + [c])
  }

  lemma EditsStay(path: seq<string>, s: string, t: string, c: char)
    requires Edits(path, s, t)
    ensures Edits(WithLast(path, c), s + [c], t + [c])
  {
    forall i | 0 <= i < |path| - 1
      ensures OneEdit(path[i] + [c], path[i + 1] + [c])
    {
      EditStays(path[i], path[i + 1], c);
    }
  }

  lemma OneMoreEdit(path: seq<string>, s: string, t: string, w: string)
    requires Edits(path, s, t) && OneEdit(t, w)
    ensures Edits(path + [w], s, w)
  {
  }

  lemma OneEditBefore(path: seq<string>, w: string, s: string, t: string)
    requires Edits(path, s, t) && OneEdit(w, s)
    ensures Edits([w] + path, w, t)
  {
    var longer := [w] + path;
    forall i | 0 <= i < |longer| - 1
      ensures OneEdit(longer[i], longer[i + 1])
    {
      if i > 0 {
        assert OneEdit(path[i - 1], path[i]);
      }
    }
  }

  lemma LastEdits(s: string, c: char, d: char)
    ensures OneEdit(s, s + [c]) && OneEdit(s + [c], s) && OneEdit(s + [c], s + [d])
  {
    assert EditAt(s, s + [c], s, "", [c], "");
    assert EditAt(s + [c], s, s, [c], "", "");
    assert EditAt(s + [c], s + [d], s, [c], [d], "");
  }

  /** A way from one prefix to the other of exactly as many edits. */
  lemma {:induction false} SomeWay(a: string, b: string, i: nat, j: nat) returns (path: seq<string>)
    requires i <= |a| && j <= |b|
    ensures Edits(path, a[..i], b[..j]) && |path| == Between(a, b, i, j) + 1
    decreases i + j
  {
    hide Between;
    hide OneEdit;
    Unfold(a, b, i, j);
    if i == 0 && j > 0 {
      Unfold(a, b, 0, j - 1);
    }
    if i > 0 && j == 0 {
      Unfold(a, b, i - 1, 0);
    }
    if i == 0 && j == 0 {
      path := [""];
    } else if j > 0 && Between(a, b, i, j) == Between(a, b, i, j - 1) + 1 {
      path := SomeWay(a, b, i, j - 1);
      LastEdits(b[..j - 1], b[j - 1], b[j - 1]);
      assert b[..j - 1] + [b[j - 1]] == b[..j];
      OneMoreEdit(path, a[..i], b[..j - 1], b[..j]);
      path := path + [b[..j]];
    } else if i > 0 && Between(a, b, i, j) == Between(a, b, i - 1, j) + 1 {
      path := SomeWay(a, b, i - 1, j);
      LastEdits(a[..i - 1], a[i - 1], a[i - 1]);
      assert a[..i - 1] + [a[i - 1]] == a[..i];
      OneEditBefore(path, a[..i], a[..i - 1], b[..j]);
      path := [a[..i]] + path;
    } else {
      var c, d := a[i - 1], b[j - 1];
      path := SomeWay(a, b, i - 1, j - 1);
      EditsStay(path, a[..i - 1], b[..j - 1], c);
      assert a[..i - 1] + [c] == a[..i] && b[..j - 1] + [d] == b[..j];
      path := WithLast(path, c);
      if c != d {
        LastEdits(b[..j - 1], c, d);
        OneMoreEdit(path, a[..i], b[..j - 1] + [c], b[..j]);
        path := path + [b[..j]];
      }
    }
  }

  // --- two rows ------------------------------------------------------------------------------

  lemma FirstRow(a: string, b: string)
    ensures forall j :: 0 <= j <= |b| ==> Between(a, b, 0, j) == j
  {
  }

  /** The distance is the least number of single-character edits that turn one string into the other. */
  method EditDistance(a: string, b: string) returns (distance: nat)
    ensures distance == Distance(a, b)
    ensures exists path :: Edits(path, a, b) && |path| == distance + 1
    ensures forall path :: Edits(path, a, b) ==> distance + 1 <= |path|
  {
    hide Between;
    var cols := |b| + 1;
    FirstRow(a, b);
    var previous := new nat[cols](j => j);
    for i := 1 to |a| + 1
      invariant previous.Length == cols
      invariant forall j :: 0 <= j < cols ==> previous[j] == Between(a, b, i - 1, j)
    {
      var current := new nat[cols];
      current[0] := i;
      Unfold(a, b, i, 0);
      for j := 1 to cols
        invariant forall k :: 0 <= k < j ==> current[k] == Between(a, b, i, k)
        invariant forall k :: 0 <= k < cols ==> previous[k] == Between(a, b, i - 1, k)
      {
        var cost := if a[i - 1] == b[j - 1] then 0 else 1;
        Unfold(a, b, i, j);
        current[j] := Min(Min(current[j - 1] + 1, previous[j] + 1), previous[j - 1] + cost);
      }
      previous := current;
    }
    distance := previous[cols - 1];
    LeastEdits(a, b);
  }

  lemma LeastEdits(a: string, b: string)
    ensures exists path :: Edits(path, a, b) && |path| == Distance(a, b) + 1
    ensures forall path :: Edits(path, a, b) ==> Distance(a, b) + 1 <= |path|
  {
    var way := SomeWay(a, b, |a|, |b|);
    assert a[..|a|] == a && b[..|b|] == b;
    assert Edits(way, a, b);
    forall path | Edits(path, a, b)
      ensures Distance(a, b) + 1 <= |path|
    {
      NoShorterWay(path, a, b);
    }
  }

  const MAX_DISTANCE := 2

  /** The first of the nearest candidates, if it is within two edits. */
  method Closest(input: string, candidates: seq<string>) returns (best: Option<string>)
    ensures best.None? <==> forall c :: c in candidates ==> Distance(input, c) > MAX_DISTANCE
    ensures best.Some? ==>
              exists k :: 0 <= k < |candidates| && candidates[k] == best.value
                && Distance(input, candidates[k]) <= MAX_DISTANCE
                && (forall j :: 0 <= j < |candidates| ==>
                   Distance(input, candidates[k]) <= Distance(input, candidates[j]))
                && (forall j :: 0 <= j < k ==> Distance(input, candidates[k]) < Distance(input, candidates[j]))
  {
    hide Distance;
    var found: Option<string> := None;
    var bestDistance := 0;
    ghost var at := 0;
    for i := 0 to |candidates|
      invariant found.None? <==> i == 0
      invariant found.Some? ==> at < i && candidates[at] == found.value && bestDistance == Distance(input, found.value)
      invariant found.Some? ==> forall j :: 0 <= j < i ==> bestDistance <= Distance(input, candidates[j])
      invariant found.Some? ==> forall j :: 0 <= j < at ==> bestDistance < Distance(input, candidates[j])
    {
      var distance := EditDistance(input, candidates[i]);
      if found.None? || distance < bestDistance {
        found, bestDistance, at := Some(candidates[i]), distance, i;
      }
    }
    best := if found.Some? && bestDistance <= MAX_DISTANCE then found else None;
  }
}

/**
 * List operations the game performs on its entity arrays:
 * `filter(x => x !== v)` and the effect of `splice(index, 1)` called from
 * inside `forEach` (src/entities/Block.js, src/entities/player/Player.js).
 */
module Sequences {

  predicate Distinct<T(==)>(s: seq<T>)
  {
    forall i, j :: 0 <= i < j < |s| ==> s[i] != s[j]
  }

  /** `s.filter(x => x !== v)`. */
  function Without<T(==)>(s: seq<T>, v: T): (r: seq<T>)
    ensures v !in r && |r| <= |s|
  {
    if s == [] then []
    else if s[0] == v then Without(s[1..], v)
    else [s[0]] + Without(s[1..], v)
  }

  /** Removing a value that occurs only once takes out exactly that value and keeps the rest in order. */
  lemma {:induction false} WithoutSplit<T>(a: seq<T>, v: T, b: seq<T>)
    requires v !in a && v !in b
    ensures Without(a + [v] + b, v) == a + b
  {
    if a == [] {
      assert a + [v] + b == [v] + b;
      WithoutCons(v, b, v);
      WithoutAbsent(b, v);
    } else {
      var t := a[1..] + [v] + b;
      assert a + [v] + b == [a[0]] + t;
      WithoutCons(a[0], t, v);
      WithoutSplit(a[1..], v, b);
      assert a + b == [a[0]] + (a[1..] + b);
    }
  }

  /** One step of the filter. */
  lemma WithoutCons<T>(x: T, t: seq<T>, v: T)
    ensures Without([x] + t, v) == if x == v then Without(t, v) else [x] + Without(t, v)
  {
    assert ([x] + t)[0] == x && ([x] + t)[1..] == t;
  }

  /** The filter keeps exactly the elements other than `v`. */
  lemma {:induction false} WithoutMembers<T>(s: seq<T>, v: T, x: T)
    ensures x in Without(s, v) <==> x in s && x != v
  {
    if s != [] {
      WithoutMembers(s[1..], v, x);
      assert s == [s[0]] + s[1..];
    }
  }

  /** Removing a value that is absent changes nothing. */
  lemma {:induction false} WithoutAbsent<T>(s: seq<T>, v: T)
    requires v !in s
    ensures Without(s, v) == s
  {
    if s != [] {
      WithoutAbsent(s[1..], v);
    }
  }

  lemma {:induction false} WithoutDistinct<T>(s: seq<T>, v: T)
    requires Distinct(s)
    ensures Distinct(Without(s, v))
  {
    if s != [] {
      WithoutDistinct(s[1..], v);
      if s[0] != v {
        WithoutMembers(s[1..], v, s[0]);
        assert s[0] !in s[1..];
      }
    }
  }

  /**
   * Which positions a `forEach` whose callback calls `splice(index, 1)` on a
   * hit actually removes, given which elements are hits. A removed element
   * shifts its successor into the visited slot, so the successor is never
   * looked at.
   */
  function RemovedMask(hit: seq<bool>): (r: seq<bool>)
    ensures |r| == |hit|
  {
    if hit == [] then []
    else if hit[0] then
      if |hit| == 1 then [true] else [true, false] + RemovedMask(hit[2..])
    else [false] + RemovedMask(hit[1..])
  }

  /** The elements whose mask entry is false, in order. */
  function Keep<T>(s: seq<T>, removed: seq<bool>): (r: seq<T>)
    requires |removed| == |s|
    ensures |r| <= |s|
  {
    if s == [] then []
    else (if removed[0] then [] else [s[0]]) + Keep(s[1..], removed[1..])
  }

  /** Only hits are removed. */
  lemma {:induction false} RemovedOnlyHits(hit: seq<bool>, k: int)
    requires 0 <= k < |hit| && RemovedMask(hit)[k]
    ensures hit[k]
  {
    if hit[0] {
      if |hit| > 1 && k >= 2 {
        RemovedOnlyHits(hit[2..], k - 2);
      }
    } else {
      RemovedOnlyHits(hit[1..], k - 1);
    }
  }

  /** The element after a removed one is skipped, so it is never removed in the same pass. */
  lemma {:induction false} SuccessorSkipped(hit: seq<bool>, k: int)
    requires 0 <= k && k + 1 < |hit| && RemovedMask(hit)[k]
    ensures !RemovedMask(hit)[k + 1]
  {
    if hit[0] {
      if k >= 2 {
        SuccessorSkipped(hit[2..], k - 2);
      }
    } else {
      SuccessorSkipped(hit[1..], k - 1);
    }
  }

  /** A hit is removed unless the element just before it was removed. */
  lemma {:induction false} HitRemovedUnlessShadowed(hit: seq<bool>, k: int)
    requires 0 <= k < |hit| && hit[k]
    requires k == 0 || !RemovedMask(hit)[k - 1]
    ensures RemovedMask(hit)[k]
  {
    if k > 0 {
      if hit[0] {
        assert k != 1;
        HitRemovedUnlessShadowed(hit[2..], k - 2);
      } else {
        HitRemovedUnlessShadowed(hit[1..], k - 1);
      }
    }
  }

  lemma {:induction false} KeepMembers<T>(s: seq<T>, removed: seq<bool>, x: T)
    requires |removed| == |s|
    ensures x in Keep(s, removed) <==> exists k :: 0 <= k < |s| && s[k] == x && !removed[k]
  {
    if s != [] {
      KeepMembers(s[1..], removed[1..], x);
      if x in Keep(s[1..], removed[1..]) {
        var k :| 0 <= k < |s| - 1 && s[1..][k] == x && !removed[1..][k];
        assert s[k + 1] == x && !removed[k + 1];
      }
      if exists k :: 0 <= k < |s| && s[k] == x && !removed[k] {
        var k :| 0 <= k < |s| && s[k] == x && !removed[k];
        if k > 0 {
          assert s[1..][k - 1] == x && !removed[1..][k - 1];
        }
      }
    }
  }

  lemma {:induction false} KeepDistinct<T>(s: seq<T>, removed: seq<bool>)
    requires |removed| == |s| && Distinct(s)
    ensures Distinct(Keep(s, removed))
  {
    if s != [] {
      KeepDistinct(s[1..], removed[1..]);
      KeepMembers(s[1..], removed[1..], s[0]);
    }
  }

  /**
   * The array left by the source's loop: positions `i..` of the live array
   * `a` are still to be visited, `hit` is aligned with `a`, and `forEach`
   * stops at the first index the shrunken array no longer has.
   */
  function SpliceFrom<T>(a: seq<T>, hit: seq<bool>, i: nat): seq<T>
    requires |hit| == |a|
    decreases |a| - i
  {
    if i >= |a| then a
    else if hit[i] then SpliceFrom(a[..i] + a[i + 1..], hit[..i] + hit[i + 1..], i + 1)
    else SpliceFrom(a, hit, i + 1)
  }

  /** The loop's result is the list with exactly the masked positions removed. */
  lemma {:induction false} SpliceFromKeeps<T>(a: seq<T>, hit: seq<bool>, i: nat)
    requires |hit| == |a| && i <= |a|
    ensures SpliceFrom(a, hit, i) == a[..i] + Keep(a[i..], RemovedMask(hit[i..]))
    decreases |a| - i
  {
    if i == |a| {
      assert a[i..] == [];
      assert a[..i] == a;
    } else if hit[i] {
      if i + 2 <= |a| {
        SpliceHitStep(a, hit, i);
      } else {
        var a' := a[..i] + a[i + 1..];
        assert SpliceFrom(a', hit[..i] + hit[i + 1..], i + 1) == a';
        assert a[i..] == [a[i]];
        assert a' == a[..i];
      }
    } else {
      SpliceFromKeeps(a, hit, i + 1);
      var m := RemovedMask(hit[i..]);
      assert hit[i..][1..] == hit[i + 1..];
      assert m == [false] + RemovedMask(hit[i + 1..]);
      KeepCons(a[i..], m);
      assert a[i..][1..] == a[i + 1..];
      assert m[1..] == RemovedMask(hit[i + 1..]);
      assert a[..i + 1] == a[..i] + [a[i]];
    }
  }

  lemma {:induction false} SpliceHitStep<T>(a: seq<T>, hit: seq<bool>, i: nat)
    requires |hit| == |a| && i + 2 <= |a| && hit[i]
    ensures SpliceFrom(a, hit, i) == a[..i] + Keep(a[i..], RemovedMask(hit[i..]))
    decreases |a| - i, 0
  {
    var a' := a[..i] + a[i + 1..];
    var hit' := hit[..i] + hit[i + 1..];
    SpliceFromKeeps(a', hit', i + 1);
    assert a'[..i + 1] == a[..i] + [a[i + 1]];
    assert a'[i + 1..] == a[i + 2..];
    assert hit'[i + 1..] == hit[i + 2..];
    var m := RemovedMask(hit[i..]);
    assert hit[i..][2..] == hit[i + 2..];
    assert m == [true, false] + RemovedMask(hit[i + 2..]);
    assert m[2..] == RemovedMask(hit[i + 2..]);
    assert a[i..][2..] == a[i + 2..];
    KeepTwo(a[i..], m);
  }

  lemma KeepCons<T>(s: seq<T>, removed: seq<bool>)
    requires |removed| == |s| >= 1
    ensures Keep(s, removed) == (if removed[0] then [] else [s[0]]) + Keep(s[1..], removed[1..])
  {
  }

  lemma KeepTwo<T>(s: seq<T>, removed: seq<bool>)
    requires |removed| == |s| >= 2 && removed[0] && !removed[1]
    ensures Keep(s, removed) == [s[1]] + Keep(s[2..], removed[2..])
  {
    assert s[1..][1..] == s[2..];
    assert removed[1..][1..] == removed[2..];
  }

  /** Keeping from a longer prefix adds the next element unless it is removed. */
  lemma {:induction false} KeepSnoc<T>(s: seq<T>, removed: seq<bool>, k: nat)
    requires |removed| == |s| && k < |s|
    ensures Keep(s[..k + 1], removed[..k + 1]) == Keep(s[..k], removed[..k]) + (if removed[k] then [] else [s[k]])
  {
    KeepAppend(s[..k], removed[..k], [s[k]], [removed[k]]);
    assert s[..k + 1] == s[..k] + [s[k]];
    assert removed[..k + 1] == removed[..k] + [removed[k]];
  }

  lemma {:induction false} KeepAppend<T>(a: seq<T>, ma: seq<bool>, b: seq<T>, mb: seq<bool>)
    requires |ma| == |a| && |mb| == |b|
    ensures Keep(a + b, ma + mb) == Keep(a, ma) + Keep(b, mb)
  {
    if a != [] {
      KeepAppend(a[1..], ma[1..], b, mb);
      assert (a + b)[1..] == a[1..] + b;
      assert (ma + mb)[1..] == ma[1..] + mb;
    } else {
      assert a + b == b && ma + mb == mb;
    }
  }

  /**
   * Where a splicing `forEach` over the list that started as `a` stands: it
   * has passed the first `k` original elements, removing those that
   * `RemovedMask(hits)` marks, the live list is what is left, and the visit
   * index `i` holds original element `k` (or is past the end once all are
   * passed).
   */
  ghost predicate ScanAt<T>(a: seq<T>, hits: seq<bool>, k: int, i: int, live: seq<T>)
  {
    var removed := RemovedMask(hits);
    |hits| == |a| && 0 <= k <= |a|
    && (k == 0 || k == |a| || !removed[k - 1])
    && live == Keep(a[..k], removed[..k]) + a[k..]
    && (k < |a| ==> i == |Keep(a[..k], removed[..k])|)
    && (k == |a| ==> i >= |live|)
  }

  /** The scan starts at the head of the untouched list. */
  lemma ScanStart<T>(a: seq<T>, hits: seq<bool>)
    requires |hits| == |a|
    ensures ScanAt(a, hits, 0, 0, a)
  {
    assert a[..0] == [] && RemovedMask(hits)[..0] == [] && a[0..] == a;
  }

  /** The visit index holds original element `k`, and it is a hit exactly when it is removed. */
  lemma ScanHere<T>(a: seq<T>, hits: seq<bool>, k: int, i: int, live: seq<T>)
    requires ScanAt(a, hits, k, i, live) && 0 <= i < |live|
    ensures k < |a| && live[i] == a[k] && (hits[k] <==> RemovedMask(hits)[k])
  {
    var removed := RemovedMask(hits);
    var kept := Keep(a[..k], removed[..k]);
    assert k < |a|;
    assert a[k..] == [a[k]] + a[k + 1..];
    assert live[i] == a[k];
    if hits[k] {
      HitRemovedUnlessShadowed(hits, k);
    }
    if removed[k] {
      RemovedOnlyHits(hits, k);
    }
  }

  /** Visiting a miss keeps it and moves on. */
  lemma ScanPass<T>(a: seq<T>, hits: seq<bool>, k: int, i: int, live: seq<T>)
    requires ScanAt(a, hits, k, i, live) && k < |a| && !RemovedMask(hits)[k]
    ensures ScanAt(a, hits, k + 1, i + 1, live)
  {
    KeepPassed(a, RemovedMask(hits), k, live);
  }

  /**
   * Visiting a hit splices it out; the next element slides into the visited
   * slot and the index moves past it, so it is passed without a visit.
   */
  lemma ScanRemove<T>(a: seq<T>, hits: seq<bool>, k: int, i: int, live: seq<T>)
    requires ScanAt(a, hits, k, i, live) && k < |a| && RemovedMask(hits)[k]
    ensures i < |live|
    ensures ScanAt(a, hits, if k + 1 < |a| then k + 2 else k + 1, i + 1, live[..i] + live[i + 1..])
  {
    var removed := RemovedMask(hits);
    KeepSpliced(a, removed, k, live);
    if k + 1 < |a| {
      SuccessorSkipped(hits, k);
      KeepPassed(a, removed, k + 1, live[..i] + live[i + 1..]);
    }
  }

  lemma {:induction false} KeepPassed<T>(a: seq<T>, removed: seq<bool>, k: nat, live: seq<T>)
    requires |removed| == |a| && k < |a| && !removed[k] && live == Keep(a[..k], removed[..k]) + a[k..]
    ensures live == Keep(a[..k + 1], removed[..k + 1]) + a[k + 1..]
    ensures |Keep(a[..k + 1], removed[..k + 1])| == |Keep(a[..k], removed[..k])| + 1
  {
    KeepSnoc(a, removed, k);
    assert a[k..] == [a[k]] + a[k + 1..];
  }

  lemma {:induction false} KeepSpliced<T>(a: seq<T>, removed: seq<bool>, k: nat, live: seq<T>)
    requires |removed| == |a| && k < |a| && removed[k] && live == Keep(a[..k], removed[..k]) + a[k..]
    ensures var i := |Keep(a[..k], removed[..k])|;
      i < |live| && live[..i] + live[i + 1..] == Keep(a[..k + 1], removed[..k + 1]) + a[k + 1..]
      && |Keep(a[..k + 1], removed[..k + 1])| == i
  {
    var kept := Keep(a[..k], removed[..k]);
    var i := |kept|;
    KeepSnoc(a, removed, k);
    assert a[k..] == [a[k]] + a[k + 1..];
    assert live[..i] == kept;
    assert live[i + 1..] == a[k + 1..];
  }

  /** A scan whose index has run off the live list has passed every element and left exactly the unmarked ones. */
  lemma ScanEnd<T>(a: seq<T>, hits: seq<bool>, k: int, i: int, live: seq<T>)
    requires ScanAt(a, hits, k, i, live) && i >= |live|
    ensures k == |a| && live == Keep(a, RemovedMask(hits))
  {
    assert |live| == |Keep(a[..k], RemovedMask(hits)[..k])| + |a| - k;
    assert a[..|a|] == a && RemovedMask(hits)[..|a|] == RemovedMask(hits);
  }

  /** `splice(i, 1)` keeps a list duplicate-free. */
  lemma RemoveAtDistinct<T>(s: seq<T>, i: nat)
    requires Distinct(s) && i < |s|
    ensures Distinct(s[..i] + s[i + 1..])
  {
    var r := s[..i] + s[i + 1..];
    forall a, b | 0 <= a < b < |r|
      ensures r[a] != r[b]
    {
      var a' := if a < i then a else a + 1;
      var b' := if b < i then b else b + 1;
      assert r[a] == s[a'] && r[b] == s[b'];
    }
  }
}

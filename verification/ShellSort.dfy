/** Insertion at a stride, as both shell sorts of mainSort (blocksort.c) do it: an entry sinks past
    greater ones, one stride at a time. */
module ShellSort {
  import opened ThreeWay

  /** `f` with its entry `i` put in front of entry `j`. */
  ghost function Slid(f: seq<int>, j: int, i: int): (g: seq<int>)
    requires 0 <= j <= i < |f|
    ensures |g| == |f|
  {
    f[..j] + [f[i]] + f[j..i] + f[i + 1..]
  }

  ghost predicate Ascending(f: seq<int>, le: (int, int) -> bool, lo: int, hi: int) {
    0 <= lo && hi < |f| && forall x, y :: lo <= x < y <= hi ==> le(f[x], f[y])
  }

  ghost predicate Transitive(le: (int, int) -> bool) {
    forall u, v, w :: le(u, v) && le(v, w) ==> le(u, w)
  }

  /** While entry `i` of `f` sinks: it belongs at `j`, everything below `j` is as it was. */
  ghost predicate Sinking(f: seq<int>, cur: seq<int>, le: (int, int) -> bool, lo: int, j: int, i: int, h: int) {
    && 0 <= lo <= j <= i < |f| == |cur| && 0 < h
    && cur[..j] == f[..j] && Rearranged(f, cur[j := f[i]], lo, i)
    && (h == 1 ==> cur[j := f[i]] == Slid(f, j, i) && forall x :: j <= x < i ==> le(f[i], f[x]))
  }

  lemma SinkStart(f: seq<int>, le: (int, int) -> bool, lo: int, i: int, h: int)
    requires 0 <= lo <= i < |f| && 0 < h
    ensures Sinking(f, f, le, lo, i, i, h)
  {
    assert f[i := f[i]] == f == Slid(f, i, i);
  }

  lemma SinkStep(f: seq<int>, cur: seq<int>, le: (int, int) -> bool, lo: int, j: int, i: int, h: int)
    requires Sinking(f, cur, le, lo, j, i, h) && lo <= j - h && le(f[i], f[j - h])
    ensures Sinking(f, cur[j := cur[j - h]], le, lo, j - h, i, h)
  {
    hide Slid, Rearranged;
    var g := cur[j := f[i]];
    var next := cur[j := cur[j - h]];
    assert cur[j - h] == cur[..j][j - h] == f[j - h];
    var k := StrideStep(f, g, cur, next, j, j - h, f[i], lo, i);
    assert next[..j - h] == cur[..j][..j - h] == f[..j - h];
    if h == 1 {
      SlidStep(f, cur, j, i);
    }
  }

  lemma SlidStep(f: seq<int>, cur: seq<int>, j: int, i: int)
    requires 0 < j <= i < |f| == |cur| && cur[j := f[i]] == Slid(f, j, i) && cur[j - 1] == f[j - 1]
    ensures cur[j := cur[j - 1]][j - 1 := f[i]] == Slid(f, j - 1, i)
  {
    assert Slid(f, j - 1, i) == Slid(f, j, i)[j := f[j - 1]][j - 1 := f[i]];
  }

  lemma Chain(le: (int, int) -> bool, u: int, v: int, w: int)
    requires Transitive(le) && le(u, v) && le(v, w)
    ensures le(u, w)
  { }

  /** Where the entry came to rest. */
  lemma SinkDone(f: seq<int>, cur: seq<int>, le: (int, int) -> bool, lo: int, j: int, i: int, h: int)
    requires Sinking(f, cur, le, lo, j, i, h)
    ensures Rearranged(f, cur[j := f[i]], lo, i)
    ensures h == 1 && Transitive(le) && Ascending(f, le, lo, i - 1) && (lo < j ==> le(f[j - 1], f[i])) ==>
              Ascending(cur[j := f[i]], le, lo, i)
  {
    var g := cur[j := f[i]];
    if h == 1 && Transitive(le) && Ascending(f, le, lo, i - 1) && (lo < j ==> le(f[j - 1], f[i])) {
      forall x, y | lo <= x < y <= i
        ensures le(g[x], g[y])
      {
        SlidAt(f, j, i, x);
        SlidAt(f, j, i, y);
        if y == j {
          if x < j - 1 { Chain(le, f[x], f[j - 1], f[i]); }
        } else {
          assert x != j ==> le(f[if x < j then x else x - 1], f[if y < j then y else y - 1]);
        }
      }
    }
  }

  lemma SlidAt(f: seq<int>, j: int, i: int, x: int)
    requires 0 <= j <= i < |f| && 0 <= x <= i
    ensures Slid(f, j, i)[x] == if x < j then f[x] else if x == j then f[i] else f[x - 1]
  { }
}

/**
  The console's command history: bounded, deduplicated on push, and browsed by a pointer
  that gives back the unfinished line when it returns to the end.
 */
module History {
  import opened Wrappers

  // ---------------------------------------------------------- what it should hold

  function Without<T(==)>(s: seq<T>, x: T): (r: seq<T>)
    ensures |r| <= |s|
  {
    if s == [] then []
    else Without(s[..|s| - 1], x) + (if s[|s| - 1] == x then [] else [s[|s| - 1]])
  }

  /** The commands in the order of their last occurrence. */
  function Dedup<T(==)>(s: seq<T>): seq<T> {
    if s == [] then [] else Without(Dedup(s[..|s| - 1]), s[|s| - 1]) + [s[|s| - 1]]
  }

  function LastN<T(==)>(s: seq<T>, n: nat): (r: seq<T>)
    ensures |r| <= n
  {
    if |s| <= n then s else s[|s| - n..]
  }

  ghost predicate Distinct<T>(s: seq<T>) {
    forall i, j :: 0 <= i < j < |s| ==> s[i] != s[j]
  }

  lemma InInit<T>(s: seq<T>, y: T)
    requires s != []
    ensures y in s <==> y in s[..|s| - 1] || y == s[|s| - 1]
  {
    assert s == s[..|s| - 1] + [s[|s| - 1]];
  }

  lemma {:induction false} WithoutMembers<T>(s: seq<T>, x: T)
    ensures forall y :: y in Without(s, x) <==> y in s && y != x
  {
    if s != [] {
      WithoutMembers(s[..|s| - 1], x);
      forall y
        ensures y in Without(s, x) <==> y in s && y != x
      {
        InInit(s, y);
      }
    }
  }

  lemma {:induction false} WithoutDistinct<T>(s: seq<T>, x: T)
    requires Distinct(s)
    ensures Distinct(Without(s, x))
  {
    if s != [] {
      var init, last := s[..|s| - 1], s[|s| - 1];
      WithoutDistinct(init, x);
      WithoutMembers(init, x);
      assert last !in init;
      DistinctSnoc(Without(init, x), last);
    }
  }

  lemma DistinctSnoc<T>(s: seq<T>, x: T)
    requires Distinct(s) && x !in s
    ensures Distinct(s + [x])
  {}

  lemma {:induction false} WithoutAbsent<T>(s: seq<T>, x: T)
    requires x !in s
    ensures Without(s, x) == s
  {
    if s != [] {
      InInit(s, x);
      WithoutAbsent(s[..|s| - 1], x);
      assert s == s[..|s| - 1] + [s[|s| - 1]];
    }
  }

  /** Deduplication keeps every command, once. */
  lemma {:induction false} DedupMembers<T>(s: seq<T>)
    ensures Distinct(Dedup(s))
    ensures forall y :: y in Dedup(s) <==> y in s
  {
    if s != [] {
      var init, last := s[..|s| - 1], s[|s| - 1];
      DedupMembers(init);
      WithoutMembers(Dedup(init), last);
      WithoutDistinct(Dedup(init), last);
      DistinctSnoc(Without(Dedup(init), last), last);
      forall y
        ensures y in Dedup(s) <==> y in s
      {
        InInit(s, y);
      }
    }
  }

  /** The index of the last occurrence. */
  function LastIndex<T(==)>(s: seq<T>, x: T): nat
    requires x in s
  {
    if s[|s| - 1] == x then |s| - 1
    else
      InInit(s, x);
      LastIndex(s[..|s| - 1], x)
  }

  ghost predicate ByLastUse<T>(d: seq<T>, s: seq<T>) {
    && (forall i :: 0 <= i < |d| ==> d[i] in s)
    && (forall i, j :: 0 <= i < j < |d| ==> LastIndex(s, d[i]) < LastIndex(s, d[j]))
  }

  lemma {:induction false} WithoutByLastUse<T>(d: seq<T>, s: seq<T>, x: T)
    requires ByLastUse(d, s)
    ensures ByLastUse(Without(d, x), s)
  {
    if d != [] {
      var init, last := d[..|d| - 1], d[|d| - 1];
      assert ByLastUse(init, s);
      WithoutByLastUse(init, s, x);
      WithoutMembers(init, x);
      var r := Without(init, x);
      forall i | 0 <= i < |r|
        ensures LastIndex(s, r[i]) < LastIndex(s, last)
      {
        assert r[i] in init;
        var j :| 0 <= j < |init| && init[j] == r[i];
        assert d[j] == init[j];
      }
    }
  }

  lemma LastIndexInit<T>(s: seq<T>, x: T)
    requires s != [] && x in s && x != s[|s| - 1]
    ensures x in s[..|s| - 1] && LastIndex(s, x) == LastIndex(s[..|s| - 1], x) < |s| - 1
  {
    InInit(s, x);
    LastIndexBound(s[..|s| - 1], x);
  }

  /** Deduplication orders commands by their last use. */
  lemma {:induction false} DedupByLastUse<T>(s: seq<T>)
    ensures ByLastUse(Dedup(s), s)
  {
    if s != [] {
      var init, x := s[..|s| - 1], s[|s| - 1];
      DedupByLastUse(init);
      var kept := Without(Dedup(init), x);
      WithoutByLastUse(Dedup(init), init, x);
      WithoutMembers(Dedup(init), x);
      forall i | 0 <= i < |kept|
        ensures kept[i] in s && LastIndex(s, kept[i]) == LastIndex(init, kept[i]) < |init|
      {
        assert kept[i] in init && kept[i] in kept;
        InInit(s, kept[i]);
        LastIndexInit(s, kept[i]);
      }
    }
  }

  lemma {:induction false} LastIndexBound<T>(s: seq<T>, x: T)
    requires x in s
    ensures LastIndex(s, x) < |s| && s[LastIndex(s, x)] == x
  {
    if s[|s| - 1] != x {
      InInit(s, x);
      LastIndexBound(s[..|s| - 1], x);
    }
  }

  // --------------------------------------------------------------------- pushing

  lemma {:induction false} WithoutConcat<T>(a: seq<T>, b: seq<T>, x: T)
    ensures Without(a + b, x) == Without(a, x) + Without(b, x)
    decreases |b|
  {
    if b == [] {
      assert a + b == a;
    } else {
      assert (a + b)[..|a + b| - 1] == a + b[..|b| - 1];
      WithoutConcat(a, b[..|b| - 1], x);
    }
  }

  lemma WithoutSelf<T>(x: T)
    ensures Without([x], x) == []
  {
    assert [x][..0] == [];
  }

  lemma DistinctAround<T>(s: seq<T>, k: nat)
    requires k < |s| && Distinct(s)
    ensures s[k] !in s[..k] && s[k] !in s[k + 1..]
  {}

  lemma WithoutAt<T>(s: seq<T>, k: nat)
    requires k < |s| && Distinct(s)
    ensures Without(s, s[k]) == s[..k] + s[k + 1..]
  {
    hide *;
    var x, head, tail := s[k], s[..k], s[k + 1..];
    assert s == head + ([x] + tail);
    DistinctAround(s, k);
    WithoutConcat(head, [x] + tail, x);
    WithoutConcat([x], tail, x);
    WithoutSelf(x);
    WithoutAbsent(head, x);
    WithoutAbsent(tail, x);
    assert [] + tail == tail;
  }

  lemma WithoutLength<T>(s: seq<T>, x: T)
    requires Distinct(s)
    ensures |Without(s, x)| >= |s| - 1
  {
    hide Without;
    if x in s {
      var k :| 0 <= k < |s| && s[k] == x;
      WithoutAt(s, k);
    } else {
      WithoutAbsent(s, x);
    }
  }

  lemma LastNConcat<T>(a: seq<T>, b: seq<T>, n: nat)
    requires |b| >= n
    ensures LastN(a + b, n) == LastN(b, n)
  {}

  lemma LastNDistinct<T>(d: seq<T>, n: nat)
    requires Distinct(d)
    ensures Distinct(LastN(d, n))
  {}

  /** Pushing onto the last n commands gives the last n of the longer run. */
  lemma PushKeepsLast<T>(d: seq<T>, n: nat, x: T)
    requires Distinct(d)
    ensures LastN(Without(LastN(d, n), x) + [x], n) == LastN(Without(d, x) + [x], n)
  {
    if |d| > n {
      hide Without;
      var older, kept := d[..|d| - n], d[|d| - n..];
      assert d == older + kept && LastN(d, n) == kept;
      WithoutConcat(older, kept, x);
      var short := Without(kept, x) + [x];
      assert Without(d, x) + [x] == Without(older, x) + short;
      LastNDistinct(d, n);
      WithoutLength(kept, x);
      LastNConcat(Without(older, x), short, n);
    }
  }

  lemma DedupSnoc<T>(s: seq<T>, x: T)
    ensures Dedup(s + [x]) == Without(Dedup(s), x) + [x]
  {
    assert (s + [x])[..|s|] == s;
  }

  // -------------------------------------------------------------------- browsing

  /** What one browse step shows, and the pointer and saved line it leaves. */
  datatype View = View(ptr: nat, pending: Option<string>, shown: string)

  function Clamp(x: int, n: nat): nat {
    if x < 0 then 0 else if x > n then n else x
  }

  function BrowseStep(items: seq<string>, b: View, offset: int): View {
    var pending := if b.ptr == |items| then Some(b.shown) else b.pending;
    var ptr := Clamp(b.ptr + offset, |items|);
    View(ptr, pending, if ptr < |items| then items[ptr] else if pending.Some? then pending.value else b.shown)
  }

  /** A walk of browse steps, each fed the line the one before showed. */
  function BrowseWalk(items: seq<string>, b: View, offsets: seq<int>): View {
    if offsets == [] then b
    else BrowseStep(items, BrowseWalk(items, b, offsets[..|offsets| - 1]), offsets[|offsets| - 1])
  }

  /**
    Whatever the steps, a walk that starts at the end on an unfinished line shows that line
    whenever it is back at the end, and the item under the pointer everywhere else.
   */
  lemma {:induction false} WalkRestoresLine(items: seq<string>, line: string, pending: Option<string>,
      offsets: seq<int>)
    ensures var b := BrowseWalk(items, View(|items|, pending, line), offsets);
            && b.ptr <= |items|
            && b.shown == (if b.ptr == |items| then line else items[b.ptr])
            && (b.ptr < |items| ==> b.pending == Some(line))
    decreases |offsets|
  {
    if offsets != [] {
      WalkRestoresLine(items, line, pending, offsets[..|offsets| - 1]);
    }
  }

  /** The same step n times. */
  function Steps(n: nat, offset: int): seq<int> { seq(n, i => offset) }

  lemma OneStepMore(items: seq<string>, b: View, before: seq<int>, n: nat, offset: int)
    requires n > 0
    ensures BrowseWalk(items, b, before + Steps(n, offset))
         == BrowseStep(items, BrowseWalk(items, b, before + Steps(n - 1, offset)), offset)
  {
    var walk := before + Steps(n, offset);
    assert walk[..|walk| - 1] == before + Steps(n - 1, offset);
  }

  lemma {:induction false} OlderPointer(items: seq<string>, b: View, n: nat)
    requires b.ptr == |items|
    ensures BrowseWalk(items, b, Steps(n, -1)).ptr == if n <= |items| then |items| - n else 0
  {
    if n > 0 {
      hide BrowseWalk, Steps;
      OlderPointer(items, b, n - 1);
      NoStepsBefore(n);
      OneStepMore(items, b, [], n, -1);
    }
  }

  lemma NoStepsBefore(n: nat)
    requires n > 0
    ensures [] + Steps(n, -1) == Steps(n, -1) && [] + Steps(n - 1, -1) == Steps(n - 1, -1)
  {
  }

  /** From the end, n steps up lead to the n-th newest command, or to the oldest if there are fewer. */
  lemma OlderSteps(items: seq<string>, line: string, pending: Option<string>, n: nat)
    ensures var b := BrowseWalk(items, View(|items|, pending, line), Steps(n, -1));
      && b.ptr == (if n <= |items| then |items| - n else 0)
      && b.shown == (if n == 0 || items == [] then line else if n <= |items| then items[|items| - n] else items[0])
  {
    hide BrowseWalk, Steps;
    OlderPointer(items, View(|items|, pending, line), n);
    WalkRestoresLine(items, line, pending, Steps(n, -1));
  }

  lemma {:induction false} NewerSteps(items: seq<string>, b: View, before: seq<int>, n: nat)
    requires BrowseWalk(items, b, before).ptr <= |items|
    ensures var ptr := BrowseWalk(items, b, before).ptr;
      BrowseWalk(items, b, before + Steps(n, 1)).ptr == if ptr + n <= |items| then ptr + n else |items|
  {
    if n == 0 {
      assert before + Steps(0, 1) == before;
    } else {
      hide BrowseWalk, Steps;
      NewerSteps(items, b, before, n - 1);
      OneStepMore(items, b, before, n, 1);
    }
  }

  /** As many steps down lead back to the end and the unfinished line. */
  lemma ThereAndBack(items: seq<string>, line: string, pending: Option<string>, n: nat)
    ensures var b := BrowseWalk(items, View(|items|, pending, line), Steps(n, -1) + Steps(n, 1));
      b.ptr == |items| && b.shown == line
  {
    hide BrowseWalk, Steps;
    OlderSteps(items, line, pending, n);
    NewerSteps(items, View(|items|, pending, line), Steps(n, -1), n);
    WalkRestoresLine(items, line, pending, Steps(n, -1) + Steps(n, 1));
  }

  // ------------------------------------------------------------------ the history

  /** The first index of cmd, or -1. */
  method IndexOf(items: seq<string>, cmd: string) returns (i: int)
    ensures -1 <= i < |items|
    ensures if i >= 0 then items[i] == cmd else cmd !in items
  {
    i := 0;
    while i < |items|
      invariant 0 <= i <= |items|
      invariant cmd !in items[..i]
    {
      if items[i] == cmd { return; }
      i := i + 1;
    }
    i := -1;
  }

  /** Take the first occurrence out. */
  method RemoveFirst(items: seq<string>, cmd: string) returns (r: seq<string>)
    requires Distinct(items)
    ensures r == Without(items, cmd)
  {
    hide Without;
    var dup := IndexOf(items, cmd);
    if dup >= 0 {
      WithoutAt(items, dup);
      r := items[..dup] + items[dup + 1..];
    } else {
      WithoutAbsent(items, cmd);
      r := items;
    }
  }

  /** Drop the oldest items while there are more than limit. */
  method Trim(items: seq<string>, limit: nat) returns (r: seq<string>)
    ensures r == LastN(items, limit)
  {
    r := items;
    while |r| > limit
      invariant |r| <= |items| && r == items[|items| - |r|..]
      invariant |r| >= limit || r == items
    {
      assert r[1..] == items[|items| - (|r| - 1)..];
      r := r[1..];
    }
  }

  class CommandHistory {
    const limit: nat
    var items: seq<string>
    var ptr: nat
    var pending: Option<string>
    ghost var pushed: seq<string>   // every command pushed so far

    ghost predicate Valid()
      reads this
    {
      items == LastN(Dedup(pushed), limit) && ptr <= |items|
    }

    constructor (limit: nat)
      ensures Valid() && this.limit == limit && pushed == [] && pending == None && ptr == |items|
    {
      this.limit := limit;
      items, ptr, pending, pushed := [], 0, None, [];
    }

    /** Remove the duplicate, append, drop the oldest beyond the limit, reset the pointer. */
    method Push(cmd: string)
      requires Valid()
      modifies this
      ensures Valid()
      ensures pushed == old(pushed) + [cmd]
      ensures ptr == |items| && pending == None
    {
      hide Without, Dedup, Distinct, LastN;
      DedupMembers(pushed);
      LastNDistinct(Dedup(pushed), limit);
      PushKeepsLast(Dedup(pushed), limit, cmd);
      DedupSnoc(pushed, cmd);
      items := RemoveFirst(items, cmd);
      items := Trim(items + [cmd], limit);
      pushed := pushed + [cmd];
      ptr := |items|;
      pending := None;
    }

    /** Move the pointer by offset; current is the line on screen. */
    method Browse(offset: int, current: string) returns (shown: string)
      requires Valid()
      modifies this`ptr, this`pending
      ensures Valid()
      ensures View(ptr, pending, shown)
           == BrowseStep(items, View(old(ptr), old(pending), current), offset)
    {
      if ptr == |items| { pending := Some(current); }
      ptr := Clamp(ptr + offset, |items|);
      shown := if ptr < |items| then items[ptr] else if pending.Some? then pending.value else current;
    }
  }
}

/** The receiver's list of missing byte ranges as a value, and what receiving a range does to it. */
module Intervals {

  /** The bytes from `start` up to but not including `end`. */
  datatype Interval = Interval(start: nat, end: nat)

  /** The test `find_nak` makes: both bounds are compared against the closed interval. */
  predicate Encloses(g: Interval, s: nat, e: nat) {
    g.start <= s <= g.end && g.start <= e <= g.end
  }

  /** Index of the first gap that encloses [s, e), or the length of the list. */
  function FirstEnclosing(gs: seq<Interval>, s: nat, e: nat): (i: nat)
    ensures i <= |gs|
    ensures i < |gs| ==> Encloses(gs[i], s, e)
    ensures forall j :: 0 <= j < i ==> !Encloses(gs[j], s, e)
  {
    if gs == [] then 0
    else if Encloses(gs[0], s, e) then 0
    else
      var i := FirstEnclosing(gs[1..], s, e);
      assert forall j :: 0 < j < i + 1 ==> gs[j] == gs[1..][j - 1];
      i + 1
  }

  /** What is left of one gap, branch by branch as the code tests them. */
  function Carve(g: Interval, s: nat, e: nat): seq<Interval> {
    if s == g.start && e == g.end then []
    else if s == g.start && s < g.end then [Interval(e, g.end)]
    else if e == g.end && s > g.start then [Interval(g.start, s)]
    else [Interval(g.start, s), Interval(e, g.end)]
  }

  /** The gap list after a segment, and whether the segment was taken. */
  function Receive(gs: seq<Interval>, s: nat, e: nat): (r: (seq<Interval>, bool)) {
    var i := FirstEnclosing(gs, s, e);
    if i == |gs| then (gs, false) else (gs[..i] + Carve(gs[i], s, e) + gs[i + 1..], true)
  }

  /** Gaps in file order with at least one received byte between neighbours. */
  ghost predicate Ordered(gs: seq<Interval>) {
    && (forall i :: 0 <= i < |gs| ==> gs[i].start <= gs[i].end)
    && (forall i, j :: 0 <= i < j < |gs| ==> gs[i].end < gs[j].start)
  }

  /** Ordered, and no gap is empty: the one list that stands for a set of missing bytes. */
  ghost predicate Canonical(gs: seq<Interval>) {
    Ordered(gs) && forall i :: 0 <= i < |gs| ==> gs[i].start < gs[i].end
  }

  /** Byte `x` is still missing. */
  ghost predicate Misses(gs: seq<Interval>, x: nat) {
    exists i :: 0 <= i < |gs| && gs[i].start <= x < gs[i].end
  }

  function Size(gs: seq<Interval>): int {
    if gs == [] then 0 else gs[0].end - gs[0].start + Size(gs[1..])
  }

  lemma {:induction false} SizeConcat(a: seq<Interval>, b: seq<Interval>)
    ensures Size(a + b) == Size(a) + Size(b)
  {
    if a == [] {
      assert a + b == b;
    } else {
      assert (a + b)[1..] == a[1..] + b;
      SizeConcat(a[1..], b);
    }
  }

  /** Carving an enclosed, non-empty range leaves an ordered list. */
  lemma CarveOrdered(gs: seq<Interval>, s: nat, e: nat)
    requires Ordered(gs) && s < e
    ensures Ordered(Receive(gs, s, e).0)
    ensures Canonical(gs) ==> Canonical(Receive(gs, s, e).0)
  {
    var i := FirstEnclosing(gs, s, e);
    if i < |gs| {
      var c := Carve(gs[i], s, e);
      assert forall j :: 0 <= j < |c| ==> gs[i].start <= c[j].start <= c[j].end <= gs[i].end;
      OrderedSplice(gs, i, c);
    }
  }

  /** A gap may be replaced by ordered parts of itself. */
  lemma OrderedSplice(gs: seq<Interval>, i: nat, c: seq<Interval>)
    requires Ordered(gs) && i < |gs| && Ordered(c)
    requires forall j :: 0 <= j < |c| ==> gs[i].start <= c[j].start && c[j].end <= gs[i].end
    ensures Ordered(gs[..i] + c + gs[i + 1..])
    ensures Canonical(gs) && Canonical(c) ==> Canonical(gs[..i] + c + gs[i + 1..])
  {
    var left, right := gs[..i], gs[i + 1..];
    assert forall j :: 0 <= j < |right| ==> right[j] == gs[i + 1 + j];
    OrderedConcat(left, c);
    OrderedConcat(left + c, right);
  }

  lemma OrderedConcat(a: seq<Interval>, b: seq<Interval>)
    requires Ordered(a) && Ordered(b)
    requires forall i, j :: 0 <= i < |a| && 0 <= j < |b| ==> a[i].end < b[j].start
    ensures Ordered(a + b)
    ensures Canonical(a) && Canonical(b) ==> Canonical(a + b)
  {
  }

  /** Gap `i` replaced by `c`: a byte is missing there or in a gap left alone. */
  lemma SpliceMisses(gs: seq<Interval>, i: nat, c: seq<Interval>, x: nat)
    requires i < |gs|
    ensures Misses(gs[..i] + c + gs[i + 1..], x) <==> Misses(gs[..i], x) || Misses(c, x) || Misses(gs[i + 1..], x)
  {
    ConcatMisses(gs[..i] + c, gs[i + 1..], x);
    ConcatMisses(gs[..i], c, x);
  }

  lemma ConcatMisses(a: seq<Interval>, b: seq<Interval>, x: nat)
    ensures Misses(a + b, x) <==> Misses(a, x) || Misses(b, x)
  {
    if Misses(a, x) {
      var i :| 0 <= i < |a| && a[i].start <= x < a[i].end;
      assert (a + b)[i] == a[i];
    }
    if Misses(b, x) {
      var i :| 0 <= i < |b| && b[i].start <= x < b[i].end;
      assert (a + b)[|a| + i] == b[i];
    }
  }

  lemma CarvedGapMisses(g: Interval, s: nat, e: nat, x: nat)
    requires Encloses(g, s, e) && s < e
    ensures Misses(Carve(g, s, e), x) <==> g.start <= x < g.end && !(s <= x < e)
  {
    var c := Carve(g, s, e);
    if g.start <= x < s {
      assert c[0].start <= x < c[0].end;
    }
    if e <= x < g.end {
      assert c[|c| - 1].start <= x < c[|c| - 1].end;
    }
  }

  /** Which bytes are missing afterwards: exactly the range is gone. */
  lemma CarveMisses(gs: seq<Interval>, s: nat, e: nat, x: nat)
    requires Ordered(gs) && s < e && Receive(gs, s, e).1
    ensures Misses(Receive(gs, s, e).0, x) <==> Misses(gs, x) && !(s <= x < e)
  {
    var i := FirstEnclosing(gs, s, e);
    SpliceMisses(gs, i, Carve(gs[i], s, e), x);
    CarvedGapMisses(gs[i], s, e, x);
    OneGap(gs, i, x);
  }

  /** Neighbours of gap `i` miss none of its bytes. */
  lemma OneGap(gs: seq<Interval>, i: nat, x: nat)
    requires Ordered(gs) && i < |gs|
    ensures Misses(gs, x) <==> Misses(gs[..i], x) || gs[i].start <= x < gs[i].end || Misses(gs[i + 1..], x)
    ensures gs[i].start <= x < gs[i].end ==> !Misses(gs[..i], x) && !Misses(gs[i + 1..], x)
  {
    SpliceMisses(gs, i, [gs[i]], x);
    assert gs[..i] + [gs[i]] + gs[i + 1..] == gs;
    SingleMisses(gs[i], x);
    if Misses(gs[..i], x) {
      var j :| 0 <= j < i && gs[..i][j].start <= x < gs[..i][j].end;
      assert gs[j].end < gs[i].start;
    }
    if Misses(gs[i + 1..], x) {
      var j :| 0 <= j < |gs[i + 1..]| && gs[i + 1..][j].start <= x < gs[i + 1..][j].end;
      assert gs[i].end < gs[i + 1 + j].start;
    }
  }

  lemma SingleMisses(g: Interval, x: nat)
    ensures Misses([g], x) <==> g.start <= x < g.end
  {
    if g.start <= x < g.end { assert [g][0].start <= x < [g][0].end; }
  }

  lemma CarveSize(gs: seq<Interval>, s: nat, e: nat)
    requires s < e && Receive(gs, s, e).1
    ensures Size(Receive(gs, s, e).0) == Size(gs) - (e - s)
  {
    var i := FirstEnclosing(gs, s, e);
    var c := Carve(gs[i], s, e);
    assert gs == gs[..i] + ([gs[i]] + gs[i + 1..]);
    SizeConcat(gs[..i], [gs[i]] + gs[i + 1..]);
    SizeConcat([gs[i]], gs[i + 1..]);
    SizeConcat(gs[..i] + c, gs[i + 1..]);
    SizeConcat(gs[..i], c);
    assert |c| == 2 ==> c == [c[0]] + [c[1]];
    if |c| == 2 { SizeConcat([c[0]], [c[1]]); }
  }

  lemma EndNotMissed(gs: seq<Interval>, k: nat)
    requires Ordered(gs) && k < |gs|
    ensures !Misses(gs, gs[k].end)
  {
  }

  /** The range is taken exactly when every byte of it is missing, whatever gap holds it. */
  lemma TakenIffAllMissing(gs: seq<Interval>, s: nat, e: nat)
    requires Ordered(gs) && s < e
    ensures Receive(gs, s, e).1 <==> forall x: nat :: s <= x < e ==> Misses(gs, x)
  {
    var i := FirstEnclosing(gs, s, e);
    if i < |gs| {
      forall x | s <= x < e ensures Misses(gs, x) { assert gs[i].start <= x < gs[i].end; }
    } else if forall x: nat :: s <= x < e ==> Misses(gs, x) {
      assert Misses(gs, s);
      var k :| 0 <= k < |gs| && gs[k].start <= s < gs[k].end;
      assert !Encloses(gs[k], s, e);
      var y := gs[k].end;
      assert s <= y < e;
      EndNotMissed(gs, k);
      assert false;
    }
  }

  /** Receiving a non-empty range is set subtraction when the range is wholly missing and no change otherwise. */
  lemma ReceiveIsSubtraction(gs: seq<Interval>, s: nat, e: nat)
    requires Canonical(gs) && s < e
    ensures var r := Receive(gs, s, e);
      && Canonical(r.0)
      && (r.1 <==> forall x: nat :: s <= x < e ==> Misses(gs, x))
      && (forall x: nat :: Misses(r.0, x) <==> Misses(gs, x) && !(r.1 && s <= x < e))
      && Size(r.0) == Size(gs) - (if r.1 then e - s else 0)
      && (!r.1 ==> r.0 == gs)
  {
    TakenIffAllMissing(gs, s, e);
    CarveOrdered(gs, s, e);
    if Receive(gs, s, e).1 {
      CarveSize(gs, s, e);
      forall x: nat ensures Misses(Receive(gs, s, e).0, x) <==> Misses(gs, x) && !(s <= x < e) {
        CarveMisses(gs, s, e, x);
      }
    }
  }

  /** The list stays canonical for every pair of bounds but two: an empty range strictly inside a gap,
      which splits it into touching gaps, and a reversed range, which splits it into overlapping ones. */
  lemma ReceiveKeepsCanonicalIff(gs: seq<Interval>, s: nat, e: nat)
    requires Canonical(gs)
    ensures Canonical(Receive(gs, s, e).0) <==>
      !(exists i :: 0 <= i < |gs| && Encloses(gs[i], s, e) && (e < s || (e == s && gs[i].start < s < gs[i].end)))
  {
    var i := FirstEnclosing(gs, s, e);
    if s < e {
      CarveOrdered(gs, s, e);
    } else if i < |gs| {
      var c := Carve(gs[i], s, e);
      var r := Receive(gs, s, e).0;
      assert forall j :: 0 <= j < |gs| && Encloses(gs[j], s, e) ==> j == i;
      if e < s || gs[i].start < s < gs[i].end {
        assert r[i] == c[0] && r[i + 1] == c[1];
        assert !Canonical(r);
      } else {
        assert r == gs;
      }
    }
  }

  /** Two canonical lists with the same missing bytes are the same list. */
  lemma {:induction false} CanonicalUnique(a: seq<Interval>, b: seq<Interval>)
    requires Canonical(a) && Canonical(b)
    requires forall x: nat :: Misses(a, x) <==> Misses(b, x)
    ensures a == b
  {
    hide Misses;
    SomeMissed(a);
    SomeMissed(b);
    if a != [] && b != [] {
      HeadsAgree(a, b);
      TailsAgree(a, b);
      CanonicalUnique(a[1..], b[1..]);
      assert a == [a[0]] + a[1..] && b == [b[0]] + b[1..];
    }
  }

  lemma SomeMissed(gs: seq<Interval>)
    requires Canonical(gs)
    ensures gs == [] <==> forall x: nat :: !Misses(gs, x)
  {
    if gs != [] { assert Misses(gs, gs[0].start); }
  }

  lemma TailsAgree(a: seq<Interval>, b: seq<Interval>)
    requires Canonical(a) && Canonical(b) && a != [] && b != [] && a[0] == b[0]
    requires forall x: nat :: Misses(a, x) <==> Misses(b, x)
    ensures forall x: nat :: Misses(a[1..], x) <==> Misses(b[1..], x)
  {
    forall x: nat ensures Misses(a[1..], x) <==> Misses(b[1..], x) {
      TailMisses(a, x);
      TailMisses(b, x);
    }
  }

  lemma HeadsAgree(a: seq<Interval>, b: seq<Interval>)
    requires Canonical(a) && Canonical(b) && a != [] && b != []
    requires forall x: nat :: Misses(a, x) <==> Misses(b, x)
    ensures a[0] == b[0]
  {
    assert Misses(a, a[0].start) && Misses(b, b[0].start);
    EndNotMissed(a, 0);
    EndNotMissed(b, 0);
    assert a[0].start == b[0].start;
    var p, q := a[0].end, b[0].end;
    assert p < q ==> Misses(b, p);
    assert q < p ==> Misses(a, q);
  }

  lemma TailMisses(gs: seq<Interval>, x: nat)
    requires Ordered(gs) && gs != []
    ensures Misses(gs[1..], x) <==> Misses(gs, x) && !(gs[0].start <= x < gs[0].end)
  {
    if Misses(gs[1..], x) {
      var i :| 0 <= i < |gs[1..]| && gs[1..][i].start <= x < gs[1..][i].end;
      assert gs[i + 1].start <= x < gs[i + 1].end;
    }
    if Misses(gs, x) && !(gs[0].start <= x < gs[0].end) {
      var i :| 0 <= i < |gs| && gs[i].start <= x < gs[i].end;
      assert gs[1..][i - 1] == gs[i];
    }
  }
}

/**
 * Downsampling of traffic rows for the chart: consecutive windows of one width, each holding what its rows
 * carried. Times are microseconds.
 */
module FlowBuckets {

  const SECOND := 1_000_000

  datatype Row = Row(id: int, start: int, bytesIn: int, bytesOut: int, conns: int)

  datatype Bucket = Bucket(id: int, start: int, width: int, bytesIn: int, bytesOut: int, conns: int)

  function Max(a: int, b: int): int {
    if a < b then b else a
  }

  /** The window width: the span over the number of points, in whole seconds, at least a minute. */
  function Width(rows: seq<Row>, maxPoints: nat): (w: int)
    requires rows != [] && maxPoints > 0
    ensures w >= 60 * SECOND
  {
    var span := Max(SECOND, rows[|rows| - 1].start - rows[0].start);
    Max(60, span / (maxPoints * SECOND)) * SECOND
  }

  // ---- The fold the loop computes ----

  datatype Acc = Acc(start: int, id: int, bytesIn: int, bytesOut: int, conns: int, done: seq<Bucket>)

  function Current(a: Acc, w: int): Bucket {
    Bucket(a.id, a.start, w, a.bytesIn, a.bytesOut, a.conns)
  }

  /** Closes windows until the time falls into the open one. */
  function Advance(a: Acc, w: int, ts: int, id: int): (r: Acc)
    requires w > 0
    ensures ts < r.start + w
    decreases Max(0, ts - a.start)
  {
    if ts >= a.start + w then Advance(Acc(a.start + w, id, 0, 0, 0, a.done + [Current(a, w)]), w, ts, id) else a
  }

  predicate Blank(a: Acc) {
    a.bytesIn == 0 && a.bytesOut == 0 && a.conns == 0
  }

  function Add(a: Acc, w: int, f: Row): Acc
    requires w > 0
  {
    var b := Advance(a, w, f.start, f.id);
    b.(id := if Blank(b) then f.id else b.id, bytesIn := b.bytesIn + f.bytesIn, bytesOut := b.bytesOut + f.bytesOut,
       conns := Max(b.conns, f.conns))
  }

  function Initial(rows: seq<Row>): Acc
    requires rows != []
  {
    Acc(rows[0].start, rows[0].id, 0, 0, 0, [])
  }

  /** The accumulator after the first `k` rows. */
  function Fold(rows: seq<Row>, w: int, k: nat): Acc
    requires rows != [] && k <= |rows| && w > 0
  {
    if k == 0 then Initial(rows) else Add(Fold(rows, w, k - 1), w, rows[k - 1])
  }

  /** The last window is closed unless it is blank and not the only one. */
  function Close(a: Acc, w: int): seq<Bucket> {
    if !Blank(a) || a.done == [] then a.done + [Current(a, w)] else a.done
  }

  function Buckets(rows: seq<Row>, maxPoints: nat): seq<Bucket>
    requires rows != [] && maxPoints > 0
  {
    var w := Width(rows, maxPoints);
    Close(Fold(rows, w, |rows|), w)
  }

  function Sliced(bs: seq<Bucket>, maxPoints: nat): seq<Bucket> {
    if |bs| <= maxPoints then bs else bs[..maxPoints]
  }

  function Single(f: Row, seconds: int): Bucket {
    Bucket(f.id, f.start, seconds, f.bytesIn, f.bytesOut, f.conns)
  }

  // ---- The loop ----

  method CloseWindows(a: Acc, w: int, ts: int, id: int) returns (r: Acc)
    requires w > 0
    ensures r == Advance(a, w, ts, id)
  {
    r := a;
    while ts >= r.start + w
      invariant Advance(a, w, ts, id) == Advance(r, w, ts, id)
      decreases ts - r.start
    {
      r := Acc(r.start + w, id, 0, 0, 0, r.done + [Current(r, w)]);
    }
  }

  /** Every row with its own window while they are few, else the first `maxPoints` buckets. */
  method BucketFlowStats(rows: seq<Row>, widths: seq<int>, maxPoints: nat) returns (out: seq<Bucket>)
    requires maxPoints > 0 && |widths| == |rows|
    ensures |rows| <= maxPoints ==>
              |out| == |rows| && forall i :: 0 <= i < |rows| ==> out[i] == Single(rows[i], widths[i])
    ensures |rows| > maxPoints ==> out == Sliced(Buckets(rows, maxPoints), maxPoints)
  {
    if |rows| <= maxPoints {
      return seq(|rows|, i requires 0 <= i < |rows| => Single(rows[i], widths[i]));
    }
    var w := Width(rows, maxPoints);
    var a := Initial(rows);
    for i := 0 to |rows|
      invariant a == Fold(rows, w, i)
    {
      var f := rows[i];
      a := CloseWindows(a, w, f.start, f.id);
      if Blank(a) {
        a := a.(id := f.id);
      }
      a := a.(bytesIn := a.bytesIn + f.bytesIn, bytesOut := a.bytesOut + f.bytesOut, conns := Max(a.conns, f.conns));
    }
    out := Close(a, w);
    if |out| > maxPoints {
      out := out[..maxPoints];
    }
  }

  // ---- Conservation ----

  function RowsIn(rows: seq<Row>, k: nat): int
    requires k <= |rows|
  {
    if k == 0 then 0 else RowsIn(rows, k - 1) + rows[k - 1].bytesIn
  }

  function RowsOut(rows: seq<Row>, k: nat): int
    requires k <= |rows|
  {
    if k == 0 then 0 else RowsOut(rows, k - 1) + rows[k - 1].bytesOut
  }

  function SumIn(bs: seq<Bucket>): int {
    if bs == [] then 0 else SumIn(bs[..|bs| - 1]) + bs[|bs| - 1].bytesIn
  }

  function SumOut(bs: seq<Bucket>): int {
    if bs == [] then 0 else SumOut(bs[..|bs| - 1]) + bs[|bs| - 1].bytesOut
  }

  lemma SumsGrow(bs: seq<Bucket>, b: Bucket)
    ensures SumIn(bs + [b]) == SumIn(bs) + b.bytesIn && SumOut(bs + [b]) == SumOut(bs) + b.bytesOut
  {
    assert (bs + [b])[..|bs|] == bs;
  }

  lemma {:induction false} AdvanceConserves(a: Acc, w: int, ts: int, id: int)
    requires w > 0
    ensures var r := Advance(a, w, ts, id);
            && SumIn(r.done) + r.bytesIn == SumIn(a.done) + a.bytesIn
            && SumOut(r.done) + r.bytesOut == SumOut(a.done) + a.bytesOut
    decreases Max(0, ts - a.start)
  {
    hide SumIn, SumOut;
    if ts < a.start + w {
    } else {
      SumsGrow(a.done, Current(a, w));
      AdvanceConserves(Acc(a.start + w, id, 0, 0, 0, a.done + [Current(a, w)]), w, ts, id);
    }
  }

  lemma {:induction false} FoldConserves(rows: seq<Row>, w: int, k: nat)
    requires rows != [] && k <= |rows| && w > 0
    ensures var a := Fold(rows, w, k);
            SumIn(a.done) + a.bytesIn == RowsIn(rows, k) && SumOut(a.done) + a.bytesOut == RowsOut(rows, k)
  {
    if k == 0 {
    } else {
      FoldConserves(rows, w, k - 1);
      AdvanceConserves(Fold(rows, w, k - 1), w, rows[k - 1].start, rows[k - 1].id);
    }
  }

  /** No byte is lost or counted twice before the slice, whatever the order of the rows. */
  lemma BucketsConserve(rows: seq<Row>, maxPoints: nat)
    requires rows != [] && maxPoints > 0
    ensures SumIn(Buckets(rows, maxPoints)) == RowsIn(rows, |rows|)
    ensures SumOut(Buckets(rows, maxPoints)) == RowsOut(rows, |rows|)
  {
    var w := Width(rows, maxPoints);
    var a := Fold(rows, w, |rows|);
    FoldConserves(rows, w, |rows|);
    SumsGrow(a.done, Current(a, w));
  }

  // ---- Windows ----

  predicate InTimeOrder(rows: seq<Row>) {
    forall i, j :: 0 <= i <= j < |rows| ==> rows[i].start <= rows[j].start
  }

  predicate Within(f: Row, start: int, w: int) {
    start <= f.start < start + w
  }

  function WindowIn(rows: seq<Row>, k: nat, start: int, w: int): int
    requires k <= |rows|
  {
    if k == 0 then 0
    else WindowIn(rows, k - 1, start, w) + if Within(rows[k - 1], start, w) then rows[k - 1].bytesIn else 0
  }

  function WindowOut(rows: seq<Row>, k: nat, start: int, w: int): int
    requires k <= |rows|
  {
    if k == 0 then 0
    else WindowOut(rows, k - 1, start, w) + if Within(rows[k - 1], start, w) then rows[k - 1].bytesOut else 0
  }

  function WindowConns(rows: seq<Row>, k: nat, start: int, w: int): int
    requires k <= |rows|
  {
    if k == 0 then 0
    else if Within(rows[k - 1], start, w) then Max(WindowConns(rows, k - 1, start, w), rows[k - 1].conns)
    else WindowConns(rows, k - 1, start, w)
  }

  /** The bucket starts at `start` and holds what the first `k` rows carried in its window. */
  predicate Holds(b: Bucket, rows: seq<Row>, k: nat, start: int, w: int)
    requires k <= |rows|
  {
    && b.start == start && b.width == w
    && b.bytesIn == WindowIn(rows, k, start, w) && b.bytesOut == WindowOut(rows, k, start, w)
    && b.conns == WindowConns(rows, k, start, w)
  }

  function StartOf(rows: seq<Row>, w: int, i: nat): int
    requires rows != []
  {
    rows[0].start + i * w
  }

  lemma StartsStep(rows: seq<Row>, w: int, i: nat)
    requires rows != [] && w > 0
    ensures StartOf(rows, w, i + 1) == StartOf(rows, w, i) + w
  {
    assert (i + 1) * w == i * w + w;
  }

  lemma {:induction false} StartsOrdered(rows: seq<Row>, w: int, i: nat, j: nat)
    requires rows != [] && w > 0 && i < j
    ensures StartOf(rows, w, i) + w <= StartOf(rows, w, j)
    decreases j
  {
    StartsStep(rows, w, j - 1);
    if i == j - 1 {
    } else {
      StartsOrdered(rows, w, i, j - 1);
    }
  }

  /** The open window stands right after the closed ones, and all of them hold their rows. */
  predicate Open(a: Acc, rows: seq<Row>, w: int, k: nat)
    requires rows != [] && k <= |rows|
  {
    && a.start == StartOf(rows, w, |a.done|)
    && Holds(Current(a, w), rows, k, a.start, w)
    && forall i :: 0 <= i < |a.done| ==> Holds(a.done[i], rows, k, StartOf(rows, w, i), w)
  }

  /** A window after all the rows is blank. */
  lemma {:induction false} LaterWindowIsBlank(rows: seq<Row>, k: nat, start: int, w: int)
    requires k <= |rows| && forall i :: 0 <= i < k ==> rows[i].start < start
    ensures WindowIn(rows, k, start, w) == 0 && WindowOut(rows, k, start, w) == 0 && WindowConns(rows, k, start, w) == 0
  {
    if k == 0 {
    } else {
      LaterWindowIsBlank(rows, k - 1, start, w);
    }
  }

  lemma {:induction false} AdvanceOpens(a: Acc, rows: seq<Row>, w: int, k: nat, ts: int, id: int)
    requires rows != [] && k <= |rows| && w > 0 && Open(a, rows, w, k) && a.start <= ts
    requires forall i :: 0 <= i < k ==> rows[i].start < a.start + w
    ensures var r := Advance(a, w, ts, id); Open(r, rows, w, k) && r.start <= ts
    decreases Max(0, ts - a.start)
  {
    if ts < a.start + w {
    } else {
      var b := Acc(a.start + w, id, 0, 0, 0, a.done + [Current(a, w)]);
      StartsStep(rows, w, |a.done|);
      LaterWindowIsBlank(rows, k, b.start, w);
      NextOpen(a, b, rows, w, k);
      AdvanceOpens(b, rows, w, k, ts, id);
    }
  }

  lemma NextOpen(a: Acc, b: Acc, rows: seq<Row>, w: int, k: nat)
    requires rows != [] && k <= |rows| && w > 0 && Open(a, rows, w, k)
    requires b.done == a.done + [Current(a, w)] && b.start == StartOf(rows, w, |b.done|)
    requires Holds(Current(b, w), rows, k, b.start, w)
    ensures Open(b, rows, w, k)
  {
    hide Holds, StartOf;
  }

  /** One more row changes the window it lies in, and no other. */
  lemma AddOpens(b: Acc, rows: seq<Row>, w: int, k: nat)
    requires rows != [] && k < |rows| && w > 0 && Open(b, rows, w, k) && Within(rows[k], b.start, w)
    ensures var f := rows[k];
            Open(b.(id := if Blank(b) then f.id else b.id, bytesIn := b.bytesIn + f.bytesIn,
                    bytesOut := b.bytesOut + f.bytesOut, conns := Max(b.conns, f.conns)), rows, w, k + 1)
  {
    forall i | 0 <= i < |b.done|
      ensures Holds(b.done[i], rows, k + 1, StartOf(rows, w, i), w)
    {
      StartsOrdered(rows, w, i, |b.done|);
    }
  }

  lemma {:induction false} FoldOpens(rows: seq<Row>, w: int, k: nat)
    requires rows != [] && 0 < k <= |rows| && w > 0 && InTimeOrder(rows)
    ensures var a := Fold(rows, w, k); Open(a, rows, w, k) && Within(rows[k - 1], a.start, w)
  {
    hide Open;
    var before := Fold(rows, w, k - 1);
    if k == 1 {
      FirstOpens(rows, w);
    } else {
      FoldOpens(rows, w, k - 1);
    }
    AdvanceOpens(before, rows, w, k - 1, rows[k - 1].start, rows[k - 1].id);
    var b := Advance(before, w, rows[k - 1].start, rows[k - 1].id);
    AddOpens(b, rows, w, k - 1);
  }

  lemma FirstOpens(rows: seq<Row>, w: int)
    requires rows != [] && w > 0
    ensures Open(Initial(rows), rows, w, 0)
  {
  }

  /** Nothing happened in the window. */
  predicate Nothing(rows: seq<Row>, start: int, w: int) {
    WindowIn(rows, |rows|, start, w) == WindowOut(rows, |rows|, start, w) == WindowConns(rows, |rows|, start, w) == 0
  }

  /** For rows in time order there is a bucket for every window from the first row to the last, but not for the last
      one when nothing happened in it and it is not the only one. */
  lemma LastBucketIff(rows: seq<Row>, maxPoints: nat) returns (n: nat)
    requires rows != [] && maxPoints > 0 && InTimeOrder(rows)
    ensures var w := Width(rows, maxPoints);
            && Within(rows[|rows| - 1], StartOf(rows, w, n), w)
            && |Buckets(rows, maxPoints)| == if n > 0 && Nothing(rows, StartOf(rows, w, n), w) then n else n + 1
  {
    var w := Width(rows, maxPoints);
    hide StartOf, Width;
    FoldOpens(rows, w, |rows|);
    n := |Fold(rows, w, |rows|).done|;
  }

  /** A row shown on its own is shown as it is. */
  lemma SingleIsItsRow(f: Row, seconds: int)
    ensures var b := Single(f, seconds);
            && b.id == f.id && b.start == f.start && b.width == seconds
            && b.bytesIn == f.bytesIn && b.bytesOut == f.bytesOut && b.conns == f.conns
  {
  }

  /** For rows in time order: the buckets are consecutive windows from the first row on, and each holds
      exactly what the rows in its window carried. The rows after the last bucket fit into one more window
      and carried nothing on balance. */
  lemma BucketsHoldTheirRows(rows: seq<Row>, maxPoints: nat)
    requires rows != [] && maxPoints > 0 && InTimeOrder(rows)
    ensures var bs, w := Buckets(rows, maxPoints), Width(rows, maxPoints);
            && (forall i :: 0 <= i < |bs| ==> Holds(bs[i], rows, |rows|, StartOf(rows, w, i), w))
            && rows[|rows| - 1].start < StartOf(rows, w, |bs|) + w
            && WindowIn(rows, |rows|, StartOf(rows, w, |bs|), w) == 0
            && WindowOut(rows, |rows|, StartOf(rows, w, |bs|), w) == 0
  {
    hide Holds, StartOf, Width, Fold;
    var w := Width(rows, maxPoints);
    var a := Fold(rows, w, |rows|);
    FoldOpens(rows, w, |rows|);
    StartsStep(rows, w, |a.done|);
    LastWindow(rows, w, a);
  }

  lemma LastWindow(rows: seq<Row>, w: int, a: Acc)
    requires rows != [] && w > 0 && InTimeOrder(rows)
    requires Open(a, rows, w, |rows|) && Within(rows[|rows| - 1], a.start, w)
    ensures WindowIn(rows, |rows|, StartOf(rows, w, |Close(a, w)|), w) == 0
    ensures WindowOut(rows, |rows|, StartOf(rows, w, |Close(a, w)|), w) == 0
  {
    hide StartOf, WindowIn, WindowOut, WindowConns;
    StartsStep(rows, w, |a.done|);
    LaterWindowIsBlank(rows, |rows|, a.start + w, w);
  }

  // ---- What the slice loses ----

  /** What the first `k` rows carried from the given time on. */
  function LateIn(rows: seq<Row>, k: nat, from: int): int
    requires k <= |rows|
  {
    if k == 0 then 0 else LateIn(rows, k - 1, from) + if rows[k - 1].start >= from then rows[k - 1].bytesIn else 0
  }

  function LateOut(rows: seq<Row>, k: nat, from: int): int
    requires k <= |rows|
  {
    if k == 0 then 0 else LateOut(rows, k - 1, from) + if rows[k - 1].start >= from then rows[k - 1].bytesOut else 0
  }

  lemma {:induction false} AllIsLate(rows: seq<Row>, k: nat, from: int)
    requires k <= |rows| && forall i :: 0 <= i < k ==> rows[i].start >= from
    ensures LateIn(rows, k, from) == RowsIn(rows, k) && LateOut(rows, k, from) == RowsOut(rows, k)
  {
    if k == 0 {
    } else {
      AllIsLate(rows, k - 1, from);
    }
  }

  /** A window and what comes after it make up what comes from its start on. */
  lemma {:induction false} LateSplits(rows: seq<Row>, k: nat, from: int, w: int)
    requires k <= |rows| && w > 0
    ensures LateIn(rows, k, from) == WindowIn(rows, k, from, w) + LateIn(rows, k, from + w)
    ensures LateOut(rows, k, from) == WindowOut(rows, k, from, w) + LateOut(rows, k, from + w)
  {
    if k == 0 {
    } else {
      LateSplits(rows, k - 1, from, w);
    }
  }

  predicate AllHold(bs: seq<Bucket>, rows: seq<Row>, w: int)
    requires rows != []
  {
    forall i :: 0 <= i < |bs| ==> Holds(bs[i], rows, |rows|, StartOf(rows, w, i), w)
  }

  /** Consecutive buckets that hold their rows carry everything up to where they end. */
  lemma {:induction false} PrefixCarries(bs: seq<Bucket>, rows: seq<Row>, w: int)
    requires rows != [] && w > 0 && InTimeOrder(rows) && AllHold(bs, rows, w)
    ensures SumIn(bs) + LateIn(rows, |rows|, StartOf(rows, w, |bs|)) == RowsIn(rows, |rows|)
    ensures SumOut(bs) + LateOut(rows, |rows|, StartOf(rows, w, |bs|)) == RowsOut(rows, |rows|)
    decreases |bs|
  {
    hide WindowIn, WindowOut, WindowConns, LateIn, LateOut, RowsIn, RowsOut;
    if bs == [] {
      assert StartOf(rows, w, 0) == rows[0].start;
      AllIsLate(rows, |rows|, rows[0].start);
    } else {
      var n := |bs| - 1;
      assert AllHold(bs[..n], rows, w) && Holds(bs[n], rows, |rows|, StartOf(rows, w, n), w);
      PrefixCarries(bs[..n], rows, w);
      LateSplits(rows, |rows|, StartOf(rows, w, n), w);
      StartsStep(rows, w, n);
    }
  }

  /** Where the kept buckets end. */
  function SliceEnd(rows: seq<Row>, maxPoints: nat): int
    requires rows != [] && maxPoints > 0
  {
    StartOf(rows, Width(rows, maxPoints), |Sliced(Buckets(rows, maxPoints), maxPoints)|)
  }

  /** The slice loses exactly what the rows after the kept buckets carried. */
  lemma SliceLosesExactly(rows: seq<Row>, maxPoints: nat)
    requires rows != [] && maxPoints > 0 && InTimeOrder(rows)
    ensures var out := Sliced(Buckets(rows, maxPoints), maxPoints);
            && SumIn(out) + LateIn(rows, |rows|, SliceEnd(rows, maxPoints)) == RowsIn(rows, |rows|)
            && SumOut(out) + LateOut(rows, |rows|, SliceEnd(rows, maxPoints)) == RowsOut(rows, |rows|)
  {
    hide Holds, Buckets, Width, StartOf, LateIn, LateOut, SumIn, SumOut;
    BucketsHoldTheirRows(rows, maxPoints);
    PrefixCarries(Sliced(Buckets(rows, maxPoints), maxPoints), rows, Width(rows, maxPoints));
  }

  predicate NonNegative(rows: seq<Row>) {
    forall i :: 0 <= i < |rows| ==> rows[i].bytesIn >= 0 && rows[i].bytesOut >= 0
  }

  lemma {:induction false} LateIsZeroIff(rows: seq<Row>, k: nat, from: int)
    requires k <= |rows| && NonNegative(rows)
    ensures LateIn(rows, k, from) >= 0 && LateOut(rows, k, from) >= 0
    ensures LateIn(rows, k, from) == 0 <==> forall i :: 0 <= i < k && rows[i].start >= from ==> rows[i].bytesIn == 0
    ensures LateOut(rows, k, from) == 0 <==> forall i :: 0 <= i < k && rows[i].start >= from ==> rows[i].bytesOut == 0
  {
    if k == 0 {
    } else {
      LateIsZeroIff(rows, k - 1, from);
    }
  }

  /** The rows from the given time on carry nothing in. */
  predicate QuietIn(rows: seq<Row>, from: int) {
    forall i :: 0 <= i < |rows| && rows[i].start >= from ==> rows[i].bytesIn == 0
  }

  predicate QuietOut(rows: seq<Row>, from: int) {
    forall i :: 0 <= i < |rows| && rows[i].start >= from ==> rows[i].bytesOut == 0
  }

  /** With counters that do not go below zero, the sliced output carries every byte exactly when no row from
      `maxPoints` windows after the first row on carries any, in either direction of traffic. */
  lemma SliceConservesIff(rows: seq<Row>, maxPoints: nat)
    requires rows != [] && maxPoints > 0 && InTimeOrder(rows) && NonNegative(rows)
    ensures var out, end := Sliced(Buckets(rows, maxPoints), maxPoints),
              StartOf(rows, Width(rows, maxPoints), maxPoints);
            && (SumIn(out) == RowsIn(rows, |rows|) <==> QuietIn(rows, end))
            && (SumOut(out) == RowsOut(rows, |rows|) <==> QuietOut(rows, end))
  {
    hide Buckets, SumIn, SumOut, LateIn, LateOut, RowsIn, RowsOut, Width, StartOf;
    var n, w := |Buckets(rows, maxPoints)|, Width(rows, maxPoints);
    SliceLosesExactly(rows, maxPoints);
    LateIsZeroIff(rows, |rows|, SliceEnd(rows, maxPoints));
    if n <= maxPoints {
      BucketsConserve(rows, maxPoints);
      if n < maxPoints {
        StartsOrdered(rows, w, n, maxPoints);
      }
    }
  }

  // ---- How many ----

  lemma ProductNotNegative(a: int, b: int)
    requires a >= 0 && b >= 0
    ensures a * b >= 0
  {
  }

  /** With windows of `q` seconds, and a span of less than `q + 1` seconds a point, few windows exceed the points. */
  lemma FewLongWindows(n: int, q: int, points: int)
    requires q >= 60 && n >= points && n * q < q * points + points
    ensures (n - points) * 60 < points
  {
    assert (n - points) * q == n * q - q * points;
    ProductNotNegative(n - points, q - 60);
    assert (n - points) * (q - 60) == (n - points) * q - (n - points) * 60;
  }

  lemma FewWindows(n: nat, span: int, points: nat)
    requires points > 0 && span >= 0
    requires n * (Max(60, span / (points * SECOND)) * SECOND) <= span
    ensures span < 60 * points * SECOND ==> n < points
    ensures n + 1 - points <= (points + 59) / 60
  {
    var q := span / (points * SECOND);
    QuotientBounds(span, points * SECOND);
    assert q * (points * SECOND) == q * points * SECOND;
    if q < 60 {
      ProductNotNegative(59 - q, points);
      assert (59 - q) * points == 59 * points - q * points;
      assert span < (q * points + points) * SECOND <= 60 * points * SECOND;
    } else {
      assert n * (q * SECOND) == n * q * SECOND;
      if n >= points {
        FewLongWindows(n, q, points);
      }
      ProductNotNegative(q - 60, points);
      assert (q - 60) * points == q * points - 60 * points;
    }
  }

  lemma QuotientBounds(a: int, b: int)
    requires b > 0
    ensures a / b * b <= a < a / b * b + b
  {
  }

  /** The slice drops at most one bucket per started sixty points, and none when the rows span less than a
      minute per point. */
  lemma SliceDropsFew(rows: seq<Row>, maxPoints: nat)
    requires rows != [] && maxPoints > 0 && InTimeOrder(rows)
    ensures |Buckets(rows, maxPoints)| - maxPoints <= (maxPoints + 59) / 60
    ensures rows[|rows| - 1].start - rows[0].start < 60 * maxPoints * SECOND ==> |Buckets(rows, maxPoints)| <= maxPoints
  {
    hide Fold;
    var w := Width(rows, maxPoints);
    var a := Fold(rows, w, |rows|);
    FoldOpens(rows, w, |rows|);
    var length := rows[|rows| - 1].start - rows[0].start;
    assert |a.done| * w <= length;
    FewWindows(|a.done|, Max(SECOND, length), maxPoints);
  }

  /** Rows one second apart, one byte each. */
  function Drip(n: nat): seq<Row> {
    seq(n, i requires 0 <= i < n => Row(i, i * SECOND, 1, 0, 0))
  }

  lemma {:induction false} DripWindow(n: nat, k: nat, start: nat, w: nat)
    requires k <= n && start + w <= k
    ensures WindowIn(Drip(n), k, start * SECOND, w * SECOND) == w
    decreases k
  {
    if k > start + w {
      DripWindow(n, k - 1, start, w);
    } else {
      DripPart(n, k, start);
    }
  }

  lemma {:induction false} DripPart(n: nat, k: nat, start: nat)
    requires start <= k <= n
    ensures forall w: nat :: w >= k - start ==> WindowIn(Drip(n), k, start * SECOND, w * SECOND) == k - start
    decreases k
  {
    if k > start {
      DripPart(n, k - 1, start);
    } else {
      forall w: nat
        ensures WindowIn(Drip(n), k, start * SECOND, w * SECOND) == 0
      {
        DripBefore(n, k, start, w);
      }
    }
  }

  lemma {:induction false} DripBefore(n: nat, k: nat, start: nat, w: nat)
    requires k <= start && k <= n
    ensures WindowIn(Drip(n), k, start * SECOND, w * SECOND) == 0
  {
    if k == 0 {
    } else {
      DripBefore(n, k - 1, start, w);
    }
  }

  /** The bound is reached: 7320 such rows at 120 points make 122 buckets, and the slice loses two minutes. */
  lemma SliceLosesTraffic()
    ensures |Buckets(Drip(7320), 120)| == 122
    ensures SumIn(Buckets(Drip(7320), 120)) == 7320
    ensures Buckets(Drip(7320), 120)[120].bytesIn == 60 && Buckets(Drip(7320), 120)[121].bytesIn == 60
  {
    var rows := Drip(7320);
    hide *;
    DripShape();
    BucketsHoldTheirRows(rows, 120);
    SliceDropsFew(rows, 120);
    BucketsConserve(rows, 120);
    DripTotal(7320, 7320);
    DripCount(Buckets(rows, 120));
  }

  lemma DripShape()
    ensures |Drip(7320)| == 7320 && InTimeOrder(Drip(7320)) && Width(Drip(7320), 120) == 60 * SECOND
  {
  }

  lemma DripCount(bs: seq<Bucket>)
    requires |bs| <= 122
    requires Drip(7320)[7319].start < StartOf(Drip(7320), 60 * SECOND, |bs|) + 60 * SECOND
    requires forall i :: 0 <= i < |bs| ==>
              Holds(bs[i], Drip(7320), 7320, StartOf(Drip(7320), 60 * SECOND, i), 60 * SECOND)
    requires WindowIn(Drip(7320), 7320, StartOf(Drip(7320), 60 * SECOND, |bs|), 60 * SECOND) == 0
    ensures |bs| == 122 && bs[120].bytesIn == 60 && bs[121].bytesIn == 60
  {
    hide WindowIn, WindowOut, WindowConns;
    DripWindow(7320, 7320, 7200, 60);
    DripWindow(7320, 7320, 7260, 60);
    assert |bs| >= 121;
    assert Holds(bs[120], Drip(7320), 7320, StartOf(Drip(7320), 60 * SECOND, 120), 60 * SECOND);
    assert |bs| == 122;
    assert Holds(bs[121], Drip(7320), 7320, StartOf(Drip(7320), 60 * SECOND, 121), 60 * SECOND);
  }

  lemma {:induction false} DripTotal(n: nat, k: nat)
    requires k <= n
    ensures RowsIn(Drip(n), k) == k
  {
    if k == 0 {
    } else {
      DripTotal(n, k - 1);
    }
  }
}

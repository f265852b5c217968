/**
  `zip_latest`: one pump per source forwards its items into a common queue, and
  the consumer yields, for every item, the latest items of all sources. The
  arrivals at the queue are any interleaving of what the pumps put there.
*/
module ZipLatest {

  datatype Message<+T> = Item(item: T) | Done | Failure(error: int)

  /** A queue entry: the source it comes from and what it is. */
  datatype Arrival<+T> = Arrival(source: nat, message: Message<T>)

  datatype Outcome = Finished | Raised(error: int) | Waiting

  // ---------------------------------------------------------------------------
  // What pumps put into the queue
  // ---------------------------------------------------------------------------

  function FromSource<T>(q: seq<Arrival<T>>, i: nat): seq<Message<T>> {
    if q == [] then []
    else (if q[0].source == i then [q[0].message] else []) + FromSource(q[1..], i)
  }

  /** A pump sends items and then at most one end mark, which is the last it sends. */
  predicate PumpOutput<T>(ms: seq<Message<T>>) {
    forall k :: 0 <= k < |ms| - 1 ==> ms[k].Item?
  }

  ghost predicate Arrivals<T>(q: seq<Arrival<T>>, n: nat) {
    && (forall k :: 0 <= k < |q| ==> q[k].source < n)
    && (forall i :: 0 <= i < n ==> PumpOutput(FromSource(q, i)))
  }

  predicate Ended<T>(q: seq<Arrival<T>>, i: nat) {
    var ms := FromSource(q, i);
    ms != [] && !ms[|ms| - 1].Item?
  }

  // ---------------------------------------------------------------------------
  // What the consumer yields
  // ---------------------------------------------------------------------------

  /** The latest item of source `i` among `q`, or the default. */
  function Latest<T>(q: seq<Arrival<T>>, i: nat, default: T): T {
    if q == [] then default
    else
      var last := q[|q| - 1];
      if last.source == i && last.message.Item? then last.message.item
      else Latest(q[..|q| - 1], i, default)
  }

  function LatestOfAll<T>(q: seq<Arrival<T>>, n: nat, default: T): (r: seq<T>)
    ensures |r| == n && forall i :: 0 <= i < n ==> r[i] == Latest(q, i, default)
  {
    seq(n, i requires 0 <= i < n => Latest(q, i, default))
  }

  /** One tuple for each item, of everything that is latest when it arrives. */
  function Yields<T>(q: seq<Arrival<T>>, n: nat, default: T): seq<seq<T>> {
    if q == [] then []
    else
      var before := Yields(q[..|q| - 1], n, default);
      if q[|q| - 1].message.Item? then before + [LatestOfAll(q, n, default)] else before
  }

  function CountDone<T>(q: seq<Arrival<T>>): nat {
    if q == [] then 0
    else CountDone(q[..|q| - 1]) + (if q[|q| - 1].message.Done? then 1 else 0)
  }

  /** The consumer's loop over the arrivals `q`, up to its end or until it waits for more.
      `read` is how many it has taken out of the queue. */
  method Consume<T>(n: nat, q: seq<Arrival<T>>, default: T)
    returns (yielded: seq<seq<T>>, outcome: Outcome, read: nat)
    requires forall k :: 0 <= k < |q| ==> q[k].source < n
    ensures read <= |q|
    ensures yielded == Yields(q[..read], n, default)
    ensures match outcome
            case Finished => CountDone(q[..read]) == n && forall k :: 0 <= k < read ==> !q[k].message.Failure?
            case Raised(e) =>
              && read > 0 && q[read - 1].message == Failure(e)
              && CountDone(q[..read - 1]) < n && forall k :: 0 <= k < read - 1 ==> !q[k].message.Failure?
            case Waiting => read == |q| && CountDone(q) < n && forall k :: 0 <= k < |q| ==> !q[k].message.Failure?
  {
    var latest := seq(n, _ => default);
    var remaining: int := n;
    yielded, read := [], 0;
    assert latest == LatestOfAll(q[..0], n, default);
    while remaining > 0
      invariant read <= |q| && remaining == n - CountDone(q[..read]) >= 0
      invariant latest == LatestOfAll(q[..read], n, default)
      invariant yielded == Yields(q[..read], n, default)
      invariant forall k :: 0 <= k < read ==> !q[k].message.Failure?
      decreases |q| - read
    {
      if read == |q| {
        assert q[..read] == q;
        return yielded, Waiting, read;
      }
      var arrival := q[read];
      assert q[..read + 1][..read] == q[..read] && q[..read + 1][read] == arrival;
      read := read + 1;
      if arrival.message.Done? {
        remaining := remaining - 1;
        assert latest == LatestOfAll(q[..read], n, default);
      } else if arrival.message.Failure? {
        return yielded, Raised(arrival.message.error), read;
      } else {
        latest := latest[arrival.source := arrival.message.item];
        assert latest == LatestOfAll(q[..read], n, default);
        yielded := yielded + [latest];
      }
    }
    return yielded, Finished, read;
  }

  // ---------------------------------------------------------------------------
  // What the yields mean
  // ---------------------------------------------------------------------------

  /** The item arrivals of `q`. */
  function Items<T>(q: seq<Arrival<T>>): seq<Arrival<T>> {
    if q == [] then []
    else Items(q[..|q| - 1]) + (if q[|q| - 1].message.Item? then [q[|q| - 1]] else [])
  }

  lemma {:induction false} LatestOfItems<T>(q: seq<Arrival<T>>, i: nat, default: T)
    ensures Latest(q, i, default) == Latest(Items(q), i, default)
  {
    if q != [] {
      LatestOfItems(q[..|q| - 1], i, default);
      var before := Items(q[..|q| - 1]);
      assert (before + [q[|q| - 1]])[..|before|] == before && before + [] == before;
    }
  }

  /** There is one tuple for each item, and the k-th holds each source's latest item among
      the first k items to arrive, the default for a source without one. */
  lemma {:induction false} YieldsAreSnapshots<T>(q: seq<Arrival<T>>, n: nat, default: T)
    ensures |Yields(q, n, default)| == |Items(q)|
    ensures forall k :: 0 <= k < |Items(q)| ==> Yields(q, n, default)[k] == LatestOfAll(Items(q)[..k + 1], n, default)
  {
    if q != [] {
      var before := q[..|q| - 1];
      YieldsAreSnapshots(before, n, default);
      var items := Items(q);
      forall k | 0 <= k < |items|
        ensures Yields(q, n, default)[k] == LatestOfAll(items[..k + 1], n, default)
      {
        if k < |Items(before)| {
          assert items[..k + 1] == Items(before)[..k + 1];
        } else {
          assert items[..k + 1] == items;
          forall i | 0 <= i < n ensures Latest(q, i, default) == Latest(items, i, default) {
            LatestOfItems(q, i, default);
          }
        }
      }
    }
  }

  /** The last item a source has sent. */
  function LastItem<T>(ms: seq<Message<T>>, default: T): T {
    if ms == [] then default
    else if ms[|ms| - 1].Item? then ms[|ms| - 1].item
    else LastItem(ms[..|ms| - 1], default)
  }

  lemma {:induction false} FromSourceConcat<T>(q: seq<Arrival<T>>, r: seq<Arrival<T>>, i: nat)
    ensures FromSource(q + r, i) == FromSource(q, i) + FromSource(r, i)
  {
    if q == [] {
      assert q + r == r;
    } else {
      assert (q + r)[1..] == q[1..] + r;
      FromSourceConcat(q[1..], r, i);
      var head := if q[0].source == i then [q[0].message] else [];
      var x, y := FromSource(q[1..], i), FromSource(r, i);
      assert (head + x) + y == head + (x + y);
    }
  }

  /** How the sources interleave does not matter: what counts as latest of a source
      depends on its own items alone. */
  lemma {:induction false} LatestIsPerSource<T>(q: seq<Arrival<T>>, i: nat, default: T)
    ensures Latest(q, i, default) == LastItem(FromSource(q, i), default)
  {
    if q != [] {
      var before, last := q[..|q| - 1], q[|q| - 1];
      LatestIsPerSource(before, i, default);
      assert q == before + [last];
      FromSourceConcat(before, [last], i);
      var ms := FromSource(before, i);
      assert FromSource([last], i) == if last.source == i then [last.message] else [];
      assert (ms + [last.message])[..|ms|] == ms && ms + [] == ms;
    }
  }

  /** What is latest of a source: the item at `k`, if it is the source's and no later one
      is, and the default if it has none. */
  lemma {:induction false} LatestIsTheLast<T>(q: seq<Arrival<T>>, i: nat, default: T)
    ensures forall k :: 0 <= k < |q| && q[k].source == i && q[k].message.Item?
                        && (forall j :: k < j < |q| ==> !(q[j].source == i && q[j].message.Item?)) ==>
              Latest(q, i, default) == q[k].message.item
    ensures (forall k :: 0 <= k < |q| ==> !(q[k].source == i && q[k].message.Item?)) ==>
              Latest(q, i, default) == default
  {
    if q != [] {
      LatestIsTheLast(q[..|q| - 1], i, default);
    }
  }

  // ---------------------------------------------------------------------------
  // The end
  // ---------------------------------------------------------------------------

  function DoneOf<T>(ms: seq<Message<T>>): nat {
    if ms == [] then 0 else (if ms[0].Done? then 1 else 0) + DoneOf(ms[1..])
  }

  lemma {:induction false} DoneOfConcat<T>(a: seq<Message<T>>, b: seq<Message<T>>)
    ensures DoneOf(a + b) == DoneOf(a) + DoneOf(b)
  {
    if a == [] {
      assert a + b == b;
    } else {
      assert (a + b)[1..] == a[1..] + b;
      DoneOfConcat(a[1..], b);
    }
  }

  function SumDone<T>(q: seq<Arrival<T>>, n: nat): nat {
    if n == 0 then 0 else SumDone(q, n - 1) + DoneOf(FromSource(q, n - 1))
  }

  lemma {:induction false} SumOfOneMore<T>(q: seq<Arrival<T>>, a: Arrival<T>, n: nat)
    ensures SumDone(q + [a], n) == SumDone(q, n) + (if a.message.Done? && a.source < n then 1 else 0)
  {
    if n > 0 {
      SumOfOneMore(q, a, n - 1);
      FromSourceConcat(q, [a], n - 1);
      assert FromSource([a], n - 1) == if a.source == n - 1 then [a.message] else [];
      DoneOfConcat(FromSource(q, n - 1), FromSource([a], n - 1));
    }
  }

  lemma {:induction false} NoneFromNothing<T>(n: nat)
    ensures SumDone<T>([], n) == 0
  {
    if n > 0 {
      NoneFromNothing<T>(n - 1);
    }
  }

  /** Counting the end marks in the queue or source by source is the same. */
  lemma {:induction false} DoneBySource<T>(q: seq<Arrival<T>>, n: nat)
    requires forall k :: 0 <= k < |q| ==> q[k].source < n
    ensures CountDone(q) == SumDone(q, n)
  {
    if q == [] {
      NoneFromNothing<T>(n);
    } else {
      var before := q[..|q| - 1];
      DoneBySource(before, n);
      assert q == before + [q[|q| - 1]];
      SumOfOneMore(before, q[|q| - 1], n);
    }
  }

  lemma {:induction false} AtMostOneDone<T>(ms: seq<Message<T>>)
    requires PumpOutput(ms)
    ensures DoneOf(ms) <= 1
    ensures DoneOf(ms) == 1 ==> ms != [] && ms[|ms| - 1].Done?
  {
    if |ms| > 1 {
      assert PumpOutput(ms[1..]);
      AtMostOneDone(ms[1..]);
    }
  }

  /** If `n` sources have sent `n` end marks, every one of them has sent its own. */
  lemma {:induction false} EachHasEnded<T>(q: seq<Arrival<T>>, n: nat, m: nat, i: nat)
    requires forall j :: 0 <= j < n ==> PumpOutput(FromSource(q, j))
    requires m <= n
    ensures SumDone(q, m) <= m
    ensures SumDone(q, m) == m && i < m ==> DoneOf(FromSource(q, i)) == 1
  {
    hide FromSource, PumpOutput, DoneOf;
    if m > 0 {
      AtMostOneDone(FromSource(q, m - 1));
      EachHasEnded(q, n, m - 1, i);
    }
  }

  lemma PrefixIsPumpOutput<T>(q: seq<Arrival<T>>, read: nat, i: nat)
    requires read <= |q| && PumpOutput(FromSource(q, i))
    ensures FromSource(q, i) == FromSource(q[..read], i) + FromSource(q[read..], i)
    ensures PumpOutput(FromSource(q[..read], i))
  {
    assert q == q[..read] + q[read..];
    FromSourceConcat(q[..read], q[read..], i);
    var ms := FromSource(q, i);
    assert forall k :: 0 <= k < |FromSource(q[..read], i)| ==> FromSource(q[..read], i)[k] == ms[k];
  }

  lemma NothingAfterEnd<T>(a: seq<Message<T>>, b: seq<Message<T>>)
    requires PumpOutput(a + b) && a != [] && !a[|a| - 1].Item?
    ensures b == []
  {
    assert (a + b)[|a| - 1] == a[|a| - 1];
  }

  lemma SomeoneSent<T>(q: seq<Arrival<T>>)
    ensures q != [] ==> FromSource(q, q[0].source) != []
  {
  }

  lemma NoneLeft<T>(q: seq<Arrival<T>>, n: nat)
    requires forall k :: 0 <= k < |q| ==> q[k].source < n
    requires forall i :: 0 <= i < n ==> FromSource(q, i) == []
    ensures q == []
  {
    SomeoneSent(q);
  }

  /** The consumer finishes only after every source has ended, and then nothing that any
      source ever sent is left unread. */
  lemma FinishedMeansAllRead<T>(q: seq<Arrival<T>>, n: nat, read: nat)
    requires Arrivals(q, n) && read <= |q| && CountDone(q[..read]) == n
    ensures forall i :: 0 <= i < n ==> Ended(q[..read], i)
    ensures read == |q|
  {
    DoneBySource(q[..read], n);
    forall i | 0 <= i < n ensures Ended(q[..read], i) && FromSource(q[read..], i) == [] {
      forall j | 0 <= j < n ensures PumpOutput(FromSource(q[..read], j)) {
        PrefixIsPumpOutput(q, read, j);
      }
      EachHasEnded(q[..read], n, n, i);
      AtMostOneDone(FromSource(q[..read], i));
      PrefixIsPumpOutput(q, read, i);
      NothingAfterEnd(FromSource(q[..read], i), FromSource(q[read..], i));
    }
    NoneLeft(q[read..], n);
  }
}

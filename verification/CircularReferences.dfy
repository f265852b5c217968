/**
  The logger's expansion of arbitrary objects. Objects live in a heap and may
  refer to each other in circles; the expansion remembers every object it has
  met, first by a placeholder and then by its result, so that it visits each one
  once. It is proved to agree with plain structural recursion wherever that is
  possible at all, and to show a placeholder wherever it is not.
*/
module CircularReferences {

  type Id = nat

  datatype Atom = NoneAtom | BoolAtom(b: bool) | IntAtom(i: int) | FloatAtom(r: real) | StrAtom(s: string)

  datatype Ref = Leaf(atom: Atom) | Obj(id: Id)

  datatype Node =
    | Dict(keys: seq<string>, values: seq<Ref>)
    | List(items: seq<Ref>)
    | Tuple(items: seq<Ref>)
    | Other(text: string)

  type Heap = map<Id, Node>

  /** `Placeholder` stands for the text shown in place of an object still being expanded. */
  datatype Out =
    | LeafOut(atom: Atom)
    | DictOut(keys: seq<string>, values: seq<Out>)
    | ListOut(outs: seq<Out>)
    | TupleOut(outs: seq<Out>)
    | TextOut(text: string)
    | Placeholder

  function Children(n: Node): seq<Ref> {
    match n
    case Dict(_, values) => values
    case List(items) => items
    case Tuple(items) => items
    case Other(_) => []
  }

  function Assemble(n: Node, outs: seq<Out>): Out {
    match n
    case Dict(keys, _) => DictOut(keys, outs)
    case List(_) => ListOut(outs)
    case Tuple(_) => TupleOut(outs)
    case Other(text) => TextOut(text)
  }

  /** Every reference leads somewhere. */
  ghost predicate Closed(h: Heap) {
    forall x, r :: x in h && r in Children(h[x]) && r.Obj? ==> r.id in h
  }

  predicate InHeap(h: Heap, r: Ref) {
    r.Obj? ==> r.id in h
  }

  type Seen = map<Id, Out>

  // ---------------------------------------------------------------------------
  // The memoised expansion
  // ---------------------------------------------------------------------------

  lemma OneLess(h: Heap, seen: Seen, more: Seen, x: Id)
    requires x in h && x !in seen && x in more && seen.Keys <= more.Keys
    ensures h.Keys - more.Keys < h.Keys - seen.Keys
  {
    assert x in h.Keys - seen.Keys && x !in h.Keys - more.Keys;
  }

  function Walk(h: Heap, r: Ref, seen: Seen): (result: (Out, Seen))
    requires Closed(h) && InHeap(h, r)
    ensures seen.Keys <= result.1.Keys
    decreases h.Keys - seen.Keys, 0, 0
  {
    if r.Leaf? then (LeafOut(r.atom), seen)
    else if r.id in seen then (seen[r.id], seen)
    else
      var started := seen[r.id := Placeholder];
      assert h.Keys - started.Keys < h.Keys - seen.Keys by { OneLess(h, seen, started, r.id); }
      var (outs, after) := WalkAll(h, Children(h[r.id]), started);
      var out := Assemble(h[r.id], outs);
      (out, after[r.id := out])
  }

  function WalkAll(h: Heap, rs: seq<Ref>, seen: Seen): (result: (seq<Out>, Seen))
    requires Closed(h) && forall r :: r in rs ==> InHeap(h, r)
    ensures seen.Keys <= result.1.Keys && |result.0| == |rs|
    decreases h.Keys - seen.Keys, 1, |rs|
  {
    if rs == [] then ([], seen)
    else
      var (out, middle) := Walk(h, rs[0], seen);
      var (outs, after) := WalkAll(h, rs[1..], middle);
      ([out] + outs, after)
  }

  lemma Unfold(h: Heap, rs: seq<Ref>, seen: Seen, outs: seq<Out>)
    requires Closed(h) && rs != [] && forall r :: r in rs ==> InHeap(h, r)
    ensures var (out, middle) := Walk(h, rs[0], seen);
            var rest := WalkAll(h, rs[1..], middle);
            var all := WalkAll(h, rs, seen);
            outs + all.0 == (outs + [out]) + rest.0 && all.1 == rest.1
  {
    hide Walk;
  }

  /** The expansion with its shared dictionary, updated in place. `expanded` records
      the objects whose children were gone through. */
  class Expansion {
    var seen: Seen
    ghost var expanded: seq<Id>

    /** No object is ever expanded twice. */
    ghost predicate Valid()
      reads this
    {
      && (forall i, j :: 0 <= i < j < |expanded| ==> expanded[i] != expanded[j])
      && (forall x :: x in expanded <==> x in seen)
    }

    constructor ()
      ensures Valid() && seen == map[] && expanded == []
    {
      seen := map[];
      expanded := [];
    }

    method Expand(h: Heap, r: Ref) returns (out: Out)
      requires Valid() && Closed(h) && InHeap(h, r)
      modifies this
      ensures Valid() && old(expanded) <= expanded
      ensures (out, seen) == Walk(h, r, old(seen))
      decreases h.Keys - seen.Keys
    {
      if r.Leaf? {
        return LeafOut(r.atom);
      }
      if r.id in seen {
        return seen[r.id];
      }
      seen := seen[r.id := Placeholder];
      expanded := expanded + [r.id];
      var children := Children(h[r.id]);
      ghost var start := seen;
      ghost var all := WalkAll(h, children, start);
      var outs: seq<Out> := [];
      assert children[0..] == children && outs + all.0 == all.0;
      for i := 0 to |children|
        invariant Valid() && old(expanded) + [r.id] <= expanded
        invariant start.Keys <= seen.Keys
        invariant var rest := WalkAll(h, children[i..], seen); outs + rest.0 == all.0 && rest.1 == all.1
      {
        Unfold(h, children[i..], seen, outs);
        assert children[i..][0] == children[i] && children[i..][1..] == children[i + 1..];
        OneLess(h, old(seen), seen, r.id);
        var child := Expand(h, children[i]);
        outs := outs + [child];
      }
      assert children[|children|..] == [] && outs + [] == outs;
      out := Assemble(h[r.id], outs);
      seen := seen[r.id := out];
    }
  }

  // ---------------------------------------------------------------------------
  // Plain structural recursion, where there are no circles
  // ---------------------------------------------------------------------------

  /** `rank` witnesses that from the objects it covers no circle can be reached. */
  ghost predicate Ranked(h: Heap, rank: map<Id, nat>) {
    && (forall x :: x in rank ==> x in h)
    && (forall x, r :: x in rank && r in Children(h[x]) && r.Obj? ==> r.id in rank && rank[r.id] < rank[x])
  }

  ghost predicate Covered(rank: map<Id, nat>, r: Ref) {
    r.Obj? ==> r.id in rank
  }

  ghost predicate Acyclic(h: Heap, r: Ref) {
    exists rank :: Ranked(h, rank) && Covered(rank, r)
  }

  ghost function Height(rank: map<Id, nat>, r: Ref): nat
    requires Covered(rank, r)
  {
    if r.Obj? then rank[r.id] + 1 else 0
  }

  /** The expansion without memory: shared parts are expanded once for each reference. */
  ghost function Plain(h: Heap, rank: map<Id, nat>, r: Ref): Out
    requires Ranked(h, rank) && Covered(rank, r)
    decreases Height(rank, r), 0, 0
  {
    if r.Leaf? then LeafOut(r.atom)
    else Assemble(h[r.id], PlainAll(h, rank, Children(h[r.id]), rank[r.id]))
  }

  ghost function PlainAll(h: Heap, rank: map<Id, nat>, rs: seq<Ref>, bound: nat): (outs: seq<Out>)
    requires Ranked(h, rank) && forall r :: r in rs ==> Covered(rank, r) && Height(rank, r) <= bound
    ensures |outs| == |rs|
    decreases bound, 1, |rs|
  {
    if rs == [] then [] else [Plain(h, rank, rs[0])] + PlainAll(h, rank, rs[1..], bound)
  }

  /** What is remembered of the objects below height `k` is their plain expansion. */
  ghost predicate Remembers(h: Heap, rank: map<Id, nat>, seen: Seen, k: nat)
    requires Ranked(h, rank)
  {
    forall x :: x in seen && x in rank && rank[x] < k ==> seen[x] == Plain(h, rank, Obj(x))
  }

  /** Nothing is forgotten, and all that is new is plain. */
  ghost predicate Learns(h: Heap, rank: map<Id, nat>, seen: Seen, after: Seen)
    requires Ranked(h, rank)
  {
    && seen.Keys <= after.Keys
    && (forall x :: x in seen ==> after[x] == seen[x])
    && (forall x :: x in after && x !in seen ==> x in rank && after[x] == Plain(h, rank, Obj(x)))
  }

  lemma {:induction false} WalkIsPlain(h: Heap, rank: map<Id, nat>, r: Ref, seen: Seen)
    requires Closed(h) && Ranked(h, rank) && Covered(rank, r) && Remembers(h, rank, seen, Height(rank, r))
    ensures InHeap(h, r)
    ensures var (out, after) := Walk(h, r, seen);
            out == Plain(h, rank, r) && Learns(h, rank, seen, after)
    decreases Height(rank, r), 0, 0
  {
    if r.Obj? && r.id !in seen {
      var started := seen[r.id := Placeholder];
      WalkAllIsPlain(h, rank, Children(h[r.id]), started, rank[r.id]);
    }
  }

  lemma {:induction false} WalkAllIsPlain(h: Heap, rank: map<Id, nat>, rs: seq<Ref>, seen: Seen, bound: nat)
    requires Closed(h) && Ranked(h, rank) && Remembers(h, rank, seen, bound)
    requires forall r :: r in rs ==> Covered(rank, r) && Height(rank, r) <= bound
    ensures forall r :: r in rs ==> InHeap(h, r)
    ensures var (outs, after) := WalkAll(h, rs, seen);
            outs == PlainAll(h, rank, rs, bound) && Learns(h, rank, seen, after)
    decreases bound, 1, |rs|
  {
    if rs != [] {
      WalkIsPlain(h, rank, rs[0], seen);
      WalkAllIsPlain(h, rank, rs[1..], Walk(h, rs[0], seen).1, bound);
    }
  }

  /** Main result, where there are no circles: remembering changes nothing. */
  lemma AgreesWithPlainRecursion(h: Heap, rank: map<Id, nat>, r: Ref)
    requires Closed(h) && InHeap(h, r) && Ranked(h, rank) && Covered(rank, r)
    ensures Walk(h, r, map[]).0 == Plain(h, rank, r)
  {
    WalkIsPlain(h, rank, r, map[]);
  }

  // ---------------------------------------------------------------------------
  // Placeholders appear exactly where there are circles
  // ---------------------------------------------------------------------------

  /** No placeholder is shown in `o`. */
  predicate Clean(o: Out) {
    match o
    case Placeholder => false
    case DictOut(_, values) => AllClean(values)
    case ListOut(outs) => AllClean(outs)
    case TupleOut(outs) => AllClean(outs)
    case _ => true
  }

  predicate AllClean(os: seq<Out>) {
    os == [] || (Clean(os[0]) && AllClean(os[1..]))
  }

  function Depth(o: Out): nat {
    match o
    case DictOut(_, values) => DepthAll(values)
    case ListOut(outs) => DepthAll(outs)
    case TupleOut(outs) => DepthAll(outs)
    case _ => 0
  }

  function DepthAll(os: seq<Out>): nat {
    if os == [] then 0
    else
      var rest := DepthAll(os[1..]);
      if Depth(os[0]) + 1 > rest then Depth(os[0]) + 1 else rest
  }

  /** How a child's expansion relates to what is remembered. */
  ghost predicate Shows(seen: Seen, r: Ref, o: Out) {
    match r
    case Leaf(a) => o == LeafOut(a)
    case Obj(x) => o == Placeholder || (x in seen && seen[x] == o)
  }

  /** `x` has been expanded, out of what is remembered of its children. */
  ghost predicate Done(h: Heap, seen: Seen, x: Id)
    requires x in h && x in seen
  {
    var n := h[x];
    exists outs :: seen[x] == Assemble(n, outs) && |outs| == |Children(n)|
      && forall i :: 0 <= i < |outs| ==> Shows(seen, Children(n)[i], outs[i])
  }

  ghost predicate Consistent(h: Heap, seen: Seen) {
    forall x :: x in seen ==> x in h && (seen[x] == Placeholder || Done(h, seen, x))
  }

  ghost predicate Grows(seen: Seen, after: Seen) {
    seen.Keys <= after.Keys && forall x :: x in seen ==> after[x] == seen[x]
  }

  /** Completing a placeholder disturbs nothing that is done. */
  lemma DoneStill(h: Heap, seen: Seen, after: Seen, x: Id)
    requires seen.Keys <= after.Keys
    requires x in h && x in seen && Done(h, seen, x) && after[x] == seen[x]
    requires forall y :: y in seen && seen[y] != Placeholder ==> after[y] == seen[y]
    ensures Done(h, after, x)
  {
    var n := h[x];
    var outs :| seen[x] == Assemble(n, outs) && |outs| == |Children(n)|
      && forall i :: 0 <= i < |outs| ==> Shows(seen, Children(n)[i], outs[i]);
    assert forall i :: 0 <= i < |outs| ==> Shows(after, Children(n)[i], outs[i]);
  }

  lemma StartConsistent(h: Heap, seen: Seen, x: Id)
    requires Consistent(h, seen) && x in h && x !in seen
    ensures Consistent(h, seen[x := Placeholder])
  {
    hide Done;
    forall y | y in seen && seen[y] != Placeholder ensures Done(h, seen[x := Placeholder], y) {
      DoneStill(h, seen, seen[x := Placeholder], y);
    }
  }

  lemma FinishConsistent(h: Heap, middle: Seen, x: Id, outs: seq<Out>)
    requires Consistent(h, middle) && x in h && x in middle && middle[x] == Placeholder
    requires |outs| == |Children(h[x])| && forall i :: 0 <= i < |outs| ==> Shows(middle, Children(h[x])[i], outs[i])
    ensures Consistent(h, middle[x := Assemble(h[x], outs)])
  {
    hide Done;
    var after := middle[x := Assemble(h[x], outs)];
    forall y | y in middle && y != x && middle[y] != Placeholder ensures Done(h, after, y) {
      DoneStill(h, middle, after, y);
    }
    NowDone(h, middle, x, outs);
  }

  lemma {:induction false} WalkConsistent(h: Heap, r: Ref, seen: Seen)
    requires Closed(h) && InHeap(h, r) && Consistent(h, seen)
    ensures var (out, after) := Walk(h, r, seen);
            Consistent(h, after) && Grows(seen, after) && Shows(after, r, out)
    decreases h.Keys - seen.Keys, 0, 0
  {
    if r.Obj? && r.id !in seen {
      hide Consistent;
      var started := seen[r.id := Placeholder];
      OneLess(h, seen, started, r.id);
      StartConsistent(h, seen, r.id);
      WalkAllConsistent(h, Children(h[r.id]), started);
      var (outs, middle) := WalkAll(h, Children(h[r.id]), started);
      FinishConsistent(h, middle, r.id, outs);
    }
  }

  lemma NowDone(h: Heap, middle: Seen, x: Id, outs: seq<Out>)
    requires x in h && x in middle && middle[x] == Placeholder && |outs| == |Children(h[x])|
    requires forall i :: 0 <= i < |outs| ==> Shows(middle, Children(h[x])[i], outs[i])
    ensures Done(h, middle[x := Assemble(h[x], outs)], x)
  {
    var after := middle[x := Assemble(h[x], outs)];
    assert forall i :: 0 <= i < |outs| ==> Shows(after, Children(h[x])[i], outs[i]);
  }

  lemma {:induction false} WalkAllConsistent(h: Heap, rs: seq<Ref>, seen: Seen)
    requires Closed(h) && Consistent(h, seen) && forall r :: r in rs ==> InHeap(h, r)
    ensures var (outs, after) := WalkAll(h, rs, seen);
            && Consistent(h, after) && Grows(seen, after)
            && forall i :: 0 <= i < |rs| ==> Shows(after, rs[i], outs[i])
    decreases h.Keys - seen.Keys, 1, |rs|
  {
    hide Walk, Consistent;
    if rs != [] {
      WalkConsistent(h, rs[0], seen);
      var (out, middle) := Walk(h, rs[0], seen);
      WalkAllConsistent(h, rs[1..], middle);
      var (outs, after) := WalkAll(h, rs[1..], middle);
      forall i | 0 <= i < |rs| ensures Shows(after, rs[i], ([out] + outs)[i]) {
        if i > 0 { assert rs[i] == rs[1..][i - 1]; }
      }
    }
  }

  lemma {:induction false} PartsOfClean(os: seq<Out>, i: nat)
    requires AllClean(os) && i < |os|
    ensures Clean(os[i]) && Depth(os[i]) < DepthAll(os)
  {
    if i > 0 { PartsOfClean(os[1..], i - 1); }
  }

  lemma ChildOfClean(h: Heap, seen: Seen, x: Id, c: Ref)
    requires Consistent(h, seen) && x in seen && Clean(seen[x]) && c in Children(h[x]) && c.Obj?
    ensures c.id in seen && Clean(seen[c.id]) && Depth(seen[c.id]) < Depth(seen[x])
  {
    var n := h[x];
    assert Done(h, seen, x);
    var outs :| seen[x] == Assemble(n, outs) && |outs| == |Children(n)|
      && forall i :: 0 <= i < |outs| ==> Shows(seen, Children(n)[i], outs[i]);
    var i :| 0 <= i < |Children(n)| && Children(n)[i] == c;
    assert Shows(seen, c, outs[i]);
    PartsOfClean(outs, i);
  }

  /** The objects whose expansion is remembered without placeholders form no circle. */
  lemma CleanMeansAcyclic(h: Heap, seen: Seen, r: Ref, out: Out)
    requires Consistent(h, seen) && Shows(seen, r, out) && Clean(out)
    ensures Acyclic(h, r)
  {
    var rank := map x | x in seen && Clean(seen[x]) :: Depth(seen[x]);
    forall x, c | x in rank && c in Children(h[x]) && c.Obj?
      ensures c.id in rank && rank[c.id] < rank[x]
    {
      ChildOfClean(h, seen, x, c);
    }
    assert Ranked(h, rank) && Covered(rank, r);
  }

  lemma {:induction false} PlainIsClean(h: Heap, rank: map<Id, nat>, r: Ref)
    requires Ranked(h, rank) && Covered(rank, r)
    ensures Clean(Plain(h, rank, r))
    decreases Height(rank, r), 0, 0
  {
    if r.Obj? {
      PlainAllIsClean(h, rank, Children(h[r.id]), rank[r.id]);
    }
  }

  lemma {:induction false} PlainAllIsClean(h: Heap, rank: map<Id, nat>, rs: seq<Ref>, bound: nat)
    requires Ranked(h, rank) && forall r :: r in rs ==> Covered(rank, r) && Height(rank, r) <= bound
    ensures AllClean(PlainAll(h, rank, rs, bound))
    decreases bound, 1, |rs|
  {
    if rs != [] {
      PlainIsClean(h, rank, rs[0]);
      PlainAllIsClean(h, rank, rs[1..], bound);
    }
  }

  /** Main result on arbitrary heaps: a placeholder is shown exactly if a circle can be
      reached, and if none is shown the whole expansion is the plain one. */
  lemma PlaceholderMeansCircle(h: Heap, r: Ref)
    requires Closed(h) && InHeap(h, r)
    ensures Clean(Walk(h, r, map[]).0) <==> Acyclic(h, r)
    ensures forall rank :: Ranked(h, rank) && Covered(rank, r) ==> Walk(h, r, map[]).0 == Plain(h, rank, r)
  {
    var (out, after) := Walk(h, r, map[]);
    WalkConsistent(h, r, map[]);
    if Clean(out) {
      CleanMeansAcyclic(h, after, r, out);
    }
    forall rank | Ranked(h, rank) && Covered(rank, r)
      ensures out == Plain(h, rank, r) && Clean(out)
    {
      AgreesWithPlainRecursion(h, rank, r);
      PlainIsClean(h, rank, r);
    }
  }

  // ---------------------------------------------------------------------------
  // What is shown is what there is
  // ---------------------------------------------------------------------------

  /** A chain of references, each from an object to one of its children. */
  ghost predicate Chain(h: Heap, p: seq<Id>) {
    forall i :: 0 <= i < |p| - 1 ==> p[i] in h && Obj(p[i + 1]) in Children(h[p[i]])
  }

  /** Following references leads from `x` to `y`. */
  ghost predicate Leads(h: Heap, x: Id, y: Id) {
    exists p: seq<Id> :: |p| >= 2 && p[0] == x && p[|p| - 1] == y && Chain(h, p)
  }

  lemma OneReference(h: Heap, x: Id, y: Id)
    requires x in h && Obj(y) in Children(h[x])
    ensures Leads(h, x, y)
  {
    var p := [x, y];
    assert |p| >= 2 && p[0] == x && p[|p| - 1] == y && Chain(h, p);
  }

  lemma OneReferenceMore(h: Heap, x: Id, y: Id, z: Id)
    requires Leads(h, x, y) && y in h && Obj(z) in Children(h[y])
    ensures Leads(h, x, z)
  {
    var p: seq<Id> :| |p| >= 2 && p[0] == x && p[|p| - 1] == y && Chain(h, p);
    var q := p + [z];
    assert |q| >= 2 && q[0] == x && q[|q| - 1] == z && Chain(h, q);
  }

  /** `o` shows what is at `r`: the same keys, items and texts in the same kinds of
      containers, down to leaves, and to placeholders for objects that lie on a circle. */
  ghost predicate Depicts(h: Heap, r: Ref, o: Out)
    decreases o, 1
  {
    match o
    case Placeholder => r.Obj? && Leads(h, r.id, r.id)
    case LeafOut(a) => r == Leaf(a)
    case DictOut(keys, values) =>
      r.Obj? && r.id in h && h[r.id].Dict? && h[r.id].keys == keys && DepictsAll(h, h[r.id].values, values)
    case ListOut(outs) => r.Obj? && r.id in h && h[r.id].List? && DepictsAll(h, h[r.id].items, outs)
    case TupleOut(outs) => r.Obj? && r.id in h && h[r.id].Tuple? && DepictsAll(h, h[r.id].items, outs)
    case TextOut(text) => r.Obj? && r.id in h && h[r.id] == Other(text)
  }

  ghost predicate DepictsAll(h: Heap, rs: seq<Ref>, os: seq<Out>)
    decreases os, 0
  {
    |rs| == |os| && (os == [] || (Depicts(h, rs[0], os[0]) && DepictsAll(h, rs[1..], os[1..])))
  }

  /** What is remembered depicts its object; unfinished objects lead to `r`. */
  ghost predicate Depicted(h: Heap, seen: Seen) {
    forall x :: x in seen && seen[x] != Placeholder ==> Depicts(h, Obj(x), seen[x])
  }

  ghost predicate LeadTo(h: Heap, seen: Seen, r: Ref) {
    forall y :: y in seen && seen[y] == Placeholder && r.Obj? ==> Leads(h, y, r.id)
  }

  lemma AssembledDepicts(h: Heap, x: Id, outs: seq<Out>)
    requires x in h && DepictsAll(h, Children(h[x]), outs)
    ensures Depicts(h, Obj(x), Assemble(h[x], outs)) && !Assemble(h[x], outs).Placeholder?
  {
  }

  lemma {:induction false} WalkDepicts(h: Heap, r: Ref, seen: Seen)
    requires Closed(h) && InHeap(h, r) && Depicted(h, seen) && LeadTo(h, seen, r)
    ensures var (out, after) := Walk(h, r, seen);
            Depicts(h, r, out) && Depicted(h, after) && Grows(seen, after)
            && (forall y :: y in after && y !in seen ==> after[y] != Placeholder)
    decreases h.Keys - seen.Keys, 0, 0
  {
    hide Depicts, DepictsAll, Assemble, Leads;
    if r.Leaf? {
      LeafDepicts(h, r);
    } else if r.id in seen {
      if seen[r.id] == Placeholder {
        PlaceholderDepicts(h, r);
      }
    } else {
      var x := r.id;
      var started := seen[x := Placeholder];
      OneLess(h, seen, started, x);
      var children := Children(h[x]);
      forall c | c in children ensures LeadTo(h, started, c) {
        if c.Obj? {
          OneReference(h, x, c.id);
          forall y | y in started && started[y] == Placeholder ensures Leads(h, y, c.id) {
            if y != x { OneReferenceMore(h, y, x, c.id); }
          }
        }
      }
      WalkAllDepicts(h, children, started);
      AssembledDepicts(h, x, WalkAll(h, children, started).0);
    }
  }

  lemma LeafDepicts(h: Heap, r: Ref)
    requires r.Leaf?
    ensures Depicts(h, r, LeafOut(r.atom))
  {
  }

  lemma PlaceholderDepicts(h: Heap, r: Ref)
    requires r.Obj? && Leads(h, r.id, r.id)
    ensures Depicts(h, r, Placeholder)
  {
  }

  lemma {:induction false} WalkAllDepicts(h: Heap, rs: seq<Ref>, seen: Seen)
    requires Closed(h) && (forall r :: r in rs ==> InHeap(h, r)) && Depicted(h, seen)
    requires forall r :: r in rs ==> LeadTo(h, seen, r)
    ensures var (outs, after) := WalkAll(h, rs, seen);
            DepictsAll(h, rs, outs) && Depicted(h, after) && Grows(seen, after)
            && (forall y :: y in after && y !in seen ==> after[y] != Placeholder)
    decreases h.Keys - seen.Keys, 1, |rs|
  {
    hide Depicts, Leads, Walk;
    if rs != [] {
      WalkDepicts(h, rs[0], seen);
      var middle := Walk(h, rs[0], seen).1;
      forall r | r in rs[1..] ensures LeadTo(h, middle, r) {
        assert LeadTo(h, seen, r);
      }
      WalkAllDepicts(h, rs[1..], middle);
    }
  }

  /** Main result on what is shown, for every heap: the expansion depicts the object, and a
      placeholder stands only for an object that leads back to itself. */
  lemma ExpansionDepicts(h: Heap, r: Ref)
    requires Closed(h) && InHeap(h, r)
    ensures Depicts(h, r, Walk(h, r, map[]).0) && !Walk(h, r, map[]).0.Placeholder?
  {
    WalkDepicts(h, r, map[]);
    if r.Obj? {
      var outs := WalkAll(h, Children(h[r.id]), map[r.id := Placeholder]).0;
      assert map[][r.id := Placeholder] == map[r.id := Placeholder];
      assert !Assemble(h[r.id], outs).Placeholder?;
    }
  }

  /** Without placeholders there is only one way to depict an object. */
  lemma {:induction false} DepictionIsUnique(h: Heap, r: Ref, o: Out, o': Out)
    requires Depicts(h, r, o) && Depicts(h, r, o') && Clean(o) && Clean(o')
    ensures o == o'
    decreases o, 1
  {
    match o
    case DictOut(_, values) => AllDepictionsUnique(h, h[r.id].values, values, o'.values);
    case ListOut(outs) => AllDepictionsUnique(h, h[r.id].items, outs, o'.outs);
    case TupleOut(outs) => AllDepictionsUnique(h, h[r.id].items, outs, o'.outs);
    case _ =>
  }

  lemma {:induction false} AllDepictionsUnique(h: Heap, rs: seq<Ref>, os: seq<Out>, os': seq<Out>)
    requires DepictsAll(h, rs, os) && DepictsAll(h, rs, os') && AllClean(os) && AllClean(os')
    ensures os == os'
    decreases os, 0
  {
    if os != [] {
      DepictionIsUnique(h, rs[0], os[0], os'[0]);
      AllDepictionsUnique(h, rs[1..], os[1..], os'[1..]);
    }
  }
}

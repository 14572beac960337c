/** ReassemblyBuffer: fragments of a datagram, in any order and any number of times. */
module Reassembly {
  import opened Basics

  type Offset = x: nat | x <= 0xFFFF

  datatype Region = Region(beg: Offset, end: Offset, islast: bool)

  /** main is the range assembled; fragments are those put aside. */
  datatype Buffer = Buffer(main: Region, fragments: seq<Region>)

  const EMPTY := Buffer(Region(0, 0, false), [])

  predicate Complete(b: Buffer) { b.main.beg == 0 && b.main.islast }

  /** The main region with a stored fragment taken in, if it adjoins or is already there. */
  function Take(main: Region, f: Region): Option<Region> {
    if main.end == f.beg then Some(Region(main.beg, f.end, main.islast || f.islast))
    else if main.beg == f.end then Some(main.(beg := f.beg))
    else if main.beg <= f.beg && main.end >= f.end then Some(main)
    else None
  }

  /** One pass over the stored fragments: what is taken in is deleted. */
  function Pass(main: Region, frags: seq<Region>): (r: Buffer)
    ensures |r.fragments| <= |frags|
    decreases |frags|
  {
    if frags == [] then Buffer(main, [])
    else
      match Take(main, frags[0])
      case Some(m) => Pass(m, frags[1..])
      case None =>
        var r := Pass(main, frags[1..]);
        Buffer(r.main, [frags[0]] + r.fragments)
  }

  lemma {:induction false} PassOne(main: Region, frags: seq<Region>)
    requires frags != []
    ensures match Take(main, frags[0])
            case Some(m) => Pass(main, frags) == Pass(m, frags[1..])
            case None =>
              Pass(main, frags) == Buffer(Pass(main, frags[1..]).main, [frags[0]] + Pass(main, frags[1..]).fragments)
  {
  }

  /** Passes until nothing is deleted any more. */
  function MergeFragments(b: Buffer): Buffer
    decreases |b.fragments|
  {
    var r := Pass(b.main, b.fragments);
    if |r.fragments| < |b.fragments| then MergeFragments(r) else r
  }

  function Add(b: Buffer, f: Region): Buffer {
    if b.main.end == f.beg then
      MergeFragments(Buffer(Region(b.main.beg, f.end, b.main.islast || f.islast), b.fragments))
    else if b.main.beg == f.end then MergeFragments(Buffer(b.main.(beg := f.beg), b.fragments))
    else if b.main.end < f.beg || b.main.beg > f.end then Buffer(b.main, b.fragments + [f])
    else b
  }

  /** What arrives in turn, last one last. */
  function AddAll(fs: seq<Region>): Buffer {
    if fs == [] then EMPTY else Add(AddAll(fs[..|fs| - 1]), fs[|fs| - 1])
  }

  // ---------- a pass in place ----------

  /** The list without its i-th fragment. */
  function Erased(frags: seq<Region>, i: nat): seq<Region>
    requires i < |frags|
  {
    frags[..i] + frags[i + 1..]
  }

  /** A pass that comes to r in the end has kept the fragments before i and has yet to see the others. */
  ghost predicate Passing(r: Buffer, main: Region, frags: seq<Region>, i: nat) {
    i <= |frags| && r.main == Pass(main, frags[i..]).main &&
    r.fragments == frags[..i] + Pass(main, frags[i..]).fragments
  }

  lemma {:induction false} AtStart(r: Buffer, main: Region, frags: seq<Region>)
    requires r == Pass(main, frags)
    ensures Passing(r, main, frags, 0)
  {
    assert frags[0..] == frags;
    hide Pass;
  }

  lemma AtEnd(r: Buffer, main: Region, frags: seq<Region>)
    requires Passing(r, main, frags, |frags|)
    ensures r == Buffer(main, frags)
  {
    assert frags[|frags|..] == [] && frags[..|frags|] == frags;
  }

  /** The next fragment is merged and erased, or kept. */
  lemma PassFragment(r: Buffer, main: Region, frags: seq<Region>, i: nat)
    requires i < |frags| && Passing(r, main, frags, i)
    ensures match Take(main, frags[i])
      case Some(m) => Passing(r, m, Erased(frags, i), i)
      case None => Passing(r, main, frags, i + 1)
  {
    var s := Erased(frags, i);
    PassOne(main, frags[i..]);
    hide Pass;
    assert frags[i..][0] == frags[i] && frags[i..][1..] == frags[i + 1..] == s[i..];
    assert s[..i] == frags[..i] && frags[..i + 1] == frags[..i] + [frags[i]];
  }

  // ---------- the class ----------

  class ReassemblyBuffer {
    var main: Region
    var fragments: seq<Region>

    function Abs(): Buffer
      reads this
    {
      Buffer(main, fragments)
    }

    constructor ()
      ensures Abs() == EMPTY
    {
      main, fragments := Region(0, 0, false), [];
    }

    /** Add a fragment; true if that completes the datagram. */
    method AddFragment(beg: Offset, end: Offset, islast: bool) returns (complete: bool)
      modifies this
      ensures Abs() == Add(old(Abs()), Region(beg, end, islast)) && complete == Complete(Abs())
    {
      if main.end == beg {
        main := main.(end := end);
        if islast {
          main := main.(islast := true);
        }
        MergeStored();
      } else if main.beg == end {
        main := main.(beg := beg);
        MergeStored();
      } else if main.end < beg || main.beg > end {
        fragments := fragments + [Region(beg, end, islast)];
      }
      complete := main.beg == 0 && main.islast;
    }

    /** `mergeFragments`. */
    method MergeStored()
      modifies this
      ensures Abs() == MergeFragments(old(Abs()))
    {
      var oncemore := true;
      while oncemore
        invariant (if oncemore then MergeFragments(Abs()) else Abs()) == MergeFragments(old(Abs()))
        decreases |fragments|, oncemore
      {
        ghost var was := Abs();
        oncemore := MergeOnce();
      }
    }

    /** One pass; true if it deleted something. */
    method MergeOnce() returns (deleted: bool)
      modifies this
      ensures Abs() == Pass(old(main), old(fragments)) && deleted == (|fragments| < |old(fragments)|)
    {
      hide Pass;
      deleted := false;
      var i := 0;
      ghost var all, r := fragments, Pass(main, fragments);
      AtStart(r, main, fragments);
      while i < |fragments|
        invariant i <= |fragments| <= |all| && deleted == (|fragments| < |all|)
        invariant Passing(r, main, fragments, i)
        decreases |fragments| - i
      {
        var frag := fragments[i];
        PassFragment(r, main, fragments, i);
        var deleteit := true;
        if main.end == frag.beg {
          main := main.(end := frag.end);
          if frag.islast {
            main := main.(islast := true);
          }
        } else if main.beg == frag.end {
          main := main.(beg := frag.beg);
        } else if !(main.beg <= frag.beg && main.end >= frag.end) {
          deleteit := false;
        }
        if deleteit {
          fragments := Erased(fragments, i);
          deleted := true;
        } else {
          i := i + 1;
        }
      }
      AtEnd(r, main, fragments);
    }
  }

  // ---------- a partitioned datagram ----------

  /** The offsets at which a datagram is cut, from 0 to its length. */
  predicate Cuts(cuts: seq<Offset>) {
    |cuts| > 1 && cuts[0] == 0 && forall i, j :: 0 <= i < j < |cuts| ==> cuts[i] < cuts[j]
  }

  function Frag(cuts: seq<Offset>, j: nat): Region
    requires j + 1 < |cuts|
  {
    Region(cuts[j], cuts[j + 1], j + 2 == |cuts|)
  }

  /** The first k fragments, put together. */
  function Prefix(cuts: seq<Offset>, k: nat): Region
    requires Cuts(cuts) && k < |cuts|
  {
    Region(0, cuts[k], k + 1 == |cuts|)
  }

  function Frags(cuts: seq<Offset>, arrivals: seq<nat>): (fs: seq<Region>)
    requires Cuts(cuts) && forall i :: 0 <= i < |arrivals| ==> arrivals[i] + 1 < |cuts|
    ensures |fs| == |arrivals| && forall i :: 0 <= i < |fs| ==> fs[i] == Frag(cuts, arrivals[i])
  {
    if arrivals == [] then [] else [Frag(cuts, arrivals[0])] + Frags(cuts, arrivals[1..])
  }

  /** Fragment k in line extends the prefix, earlier ones are there already, later ones have to wait. */
  lemma TakeFrag(cuts: seq<Offset>, k: nat, j: nat)
    requires Cuts(cuts) && k < |cuts| && j + 1 < |cuts|
    ensures Take(Prefix(cuts, k), Frag(cuts, j)) ==
            if j == k then Some(Prefix(cuts, k + 1)) else if j < k then Some(Prefix(cuts, k)) else None
  {
    if j < k { assert cuts[j + 1] <= cuts[k]; }
  }

  /** f is the j-th fragment. */
  predicate IsFrag(cuts: seq<Offset>, f: Region, j: nat) { j + 1 < |cuts| && f == Frag(cuts, j) }

  ghost predicate AllFrags(cuts: seq<Offset>, frags: seq<Region>) {
    forall f :: f in frags ==> exists j :: IsFrag(cuts, f, j)
  }

  /** After a pass that extended the prefix from k to n fragments: those taken in were stored, those
      beyond are still stored, and if nothing was deleted, nothing was in line. */
  ghost predicate Passed(cuts: seq<Offset>, k: nat, frags: seq<Region>, n: nat, kept: seq<Region>)
    requires Cuts(cuts)
  {
    k <= n < |cuts| && (forall f :: f in kept ==> f in frags) &&
    (forall j :: k <= j < n ==> Frag(cuts, j) in frags) &&
    (forall j :: n <= j && j + 1 < |cuts| && Frag(cuts, j) in frags ==> Frag(cuts, j) in kept) &&
    (|kept| == |frags| ==>
       n == k && kept == frags && forall j :: 0 <= j <= k && j + 1 < |cuts| ==> Frag(cuts, j) !in frags)
  }

  lemma FragInjective(cuts: seq<Offset>, i: nat, j: nat)
    requires Cuts(cuts) && i + 1 < |cuts| && j + 1 < |cuts| && Frag(cuts, i) == Frag(cuts, j)
    ensures i == j
  {
    assert cuts[i] == cuts[j];
  }

  lemma InTail(frags: seq<Region>, f: Region)
    requires frags != []
    ensures f in frags <==> f == frags[0] || f in frags[1..]
  {
    assert frags == [frags[0]] + frags[1..];
  }

  lemma {:induction false} PassFrags(cuts: seq<Offset>, k: nat, frags: seq<Region>) returns (n: nat)
    requires Cuts(cuts) && k < |cuts| && AllFrags(cuts, frags)
    ensures var r := Pass(Prefix(cuts, k), frags);
      Passed(cuts, k, frags, n, r.fragments) && r.main == Prefix(cuts, n)
    decreases |frags|
  {
    n := k;
    if frags != [] {
      var f, rest := frags[0], frags[1..];
      assert f in frags;
      var j: nat :| IsFrag(cuts, f, j);
      TakeFrag(cuts, k, j);
      forall g ensures g in frags <==> g == f || g in rest { InTail(frags, g); }
      n := PassFrags(cuts, if j == k then k + 1 else k, rest);
      PassedStep(cuts, k, frags, n, j);
    }
  }

  lemma {:induction false} PassedStep(cuts: seq<Offset>, k: nat, frags: seq<Region>, n: nat, j: nat)
    requires Cuts(cuts) && k < |cuts| && frags != [] && IsFrag(cuts, frags[0], j)
    requires var m := if j == k then k + 1 else k;
      Passed(cuts, m, frags[1..], n, Pass(Prefix(cuts, m), frags[1..]).fragments)
    ensures Passed(cuts, k, frags, n, Pass(Prefix(cuts, k), frags).fragments)
  {
    TakeFrag(cuts, k, j);
    var f, rest := frags[0], frags[1..];
    var kept := Pass(Prefix(cuts, k), frags).fragments;
    forall g ensures g in frags <==> g == f || g in rest { InTail(frags, g); }
    forall i | 0 <= i && i + 1 < |cuts| && Frag(cuts, i) == f ensures i == j { FragInjective(cuts, i, j); }
    if j > k { assert frags == [f] + rest && kept[1..] == Pass(Prefix(cuts, k), rest).fragments; }
  }

  /** All passes together extend the prefix until the fragment in line is not there. */
  lemma {:induction false} MergeFrags(cuts: seq<Offset>, k: nat, frags: seq<Region>) returns (n: nat)
    requires Cuts(cuts) && k < |cuts| && AllFrags(cuts, frags)
    ensures var r := MergeFragments(Buffer(Prefix(cuts, k), frags));
      k <= n < |cuts| && r.main == Prefix(cuts, n) && Left(cuts, frags, n, r.fragments) &&
      (forall j :: k <= j < n ==> Frag(cuts, j) in frags)
    decreases |frags|
  {
    n := PassFrags(cuts, k, frags);
    var r := Pass(Prefix(cuts, k), frags);
    if |r.fragments| < |frags| {
      n := MergeFrags(cuts, n, r.fragments);
    }
  }

  /** The first n fragments have arrived, the next one has not. */
  ghost predicate Gap(cuts: seq<Offset>, arrived: set<nat>, n: nat) {
    n < |cuts| && n !in arrived && (forall j :: 0 <= j < n ==> j in arrived) &&
    (forall j :: j in arrived ==> j + 1 < |cuts|)
  }

  predicate ArrivedBeyond(cuts: seq<Offset>, arrived: set<nat>, n: nat, f: Region, j: nat) {
    IsFrag(cuts, f, j) && j in arrived && n < j
  }

  /** Put aside are just the fragments that arrived beyond place n. */
  ghost predicate Waiting(cuts: seq<Offset>, arrived: set<nat>, frags: seq<Region>, n: nat) {
    (forall f :: f in frags ==> exists j :: ArrivedBeyond(cuts, arrived, n, f, j)) &&
    (forall j :: j in arrived && n < j && j + 1 < |cuts| ==> Frag(cuts, j) in frags)
  }

  /** The buffer when the fragments in arrived have come: the main region is the first n of them
      together, the next one is missing, and stored are just those beyond the gap. */
  ghost predicate Holds(cuts: seq<Offset>, arrived: set<nat>, b: Buffer, n: nat)
    requires Cuts(cuts)
  {
    Gap(cuts, arrived, n) && b.main == Prefix(cuts, n) && Waiting(cuts, arrived, b.fragments, n)
  }

  lemma WaitingArrived(cuts: seq<Offset>, arrived: set<nat>, frags: seq<Region>, n: nat, j: nat)
    requires Cuts(cuts) && Waiting(cuts, arrived, frags, n) && j + 1 < |cuts| && Frag(cuts, j) in frags
    ensures j in arrived && n < j
  {
    var i: nat :| ArrivedBeyond(cuts, arrived, n, Frag(cuts, j), i);
    FragInjective(cuts, i, j);
  }

  lemma WaitingFrags(cuts: seq<Offset>, arrived: set<nat>, frags: seq<Region>, n: nat)
    requires Waiting(cuts, arrived, frags, n)
    ensures AllFrags(cuts, frags)
  {
    forall f | f in frags ensures exists j :: IsFrag(cuts, f, j) {
      var j: nat :| ArrivedBeyond(cuts, arrived, n, f, j);
    }
  }

  /** A fragment beyond the gap is put aside. */
  lemma StoredWaits(cuts: seq<Offset>, arrived: set<nat>, frags: seq<Region>, n: nat, j: nat)
    requires Cuts(cuts) && Waiting(cuts, arrived, frags, n) && n < j && j + 1 < |cuts|
    ensures Waiting(cuts, arrived + {j}, frags + [Frag(cuts, j)], n)
  {
    var f := Frag(cuts, j);
    forall g | g in frags + [f] ensures exists i :: ArrivedBeyond(cuts, arrived + {j}, n, g, i) {
      if g in frags {
        var i: nat :| ArrivedBeyond(cuts, arrived, n, g, i);
        assert ArrivedBeyond(cuts, arrived + {j}, n, g, i);
      } else {
        assert ArrivedBeyond(cuts, arrived + {j}, n, g, j);
      }
    }
  }

  /** What the passes leave: from the fragments put aside beyond n those beyond m. */
  ghost predicate Left(cuts: seq<Offset>, frags: seq<Region>, m: nat, left: seq<Region>) {
    (forall f :: f in left ==> f in frags) &&
    (forall j :: m <= j && j + 1 < |cuts| && Frag(cuts, j) in frags ==> Frag(cuts, j) in left) &&
    (forall j :: 0 <= j <= m && j + 1 < |cuts| ==> Frag(cuts, j) !in left)
  }

  lemma LeftWaits(cuts: seq<Offset>, arrived: set<nat>, frags: seq<Region>, n: nat, m: nat,
        left: seq<Region>)
    requires Cuts(cuts) && Waiting(cuts, arrived, frags, n) && n < m && Left(cuts, frags, m, left)
    ensures Waiting(cuts, arrived + {n}, left, m)
  {
    forall f | f in left ensures exists j :: ArrivedBeyond(cuts, arrived + {n}, m, f, j) {
      var j: nat :| ArrivedBeyond(cuts, arrived, n, f, j);
      assert ArrivedBeyond(cuts, arrived + {n}, m, f, j);
    }
  }

  lemma MergedHolds(cuts: seq<Offset>, arrived: set<nat>, b: Buffer, n: nat, m: nat)
    requires Cuts(cuts) && Holds(cuts, arrived, b, n) && n + 1 < |cuts| && n < m < |cuts|
    requires var r := MergeFragments(Buffer(Prefix(cuts, n + 1), b.fragments));
      r.main == Prefix(cuts, m) && Left(cuts, b.fragments, m, r.fragments) &&
      (forall j :: n + 1 <= j < m ==> Frag(cuts, j) in b.fragments)
    ensures Holds(cuts, arrived + {n}, Add(b, Frag(cuts, n)), m)
  {
    var r := MergeFragments(Buffer(Prefix(cuts, n + 1), b.fragments));
    assert Add(b, Frag(cuts, n)) == r;
    LeftWaits(cuts, arrived, b.fragments, n, m, r.fragments);
    forall j | n < j < m ensures j in arrived { WaitingArrived(cuts, arrived, b.fragments, n, j); }
    if m + 1 < |cuts| { assert Frag(cuts, m) !in b.fragments; }
  }

  lemma AddKeeps(cuts: seq<Offset>, arrived: set<nat>, b: Buffer, n: nat, j: nat) returns (m: nat)
    requires Cuts(cuts) && Holds(cuts, arrived, b, n) && j + 1 < |cuts|
    ensures Holds(cuts, arrived + {j}, Add(b, Frag(cuts, j)), m)
  {
    m := n;
    if j == n {
      WaitingFrags(cuts, arrived, b.fragments, n);
      m := MergeFrags(cuts, n + 1, b.fragments);
      MergedHolds(cuts, arrived, b, n, m);
    } else {
      hide Waiting;
      if j < n {
        assert cuts[j] < cuts[j + 1] <= cuts[n];
        assert arrived + {j} == arrived;
      } else {
        assert cuts[n] < cuts[j] < cuts[j + 1];
        StoredWaits(cuts, arrived, b.fragments, n, j);
      }
    }
  }

  function Indices(arrivals: seq<nat>): set<nat> { set j | j in arrivals }

  lemma LastArrival(cuts: seq<Offset>, arrivals: seq<nat>)
    requires Cuts(cuts) && arrivals != [] && forall i :: 0 <= i < |arrivals| ==> arrivals[i] + 1 < |cuts|
    ensures var last, init := arrivals[|arrivals| - 1], arrivals[..|arrivals| - 1];
      Indices(arrivals) == Indices(init) + {last} &&
      AddAll(Frags(cuts, arrivals)) == Add(AddAll(Frags(cuts, init)), Frag(cuts, last))
  {
    var last, init := arrivals[|arrivals| - 1], arrivals[..|arrivals| - 1];
    assert arrivals == init + [last];
    var fs := Frags(cuts, arrivals);
    assert fs[..|fs| - 1] == Frags(cuts, init);
  }

  /** For every partition of a datagram and every order of arrival with any repetitions: the main
      region is the longest prefix that arrived, stored are just the fragments beyond the gap, and
      the datagram is complete exactly if all of it arrived. */
  lemma {:induction false} AnyOrder(cuts: seq<Offset>, arrivals: seq<nat>) returns (n: nat)
    requires Cuts(cuts) && forall i :: 0 <= i < |arrivals| ==> arrivals[i] + 1 < |cuts|
    ensures var b := AddAll(Frags(cuts, arrivals));
      Holds(cuts, Indices(arrivals), b, n) &&
      (Complete(b) <==> forall j :: 0 <= j && j + 1 < |cuts| ==> j in Indices(arrivals))
    decreases |arrivals|
  {
    if arrivals == [] {
      n := 0;
      NothingYet(cuts);
    } else {
      LastArrival(cuts, arrivals);
      var last, init := arrivals[|arrivals| - 1], arrivals[..|arrivals| - 1];
      hide Holds, Cuts, Indices, AddAll, Add;
      var k := AnyOrder(cuts, init);
      n := AddKeeps(cuts, Indices(init), AddAll(Frags(cuts, init)), k, last);
    }
    CompleteIff(cuts, Indices(arrivals), AddAll(Frags(cuts, arrivals)), n);
  }

  lemma {:induction false} NothingYet(cuts: seq<Offset>)
    requires Cuts(cuts)
    ensures Holds(cuts, Indices([]), AddAll(Frags(cuts, [])), 0)
  {
    assert Frags(cuts, []) == [];
  }

  lemma CompleteIff(cuts: seq<Offset>, arrived: set<nat>, b: Buffer, n: nat)
    requires Cuts(cuts) && Holds(cuts, arrived, b, n)
    ensures Complete(b) <==> forall j :: 0 <= j && j + 1 < |cuts| ==> j in arrived
  {
    hide Waiting;
    assert n + 1 < |cuts| ==> n !in arrived;
  }

  // ---------- arbitrary fragments ----------

  predicate Covers(f: Region, x: nat) { f.beg <= x < f.end }

  /** Everything in r was in some received fragment. */
  ghost predicate Received(r: Region, fs: seq<Region>) {
    r.beg <= r.end && forall x :: Covers(r, x) ==> exists f :: f in fs && Covers(f, x)
  }

  ghost predicate Sound(b: Buffer, fs: seq<Region>) {
    b.main.beg == 0 && Received(b.main, fs) && forall f :: f in b.fragments ==> f in fs && f.beg <= f.end
  }

  lemma TakeSound(main: Region, f: Region, fs: seq<Region>)
    requires main.beg == 0 && Received(main, fs) && f in fs && f.beg <= f.end && Take(main, f).Some?
    ensures Take(main, f).value.beg == 0 && Received(Take(main, f).value, fs)
  {
    var m := Take(main, f).value;
    forall x | Covers(m, x) ensures exists g :: g in fs && Covers(g, x) {
      if !Covers(main, x) { assert Covers(f, x); }
    }
  }

  lemma {:induction false} PassSound(main: Region, frags: seq<Region>, fs: seq<Region>)
    requires Sound(Buffer(main, frags), fs)
    ensures Sound(Pass(main, frags), fs)
    decreases |frags|
  {
    if frags != [] {
      var f := frags[0];
      assert f in frags;
      if Take(main, f).Some? {
        TakeSound(main, f, fs);
        PassSound(Take(main, f).value, frags[1..], fs);
      } else {
        PassSound(main, frags[1..], fs);
      }
    }
  }

  lemma {:induction false} MergeSound(b: Buffer, fs: seq<Region>)
    requires Sound(b, fs)
    ensures Sound(MergeFragments(b), fs)
    decreases |b.fragments|
  {
    PassSound(b.main, b.fragments, fs);
    var r := Pass(b.main, b.fragments);
    if |r.fragments| < |b.fragments| { MergeSound(r, fs); }
  }

  /** Whatever arrives, however it overlaps: no offset is taken for assembled that did not. */
  lemma {:induction false} NothingMadeUp(fs: seq<Region>)
    requires forall i :: 0 <= i < |fs| ==> fs[i].beg <= fs[i].end
    ensures Sound(AddAll(fs), fs)
    decreases |fs|
  {
    if fs != [] {
      var init, f := fs[..|fs| - 1], fs[|fs| - 1];
      assert fs == init + [f];
      var b := AddAll(init);
      NothingMadeUp(init);
      Larger(b, init, fs);
      assert f in fs;
      if b.main.end == f.beg || b.main.beg == f.end {
        TakeSound(b.main, f, fs);
        MergeSound(Buffer(Take(b.main, f).value, b.fragments), fs);
      }
    }
  }

  lemma Larger(b: Buffer, fs: seq<Region>, gs: seq<Region>)
    requires Sound(b, fs) && forall f :: f in fs ==> f in gs
    ensures Sound(b, gs)
  {
  }
}
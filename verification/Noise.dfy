/** computeNoise: the total interfering power over time as a map of power changes. */
module Noise {
  import opened Basics

  datatype Band = Band(carrier: real, bandwidth: real)

  datatype Reception = Reception(start: real, end: real, power: real, band: Band)

  /** A listening, and the background noise power on its band. */
  datatype Listening = Listening(start: real, end: real, band: Band, background: real)

  datatype NoiseOf = NoiseOf(start: real, end: real, changes: map<real, real>)

  const MAX_TIME: real := 9223372.036854775807

  predicate OverlappingBands(a: Band, b: Band) {
    a.carrier + a.bandwidth / 2.0 >= b.carrier - b.bandwidth / 2.0 &&
    a.carrier - a.bandwidth / 2.0 <= b.carrier + b.bandwidth / 2.0
  }

  predicate InBand(f: real, b: Band) { b.carrier - b.bandwidth / 2.0 <= f <= b.carrier + b.bandwidth / 2.0 }

  /** Two bands overlap exactly if they have a frequency in common. */
  lemma OverlapMeansCommonFrequency(a: Band, b: Band)
    requires a.bandwidth >= 0.0 && b.bandwidth >= 0.0
    ensures OverlappingBands(a, b) <==> exists f :: InBand(f, a) && InBand(f, b)
  {
    if OverlappingBands(a, b) {
      var low := a.carrier - a.bandwidth / 2.0;
      var other := b.carrier - b.bandwidth / 2.0;
      var f := if low < other then other else low;
      assert InBand(f, a) && InBand(f, b);
    }
  }

  /** Overlapping but not the same band is not supported. */
  predicate Unsupported(l: Listening, r: Reception) { r.band != l.band && OverlappingBands(l.band, r.band) }

  // ---------- sums over the keys of a map ----------

  lemma Inhabited(s: set<real>)
    requires s != {}
    ensures exists k :: k in s
  {
    assert (forall k :: k !in s) ==> s == {};
  }

  ghost function SumOver(m: map<real, real>, s: set<real>): real
    requires s <= m.Keys
    decreases |s|
  {
    if s == {} then 0.0
    else
      Inhabited(s);
      var k :| k in s;
      m[k] + SumOver(m, s - {k})
  }

  lemma {:induction false} SumOut(m: map<real, real>, s: set<real>, k: real)
    requires s <= m.Keys && k in s
    ensures SumOver(m, s) == m[k] + SumOver(m, s - {k})
    decreases |s|
  {
    var j :| j in s && SumOver(m, s) == m[j] + SumOver(m, s - {j});
    if j != k {
      SumOut(m, s - {j}, k);
      SumOut(m, s - {k}, j);
      assert s - {j} - {k} == s - {k} - {j};
    }
  }

  lemma {:induction false} SumSame(m: map<real, real>, m': map<real, real>, s: set<real>)
    requires s <= m.Keys && s <= m'.Keys && forall k :: k in s ==> m[k] == m'[k]
    ensures SumOver(m, s) == SumOver(m', s)
    decreases |s|
  {
    if s != {} {
      Inhabited(s);
      var k :| k in s;
      SumOut(m, s, k);
      SumOut(m', s, k);
      SumSame(m, m', s - {k});
    }
  }

  ghost function UpTo(m: map<real, real>, t: real): set<real> { set k | k in m && k <= t }

  /** The power at time t: the sum of all changes up to then. */
  ghost function PowerAt(m: map<real, real>, t: real): real { SumOver(m, UpTo(m, t)) }

  /** `+=` where there is a change already, insertion where there is none. */
  function Change(m: map<real, real>, at: real, p: real): map<real, real> { m[at := if at in m then m[at] + p else p] }

  lemma ChangeSum(m: map<real, real>, at: real, p: real, t: real)
    ensures PowerAt(Change(m, at, p), t) == PowerAt(m, t) + if at <= t then p else 0.0
  {
    var m', s, s' := Change(m, at, p), UpTo(m, t), UpTo(Change(m, at, p), t);
    if at <= t {
      SumOut(m', s', at);
      assert s' - {at} == s - {at};
      SumSame(m, m', s - {at});
      if at in m { SumOut(m, s, at); } else { assert s - {at} == s; }
    } else {
      assert s == s';
      SumSame(m, m', s);
    }
  }

  /** All changes together. */
  ghost function Sum(m: map<real, real>): real { SumOver(m, m.Keys) }

  lemma ChangeTotal(m: map<real, real>, at: real, p: real)
    ensures Sum(Change(m, at, p)) == Sum(m) + p
  {
    var m' := Change(m, at, p);
    SumOut(m', m'.Keys, at);
    assert m'.Keys - {at} == m.Keys - {at};
    SumSame(m, m', m.Keys - {at});
    if at in m { SumOut(m, m.Keys, at); } else { assert m.Keys - {at} == m.Keys; }
  }

  // ---------- what the power ought to be ----------

  predicate Counts(l: Listening, r: Reception) { r.band == l.band }

  /** The receptions on the listening's band that are on at time t. */
  function Active(l: Listening, rs: seq<Reception>, t: real): real {
    if rs == [] then 0.0
    else
      var r := rs[|rs| - 1];
      Active(l, rs[..|rs| - 1], t) + if Counts(l, r) && r.start <= t < r.end then r.power else 0.0
  }

  function Total(l: Listening, rs: seq<Reception>, t: real): real {
    Active(l, rs, t) + if l.start <= t < l.end then l.background else 0.0
  }

  /** Wherever a reception stands among the others, it adds its power while it is on; with none left there
      is the background. */
  lemma {:induction false} TotalMeans(l: Listening, xs: seq<Reception>, r: Reception, ys: seq<Reception>, t: real)
    ensures Total(l, xs + [r] + ys, t) ==
            Total(l, xs + ys, t) + if r.band == l.band && r.start <= t < r.end then r.power else 0.0
    ensures Total(l, [], t) == if l.start <= t < l.end then l.background else 0.0
    decreases |ys|
  {
    var with, without := xs + [r] + ys, xs + ys;
    if ys == [] {
      assert with[..|with| - 1] == xs == without;
    } else {
      var zs := ys[..|ys| - 1];
      assert with[..|with| - 1] == xs + [r] + zs && without[..|without| - 1] == xs + zs;
      TotalMeans(l, xs, r, zs, t);
    }
  }

  /** What listening adds: both changes at one time make only the first. */
  function Background(l: Listening, m: map<real, real>): map<real, real> {
    var first := Change(m, l.start, l.background);
    if l.start == l.end then first else Change(first, l.end, -l.background)
  }

  ghost predicate Exact(l: Listening, rs: seq<Reception>, changes: map<real, real>) {
    forall t :: PowerAt(changes, t) == Total(l, rs, t)
  }

  lemma BackgroundSum(l: Listening, m: map<real, real>, t: real)
    ensures PowerAt(Background(l, m), t) == PowerAt(m, t) + (if l.start <= t then l.background else 0.0) -
            (if l.end <= t && l.start != l.end then l.background else 0.0)
  {
    ChangeSum(m, l.start, l.background, t);
    ChangeSum(Change(m, l.start, l.background), l.end, -l.background, t);
  }

  /** The interferers alone, before the background is added. */
  ghost predicate Interference(l: Listening, rs: seq<Reception>, m: map<real, real>) {
    forall t :: PowerAt(m, t) == Active(l, rs, t)
  }

  /** The power over time is right exactly if the listening ends after it starts, or there is no
      background noise to leave behind. */
  lemma {:induction false} ExactIff(l: Listening, rs: seq<Reception>, m: map<real, real>)
    requires Interference(l, rs, m)
    ensures Exact(l, rs, Background(l, m)) <==> l.start < l.end || l.background == 0.0
  {
    forall t ensures PowerAt(Background(l, m), t) == Active(l, rs, t) + (if l.start <= t then l.background else 0.0) -
                     (if l.end <= t && l.start != l.end then l.background else 0.0)
    {
      BackgroundSum(l, m, t);
    }
    if !(l.start < l.end || l.background == 0.0) {
      assert PowerAt(Background(l, m), l.end) != Total(l, rs, l.end);
    }
  }

  /** Entering one reception's two changes adds it while it is on. */
  lemma Interferer(l: Listening, rs: seq<Reception>, r: Reception, m: map<real, real>)
    requires Interference(l, rs, m) && r.start <= r.end
    ensures Interference(l, rs + [r], if Counts(l, r) then Change(Change(m, r.start, r.power), r.end, -r.power) else m)
  {
    var m' := if Counts(l, r) then Change(Change(m, r.start, r.power), r.end, -r.power) else m;
    assert (rs + [r])[..|rs|] == rs;
    forall t ensures PowerAt(m', t) == Active(l, rs + [r], t) {
      if Counts(l, r) {
        ChangeSum(m, r.start, r.power, t);
        ChangeSum(Change(m, r.start, r.power), r.end, -r.power, t);
      }
    }
  }

  /** e is the first start of the receptions on the listening's band, MAX_TIME if none is before it. */
  ghost predicate FirstStart(l: Listening, rs: seq<Reception>, e: real) {
    e <= MAX_TIME && (forall i :: 0 <= i < |rs| && rs[i].band == l.band ==> e <= rs[i].start) &&
    (e == MAX_TIME || exists i :: 0 <= i < |rs| && rs[i].band == l.band && rs[i].start == e)
  }

  /** e is the last end of the receptions on the listening's band, zero if none is after it. */
  ghost predicate LastEnd(l: Listening, rs: seq<Reception>, e: real) {
    e >= 0.0 && (forall i :: 0 <= i < |rs| && rs[i].band == l.band ==> rs[i].end <= e) &&
    (e == 0.0 || exists i :: 0 <= i < |rs| && rs[i].band == l.band && rs[i].end == e)
  }

  lemma NothingYet(l: Listening)
    ensures FirstStart(l, [], MAX_TIME) && LastEnd(l, [], 0.0)
  {
  }

  lemma Bounded(l: Listening, rs: seq<Reception>, r: Reception, start: real, end: real)
    requires FirstStart(l, rs, start) && LastEnd(l, rs, end)
    ensures FirstStart(l, rs + [r], if r.band == l.band && r.start < start then r.start else start)
    ensures LastEnd(l, rs + [r], if r.band == l.band && r.end > end then r.end else end)
  {
    var ss := rs + [r];
    assert ss[|rs|] == r && forall i :: 0 <= i < |rs| ==> ss[i] == rs[i];
  }

  /** Before the noise starts and after it ends no interferer is on. */
  lemma {:induction false} QuietOutside(l: Listening, rs: seq<Reception>, start: real, end: real, t: real)
    requires FirstStart(l, rs, start) && LastEnd(l, rs, end) && (t < start || end <= t)
    ensures Active(l, rs, t) == 0.0
  {
    NoneActive(l, rs, t);
  }

  lemma {:induction false} NoneActive(l: Listening, rs: seq<Reception>, t: real)
    requires forall i :: 0 <= i < |rs| && rs[i].band == l.band ==> !(rs[i].start <= t < rs[i].end)
    ensures Active(l, rs, t) == 0.0
    decreases |rs|
  {
    if rs != [] { NoneActive(l, rs[..|rs| - 1], t); }
  }

  /** The sweep over the receptions, then the background. Reception ends never come before starts. */
  method ComputeNoise(l: Listening, rs: seq<Reception>) returns (noise: Option<NoiseOf>)
    requires forall i :: 0 <= i < |rs| ==> rs[i].start <= rs[i].end
    ensures noise == None <==> exists i :: 0 <= i < |rs| && Unsupported(l, rs[i])
    ensures noise.Some? ==> FirstStart(l, rs, noise.value.start) && LastEnd(l, rs, noise.value.end)
    ensures noise.Some? ==> (Exact(l, rs, noise.value.changes) <==> l.start < l.end || l.background == 0.0)
    ensures noise.Some? ==> (Sum(noise.value.changes) == 0.0 <==> l.start != l.end || l.background == 0.0)
  {
    hide FirstStart, LastEnd;
    var start, end := MAX_TIME, 0.0;
    NothingYet(l);
    var changes: map<real, real> := map[];
    assert Interference(l, [], changes);
    var i := 0;
    while i < |rs|
      invariant i <= |rs| && Interference(l, rs[..i], changes) && Sum(changes) == 0.0
      invariant FirstStart(l, rs[..i], start) && LastEnd(l, rs[..i], end)
      invariant forall j :: 0 <= j < i ==> !Unsupported(l, rs[j])
    {
      var r := rs[i];
      assert rs[..i + 1][..i] == rs[..i] && rs[..i + 1] == rs[..i] + [r];
      Interferer(l, rs[..i], r, changes);
      Bounded(l, rs[..i], r, start, end);
      if l.band == r.band {
        if r.start < start {
          start := r.start;
        }
        if r.end > end {
          end := r.end;
        }
        ChangeTotal(changes, r.start, r.power);
        ChangeTotal(Change(changes, r.start, r.power), r.end, -r.power);
        changes := Change(changes, r.start, r.power);
        changes := Change(changes, r.end, -r.power);
      } else if OverlappingBands(l.band, r.band) {
        return None;
      }
      i := i + 1;
    }
    assert rs[..i] == rs;
    ExactIff(l, rs, changes);
    ChangeTotal(changes, l.start, l.background);
    ChangeTotal(Change(changes, l.start, l.background), l.end, -l.background);
    var background := map[l.start := l.background];
    if l.end !in background {
      background := background[l.end := -l.background];
    }
    changes := Change(changes, l.start, background[l.start]);
    if l.end != l.start {
      changes := Change(changes, l.end, background[l.end]);
    }
    noise := Some(NoiseOf(start, end, changes));
  }
}

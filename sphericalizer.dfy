/**
 * The sphericalizer: turns the accumulator's per-(antenna, tag) means into
 * one spherical direction per tag. Each tag is seen by a back (base)
 * antenna, which gives the angles, and a front (auxiliary) antenna, whose
 * azimuth sign tells whether the tag is in front of or behind the base.
 */
module Sphericalizer {

  import Wrappers
  import opened HardwareDataManager
  import opened Saf
  import Hdm
  import UpdateAccumulator

  /** `std::f32::consts::PI`, the exact value of the single-precision float nearest to pi. */
  const PI: real := 3.1415927410125732421875

  const BACK_ANTENNA: Id := 118875763481542
  const FRONT_ANTENNA: Id := 118875763481510

  /** The largest angle, in radians, the antennas were observed to report (about 70 degrees). */
  const OBSERVED_MAX: real := 1.22173

  /** A configured tag: `(gain, range)`. */
  type TagSetting = (real, real)

  // ---------------------------------------------------------------------
  // Scaling one angle

  /** `f32::clamp`. */
  function Clamp(x: real, lo: real, hi: real): real
    requires lo <= hi
  {
    if x < lo then lo else if x > hi then hi else x
  }

  /** Stretches the observed range onto a quarter turn either side, clamping beyond it. */
  function ScaleAngle(azm: real): (r: real)
    ensures -PI / 2.0 <= r <= PI / 2.0
  {
    Clamp(azm * (PI / 2.0) / OBSERVED_MAX, -PI / 2.0, PI / 2.0)
  }

  /**
   * Within the observed range the scaling is exactly proportional (the edges
   * of the range land on plus and minus a quarter turn); beyond it the
   * result is held at the nearer bound; and the scaling is monotone and odd.
   */
  lemma ScaleAngleSpec(a: real, b: real)
    ensures -OBSERVED_MAX <= a <= OBSERVED_MAX ==> ScaleAngle(a) * OBSERVED_MAX == a * (PI / 2.0)
    ensures a >= OBSERVED_MAX ==> ScaleAngle(a) == PI / 2.0
    ensures a <= -OBSERVED_MAX ==> ScaleAngle(a) == -PI / 2.0
    ensures a <= b ==> ScaleAngle(a) <= ScaleAngle(b)
    ensures ScaleAngle(-a) == -ScaleAngle(a)
  {
  }

  // ---------------------------------------------------------------------
  // One tag's pair of readings

  /** The back-antenna azimuth after scaling and, when the front antenna sees the tag ahead, reflection. */
  function FacingAzimuth(back: Update, front: Update): real {
    if front.azm > 0.0 then PI - ScaleAngle(back.azm) else ScaleAngle(back.azm)
  }

  /** The metadata of one tag, as the per-pair closure of `query` builds it. */
  function Spherical(back: Update, front: Update, setting: TagSetting): (m: BufferMetadata)
    ensures 0.0 <= m.azimuth < 2.0 * PI
    ensures -PI / 2.0 <= m.elevation <= PI / 2.0
    ensures m.gain == setting.0 && m.range == setting.1
  {
    var rotated := FacingAzimuth(back, front) - 1.5 * PI;
    var azimuth := if rotated < 0.0 then rotated + 2.0 * PI else rotated;
    BufferMetadata(azimuth, ScaleAngle(back.elv), setting.1, setting.0)
  }

  /**
   * The azimuth is the (possibly reflected) scaled back azimuth turned by
   * -3/2 pi, or by +1/2 pi where that is needed to bring it into [0, 2 pi);
   * the elevation is the scaled back elevation only; the front reading
   * contributes nothing but the sign of its azimuth.
   */
  lemma SphericalSpec(back: Update, front: Update, setting: TagSetting)
    ensures var m := Spherical(back, front, setting);
      && (m.azimuth == FacingAzimuth(back, front) - 1.5 * PI || m.azimuth == FacingAzimuth(back, front) + 0.5 * PI)
      && m.elevation == ScaleAngle(back.elv)
    ensures forall other: Update :: (other.azm > 0.0 <==> front.azm > 0.0) ==> Spherical(back, other, setting) == Spherical(back, front, setting)
  {
  }

  /** The reflection happens exactly when the front azimuth is positive; zero is not reflected. */
  lemma ReflectionSpec(back: Update, front: Update)
    ensures front.azm > 0.0 ==> FacingAzimuth(back, front) == PI - ScaleAngle(back.azm)
    ensures front.azm <= 0.0 ==> FacingAzimuth(back, front) == ScaleAngle(back.azm)
    ensures front.azm > 0.0 ==> PI / 2.0 <= FacingAzimuth(back, front) <= 1.5 * PI
    ensures front.azm <= 0.0 ==> -PI / 2.0 <= FacingAzimuth(back, front) <= PI / 2.0
  {
  }

  /** The per-pair closure, updating the azimuth step by step. */
  method SphericalizePair(back: Update, front: Update, setting: TagSetting) returns (m: BufferMetadata)
    ensures m == Spherical(back, front, setting)
  {
    var (gain, range) := setting;
    m := BufferMetadata(ScaleAngle(back.azm), ScaleAngle(back.elv), range, gain);
    if front.azm > 0.0 {
      m := m.(azimuth := PI - m.azimuth);
    }
    m := m.(azimuth := m.azimuth - 1.5 * PI);
    if m.azimuth < 0.0 {
      m := m.(azimuth := m.azimuth + 2.0 * PI);
    }
  }

  // ---------------------------------------------------------------------
  // Sorting by tag

  ghost predicate SortedByDst(s: seq<Update>) {
    forall i, j :: 0 <= i < j < |s| ==> s[i].dst <= s[j].dst
  }

  /** Places `u` before the first element whose tag is not smaller. */
  function InsertByDst(u: Update, s: seq<Update>): (r: seq<Update>)
    ensures multiset(r) == multiset(s) + multiset{u}
    ensures |r| == |s| + 1
    decreases |s|
  {
    if s == [] || u.dst <= s[0].dst then [u] + s
    else assert s == [s[0]] + s[1..]; [s[0]] + InsertByDst(u, s[1..])
  }

  /** `sort_by` on the tag id: a stable insertion sort. */
  function SortByDst(us: seq<Update>): (r: seq<Update>)
    ensures multiset(r) == multiset(us)
    ensures |r| == |us|
    decreases |us|
  {
    if us == [] then [] else assert us == [us[0]] + us[1..]; InsertByDst(us[0], SortByDst(us[1..]))
  }

  /** A sequence holding the elements of `s` and `u` keeps any lower bound on their tags. */
  lemma LowerBoundKept(u: Update, s: seq<Update>, t: seq<Update>, lo: nat)
    requires multiset(t) == multiset(s) + multiset{u}
    requires lo <= u.dst && forall k :: 0 <= k < |s| ==> lo <= s[k].dst
    ensures forall k :: 0 <= k < |t| ==> lo <= t[k].dst
  {
    forall k | 0 <= k < |t|
      ensures lo <= t[k].dst
    {
      assert t[k] in multiset(t);
      if t[k] != u {
        assert t[k] in multiset(s);
      }
    }
  }

  lemma {:induction false} InsertByDstSorted(u: Update, s: seq<Update>)
    requires SortedByDst(s)
    ensures SortedByDst(InsertByDst(u, s))
    decreases |s|
  {
    if s != [] && u.dst > s[0].dst {
      var t := InsertByDst(u, s[1..]);
      assert SortedByDst(t) by { InsertByDstSorted(u, s[1..]); }
      assert forall k :: 0 <= k < |t| ==> s[0].dst <= t[k].dst by {
        LowerBoundKept(u, s[1..], t, s[0].dst);
      }
      assert InsertByDst(u, s) == [s[0]] + t;
    }
  }

  /** The sort yields the same updates ordered by tag. */
  lemma {:induction false} SortByDstSorted(us: seq<Update>)
    ensures SortedByDst(SortByDst(us))
    decreases |us|
  {
    if us != [] {
      SortByDstSorted(us[1..]);
      InsertByDstSorted(us[0], SortByDst(us[1..]));
    }
  }

  lemma SortedChunks(s: seq<Update>, i: nat, j: nat, a: nat, b: nat)
    requires SortedByDst(s) && i < j && 2 * j + 2 <= |s| && a < 2 && b < 2
    ensures Chunk(s, i)[a].dst <= Chunk(s, j)[b].dst
  {
    assert Chunk(s, i)[a] == s[2 * i + a];
    assert Chunk(s, j)[b] == s[2 * j + b];
  }

  /** Chunks follow the sorted order: every reading of an earlier chunk has a tag no greater than any of a later one. */
  lemma ChunksAscend(us: seq<Update>, i: nat, j: nat, a: nat, b: nat)
    requires i < j && 2 * j + 2 <= |us| && a < 2 && b < 2
    ensures Chunk(SortByDst(us), i)[a].dst <= Chunk(SortByDst(us), j)[b].dst
  {
    SortByDstSorted(us);
    SortedChunks(SortByDst(us), i, j, a, b);
  }

  // ---------------------------------------------------------------------
  // `query`

  /** `iter().find(|u| u.src == src)`: the first update from antenna `src`. */
  function Find(pair: seq<Update>, src: Id): (r: Wrappers.Option<Update>)
    ensures r.Some? ==> r.value in pair && r.value.src == src
    ensures r.None? <==> forall i :: 0 <= i < |pair| ==> pair[i].src != src
    decreases |pair|
  {
    if pair == [] then Wrappers.None
    else if pair[0].src == src then Wrappers.Some(pair[0])
    else Find(pair[1..], src)
  }

  /** `find` returns the first update from antenna `src`: the one at the first index where it occurs. */
  lemma {:induction false} FindFirst(pair: seq<Update>, src: Id, i: nat)
    requires i < |pair| && pair[i].src == src
    requires forall j :: 0 <= j < i ==> pair[j].src != src
    ensures Find(pair, src) == Wrappers.Some(pair[i])
    decreases i
  {
    if i > 0 {
      assert pair[0].src != src;
      FindFirst(pair[1..], src, i - 1);
    }
  }

  /** The outcome of `query`; a missing antenna in a pair is a panic (`expect`). */
  datatype QueryOutcome =
    | NotReady
    | Ready(metadata: seq<BufferMetadata>)
    | MissingBack(pair: nat)
    | MissingFront(pair: nat)

  /** The `i`-th chunk of two of the sorted updates. */
  function Chunk(sorted: seq<Update>, i: nat): seq<Update>
    requires 2 * i + 2 <= |sorted|
  {
    sorted[2 * i..2 * i + 2]
  }

  predicate Complete(sorted: seq<Update>, i: nat)
    requires 2 * i + 2 <= |sorted|
  {
    Find(Chunk(sorted, i), BACK_ANTENNA).Some? && Find(Chunk(sorted, i), FRONT_ANTENNA).Some?
  }

  /** Each of the first `n` chunks has a back and a front reading. */
  predicate AllComplete(sorted: seq<Update>, n: nat)
    requires 2 * n <= |sorted|
  {
    forall i :: 0 <= i < n ==> Complete(sorted, i)
  }

  /** The metadata of tag `i`, from the `i`-th chunk and the `i`-th setting. */
  function TagMetadata(sorted: seq<Update>, settings: seq<TagSetting>, i: nat): BufferMetadata
    requires i < |settings| && 2 * i + 2 <= |sorted| && Complete(sorted, i)
  {
    Spherical(Find(Chunk(sorted, i), BACK_ANTENNA).value, Find(Chunk(sorted, i), FRONT_ANTENNA).value, settings[i])
  }

  /** Tag `i` takes its gain and range from setting `i` and its elevation from the back reading of pair `i`. */
  lemma TagMetadataSpec(sorted: seq<Update>, settings: seq<TagSetting>, i: nat)
    requires i < |settings| && 2 * i + 2 <= |sorted| && Complete(sorted, i)
    ensures var m := TagMetadata(sorted, settings, i);
      && m.gain == settings[i].0 && m.range == settings[i].1
      && m.elevation == ScaleAngle(Find(Chunk(sorted, i), BACK_ANTENNA).value.elv)
      && 0.0 <= m.azimuth < 2.0 * PI
  {
    SphericalSpec(Find(Chunk(sorted, i), BACK_ANTENNA).value, Find(Chunk(sorted, i), FRONT_ANTENNA).value, settings[i]);
  }

  class Sphericalizer {
    const tagSettings: seq<TagSetting>

    constructor (tagSettings: seq<TagSetting>)
      ensures this.tagSettings == tagSettings
    {
      this.tagSettings := tagSettings;
    }

    /**
     * `query` after the accumulator was read: ready only with exactly two
     * readings per configured tag; then one metadata entry per tag, in
     * ascending tag order, each from its pair's back and front readings.
     */
    method Sphericalize(snapshot: seq<Update>) returns (r: QueryOutcome)
      ensures r.NotReady? <==> |snapshot| != 2 * |tagSettings|
      ensures !r.NotReady? ==> var sorted := SortByDst(snapshot);
        && (r.Ready? <==> AllComplete(sorted, |tagSettings|))
        && (r.Ready? ==>
              |r.metadata| == |tagSettings|
              && forall i :: 0 <= i < |tagSettings| ==> r.metadata[i] == TagMetadata(sorted, tagSettings, i))
        && (r.MissingBack? || r.MissingFront? ==>
              && r.pair < |tagSettings|
              && (forall j :: 0 <= j < r.pair ==> Complete(sorted, j))
              && !Complete(sorted, r.pair)
              && (r.MissingBack? <==> Find(Chunk(sorted, r.pair), BACK_ANTENNA).None?))
    {
      if |snapshot| != 2 * |tagSettings| {
        return NotReady;
      }
      var sorted := SortByDst(snapshot);
      var metadata := [];
      var i := 0;
      while i < |tagSettings|
        invariant 0 <= i <= |tagSettings| && |metadata| == i && |sorted| == 2 * |tagSettings|
        invariant forall j :: 0 <= j < i ==> Complete(sorted, j) && metadata[j] == TagMetadata(sorted, tagSettings, j)
      {
        var pair := sorted[2 * i..2 * i + 2];
        assert pair == Chunk(sorted, i);
        var back := Find(pair, BACK_ANTENNA);
        if back.None? {
          assert !Complete(sorted, i);
          return MissingBack(i);
        }
        var front := Find(pair, FRONT_ANTENNA);
        if front.None? {
          assert !Complete(sorted, i);
          return MissingFront(i);
        }
        var m := SphericalizePair(back.value, front.value, tagSettings[i]);
        assert Complete(sorted, i) && m == TagMetadata(sorted, tagSettings, i);
        metadata := metadata + [m];
        i := i + 1;
      }
      r := Ready(metadata);
    }

    /**
     * `query`: reads the accumulator, which drains the buffer and updates
     * the windows whether or not the result is ready, then sphericalizes
     * the snapshot.
     */
    method Query(acc: UpdateAccumulator.UpdateAccumulator, hdm: Hdm.Hdm) returns (r: QueryOutcome)
      requires acc.Valid()
      modifies acc, hdm
      ensures acc.Valid() && hdm.msgs == []
      ensures acc.windows == UpdateAccumulator.TrimAll(UpdateAccumulator.Ingest(old(acc.windows), old(hdm.msgs)))
      ensures r.NotReady? <==> |UpdateAccumulator.Ingest(old(acc.windows), old(hdm.msgs)).Keys| != 2 * |tagSettings|
      ensures r.Ready? ==> |r.metadata| == |tagSettings|
      ensures r.MissingBack? || r.MissingFront? ==> r.pair < |tagSettings|
    {
      var snapshot := acc.GetStatus(hdm);
      UpdateAccumulator.SnapshotSize(snapshot, UpdateAccumulator.Ingest(old(acc.windows), old(hdm.msgs)));
      r := Sphericalize(snapshot);
    }
  }
}

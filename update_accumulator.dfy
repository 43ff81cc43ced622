/**
 * The update accumulator: drains the sensor buffer into one window of
 * updates per (antenna, tag) pair, reports the mean of the most recent
 * updates of every window, and trims every window to that length.
 */
module UpdateAccumulator {

  import opened HardwareDataManager
  import Hdm

  /** At most this many of a window's most recent updates are averaged and kept. */
  const WINDOW: nat := 50

  type Key = (Id, Id)

  /** `accumulated_updates`: each window lists its updates oldest first. */
  type Windows = map<Key, seq<Update>>

  /** Every window is non-empty and holds only updates of its own key. */
  ghost predicate WellKeyed(w: Windows) {
    forall k :: k in w ==> w[k] != [] && forall i :: 0 <= i < |w[k]| ==> KeyOf(w[k][i]) == k
  }

  ghost predicate Bounded(w: Windows) {
    forall k :: k in w ==> |w[k]| <= WINDOW
  }

  // ---------------------------------------------------------------------
  // Appending drained updates to their windows

  /** One drained update: a new window of that update if its key is new, else appended at the back. */
  function Insert(w: Windows, u: Update): Windows {
    if KeyOf(u) !in w then w[KeyOf(u) := [u]] else w[KeyOf(u) := w[KeyOf(u)] + [u]]
  }

  /** The windows after the updates `us` were drained, in that order. */
  function Ingest(w: Windows, us: seq<Update>): (r: Windows)
    ensures w.Keys <= r.Keys
    ensures forall k :: k in w ==> w[k] <= r[k]
    ensures forall i :: 0 <= i < |us| ==> KeyOf(us[i]) in r
    decreases |us|
  {
    if us == [] then w else Insert(Ingest(w, us[..|us| - 1]), us[|us| - 1])
  }

  /** The updates of `us` with key `k`, in order. */
  function Matching(us: seq<Update>, k: Key): (r: seq<Update>)
    ensures forall i :: 0 <= i < |r| ==> KeyOf(r[i]) == k
    decreases |us|
  {
    if us == [] then []
    else if KeyOf(us[|us| - 1]) == k then Matching(us[..|us| - 1], k) + [us[|us| - 1]]
    else Matching(us[..|us| - 1], k)
  }

  /**
   * Draining appends, to each key's window, exactly that key's updates in
   * drain order; a window appears when its first update does and no other
   * window changes.
   */
  lemma {:induction false} IngestPerKey(w: Windows, us: seq<Update>, k: Key)
    ensures k in Ingest(w, us) <==> k in w || Matching(us, k) != []
    ensures k in Ingest(w, us) ==> Ingest(w, us)[k] == (if k in w then w[k] else []) + Matching(us, k)
    decreases |us|
  {
    if us != [] {
      IngestPerKey(w, us[..|us| - 1], k);
    }
  }

  lemma {:induction false} IngestConcat(w: Windows, a: seq<Update>, b: seq<Update>)
    ensures Ingest(w, a + b) == Ingest(Ingest(w, a), b)
    decreases |b|
  {
    if b == [] {
      assert a + b == a;
    } else {
      assert (a + b)[..|a + b| - 1] == a + b[..|b| - 1];
      IngestConcat(w, a, b[..|b| - 1]);
    }
  }

  /** Draining keeps every window non-empty and holding its own key only; no window is removed. */
  lemma {:induction false} IngestWellKeyed(w: Windows, us: seq<Update>)
    requires WellKeyed(w)
    ensures WellKeyed(Ingest(w, us))
    ensures w.Keys <= Ingest(w, us).Keys
    decreases |us|
  {
    if us != [] {
      IngestWellKeyed(w, us[..|us| - 1]);
    }
  }

  /**
   * Because the buffer hands out the newest update first, the updates added
   * to it since the last drain reach their windows in reverse arrival order.
   */
  lemma ReverseArrival(w: Windows, q: seq<Update>, us: seq<Update>, k: Key)
    ensures Ingest(w, Hdm.AddAll(q, us)) == Ingest(Ingest(w, Hdm.Reversed(us)), q)
    ensures k in Ingest(w, Hdm.AddAll(q, us)) && k in w ==>
      Ingest(w, Hdm.AddAll(q, us))[k] == w[k] + Matching(Hdm.Reversed(us) + q, k)
  {
    Hdm.AddAllReverses(q, us);
    IngestConcat(w, Hdm.Reversed(us), q);
    IngestPerKey(w, Hdm.Reversed(us) + q, k);
  }

  // ---------------------------------------------------------------------
  // The most recent updates of a window and their mean

  /** The last `min(|v|, WINDOW)` updates of a window, in their original order. */
  function Latest(v: seq<Update>): seq<Update> {
    if |v| <= WINDOW then v else v[|v| - WINDOW..]
  }

  lemma LatestIsRecent(v: seq<Update>)
    ensures |Latest(v)| == if |v| <= WINDOW then |v| else WINDOW
    ensures v == v[..|v| - |Latest(v)|] + Latest(v)
    ensures Latest(Latest(v)) == Latest(v)
  {
  }

  /** Entries older than the most recent WINDOW do not matter. */
  lemma LatestIgnoresOlder(older: seq<Update>, v: seq<Update>)
    requires |v| >= WINDOW
    ensures Latest(older + v) == Latest(v)
  {
    assert (older + v)[|older + v| - WINDOW..] == v[|v| - WINDOW..];
  }

  datatype Axis = Elv | Azm

  function Angle(u: Update, a: Axis): real {
    match a
    case Elv => u.elv
    case Azm => u.azm
  }

  function Sum(s: seq<Update>, a: Axis): real
    decreases |s|
  {
    if s == [] then 0.0 else Angle(s[0], a) + Sum(s[1..], a)
  }

  /** The reported update of a window: its newest update's pair, with the mean angles of its latest updates. */
  function WindowMean(v: seq<Update>): (m: Update)
    requires v != []
    ensures KeyOf(m) == KeyOf(v[|v| - 1])
    ensures m.elv * |Latest(v)| as real == Sum(Latest(v), Elv)
    ensures m.azm * |Latest(v)| as real == Sum(Latest(v), Azm)
  {
    var n := |Latest(v)| as real;
    Update(v[|v| - 1].src, v[|v| - 1].dst, Sum(Latest(v), Elv) / n, Sum(Latest(v), Azm) / n)
  }

  lemma {:induction false} SumBounds(s: seq<Update>, a: Axis, lo: real, hi: real)
    requires forall i :: 0 <= i < |s| ==> lo <= Angle(s[i], a) <= hi
    ensures |s| as real * lo <= Sum(s, a) <= |s| as real * hi
    decreases |s|
  {
    if s != [] {
      SumBounds(s[1..], a, lo, hi);
    }
  }

  lemma DivBounds(x: real, n: real, lo: real, hi: real)
    requires n > 0.0 && n * lo <= x <= n * hi
    ensures lo <= x / n <= hi
  {
    assert x / n * n == x;
  }

  lemma AverageBounds(s: seq<Update>, a: Axis, lo: real, hi: real)
    requires s != []
    requires forall i :: 0 <= i < |s| ==> lo <= Angle(s[i], a) <= hi
    ensures lo <= Sum(s, a) / |s| as real <= hi
  {
    SumBounds(s, a, lo, hi);
    DivBounds(Sum(s, a), |s| as real, lo, hi);
  }

  /** A reported angle is the mean of the window's latest angles, so it lies between their least and greatest. */
  lemma MeanBounds(v: seq<Update>, a: Axis, lo: real, hi: real)
    requires v != []
    requires forall i :: 0 <= i < |Latest(v)| ==> lo <= Angle(Latest(v)[i], a) <= hi
    ensures lo <= Angle(WindowMean(v), a) <= hi
  {
    AverageBounds(Latest(v), a, lo, hi);
    MeanAngle(v, a);
  }

  lemma MeanAngle(v: seq<Update>, a: Axis)
    requires v != []
    ensures Angle(WindowMean(v), a) == Sum(Latest(v), a) / |Latest(v)| as real
  {
    match a
    case Elv =>
    case Azm =>
  }

  /** A reported update carries its window's key. */
  lemma MeanKey(w: Windows, k: Key)
    requires WellKeyed(w) && k in w
    ensures KeyOf(WindowMean(w[k])) == k
  {
    assert KeyOf(w[k][|w[k]| - 1]) == k;
  }

  /** Trimming a window first does not change its mean; neither do entries older than the latest WINDOW. */
  lemma MeanOfLatest(older: seq<Update>, v: seq<Update>)
    requires v != []
    ensures WindowMean(Latest(v)) == WindowMean(v)
    ensures |v| >= WINDOW ==> WindowMean(older + v) == WindowMean(v)
  {
    LatestIsRecent(v);
    if |v| >= WINDOW {
      LatestIgnoresOlder(older, v);
      assert (older + v)[|older + v| - 1] == v[|v| - 1];
    }
  }

  /** `values().map(..)` for one window: the mean of its latest updates. */
  method MeanOf(v: seq<Update>) returns (m: Update)
    requires v != []
    ensures m == WindowMean(v)
  {
    var newest := v[|v| - 1];
    var taken := if |v| < WINDOW then |v| else WINDOW;
    var elv := newest.elv;
    var azm := newest.azm;
    var i := |v| - 1;
    assert v[i..] == [newest];
    while i > |v| - taken
      invariant |v| - taken <= i <= |v| - 1
      invariant elv == Sum(v[i..], Elv) && azm == Sum(v[i..], Azm)
    {
      i := i - 1;
      assert v[i..][1..] == v[i + 1..];
      elv := elv + v[i].elv;
      azm := azm + v[i].azm;
    }
    assert v[i..] == Latest(v);
    m := Update(newest.src, newest.dst, elv / taken as real, azm / taken as real);
  }

  // ---------------------------------------------------------------------
  // Trimming

  /** Every window cut down to its latest WINDOW updates. */
  function TrimAll(w: Windows): (r: Windows)
    ensures r.Keys == w.Keys && Bounded(r)
    ensures forall k :: k in w ==> |r[k]| <= |w[k]| && w[k] == w[k][..|w[k]| - |r[k]|] + r[k]
  {
    map k | k in w :: Latest(w[k])
  }

  lemma TrimAllKeeps(w: Windows)
    requires WellKeyed(w)
    ensures WellKeyed(TrimAll(w)) && Bounded(TrimAll(w))
    ensures TrimAll(w).Keys == w.Keys
    ensures forall k :: k in w && |w[k]| <= WINDOW ==> TrimAll(w)[k] == w[k]
  {
    forall k | k in w
      ensures TrimAll(w)[k] != [] && |TrimAll(w)[k]| <= WINDOW
      ensures forall i :: 0 <= i < |TrimAll(w)[k]| ==> KeyOf(TrimAll(w)[k][i]) == k
    {
      LatestIsRecent(w[k]);
      var d := |w[k]| - |Latest(w[k])|;
      forall i | 0 <= i < |TrimAll(w)[k]|
        ensures KeyOf(TrimAll(w)[k][i]) == k
      {
        assert TrimAll(w)[k][i] == w[k][d + i];
      }
    }
  }

  // ---------------------------------------------------------------------
  // The result of `get_status`

  function KeysOf(res: seq<Update>): (ks: seq<Key>)
    ensures |ks| == |res|
    decreases |res|
  {
    if res == [] then [] else KeysOf(res[..|res| - 1]) + [KeyOf(res[|res| - 1])]
  }

  ghost predicate Distinct(ks: seq<Key>) {
    forall i, j :: 0 <= i < j < |ks| ==> ks[i] != ks[j]
  }

  /** `res` holds, in some order, one update per window of `w`: the mean of that window. */
  ghost predicate IsSnapshot(res: seq<Update>, w: Windows) {
    var ks := KeysOf(res);
    Distinct(ks)
    && (forall k :: k in w <==> k in ks)
    && forall i :: 0 <= i < |res| ==> ks[i] in w && w[ks[i]] != [] && res[i] == WindowMean(w[ks[i]])
  }

  lemma {:induction false} DistinctCard(ks: seq<Key>)
    requires Distinct(ks)
    ensures |set k | k in ks| == |ks|
    decreases |ks|
  {
    if ks != [] {
      var init := ks[..|ks| - 1];
      DistinctCard(init);
      assert (set k | k in ks) == (set k | k in init) + {ks[|ks| - 1]};
    }
  }

  /** A snapshot has exactly as many updates as there are windows. */
  lemma SnapshotSize(res: seq<Update>, w: Windows)
    requires IsSnapshot(res, w)
    ensures |res| == |w.Keys|
  {
    var ks := KeysOf(res);
    DistinctCard(ks);
    assert (set k | k in ks) == w.Keys;
  }

  /** `values().map(..).collect()`: one mean per window, in the map's iteration order. */
  method Means(w: Windows) returns (res: seq<Update>)
    requires WellKeyed(w)
    ensures IsSnapshot(res, w)
  {
    res := [];
    var pending := w.Keys;
    ghost var ks: seq<Key> := [];
    while pending != {}
      invariant pending <= w.Keys && ks == KeysOf(res)
      invariant Distinct(ks)
      invariant forall k :: k in w ==> (k in pending <==> k !in ks)
      invariant forall i :: 0 <= i < |res| ==> ks[i] in w && w[ks[i]] != [] && res[i] == WindowMean(w[ks[i]])
      decreases pending
    {
      var k :| k in pending;
      var m := MeanOf(w[k]);
      assert KeyOf(m) == k by { MeanKey(w, k); }
      assert KeysOf(res + [m]) == ks + [k] by {
        assert (res + [m])[..|res|] == res;
      }
      assert k !in ks;
      assert w[k] != [] && m == WindowMean(w[k]);
      ghost var res0, ks0 := res, ks;
      res := res + [m];
      ks := ks + [k];
      pending := pending - {k};
      forall i | 0 <= i < |res|
        ensures ks[i] in w && w[ks[i]] != [] && res[i] == WindowMean(w[ks[i]])
      {
        if i < |res0| {
          assert ks[i] == ks0[i] && res[i] == res0[i];
        }
      }
    }
  }

  class UpdateAccumulator {
    var windows: Windows

    ghost predicate Valid()
      reads this
    {
      WellKeyed(windows) && Bounded(windows)
    }

    constructor ()
      ensures windows == map[] && Valid()
    {
      windows := map[];
    }

    /**
     * `get_status`: drains `hdm`, appending every update to its window,
     * reports one mean per window and trims the windows.
     */
    method GetStatus(hdm: Hdm.Hdm) returns (res: seq<Update>)
      requires Valid()
      modifies this, hdm
      ensures Valid()
      ensures hdm.msgs == []
      ensures IsSnapshot(res, Ingest(old(windows), old(hdm.msgs)))
      ensures windows == TrimAll(Ingest(old(windows), old(hdm.msgs)))
    {
      ghost var drained := Ingest(windows, hdm.msgs);
      assert WellKeyed(drained) by { IngestWellKeyed(windows, hdm.msgs); }
      Drain(hdm);
      res := Means(windows);
      TrimWindows();
      assert WellKeyed(windows) by { TrimAllKeeps(drained); }
    }

    /** The `for update in hdm` loop: every buffered update goes to the back of its window. */
    method Drain(hdm: Hdm.Hdm)
      modifies this, hdm
      ensures hdm.msgs == []
      ensures windows == Ingest(old(windows), old(hdm.msgs))
    {
      ghost var n: nat := 0;
      var next := hdm.Next();
      while next.Some?
        invariant next.Some? ==> n < |old(hdm.msgs)| && next.value == old(hdm.msgs)[n] && hdm.msgs == old(hdm.msgs)[n + 1..]
        invariant next.None? ==> n == |old(hdm.msgs)| && hdm.msgs == []
        invariant windows == Ingest(old(windows), old(hdm.msgs)[..n])
        decreases |hdm.msgs| + (if next.Some? then 1 else 0)
      {
        var u := next.value;
        var key := (u.src, u.dst);
        if key !in windows {
          windows := windows[key := [u]];
        } else {
          windows := windows[key := windows[key] + [u]];
        }
        assert old(hdm.msgs)[..n + 1][..n] == old(hdm.msgs)[..n];
        n := n + 1;
        next := hdm.Next();
      }
      assert old(hdm.msgs)[..n] == old(hdm.msgs);
    }

    /** The `values_mut` loop: a window longer than WINDOW drops its oldest entries. */
    method TrimWindows()
      modifies this
      ensures windows == TrimAll(old(windows))
    {
      ghost var w0 := windows;
      var untrimmed := windows.Keys;
      while untrimmed != {}
        invariant untrimmed <= w0.Keys && windows.Keys == w0.Keys
        invariant forall k :: k in w0 ==> windows[k] == if k in untrimmed then w0[k] else Latest(w0[k])
        decreases untrimmed
      {
        var k :| k in untrimmed;
        var v := windows[k];
        assert v == w0[k];
        if |v| > WINDOW {
          windows := windows[k := v[|v| - WINDOW..]];
        }
        assert windows[k] == Latest(w0[k]);
        untrimmed := untrimmed - {k};
      }
      assert windows == TrimAll(old(windows));
    }
  }
}

/**
 * ObjectDetector.detect: the recognitions returned by the detection model are
 * filtered (confidence at least MINIMUM_CONFIDENCE_TF_OD_API, title "person"),
 * their boxes are folded into one union rectangle, the union is mapped from
 * model-input space to frame space, rounded to integers and clamped to the
 * frame.
 */
module Detection {
  import opened Geometry

  /** Detector.Recognition: a label, a confidence and a box in model-input space. */
  datatype Recognition = Recognition(title: string, confidence: real, location: RectF)

  /** The only title whose boxes count. */
  const PersonTitle: string := "person"

  /**
   * MINIMUM_CONFIDENCE_TF_OD_API = 0.6f: the binary32 value nearest 0.6,
   * written out exactly (confidences are the reals their floats denote).
   */
  const MinimumConfidence: real := 0.60000002384185791015625

  /** The filter of detect: confidence at or above the threshold, title exactly "person". */
  predicate Qualifies(r: Recognition) {
    r.confidence >= MinimumConfidence && r.title == PersonTitle
  }

  /** A recognition whose box changes the union: it qualifies and its box has area. */
  predicate Contributes(r: Recognition) {
    Qualifies(r) && IsNonEmpty(r.location)
  }

  /** One iteration of the loop in detect. */
  function Accumulate(acc: RectF, r: Recognition): RectF {
    if Qualifies(r) then Union(acc, r.location) else acc
  }

  /** The union accumulated by detect's loop over `rs`, starting from the empty rectangle. */
  function UnionOf(rs: seq<Recognition>): RectF
    decreases |rs|
  {
    if rs == [] then EmptyF else Accumulate(UnionOf(rs[..|rs| - 1]), rs[|rs| - 1])
  }

  /** Without a contributing recognition the union stays (0, 0, 0, 0); with one it has area. */
  lemma {:induction false} UnionOfEmpty(rs: seq<Recognition>)
    ensures (forall i :: 0 <= i < |rs| ==> !Contributes(rs[i])) <==> UnionOf(rs) == EmptyF
    ensures (exists i :: 0 <= i < |rs| && Contributes(rs[i])) <==> IsNonEmpty(UnionOf(rs))
    decreases |rs|
  {
    if rs != [] {
      var init := rs[..|rs| - 1];
      UnionOfEmpty(init);
      if exists i :: 0 <= i < |init| && Contributes(init[i]) {
        var i :| 0 <= i < |init| && Contributes(init[i]);
        assert Contributes(rs[i]);
      }
      if exists i :: 0 <= i < |rs| && Contributes(rs[i]) {
        var i :| 0 <= i < |rs| && Contributes(rs[i]);
        if i < |init| {
          assert Contributes(init[i]);
        }
      } else {
        forall i | 0 <= i < |init| ensures !Contributes(init[i]) {
          assert init[i] == rs[i];
        }
      }
    }
  }

  /** The union encloses the box of every contributing recognition. */
  lemma {:induction false} UnionOfEncloses(rs: seq<Recognition>, k: int)
    requires 0 <= k < |rs| && Contributes(rs[k])
    ensures IsNonEmpty(UnionOf(rs)) && Encloses(UnionOf(rs), rs[k].location)
    decreases |rs|
  {
    var init := rs[..|rs| - 1];
    if k < |rs| - 1 {
      assert init[k] == rs[k];
      UnionOfEncloses(init, k);
    }
  }

  /** Each edge of a union with area is an edge of some contributing box. */
  lemma {:induction false} UnionOfTight(rs: seq<Recognition>)
    requires IsNonEmpty(UnionOf(rs))
    ensures exists i :: 0 <= i < |rs| && Contributes(rs[i]) && rs[i].location.left == UnionOf(rs).left
    ensures exists i :: 0 <= i < |rs| && Contributes(rs[i]) && rs[i].location.top == UnionOf(rs).top
    ensures exists i :: 0 <= i < |rs| && Contributes(rs[i]) && rs[i].location.right == UnionOf(rs).right
    ensures exists i :: 0 <= i < |rs| && Contributes(rs[i]) && rs[i].location.bottom == UnionOf(rs).bottom
    decreases |rs|
  {
    var n := |rs| - 1;
    var init := rs[..n];
    var acc := UnionOf(init);
    var u := UnionOf(rs);
    if !Contributes(rs[n]) {
      assert u == acc;
      UnionOfTight(init);
      LiftWitnesses(rs, n);
    } else if !IsNonEmpty(acc) {
      assert u == rs[n].location;
    } else {
      UnionOfTight(init);
      LiftWitnesses(rs, n);
    }
  }

  /** Witnesses of tightness in the prefix rs[..n] are witnesses in rs. */
  lemma LiftWitnesses(rs: seq<Recognition>, n: int)
    requires 0 <= n < |rs|
    requires exists i :: 0 <= i < n && Contributes(rs[..n][i]) && rs[..n][i].location.left == UnionOf(rs[..n]).left
    requires exists i :: 0 <= i < n && Contributes(rs[..n][i]) && rs[..n][i].location.top == UnionOf(rs[..n]).top
    requires exists i :: 0 <= i < n && Contributes(rs[..n][i]) && rs[..n][i].location.right == UnionOf(rs[..n]).right
    requires exists i :: 0 <= i < n && Contributes(rs[..n][i]) && rs[..n][i].location.bottom == UnionOf(rs[..n]).bottom
    ensures exists i :: 0 <= i < n && Contributes(rs[i]) && rs[i].location.left == UnionOf(rs[..n]).left
    ensures exists i :: 0 <= i < n && Contributes(rs[i]) && rs[i].location.top == UnionOf(rs[..n]).top
    ensures exists i :: 0 <= i < n && Contributes(rs[i]) && rs[i].location.right == UnionOf(rs[..n]).right
    ensures exists i :: 0 <= i < n && Contributes(rs[i]) && rs[i].location.bottom == UnionOf(rs[..n]).bottom
  {
    var a :| 0 <= a < n && Contributes(rs[..n][a]) && rs[..n][a].location.left == UnionOf(rs[..n]).left;
    assert rs[..n][a] == rs[a];
    var b :| 0 <= b < n && Contributes(rs[..n][b]) && rs[..n][b].location.top == UnionOf(rs[..n]).top;
    assert rs[..n][b] == rs[b];
    var c :| 0 <= c < n && Contributes(rs[..n][c]) && rs[..n][c].location.right == UnionOf(rs[..n]).right;
    assert rs[..n][c] == rs[c];
    var d :| 0 <= d < n && Contributes(rs[..n][d]) && rs[..n][d].location.bottom == UnionOf(rs[..n]).bottom;
    assert rs[..n][d] == rs[d];
  }

  /** Every box that contributes in `s` is also the box of a contributing recognition of `t`. */
  predicate BoxesAmong(s: seq<Recognition>, t: seq<Recognition>) {
    forall i :: 0 <= i < |s| && Contributes(s[i]) ==>
      exists j :: 0 <= j < |t| && Contributes(t[j]) && t[j].location == s[i].location
  }

  /**
   * The union depends only on the set of contributing boxes: not on order,
   * repetition, the titles and confidences that let them through, or the
   * recognitions that do not contribute.
   */
  lemma UnionOfDetermined(s: seq<Recognition>, t: seq<Recognition>)
    requires BoxesAmong(s, t) && BoxesAmong(t, s)
    ensures UnionOf(s) == UnionOf(t)
  {
    NonEmptyCarriesOver(s, t);
    NonEmptyCarriesOver(t, s);
    UnionOfEmpty(s);
    UnionOfEmpty(t);
    if IsNonEmpty(UnionOf(s)) {
      SameEdges(s, t);
      SameEdges(t, s);
    }
  }

  /** A union with area in `s` gives one with area in `t` when s's boxes are among t's. */
  lemma NonEmptyCarriesOver(s: seq<Recognition>, t: seq<Recognition>)
    requires BoxesAmong(s, t)
    ensures IsNonEmpty(UnionOf(s)) ==> IsNonEmpty(UnionOf(t))
  {
    UnionOfEmpty(s);
    UnionOfEmpty(t);
    if IsNonEmpty(UnionOf(s)) {
      var i :| 0 <= i < |s| && Contributes(s[i]);
      var j :| 0 <= j < |t| && Contributes(t[j]) && t[j].location == s[i].location;
    }
  }

  /** Each edge of UnionOf(s) is at least as far out as the matching edge of UnionOf(t). */
  lemma SameEdges(s: seq<Recognition>, t: seq<Recognition>)
    requires BoxesAmong(t, s)
    requires IsNonEmpty(UnionOf(s)) && IsNonEmpty(UnionOf(t))
    ensures UnionOf(s).left <= UnionOf(t).left && UnionOf(s).top <= UnionOf(t).top
    ensures UnionOf(t).right <= UnionOf(s).right && UnionOf(t).bottom <= UnionOf(s).bottom
  {
    UnionOfTight(t);
    var a :| 0 <= a < |t| && Contributes(t[a]) && t[a].location.left == UnionOf(t).left;
    var b :| 0 <= b < |t| && Contributes(t[b]) && t[b].location.top == UnionOf(t).top;
    var c :| 0 <= c < |t| && Contributes(t[c]) && t[c].location.right == UnionOf(t).right;
    var d :| 0 <= d < |t| && Contributes(t[d]) && t[d].location.bottom == UnionOf(t).bottom;
    EnclosesBox(s, t, a);
    EnclosesBox(s, t, b);
    EnclosesBox(s, t, c);
    EnclosesBox(s, t, d);
  }

  /** The union of `s` encloses every contributing box of `t` when t's boxes are among s's. */
  lemma EnclosesBox(s: seq<Recognition>, t: seq<Recognition>, k: int)
    requires BoxesAmong(t, s) && 0 <= k < |t| && Contributes(t[k])
    ensures Encloses(UnionOf(s), t[k].location)
  {
    var j :| 0 <= j < |s| && Contributes(s[j]) && s[j].location == t[k].location;
    UnionOfEncloses(s, j);
  }

  /** When every contributing recognition of `s` occurs in `t`, s's boxes are among t's. */
  lemma MembersAmong(s: seq<Recognition>, t: seq<Recognition>)
    requires forall r :: Contributes(r) && r in s ==> r in t
    ensures BoxesAmong(s, t)
  {
    forall i | 0 <= i < |s| && Contributes(s[i])
      ensures exists j :: 0 <= j < |t| && Contributes(t[j]) && t[j].location == s[i].location
    {
      assert s[i] in s;
      var j :| 0 <= j < |t| && t[j] == s[i];
    }
  }

  /** Replacing a person's confidence by another one above the threshold leaves the union unchanged. */
  lemma UnionOfIgnoresConfidence(s: seq<Recognition>, k: int, c: real)
    requires 0 <= k < |s| && Qualifies(s[k]) && c >= MinimumConfidence
    ensures UnionOf(s[k := s[k].(confidence := c)]) == UnionOf(s)
  {
    var t := s[k := s[k].(confidence := c)];
    forall i | 0 <= i < |s| && Contributes(s[i])
      ensures exists j :: 0 <= j < |t| && Contributes(t[j]) && t[j].location == s[i].location
    {
      assert Contributes(t[i]) && t[i].location == s[i].location;
    }
    forall i | 0 <= i < |t| && Contributes(t[i])
      ensures exists j :: 0 <= j < |s| && Contributes(s[j]) && s[j].location == t[i].location
    {
      assert Contributes(s[i]) && s[i].location == t[i].location;
    }
    UnionOfDetermined(s, t);
  }

  /** Aggregation is order-independent: a permutation of the recognitions gives the same union. */
  lemma UnionOfPermutation(s: seq<Recognition>, t: seq<Recognition>)
    requires multiset(s) == multiset(t)
    ensures UnionOf(s) == UnionOf(t)
  {
    forall r | Contributes(r) ensures r in s <==> r in t {
      assert r in s <==> r in multiset(s);
      assert r in t <==> r in multiset(t);
    }
    MembersAmong(s, t);
    MembersAmong(t, s);
    UnionOfDetermined(s, t);
  }

  /** Inserting a recognition that does not qualify, anywhere, leaves the union unchanged. */
  lemma UnionOfIgnoresNonQualifying(s: seq<Recognition>, k: int, r: Recognition)
    requires 0 <= k <= |s| && !Qualifies(r)
    ensures UnionOf(s[..k] + [r] + s[k..]) == UnionOf(s)
  {
    var t := s[..k] + [r] + s[k..];
    assert s == s[..k] + s[k..];
    assert multiset(t) == multiset(s) + multiset{r};
    forall x | Contributes(x) ensures x in s <==> x in t {
      assert x != r;
      assert x in s <==> x in multiset(s);
      assert x in t <==> x in multiset(t);
    }
    MembersAmong(s, t);
    MembersAmong(t, s);
    UnionOfDetermined(s, t);
  }

  /**
   * The clamping of detect: left and top are raised to 0 when negative,
   * right and bottom are lowered to the frame's width and height when they
   * exceed them; nothing else is changed.
   */
  function Clamp(r: Rect, width: int, height: int): (c: Rect)
    ensures c.left >= 0 && c.top >= 0 && c.right <= width && c.bottom <= height
    ensures r.left >= 0 ==> c.left == r.left
    ensures r.top >= 0 ==> c.top == r.top
    ensures r.right <= width ==> c.right == r.right
    ensures r.bottom <= height ==> c.bottom == r.bottom
    ensures c.left <= 0 || c.left == r.left
    ensures c.top <= 0 || c.top == r.top
    ensures c.right >= width || c.right == r.right
    ensures c.bottom >= height || c.bottom == r.bottom
  {
    Rect(if r.left < 0 then 0 else r.left,
         if r.top < 0 then 0 else r.top,
         if r.right > width then width else r.right,
         if r.bottom > height then height else r.bottom)
  }

  /** The rectangle detect returns for the detector output `results`. */
  function DetectSpec(results: seq<Recognition>, originalWidth: int, originalHeight: int, transform: Affine): Rect {
    Clamp(RoundRect(MapRect(transform, UnionOf(results))), originalWidth, originalHeight)
  }

  /**
   * ObjectDetector.detect, with the detector's output passed in: the loop
   * folds the qualifying boxes into peopleRectF, then the union is mapped,
   * rounded, and clamped edge by edge.
   */
  method Detect(results: seq<Recognition>, originalWidth: int, originalHeight: int, transform: Affine)
    returns (peopleRect: Rect)
    ensures peopleRect == DetectSpec(results, originalWidth, originalHeight, transform)
    ensures peopleRect.left >= 0 && peopleRect.top >= 0
    ensures peopleRect.right <= originalWidth && peopleRect.bottom <= originalHeight
  {
    var peopleRectF := EmptyF;
    for i := 0 to |results|
      invariant peopleRectF == UnionOf(results[..i])
    {
      assert results[..i + 1][..i] == results[..i];
      peopleRectF := Accumulate(peopleRectF, results[i]);
    }
    assert results[..|results|] == results;

    peopleRectF := MapRect(transform, peopleRectF);
    peopleRect := RoundRect(peopleRectF);

    if peopleRect.left < 0 {
      peopleRect := peopleRect.(left := 0);
    }
    if peopleRect.top < 0 {
      peopleRect := peopleRect.(top := 0);
    }
    if peopleRect.right > originalWidth {
      peopleRect := peopleRect.(right := originalWidth);
    }
    if peopleRect.bottom > originalHeight {
      peopleRect := peopleRect.(bottom := originalHeight);
    }
  }

  /**
   * End to end: every point of every person box, once mapped to the frame
   * and rounded, lies in the returned rectangle whenever it lies in the frame.
   */
  lemma DetectCoversPeople(results: seq<Recognition>, width: int, height: int, transform: Affine,
                           k: int, x: real, y: real)
    requires 0 <= k < |results| && Contributes(results[k])
    requires ContainsPoint(results[k].location, x, y)
    requires 0 <= Round(MapX(transform, x, y)) <= width && 0 <= Round(MapY(transform, x, y)) <= height
    ensures var r := DetectSpec(results, width, height, transform);
            r.left <= Round(MapX(transform, x, y)) <= r.right &&
            r.top <= Round(MapY(transform, x, y)) <= r.bottom
  {
    var u := UnionOf(results);
    UnionOfEncloses(results, k);
    assert ContainsPoint(u, x, y);
    MapRectContains(transform, u, x, y);
    var m := MapRect(transform, u);
    RoundMonotone(m.left, MapX(transform, x, y));
    RoundMonotone(MapX(transform, x, y), m.right);
    RoundMonotone(m.top, MapY(transform, x, y));
    RoundMonotone(MapY(transform, x, y), m.bottom);
  }

  /**
   * With no person detected the result has no area (Rect.isEmpty). For a
   * frame size that is not negative it is (0, 0, 0, 0) exactly when the
   * image of the origin rounds to (0, 0), as it does when the transform
   * fixes the origin.
   */
  lemma DetectNoPersonIsEmpty(results: seq<Recognition>, width: int, height: int, transform: Affine)
    requires forall i :: 0 <= i < |results| ==> !Contributes(results[i])
    ensures IsEmptyRect(DetectSpec(results, width, height, transform))
    ensures width >= 0 && height >= 0 ==>
              (DetectSpec(results, width, height, transform) == Rect(0, 0, 0, 0) <==>
               Round(transform.transX) == 0 && Round(transform.transY) == 0)
    ensures transform.transX == 0.0 && transform.transY == 0.0 && width >= 0 && height >= 0 ==>
              DetectSpec(results, width, height, transform) == Rect(0, 0, 0, 0)
  {
    UnionOfEmpty(results);
    assert MapRect(transform, EmptyF) == RectF(transform.transX, transform.transY, transform.transX, transform.transY);
    RoundInteger(0);
  }

  /**
   * Two overlapping people at confidence 0.7 and 0.9 with boxes (10,10,50,50)
   * and (30,30,80,80), an identity transform and a 300x300 frame give
   * (10,10,80,80).
   */
  lemma DetectTwoPeopleExample()
    ensures DetectSpec([Recognition(PersonTitle, 0.7, RectF(10.0, 10.0, 50.0, 50.0)),
                        Recognition(PersonTitle, 0.9, RectF(30.0, 30.0, 80.0, 80.0))],
                       300, 300, Identity) == Rect(10, 10, 80, 80)
  {
    var rs := [Recognition(PersonTitle, 0.7, RectF(10.0, 10.0, 50.0, 50.0)),
               Recognition(PersonTitle, 0.9, RectF(30.0, 30.0, 80.0, 80.0))];
    assert rs[..1] == [rs[0]] && rs[..1][..0] == [];
    assert UnionOf(rs[..1]) == rs[0].location;
    assert UnionOf(rs) == Union(rs[0].location, rs[1].location);
    assert UnionOf(rs) == RectF(10.0, 10.0, 80.0, 80.0);
    MapRectIdentity(UnionOf(rs));
    RoundInteger(10);
    RoundInteger(80);
  }

  /** The threshold is inclusive: a person at exactly MINIMUM_CONFIDENCE_TF_OD_API is kept, one just below is not. */
  lemma ThresholdInclusive(box: RectF, below: real)
    requires IsNonEmpty(box) && below < MinimumConfidence
    ensures UnionOf([Recognition(PersonTitle, MinimumConfidence, box)]) == box
    ensures UnionOf([Recognition(PersonTitle, below, box)]) == EmptyF
  {
  }

  /**
   * Left and top are only raised to 0 and never lowered to the frame size, so
   * a rounded rectangle lying beyond the right edge comes back with left > right.
   */
  lemma ClampCanInvert()
    ensures var c := Clamp(Rect(310, 0, 320, 10), 300, 300);
            c == Rect(310, 0, 300, 10) && c.left > c.right
  {
  }
}

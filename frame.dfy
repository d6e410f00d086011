/** One captured frame: the capture-outcome dispatch, the conversion of the
    depth image into a point-cloud image through the xy lookup table (pass 1),
    and the collection of every valid point of that image (pass 2). */
module FrameCapture {
  import opened K4a
  import opened Geometry

  /** The warnings a frame logs; the messages themselves are constants. */
  datatype Warning = CaptureTimeout | CaptureRead | CaptureDepth

  // ---------------------------------------------------------------------
  // Capture outcome
  // ---------------------------------------------------------------------

  /** The warnings logged while dispatching on the wait result. A timeout
      has no `break`, so it also logs the failure case's warning. */
  function WaitWarnings(wait: WaitResult): (log: seq<Warning>)
    ensures log == [] <==> wait == Succeeded
    ensures CaptureTimeout in log <==> wait == Timeout
    ensures CaptureRead in log <==> wait != Succeeded
    ensures CaptureDepth !in log
  {
    match wait
    case Succeeded => []
    case Timeout => [CaptureTimeout, CaptureRead]
    case Failed => [CaptureRead]
  }

  /** The fall-through: a timeout logs its own warning and then exactly what
      a failure logs. */
  lemma TimeoutFallsThrough()
    ensures WaitWarnings(Timeout) == [CaptureTimeout] + WaitWarnings(Failed)
  {
  }

  /** The warnings logged for missing images: one per missing image, and a
      missing colour image is reported with the depth-image message. */
  function ImageWarnings(hasDepth: bool, hasColor: bool): (log: seq<Warning>)
    ensures |log| == (if hasDepth then 0 else 1) + (if hasColor then 0 else 1)
    ensures forall k :: 0 <= k < |log| ==> log[k] == CaptureDepth
  {
    (if hasDepth then [] else [CaptureDepth]) + (if hasColor then [] else [CaptureDepth])
  }

  /** The images the frame receives: a wait that did not succeed leaves the
      capture handle null, and the driver returns no image for it. */
  function Received(wait: WaitResult, capture: Capture): (c: Capture)
    ensures wait != Succeeded ==> c.depth.None? && c.color.None?
    ensures wait == Succeeded ==> c == capture
  {
    if wait == Succeeded then capture else NullCapture
  }

  /** The depth samples pass 1 walks. For a null depth image the driver
      reports a 0 × 0 size, so there are none. */
  function DepthSamples(c: Capture): (d: seq<u16>)
    requires c.depth.Some? ==> c.depth.value.Valid()
    ensures c.depth.Some? ==> |d| == c.depth.value.width * c.depth.value.height
    ensures c.depth.None? ==> d == []
  {
    if c.depth.Some? then c.depth.value.pixels else []
  }

  // ---------------------------------------------------------------------
  // Pass 1: depth × xy table -> point-cloud image
  // ---------------------------------------------------------------------

  /** A depth sample yields a point iff it is non-zero and neither component
      of its table entry is NaN. */
  predicate ValidSample(d: u16, e: Float2)
  {
    d != 0 && e.x.Num? && e.y.Num?
  }

  /** A table component scaled by a depth sample (float rounding is not
      modelled). */
  function Scale(t: real, d: u16): real
  {
    t * d as real
  }

  /** The cell pass 1 writes for one pixel: the table's ray scaled by the
      depth, with the raw depth as z, or the all-NaN triple. */
  function SamplePoint(d: u16, e: Float2): Float3
  {
    if ValidSample(d, e) then
      Float3(Num(Scale(e.x.v, d)), Num(Scale(e.y.v, d)), Num(d as real))
    else
      NaN3
  }

  /** The point-cloud image pass 1 writes for the pixels of `depth`. */
  function PointCloud(depth: seq<u16>, table: seq<Float2>): (pcl: seq<Float3>)
    requires |depth| <= |table|
    ensures |pcl| == |depth|
  {
    seq(|depth|, i requires 0 <= i < |depth| => SamplePoint(depth[i], table[i]))
  }

  /** The number of pixels of `depth` that yield a point. */
  function CountValid(depth: seq<u16>, table: seq<Float2>): (n: nat)
    requires |depth| <= |table|
    ensures n <= |depth|
    ensures n == 0 <== depth == []
  {
    if depth == [] then 0
    else
      var i := |depth| - 1;
      CountValid(depth[..i], table) + (if ValidSample(depth[i], table[i]) then 1 else 0)
  }

  /** Each cell of the point-cloud image, as the two branches of pass 1 write
      it; the z of a valid point is the raw depth, unscaled. */
  lemma PointCloudAt(depth: seq<u16>, table: seq<Float2>, i: nat)
    requires |depth| <= |table| && i < |depth|
    ensures var p := PointCloud(depth, table)[i];
      if depth[i] != 0 && table[i].x.Num? && table[i].y.Num? then
        p == Float3(Num(Scale(table[i].x.v, depth[i])), Num(Scale(table[i].y.v, depth[i])), Num(depth[i] as real))
      else
        p == NaN3
  {
  }

  /** A table entry with a NaN component makes its pixel invalid whatever its
      depth, and a zero depth makes it invalid whatever the table holds. */
  lemma InvalidPixelsGiveNaN(depth: seq<u16>, table: seq<Float2>, i: nat)
    requires |depth| <= |table| && i < |depth|
    requires table[i].x.NaN? || table[i].y.NaN? || depth[i] == 0
    ensures PointCloud(depth, table)[i] == NaN3
    ensures forall d: u16 :: SamplePoint(d, table[i]) == NaN3 <== table[i].x.NaN? || table[i].y.NaN?
  {
  }

  /** Pass 1, writing the point-cloud buffer in place and counting the pixels
      that yield a point. Cells past the depth image are left alone. */
  method DepthToPointCloud(depth: seq<u16>, table: array<Float2>, pcl: array<Float3>)
    returns (numPoints: nat)
    requires |depth| <= table.Length && |depth| <= pcl.Length
    modifies pcl
    ensures pcl[..|depth|] == PointCloud(depth, table[..])
    ensures pcl[|depth|..] == old(pcl[|depth|..])
    ensures numPoints == CountValid(depth, table[..])
  {
    numPoints := 0;
    for i := 0 to |depth|
      invariant forall k :: 0 <= k < i ==> pcl[k] == SamplePoint(depth[k], table[k])
      invariant forall k :: i <= k < pcl.Length ==> pcl[k] == old(pcl[k])
      invariant numPoints == CountValid(depth[..i], table[..])
    {
      assert depth[..i + 1][..i] == depth[..i];
      if depth[i] != 0 && table[i].x.Num? && table[i].y.Num? {
        pcl[i] := Float3(Num(Scale(table[i].x.v, depth[i])),
                         Num(Scale(table[i].y.v, depth[i])),
                         Num(depth[i] as real));
        numPoints := numPoints + 1;
      } else {
        pcl[i] := NaN3;
      }
    }
    assert depth[..|depth|] == depth;
  }

  // ---------------------------------------------------------------------
  // Pass 2: the valid points of the point-cloud image
  // ---------------------------------------------------------------------

  /** A cell is a point iff none of its three components is NaN. */
  predicate IsPoint(p: Float3)
  {
    p.x.Num? && p.y.Num? && p.z.Num?
  }

  function AsVec(p: Float3): Vec3
    requires IsPoint(p)
  {
    Vec3(p.x.v, p.y.v, p.z.v)
  }

  /** The points of `s`, in index order. */
  function ValidPoints(s: seq<Float3>): (r: seq<Vec3>)
    ensures |r| <= |s|
  {
    if s == [] then []
    else
      var last := s[|s| - 1];
      ValidPoints(s[..|s| - 1]) + (if IsPoint(last) then [AsVec(last)] else [])
  }

  /** The indices of the cells of `s` that are points, in increasing order. */
  function ValidIndices(s: seq<Float3>): (ix: seq<nat>)
    ensures forall i: nat :: i in ix <==> i < |s| && IsPoint(s[i])
    ensures forall k :: 0 <= k < |ix| ==> ix[k] < |s|
    ensures forall k, l :: 0 <= k < l < |ix| ==> ix[k] < ix[l]
  {
    if s == [] then []
    else
      var i := |s| - 1;
      var before := ValidIndices(s[..i]);
      assert forall k :: 0 <= k < |before| ==> before[k] in before;
      before + (if IsPoint(s[i]) then [i] else [])
  }

  /** ValidPoints is the subsequence of `s` at exactly the point indices: its
      k-th element comes from the k-th such index. */
  lemma {:induction false} ValidPointsAtIndices(s: seq<Float3>)
    ensures |ValidPoints(s)| == |ValidIndices(s)|
    ensures forall k :: 0 <= k < |ValidIndices(s)| ==>
      ValidIndices(s)[k] < |s| && IsPoint(s[ValidIndices(s)[k]]) &&
      ValidPoints(s)[k] == AsVec(s[ValidIndices(s)[k]])
  {
    if s != [] {
      var i := |s| - 1;
      ValidPointsAtIndices(s[..i]);
      var ix := ValidIndices(s);
      forall k | 0 <= k < |ix|
        ensures ix[k] < |s| && IsPoint(s[ix[k]]) && ValidPoints(s)[k] == AsVec(s[ix[k]])
      {
        assert ix[k] in ix;
        if k < |ValidIndices(s[..i])| {
          assert ValidIndices(s[..i])[k] in ValidIndices(s[..i]);
        }
      }
    }
  }

  /** With the point-cloud image shaped like the depth image, pass 2 collects
      exactly as many points as pass 1 counted. */
  lemma {:induction false} ValidPointsCount(depth: seq<u16>, table: seq<Float2>)
    requires |depth| <= |table|
    ensures |ValidPoints(PointCloud(depth, table))| == CountValid(depth, table)
  {
    if depth != [] {
      var i := |depth| - 1;
      ValidPointsCount(depth[..i], table);
      assert PointCloud(depth, table)[..i] == PointCloud(depth[..i], table);
      assert IsPoint(SamplePoint(depth[i], table[i])) == ValidSample(depth[i], table[i]);
    }
  }

  /** With every table entry (1, 1) and every depth the same non-zero d, every
      pixel yields the point (d, d, d): point = ray * depth. */
  lemma {:induction false} UnitRayScaling(depth: seq<u16>, table: seq<Float2>, d: u16)
    requires |depth| <= |table| && d != 0
    requires forall i :: 0 <= i < |depth| ==> depth[i] == d && table[i] == Float2(Num(1.0), Num(1.0))
    ensures forall i :: 0 <= i < |depth| ==>
      PointCloud(depth, table)[i] == Float3(Num(d as real), Num(d as real), Num(d as real))
    ensures CountValid(depth, table) == |depth|
    ensures ValidPoints(PointCloud(depth, table)) == seq(|depth|, _ => Vec3(d as real, d as real, d as real))
  {
    if depth != [] {
      var i := |depth| - 1;
      UnitRayScaling(depth[..i], table, d);
      assert PointCloud(depth, table)[..i] == PointCloud(depth[..i], table);
    }
  }

  // ---------------------------------------------------------------------
  // The frame
  // ---------------------------------------------------------------------

  class Frame {
    const xyTable: Image<Float2>
    const pointcloud: Image<Float3>
    /** Whether the capture returned a depth image and a colour image. */
    const hasDepth: bool
    const hasColor: bool
    /** The warnings logged while the frame was built, in order. */
    var log: seq<Warning>
    /** The valid points of the point-cloud image. */
    var points: seq<Vec3>

    /** Dispatches on the wait result, fetches the images, then runs pass 1
        and pass 2. No outcome stops construction: failures are only logged. */
    constructor (wait: WaitResult, capture: Capture, xyTable: Image<Float2>, pointcloud: Image<Float3>)
      requires capture.depth.Some? ==> capture.depth.value.Valid()
      requires |DepthSamples(Received(wait, capture))| <= xyTable.buffer.Length
      requires |DepthSamples(Received(wait, capture))| <= pointcloud.buffer.Length
      requires pointcloud.Valid()
      modifies pointcloud.buffer
      ensures this.xyTable == xyTable && this.pointcloud == pointcloud
      ensures hasDepth == Received(wait, capture).depth.Some?
      ensures hasColor == Received(wait, capture).color.Some?
      ensures log == WaitWarnings(wait) + ImageWarnings(hasDepth, hasColor)
      ensures var depth := DepthSamples(Received(wait, capture));
        pointcloud.buffer[..|depth|] == PointCloud(depth, xyTable.buffer[..]) &&
        pointcloud.buffer[|depth|..] == old(pointcloud.buffer[|depth|..])
      ensures points == ValidPoints(pointcloud.buffer[..])
    {
      this.xyTable := xyTable;
      this.pointcloud := pointcloud;
      var warnings: seq<Warning> := [];
      if wait == Timeout {
        warnings := warnings + [CaptureTimeout];
      }
      if wait == Timeout || wait == Failed {
        warnings := warnings + [CaptureRead];
      }
      assert warnings == WaitWarnings(wait);
      var received := if wait == Succeeded then capture else NullCapture;
      assert received == Received(wait, capture);
      var depthFound := received.depth.Some?;
      if !depthFound {
        warnings := warnings + [CaptureDepth];
      }
      var colorFound := received.color.Some?;
      if !colorFound {
        warnings := warnings + [CaptureDepth];
      }
      assert warnings == WaitWarnings(wait) + ImageWarnings(depthFound, colorFound);
      hasDepth := depthFound;
      hasColor := colorFound;
      log := warnings;
      points := [];
      new;
      var depth := DepthSamples(received);
      var numPoints := DepthToPointCloud(depth, xyTable.buffer, pointcloud.buffer);
      ghost var written := pointcloud.buffer[..];
      CollectPoints();
      assert pointcloud.buffer[..] == written;
    }

    /** Pass 2: appends every cell of the point-cloud image that is a point,
        in index order. */
    method CollectPoints()
      requires pointcloud.Valid()
      modifies this`points
      ensures points == old(points) + ValidPoints(pointcloud.buffer[..])
    {
      var n := pointcloud.width * pointcloud.height;
      for i := 0 to n
        invariant points == old(points) + ValidPoints(pointcloud.buffer[..i])
      {
        assert pointcloud.buffer[..i + 1][..i] == pointcloud.buffer[..i];
        var p := pointcloud.buffer[i];
        if p.x.NaN? || p.y.NaN? || p.z.NaN? {
          continue;
        }
        points := points + [Vec3(p.x.v, p.y.v, p.z.v)];
      }
      assert pointcloud.buffer[..n] == pointcloud.buffer[..];
    }
  }
}

/** The depth-camera session: the xy lookup table that maps every depth-image
    pixel to its ray at unit depth, the creation of the table and point-cloud
    images sized by the depth camera's calibration, and the hand-off of both
    to each captured frame. */
module KinectSession {
  import opened K4a
  import opened FrameCapture

  /** The table cell stored for a pixel: the ray's x and y when the camera
      model reports the pixel valid, NaN in both slots otherwise. */
  function TableEntry(ray: Option<Ray>): (e: Float2)
    ensures e.x.NaN? <==> ray.None?
    ensures e.y.NaN? <==> ray.None?
  {
    match ray
    case Some(r) => Float2(Num(r.x), Num(r.y))
    case None => Float2(NaN, NaN)
  }

  /** What a table cell tells its reader: the stored direction, or nothing. */
  function EntryRay(e: Float2): Option<(real, real)>
  {
    if e.x.Num? && e.y.Num? then Some((e.x.v, e.y.v)) else None
  }

  /** The encoding loses nothing a reader needs: decoding a cell gives back
      the ray's x and y for a valid pixel and nothing for an invalid one. */
  lemma EntryRoundTrip(ray: Option<Ray>)
    ensures EntryRay(TableEntry(ray)) ==
      if ray.Some? then Some((ray.value.x, ray.value.y)) else None
  {
  }

  /** A positive multiple of a positive width is at least that width. */
  lemma {:induction false} MulAtLeast(a: nat, w: nat)
    requires a >= 1
    ensures a * w >= w
  {
    if a > 1 {
      MulAtLeast(a - 1, w);
      assert a * w == (a - 1) * w + w;
    }
  }

  /** Division by a positive width recovers the row and the column. */
  lemma DivModUnique(n: int, w: int, q: int, r: int)
    requires w > 0 && 0 <= r < w && n == q * w + r
    ensures n / w == q && n % w == r
  {
    var q', r' := n / w, n % w;
    assert n == q' * w + r';
    if q > q' {
      assert q * w == (q - q') * w + q' * w;
      MulAtLeast(q - q', w);
    } else if q < q' {
      assert q' * w == (q' - q) * w + q * w;
      MulAtLeast(q' - q, w);
    }
  }

  /** Row-major indexing: pixel (x, y) of a w × h grid has index y * w + x,
      which lies inside the grid and from which x and y are recovered. */
  lemma RowMajor(w: nat, h: nat, x: nat, y: nat)
    requires x < w && y < h
    ensures y * w + x < w * h
    ensures (y * w + x) / w == y && (y * w + x) % w == x
  {
    assert y * w + x < (y + 1) * w;
    assert (y + 1) * w <= h * w;
    DivModUnique(y * w + x, w, y, x);
  }

  /** The table cell at row-major index k of the depth grid. */
  function RayAt(cal: Calibration, k: nat): Float2
    requires k < cal.depthWidth * cal.depthHeight
  {
    TableEntry(cal.unproject(k % cal.depthWidth, k / cal.depthWidth))
  }

  /** The whole xy lookup table for a calibration, row-major. */
  function RayTable(cal: Calibration): (t: seq<Float2>)
    ensures |t| == cal.depthWidth * cal.depthHeight
  {
    seq(cal.depthWidth * cal.depthHeight,
        k requires 0 <= k < cal.depthWidth * cal.depthHeight => RayAt(cal, k))
  }

  /** The table cell of pixel (x, y) is the camera model's answer for that
      very pixel, encoded as TableEntry does. */
  lemma RayTableAt(cal: Calibration, x: nat, y: nat)
    requires x < cal.depthWidth && y < cal.depthHeight
    ensures y * cal.depthWidth + x < |RayTable(cal)|
    ensures RayTable(cal)[y * cal.depthWidth + x] == TableEntry(cal.unproject(x, y))
  {
    RowMajor(cal.depthWidth, cal.depthHeight, x, y);
  }

  /** A depth pixel read through the session's table: a pixel outside the
      camera model's field of view gives the all-NaN triple whatever its
      depth, and a valid pixel with non-zero depth d gives its ray scaled by
      d, with d as z. */
  lemma PixelThroughTable(cal: Calibration, depth: seq<u16>, x: nat, y: nat)
    requires x < cal.depthWidth && y < cal.depthHeight
    requires |depth| == cal.depthWidth * cal.depthHeight
    ensures y * cal.depthWidth + x < |depth|
    ensures var d := depth[y * cal.depthWidth + x];
      var p := PointCloud(depth, RayTable(cal))[y * cal.depthWidth + x];
      match cal.unproject(x, y)
      case None => p == NaN3
      case Some(ray) =>
        p == if d == 0 then NaN3 else Float3(Num(Scale(ray.x, d)), Num(Scale(ray.y, d)), Num(d as real))
  {
    RayTableAt(cal, x, y);
  }

  class Kinect {
    const calibration: Calibration
    /** The xy lookup table image and the point-cloud image; null until
        ResolveDepth creates them. */
    var xyTable: Image?<Float2>
    var pointcloud: Image?<Float3>

    /** Only the session's depth-image setup is modelled: device discovery,
        open, calibration fetch and camera start are driver calls. */
    constructor (calibration: Calibration)
      ensures this.calibration == calibration
      ensures Resolved()
      ensures fresh(xyTable) && fresh(xyTable.buffer)
      ensures fresh(pointcloud) && fresh(pointcloud.buffer)
      ensures xyTable.buffer[..] == RayTable(calibration)
      ensures xyTable.strideBytes == calibration.depthWidth * SizeOfFloat2
      ensures pointcloud.strideBytes == calibration.depthWidth * SizeOfFloat3
    {
      this.calibration := calibration;
      xyTable := null;
      pointcloud := null;
      new;
      ResolveDepth();
    }

    /** Both images exist and are sized by the depth calibration. */
    predicate Resolved()
      reads this
    {
      xyTable != null && pointcloud != null &&
      xyTable.Valid() && pointcloud.Valid() &&
      xyTable.width == calibration.depthWidth && xyTable.height == calibration.depthHeight &&
      pointcloud.width == calibration.depthWidth && pointcloud.height == calibration.depthHeight
    }

    /** Fills `table` with the ray of every pixel of the depth grid, walking
        the grid row-major with a running index. The ghost `trace` records the
        (x, y, idx) of every write in order: write k goes to index k, which is
        y * width + x, so every cell of the grid is written exactly once. */
    static method XyLookupTable(cal: Calibration, table: array<Float2>)
      returns (ghost trace: seq<(nat, nat, nat)>)
      requires cal.depthWidth * cal.depthHeight <= table.Length
      modifies table
      ensures table[..cal.depthWidth * cal.depthHeight] == RayTable(cal)
      ensures table[cal.depthWidth * cal.depthHeight..] == old(table[cal.depthWidth * cal.depthHeight..])
      ensures |trace| == cal.depthWidth * cal.depthHeight
      ensures forall k :: 0 <= k < |trace| ==>
        trace[k].0 < cal.depthWidth && trace[k].1 < cal.depthHeight &&
        trace[k].2 == k == trace[k].1 * cal.depthWidth + trace[k].0
    {
      var width, height := cal.depthWidth, cal.depthHeight;
      trace := [];
      var y, idx := 0, 0;
      while y < height
        invariant 0 <= y <= height
        invariant idx == y * width <= width * height
        invariant |trace| == idx
        invariant forall k :: 0 <= k < idx ==> table[k] == RayAt(cal, k)
        invariant forall k :: idx <= k < table.Length ==> table[k] == old(table[k])
        invariant forall k :: 0 <= k < |trace| ==>
          trace[k].0 < width && trace[k].1 < height &&
          trace[k].2 == k == trace[k].1 * width + trace[k].0
      {
        var x := 0;
        while x < width
          invariant 0 <= x <= width
          invariant idx == y * width + x <= width * height
          invariant |trace| == idx
          invariant forall k :: 0 <= k < idx ==> table[k] == RayAt(cal, k)
          invariant forall k :: idx <= k < table.Length ==> table[k] == old(table[k])
          invariant forall k :: 0 <= k < |trace| ==>
            trace[k].0 < width && trace[k].1 < height &&
            trace[k].2 == k == trace[k].1 * width + trace[k].0
        {
          RowMajor(width, height, x, y);
          match cal.unproject(x, y) {
            case Some(ray) =>
              table[idx] := Float2(Num(ray.x), Num(ray.y));
            case None =>
              table[idx] := Float2(NaN, NaN);
          }
          assert table[idx] == RayAt(cal, idx);
          trace := trace + [(x, y, idx)];
          x, idx := x + 1, idx + 1;
        }
        assert (y + 1) * width <= height * width;
        y := y + 1;
      }
      assert table[..width * height] == RayTable(cal);
    }

    /** Creates the xy table image at the depth resolution (one float pair
        per pixel), fills it, then creates the point-cloud image at the same
        resolution (one float triple per pixel). */
    method ResolveDepth()
      modifies this
      ensures Resolved()
      ensures fresh(xyTable) && fresh(xyTable.buffer)
      ensures fresh(pointcloud) && fresh(pointcloud.buffer)
      ensures xyTable.buffer[..] == RayTable(calibration)
      ensures xyTable.strideBytes == calibration.depthWidth * SizeOfFloat2
      ensures pointcloud.strideBytes == calibration.depthWidth * SizeOfFloat3
    {
      var width, height := calibration.depthWidth, calibration.depthHeight;
      xyTable := new Image<Float2>.Create(width, height, width * SizeOfFloat2);
      ghost var trace := XyLookupTable(calibration, xyTable.buffer);
      assert xyTable.buffer[..] == xyTable.buffer[..width * height];
      pointcloud := new Image<Float3>.Create(width, height, width * SizeOfFloat3);
    }

    /** Builds a frame from the session's table and point-cloud images. */
    method GetImage(wait: WaitResult, capture: Capture) returns (frame: Frame)
      requires Resolved()
      requires capture.depth.Some? ==> capture.depth.value.Valid()
      requires |DepthSamples(Received(wait, capture))| <= calibration.depthWidth * calibration.depthHeight
      modifies pointcloud.buffer
      ensures fresh(frame)
      ensures frame.xyTable == xyTable && frame.pointcloud == pointcloud
      ensures frame.hasDepth == Received(wait, capture).depth.Some?
      ensures frame.hasColor == Received(wait, capture).color.Some?
      ensures frame.log == WaitWarnings(wait) + ImageWarnings(frame.hasDepth, frame.hasColor)
      ensures frame.points == ValidPoints(pointcloud.buffer[..])
      ensures var depth := DepthSamples(Received(wait, capture));
        pointcloud.buffer[..|depth|] == PointCloud(depth, xyTable.buffer[..]) &&
        pointcloud.buffer[|depth|..] == old(pointcloud.buffer[|depth|..])
      ensures wait != Succeeded ==> frame.points == ValidPoints(old(pointcloud.buffer[..]))
    {
      frame := new Frame(wait, capture, xyTable, pointcloud);
      if wait != Succeeded {
        assert pointcloud.buffer[..] == pointcloud.buffer[0..];
      }
    }
  }
}

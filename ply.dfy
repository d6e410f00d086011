/** Export of point clouds as ASCII PLY 1.0 files (the Stanford polygon
    format): a fixed ten-line header that declares the vertex count and the
    x, y, z float and red, green, blue uchar properties, then one line per
    vertex. The file is modelled as its sequence of lines. */
module Ply {
  import opened K4a
  import opened Geometry

  datatype Rgb = Rgb(red: u8, green: u8, blue: u8)

  /** One line of the file: header text, or a vertex given by its
      coordinates and its red, green and blue values. The textual rendering
      of the numbers on a vertex line is not modelled. */
  datatype Line = Text(text: string) | Vertex(x: real, y: real, z: real, color: Rgb)

  // ---------------------------------------------------------------------
  // Decimal rendering of the vertex count
  // ---------------------------------------------------------------------

  function Digit(d: nat): (c: char)
    requires d < 10
    ensures '0' <= c <= '9' && c as int - '0' as int == d
  {
    ('0' as int + d) as char
  }

  /** The decimal text of n, most significant digit first. */
  function Decimal(n: nat): (s: string)
    ensures |s| >= 1
    ensures forall k :: 0 <= k < |s| ==> '0' <= s[k] <= '9'
  {
    if n < 10 then [Digit(n)] else Decimal(n / 10) + [Digit(n % 10)]
  }

  /** Reads a non-empty string of decimal digits back as a number. */
  function ParseDecimal(s: string): Option<nat>
  {
    if s == [] || !('0' <= s[|s| - 1] <= '9') then None
    else
      var last := s[|s| - 1] as int - '0' as int;
      if |s| == 1 then Some(last)
      else
        match ParseDecimal(s[..|s| - 1])
        case None => None
        case Some(high) => Some(high * 10 + last)
  }

  lemma {:induction false} DecimalRoundTrip(n: nat)
    ensures ParseDecimal(Decimal(n)) == Some(n)
  {
    if n >= 10 {
      DecimalRoundTrip(n / 10);
      var s := Decimal(n);
      assert s[..|s| - 1] == Decimal(n / 10);
    }
  }

  // ---------------------------------------------------------------------
  // Header
  // ---------------------------------------------------------------------

  const HeaderSize: nat := 10
  const VertexCountPrefix: string := "element vertex "

  /** The header that declares n vertices. */
  function Header(n: nat): (h: seq<Line>)
    ensures |h| == HeaderSize
  {
    [ Text("ply"),
      Text("format ascii 1.0"),
      Text(VertexCountPrefix + Decimal(n)),
      Text("property float x"),
      Text("property float y"),
      Text("property float z"),
      Text("property uchar red"),
      Text("property uchar green"),
      Text("property uchar blue"),
      Text("end_header") ]
  }

  /** The vertex count a reader takes from the third line of a file. */
  function DeclaredCount(lines: seq<Line>): Option<nat>
  {
    if |lines| < 3 || !lines[2].Text? then None
    else
      var t := lines[2].text;
      if |t| < |VertexCountPrefix| || t[..|VertexCountPrefix|] != VertexCountPrefix then None
      else ParseDecimal(t[|VertexCountPrefix|..])
  }

  /** What every writer produces: the header for some vertex count, then
      that many vertex lines. */
  predicate WellFormed(lines: seq<Line>)
  {
    |lines| >= HeaderSize &&
    lines[..HeaderSize] == Header(|lines| - HeaderSize) &&
    forall k :: HeaderSize <= k < |lines| ==> lines[k].Vertex?
  }

  /** The count a reader takes from the header of a written file is the
      number of vertex lines that follow it. */
  lemma HeaderDeclaresBody(lines: seq<Line>)
    requires WellFormed(lines)
    ensures DeclaredCount(lines) == Some(|lines| - HeaderSize)
  {
    var n := |lines| - HeaderSize;
    assert lines[2] == Header(n)[2];
    var t := lines[2].text;
    assert t[|VertexCountPrefix|..] == Decimal(n);
    DecimalRoundTrip(n);
  }

  // ---------------------------------------------------------------------
  // Point cloud and colour image
  // ---------------------------------------------------------------------

  /** t_rgbPoint: a pixel's coordinates and its colour bytes in buffer order
      (blue, green, red). */
  datatype RgbPoint = RgbPoint(x: i16, y: i16, z: i16, rgb0: u8, rgb1: u8, rgb2: u8)

  /** What the loop reads for one pixel: its point and its alpha byte. */
  datatype Pixel = Pixel(point: RgbPoint, alpha: u8)

  /** The number of pixels walked: the point cloud's width times the colour
      image's height. */
  function PixelCount(pcl: XyzImage, rgb: ColorImage): nat
  {
    pcl.width * rgb.height
  }

  /** Both buffers hold every pixel walked. */
  predicate Readable(pcl: XyzImage, rgb: ColorImage)
  {
    3 * PixelCount(pcl, rgb) <= |pcl.xyz| && 4 * PixelCount(pcl, rgb) <= |rgb.bgra|
  }

  /** Pixel i: xyz at 3i, 3i+1, 3i+2 of the point-cloud buffer, colour and
      alpha at 4i .. 4i+3 of the colour buffer. */
  function PixelAt(pcl: XyzImage, rgb: ColorImage, i: nat): Pixel
    requires Readable(pcl, rgb) && i < PixelCount(pcl, rgb)
  {
    Pixel(RgbPoint(pcl.xyz[3 * i], pcl.xyz[3 * i + 1], pcl.xyz[3 * i + 2],
                   rgb.bgra[4 * i], rgb.bgra[4 * i + 1], rgb.bgra[4 * i + 2]),
          rgb.bgra[4 * i + 3])
  }

  /** The pixels walked, in index order. */
  function Pixels(pcl: XyzImage, rgb: ColorImage): (px: seq<Pixel>)
    requires Readable(pcl, rgb)
    ensures |px| == PixelCount(pcl, rgb)
  {
    seq(PixelCount(pcl, rgb), i requires 0 <= i < PixelCount(pcl, rgb) => PixelAt(pcl, rgb, i))
  }

  /** A pixel is left out iff its z is zero, or its three colour bytes and
      its alpha are all zero. */
  predicate Dropped(p: Pixel)
  {
    p.point.z == 0 || (p.point.rgb0 == 0 && p.point.rgb1 == 0 && p.point.rgb2 == 0 && p.alpha == 0)
  }

  /** The points of the pixels that are not dropped, in pixel order. */
  function KeptPoints(s: seq<Pixel>): (r: seq<RgbPoint>)
    ensures |r| <= |s|
  {
    if s == [] then []
    else
      var last := s[|s| - 1];
      KeptPoints(s[..|s| - 1]) + (if Dropped(last) then [] else [last.point])
  }

  /** The indices of the pixels that are not dropped, in increasing order. */
  function KeptIndices(s: seq<Pixel>): (ix: seq<nat>)
    ensures forall i: nat :: i in ix <==> i < |s| && !Dropped(s[i])
    ensures forall k :: 0 <= k < |ix| ==> ix[k] < |s|
    ensures forall k, l :: 0 <= k < l < |ix| ==> ix[k] < ix[l]
  {
    if s == [] then []
    else
      var i := |s| - 1;
      var before := KeptIndices(s[..i]);
      assert forall k :: 0 <= k < |before| ==> before[k] in before;
      before + (if Dropped(s[i]) then [] else [i])
  }

  /** One more pixel adds its point to KeptPoints unless it is dropped. */
  lemma KeptPointsStep(s: seq<Pixel>, i: nat)
    requires i < |s|
    ensures KeptPoints(s[..i + 1]) == KeptPoints(s[..i]) + (if Dropped(s[i]) then [] else [s[i].point])
  {
    assert s[..i + 1][..i] == s[..i];
  }

  /** KeptPoints is the subsequence of the pixels' points at exactly the
      kept indices: its k-th element is the point of the k-th kept pixel. */
  lemma {:induction false} KeptPointsAtIndices(s: seq<Pixel>)
    ensures |KeptPoints(s)| == |KeptIndices(s)|
    ensures forall k :: 0 <= k < |KeptIndices(s)| ==> KeptPoints(s)[k] == s[KeptIndices(s)[k]].point
  {
    if s != [] {
      var i := |s| - 1;
      KeptPointsAtIndices(s[..i]);
      var ix, ix' := KeptIndices(s), KeptIndices(s[..i]);
      forall k | 0 <= k < |ix|
        ensures KeptPoints(s)[k] == s[ix[k]].point
      {
        if k < |ix'| {
          assert ix'[k] < i;
        }
      }
    }
  }

  /** The vertex line of a kept point: its coordinates, then its colour
      bytes in reverse buffer order, since the image data is BGR. */
  function ImageVertex(p: RgbPoint): Line
  {
    Vertex(p.x as real, p.y as real, p.z as real, Rgb(p.rgb2, p.rgb1, p.rgb0))
  }

  /** The vertex line of pixel i, read straight from the two buffers. */
  function PixelVertex(pcl: XyzImage, rgb: ColorImage, i: nat): (v: Line)
    requires Readable(pcl, rgb) && i < PixelCount(pcl, rgb)
  {
    Vertex(pcl.xyz[3 * i] as real, pcl.xyz[3 * i + 1] as real, pcl.xyz[3 * i + 2] as real,
           Rgb(rgb.bgra[4 * i + 2], rgb.bgra[4 * i + 1], rgb.bgra[4 * i]))
  }

  /** The vertex line of a kept pixel shows the xyz read at 3i .. 3i+2 and
      the colour bytes read at 4i .. 4i+2 in reverse order: red is byte 4i+2,
      green 4i+1, blue 4i. */
  lemma PixelVertexReversesChannels(pcl: XyzImage, rgb: ColorImage, i: nat)
    requires Readable(pcl, rgb) && i < PixelCount(pcl, rgb)
    ensures ImageVertex(Pixels(pcl, rgb)[i].point) == PixelVertex(pcl, rgb, i)
    ensures PixelVertex(pcl, rgb, i).color.red == rgb.bgra[4 * i + 2]
    ensures PixelVertex(pcl, rgb, i).color.blue == rgb.bgra[4 * i]
  {
  }

  /** The header for n lines followed by n vertex lines is a well-formed
      file. */
  lemma HeaderThenVertices(body: seq<Line>)
    requires forall j :: 0 <= j < |body| ==> body[j].Vertex?
    ensures WellFormed(Header(|body|) + body)
  {
    var lines := Header(|body|) + body;
    assert lines[..HeaderSize] == Header(|lines| - HeaderSize);
  }

  /** The header for the kept points followed by their vertex lines shows
      every kept pixel, in pixel order, read straight from the buffers. */
  lemma ImageLines(pcl: XyzImage, rgb: ColorImage, points: seq<RgbPoint>, body: seq<Line>)
    requires Readable(pcl, rgb)
    requires points == KeptPoints(Pixels(pcl, rgb))
    requires |body| == |points|
    requires forall j :: 0 <= j < |points| ==> body[j] == ImageVertex(points[j])
    ensures WellFormed(Header(|points|) + body)
    ensures var kept := KeptIndices(Pixels(pcl, rgb));
      |points| == |kept| &&
      forall k :: 0 <= k < |kept| ==> (Header(|points|) + body)[HeaderSize + k] == PixelVertex(pcl, rgb, kept[k])
  {
    var lines := Header(|points|) + body;
    HeaderThenVertices(body);
    var pixels := Pixels(pcl, rgb);
    KeptPointsAtIndices(pixels);
    var kept := KeptIndices(pixels);
    forall k | 0 <= k < |kept|
      ensures lines[HeaderSize + k] == PixelVertex(pcl, rgb, kept[k])
    {
      assert lines[HeaderSize + k] == body[k] == ImageVertex(points[k]);
      PixelVertexReversesChannels(pcl, rgb, kept[k]);
    }
  }

  /** Writes a point cloud and its colour image: one vertex line for every
      kept pixel, in pixel order, each showing the pixel's xyz and its colour
      as red, green, blue. */
  method WriteImage(pcl: XyzImage, rgb: ColorImage) returns (lines: seq<Line>)
    requires Readable(pcl, rgb)
    ensures WellFormed(lines)
    ensures var kept := KeptIndices(Pixels(pcl, rgb));
      |lines| == HeaderSize + |kept| &&
      forall k :: 0 <= k < |kept| ==> lines[HeaderSize + k] == PixelVertex(pcl, rgb, kept[k])
  {
    var width := pcl.width;
    var height := rgb.height;
    ghost var pixels := Pixels(pcl, rgb);
    var points: seq<RgbPoint> := [];
    for i := 0 to width * height
      invariant points == KeptPoints(pixels[..i])
    {
      KeptPointsStep(pixels, i);
      assert pixels[i] == PixelAt(pcl, rgb, i);
      var x, y, z := pcl.xyz[3 * i], pcl.xyz[3 * i + 1], pcl.xyz[3 * i + 2];
      if z == 0 {
        continue;
      }
      var c0, c1, c2 := rgb.bgra[4 * i], rgb.bgra[4 * i + 1], rgb.bgra[4 * i + 2];
      var alpha := rgb.bgra[4 * i + 3];
      if c0 == 0 && c1 == 0 && c2 == 0 && alpha == 0 {
        continue;
      }
      points := points + [RgbPoint(x, y, z, c0, c1, c2)];
    }
    var body: seq<Line> := [];
    for k := 0 to |points|
      invariant |body| == k
      invariant forall j :: 0 <= j < k ==> body[j] == ImageVertex(points[j])
    {
      var p := points[k];
      body := body + [ImageVertex(p)];
    }
    assert pixels[..width * height] == pixels;
    lines := Header(|points|) + body;
    ImageLines(pcl, rgb, points, body);
  }

  // ---------------------------------------------------------------------
  // Labelled points
  // ---------------------------------------------------------------------

  const Red: Rgb := Rgb(215, 48, 39)
  const Orange: Rgb := Rgb(244, 109, 67)
  const Gold: Rgb := Rgb(253, 173, 97)
  const Brown: Rgb := Rgb(254, 224, 144)
  const Yellow: Rgb := Rgb(255, 255, 191)
  const Sky: Rgb := Rgb(224, 243, 248)
  const Ocean: Rgb := Rgb(171, 217, 233)
  const Blue: Rgb := Rgb(116, 173, 209)
  const Deep: Rgb := Rgb(69, 117, 180)
  const Black: Rgb := Rgb(0, 0, 0)

  /** The colour of a cluster id when writing labelled points: a palette
      colour for clusters 0 to 8, black for every other id. */
  function ClusterColor(cluster: int): (c: Rgb)
    ensures c == Black <==> !(0 <= cluster <= 8)
  {
    match cluster
    case 0 => Red
    case 1 => Blue
    case 2 => Brown
    case 3 => Deep
    case 4 => Orange
    case 5 => Gold
    case 6 => Yellow
    case 7 => Sky
    case 8 => Ocean
    case _ => Black
  }

  /** The palette tells clusters 0 to 8 apart: two ids share a colour iff
      they are equal or both lie outside 0 to 8. */
  lemma ClusterColorsDistinct(c: int, d: int)
    ensures ClusterColor(c) == ClusterColor(d) <==> c == d || (!(0 <= c <= 8) && !(0 <= d <= 8))
  {
  }

  function PointVertex(p: Point, color: Rgb): Line
  {
    Vertex(p.pos.x, p.pos.y, p.pos.z, color)
  }

  /** Writes labelled points: one vertex line per point, in input order,
      coloured by cluster. */
  method WritePoints(points: seq<Point>) returns (lines: seq<Line>)
    ensures WellFormed(lines) && |lines| == HeaderSize + |points|
    ensures forall k :: 0 <= k < |points| ==>
      lines[HeaderSize + k] == PointVertex(points[k], ClusterColor(points[k].cluster))
  {
    var body: seq<Line> := [];
    for k := 0 to |points|
      invariant |body| == k
      invariant forall j :: 0 <= j < k ==> body[j] == PointVertex(points[j], ClusterColor(points[j].cluster))
    {
      var p := points[k];
      body := body + [PointVertex(p, ClusterColor(p.cluster))];
    }
    lines := Header(|points|) + body;
  }

  /** The cluster id that marks a point of the context. */
  const ContextCluster: int := 100
  const ContextColor: Rgb := Rgb(174, 1, 126)

  /** The colour of a point when writing a colorized context: the context
      colour for the context cluster, black for every other id. */
  function ContextHighlight(cluster: int): (c: Rgb)
    ensures c == ContextColor <==> cluster == ContextCluster
    ensures c == Black <==> cluster != ContextCluster
  {
    if cluster == ContextCluster then ContextColor else Black
  }

  /** Marks every context point as belonging to the context cluster, in
      place, leaving its coordinates alone. */
  method MarkContext(context: array<Point>)
    modifies context
    ensures forall k :: 0 <= k < context.Length ==>
      context[k] == old(context[k]).(cluster := ContextCluster)
  {
    for k := 0 to context.Length
      invariant forall j :: 0 <= j < k ==> context[j] == old(context[j]).(cluster := ContextCluster)
      invariant forall j :: k <= j < context.Length ==> context[j] == old(context[j])
    {
      context[k] := context[k].(cluster := ContextCluster);
    }
  }

  /** Writes a colorized cloud: one vertex line per point, in the order
      given, highlighting the context cluster. */
  method WriteContext(points: seq<Point>) returns (lines: seq<Line>)
    ensures WellFormed(lines) && |lines| == HeaderSize + |points|
    ensures forall k :: 0 <= k < |points| ==>
      lines[HeaderSize + k] == PointVertex(points[k], ContextHighlight(points[k].cluster))
  {
    var body: seq<Line> := [];
    for k := 0 to |points|
      invariant |body| == k
      invariant forall j :: 0 <= j < k ==> body[j] == PointVertex(points[j], ContextHighlight(points[j].cluster))
    {
      var p := points[k];
      if p.cluster == ContextCluster {
        body := body + [PointVertex(p, ContextColor)];
        continue;
      }
      body := body + [PointVertex(p, Black)];
    }
    lines := Header(|points|) + body;
  }
}

# K4a capture core in Dafny

A model of the capture core of the K4a depth-camera tool (Azure Kinect). It has three parts:

- **Ray lookup table** (`KinectSession`). Once per calibration, the session walks the depth camera's
  width × height grid row-major and asks the camera model to unproject each pixel at depth 1.0. It
  stores the ray's x and y, or NaN in both slots when the pixel is outside the field of view.
  `ResolveDepth` creates the table image and the point-cloud image at the depth resolution.
- **Frame** (`FrameCapture`). A frame logs warnings for the capture outcome and for missing images,
  but never stops. Pass 1 writes one cell of the point-cloud image per depth pixel: the table ray
  scaled by the depth (with the raw depth as z), or a NaN triple. It counts the valid pixels.
  Pass 2 collects every cell with no NaN component, in index order.
- **ASCII PLY export** (`Ply`). Three writers. The image writer keeps pixels with non-zero z whose
  colour and alpha are not all zero, and writes their BGR colour bytes as red, green, blue. The
  labelled-point writer colours by cluster id through a nine-colour palette. The context writer
  highlights cluster 100. Every file is the fixed ten-line header followed by one vertex line per
  point, and the header declares exactly that many vertices.

Modules: `K4a` (k4a.dfy) holds the driver's value types and the `Image` class for driver images
whose buffers the core writes. `Geometry` (geometry.dfy) holds coordinates and labelled points.
`FrameCapture` (frame.dfy), `KinectSession` (kinect.dfy) and `Ply` (ply.dfy) model src/frame.cpp,
src/kinect.cpp and src/ply.cpp.

NaN is a constructor of `Float` (`Num(real) | NaN`), kept per component because both source checks
are per component. Coordinates are reals. The camera model's 2D-to-3D call is the `unproject`
function carried by a `Calibration`.

Behaviour worth knowing:

- A capture timeout or failure does not abort the frame. It is logged, and the frame goes on with
  whatever images it gets.
- Invalid pixels are NaN triples in the point-cloud image, not zero vectors, and pass 2 drops them.
- The image writer walks the point cloud's width times the colour image's height.

## Model

| member | source | states |
|---|---|---|
| `FrameCapture.WaitWarnings` | src/frame.cpp:18-35 | success logs nothing; a timeout logs the timeout warning and the read warning; a failure logs only the read warning; no image warning comes from this dispatch |
| `FrameCapture.TimeoutFallsThrough` | src/frame.cpp:22-34 | a timeout, having no `break`, logs its own warning and then exactly what the failure case logs |
| `FrameCapture.ImageWarnings` | src/frame.cpp:37-55 | one warning per missing image, and a missing colour image is reported with the depth-image message |
| `FrameCapture.Received` | src/frame.cpp:18-48 | after a wait that did not succeed, the capture handle is null and no image arrives; after success the capture's images are used |
| `FrameCapture.DepthSamples` | src/frame.cpp:59-62 | pass 1 walks width × height depth samples, and none for a missing depth image |
| `FrameCapture.PointCloud` | src/frame.cpp:67-78 | pass 1 writes exactly one cell per depth pixel |
| `FrameCapture.CountValid` | src/frame.cpp:66-79 | numPoints lies between 0 and the number of depth pixels |
| `FrameCapture.PointCloudAt` | src/frame.cpp:67-78 | for a non-zero depth with two non-NaN table components the cell is (tx·d, ty·d, d), with z the unscaled depth; otherwise it is the NaN triple |
| `FrameCapture.InvalidPixelsGiveNaN` | src/frame.cpp:68-78 | a NaN table entry makes its pixel invalid whatever its depth, and a zero depth makes it invalid whatever the table holds |
| `FrameCapture.DepthToPointCloud` | src/frame.cpp:58-79 | the written prefix of the point-cloud buffer is PointCloud(depth, table), cells past it are unchanged, and numPoints is CountValid |
| `FrameCapture.ValidPoints` | src/frame.cpp:86-98 | pass 2 collects at most one point per cell |
| `FrameCapture.ValidIndices` | src/frame.cpp:86-92 | the collected indices are exactly the cells with no NaN component, in strictly increasing order |
| `FrameCapture.ValidPointsAtIndices` | src/frame.cpp:86-98 | the k-th collected point has the coordinates of the cell at the k-th valid index: the exact subsequence, in index order |
| `FrameCapture.ValidPointsCount` | src/frame.cpp:66-98 | with a point-cloud image shaped like the depth image, pass 2 collects exactly numPoints points |
| `FrameCapture.UnitRayScaling` | src/frame.cpp:70-72 | with every table entry (1, 1) and every depth d ≠ 0, every cell is (d, d, d), numPoints is the pixel count, and every collected point is (d, d, d) |
| `FrameCapture.Frame.constructor` | src/frame.cpp:8-100 | the log is the dispatch warnings followed by the image warnings; pass 1 then pass 2 run for every outcome; the points are those of the whole point-cloud image |
| `FrameCapture.Frame.CollectPoints` | src/frame.cpp:81-98 | appends ValidPoints of the point-cloud buffer to the points already held |
| `KinectSession.TableEntry` | src/kinect.cpp:72-78 | either table component is NaN iff the camera model reports the pixel invalid |
| `KinectSession.EntryRoundTrip` | src/kinect.cpp:72-78 | decoding a cell gives back the ray's x and y for a valid pixel and nothing for an invalid one |
| `KinectSession.RowMajor` | src/kinect.cpp:63-65 | pixel (x, y) has index y·width + x, inside the grid, and x and y are recovered from it |
| `KinectSession.RayTable` | src/kinect.cpp:56-57 | the table has one cell per pixel of the depth calibration's resolution |
| `KinectSession.RayTableAt` | src/kinect.cpp:63-78 | the cell at y·width + x holds the camera model's answer for pixel (x, y) at depth 1.0 |
| `KinectSession.PixelThroughTable` | src/kinect.cpp:68-78 | through the session's table, an out-of-view pixel gives the NaN triple whatever its depth, and a valid pixel with depth d ≠ 0 gives its ray scaled by d, with z = d |
| `KinectSession.Kinect.XyLookupTable` | src/kinect.cpp:51-81 | the first width·height cells become RayTable(calibration), no later cell changes, and the k-th write goes to index k = y·width + x, so every cell is written exactly once |
| `KinectSession.Kinect.ResolveDepth` | src/kinect.cpp:83-100 | both images are fresh and sized to the depth resolution, with strides width·8 and width·12 bytes; the table is filled after it is created |
| `KinectSession.Kinect.constructor` | src/kinect.cpp:39 | the session resolves its depth images at construction: both images and their buffers are new, sized to the depth resolution with strides width·8 and width·12 bytes, and the table holds RayTable |
| `KinectSession.Kinect.GetImage` | src/kinect.cpp:102-106 | a new frame records which images the capture delivered and logs the dispatch and image warnings accordingly; it shares the session's table and point-cloud images; it fills the latter's first cells from the received depth image, leaves the cells past it unchanged (all of them after a failed wait), and collects the valid points of the whole buffer |
| `Ply.Decimal` | src/ply.cpp:14 | the vertex count is written as a non-empty string of decimal digits |
| `Ply.DecimalRoundTrip` | src/ply.cpp:14 | reading the written count back gives the count |
| `Ply.Header` | src/ply.cpp:10-22 | the header is exactly ten lines |
| `Ply.HeaderDeclaresBody` | src/ply.cpp:14 | in every well-formed file the count read from the header equals the number of vertex lines after it |
| `Ply.Pixels` | src/ply.cpp:44-51 | the image writer walks point-cloud width × colour-image height pixels |
| `Ply.KeptPoints` | src/ply.cpp:51-69 | at most one point is kept per pixel |
| `Ply.KeptIndices` | src/ply.cpp:51-69 | pixel i is kept iff its z is non-zero and its colour bytes and alpha are not all zero; kept indices are strictly increasing |
| `Ply.KeptPointsAtIndices` | src/ply.cpp:51-69 | the k-th kept point is the point of the k-th kept pixel: order is preserved |
| `Ply.PixelVertexReversesChannels` | src/ply.cpp:53-78 | a kept pixel's line has xyz from 3i, 3i+1, 3i+2 and red, green, blue from bytes 4i+2, 4i+1, 4i |
| `Ply.HeaderThenVertices` | src/ply.cpp:10-22 | the header for n vertices followed by n vertex lines is a well-formed file |
| `Ply.ImageLines` | src/ply.cpp:51-78 | the kept points' vertex lines after the header show each kept pixel, in pixel order, with its xyz and reversed colour bytes |
| `Ply.WriteImage` | src/ply.cpp:40-83 | header declaring the number of kept pixels, then one vertex line per kept pixel in pixel order, with reversed channels |
| `Ply.ClusterColor` | src/ply.cpp:141-182 | clusters 0 to 8 get a palette colour, and any other id gets black |
| `Ply.ClusterColorsDistinct` | src/ply.cpp:24-33 | two cluster ids share a colour iff they are equal or both lie outside 0 to 8 |
| `Ply.WritePoints` | src/ply.cpp:133-186 | header declaring the number of points, then exactly one line per point in input order, coloured by ClusterColor |
| `Ply.ContextHighlight` | src/ply.cpp:121-127 | a point gets 174 1 126 iff its cluster is 100, and black otherwise |
| `Ply.MarkContext` | src/ply.cpp:97-103 | every context point gets cluster 100, its coordinates unchanged |
| `Ply.WriteContext` | src/ply.cpp:112-131 | header declaring the number of points, then one line per point in the order given, highlighting cluster 100 |

## Left out

- Device discovery, open, calibration fetch and camera start in the `Kinect` constructor
  (src/kinect.cpp:4-38, 40-49): driver calls whose failures are only logged.
- The driver's own computations (capture wait, image fetch, camera-model unprojection, image
  creation and buffers, depth-to-point-cloud and colour/depth reprojection). They enter as data or
  as the `unproject` function. The return codes of `k4a_image_create` are ignored by the source, so
  allocation failure is not modelled.
- include/transformer.h: it only sequences driver calls and the image writer.
- IEEE float semantics: NaN is a constructor, products are exact reals, and no rounding or float
  text formatting is modelled. Vertex lines are records, not text.
- File output: the writers return their lines. Opening the file, truncation by the header and
  append of the body, and the `io::pwd()` paths are not modelled.
- `colorize`'s centroid and distance computation (floats) and its `std::set` deduplication and
  ordering, which depend on the point type; the point type's source is not part of this model.
  `WriteContext` takes the vector colorize returns as given.
- The bounds-taking writer declared at include/ply.h:8-10, which has no definition in the source.
- Resource release (`Frame::release`, `Kinect::close`), the mutex, timing and `LOG(INFO)`.
- The warning messages' text: warnings are an enumeration.
- Integer overflow of `width * height` in `int`: dimensions are unbounded naturals.

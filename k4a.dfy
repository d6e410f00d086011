/** Value types and image handles of the depth-camera driver (the Azure Kinect
    SDK) as the capture core uses them. The driver's own computations are not
    modelled: they enter as data (images, wait results) or as the
    `unproject` function carried by a calibration. */
module K4a {

  datatype Option<T> = None | Some(value: T)

  /** A 32-bit float as the core uses it: a number, or the not-a-number value
      that the core writes to mark "no data". Rounding is not modelled. */
  datatype Float = Num(v: real) | NaN

  /** k4a_float2_t: one cell of the xy lookup table. */
  datatype Float2 = Float2(x: Float, y: Float)

  /** k4a_float3_t: one cell of the point-cloud image. */
  datatype Float3 = Float3(x: Float, y: Float, z: Float)

  /** The triple the core writes for a pixel that yields no point. */
  const NaN3: Float3 := Float3(NaN, NaN, NaN)

  type u8 = b: int | 0 <= b < 0x100
  type u16 = d: int | 0 <= d < 0x1_0000
  type i16 = v: int | -0x8000 <= v < 0x8000

  /** sizeof(k4a_float2_t) and sizeof(k4a_float3_t), in bytes. */
  const SizeOfFloat2: nat := 8
  const SizeOfFloat3: nat := 12

  /** A 3D ray returned by the camera model. */
  datatype Ray = Ray(x: real, y: real, z: real)

  /** The part of k4a_calibration_t the core reads: the depth camera's
      resolution, and the camera model's 2D-to-3D conversion of a depth-image
      pixel at depth 1.0 (k4a_calibration_2d_to_3d from depth space to depth
      space), which yields a ray or reports the pixel invalid. */
  datatype Calibration = Calibration(
    depthWidth: nat,
    depthHeight: nat,
    unproject: (nat, nat) -> Option<Ray>)

  /** k4a_wait_result_t, the outcome of waiting for a capture. */
  datatype WaitResult = Succeeded | Timeout | Failed

  /** A 16-bit depth image: width × height samples in millimetres, row-major. */
  datatype DepthImage = DepthImage(width: nat, height: nat, pixels: seq<u16>)
  {
    predicate Valid() { |pixels| == width * height }
  }

  /** A BGRA32 colour image: four bytes per pixel, in the order blue, green,
      red, alpha. */
  datatype ColorImage = ColorImage(width: nat, height: nat, bgra: seq<u8>)

  /** A point-cloud image as the driver's depth-to-point-cloud transform
      fills it: three signed 16-bit coordinates (x, y, z) per pixel. */
  datatype XyzImage = XyzImage(width: nat, height: nat, xyz: seq<i16>)

  /** A capture handle's images; a null or incomplete capture yields `None`. */
  datatype Capture = Capture(depth: Option<DepthImage>, color: Option<ColorImage>)

  /** What the driver hands out for the null capture handle: no images. */
  const NullCapture: Capture := Capture(None, None)

  /** A driver image whose buffer the core writes in place (the xy table and
      the point-cloud image): its shape is fixed at creation. */
  class Image<T(0)> {
    const width: nat
    const height: nat
    const strideBytes: nat
    const buffer: array<T>

    /** The buffer holds exactly one element per pixel. */
    predicate Valid() { buffer.Length == width * height }

    /** k4a_image_create for a custom format; the initial contents are
        unspecified. */
    constructor Create(width: nat, height: nat, strideBytes: nat)
      ensures this.width == width && this.height == height
      ensures this.strideBytes == strideBytes
      ensures Valid() && fresh(buffer)
    {
      this.width := width;
      this.height := height;
      this.strideBytes := strideBytes;
      buffer := new T[width * height];
    }
  }
}

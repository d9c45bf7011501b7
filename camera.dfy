/** The platform camera objects the activity receives. Only what the activity
    reads or changes is kept: the three planes of a YUV_420_888 image and
    whether the image has been closed (its native buffer handed back). */
module Camera {
  import opened JavaTypes

  /** One plane of an image: its bytes, row stride and pixel stride. */
  datatype Plane = Plane(bytes: seq<int8>, rowStride: int, pixelStride: int)

  /** An acquired camera image; `close()` may be called more than once. */
  class Image {
    const y: Plane
    const u: Plane
    const v: Plane
    var closed: bool

    constructor (y: Plane, u: Plane, v: Plane)
      ensures this.y == y && this.u == u && this.v == v
      ensures !closed
    {
      this.y, this.u, this.v := y, u, v;
      closed := false;
    }

    method Close()
      modifies this
      ensures closed
    {
      closed := true;
    }
  }
}

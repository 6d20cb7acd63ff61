/** Small shared vocabulary: optional values and bytes. */
module Base {

  /** A value that may be absent (a missing object key, a null reference). */
  datatype Option<+T> = None | Some(value: T)

  /** One octet of an ArrayBuffer. */
  type Byte = x: int | 0 <= x < 256

  /** A blob URL as returned by URL.createObjectURL; its text is opaque here. */
  type Url = string
}

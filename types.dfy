/** Small value types shared by the other modules. */
module Types {

  /** A Kotlin nullable value: `None` stands for `null`. */
  datatype Option<T> = None | Some(value: T)

  /** Kotlin's `Byte`, the element type of a luminance plane: a signed 8-bit integer. */
  newtype int8 = x: int | -128 <= x < 128

  /** `android.util.Size` and the width/height pair of a bitmap or canvas. */
  datatype Size = Size(width: int, height: int)
}

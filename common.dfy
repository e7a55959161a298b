/** Values shared by the whole model: Java's nullable references, exceptions,
    fixed-width integers, calendar dates and the shape of a stored document. */
module Common {

  /** A Java reference that may be null: `None` is null. */
  datatype Option<+T> = None | Some(value: T)

  /** The outcome of a Java call that either returns or throws. */
  datatype Result<+R, +E> = Success(value: R) | Failure(error: E)

  /** The Java exceptions the modelled code can raise. */
  datatype JavaException =
    | NullPointerException
    | IllegalArgumentException(message: string)

  /** Java's 32-bit `int`. */
  newtype Int32 = x: int | -0x8000_0000 <= x < 0x8000_0000

  /** A `java.time.LocalDate`, as its day number counted from 1970-01-01;
      comparing day numbers is comparing dates chronologically. */
  type Date = int

  /** A MongoDB document: the `@Id` string, null until the store assigns one,
      and the mapped fields of the entity. */
  datatype Document<+T> = Document(id: Option<string>, fields: T)
}

/** Error results for the Java exceptions the list-holder example can raise.
    A rejected call returns `Failure` and changes nothing, as a thrown
    exception leaves the receiver untouched. */
module Wrappers {

  /** The exceptions of java.util that the modelled calls can throw. */
  datatype Error =
    | UnsupportedOperation     // structural change through an unmodifiable view or its iterator
    | IndexOutOfBounds         // ArrayList.remove(int) with a bad index
    | NoSuchElement            // Iterator.next() past the end
    | IllegalState             // Iterator.remove() with no element to remove
    | ConcurrentModification   // Iterator.remove() after the list shrank behind the iterator

  datatype Result<+T> = Success(value: T) | Failure(error: Error) {
    predicate IsFailure() {
      Failure?
    }

    function PropagateFailure<U>(): Result<U>
      requires Failure?
    {
      Failure(error)
    }

    function Extract(): T
      requires Success?
    {
      value
    }
  }

  /** How a client scenario ended: normally, or by an exception that escaped it
      after some element state had already been changed. */
  datatype Outcome = Done | Threw(error: Error)
}

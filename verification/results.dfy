/** The error path of the service: an operation either yields a value or the
    runtime fault the Java code would raise. */
module Results {

  /** The runtime fault the source can raise on the paths modelled here. */
  datatype Fault = NullPointerException

  datatype Result<+T> = Success(value: T) | Failure(fault: Fault)
}

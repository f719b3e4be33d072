/** The parallelisation techniques the command line offers for turning
    HTML pages into parsed documents. */
module EnumsClasses {

  datatype ParallelTechnique = Multiprocessing | Multithreading | Synchronous {
    /** The enum member's `.value`. */
    function Value(): string {
      match this
      case Multiprocessing => "multiprocessing"
      case Multithreading => "multithreading"
      case Synchronous => "synchronous"
    }
  }
}

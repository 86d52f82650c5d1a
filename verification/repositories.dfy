/**
 * models/repositories/repository.go: the repository the rest of the program
 * works through, one of the two backends. A Go interface value holding a
 * pointer to either struct becomes a datatype with one variant per backend.
 */
module Repositories {
  import opened Files
  import opened MemRepo
  import opened CsvRepo

  datatype TodoRepository = Memory(mem: MemoryTodoRepository) | Csv(csv: CsvFileTodoRepository)
  {
    /** The objects the backend's operations may change. */
    function Footprint(): set<object> {
      match this
      case Memory(m) => {m}
      case Csv(c) => {c.file}
    }

    /** The CSV backend's file is consistent; the memory backend has nothing to keep. */
    ghost predicate Valid()
      reads Footprint()
    {
      Csv? ==> csv.file.Valid()
    }
  }
}

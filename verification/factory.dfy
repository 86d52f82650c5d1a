/**
 * models/repositories/factory/factory.go: the backend chosen by the
 * configured repository mode. The CSV backend works on the data file passed in.
 */
module Factory {
  import opened Errors
  import opened Files
  import opened MemRepo
  import opened CsvRepo
  import opened Repositories
  import Configuration

  /**
   * GetTodoRepositoryInstance: a configuration error is passed on; mode "csv"
   * gives the CSV backend, "mem" and every other mode a new, empty memory
   * backend.
   */
  method GetTodoRepositoryInstance(config: Result<map<string, string>>, dataFile: DataFile) returns (r: Result<TodoRepository>)
    ensures config.Err? ==> r == Err(config.error)
    ensures config.Ok? ==> r.Ok?
    ensures r.Ok? ==> (r.value.Csv? <==> Configuration.GetRepositoryMode(config) == Ok(Configuration.CsvFileRepository))
    ensures r.Ok? && r.value.Csv? ==> fresh(r.value.csv) && r.value.csv.file == dataFile
    ensures r.Ok? && r.value.Memory? ==> fresh(r.value.mem) && r.value.mem.todoStore == []
  {
    var repositoryMode := Configuration.GetRepositoryMode(config);
    if repositoryMode.Err? {
      return Err(repositoryMode.error);
    }
    match repositoryMode.value {
      case "mem" =>
        var m := new MemoryTodoRepository();
        return Ok(Memory(m));
      case "csv" =>
        var c := new CsvFileTodoRepository(dataFile);
        return Ok(Csv(c));
      case _ =>
        var m := new MemoryTodoRepository();
        return Ok(Memory(m));
    }
  }
}

/**
 * The data source the interpreter reads (src/file_system/file_system.rs):
 * whether a path exists, its text, and its text read as JSON. A file system
 * is taken to answer the same way every time it is asked, so each operation
 * is a function of the path.
 */
module FileSystems {
  import opened Wrappers
  import opened Json

  datatype FileSystem = FileSystem(
    pathExists: string -> bool,
    read: string -> Option<string>,
    readSerde: string -> Option<Json>)
}

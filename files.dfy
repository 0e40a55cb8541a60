/** The filesystem as data: directory entries, file contents and path joining. */
module Files {

  /** One entry of a directory listing (`os.DirEntry`): its name and whether it is a directory. */
  datatype Entry = Entry(name: string, isDir: bool)

  type Bytes = seq<bv8>

  /** A read-only view of the disk: the contents of every readable file and
      the listing of every readable directory, both by path. A path that is
      not in `files` cannot be read; one that is not in `dirs` cannot be listed. */
  datatype FileSystem = FileSystem(files: map<string, Bytes>, dirs: map<string, seq<Entry>>)

  /** `filepath.Join` of two elements: an empty element is dropped, otherwise
      the two are joined with one separator. */
  function JoinPath(dir: string, name: string): string {
    if dir == "" then name
    else if name == "" then dir
    else dir + "/" + name
  }

  /** A listing in which no name occurs twice, as `os.ReadDir` returns it. */
  predicate DistinctNames(listing: seq<Entry>) {
    forall i, j :: 0 <= i < j < |listing| ==> listing[i].name != listing[j].name
  }
}

/** The file system as the program observes it: the results of `Directory.EnumerateFiles`. */
module FileSystem {
  import opened Wrappers

  /** `SearchOption` of `Directory.EnumerateFiles`. */
  datatype SearchOption = TopDirectoryOnly | AllDirectories

  /**
   * What one `Directory.EnumerateFiles` call yields when it is consumed: the paths it produced,
   * in order, and the exception it threw after them, if any (a missing directory throws before
   * the first path; an unreadable subdirectory can throw part-way through).
   */
  datatype Enumeration = Enumeration(items: seq<string>, fault: Option<string>)

  /** `Directory.EnumerateFiles(directory, pattern, option)`. */
  type Enumerator = (string, string, SearchOption) -> Enumeration
}

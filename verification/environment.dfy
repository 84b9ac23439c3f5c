/**
 * What the permission checks consult outside the strings they are given:
 * the operating system, the file system and library matchers whose
 * behaviour this model does not spell out. Each is a parameter; `None`
 * from a matcher means the library raised an error for that pattern.
 */
module Environment {
  import opened Results

  datatype Host = Host(
    /** `Path.home()`. */
    home: string,
    /** `re.search(pattern, text)` found a match (`None`: the pattern does not compile). */
    search: (string, string) -> Option<bool>,
    /** `PurePath(path).full_match(pattern)` (`None`: `ValueError` or `TypeError`). */
    fullMatch: (string, string) -> Option<bool>,
    /** Whether a character lies in an `fnmatch` bracket class, given the text between the brackets. */
    inClass: (string, char) -> bool,
    /** Symlink resolution and the rewriting of home-directory paths to `~/...`. */
    resolve: string -> string)
}

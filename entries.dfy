/** The values every stage of the newest pipeline passes along. */
module Entries {

  datatype Option<T> = None | Some(value: T)

  datatype Result<T, E> = Ok(value: T) | Err(error: E)

  /** The fields of a `struct stat` that the program reads. Timestamps are
      seconds since the epoch (`time_t`). */
  datatype Stat = Stat(size: int, atime: int, mtime: int, ctime: int)

  /** The `flag` that nftw hands to its callback: a regular file, a
      directory, a directory that could not be read, a failed stat, and
      (under FTW_PHYS) a symbolic link, which is not followed. */
  datatype Flag = F | D | DNR | NS | SL

  /** One callback of the walk: the object's path, its flag and its stat
      buffer (whatever nftw left there when the stat failed). */
  datatype Visit = Visit(flag: Flag, path: string, sb: Stat)

  /** ENTRY: the chosen timestamp and a copy of the path. */
  datatype Entry = Entry(sortTime: int, fileName: string)

  /** The global settings that main's option loop fills in. */
  datatype Config = Config(
    useAtime: bool,
    useCtime: bool,
    reverse: bool,
    includeDirs: bool,
    quietOutput: bool,
    humanReadable: bool,
    ignoreEmpty: bool,
    nToDisplay: nat)

  /** DEFAULT_DISPLAY_FILES */
  const DefaultDisplayFiles: nat := 1

  /** The settings before any option is seen: mtime, newest first, files only. */
  const DefaultConfig := Config(false, false, false, false, false, false, false, DefaultDisplayFiles)

  /** What the option loop can reject. */
  datatype OptError =
    | TimeConflict          // -a and -c together
    | NegativeCount         // the -n argument starts with '-'
    | InvalidCount(arg: string)  // trailing junk, or a value of 0
    | HelpRequested         // -h: usage(EXIT_SUCCESS)
    | BadOption             // any other option character: usage(EXIT_FAILURE)

  /** One line written to the error channel. */
  datatype Diagnostic =
    | UnableToRead(path: string)    // FTW_DNR
    | CouldNotStat(path: string)    // FTW_NS
    | NotThere(root: string)        // stat of a root failed
    | NotADirectory(root: string)   // a root is not a directory
    | NoDirectoryGiven              // no root argument at all
    | Usage(reason: OptError)       // a rejected option

  const ExitSuccess: int := 0
  const ExitFailure: int := 1
}

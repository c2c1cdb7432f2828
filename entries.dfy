/** The records the layout tool passes between its stages: the flat entries
    produced line by line, the directory tree built from them, and the errors
    that abort a run. */
module Entries {
  import opened Strings

  /** One entry of the flat list, tagged with its nesting level (in indent
      units) and the 1-based number of the line it came from. A directory's
      name always carries its trailing `/`. */
  datatype Entry =
    | DirEntry(name: string, indentLevel: nat, line: nat)
    | FileEntry(name: string, indentLevel: nat, line: nat)

  datatype File = File(name: string, indentLevel: nat, line: nat)

  /** A directory of the tree. `created` is true once a parent's consolidated
      `mkdir -p` command already creates this directory. */
  datatype Directory = Directory(
    name: string,
    indentLevel: nat,
    line: nat,
    directories: seq<Directory>,
    files: seq<File>,
    created: bool)

  /** The directory the tree builder starts from. */
  function Root(): Directory
  {
    Directory("root", 0, 1, [], [], false)
  }

  /** A fresh directory for a flat directory entry: no children yet, not created. */
  function NewDirectory(name: string, indentLevel: nat, line: nat): Directory
  {
    Directory(name, indentLevel, line, [], [], false)
  }

  /** Every directory entry of the flat list is named with a trailing `/`. */
  predicate SlashNamed(list: seq<Entry>)
  {
    forall k :: 0 <= k < |list| && list[k].DirEntry? ==> EndsWithSlash(list[k].name)
  }

  /** The entries of a list come in non-decreasing line order. */
  predicate LinesSorted(list: seq<Entry>)
  {
    forall i, j :: 0 <= i < j < |list| ==> list[i].line <= list[j].line
  }

  /** A tree as the builder makes it, before a script is generated from it:
      no directory below the top is marked created yet, and every one is
      named with a trailing `/`. */
  predicate Pristine(d: Directory)
    decreases d
  {
    AllPristine(d.directories)
  }

  predicate AllPristine(ds: seq<Directory>)
    decreases ds
  {
    |ds| == 0
    || (var last := ds[|ds| - 1];
        && AllPristine(ds[..|ds| - 1])
        && !last.created && EndsWithSlash(last.name) && Pristine(last))
  }

  /** The failures that abort a run. `ZeroIndentUnit` is the division by a
      zero indentation unit at the first non-blank line; `BadIndent` carries
      the line and the raw count of leading whitespace characters; the
      duplicate errors carry the enclosing directory, the clashing name and
      both lines. */
  datatype Error =
    | ZeroIndentUnit(line: nat)
    | BadIndent(line: nat, value: nat)
    | DupDir(parent: string, parentLine: nat, name: string, firstLine: nat, secondLine: nat)
    | DupFile(parent: string, parentLine: nat, name: string, firstLine: nat, secondLine: nat)

  datatype Result<T> = Ok(value: T) | Err(error: Error)

  datatype Option<T> = None | Some(value: T)
}

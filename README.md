# mktree, modelled in Dafny

`mktree.py` reads a text layout of directories and files and writes a
shell script that creates the layout. One line of the layout names one
entry. Nesting is shown by indentation in units of `--indent` characters
(4 by default). A path `a/b/file` names directories on the way to a file, a
trailing `/` names directories only, and `--` starts a comment in the last
segment. The script consists of `mkdir -p` and `touch` lines.

The tool works in three stages on one `MkTree` object:

1. **Flattening** (`gen_dir` with `make_dirs`). Each raw line is read in
   turn. A line counter advances for every line. Blank lines are skipped.
   The indentation must be a multiple of the unit. The text becomes a chain
   of directory entries and an optional file entry, appended to the flat
   list `tree_list`, each entry tagged with its level and line number.
2. **Tree building** (`parse_dir`). A recursive descent over the flat list
   fills the root directory. It is driven by the levels and reports how
   many entries each call consumed. Two sibling directories, or two
   sibling files, with the same name are an error.
3. **Script generation** (`gen_sh` with `make_line`). The script text is
   built recursively with a consolidation rule:
   - a directory with one subdirectory emits no `mkdir` of its own;
   - a directory with several subdirectories emits one braced
     `mkdir -p path{a,b}` and marks each of them created;
   - a childless directory emits `mkdir -p path` unless it is marked.

   Then one `touch` line is emitted for the directory's files, followed by
   the children's text.

The project's modules:

| module | file | contents |
|---|---|---|
| `Strings` | strings.dfy | the Python string builtins used (`lstrip`, `rstrip`, `replace`, `split`, `join`, `"--" in`, `split("--")[0]`) as functions, with lemmas that characterise them |
| `Entries` | entries.dfy | the flat `Entry`, the tree's `Directory` and `File` records, the errors |
| `Flattener` | flattener.dfy | what one line yields (`ParseLine`) and what a sequence of lines yields (`Flatten`, `Reading`) |
| `Builder` | builder.dfy | `parse_dir` as the mutually recursive functions `ParseFrom`/`ParseNode` and what they guarantee |
| `Generator` | generator.dfy | `make_line`, the script of a tree as a list of commands (`ScriptAt`), its text, and the marking of `created` flags |
| `Tool` | mktree.dfy | the class `MkTree` with imperative methods for `make_dirs`, `gen_dir`, `parse_dir`, `gen_sh` and `make_file`, each proved equal to the functions above; end-to-end lemmas about whole runs |
| `Scenarios` | scenarios.dfy | a worked run: the lines `a/x`, `a/y` fail with a duplicate `a/` |

Where the code is stateful, the model is too. `MkTree` is a class whose
fields are the flat list, the line counter, the root and the text. Its
methods update these fields with loops that follow the source. Each method's
`ensures` ties the new state to a specification function of the old state,
and the lemmas state what the source promises about those functions.

The tree nodes are modelled as values. `parse_dir` appends to the
directory it is given in place; the model returns the filled directory.
`gen_sh` sets `created` on the subdirectories of a directory with several
of them; the model returns the tree with those flags raised (`Marked`).

Some behaviours of the code that the model keeps as they are:

- There is no brace expansion in input lines: `a/{b,c}` is read as the
  directory `a/` and the file `{b,c}`. Braces only appear in generated
  `mkdir -p` and `touch` lines.
- Indentation is checked right after blank lines are skipped, before the
  comment is looked at, so a comment-only line with a bad indentation is an
  error. The comment is cut
  only from the last `/`-segment, after a left strip, and nothing is
  stripped afterwards, so `foo -- c` gives the file `foo ` (with its
  trailing space).
- A childless directory that is not marked created gets `mkdir -p path` of
  its own. So a layout whose root has no subdirectories starts its script
  with `mkdir -p ` and an empty path.

## Model

| member | source | states |
|---|---|---|
| Tool.MkTree.constructor | mktree.py:31-37 | a new tool has an empty flat list, the root `root` at level 0 and line 1, the counter at 0 and the given unit |
| Tool.MkTree.MakeDirs | mktree.py:87-97 | the directories built are the chain of the path segments (`DirChain`) at the current line, and the level returned is the start level plus one per directory built |
| Flattener.DirChainIsNonEmptySegments | mktree.py:89-95 | the chain has one entry per non-empty segment, in order: the left-stripped segment plus `/`, at consecutive levels from the start level; an empty segment is skipped and uses up no level |
| Flattener.DirChainShape | mktree.py:89-95 | every entry of the chain is a directory at the next consecutive level, on the current line, with a name ending in `/` |
| Tool.MkTree.GenDirLine | mktree.py:101-131 | one turn of the reading loop: the counter advances, and the flat list and error become the one-line step (`Step`) of that line's outcome (`ParseLine`) on the new line number; root and text are unchanged |
| Tool.MkTree.AppendPath | mktree.py:115-131 | the flat list grows by exactly the entries of the line's text (`PathEntries`): its directories, then its file; counter, root and text are unchanged |
| Tool.MkTree.ReadLines | mktree.py:101-131 | the reading loop: the final flat list, counter and error are those of `Reading` the lines in order from the old state, stopping at the first error; root and text are unchanged |
| Flattener.ReadingIsFlatten | mktree.py:101-131 | reading line by line and stopping at an error is the same as folding the list of every line's outcome (`Flatten`) |
| Tool.MkTree.GenDir | mktree.py:100-133 | flat list, counter, root and error become `ReadLayout` of the old state: the lines are flattened, then, if no line failed, the root is filled from the whole flat list; on an error the root is left as it was |
| Tool.MkTree.ParseDir | mktree.py:54-85 | the loop (with its duplicate scans and recursive calls) returns exactly `ParseFrom` of the flat list from the given position and level: the filled directory and the number of entries consumed, or the duplicate error |
| Builder.FindDir | mktree.py:66-68 | the result is the first sibling directory with that name, or none exists |
| Builder.FindFile | mktree.py:77-79 | the result is the first sibling file with that name, or none exists |
| Builder.ParseStops | mktree.py:57-61 | a successful fill stops at the end of the list or at the first entry whose level is below the call's level; every entry it consumed is at that level or deeper |
| Builder.NodeLevels | mktree.py:63-74 | the entries one directory entry consumes are all at its level or deeper |
| Builder.ParseKeeps | mktree.py:73-81 | filling only appends: the existing subdirectories and files are a prefix of the new ones, and name, level, line and flag are unchanged |
| Builder.ParseCounts | mktree.py:54-85 | every entry consumed by a fill occurs in the filled directory's subtree exactly as often as in the consumed part of the flat list, on top of what was there |
| Builder.ParseDistinct | mktree.py:66-79 | a fill that succeeds keeps every directory free of two child directories, or two files, of the same name |
| Builder.ParsePristine | mktree.py:63-73 | a fill over directory entries named with `/` yields subdirectories that are named with `/` and not marked created |
| Builder.ParseOrdered | mktree.py:73-81 | over a flat list in line order, a fill appends subdirectories and files in the order of their entries: every directory it fills has its subdirectories, and its files, in line order |
| Builder.ParseErrorWitness | mktree.py:66-79 | a failed fill fails only on a real duplicate: a second entry of the error's kind and name on its second line is in the unread part of the list, and a first one on its first line is either already a child of the directory or an earlier entry of that part; the enclosing directory reported is the one being filled or a directory entry read |
| Builder.BuildTreeChecks | mktree.py:54-85 | the duplicate checks only decide acceptance: against `NestTree`, the same descent with no name checked, the builder succeeds exactly when that tree has no directory with two same-named child directories or files, and then it builds that very tree |
| Builder.BuildTreeConsumesAll | mktree.py:54-133 | filling the root from position 0 consumes the whole flat list; every entry ends up in the tree exactly as often as it occurs in the list; the root keeps its name, line and flag, stays duplicate-free and unmarked below; over a list in line order, every directory's subdirectories and files are in line order |
| Flattener.BlankLine | mktree.py:103-106 | a line of whitespace gives no entries and no error |
| Flattener.BlankLineAdvances | mktree.py:101-106 | appending a whitespace line to the input only advances the counter: same flat list, same error |
| Flattener.IndentError | mktree.py:109-113 | a line fails exactly when it is not blank and the unit is 0 or does not divide its leading whitespace count; the error carries the line number and that count |
| Flattener.PathRoundTrip | mktree.py:115-131 | the entries of a text whose segments are written plainly (none empty before the last, none starting with whitespace, no `--` in the last) give the text back: their names, the directories with their `/`, written one after another are the text; the last entry is a file exactly when the text does not end in `/` |
| Flattener.ParseLineShape | mktree.py:101-131 | the entries of a line are at consecutive levels from the line's level, with its number, all directories but possibly the last; directories end in `/`, and a file's name is non-empty, starts with no whitespace and holds no `--` |
| Flattener.TrailingSlash | mktree.py:115-128 | a well-indented line whose text ends in `/` gives directories only |
| Flattener.CommentLine | mktree.py:124-128 | a well-indented line without `/` whose text starts with `--` gives no entries |
| Flattener.FlattenOk | mktree.py:101-131 | reading stops without an error exactly when every line parses, and then the counter has advanced by the number of lines and the flat list is the lines' entries in order |
| Flattener.FlattenFirstError | mktree.py:101-113 | an error comes from the line the counter stopped at, and every line before it parses |
| Flattener.ErrorIsFinal | mktree.py:112-113 | once a line has failed, the lines after it change nothing |
| Flattener.FlattenSlashNamed | mktree.py:93 | every directory entry of the flat list is named with a trailing `/` |
| Flattener.FlattenSorted | mktree.py:101-131 | the flat list comes in line order: each line's entries carry its number and are appended after those of the lines before it |
| Generator.MakeLine | mktree.py:136-143 | a line always ends with a newline |
| Generator.MakeLineFields | mktree.py:136-143 | with several comma-free fields, the line holds `{`, then text that splits at `,` back into exactly the fields, then `}` and the newline |
| Generator.MakeLineOneLine | mktree.py:136-143 | from newline-free parts, the line has no newline before its last character |
| Tool.MkTree.GenSh | mktree.py:146-171 | the text returned is `Text` of the directory at the path, and the tree it leaves is `Marked` of the one it was given |
| Tool.MkTree.GenChildren | mktree.py:154-159 | the loop over several subdirectories returns their names without the trailing `/`, their texts in order (each generated marked created at its own path), and the marked subdirectories |
| Generator.RelayText | mktree.py:150-169 | a directory with one subdirectory emits no `mkdir`: its text is its `touch` line, if any, then the subdirectory's text at the extended path |
| Generator.SpreadText | mktree.py:153-169 | any other directory's text is its `mkdir -p` line (when it is unmarked or has subdirectories, with their names), then its `touch` line, then the texts of its subdirectories in order |
| Generator.LeafCreatesItself | mktree.py:161-162 | a childless directory that is not marked starts its text with `mkdir -p` of its own path |
| Generator.DeepChain | mktree.py:146-171 | the tree `a/` → `b/` → `c/` → `d/` holding `file.txt`, each directory with one subdirectory, gives exactly `mkdir -p a/b/c/d/` and `touch a/b/c/d/file.txt` |
| Generator.ScriptTouches | mktree.py:146-171 | the `touch` commands, each read as its path joined to each of its fields, list exactly the files of the tree at their full paths, in depth-first order |
| Generator.ScriptCovers | mktree.py:146-171 | on a tree as the builder makes it, every directory's full path is a target of some `mkdir -p` command (its path joined to one of its fields) or a prefix of one |
| Generator.Marked | mktree.py:155-157 | marking keeps names, files and the directory's own flag, raises the flag of every subdirectory of a directory with several, and leaves a lone subdirectory's flag as it was |
| Generator.MarkedScript | mktree.py:150-161 | generating from the marked tree gives the same commands as from the unmarked one |
| Generator.MarkedTwice | mktree.py:155-157 | marking a marked tree changes nothing |
| Generator.MarkedRaises | mktree.py:155-157 | marking only raises flags: the shape, names, lines, levels and files stay, and a raised flag stays raised |
| Tool.MkTree.MakeFile | mktree.py:39-47 | after reading the lines, the error is that of `ReadLayout`; on success the text is the script of the built tree and the root is that tree marked; on failure the text is unchanged |
| Tool.RunOk | mktree.py:100-133 | a run that succeeds has read every line and every line parses; the flat list is in line order; the tree is the one the flat list nests into; each flat entry occurs in it exactly as often as in the flat list, no directory has two same-named child directories or files, none below the root is marked, and every directory's subdirectories and files come in the order of their lines |
| Tool.RunError | mktree.py:100-133 | a run that fails leaves the root bare, and either it stopped at the first line that fails, with that line's error, or every line was read, the tree the flat list nests into has a directory with two same-named child directories or files, and the flat list holds two entries of the error's kind and name, the earlier on the first line and the later on the second line it reports |
| Tool.RunScript | mktree.py:146-171 | in the commands of a successful run, read as path and fields, the `touch` targets are exactly the tree's files and every directory of the tree is a `mkdir -p` target or a prefix of one |
| Tool.Regenerate | mktree.py:150-161 | generating again from the tree as generation left it gives the same text, and marking it again changes nothing |
| Scenarios.SlashLine | mktree.py:115-131 | the line `a/q`, for a file name `q` of one character that is neither `/` nor whitespace, gives the directory `a/` at level 0, then the file one level deeper |
| Scenarios.TwinRejected | mktree.py:66-68 | the builder rejects the flat list of `a/x`, `a/y` with the duplicate `a/` of the root, first on line 1 and again on line 2 |
| Scenarios.TwinParents | mktree.py:100-133 | the whole run on `a/x`, `a/y` with unit 4 reads both lines and fails with that duplicate, the root left bare |
| Strings.LStripSpec | mktree.py:105-108 | `lstrip` drops exactly the leading whitespace |
| Strings.RStripSpec | mktree.py:103 | `rstrip` drops exactly the trailing whitespace |
| Strings.RemoveCharSpec | mktree.py:103 | removing newlines leaves none and keeps every other character, in order and as often as it occurs: it distributes over any split of the line, keeps a single character unless it is a newline, and keeps every other character's count |
| Strings.SplitJoin | mktree.py:115 | joining the pieces of a split with the separator gives back the text |
| Strings.JoinSplit | mktree.py:141 | splitting a join of separator-free pieces gives back the pieces |
| Strings.BeforeCommentSpec | mktree.py:124-125 | the part before the comment is a prefix holding no `--`, no `--` of the text starts inside it, and it is the whole text or is followed by `--`: it ends at the first `--` |

## Left out

- The command line (`argparse` and `main`, mktree.py:174-192) is not modelled: it only chooses the input file, the output file, the unit and printing.
- Reading the layout file and writing the script (mktree.py:40-41, 46-47) and `print_text` (mktree.py:50-51) are I/O. `MakeFile` takes the lines as a parameter and leaves the script in the `text` field, and the `filename` and `output` fields are not part of the class.
- The `text` field has no value in the source until `make_file` sets it; the model starts it as the empty string.
- Exception messages (mktree.py:68, 79, 113) are modelled as an `Error` value carrying the same names and numbers, not as text.
- A zero unit is a Python `ZeroDivisionError` at mktree.py:110. It is modelled as the error `ZeroIndentUnit` on the first non-blank line, which is where the division happens.
- The level is computed in the source by float division (mktree.py:110). The model uses integer division, which gives the same value whenever the check at mktree.py:112 passes. A negative unit cannot be passed: the unit is a `nat`.
- Tool.MkTree.GenDir, Tool.RunError: on a tree-building error, the source leaves the root partly filled before the exception; the model leaves the root as it was, since the run is aborted and the tree is never used.
- Object identity is not modelled. The source links the very `Directory` objects of the flat list into the tree, and `gen_sh` sets flags on those objects; the model builds the tree from copies of the entries and returns the marked tree. Nothing in the source reads a flat-list entry after the tree is built, so the texts agree.
- Calling `gen_dir` a second time on the same object is modelled only as far as the fields go: the flat list is not cleared, and the next fill starts from the existing root.
- Generator.ScriptCovers: does not state that each directory is created before the `touch` line of its files, because the source's output order makes that false for a directory with one subdirectory and its own files.
- Generator.ScriptTouches, Generator.ScriptCovers, Tool.RunScript: these describe the commands as a path and a list of fields. They are not about what a shell does with the text. The source neither quotes nor escapes names (mktree.py:136-143), so a name with a comma, a brace, whitespace or another shell metacharacter changes what the script creates. For example, a directory `a,b/` beside `c/` gives `mkdir -p {a,b,c}`, and a file `my file` is two words.
- Recursion depth: `parse_dir` and `gen_sh` recurse once per nesting level, so in Python a layout nested about a thousand levels deep raises `RecursionError`. The model has no such limit.

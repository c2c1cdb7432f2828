/** The layout tool itself: it holds the flat list, the line counter and the
    tree, reads the lines of a layout into the flat list, builds the tree from
    the root, and turns the tree into the text of a shell script. Reading the
    layout file and writing the script file are left to the caller: the
    lines come in as a parameter and the text is left in a field. */
module Tool {
  import opened Strings
  import opened Entries
  import opened Flattener
  import opened Builder
  import opened Generator

  /** What the tool holds after reading some lines: the flat list, the
      number of the last line read, the root, and the error that stopped it. */
  datatype Outcome = Outcome(entries: seq<Entry>, line: nat, root: Directory, error: Option<Error>)

  /** Reading `lines` into a tool that holds `entries`, `line` and `root`:
      the lines are flattened in order until one fails; when none does, the
      tree is built from the root over the whole flat list. On an error the
      root is left as it was. */
  function ReadLayout(lines: seq<string>, indent: nat, entries: seq<Entry>, line: nat, root: Directory): Outcome
  {
    var f := Flatten(lines, indent, FlatState(entries, line, None));
    if f.error.Some? then Outcome(f.entries, f.line, root, f.error)
    else
      match BuildTree(f.entries, root)
      case Err(e) => Outcome(f.entries, f.line, root, Some(e))
      case Ok(p) => Outcome(f.entries, f.line, p.dir, None)
  }

  /** Reading `lines` into a new tool. */
  function Run(lines: seq<string>, indent: nat): Outcome
  {
    ReadLayout(lines, indent, [], 0, Root())
  }

  /** A run that succeeds has read every line, and every line parses; each
      flat entry ends up exactly once in the tree, which holds no two
      subdirectories or two files of the same name anywhere, in which no
      directory below the root is marked created yet, and in which every
      directory's subdirectories, and its files, come in the order of their
      lines; it is the tree the flat list nests into. */
  lemma RunOk(lines: seq<string>, indent: nat)
    ensures var o := Run(lines, indent);
      o.error.None? ==>
        && o.line == |lines|
        && (forall k :: 0 <= k < |lines| ==> ParseLine(lines[k], indent, k + 1).Ok?)
        && (forall e :: Count(o.root, e) == multiset(o.entries)[e])
        && Distinct(o.root) && Pristine(o.root)
        && LinesSorted(o.entries) && Ordered(o.root)
        && o.root == NestTree(o.entries, Root()).dir
  {
    var o := Run(lines, indent);
    var st := FlatState([], 0, None);
    var f := Flatten(lines, indent, st);
    if o.error.None? {
      FlattenOk(lines, Reader(indent), [], 0);
      FlattenSlashNamed(lines, indent, st);
      var p := BuildTree(f.entries, Root()).value;
      BuildTreeConsumesAll(f.entries, Root(), p);
      RunInOrder(lines, indent, f, p);
      BuildTreeChecks(f.entries, Root());
      forall k | 0 <= k < |lines|
        ensures ParseLine(lines[k], indent, k + 1).Ok?
      {
        ReaderParses(lines[k], indent, k + 1);
      }
    }
  }

  /** The flat list of a read without error is in line order, and so is the
      tree built from it. */
  lemma RunInOrder(lines: seq<string>, indent: nat, f: FlatState, p: Parsed)
    requires f == Flatten(lines, indent, FlatState([], 0, None))
    requires BuildTree(f.entries, Root()) == Ok(p)
    ensures LinesSorted(f.entries) && Ordered(p.dir)
  {
    FlattenSorted(lines, indent, FlatState([], 0, None));
    BuildTreeConsumesAll(f.entries, Root(), p);
  }

  /** A run that fails leaves the root as it was, and either some line is
      the first that fails to parse, with the counter at it, or every line
      parses and the error is a duplicate name: two entries of the error's
      kind and name are in the flat list, on the two lines the error reports,
      and the enclosing directory is the root or a directory entry. */
  lemma RunError(lines: seq<string>, indent: nat)
    ensures var o := Run(lines, indent);
      o.error.Some? ==>
        && o.root == Root()
        && (FailsAtLine(lines, indent, o.line, o.error.value)
            || (o.line == |lines| && Duplicate(o.entries, o.error.value)))
  {
    var o := Run(lines, indent);
    var f := Flatten(lines, indent, FlatState([], 0, None));
    if o.error.Some? {
      if f.error.Some? {
        LineError(lines, indent, f);
      } else {
        FlattenOk(lines, Reader(indent), [], 0);
        var e := BuildTree(f.entries, Root()).error;
        ParseErrorWitness(f.entries, Root(), 0, 0, 0, e);
        assert !HeldBy(Root(), e);
        BuildTreeChecks(f.entries, Root());
      }
    }
  }

  /** Line `n` is the first of `lines` that fails to parse, with error `e`. */
  predicate FailsAtLine(lines: seq<string>, indent: nat, n: nat, e: Error)
  {
    && 1 <= n <= |lines|
    && ParseLine(lines[n - 1], indent, n) == Err(e)
    && forall j :: 0 <= j < n - 1 ==> ParseLine(lines[j], indent, j + 1).Ok?
  }

  /** `e` reports a duplicate that `list` holds: two entries of the error's
      kind and name, the first on its first line and a later one on its
      second; the enclosing directory it names is the root or a directory
      entry of `list`; and the tree `list` nests into, with no name checked,
      has a directory with two same-named child directories or files. */
  predicate Duplicate(list: seq<Entry>, e: Error)
  {
    && (e.DupDir? || e.DupFile?)
    && (exists j, k :: 0 <= j < k < |list| && Clashes(e, list[j], e.firstLine) && Clashes(e, list[k], e.secondLine))
    && ParentFrom(list, Root(), 0, e)
    && !Distinct(NestTree(list, Root()).dir)
  }

  /** A flattening of `lines` that fails stops at the first line that fails
      to parse. */
  lemma LineError(lines: seq<string>, indent: nat, f: FlatState)
    requires f == Flatten(lines, indent, FlatState([], 0, None)) && f.error.Some?
    ensures FailsAtLine(lines, indent, f.line, f.error.value)
  {
    FlattenFirstError(lines, Reader(indent), []);
    ReaderFails(lines, indent, f.line, f.error.value);
  }

  /** The flattener's reader fails first at line `n` exactly where parsing
      does. */
  lemma ReaderFails(lines: seq<string>, indent: nat, n: nat, e: Error)
    requires FailsWith(lines, Reader(indent), n, e)
    ensures FailsAtLine(lines, indent, n, e)
  {
    ReaderParses(lines[n - 1], indent, n);
    forall j | 0 <= j < n - 1
      ensures ParseLine(lines[j], indent, j + 1).Ok?
    {
      ReaderParses(lines[j], indent, j + 1);
    }
  }

  /** The script of a successful run touches exactly the files of the tree,
      in order, and its `mkdir -p` lines create every directory of the tree
      at its own path. */
  lemma RunScript(lines: seq<string>, indent: nat)
    ensures var o := Run(lines, indent);
      o.error.None? ==>
        && Touched(Script(o.root, "")) == FilePaths(o.root, "")
        && AllCovered(o.root, "", Targets(Script(o.root, "")))
  {
    var o := Run(lines, indent);
    if o.error.None? {
      RunOk(lines, indent);
      ScriptTouches(o.root, "", o.root.created);
      ScriptCovers(o.root, "", o.root.created);
    }
  }

  /** Generating again from the tree that generation left behind gives the
      same text, and leaves the same tree. */
  lemma Regenerate(d: Directory, path: string)
    ensures Text(Marked(d), path) == Text(d, path)
    ensures Marked(Marked(d)) == Marked(d)
  {
    MarkedScript(d, path, d.created);
    MarkedTwice(d);
  }

  class MkTree {
    var treeList: seq<Entry>
    var root: Directory
    const indent: nat
    var text: string
    var line: nat

    /** A new tool: an empty flat list, the bare root, no line read yet. */
    constructor (indent: nat)
      ensures this.indent == indent
      ensures treeList == [] && root == Root() && line == 0 && text == []
    {
      this.indent := indent;
      treeList := [];
      root := Root();
      line := 0;
      text := [];
    }

    /** The directory entries of some path segments, from `level` on, at
        the current line; empty segments are skipped. */
    method MakeDirs(dirList: seq<string>, level: nat) returns (dirs: seq<Entry>, newLevel: nat)
      ensures dirs == DirChain(dirList, level, line)
      ensures newLevel == level + |dirs|
    {
      dirs := [];
      newLevel := level;
      var k := 0;
      while k < |dirList|
        invariant k <= |dirList|
        invariant newLevel == level + |dirs|
        invariant dirs + DirChain(dirList[k..], newLevel, line) == DirChain(dirList, level, line)
      {
        assert dirList[k..][1..] == dirList[k + 1..];
        if dirList[k] != [] {
          dirs := dirs + [DirEntry(LStrip(dirList[k]) + "/", newLevel, line)];
          newLevel := newLevel + 1;
        }
        k := k + 1;
      }
    }

    /** Reads `lines` into the flat list, then builds the tree from the
        root. A failing line stops it before the tree is built. */
    method GenDir(lines: seq<string>) returns (err: Option<Error>)
      modifies this
      ensures Outcome(treeList, line, root, err) == ReadLayout(lines, indent, old(treeList), old(line), old(root))
      ensures text == old(text)
    {
      ghost var st := FlatState(treeList, line, None);
      err := ReadLines(lines);
      ReadingIsFlatten(lines, indent, st);
      if err.Some? {
        return;
      }
      var r := ParseDir(root, 0, 0);
      assert r == BuildTree(treeList, root);
      if r.Err? {
        return Some(r.error);
      }
      root := r.value.dir;
    }

    /** The reading loop: the lines in order, until one fails, with the
        counter at that line and the entries of the lines before it kept. */
    method ReadLines(lines: seq<string>) returns (err: Option<Error>)
      modifies this
      ensures FlatState(treeList, line, err) == Reading(lines, indent, FlatState(old(treeList), old(line), None))
      ensures root == old(root) && text == old(text)
    {
      ghost var goal := Reading(lines, indent, FlatState(treeList, line, None));
      err := None;
      var i := 0;
      assert lines[i..] == lines;
      while i < |lines| && err.None?
        invariant i <= |lines|
        invariant Reading(lines[i..], indent, FlatState(treeList, line, err)) == goal
        invariant root == old(root) && text == old(text)
      {
        err := ReadLine(lines, i);
        i := i + 1;
      }
      ReadingDone(lines, i, indent, FlatState(treeList, line, err));
    }

    /** One turn of the reading loop, on the line at `i`: what is left to
        read from there is what is left after it from the new state. */
    method ReadLine(lines: seq<string>, i: nat) returns (err: Option<Error>)
      requires i < |lines|
      modifies this
      ensures Reading(lines[i..], indent, FlatState(old(treeList), old(line), None))
        == Reading(lines[i + 1..], indent, FlatState(treeList, line, err))
      ensures root == old(root) && text == old(text)
    {
      ghost var cur := FlatState(treeList, line, None);
      err := GenDirLine(lines[i]);
      ReadingStep(lines, i, indent, cur, FlatState(treeList, line, err));
    }

    /** The body of the reading loop for one raw line: the counter advances,
        a blank line is skipped, the indentation gives the level or an error,
        and the entries of the text are appended. */
    method GenDirLine(raw: string) returns (err: Option<Error>)
      modifies this
      ensures FlatState(treeList, line, err) ==
        Step(FlatState(old(treeList), old(line), None), ParseLine(raw, indent, old(line) + 1))
      ensures root == old(root) && text == old(text)
    {
      ghost var outcome := ParseLine(raw, indent, line + 1);
      ParseLineText(raw, indent, line + 1);
      line := line + 1;
      var l := RStrip(RemoveChar(raw, '\n'));
      var name := LStrip(l);
      assert name == Content(raw);
      if |name| == 0 {
        assert outcome == Ok([]);
        assert treeList + [] == treeList;
        return None;
      }
      var spaces := |l| - |name|;
      assert spaces == IndentOf(raw);
      if indent == 0 {
        assert outcome == Err(ZeroIndentUnit(line));
        return Some(ZeroIndentUnit(line));
      }
      var level := spaces / indent;
      if spaces % indent != 0 {
        assert outcome == Err(BadIndent(line, spaces));
        return Some(BadIndent(line, spaces));
      }
      assert outcome == Ok(PathEntries(name, level, line));
      AppendPath(name, level);
      return None;
    }

    /** The entries of the text `name` of a line at `level`: the directories
        of its path, then the file of its last segment, cut at a `--`
        comment, unless nothing is left of it. */
    method AppendPath(name: string, level: nat)
      modifies this
      ensures treeList == old(treeList) + PathEntries(name, level, line)
      ensures line == old(line) && root == old(root) && text == old(text)
    {
      ghost var start := treeList;
      ghost var n := line;
      ghost var entries := PathEntries(name, level, n);
      ghost var dirs := PathDirs(name, level, n);
      var lvl := level;
      var dirList := Split(name, '/');
      var leaf := name;
      if |dirList| > 1 {
        leaf := dirList[|dirList| - 1];
        var dirs', next := MakeDirs(dirList[..|dirList| - 1], lvl);
        assert dirs' == dirs;
        treeList := treeList + dirs';
        lvl := next;
      } else {
        assert dirs == [];
        assert treeList == start + dirs;
      }
      LeafTextOf(name, dirList, leaf);
      if HasComment(leaf) {
        leaf := BeforeComment(LStrip(leaf));
      }
      PathEntriesParts(name, level, n);
      if leaf != [] {
        var file := FileEntry(LStrip(leaf), lvl, line);
        assert entries == dirs + [file];
        treeList := treeList + [file];
        assert treeList == start + (dirs + [file]);
      }
      assert treeList == start + entries;
    }

    /** Fills `dir` from the flat list, starting at `position`, with the
        entries of level `level` or deeper, and reports how many it read. */
    method ParseDir(dir: Directory, position: nat, level: nat) returns (r: Result<Parsed>)
      requires position <= |treeList|
      ensures r == ParseFrom(treeList, dir, position, 0, level)
      decreases |treeList| - position
    {
      var d := dir;
      var index := 0;
      while position + index < |treeList|
        invariant position + index <= |treeList|
        invariant ParseFrom(treeList, d, position, index, level) == ParseFrom(treeList, dir, position, 0, level)
        decreases |treeList| - (position + index)
      {
        var node := treeList[position + index];
        if node.indentLevel < level {
          break;
        }
        if node.DirEntry? {
          var j := 0;
          while j < |d.directories|
            invariant j <= |d.directories|
            invariant FindDir(d.directories, node.name, j) == FindDir(d.directories, node.name, 0)
          {
            var directory := d.directories[j];
            if node.name == directory.name {
              return Err(DupDir(d.name, d.line, directory.name, directory.line, node.line));
            }
            j := j + 1;
          }
          var sub := ParseDir(NewDirectory(node.name, node.indentLevel, node.line), position + index + 1, node.indentLevel + 1);
          if sub.Err? {
            return Err(sub.error);
          }
          d := d.(directories := d.directories + [sub.value.dir]);
          index := index + sub.value.index;
        } else {
          var j := 0;
          while j < |d.files|
            invariant j <= |d.files|
            invariant FindFile(d.files, node.name, j) == FindFile(d.files, node.name, 0)
          {
            var file := d.files[j];
            if node.name == file.name {
              return Err(DupFile(d.name, d.line, file.name, file.line, node.line));
            }
            j := j + 1;
          }
          d := d.(files := d.files + [File(node.name, node.indentLevel, node.line)]);
        }
        index := index + 1;
      }
      return Ok(Parsed(d, index));
    }

    /** The script text for `dir` at `path`, with the tree as generation
        leaves it: the subdirectories of a directory with several of them
        marked created. */
    method GenSh(dir: Directory, path: string) returns (txt: string, marked: Directory)
      ensures txt == Text(dir, path)
      ensures marked == Marked(dir)
      decreases dir.directories, 1
    {
      var mkdir, touch, result := "", "", "";
      var ds := dir.directories;
      var kids := ds;
      if |ds| == 1 {
        var directory := ds[0];
        var m;
        result, m := GenSh(directory, path + directory.name);
        kids := [m];
      } else {
        var dirNames: seq<string> := [];
        if |ds| > 1 {
          dirNames, result, kids := GenChildren(ds, path);
        }
        assert dirNames == DirNames(ds);
        if !dir.created || |dirNames| > 0 {
          mkdir := MakeLine("mkdir -p", path, dirNames);
        }
      }
      if |dir.files| > 0 {
        touch := MakeLine("touch", path, FileNames(dir.files));
      }
      txt := mkdir + touch + result;
      if |ds| == 1 {
        RelayText(dir, path, touch);
        assert mkdir == [];
        assert mkdir + touch == touch;
      } else {
        SpreadText(dir, path, mkdir, touch);
      }
      marked := dir.(directories := kids);
    }

    /** The loop over several subdirectories: each is marked created and
        generated at its own path, in order; it returns their names for the
        braced `mkdir -p`, their texts, and the marked subdirectories. */
    method GenChildren(ds: seq<Directory>, path: string) returns (dirNames: seq<string>, result: string, kids: seq<Directory>)
      ensures dirNames == DirNames(ds)
      ensures result == RenderAll(ChildScripts(ds, path))
      ensures kids == MarkAll(ds)
      decreases ds, 0
    {
      dirNames, result, kids := [], "", [];
      var k := 0;
      while k < |ds|
        invariant k <= |ds|
        invariant dirNames == DirNames(ds[..k])
        invariant result == RenderAll(ChildScripts(ds[..k], path))
        invariant kids == MarkAll(ds[..k])
      {
        var directory := ds[k].(created := true);
        dirNames := dirNames + [DropLast(directory.name)];
        var t, m := GenSh(directory, path + directory.name);
        ChildStep(ds, k, path);
        result := result + t;
        kids := kids + [m];
        k := k + 1;
      }
      assert ds[..k] == ds;
    }

    /** Reads `lines`, builds the tree and, when nothing failed, generates
        the script text from the root, leaving the tree marked. */
    method MakeFile(lines: seq<string>) returns (err: Option<Error>)
      modifies this
      ensures var o := ReadLayout(lines, indent, old(treeList), old(line), old(root));
        && err == o.error && treeList == o.entries && line == o.line
        && (err.None? ==> text == Text(o.root, "") && root == Marked(o.root))
        && (err.Some? ==> text == old(text) && root == o.root)
    {
      err := GenDir(lines);
      if err.None? {
        var txt, marked := GenSh(root, "");
        text := txt;
        root := marked;
      }
    }
  }
}

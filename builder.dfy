/** The tree builder: a recursive descent over the flat list that hangs every
    entry under the nearest directory before it with a lower level. A call
    reads entries from a position on while their level is at least its own,
    and reports how many it consumed. Two child directories, or two files, of
    one directory may not share a name. */
module Builder {
  import opened Entries

  /** A directory with the children read so far, and the number of flat
      entries read so far by the call that fills it. */
  datatype Parsed = Parsed(dir: Directory, index: nat)

  /** The position of the first directory from `k` on named `name`, if any. */
  function FindDir(ds: seq<Directory>, name: string, k: nat): (r: Option<nat>)
    requires k <= |ds|
    ensures r.Some? ==> k <= r.value < |ds| && ds[r.value].name == name
    ensures r.Some? ==> forall j :: k <= j < r.value ==> ds[j].name != name
    ensures r.None? ==> forall j :: k <= j < |ds| ==> ds[j].name != name
    decreases |ds| - k
  {
    if k == |ds| then None
    else if ds[k].name == name then Some(k)
    else FindDir(ds, name, k + 1)
  }

  /** The position of the first file from `k` on named `name`, if any. */
  function FindFile(fs: seq<File>, name: string, k: nat): (r: Option<nat>)
    requires k <= |fs|
    ensures r.Some? ==> k <= r.value < |fs| && fs[r.value].name == name
    ensures r.Some? ==> forall j :: k <= j < r.value ==> fs[j].name != name
    ensures r.None? ==> forall j :: k <= j < |fs| ==> fs[j].name != name
    decreases |fs| - k
  {
    if k == |fs| then None
    else if fs[k].name == name then Some(k)
    else FindFile(fs, name, k + 1)
  }

  /** The loop of a call that fills `dir`, having started at `pos` and read
      `index` entries so far, with children of level `level` or deeper. It
      stops at the end of the list or at an entry of a lower level, and
      otherwise takes in the entry at `pos + index` and goes on after what
      that consumed. */
  function ParseFrom(list: seq<Entry>, dir: Directory, pos: nat, index: nat, level: nat): (r: Result<Parsed>)
    requires pos + index <= |list|
    ensures r.Ok? ==> index <= r.value.index && pos + r.value.index <= |list|
    decreases |list| - (pos + index), 1
  {
    if pos + index == |list| || list[pos + index].indentLevel < level then Ok(Parsed(dir, index))
    else
      match ParseNode(list, dir, pos + index)
      case Err(e) => Err(e)
      case Ok(step) => ParseFrom(list, step.dir, pos, index + step.index, level)
  }

  /** Taking the entry at `at` into `dir`, with the number of entries that
      consumes. A directory entry is rejected when `dir` already has a child
      directory of that name; otherwise it is filled by a call one level
      below its own, starting just after it, and appended. A file entry is
      rejected when `dir` already has a file of that name, and is appended
      otherwise. */
  function ParseNode(list: seq<Entry>, dir: Directory, at: nat): (r: Result<Parsed>)
    requires at < |list|
    ensures r.Ok? ==> 1 <= r.value.index && at + r.value.index <= |list|
    decreases |list| - at, 0
  {
    match list[at]
    case DirEntry(name, lvl, ln) =>
      (match FindDir(dir.directories, name, 0)
       case Some(j) =>
         var first := dir.directories[j];
         Err(DupDir(dir.name, dir.line, first.name, first.line, ln))
       case None =>
         match ParseFrom(list, NewDirectory(name, lvl, ln), at + 1, 0, lvl + 1)
         case Err(e) => Err(e)
         case Ok(sub) => Ok(Parsed(dir.(directories := dir.directories + [sub.dir]), sub.index + 1)))
    case FileEntry(name, lvl, ln) =>
      match FindFile(dir.files, name, 0)
      case Some(j) =>
        var first := dir.files[j];
        Err(DupFile(dir.name, dir.line, first.name, first.line, ln))
      case None =>
        Ok(Parsed(dir.(files := dir.files + [File(name, lvl, ln)]), 1))
  }

  /** The call that fills the directory of the directory entry at `at`. */
  function Inner(list: seq<Entry>, at: nat): Result<Parsed>
    requires at < |list|
  {
    var e := list[at];
    ParseFrom(list, NewDirectory(e.name, e.indentLevel, e.line), at + 1, 0, e.indentLevel + 1)
  }

  /** Building the whole tree: the root filled from the start of the list. */
  function BuildTree(list: seq<Entry>, root: Directory): Result<Parsed>
  {
    ParseFrom(list, root, 0, 0, 0)
  }

  // ---------------------------------------------------------------------
  // Views of a tree

  /** The flat entry a directory of the tree stands for. */
  function DirAsEntry(d: Directory): Entry
  {
    DirEntry(d.name, d.indentLevel, d.line)
  }

  /** The flat entry a file of the tree stands for. */
  function FileAsEntry(f: File): Entry
  {
    FileEntry(f.name, f.indentLevel, f.line)
  }

  /** How many files of `fs` stand for the entry `e`. */
  function FileCount(fs: seq<File>, e: Entry): nat
  {
    if |fs| == 0 then 0
    else FileCount(fs[..|fs| - 1], e) + (if FileAsEntry(fs[|fs| - 1]) == e then 1 else 0)
  }

  /** How many times the entry `e` occurs anywhere below a directory, the
      directory itself left out. */
  function Count(d: Directory, e: Entry): nat
    decreases d
  {
    FileCount(d.files, e) + ChildCount(d.directories, e)
  }

  /** How many times the entry `e` occurs among some sibling directories and
      everything below them. */
  function ChildCount(ds: seq<Directory>, e: Entry): nat
    decreases ds
  {
    if |ds| == 0 then 0
    else
      var last := ds[|ds| - 1];
      ChildCount(ds[..|ds| - 1], e) + (if DirAsEntry(last) == e then 1 else 0) + Count(last, e)
  }

  /** How many times the entry `e` occurs in `list[a..b]`. */
  function SpanCount(list: seq<Entry>, a: nat, b: nat, e: Entry): nat
    requires a <= b <= |list|
    decreases b - a
  {
    if a == b then 0 else (if list[a] == e then 1 else 0) + SpanCount(list, a + 1, b, e)
  }

  /** No directory of the tree has two child directories, or two files, with
      the same name. */
  predicate Distinct(d: Directory)
    decreases d
  {
    && (forall i, j :: 0 <= i < j < |d.directories| ==> d.directories[i].name != d.directories[j].name)
    && (forall i, j :: 0 <= i < j < |d.files| ==> d.files[i].name != d.files[j].name)
    && (forall i :: 0 <= i < |d.directories| ==> Distinct(d.directories[i]))
  }

  // ---------------------------------------------------------------------
  // What a call does

  /** A directory entry that is taken in is the directory its inner call
      filled, appended. */
  lemma DirNode(list: seq<Entry>, dir: Directory, at: nat, step: Parsed)
    requires at < |list| && list[at].DirEntry?
    requires ParseNode(list, dir, at) == Ok(step)
    ensures FindDir(dir.directories, list[at].name, 0).None?
    ensures Inner(list, at).Ok?
    ensures step == Parsed(dir.(directories := dir.directories + [Inner(list, at).value.dir]), Inner(list, at).value.index + 1)
  {
  }

  /** A file entry that is taken in is appended. */
  lemma FileNode(list: seq<Entry>, dir: Directory, at: nat, step: Parsed)
    requires at < |list| && list[at].FileEntry?
    requires ParseNode(list, dir, at) == Ok(step)
    ensures FindFile(dir.files, list[at].name, 0).None?
    ensures step == Parsed(dir.(files := dir.files + [File(list[at].name, list[at].indentLevel, list[at].line)]), 1)
  {
  }

  /** A call that succeeds stops at the end of the list or at the first entry
      below its level, and every entry it consumed is at its level or deeper. */
  lemma {:induction false} ParseStops(list: seq<Entry>, dir: Directory, pos: nat, index: nat, level: nat, p: Parsed)
    requires pos + index <= |list|
    requires ParseFrom(list, dir, pos, index, level) == Ok(p)
    ensures pos + p.index == |list| || list[pos + p.index].indentLevel < level
    ensures forall k :: pos + index <= k < pos + p.index ==> list[k].indentLevel >= level
    decreases |list| - (pos + index), 1
  {
    var q := pos + index;
    if q < |list| && list[q].indentLevel >= level {
      var step := ParseNode(list, dir, q).value;
      assert ParseFrom(list, step.dir, pos, index + step.index, level) == Ok(p);
      NodeLevels(list, dir, q, step);
      ParseStops(list, step.dir, pos, index + step.index, level, p);
    }
  }

  /** Every entry taken in with the entry at `at` is at its level or deeper. */
  lemma {:induction false} NodeLevels(list: seq<Entry>, dir: Directory, at: nat, step: Parsed)
    requires at < |list|
    requires ParseNode(list, dir, at) == Ok(step)
    ensures forall k :: at <= k < at + step.index ==> list[k].indentLevel >= list[at].indentLevel
    decreases |list| - at, 0
  {
    var e := list[at];
    if e.DirEntry? {
      DirNode(list, dir, at, step);
      var sub := Inner(list, at).value;
      ParseStops(list, NewDirectory(e.name, e.indentLevel, e.line), at + 1, 0, e.indentLevel + 1, sub);
    } else {
      FileNode(list, dir, at, step);
    }
  }

  /** A call that succeeds changes nothing of `dir` but its children, and
      only appends to them. */
  lemma {:induction false} ParseKeeps(list: seq<Entry>, dir: Directory, pos: nat, index: nat, level: nat, p: Parsed)
    requires pos + index <= |list|
    requires ParseFrom(list, dir, pos, index, level) == Ok(p)
    ensures p.dir == dir.(directories := p.dir.directories, files := p.dir.files)
    ensures dir.directories <= p.dir.directories && dir.files <= p.dir.files
    decreases |list| - (pos + index)
  {
    var q := pos + index;
    if q < |list| && list[q].indentLevel >= level {
      var step := ParseNode(list, dir, q).value;
      assert ParseFrom(list, step.dir, pos, index + step.index, level) == Ok(p);
      if list[q].DirEntry? {
        DirNode(list, dir, q, step);
      } else {
        FileNode(list, dir, q, step);
      }
      ParseKeeps(list, step.dir, pos, index + step.index, level, p);
    }
  }

  lemma ChildCountSnoc(ds: seq<Directory>, d: Directory, e: Entry)
    ensures ChildCount(ds + [d], e) == ChildCount(ds, e) + (if DirAsEntry(d) == e then 1 else 0) + Count(d, e)
  {
    assert (ds + [d])[..|ds|] == ds;
  }

  lemma FileCountSnoc(fs: seq<File>, f: File, e: Entry)
    ensures FileCount(fs + [f], e) == FileCount(fs, e) + (if FileAsEntry(f) == e then 1 else 0)
  {
    assert (fs + [f])[..|fs|] == fs;
  }

  lemma {:induction false} SpanSplit(list: seq<Entry>, a: nat, b: nat, c: nat, e: Entry)
    requires a <= b <= c <= |list|
    ensures SpanCount(list, a, c, e) == SpanCount(list, a, b, e) + SpanCount(list, b, c, e)
    decreases b - a
  {
    if a < b {
      SpanSplit(list, a + 1, b, c, e);
    }
  }

  /** The occurrences in a whole list are those of its multiset. */
  lemma {:induction false} SpanIsMultiset(list: seq<Entry>, e: Entry)
    ensures SpanCount(list, 0, |list|, e) == multiset(list)[e]
  {
    if |list| > 0 {
      var t := list[1..];
      SpanIsMultiset(t, e);
      SpanShift(list, 1, |list|, e);
      assert list == [list[0]] + t;
    }
  }

  lemma {:induction false} SpanShift(list: seq<Entry>, a: nat, b: nat, e: Entry)
    requires 1 <= a <= b <= |list|
    ensures SpanCount(list, a, b, e) == SpanCount(list[1..], a - 1, b - 1, e)
    decreases b - a
  {
    if a < b {
      SpanShift(list, a + 1, b, e);
    }
  }

  /** Every entry a call consumes ends up exactly once below `dir`: each entry
      occurs below the filled directory as often as below `dir` before plus
      as often as in the consumed part of the list. */
  lemma {:induction false} ParseCounts(list: seq<Entry>, dir: Directory, pos: nat, index: nat, level: nat, p: Parsed, e: Entry)
    requires pos + index <= |list|
    requires ParseFrom(list, dir, pos, index, level) == Ok(p)
    ensures pos + index <= pos + p.index <= |list|
    ensures Count(p.dir, e) == Count(dir, e) + SpanCount(list, pos + index, pos + p.index, e)
    decreases |list| - (pos + index), 2
  {
    var q := pos + index;
    if q < |list| && list[q].indentLevel >= level {
      var step := NextCounts(list, dir, pos, index, level, p, e);
      var mid := pos + (index + step.index);
      ParseCounts(list, step.dir, pos, index + step.index, level, p, e);
      SpanSplit(list, q, mid, pos + p.index, e);
    } else {
      assert p == Parsed(dir, index);
    }
  }

  /** One turn of the loop, with the next state handed back whole: the entry
      at `pos + index` and what it brings along end up below the new `dir`. */
  lemma {:induction false} NextCounts(list: seq<Entry>, dir: Directory, pos: nat, index: nat, level: nat, p: Parsed, e: Entry)
    returns (step: Parsed)
    requires pos + index < |list| && list[pos + index].indentLevel >= level
    requires ParseFrom(list, dir, pos, index, level) == Ok(p)
    ensures 1 <= step.index && pos + index + step.index <= |list|
    ensures ParseFrom(list, step.dir, pos, index + step.index, level) == Ok(p)
    ensures Count(step.dir, e) == Count(dir, e) + SpanCount(list, pos + index, pos + index + step.index, e)
    decreases |list| - (pos + index), 1
  {
    step := ParseNode(list, dir, pos + index).value;
    NodeCounts(list, dir, pos + index, step, e);
  }

  /** The entries taken in with the entry at `at` end up below `dir`. */
  lemma {:induction false} NodeCounts(list: seq<Entry>, dir: Directory, at: nat, step: Parsed, e: Entry)
    requires at < |list|
    requires ParseNode(list, dir, at) == Ok(step)
    ensures Count(step.dir, e) == Count(dir, e) + SpanCount(list, at, at + step.index, e)
    decreases |list| - at, 0
  {
    var x := list[at];
    if x.DirEntry? {
      DirNode(list, dir, at, step);
      var n := NewDirectory(x.name, x.indentLevel, x.line);
      var sub := Inner(list, at).value;
      ParseCounts(list, n, at + 1, 0, x.indentLevel + 1, sub, e);
      ParseKeeps(list, n, at + 1, 0, x.indentLevel + 1, sub);
      assert DirAsEntry(sub.dir) == x;
      ChildCountSnoc(dir.directories, sub.dir, e);
    } else {
      FileNode(list, dir, at, step);
      FileCountSnoc(dir.files, File(x.name, x.indentLevel, x.line), e);
    }
  }

  /** A call that succeeds on a directory without duplicate names leaves none. */
  lemma {:induction false} ParseDistinct(list: seq<Entry>, dir: Directory, pos: nat, index: nat, level: nat, p: Parsed)
    requires pos + index <= |list|
    requires ParseFrom(list, dir, pos, index, level) == Ok(p)
    requires Distinct(dir)
    ensures Distinct(p.dir)
    decreases |list| - (pos + index), 1
  {
    var q := pos + index;
    if q < |list| && list[q].indentLevel >= level {
      var step := ParseNode(list, dir, q).value;
      assert ParseFrom(list, step.dir, pos, index + step.index, level) == Ok(p);
      NodeDistinct(list, dir, q, step);
      ParseDistinct(list, step.dir, pos, index + step.index, level, p);
    }
  }

  /** Taking in one entry keeps a directory free of duplicate names. */
  lemma {:induction false} NodeDistinct(list: seq<Entry>, dir: Directory, at: nat, step: Parsed)
    requires at < |list|
    requires ParseNode(list, dir, at) == Ok(step)
    requires Distinct(dir)
    ensures Distinct(step.dir)
    decreases |list| - at, 0
  {
    var x := list[at];
    if x.DirEntry? {
      DirNode(list, dir, at, step);
      var n := NewDirectory(x.name, x.indentLevel, x.line);
      var sub := Inner(list, at).value;
      ParseDistinct(list, n, at + 1, 0, x.indentLevel + 1, sub);
      ParseKeeps(list, n, at + 1, 0, x.indentLevel + 1, sub);
      var ds := dir.directories + [sub.dir];
      assert sub.dir.name == x.name;
      assert forall i :: 0 <= i < |ds| ==> Distinct(ds[i]) by {
        forall i | 0 <= i < |ds| ensures Distinct(ds[i]) {
          if i < |dir.directories| {
            assert ds[i] == dir.directories[i];
          }
        }
      }
      assert step.dir == dir.(directories := ds);
    } else {
      FileNode(list, dir, at, step);
    }
  }

  /** Building from a list whose directory entries all end in `/` keeps a
      tree pristine. */
  lemma {:induction false} ParsePristine(list: seq<Entry>, dir: Directory, pos: nat, index: nat, level: nat, p: Parsed)
    requires pos + index <= |list|
    requires ParseFrom(list, dir, pos, index, level) == Ok(p)
    requires SlashNamed(list) && Pristine(dir)
    ensures Pristine(p.dir)
    decreases |list| - (pos + index), 1
  {
    var q := pos + index;
    if q < |list| && list[q].indentLevel >= level {
      var step := ParseNode(list, dir, q).value;
      assert ParseFrom(list, step.dir, pos, index + step.index, level) == Ok(p);
      NodePristine(list, dir, q, step);
      ParsePristine(list, step.dir, pos, index + step.index, level, p);
    }
  }

  lemma {:induction false} NodePristine(list: seq<Entry>, dir: Directory, at: nat, step: Parsed)
    requires at < |list|
    requires ParseNode(list, dir, at) == Ok(step)
    requires SlashNamed(list) && Pristine(dir)
    ensures Pristine(step.dir)
    decreases |list| - at, 0
  {
    var x := list[at];
    if x.DirEntry? {
      DirNode(list, dir, at, step);
      var n := NewDirectory(x.name, x.indentLevel, x.line);
      var sub := Inner(list, at).value;
      assert Pristine(n);
      ParsePristine(list, n, at + 1, 0, x.indentLevel + 1, sub);
      ParseKeeps(list, n, at + 1, 0, x.indentLevel + 1, sub);
      var ds := dir.directories + [sub.dir];
      assert ds[..|ds| - 1] == dir.directories;
      assert step.dir.directories == ds;
    } else {
      FileNode(list, dir, at, step);
    }
  }

  /** In every directory of the tree, the subdirectories come in
      non-decreasing line order, and so do the files. */
  predicate Ordered(d: Directory)
    decreases d
  {
    && (forall i, j :: 0 <= i < j < |d.directories| ==> d.directories[i].line <= d.directories[j].line)
    && (forall i, j :: 0 <= i < j < |d.files| ==> d.files[i].line <= d.files[j].line)
    && (forall i :: 0 <= i < |d.directories| ==> Ordered(d.directories[i]))
  }

  /** No child of `d` comes from a line after `bound`. */
  predicate ChildrenUpTo(d: Directory, bound: nat)
  {
    && (forall i :: 0 <= i < |d.directories| ==> d.directories[i].line <= bound)
    && (forall i :: 0 <= i < |d.files| ==> d.files[i].line <= bound)
  }

  /** Over a list in line order, a call appends children in the order of
      their entries: when `dir`'s children are in order and none comes from a
      line after the next entry's, the filled directory is in order. */
  lemma {:induction false} ParseOrdered(list: seq<Entry>, dir: Directory, pos: nat, index: nat, level: nat, p: Parsed)
    requires pos + index <= |list|
    requires ParseFrom(list, dir, pos, index, level) == Ok(p)
    requires LinesSorted(list) && Ordered(dir)
    requires pos + index < |list| ==> ChildrenUpTo(dir, list[pos + index].line)
    ensures Ordered(p.dir)
    decreases |list| - (pos + index), 1
  {
    var q := pos + index;
    if q < |list| && list[q].indentLevel >= level {
      var step := ParseNode(list, dir, q).value;
      var q' := q + step.index;
      assert ParseFrom(list, step.dir, pos, index + step.index, level) == Ok(p);
      NodeOrdered(list, dir, q, step);
      if q' < |list| {
        assert list[q].line <= list[q'].line;
      }
      ParseOrdered(list, step.dir, pos, index + step.index, level, p);
    }
  }

  /** Taking in one entry keeps a directory in order, and its children come
      from that entry's line or before. */
  lemma {:induction false} NodeOrdered(list: seq<Entry>, dir: Directory, at: nat, step: Parsed)
    requires at < |list|
    requires ParseNode(list, dir, at) == Ok(step)
    requires LinesSorted(list) && Ordered(dir) && ChildrenUpTo(dir, list[at].line)
    ensures Ordered(step.dir) && ChildrenUpTo(step.dir, list[at].line)
    decreases |list| - at, 0
  {
    var x := list[at];
    if x.DirEntry? {
      DirNode(list, dir, at, step);
      var n := NewDirectory(x.name, x.indentLevel, x.line);
      var sub := Inner(list, at).value;
      ParseOrdered(list, n, at + 1, 0, x.indentLevel + 1, sub);
      ParseKeeps(list, n, at + 1, 0, x.indentLevel + 1, sub);
      AppendDirOrdered(dir, sub.dir, x.line);
    } else {
      FileNode(list, dir, at, step);
      AppendFileOrdered(dir, File(x.name, x.indentLevel, x.line), x.line);
    }
  }

  /** Appending an ordered subdirectory from line `bound` after children from
      that line or before keeps a directory in order. */
  lemma AppendDirOrdered(dir: Directory, d: Directory, bound: nat)
    requires Ordered(dir) && ChildrenUpTo(dir, bound) && Ordered(d) && d.line == bound
    ensures var r := dir.(directories := dir.directories + [d]); Ordered(r) && ChildrenUpTo(r, bound)
  {
    var ds := dir.directories + [d];
    assert forall i :: 0 <= i < |dir.directories| ==> ds[i] == dir.directories[i];
  }

  /** Appending a file from line `bound` after children from that line or
      before keeps a directory in order. */
  lemma AppendFileOrdered(dir: Directory, f: File, bound: nat)
    requires Ordered(dir) && ChildrenUpTo(dir, bound) && f.line == bound
    ensures var r := dir.(files := dir.files + [f]); Ordered(r) && ChildrenUpTo(r, bound)
  {
    var fs := dir.files + [f];
    assert forall i :: 0 <= i < |dir.files| ==> fs[i] == dir.files[i];
  }

  /** The entry `x` is one of the two that the duplicate error `e` reports:
      of the error's kind, under its name, on line `ln`. */
  predicate Clashes(e: Error, x: Entry, ln: nat)
  {
    || (e.DupDir? && x.DirEntry? && x.name == e.name && x.line == ln)
    || (e.DupFile? && x.FileEntry? && x.name == e.name && x.line == ln)
  }

  /** `d` already has a child of the error's kind, under its name, on the
      error's first line. */
  predicate HeldBy(d: Directory, e: Error)
  {
    || (e.DupDir? && exists j :: 0 <= j < |d.directories| && d.directories[j].name == e.name && d.directories[j].line == e.firstLine)
    || (e.DupFile? && exists j :: 0 <= j < |d.files| && d.files[j].name == e.name && d.files[j].line == e.firstLine)
  }

  /** The duplicate error `e` reports a real clash met from position `from`
      on: a second entry of the error's kind and name at some `k`, and a first
      one either already in `dir` or in the list from `from` to before `k`. */
  predicate ClashFrom(list: seq<Entry>, dir: Directory, from: nat, e: Error)
  {
    && (e.DupDir? || e.DupFile?)
    && (exists k :: from <= k < |list| && Clashes(e, list[k], e.secondLine)
         && (HeldBy(dir, e) || exists j :: from <= j < k && Clashes(e, list[j], e.firstLine)))
  }

  /** The directory the error `e` reports is `dir` or a directory entry of
      the list from `from` on. */
  predicate ParentFrom(list: seq<Entry>, dir: Directory, from: nat, e: Error)
  {
    && (e.DupDir? || e.DupFile?)
    && (|| (e.parent == dir.name && e.parentLine == dir.line)
        || exists p :: from <= p < |list| && list[p].DirEntry? && list[p].name == e.parent && list[p].line == e.parentLine)
  }

  /** A call fails only on a duplicate name, and only on a real one: the two
      entries that clash have the error's kind, its name and its two lines,
      the second from the unread part of the list and the first before it or
      already in `dir`; the enclosing directory is `dir` or one read. */
  lemma {:induction false} ParseErrorWitness(list: seq<Entry>, dir: Directory, pos: nat, index: nat, level: nat, e: Error)
    requires pos + index <= |list|
    requires ParseFrom(list, dir, pos, index, level) == Err(e)
    ensures e.DupDir? || e.DupFile?
    ensures ClashFrom(list, dir, pos + index, e)
    ensures ParentFrom(list, dir, pos + index, e)
    decreases |list| - (pos + index), 1
  {
    var q := pos + index;
    var r := ParseNode(list, dir, q);
    if r.Err? {
      NodeErrorWitness(list, dir, q, e);
    } else {
      var step := r.value;
      var q' := q + step.index;
      assert ParseFrom(list, step.dir, pos, index + step.index, level) == Err(e);
      ParseErrorWitness(list, step.dir, pos, index + step.index, level, e);
      NodeHeld(list, dir, q, step, e);
      var k :| q' <= k < |list| && Clashes(e, list[k], e.secondLine)
        && (HeldBy(step.dir, e) || exists j :: q' <= j < k && Clashes(e, list[j], e.firstLine));
      if !HeldBy(dir, e) {
        if HeldBy(step.dir, e) {
          assert Clashes(e, list[q], e.firstLine);
        } else {
          var j :| q' <= j < k && Clashes(e, list[j], e.firstLine);
          assert q <= j < k;
        }
      }
      assert ClashFrom(list, dir, q, e);
    }
  }

  lemma {:induction false} NodeErrorWitness(list: seq<Entry>, dir: Directory, at: nat, e: Error)
    requires at < |list|
    requires ParseNode(list, dir, at) == Err(e)
    ensures e.DupDir? || e.DupFile?
    ensures ClashFrom(list, dir, at, e)
    ensures ParentFrom(list, dir, at, e)
    decreases |list| - at, 0
  {
    var x := list[at];
    if x.DirEntry? {
      match FindDir(dir.directories, x.name, 0)
      case Some(j) =>
        assert e == DupDir(dir.name, dir.line, dir.directories[j].name, dir.directories[j].line, x.line);
        assert HeldBy(dir, e);
        assert Clashes(e, list[at], e.secondLine);
      case None =>
        var n := NewDirectory(x.name, x.indentLevel, x.line);
        assert ParseFrom(list, n, at + 1, 0, x.indentLevel + 1) == Err(e);
        ParseErrorWitness(list, n, at + 1, 0, x.indentLevel + 1, e);
        var k :| at + 1 <= k < |list| && Clashes(e, list[k], e.secondLine)
          && (HeldBy(n, e) || exists j :: at + 1 <= j < k && Clashes(e, list[j], e.firstLine));
        assert !HeldBy(n, e);
        var j :| at + 1 <= j < k && Clashes(e, list[j], e.firstLine);
        assert ClashFrom(list, dir, at, e);
    } else {
      match FindFile(dir.files, x.name, 0)
      case Some(j) =>
        assert e == DupFile(dir.name, dir.line, dir.files[j].name, dir.files[j].line, x.line);
        assert HeldBy(dir, e);
        assert Clashes(e, list[at], e.secondLine);
      case None =>
    }
  }

  /** What a child taken in with the entry at `at` adds to `dir`'s children
      is that entry. */
  lemma NodeHeld(list: seq<Entry>, dir: Directory, at: nat, step: Parsed, e: Error)
    requires at < |list|
    requires ParseNode(list, dir, at) == Ok(step)
    ensures step.dir.name == dir.name && step.dir.line == dir.line
    ensures HeldBy(step.dir, e) ==> HeldBy(dir, e) || Clashes(e, list[at], e.firstLine)
  {
    var x := list[at];
    if x.DirEntry? {
      DirNode(list, dir, at, step);
      var n := NewDirectory(x.name, x.indentLevel, x.line);
      var sub := Inner(list, at).value;
      ParseKeeps(list, n, at + 1, 0, x.indentLevel + 1, sub);
      var ds := step.dir.directories;
      assert ds == dir.directories + [sub.dir];
      if HeldBy(step.dir, e) && e.DupDir? {
        var j :| 0 <= j < |ds| && ds[j].name == e.name && ds[j].line == e.firstLine;
        if j < |dir.directories| {
          assert ds[j] == dir.directories[j];
        }
      }
    } else {
      FileNode(list, dir, at, step);
      var fs := step.dir.files;
      assert fs == dir.files + [File(x.name, x.indentLevel, x.line)];
      if HeldBy(step.dir, e) && e.DupFile? {
        var j :| 0 <= j < |fs| && fs[j].name == e.name && fs[j].line == e.firstLine;
        if j < |dir.files| {
          assert fs[j] == dir.files[j];
        }
      }
    }
  }

  // ---------------------------------------------------------------------
  // The whole tree

  /** From the root at level 0 every flat entry is consumed, and each one
      ends up exactly once in the tree; the root keeps its own fields and has
      no duplicate names when it had none; and over a list in line order,
      every directory's children are in line order. */
  lemma BuildTreeConsumesAll(list: seq<Entry>, root: Directory, p: Parsed)
    requires BuildTree(list, root) == Ok(p)
    ensures p.index == |list|
    ensures forall e :: Count(p.dir, e) == Count(root, e) + multiset(list)[e]
    ensures p.dir.name == root.name && p.dir.line == root.line && p.dir.created == root.created
    ensures Distinct(root) ==> Distinct(p.dir)
    ensures SlashNamed(list) && Pristine(root) ==> Pristine(p.dir)
    ensures LinesSorted(list) && Ordered(root) && (|list| > 0 ==> ChildrenUpTo(root, list[0].line)) ==> Ordered(p.dir)
  {
    ParseStops(list, root, 0, 0, 0, p);
    BuildCounts(list, root, p);
    ParseKeeps(list, root, 0, 0, 0, p);
    if Distinct(root) {
      ParseDistinct(list, root, 0, 0, 0, p);
    }
    if SlashNamed(list) && Pristine(root) {
      ParsePristine(list, root, 0, 0, 0, p);
    }
    if LinesSorted(list) && Ordered(root) && (|list| > 0 ==> ChildrenUpTo(root, list[0].line)) {
      ParseOrdered(list, root, 0, 0, 0, p);
    }
  }

  /** Each entry ends up in the built tree as often as it occurs in the list. */
  lemma BuildCounts(list: seq<Entry>, root: Directory, p: Parsed)
    requires BuildTree(list, root) == Ok(p)
    ensures forall e :: Count(p.dir, e) == Count(root, e) + multiset(list)[e]
  {
    ParseStops(list, root, 0, 0, 0, p);
    forall e ensures Count(p.dir, e) == Count(root, e) + multiset(list)[e] {
      ParseCounts(list, root, 0, 0, 0, p, e);
      SpanIsMultiset(list, e);
    }
  }

  // ---------------------------------------------------------------------
  // The same descent without the duplicate checks

  /** The loop of a call as it would run without its duplicate checks: every
      entry is taken in, and the call cannot fail. */
  function NestFrom(list: seq<Entry>, dir: Directory, pos: nat, index: nat, level: nat): (r: Parsed)
    requires pos + index <= |list|
    ensures index <= r.index && pos + r.index <= |list|
    decreases |list| - (pos + index), 1
  {
    if pos + index == |list| || list[pos + index].indentLevel < level then Parsed(dir, index)
    else
      var step := NestNode(list, dir, pos + index);
      NestFrom(list, step.dir, pos, index + step.index, level)
  }

  /** Taking the entry at `at` into `dir` without looking at its siblings. */
  function NestNode(list: seq<Entry>, dir: Directory, at: nat): (r: Parsed)
    requires at < |list|
    ensures 1 <= r.index && at + r.index <= |list|
    decreases |list| - at, 0
  {
    match list[at]
    case DirEntry(name, lvl, ln) =>
      var sub := NestFrom(list, NewDirectory(name, lvl, ln), at + 1, 0, lvl + 1);
      Parsed(dir.(directories := dir.directories + [sub.dir]), sub.index + 1)
    case FileEntry(name, lvl, ln) =>
      Parsed(dir.(files := dir.files + [File(name, lvl, ln)]), 1)
  }

  /** The tree the flat list nests into when no name is checked. */
  function NestTree(list: seq<Entry>, root: Directory): Parsed
  {
    NestFrom(list, root, 0, 0, 0)
  }

  /** The duplicate checks decide only whether the tree is accepted: the
      builder succeeds exactly when the tree the list nests into has no
      directory with two same-named child directories or files, and then it
      builds that very tree. */
  lemma BuildTreeChecks(list: seq<Entry>, root: Directory)
    requires Distinct(root)
    ensures BuildTree(list, root).Ok? <==> Distinct(NestTree(list, root).dir)
    ensures BuildTree(list, root).Ok? ==> BuildTree(list, root).value == NestTree(list, root)
  {
    match BuildTree(list, root)
    case Ok(p) =>
      NestAgrees(list, root, 0, 0, 0, p);
      ParseDistinct(list, root, 0, 0, 0, p);
    case Err(e) =>
      NestFlawed(list, root, 0, 0, 0, e);
  }

  /** Where the checked call succeeds, it does what the unchecked one does. */
  lemma {:induction false} NestAgrees(list: seq<Entry>, dir: Directory, pos: nat, index: nat, level: nat, p: Parsed)
    requires pos + index <= |list|
    requires ParseFrom(list, dir, pos, index, level) == Ok(p)
    ensures NestFrom(list, dir, pos, index, level) == p
    decreases |list| - (pos + index), 1
  {
    var q := pos + index;
    if q < |list| && list[q].indentLevel >= level {
      var step := ParseNode(list, dir, q).value;
      assert ParseFrom(list, step.dir, pos, index + step.index, level) == Ok(p);
      NodeNestAgrees(list, dir, q, step);
      NestAgrees(list, step.dir, pos, index + step.index, level, p);
    }
  }

  lemma {:induction false} NodeNestAgrees(list: seq<Entry>, dir: Directory, at: nat, step: Parsed)
    requires at < |list|
    requires ParseNode(list, dir, at) == Ok(step)
    ensures NestNode(list, dir, at) == step
    decreases |list| - at, 0
  {
    var x := list[at];
    if x.DirEntry? {
      DirNode(list, dir, at, step);
      NestAgrees(list, NewDirectory(x.name, x.indentLevel, x.line), at + 1, 0, x.indentLevel + 1, Inner(list, at).value);
    } else {
      FileNode(list, dir, at, step);
    }
  }

  /** Where the checked call fails, the unchecked one builds a tree with two
      same-named siblings somewhere. */
  lemma {:induction false} NestFlawed(list: seq<Entry>, dir: Directory, pos: nat, index: nat, level: nat, e: Error)
    requires pos + index <= |list|
    requires ParseFrom(list, dir, pos, index, level) == Err(e)
    ensures !Distinct(NestFrom(list, dir, pos, index, level).dir)
    decreases |list| - (pos + index), 1
  {
    var q := pos + index;
    var r := ParseNode(list, dir, q);
    var u := NestNode(list, dir, q);
    assert NestFrom(list, dir, pos, index, level) == NestFrom(list, u.dir, pos, index + u.index, level);
    if r.Err? {
      NodeNestFlawed(list, dir, q, e);
      NestKeeps(list, u.dir, pos, index + u.index, level);
      FlawGrows(u.dir, NestFrom(list, u.dir, pos, index + u.index, level).dir);
    } else {
      NodeNestAgrees(list, dir, q, r.value);
      assert ParseFrom(list, r.value.dir, pos, index + r.value.index, level) == Err(e);
      NestFlawed(list, r.value.dir, pos, index + r.value.index, level, e);
    }
  }

  lemma {:induction false} NodeNestFlawed(list: seq<Entry>, dir: Directory, at: nat, e: Error)
    requires at < |list|
    requires ParseNode(list, dir, at) == Err(e)
    ensures !Distinct(NestNode(list, dir, at).dir)
    decreases |list| - at, 0
  {
    var x := list[at];
    var u := NestNode(list, dir, at).dir;
    if x.DirEntry? {
      var n := NewDirectory(x.name, x.indentLevel, x.line);
      var sub := NestFrom(list, n, at + 1, 0, x.indentLevel + 1);
      NestKeeps(list, n, at + 1, 0, x.indentLevel + 1);
      var ds := dir.directories + [sub.dir];
      assert u == dir.(directories := ds);
      assert ds[|ds| - 1] == sub.dir;
      match FindDir(dir.directories, x.name, 0)
      case Some(j) =>
        assert ds[j] == dir.directories[j];
        assert ds[j].name == ds[|ds| - 1].name;
      case None =>
        assert ParseFrom(list, n, at + 1, 0, x.indentLevel + 1) == Err(e);
        NestFlawed(list, n, at + 1, 0, x.indentLevel + 1, e);
    } else {
      var fs := dir.files + [File(x.name, x.indentLevel, x.line)];
      assert u == dir.(files := fs);
      match FindFile(dir.files, x.name, 0)
      case Some(j) =>
        assert fs[j] == dir.files[j];
        assert fs[j].name == fs[|fs| - 1].name;
      case None =>
    }
  }

  /** The unchecked call only appends to the children of `dir`. */
  lemma {:induction false} NestKeeps(list: seq<Entry>, dir: Directory, pos: nat, index: nat, level: nat)
    requires pos + index <= |list|
    ensures var r := NestFrom(list, dir, pos, index, level);
      && r.dir == dir.(directories := r.dir.directories, files := r.dir.files)
      && dir.directories <= r.dir.directories && dir.files <= r.dir.files
    decreases |list| - (pos + index)
  {
    var q := pos + index;
    if q < |list| && list[q].indentLevel >= level {
      var step := NestNode(list, dir, q);
      NestKeeps(list, step.dir, pos, index + step.index, level);
    }
  }

  /** Two same-named siblings stay once more children are appended. */
  lemma FlawGrows(d: Directory, d': Directory)
    requires d.directories <= d'.directories && d.files <= d'.files
    requires !Distinct(d)
    ensures !Distinct(d')
  {
    if Distinct(d') {
      assert forall i :: 0 <= i < |d.directories| ==> d.directories[i] == d'.directories[i];
      assert forall i :: 0 <= i < |d.files| ==> d.files[i] == d'.files[i];
      assert Distinct(d);
    }
  }
}

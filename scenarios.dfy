/** Worked examples of whole runs, taken from the behaviour the layout
    notation promises. */
module Scenarios {
  import opened Strings
  import opened Entries
  import opened Flattener
  import opened Builder
  import opened Tool

  /** The text `a/q` of an unindented line, for a one-letter file name `q`. */
  lemma SlashText(q: char)
    requires q != '/' && !IsSpace(q)
    ensures Content("a/" + [q]) == "a/" + [q] && IndentOf("a/" + [q]) == 0
  {
    var raw := "a/" + [q];
    RemoveCharKeeps(raw, '\n');
    assert RemoveChar(raw, '\n') == raw;
    assert NonSpaceBefore(raw, 3) == 3;
    assert Normalize(raw) == raw;
    assert NonSpaceFrom(raw, 0) == 0;
  }

  /** The entries of that text: the directory `a/`, then the file one level deeper. */
  lemma SlashEntries(q: char, n: nat)
    requires q != '/' && !IsSpace(q)
    ensures PathEntries("a/" + [q], 0, n) == [DirEntry("a/", 0, n), FileEntry([q], 1, n)]
  {
    var raw := "a/" + [q];
    SplitNoSep([q], '/');
    SplitAtSep("a", [q], '/');
    assert raw == "a" + ['/'] + [q];
    var parts := Split(raw, '/');
    assert parts == ["a", [q]];
    assert parts[..1] == ["a"];
    assert NonSpaceFrom("a", 0) == 0;
    assert DirChain(["a"], 0, n) == [DirEntry("a/", 0, n)];
    assert PathDirs(raw, 0, n) == [DirEntry("a/", 0, n)];
    assert !HasComment([q]);
    assert LeafText(raw) == [q];
    assert NonSpaceFrom([q], 0) == 0;
    PathEntriesParts(raw, 0, n);
  }

  /** The line `a/q` gives its own directory `a/`, then the file `q` inside it. */
  lemma SlashLine(q: char, n: nat)
    requires q != '/' && !IsSpace(q)
    ensures ParseLine("a/" + [q], 4, n) == Ok([DirEntry("a/", 0, n), FileEntry([q], 1, n)])
  {
    SlashText(q);
    SlashEntries(q, n);
    ParseLineText("a/" + [q], 4, n);
    assert Level(0, 4) == 0;
  }

  /** The flat list of the lines `a/x` and `a/y`. */
  function TwinList(): seq<Entry>
  {
    [DirEntry("a/", 0, 1), FileEntry("x", 1, 1), DirEntry("a/", 0, 2), FileEntry("y", 1, 2)]
  }

  /** The reader for the unit 4 on the line `a/q`. */
  lemma SlashOutcome(q: char, n: nat)
    requires q != '/' && !IsSpace(q)
    ensures Reader(4)("a/" + [q], n) == Ok([DirEntry("a/", 0, n), FileEntry([q], 1, n)])
  {
    SlashLine(q, n);
    ReaderParses("a/" + [q], 4, n);
  }

  /** Two lines that both parse: the flat list is their entries in order. */
  lemma TwoLines(lines: seq<string>, read: LineReader, a: seq<Entry>, b: seq<Entry>)
    requires |lines| == 2 && read(lines[0], 1) == Ok(a) && read(lines[1], 2) == Ok(b)
    ensures Fold(FlatState([], 0, None), Outcomes(lines, read, 0)) == FlatState(a + b, 2, None)
  {
    var outs := Outcomes(lines, read, 0);
    assert outs == [Ok(a), Ok(b)];
    assert outs[..1] == [Ok(a)] && [Ok(a)][..0] == [];
    assert Fold(FlatState([], 0, None), [Ok(a)]) == FlatState([] + a, 1, None);
  }

  /** The flat list of two lines `a/x` and `a/y`, for any one-letter file
      names, names the directory `a/` twice at the top. */
  lemma TwinLines(x: char, y: char)
    requires x != '/' && !IsSpace(x) && y != '/' && !IsSpace(y)
    ensures Flatten(["a/" + [x], "a/" + [y]], 4, FlatState([], 0, None))
      == FlatState([DirEntry("a/", 0, 1), FileEntry([x], 1, 1), DirEntry("a/", 0, 2), FileEntry([y], 1, 2)], 2, None)
  {
    var lines := ["a/" + [x], "a/" + [y]];
    SlashOutcome(x, 1);
    SlashOutcome(y, 2);
    TwoLines(lines, Reader(4), [DirEntry("a/", 0, 1), FileEntry([x], 1, 1)], [DirEntry("a/", 0, 2), FileEntry([y], 1, 2)]);
  }

  /** Each line makes its own `a/`, so the builder rejects the second one. */
  lemma TwinRejected()
    ensures BuildTree(TwinList(), Root()) == Err(DupDir("root", 1, "a/", 1, 2))
  {
    var list := TwinList();
    var a := NewDirectory("a/", 0, 1);
    var ax := a.(files := [File("x", 1, 1)]);
    assert list[0] == DirEntry("a/", 0, 1) && list[1] == FileEntry("x", 1, 1) && list[2] == DirEntry("a/", 0, 2);
    assert FindFile(a.files, "x", 0) == None;
    assert a.files + [File("x", 1, 1)] == [File("x", 1, 1)];
    assert ParseFrom(list, ax, 1, 1, 1) == Ok(Parsed(ax, 1));
    assert ParseNode(list, a, 1) == Ok(Parsed(ax, 1));
    assert ParseFrom(list, a, 1, 0, 1) == Ok(Parsed(ax, 1));
    var r1 := Root().(directories := [ax]);
    assert FindDir(Root().directories, "a/", 0) == None;
    assert Root().directories + [ax] == [ax];
    assert ParseNode(list, Root(), 0) == Ok(Parsed(r1, 2));
    assert FindDir(r1.directories, "a/", 0) == Some(0);
    assert ParseNode(list, r1, 2) == Err(DupDir("root", 1, "a/", 1, 2));
  }

  /** Lines `a/x` and `a/y` at the same level fail: the root gets two
      directories named `a/`, first from line 1 and again from line 2. */
  lemma TwinParents()
    ensures Run(["a/x", "a/y"], 4) == Outcome(TwinList(), 2, Root(), Some(DupDir("root", 1, "a/", 1, 2)))
  {
    TwinLines('x', 'y');
    assert [DirEntry("a/", 0, 1), FileEntry(['x'], 1, 1), DirEntry("a/", 0, 2), FileEntry(['y'], 1, 2)] == TwinList();
    var x, y := "a/" + ['x'], "a/" + ['y'];
    assert x[0] == 'a' && x[1] == '/' && x[2] == 'x' && |x| == 3;
    assert y[0] == 'a' && y[1] == '/' && y[2] == 'y' && |y| == 3;
    assert x == "a/x" && y == "a/y";
    TwinRejected();
  }
}

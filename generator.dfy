/** The script generator: the tree becomes a shell script of `mkdir -p` and
    `touch` lines. A directory with several subdirectories creates them all
    with one braced `mkdir -p` and marks them created, so that they do not
    create themselves again; a directory with exactly one subdirectory hands
    its path on to it and writes no `mkdir` of its own, relying on the deepest
    directory below it to create the whole chain. Files are touched with one
    line per directory. */
module Generator {
  import opened Strings
  import opened Entries

  /** One line of the script: the command, a space, the path, then the
      fields, braced and comma-separated when there are several. */
  function MakeLine(cmd: string, path: string, fields: seq<string>): (r: string)
    ensures |r| > 0 && r[|r| - 1] == '\n'
  {
    cmd + " " + path + Fields(fields) + "\n"
  }

  /** The fields of a line: several are joined by commas between braces;
      one, or none, is joined by the empty separator. */
  function Fields(fields: seq<string>): string
  {
    if |fields| > 1 then "{" + Join(",", fields) + "}" else Join("", fields)
  }

  /** A command of the script, with the path it works in and its names. */
  datatype Command =
    | Mkdir(path: string, names: seq<string>)
    | Touch(path: string, names: seq<string>)

  function Render(c: Command): string
  {
    match c
    case Mkdir(path, names) => MakeLine("mkdir -p", path, names)
    case Touch(path, names) => MakeLine("touch", path, names)
  }

  /** The text of a script: its lines in order. */
  function RenderAll(cs: seq<Command>): string
  {
    if |cs| == 0 then [] else RenderAll(cs[..|cs| - 1]) + Render(cs[|cs| - 1])
  }

  /** The names a braced `mkdir -p` gives some subdirectories: each name
      without its last character, the trailing `/`. */
  function DirNames(ds: seq<Directory>): seq<string>
  {
    seq(|ds|, i requires 0 <= i < |ds| => DropLast(ds[i].name))
  }

  function FileNames(fs: seq<File>): seq<string>
  {
    seq(|fs|, i requires 0 <= i < |fs| => fs[i].name)
  }

  /** Each name appended to the path. */
  function Prefixed(path: string, names: seq<string>): seq<string>
  {
    seq(|names|, i requires 0 <= i < |names| => path + names[i])
  }

  // ---------------------------------------------------------------------
  // The script of a directory

  /** The commands for `d` at `path`, with `created` standing for the
      directory's own flag. With exactly one subdirectory, the files are
      touched and the subdirectory goes on at the longer path. Otherwise a
      `mkdir -p` creates all the subdirectories, or the directory itself when
      it has none and is not created yet; the files are touched; and every
      subdirectory follows, each as created. */
  function ScriptAt(d: Directory, path: string, created: bool): seq<Command>
    decreases d
  {
    var ds := d.directories;
    if |ds| == 1 then
      OwnTouch(d, path) + ScriptAt(ds[0], path + ds[0].name, ds[0].created)
    else
      OwnMkdir(d, path, created) + OwnTouch(d, path) + ChildScripts(ds, path)
  }

  /** The `touch` line of a directory's own files, if it has any. */
  function OwnTouch(d: Directory, path: string): seq<Command>
  {
    if |d.files| > 0 then [Touch(path, FileNames(d.files))] else []
  }

  /** The `mkdir -p` line of a directory without exactly one subdirectory:
      there is one unless the directory has none and is already created. */
  function OwnMkdir(d: Directory, path: string, created: bool): seq<Command>
  {
    if !created || |d.directories| > 1 then [Mkdir(path, DirNames(d.directories))] else []
  }

  /** The scripts of sibling subdirectories, in order, each run as created. */
  function ChildScripts(ds: seq<Directory>, path: string): seq<Command>
    decreases ds
  {
    if |ds| == 0 then []
    else
      var last := ds[|ds| - 1];
      ChildScripts(ds[..|ds| - 1], path) + ScriptAt(last, path + last.name, true)
  }

  function Script(d: Directory, path: string): seq<Command>
  {
    ScriptAt(d, path, d.created)
  }

  /** The text generated for `d` at `path`. */
  function Text(d: Directory, path: string): string
  {
    RenderAll(Script(d, path))
  }

  // ---------------------------------------------------------------------
  // The flags generation leaves behind

  /** The tree after generation: below every directory with several
      subdirectories, those are marked created; nothing else changes. */
  function Marked(d: Directory): (r: Directory)
    ensures r.name == d.name && r.indentLevel == d.indentLevel && r.line == d.line
    ensures r.files == d.files && r.created == d.created
    ensures |r.directories| == |d.directories|
    ensures forall i :: 0 <= i < |d.directories| ==> r.directories[i].name == d.directories[i].name
    ensures |d.directories| > 1 ==> forall i :: 0 <= i < |r.directories| ==> r.directories[i].created
    ensures |d.directories| == 1 ==> r.directories[0].created == d.directories[0].created
    decreases d
  {
    var ds := d.directories;
    if |ds| == 1 then d.(directories := [Marked(ds[0])])
    else d.(directories := MarkAll(ds))
  }

  /** Sibling subdirectories after generation, every one marked created. */
  function MarkAll(ds: seq<Directory>): (r: seq<Directory>)
    ensures |r| == |ds|
    ensures forall i :: 0 <= i < |ds| ==> r[i].created && r[i].name == ds[i].name
    decreases ds
  {
    if |ds| == 0 then []
    else
      var last := ds[|ds| - 1];
      MarkAll(ds[..|ds| - 1]) + [Marked(last).(created := true)]
  }

  /** `m` is `d` with some flags of its subdirectories raised: same names,
      lines, levels and files everywhere, the same shape, and a flag that is
      set in `d` is set in `m`. */
  predicate Raised(d: Directory, m: Directory)
    decreases d
  {
    && m.name == d.name && m.indentLevel == d.indentLevel && m.line == d.line && m.files == d.files
    && (d.created ==> m.created)
    && |m.directories| == |d.directories|
    && forall i :: 0 <= i < |d.directories| ==> Raised(d.directories[i], m.directories[i])
  }

  // ---------------------------------------------------------------------
  // What the script does

  /** The paths of the files the `touch` lines create, in order. */
  function Touched(cs: seq<Command>): seq<string>
  {
    if |cs| == 0 then []
    else
      var last := cs[|cs| - 1];
      Touched(cs[..|cs| - 1]) + (if last.Touch? then Prefixed(last.path, last.names) else [])
  }

  /** The paths a `mkdir -p` line names, after brace expansion: the path
      itself when the line has no names. */
  function MkdirTargets(c: Command): seq<string>
  {
    if c.Touch? then [] else if |c.names| == 0 then [c.path] else Prefixed(c.path, c.names)
  }

  /** The paths the `mkdir -p` lines of a script name. */
  function Targets(cs: seq<Command>): seq<string>
  {
    if |cs| == 0 then [] else Targets(cs[..|cs| - 1]) + MkdirTargets(cs[|cs| - 1])
  }

  /** The paths of all files of the tree below `d` at `path`: its own files,
      then those of each subdirectory in order. */
  function FilePaths(d: Directory, path: string): seq<string>
    decreases d
  {
    Prefixed(path, FileNames(d.files)) + ChildFilePaths(d.directories, path)
  }

  function ChildFilePaths(ds: seq<Directory>, path: string): seq<string>
    decreases ds
  {
    if |ds| == 0 then []
    else
      var last := ds[|ds| - 1];
      ChildFilePaths(ds[..|ds| - 1], path) + FilePaths(last, path + last.name)
  }

  /** `mkdir -p` of one of the targets creates the directory written `q`
      (with its trailing `/`): `q` leads up to a target or is one. */
  predicate CreatedBy(targets: seq<string>, q: string)
  {
    exists t :: t in targets && (q <= t || q == t + "/")
  }

  /** Every directory below `d` at `path`, at its own path, is created by one
      of the targets. */
  predicate AllCovered(d: Directory, path: string, targets: seq<string>)
    decreases d
  {
    ChildrenCovered(d.directories, path, targets)
  }

  /** Sibling subdirectories at `path`, and everything below them, are
      created by the targets. */
  predicate ChildrenCovered(ds: seq<Directory>, path: string, targets: seq<string>)
    decreases ds
  {
    |ds| == 0
    || (var last := ds[|ds| - 1];
        && ChildrenCovered(ds[..|ds| - 1], path, targets)
        && CreatedBy(targets, path + last.name)
        && AllCovered(last, path + last.name, targets))
  }

  // ---------------------------------------------------------------------
  // Lines

  /** The three shapes of the fields of a line: nothing, the one field as
      it is, or all fields braced and comma-separated. */
  lemma FieldsCases(fields: seq<string>)
    ensures |fields| == 0 ==> Fields(fields) == []
    ensures |fields| == 1 ==> Fields(fields) == fields[0]
    ensures |fields| > 1 ==> Fields(fields) == "{" + Join(",", fields) + "}"
  {
  }

  /** Several fields without commas can be read back from a line: what
      stands between the braces splits on `,` into the fields. */
  lemma MakeLineFields(cmd: string, path: string, fields: seq<string>)
    requires |fields| > 1
    requires forall i :: 0 <= i < |fields| ==> ',' !in fields[i]
    ensures var r := MakeLine(cmd, path, fields); var n := |cmd| + |path| + 2;
      && n <= |r| - 2 && r[n - 1] == '{' && r[|r| - 2] == '}'
      && Split(r[n..|r| - 2], ',') == fields
  {
    var head := cmd + " " + path;
    var body := Join(",", fields);
    var r := MakeLine(cmd, path, fields);
    var n := |head| + 1;
    assert r == head + ("{" + body + "}") + "\n";
    assert r[n..|r| - 2] == body;
    JoinSplit(fields, ',');
  }

  /** Without newlines in its parts, a line holds exactly one, at its end. */
  lemma MakeLineOneLine(cmd: string, path: string, fields: seq<string>)
    requires '\n' !in cmd && '\n' !in path
    requires forall i :: 0 <= i < |fields| ==> '\n' !in fields[i]
    ensures var r := MakeLine(cmd, path, fields);
      forall i :: 0 <= i < |r| - 1 ==> r[i] != '\n'
  {
    var many := |fields| > 1;
    var sep := if many then "," else "";
    JoinAvoids(sep, fields, '\n');
    var r := MakeLine(cmd, path, fields);
    var body := cmd + " " + path + Fields(fields);
    assert '\n' !in Fields(fields);
    assert r == body + "\n";
    assert '\n' !in body;
    assert forall i :: 0 <= i < |r| - 1 ==> r[i] == body[i];
  }

  lemma {:induction false} RenderAllAppend(a: seq<Command>, b: seq<Command>)
    ensures RenderAll(a + b) == RenderAll(a) + RenderAll(b)
    decreases |b|
  {
    if |b| > 0 {
      var init := b[..|b| - 1];
      assert (a + b)[..|a + b| - 1] == a + init;
      RenderAllAppend(a, init);
    } else {
      assert a + b == a;
    }
  }

  /** One more subdirectory in the loop over several: its name, its text
      when marked created, and its marked tree come after those before it. */
  lemma ChildStep(ds: seq<Directory>, k: nat, path: string)
    requires k < |ds|
    ensures DirNames(ds[..k + 1]) == DirNames(ds[..k]) + [DropLast(ds[k].name)]
    ensures RenderAll(ChildScripts(ds[..k + 1], path)) ==
      RenderAll(ChildScripts(ds[..k], path)) + Text(ds[k].(created := true), path + ds[k].name)
    ensures MarkAll(ds[..k + 1]) == MarkAll(ds[..k]) + [Marked(ds[k].(created := true))]
  {
    var c := ds[k];
    assert ds[..k + 1][..k] == ds[..k];
    ScriptFlag(c, path + c.name, true, true);
    MarkedFlag(c, true);
    RenderAllAppend(ChildScripts(ds[..k], path), ScriptAt(c, path + c.name, true));
  }

  /** The text of a directory with exactly one subdirectory: its `touch`
      line, if any, then the subdirectory's text at the longer path. */
  lemma RelayText(d: Directory, path: string, touch: string)
    requires |d.directories| == 1
    requires touch == if |d.files| > 0 then MakeLine("touch", path, FileNames(d.files)) else []
    ensures Text(d, path) == touch + Text(d.directories[0], path + d.directories[0].name)
  {
    var c := d.directories[0];
    OwnTouchText(d, path, touch);
    RenderAllAppend(OwnTouch(d, path), Script(c, path + c.name));
  }

  /** The text of a directory without exactly one subdirectory: its
      `mkdir -p` line, if any, its `touch` line, if any, then the texts of
      the subdirectories, each run as created. */
  lemma SpreadText(d: Directory, path: string, mkdir: string, touch: string)
    requires |d.directories| != 1
    requires mkdir == if !d.created || |d.directories| > 1 then MakeLine("mkdir -p", path, DirNames(d.directories)) else []
    requires touch == if |d.files| > 0 then MakeLine("touch", path, FileNames(d.files)) else []
    ensures Text(d, path) == mkdir + touch + RenderAll(ChildScripts(d.directories, path))
  {
    var own := OwnMkdir(d, path, d.created);
    var t := OwnTouch(d, path);
    var cs := ChildScripts(d.directories, path);
    assert Script(d, path) == own + t + cs;
    OwnMkdirText(d, path, mkdir);
    OwnTouchText(d, path, touch);
    RenderAllAppend(own, t);
    RenderAllAppend(own + t, cs);
  }

  lemma OwnMkdirText(d: Directory, path: string, mkdir: string)
    requires mkdir == if !d.created || |d.directories| > 1 then MakeLine("mkdir -p", path, DirNames(d.directories)) else []
    ensures RenderAll(OwnMkdir(d, path, d.created)) == mkdir
  {
    var own := OwnMkdir(d, path, d.created);
    if !d.created || |d.directories| > 1 {
      assert RenderAll(own) == RenderAll([]) + Render(own[0]);
    }
  }

  lemma OwnTouchText(d: Directory, path: string, touch: string)
    requires touch == if |d.files| > 0 then MakeLine("touch", path, FileNames(d.files)) else []
    ensures RenderAll(OwnTouch(d, path)) == touch
  {
    var own := OwnTouch(d, path);
    if |d.files| > 0 {
      assert RenderAll(own) == RenderAll([]) + Render(own[0]);
    }
  }

  lemma ChildScriptsSnoc(ds: seq<Directory>, d: Directory, path: string)
    ensures ChildScripts(ds + [d], path) == ChildScripts(ds, path) + ScriptAt(d, path + d.name, true)
  {
    assert (ds + [d])[..|ds|] == ds;
  }

  // ---------------------------------------------------------------------
  // Idempotence

  /** The script ignores the directory's own flag in favour of `created`. */
  lemma ScriptFlag(d: Directory, path: string, created: bool, b: bool)
    ensures ScriptAt(d.(created := b), path, created) == ScriptAt(d, path, created)
  {
  }

  lemma MarkedFlag(d: Directory, b: bool)
    ensures Marked(d.(created := b)) == Marked(d).(created := b)
  {
  }

  /** Generating again from the marked tree writes the same script. */
  lemma {:induction false} MarkedScript(d: Directory, path: string, created: bool)
    ensures ScriptAt(Marked(d), path, created) == ScriptAt(d, path, created)
    decreases d
  {
    var ds := d.directories;
    var m := Marked(d);
    if |ds| == 1 {
      MarkedScript(ds[0], path + ds[0].name, ds[0].created);
      assert m.directories == [Marked(ds[0])];
    } else {
      MarkAllScripts(ds, path);
      assert m.directories == MarkAll(ds);
      assert DirNames(MarkAll(ds)) == DirNames(ds);
    }
  }

  lemma {:induction false} MarkAllScripts(ds: seq<Directory>, path: string)
    ensures ChildScripts(MarkAll(ds), path) == ChildScripts(ds, path)
    decreases ds
  {
    if |ds| > 0 {
      var init := ds[..|ds| - 1];
      var last := ds[|ds| - 1];
      var ms := MarkAll(ds);
      MarkAllScripts(init, path);
      MarkedScript(last, path + last.name, true);
      ScriptFlag(Marked(last), path + last.name, true, true);
      assert ms[..|ms| - 1] == MarkAll(init);
      assert ms[|ms| - 1] == Marked(last).(created := true);
    }
  }

  /** Marking twice is marking once. */
  lemma {:induction false} MarkedTwice(d: Directory)
    ensures Marked(Marked(d)) == Marked(d)
    decreases d
  {
    var ds := d.directories;
    if |ds| == 1 {
      MarkedTwice(ds[0]);
      assert Marked(d).directories == [Marked(ds[0])];
    } else {
      MarkAllTwice(ds);
      assert Marked(d).directories == MarkAll(ds);
    }
  }

  lemma {:induction false} MarkAllTwice(ds: seq<Directory>)
    ensures MarkAll(MarkAll(ds)) == MarkAll(ds)
    decreases ds
  {
    if |ds| > 0 {
      var init := ds[..|ds| - 1];
      var last := ds[|ds| - 1];
      var ms := MarkAll(ds);
      MarkAllTwice(init);
      MarkedTwice(last);
      MarkedFlag(Marked(last), true);
      assert ms[..|ms| - 1] == MarkAll(init);
      assert ms[|ms| - 1] == Marked(last).(created := true);
      assert MarkAll(ms) == MarkAll(ms[..|ms| - 1]) + [Marked(ms[|ms| - 1]).(created := true)];
    }
  }

  /** Generation only raises flags. */
  lemma {:induction false} MarkedRaises(d: Directory)
    ensures Raised(d, Marked(d))
    decreases d
  {
    var ds := d.directories;
    var m := Marked(d);
    if |ds| == 1 {
      MarkedRaises(ds[0]);
      assert m.directories == [Marked(ds[0])];
    } else {
      MarkAllRaises(ds);
      assert m.directories == MarkAll(ds);
    }
  }

  lemma {:induction false} MarkAllRaises(ds: seq<Directory>)
    ensures forall i :: 0 <= i < |ds| ==> Raised(ds[i], MarkAll(ds)[i])
    decreases ds
  {
    if |ds| > 0 {
      var init := ds[..|ds| - 1];
      var last := ds[|ds| - 1];
      var ms := MarkAll(ds);
      MarkAllRaises(init);
      MarkedRaises(last);
      RaiseTop(last, Marked(last));
      assert ms[..|ms| - 1] == MarkAll(init);
      forall i | 0 <= i < |ds| ensures Raised(ds[i], ms[i]) {
        if i < |init| {
          assert ds[i] == init[i] && ms[i] == MarkAll(init)[i];
        }
      }
    }
  }

  lemma RaiseTop(d: Directory, m: Directory)
    requires Raised(d, m)
    ensures Raised(d, m.(created := true))
  {
  }

  // ---------------------------------------------------------------------
  // Files

  lemma {:induction false} TouchedAppend(a: seq<Command>, b: seq<Command>)
    ensures Touched(a + b) == Touched(a) + Touched(b)
    decreases |b|
  {
    if |b| > 0 {
      var init := b[..|b| - 1];
      assert (a + b)[..|a + b| - 1] == a + init;
      TouchedAppend(a, init);
    } else {
      assert a + b == a;
    }
  }

  lemma TouchedOwn(d: Directory, path: string, created: bool)
    ensures Touched(OwnTouch(d, path)) == Prefixed(path, FileNames(d.files))
    ensures Touched(OwnMkdir(d, path, created)) == []
  {
    var t := OwnTouch(d, path);
    if |t| == 1 {
      assert t[..0] == [];
    }
    var m := OwnMkdir(d, path, created);
    if |m| == 1 {
      assert m[..0] == [];
    }
  }

  /** The `touch` lines create exactly the files of the tree, at their paths,
      in order, whatever the flags. */
  lemma {:induction false} ScriptTouches(d: Directory, path: string, created: bool)
    ensures Touched(ScriptAt(d, path, created)) == FilePaths(d, path)
    decreases d, 1
  {
    TouchedOwn(d, path, created);
    if |d.directories| == 1 {
      RelayTouches(d, path, created);
    } else {
      SpreadTouches(d, path, created);
    }
  }

  lemma {:induction false} RelayTouches(d: Directory, path: string, created: bool)
    requires |d.directories| == 1
    requires Touched(OwnTouch(d, path)) == Prefixed(path, FileNames(d.files))
    ensures Touched(ScriptAt(d, path, created)) == FilePaths(d, path)
    decreases d, 0
  {
    var ds := d.directories;
    var c := ds[0];
    var sub := ScriptAt(c, path + c.name, c.created);
    assert ScriptAt(d, path, created) == OwnTouch(d, path) + sub;
    ScriptTouches(c, path + c.name, c.created);
    TouchedAppend(OwnTouch(d, path), sub);
    OnlyChildFiles(ds, path);
  }

  lemma OnlyChildFiles(ds: seq<Directory>, path: string)
    requires |ds| == 1
    ensures ChildFilePaths(ds, path) == FilePaths(ds[0], path + ds[0].name)
  {
    assert ds[..0] == [];
    assert ChildFilePaths(ds, path) == [] + FilePaths(ds[0], path + ds[0].name);
  }

  lemma {:induction false} SpreadTouches(d: Directory, path: string, created: bool)
    requires |d.directories| != 1
    requires Touched(OwnTouch(d, path)) == Prefixed(path, FileNames(d.files))
    requires Touched(OwnMkdir(d, path, created)) == []
    ensures Touched(ScriptAt(d, path, created)) == FilePaths(d, path)
    decreases d, 0
  {
    var own := Prefixed(path, FileNames(d.files));
    var mkdir := OwnMkdir(d, path, created);
    var touch := OwnTouch(d, path);
    var rest := ChildScripts(d.directories, path);
    ChildTouches(d.directories, path);
    TouchedAppend(mkdir, touch);
    TouchedAppend(mkdir + touch, rest);
    assert [] + own == own;
  }

  lemma {:induction false} ChildTouches(ds: seq<Directory>, path: string)
    ensures Touched(ChildScripts(ds, path)) == ChildFilePaths(ds, path)
    decreases ds
  {
    if |ds| > 0 {
      var init := ds[..|ds| - 1];
      var last := ds[|ds| - 1];
      ChildTouches(init, path);
      ScriptTouches(last, path + last.name, true);
      TouchedAppend(ChildScripts(init, path), ScriptAt(last, path + last.name, true));
    }
  }

  // ---------------------------------------------------------------------
  // Directories

  lemma {:induction false} TargetsAppend(a: seq<Command>, b: seq<Command>)
    ensures Targets(a + b) == Targets(a) + Targets(b)
    decreases |b|
  {
    if |b| > 0 {
      var init := b[..|b| - 1];
      assert (a + b)[..|a + b| - 1] == a + init;
      TargetsAppend(a, init);
    } else {
      assert a + b == a;
    }
  }

  /** Every target of `xs` is one of `ys`. */
  predicate Within(xs: seq<string>, ys: seq<string>)
  {
    forall t :: t in xs ==> t in ys
  }

  /** More targets cover at least as much. */
  lemma {:induction false} Widen(d: Directory, path: string, ts: seq<string>, us: seq<string>)
    requires AllCovered(d, path, ts) && Within(ts, us)
    ensures AllCovered(d, path, us)
    decreases d
  {
    WidenChildren(d.directories, path, ts, us);
  }

  lemma {:induction false} WidenChildren(ds: seq<Directory>, path: string, ts: seq<string>, us: seq<string>)
    requires ChildrenCovered(ds, path, ts) && Within(ts, us)
    ensures ChildrenCovered(ds, path, us)
    decreases ds
  {
    if |ds| > 0 {
      var last := ds[|ds| - 1];
      WidenChildren(ds[..|ds| - 1], path, ts, us);
      Widen(last, path + last.name, ts, us);
    }
  }

  /** The first of the targets lies at `path` or below it. */
  predicate Leads(path: string, targets: seq<string>)
  {
    |targets| > 0 && path <= targets[0]
  }

  /** On a tree as the builder makes it, every directory is created by some
      `mkdir -p` line; and the first line creates the path of `d` itself,
      unless `d` is already created and has no subdirectories. */
  lemma {:induction false} ScriptCovers(d: Directory, path: string, created: bool)
    requires Pristine(d)
    ensures AllCovered(d, path, Targets(ScriptAt(d, path, created)))
    ensures !created || |d.directories| > 0 ==> Leads(path, Targets(ScriptAt(d, path, created)))
    decreases d, 1
  {
    if |d.directories| == 1 {
      RelayCovers(d, path, created);
    } else {
      SpreadCovers(d, path, created);
    }
  }

  lemma CreatedAt(ts: seq<string>, q: string, t: string)
    requires t in ts && (q <= t || q == t + "/")
    ensures CreatedBy(ts, q)
  {
  }

  lemma PrefixTrans(a: string, b: string, c: string)
    requires a <= b && b <= c
    ensures a <= c
  {
    assert c[..|a|] == b[..|a|];
  }

  /** A directory with one subdirectory is covered by what covers that one. */
  lemma {:induction false} RelayCovers(d: Directory, path: string, created: bool)
    requires Pristine(d) && |d.directories| == 1
    ensures AllCovered(d, path, Targets(ScriptAt(d, path, created)))
    ensures Leads(path, Targets(ScriptAt(d, path, created)))
    decreases d, 0
  {
    var ds := d.directories;
    var c := ds[0];
    var q := path + c.name;
    var sub := ScriptAt(c, q, c.created);
    var touch := OwnTouch(d, path);
    assert ds[..0] == [];
    TargetsOwn(d, path, created);
    TargetsAppend(touch, sub);
    var ts := Targets(sub);
    assert Targets(ScriptAt(d, path, created)) == [] + ts;
    assert [] + ts == ts;
    ScriptCovers(c, q, c.created);
    CreatedAt(ts, q, ts[0]);
    assert ChildrenCovered(ds, path, ts);
    PrefixTrans(path, q, ts[0]);
  }

  /** The targets of a directory without exactly one subdirectory: those of
      its own `mkdir -p` line, then those of the subdirectories' scripts. */
  lemma SpreadTargets(d: Directory, path: string, created: bool)
    requires |d.directories| != 1
    ensures Targets(ScriptAt(d, path, created)) ==
      (if created && |d.directories| == 0 then []
       else if |d.directories| == 0 then [path]
       else Prefixed(path, DirNames(d.directories)))
      + Targets(ChildScripts(d.directories, path))
  {
    var ds := d.directories;
    var touch := OwnTouch(d, path);
    var mkdir := OwnMkdir(d, path, created);
    var rest := ChildScripts(ds, path);
    var top := if created && |ds| == 0 then [] else if |ds| == 0 then [path] else Prefixed(path, DirNames(ds));
    TargetsOwn(d, path, created);
    assert Targets(mkdir) == top;
    TargetsAppend(mkdir, touch);
    assert Targets(mkdir + touch) == top + [];
    assert top + [] == top;
    TargetsAppend(mkdir + touch, rest);
  }

  lemma TargetsOwn(d: Directory, path: string, created: bool)
    ensures Targets(OwnTouch(d, path)) == []
    ensures Targets(OwnMkdir(d, path, created)) ==
      if created && |d.directories| <= 1 then []
      else if |d.directories| == 0 then [path]
      else Prefixed(path, DirNames(d.directories))
  {
    var t := OwnTouch(d, path);
    if |t| == 1 {
      assert t[..0] == [];
    }
    var m := OwnMkdir(d, path, created);
    if |m| == 1 {
      assert m[..0] == [];
      assert [] + MkdirTargets(m[0]) == MkdirTargets(m[0]);
    }
  }

  /** A directory with no or several subdirectories: its `mkdir -p` line
      creates the subdirectories, and their scripts cover what lies below. */
  lemma {:induction false} SpreadCovers(d: Directory, path: string, created: bool)
    requires Pristine(d) && |d.directories| != 1
    ensures AllCovered(d, path, Targets(ScriptAt(d, path, created)))
    ensures !created || |d.directories| > 0 ==> Leads(path, Targets(ScriptAt(d, path, created)))
    decreases d, 0
  {
    var ds := d.directories;
    SpreadTargets(d, path, created);
    var top := if created && |ds| == 0 then [] else if |ds| == 0 then [path] else Prefixed(path, DirNames(ds));
    var below := Targets(ChildScripts(ds, path));
    var ts := top + below;
    assert Within(below, ts);
    if |ds| > 1 {
      assert Prefixed(path, DirNames(ds)) <= ts;
      ChildCovers(ds, path, ts);
      assert ts[0] == path + DropLast(ds[0].name);
    }
  }

  /** The scripts of sibling subdirectories cover everything below them, and a
      braced `mkdir -p` of their names at the head of the targets creates
      them. */
  lemma {:induction false} ChildCovers(ds: seq<Directory>, path: string, ts: seq<string>)
    requires AllPristine(ds)
    requires Prefixed(path, DirNames(ds)) <= ts
    requires Within(Targets(ChildScripts(ds, path)), ts)
    ensures ChildrenCovered(ds, path, ts)
    decreases ds
  {
    if |ds| > 0 {
      var init := ds[..|ds| - 1];
      var last := ds[|ds| - 1];
      var q := path + last.name;
      ChildTargets(ds, path);
      var a := Targets(ChildScripts(init, path));
      var b := Targets(ScriptAt(last, q, true));
      assert Targets(ChildScripts(ds, path)) == a + b;
      assert Within(a, ts) && Within(b, ts);
      PrefixedInit(ds, path);
      ChildCovers(init, path, ts);
      ScriptCovers(last, q, true);
      Widen(last, q, b, ts);
      var t := ts[|ds| - 1];
      assert t == path + DropLast(last.name);
      assert q == t + "/";
      CreatedAt(ts, q, t);
    }
  }

  lemma PrefixedInit(ds: seq<Directory>, path: string)
    requires |ds| > 0
    ensures Prefixed(path, DirNames(ds[..|ds| - 1])) <= Prefixed(path, DirNames(ds))
  {
  }

  lemma ChildTargets(ds: seq<Directory>, path: string)
    requires |ds| > 0
    ensures Targets(ChildScripts(ds, path)) ==
      Targets(ChildScripts(ds[..|ds| - 1], path)) + Targets(ScriptAt(ds[|ds| - 1], path + ds[|ds| - 1].name, true))
  {
    var last := ds[|ds| - 1];
    TargetsAppend(ChildScripts(ds[..|ds| - 1], path), ScriptAt(last, path + last.name, true));
  }

  // ---------------------------------------------------------------------
  // Examples

  /** A top directory with no subdirectories that is not created yet makes
      the script create its own path first. */
  lemma LeafCreatesItself(d: Directory, path: string)
    requires |d.directories| == 0 && !d.created
    ensures MakeLine("mkdir -p", path, []) <= Text(d, path)
  {
    var s := Script(d, path);
    var touch := OwnTouch(d, path);
    assert DirNames(d.directories) == [];
    assert ChildScripts(d.directories, path) == [];
    assert s == [Mkdir(path, [])] + touch + [];
    assert s == [Mkdir(path, [])] + touch;
    RenderAllAppend([Mkdir(path, [])], touch);
    assert RenderAll([Mkdir(path, [])]) == MakeLine("mkdir -p", path, []);
  }

  /** A directory with one subdirectory and no files writes nothing of its
      own: its script is that of the subdirectory at the longer path. */
  lemma RelayScript(d: Directory, path: string, created: bool)
    requires |d.directories| == 1 && |d.files| == 0
    ensures ScriptAt(d, path, created) == Script(d.directories[0], path + d.directories[0].name)
  {
    assert ScriptAt(d, path, created) == [] + Script(d.directories[0], path + d.directories[0].name);
  }

  /** The tree of the single line `a/b/c/d/file.txt`. */
  function DeepTree(): Directory
  {
    var d4 := Directory("d/", 3, 1, [], [File("file.txt", 4, 1)], false);
    var d3 := Directory("c/", 2, 1, [d4], [], false);
    var d2 := Directory("b/", 1, 1, [d3], [], false);
    var d1 := Directory("a/", 0, 1, [d2], [], false);
    Directory("root", 0, 1, [d1], [], false)
  }

  lemma DeepScript()
    ensures Script(DeepTree(), "") == [Mkdir("a/b/c/d/", []), Touch("a/b/c/d/", ["file.txt"])]
  {
    var d1 := DeepTree().directories[0];
    var d2 := d1.directories[0];
    var d3 := d2.directories[0];
    var d4 := d3.directories[0];
    var p := "a/b/c/d/";
    assert DirNames([]) == [] && FileNames(d4.files) == ["file.txt"];
    assert ChildScripts([], p) == [];
    assert ScriptAt(d4, p, false) == [Mkdir(p, [])] + [Touch(p, ["file.txt"])] + [];
    assert "" + "a/" == "a/" && "a/" + "b/" == "a/b/" && "a/b/" + "c/" == "a/b/c/" && "a/b/c/" + "d/" == p;
    RelayScript(d3, "a/b/c/", false);
    RelayScript(d2, "a/b/", false);
    RelayScript(d1, "a/", false);
    RelayScript(DeepTree(), "", false);
  }

  lemma DeepLines()
    ensures Render(Mkdir("a/b/c/d/", [])) == "mkdir -p a/b/c/d/\n"
    ensures Render(Touch("a/b/c/d/", ["file.txt"])) == "touch a/b/c/d/file.txt\n"
  {
    FieldsCases([]);
    FieldsCases(["file.txt"]);
  }

  /** The chain `a/b/c/d/` holding `file.txt` below the top: one `mkdir -p` of
      the deepest directory, and one `touch`. */
  lemma DeepChain()
    ensures Text(DeepTree(), "") == "mkdir -p a/b/c/d/\n" + "touch a/b/c/d/file.txt\n"
  {
    var mk := Mkdir("a/b/c/d/", []);
    var tp := Touch("a/b/c/d/", ["file.txt"]);
    DeepScript();
    assert [mk, tp][..1] == [mk] && [mk][..0] == [];
    assert RenderAll([mk]) == Render(mk);
    assert RenderAll([mk, tp]) == Render(mk) + Render(tp);
    DeepLines();
  }
}

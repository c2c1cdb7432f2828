/** The line flattener: each raw input line becomes zero or more flat entries.
    Leading whitespace gives the base level, the text is split on `/` into a
    chain of directories, a `--` comment is cut off the last segment, and
    whatever remains of it is a file one level below the last directory. */
module Flattener {
  import opened Strings
  import opened Entries

  /** The directories a line's path segments give: one per non-empty segment,
      each one level deeper than the one before. */
  function DirChain(segments: seq<string>, level: nat, line: nat): (r: seq<Entry>)
    ensures |r| <= |segments|
  {
    if |segments| == 0 then []
    else if segments[0] == [] then DirChain(segments[1..], level, line)
    else [DirEntry(LStrip(segments[0]) + "/", level, line)] + DirChain(segments[1..], level + 1, line)
  }

  /** The non-empty segments, in order. */
  function NonEmpty(segments: seq<string>): seq<string>
  {
    if |segments| == 0 then []
    else if segments[0] == [] then NonEmpty(segments[1..])
    else [segments[0]] + NonEmpty(segments[1..])
  }

  /** A raw line with its newlines removed and its trailing whitespace stripped. */
  function Normalize(raw: string): string
  {
    RStrip(RemoveChar(raw, '\n'))
  }

  /** The text of a line after its indentation. */
  function Content(raw: string): string
  {
    LStrip(Normalize(raw))
  }

  /** The number of whitespace characters a line is indented by. */
  function IndentOf(raw: string): nat
  {
    |Normalize(raw)| - |Content(raw)|
  }

  /** `k` is the length of the whitespace run that starts `s`. */
  predicate LeadingSpaces(s: string, k: nat)
  {
    k <= |s| && (forall i :: 0 <= i < k ==> IsSpace(s[i])) && (k == |s| || !IsSpace(s[k]))
  }

  /** The directories the text `name` of a line (its indentation removed)
      names: every `/`-separated segment but the last, from `level` on. */
  function PathDirs(name: string, level: nat, lineNo: nat): seq<Entry>
  {
    var parts := Split(name, '/');
    if |parts| > 1 then DirChain(parts[..|parts| - 1], level, lineNo) else []
  }

  /** The last `/`-separated segment of `name`, cut at `--` (after a
      left strip) when it holds one. */
  function LeafText(name: string): string
  {
    var parts := Split(name, '/');
    var leaf := if |parts| > 1 then parts[|parts| - 1] else name;
    if HasComment(leaf) then BeforeComment(LStrip(leaf)) else leaf
  }

  /** The entries of the text `name` of a line, whose directories start at
      `level`: the directories of its path, then a file for what is left of
      the last segment, left-stripped, unless nothing is. */
  function PathEntries(name: string, level: nat, lineNo: nat): seq<Entry>
  {
    var dirs := PathDirs(name, level, lineNo);
    var leaf := LeafText(name);
    if leaf == [] then dirs
    else dirs + [FileEntry(LStrip(leaf), level + |dirs|, lineNo)]
  }

  /** The nesting level of an indentation of `spaces` whitespace characters
      that the unit divides. */
  function Level(spaces: nat, indent: nat): nat
    requires indent > 0
  {
    spaces / indent
  }

  /** The entries of one input line with 1-based number `lineNo`, or the
      error it raises. A blank line gives nothing; otherwise the level is the
      indentation divided by the unit `indent`, which fails when the unit is
      zero, and the indentation must be a multiple of the unit. */
  function ParseLine(raw: string, indent: nat, lineNo: nat): Result<seq<Entry>>
  {
    var line := Normalize(raw);
    var name := LStrip(line);
    if |name| == 0 then Ok([])
    else
      var spaces := |line| - |name|;
      if indent == 0 then Err(ZeroIndentUnit(lineNo))
      else if spaces % indent != 0 then Err(BadIndent(lineNo, spaces))
      else Ok(PathEntries(name, Level(spaces, indent), lineNo))
  }

  /** What the flattener holds after some lines: the flat list so far, the
      number of the last line read, and the error that stopped it, if any. */
  datatype FlatState = FlatState(entries: seq<Entry>, line: nat, error: Option<Error>)

  /** How one line is read: its outcome from its text and its number. */
  type LineReader = (string, nat) -> Result<seq<Entry>>

  /** The flattener's line reader for the indentation unit `indent`. */
  function Reader(indent: nat): LineReader
  {
    (raw: string, n: nat) => ParseLine(raw, indent, n)
  }

  /** The outcome of every line, the first one numbered `n + 1`. */
  function Outcomes(lines: seq<string>, read: LineReader, n: nat): seq<Result<seq<Entry>>>
  {
    seq(|lines|, k requires 0 <= k < |lines| => read(lines[k], n + k + 1))
  }

  /** Taking in the outcome of one more line: the counter advances, then the
      entries are appended or the error is recorded. Nothing happens once an
      error has been recorded. */
  function Step(st: FlatState, outcome: Result<seq<Entry>>): FlatState
  {
    if st.error.Some? then st
    else
      match outcome
      case Ok(es) => FlatState(st.entries + es, st.line + 1, None)
      case Err(e) => FlatState(st.entries, st.line + 1, Some(e))
  }

  /** Taking in the outcomes in order, starting from `st`. */
  function Fold(st: FlatState, outcomes: seq<Result<seq<Entry>>>): FlatState
  {
    if |outcomes| == 0 then st
    else Step(Fold(st, outcomes[..|outcomes| - 1]), outcomes[|outcomes| - 1])
  }

  /** Reading all the lines in order, starting from `st`. */
  function Flatten(lines: seq<string>, indent: nat, st: FlatState): FlatState
  {
    Fold(st, Outcomes(lines, Reader(indent), st.line))
  }

  /** The entries of the successful outcomes, in order. */
  function OkEntries(outcomes: seq<Result<seq<Entry>>>): seq<Entry>
  {
    if |outcomes| == 0 then []
    else
      var last := outcomes[|outcomes| - 1];
      OkEntries(outcomes[..|outcomes| - 1]) + (if last.Ok? then last.value else [])
  }

  // ---------------------------------------------------------------------
  // Properties of one line

  /** The directory chain is the list of non-empty segments, left-stripped and
      given a trailing `/`, at consecutive levels from `level`. */
  lemma {:induction false} DirChainIsNonEmptySegments(segments: seq<string>, level: nat, line: nat)
    ensures var ne := NonEmpty(segments);
      DirChain(segments, level, line) ==
        seq(|ne|, i requires 0 <= i < |ne| => DirEntry(LStrip(ne[i]) + "/", level + i, line))
  {
    if |segments| > 0 {
      if segments[0] == [] {
        DirChainIsNonEmptySegments(segments[1..], level, line);
      } else {
        DirChainIsNonEmptySegments(segments[1..], level + 1, line);
        var tail := NonEmpty(segments[1..]);
        var ne := [segments[0]] + tail;
        assert NonEmpty(segments) == ne;
        var r := [DirEntry(LStrip(segments[0]) + "/", level, line)] + DirChain(segments[1..], level + 1, line);
        assert DirChain(segments, level, line) == r;
        assert |r| == |ne|;
        forall i | 0 <= i < |ne|
          ensures r[i] == DirEntry(LStrip(ne[i]) + "/", level + i, line)
        {
          if i > 0 { assert ne[i] == tail[i - 1]; }
        }
      }
    }
  }

  /** Every entry is a directory named with a trailing `/`, one level
      deeper than the one before, from `level` on, on line `line`. */
  predicate ChainShaped(r: seq<Entry>, level: nat, line: nat)
  {
    forall i :: 0 <= i < |r| ==>
      r[i].DirEntry? && r[i].indentLevel == level + i && r[i].line == line && EndsWithSlash(r[i].name)
  }

  /** The directory chain of some segments is chain-shaped. */
  lemma {:induction false} DirChainShape(segments: seq<string>, level: nat, line: nat)
    ensures ChainShaped(DirChain(segments, level, line), level, line)
  {
    if |segments| > 0 {
      if segments[0] == [] {
        DirChainShape(segments[1..], level, line);
      } else {
        DirChainShape(segments[1..], level + 1, line);
        var rest := DirChain(segments[1..], level + 1, line);
        var name := LStrip(segments[0]) + "/";
        assert name[|name| - 1] == '/';
        var r := [DirEntry(name, level, line)] + rest;
        assert DirChain(segments, level, line) == r;
        forall i | 0 <= i < |r|
          ensures r[i].DirEntry? && r[i].indentLevel == level + i && r[i].line == line && EndsWithSlash(r[i].name)
        {
          if i > 0 { assert r[i] == rest[i - 1]; }
        }
      }
    }
  }

  /** The directories of a text are chain-shaped. */
  lemma PathDirsShape(name: string, level: nat, lineNo: nat)
    ensures ChainShaped(PathDirs(name, level, lineNo), level, lineNo)
  {
    var parts := Split(name, '/');
    if |parts| > 1 {
      DirChainShape(parts[..|parts| - 1], level, lineNo);
    }
  }

  /** What a line yields in terms of its measured indentation and its text. */
  lemma ParseLineText(raw: string, indent: nat, lineNo: nat)
    ensures ParseLine(raw, indent, lineNo) ==
      if Content(raw) == [] then Ok([])
      else if indent == 0 then Err(ZeroIndentUnit(lineNo))
      else if IndentOf(raw) % indent != 0 then Err(BadIndent(lineNo, IndentOf(raw)))
      else Ok(PathEntries(Content(raw), Level(IndentOf(raw), indent), lineNo))
  {
  }

  /** A line of whitespace only gives no entries and no error. */
  lemma BlankLine(raw: string, indent: nat, lineNo: nat)
    requires AllSpaces(raw)
    ensures ParseLine(raw, indent, lineNo) == Ok([])
  {
    var t := RemoveChar(raw, '\n');
    RemoveCharSpec(raw, '\n');
    assert AllSpaces(t) by {
      forall i | 0 <= i < |t| ensures IsSpace(t[i]) {
        assert t[i] in t;
      }
    }
    StripSpaces(t);
    StripSpaces(RStrip(t));
  }

  /** The length of the whitespace run that starts the normalized line is the
      indentation the flattener measures. */
  lemma IndentIsLeadingSpaces(raw: string, k: nat)
    requires LeadingSpaces(Normalize(raw), k)
    ensures IndentOf(raw) == k
    ensures |Content(raw)| == 0 <==> k == |Normalize(raw)|
  {
    LStripSpec(Normalize(raw));
  }

  /** A line fails if and only if it is not blank and the unit is zero or
      does not divide its indentation; the error then carries the line number
      and, for a bad indentation, the raw whitespace count. */
  lemma IndentError(raw: string, indent: nat, lineNo: nat, k: nat)
    requires LeadingSpaces(Normalize(raw), k)
    ensures var r := ParseLine(raw, indent, lineNo);
      && (r.Err? <==> k < |Normalize(raw)| && (indent == 0 || k % indent != 0))
      && (r.Err? ==> r.error == if indent == 0 then ZeroIndentUnit(lineNo) else BadIndent(lineNo, k))
  {
    ParseLineText(raw, indent, lineNo);
    IndentIsLeadingSpaces(raw, k);
  }

  /** A file name as the flattener produces it: not empty, not starting with
      whitespace, and holding no `--`. */
  predicate ValidFileName(name: string)
  {
    name != [] && !IsSpace(name[0]) && !HasComment(name)
  }

  /** A commented segment cut at its comment leaves a valid file name or nothing. */
  lemma CutCommentValid(leaf: string)
    ensures var c := BeforeComment(LStrip(leaf)); c == [] || ValidFileName(LStrip(c))
  {
    var l := LStrip(leaf);
    var c := BeforeComment(l);
    BeforeCommentSpec(l);
    LStripSpec(leaf);
    LStripSpec(c);
    if c != [] {
      assert c[0] == l[0];
    }
  }

  /** A segment without comment that does not end in whitespace strips to a
      valid file name, unless it is empty. */
  lemma PlainLeafValid(leaf: string)
    requires !HasComment(leaf) && leaf != [] && !IsSpace(leaf[|leaf| - 1])
    ensures ValidFileName(LStrip(leaf))
  {
    var l := LStrip(leaf);
    LStripSpec(leaf);
    NoCommentInSuffix(leaf, |leaf| - |l|);
  }

  /** What is left of the last segment, once left-stripped, is a valid file
      name unless it is empty, provided the text does not end in whitespace. */
  lemma LeafTextValid(name: string)
    requires name == [] || !IsSpace(name[|name| - 1])
    ensures var l := LeafText(name); l == [] || ValidFileName(LStrip(l))
  {
    var parts := Split(name, '/');
    var leaf := if |parts| > 1 then parts[|parts| - 1] else name;
    SplitLastIsSuffix(name, '/');
    assert leaf == [] || !IsSpace(leaf[|leaf| - 1]) by {
      if leaf != [] { assert leaf[|leaf| - 1] == name[|name| - 1]; }
    }
    if HasComment(leaf) {
      CutCommentValid(leaf);
    } else if leaf != [] {
      PlainLeafValid(leaf);
    }
  }

  /** The entries of a text are its directories, then its file if any. */
  lemma PathEntriesParts(name: string, level: nat, lineNo: nat)
    ensures var dirs := PathDirs(name, level, lineNo); var leaf := LeafText(name);
      PathEntries(name, level, lineNo) ==
        if leaf == [] then dirs else dirs + [FileEntry(LStrip(leaf), level + |dirs|, lineNo)]
  {
  }

  /** The leaf of a text from its `/`-separated parts and its last segment. */
  lemma LeafTextOf(name: string, parts: seq<string>, segment: string)
    requires parts == Split(name, '/')
    requires segment == if |parts| > 1 then parts[|parts| - 1] else name
    ensures LeafText(name) == if HasComment(segment) then BeforeComment(LStrip(segment)) else segment
  {
  }

  /** The names of some entries written one after another; a directory's
      name carries its `/`, so this spells out the path they came from. */
  function Spell(es: seq<Entry>): string
  {
    if |es| == 0 then [] else es[0].name + Spell(es[1..])
  }

  /** Some segments, each followed by the separator. */
  function Terminated(segments: seq<string>, sep: char): string
  {
    if |segments| == 0 then [] else segments[0] + [sep] + Terminated(segments[1..], sep)
  }

  /** A segment that names a directory as it is written: not empty, and not
      starting with whitespace. */
  predicate PlainSegment(segment: string)
  {
    segment != [] && !IsSpace(segment[0])
  }

  /** A text whose entries spell it out again: every segment before the last
      is plain, and the last one (empty after a trailing `/`) starts with no
      whitespace and holds no `--`. */
  predicate PlainPath(name: string)
  {
    var parts := Split(name, '/');
    var last := parts[|parts| - 1];
    && (forall i :: 0 <= i < |parts| - 1 ==> PlainSegment(parts[i]))
    && (last == [] || !IsSpace(last[0]))
    && !HasComment(last)
  }

  lemma {:induction false} JoinTerminated(segments: seq<string>, last: string, sep: char)
    ensures Join([sep], segments + [last]) == Terminated(segments, sep) + last
  {
    if |segments| > 0 {
      var parts := segments + [last];
      assert parts[0] == segments[0] && parts[1..] == segments[1..] + [last];
      JoinTerminated(segments[1..], last, sep);
    } else {
      assert segments + [last] == [last];
    }
  }

  lemma {:induction false} SpellAppend(a: seq<Entry>, b: seq<Entry>)
    ensures Spell(a + b) == Spell(a) + Spell(b)
  {
    if |a| > 0 {
      assert (a + b)[0] == a[0] && (a + b)[1..] == a[1..] + b;
      SpellAppend(a[1..], b);
    } else {
      assert a + b == b;
    }
  }

  lemma LStripPlain(s: string)
    requires s == [] || !IsSpace(s[0])
    ensures LStrip(s) == s
  {
  }

  /** The chain of plain segments spells them out, each with its `/`. */
  lemma {:induction false} SpellChain(segments: seq<string>, level: nat, line: nat)
    requires forall i :: 0 <= i < |segments| ==> PlainSegment(segments[i])
    ensures Spell(DirChain(segments, level, line)) == Terminated(segments, '/')
  {
    if |segments| > 0 {
      var rest := DirChain(segments[1..], level + 1, line);
      var head := DirEntry(LStrip(segments[0]) + "/", level, line);
      LStripPlain(segments[0]);
      assert DirChain(segments, level, line) == [head] + rest;
      assert ([head] + rest)[1..] == rest;
      SpellChain(segments[1..], level + 1, line);
    }
  }

  /** A plain text is its segments before the last, each with its `/`,
      then the last segment, which is all of its file part. */
  lemma PlainLeaf(name: string)
    requires PlainPath(name)
    ensures var parts := Split(name, '/'); var last := parts[|parts| - 1];
      name == Terminated(parts[..|parts| - 1], '/') + last && LeafText(name) == last
  {
    var parts := Split(name, '/');
    var n := |parts|;
    var last := parts[n - 1];
    var segments := parts[..n - 1];
    assert parts == segments + [last];
    SplitJoin(name, '/');
    JoinTerminated(segments, last, '/');
    if n == 1 {
      SplitSingle(name, '/');
    }
  }

  /** The directories of a plain text spell its segments before the last. */
  lemma PlainDirs(name: string, level: nat, lineNo: nat)
    requires PlainPath(name)
    ensures var parts := Split(name, '/'); var dirs := PathDirs(name, level, lineNo);
      Spell(dirs) == Terminated(parts[..|parts| - 1], '/') && forall i :: 0 <= i < |dirs| ==> dirs[i].DirEntry?
  {
    var parts := Split(name, '/');
    if |parts| > 1 {
      SpellChain(parts[..|parts| - 1], level, lineNo);
      PathDirsShape(name, level, lineNo);
    }
  }

  /** The entries of a plain text give it back: their names, written one
      after another, are the text, and the last entry is a file exactly when
      the text does not end in `/`. */
  lemma PathRoundTrip(name: string, level: nat, lineNo: nat)
    requires PlainPath(name)
    ensures Spell(PathEntries(name, level, lineNo)) == name
    ensures var es := PathEntries(name, level, lineNo); var parts := Split(name, '/');
      (es != [] && es[|es| - 1].FileEntry?) <==> parts[|parts| - 1] != []
  {
    var parts := Split(name, '/');
    var last := parts[|parts| - 1];
    var dirs := PathDirs(name, level, lineNo);
    PlainLeaf(name);
    PlainDirs(name, level, lineNo);
    PathEntriesParts(name, level, lineNo);
    if last == [] {
      assert Terminated(parts[..|parts| - 1], '/') + last == Terminated(parts[..|parts| - 1], '/');
    } else {
      var file := FileEntry(LStrip(last), level + |dirs|, lineNo);
      LStripPlain(last);
      SpellAppend(dirs, [file]);
      assert [file][1..] == [];
    }
  }

  /** The shape of a line's entries: directories at consecutive levels from
      the line's level, each named with a trailing `/`, possibly followed by
      one file with a valid name at the next level, all carrying the line's
      number. */
  predicate WellShaped(es: seq<Entry>, level: nat, lineNo: nat)
  {
    && (forall i :: 0 <= i < |es| ==> es[i].indentLevel == level + i && es[i].line == lineNo)
    && (forall i :: 0 <= i < |es| - 1 ==> es[i].DirEntry?)
    && (forall i :: 0 <= i < |es| && es[i].DirEntry? ==> EndsWithSlash(es[i].name))
    && (forall i :: 0 <= i < |es| && es[i].FileEntry? ==> ValidFileName(es[i].name))
  }

  /** A text that does not end in whitespace gives well-shaped entries. */
  lemma PathEntriesShape(name: string, level: nat, lineNo: nat)
    requires name == [] || !IsSpace(name[|name| - 1])
    ensures WellShaped(PathEntries(name, level, lineNo), level, lineNo)
  {
    PathEntriesParts(name, level, lineNo);
    PathDirsShape(name, level, lineNo);
    var dirs := PathDirs(name, level, lineNo);
    var leaf := LeafText(name);
    var es := PathEntries(name, level, lineNo);
    if leaf != [] {
      LeafTextValid(name);
      forall i | 0 <= i < |es|
        ensures es[i].indentLevel == level + i && es[i].line == lineNo
        ensures i < |es| - 1 ==> es[i].DirEntry?
        ensures es[i].DirEntry? ==> EndsWithSlash(es[i].name)
        ensures es[i].FileEntry? ==> ValidFileName(es[i].name)
      {
        if i < |dirs| { assert es[i] == dirs[i]; }
      }
    }
  }

  /** The text of a line does not end in whitespace. */
  lemma ContentEndsInText(raw: string)
    ensures var c := Content(raw); c == [] || !IsSpace(c[|c| - 1])
  {
    var line := Normalize(raw);
    var c := Content(raw);
    RStripSpec(RemoveChar(raw, '\n'));
    LStripSpec(line);
    if c != [] {
      assert c[|c| - 1] == line[|line| - 1];
    }
  }

  /** A line that parses yields well-shaped entries from the level its
      indentation gives. */
  lemma ParseLineShape(raw: string, indent: nat, lineNo: nat, es: seq<Entry>)
    requires ParseLine(raw, indent, lineNo) == Ok(es)
    ensures indent == 0 ==> es == []
    ensures indent > 0 ==> WellShaped(es, Level(IndentOf(raw), indent), lineNo)
  {
    ParseLineText(raw, indent, lineNo);
    if Content(raw) != [] {
      ContentEndsInText(raw);
      PathEntriesShape(Content(raw), Level(IndentOf(raw), indent), lineNo);
    }
  }

  /** A text that ends in `/` yields directories only. */
  lemma PathTrailingSlash(name: string, level: nat, lineNo: nat)
    requires EndsWithSlash(name)
    ensures PathEntries(name, level, lineNo) == PathDirs(name, level, lineNo)
  {
    var parts := Split(name, '/');
    assert |parts| > 1 by {
      SplitPiecesNoSep(name, '/');
      SplitJoin(name, '/');
      assert name[|name| - 1] == '/';
    }
    SplitTrailing(name, '/');
    assert !HasComment(parts[|parts| - 1]);
    assert LeafText(name) == [];
  }

  /** A line whose text ends in `/` yields directories only. */
  lemma TrailingSlash(raw: string, indent: nat, lineNo: nat)
    requires indent > 0
    requires EndsWithSlash(Content(raw)) && IndentOf(raw) % indent == 0
    ensures var r := ParseLine(raw, indent, lineNo);
      r.Ok? && forall e :: e in r.value ==> e.DirEntry?
  {
    ParseLineText(raw, indent, lineNo);
    PathTrailingSlash(Content(raw), Level(IndentOf(raw), indent), lineNo);
    PathDirsShape(Content(raw), Level(IndentOf(raw), indent), lineNo);
  }

  /** A text that holds no `/` and starts with `--` yields nothing. */
  lemma PathComment(name: string, level: nat, lineNo: nat)
    requires '/' !in name && |name| >= 2 && name[0] == '-' && name[1] == '-'
    ensures PathEntries(name, level, lineNo) == []
  {
    SplitNoSep(name, '/');
    assert HasComment(name);
    assert LStrip(name) == name;
    assert BeforeComment(name) == [];
  }

  /** A line that holds no `/` and starts with `--` is a comment: no entries. */
  lemma CommentLine(raw: string, indent: nat, lineNo: nat)
    requires indent > 0
    requires var c := Content(raw); '/' !in c && |c| >= 2 && c[0] == '-' && c[1] == '-'
    requires IndentOf(raw) % indent == 0
    ensures ParseLine(raw, indent, lineNo) == Ok([])
  {
    PathComment(Content(raw), Level(IndentOf(raw), indent), lineNo);
    ParseLineText(raw, indent, lineNo);
  }

  // ---------------------------------------------------------------------
  // Properties of the whole flattening

  /** Once an error is recorded, further outcomes change nothing. */
  lemma {:induction false} ErrorIsFinal(st: FlatState, outcomes: seq<Result<seq<Entry>>>, i: nat)
    requires i <= |outcomes|
    requires Fold(st, outcomes[..i]).error.Some?
    ensures Fold(st, outcomes) == Fold(st, outcomes[..i])
  {
    if i < |outcomes| {
      assert outcomes[..|outcomes| - 1][..i] == outcomes[..i];
      ErrorIsFinal(st, outcomes[..|outcomes| - 1], i);
    } else {
      assert outcomes[..i] == outcomes;
    }
  }

  /** Starting without an error, the fold ends without one exactly when every
      outcome is a success; the counter has then advanced once per outcome and
      the entries of all of them are appended. */
  lemma {:induction false} FoldOk(outcomes: seq<Result<seq<Entry>>>, es: seq<Entry>, n: nat)
    ensures var f := Fold(FlatState(es, n, None), outcomes);
      && (f.error.None? <==> forall k :: 0 <= k < |outcomes| ==> outcomes[k].Ok?)
      && (f.error.None? ==> f.line == n + |outcomes| && f.entries == es + OkEntries(outcomes))
  {
    if |outcomes| > 0 {
      var init := outcomes[..|outcomes| - 1];
      var last := outcomes[|outcomes| - 1];
      FoldOk(init, es, n);
      assert forall k :: 0 <= k < |init| ==> init[k] == outcomes[k];
      if last.Ok? {
        assert es + OkEntries(init) + last.value == es + (OkEntries(init) + last.value);
      }
    }
  }

  /** Starting without an error, a fold that ends with one holds the first
      failing outcome's error, with the counter at that outcome and the
      entries of the outcomes before it. */
  lemma {:induction false} FoldFirstError(outcomes: seq<Result<seq<Entry>>>, es: seq<Entry>, n: nat)
    ensures var f := Fold(FlatState(es, n, None), outcomes);
      f.error.Some? ==>
        exists k :: 0 <= k < |outcomes| && f.line == n + k + 1
          && outcomes[k] == Err(f.error.value)
          && (forall j :: 0 <= j < k ==> outcomes[j].Ok?)
          && f.entries == es + OkEntries(outcomes[..k])
  {
    if |outcomes| > 0 {
      var init := outcomes[..|outcomes| - 1];
      var last := outcomes[|outcomes| - 1];
      var g := Fold(FlatState(es, n, None), init);
      FoldFirstError(init, es, n);
      if g.error.Some? {
        var k :| 0 <= k < |init| && g.line == n + k + 1
          && init[k] == Err(g.error.value)
          && (forall j :: 0 <= j < k ==> init[j].Ok?)
          && g.entries == es + OkEntries(init[..k]);
        assert init[..k] == outcomes[..k];
        assert forall j :: 0 <= j < k ==> init[j] == outcomes[j];
      } else if last.Err? {
        FoldOk(init, es, n);
        assert outcomes[..|init|] == init;
        assert forall j :: 0 <= j < |init| ==> init[j] == outcomes[j];
      }
    }
  }

  /** Folding one more outcome is one more step. */
  lemma FoldSnoc(st: FlatState, outcomes: seq<Result<seq<Entry>>>, o: Result<seq<Entry>>)
    ensures Fold(st, outcomes + [o]) == Step(Fold(st, outcomes), o)
  {
    assert (outcomes + [o])[..|outcomes|] == outcomes;
  }

  /** The outcomes of a longer input are those of its prefix, then one more. */
  lemma OutcomesSnoc(lines: seq<string>, raw: string, read: LineReader, n: nat)
    ensures Outcomes(lines + [raw], read, n) == Outcomes(lines, read, n) + [read(raw, n + |lines| + 1)]
  {
    var l := lines + [raw];
    assert forall k :: 0 <= k < |lines| ==> l[k] == lines[k];
  }

  /** A whitespace-only line adds no entries but still advances the line
      counter. */
  lemma BlankLineAdvances(lines: seq<string>, raw: string, indent: nat, st: FlatState)
    requires AllSpaces(raw)
    ensures var f := Flatten(lines, indent, st);
      Flatten(lines + [raw], indent, st) == if f.error.Some? then f else f.(line := f.line + 1)
  {
    var read := Reader(indent);
    OutcomesSnoc(lines, raw, read, st.line);
    BlankLine(raw, indent, st.line + |lines| + 1);
    var outs := Outcomes(lines, read, st.line);
    assert read(raw, st.line + |lines| + 1) == Ok([]);
    FoldSnoc(st, outs, Ok([]));
    var f := Fold(st, outs);
    assert f.entries + [] == f.entries;
  }

  /** Reading lines with `read` ends without an error exactly when every line
      reads; the counter has then advanced by one per line, blank ones too,
      and the entries of every line are appended in order. */
  lemma FlattenOk(lines: seq<string>, read: LineReader, es: seq<Entry>, n: nat)
    ensures var f := Fold(FlatState(es, n, None), Outcomes(lines, read, n));
      && (f.error.None? <==> forall k :: 0 <= k < |lines| ==> read(lines[k], n + k + 1).Ok?)
      && (f.error.None? ==> f.line == n + |lines| && f.entries == es + OkEntries(Outcomes(lines, read, n)))
  {
    var outs := Outcomes(lines, read, n);
    assert forall k :: 0 <= k < |lines| ==> outs[k] == read(lines[k], n + k + 1);
    FoldOk(outs, es, n);
  }

  /** Line `n` is the first of `lines` that `read` fails on, with error `e`. */
  predicate FailsWith(lines: seq<string>, read: LineReader, n: nat, e: Error)
  {
    && 1 <= n <= |lines|
    && read(lines[n - 1], n) == Err(e)
    && forall j :: 0 <= j < n - 1 ==> read(lines[j], j + 1).Ok?
  }

  /** Reading lines numbered from 1 with `read` that fails holds the error
      of the first failing line, and the counter stands at that line. */
  lemma FlattenFirstError(lines: seq<string>, read: LineReader, es: seq<Entry>)
    ensures var f := Fold(FlatState(es, 0, None), Outcomes(lines, read, 0));
      f.error.Some? ==> FailsWith(lines, read, f.line, f.error.value)
  {
    var outs := Outcomes(lines, read, 0);
    assert forall k :: 0 <= k < |lines| ==> outs[k] == read(lines[k], k + 1);
    FoldFirstError(outs, es, 0);
  }

  /** Every directory entry the flattener produces is named with a trailing
      `/`, as the tree builder's duplicate check and the script rely on. */
  lemma FlattenSlashNamed(lines: seq<string>, indent: nat, st: FlatState)
    requires SlashNamed(st.entries)
    ensures SlashNamed(Flatten(lines, indent, st).entries)
  {
    var outs := Outcomes(lines, Reader(indent), st.line);
    forall k | 0 <= k < |outs| && outs[k].Ok?
      ensures SlashNamed(outs[k].value)
    {
      assert outs[k] == ParseLine(lines[k], indent, st.line + k + 1);
      ParseLineShape(lines[k], indent, st.line + k + 1, outs[k].value);
    }
    FoldSlashNamed(st, outs);
  }

  lemma {:induction false} FoldSlashNamed(st: FlatState, outcomes: seq<Result<seq<Entry>>>)
    requires SlashNamed(st.entries)
    requires forall k :: 0 <= k < |outcomes| && outcomes[k].Ok? ==> SlashNamed(outcomes[k].value)
    ensures SlashNamed(Fold(st, outcomes).entries)
  {
    if |outcomes| > 0 {
      var init := outcomes[..|outcomes| - 1];
      var last := outcomes[|outcomes| - 1];
      assert forall k :: 0 <= k < |init| ==> init[k] == outcomes[k];
      FoldSlashNamed(st, init);
      var g := Fold(st, init);
      if g.error.None? && last.Ok? {
        SlashNamedAppend(g.entries, last.value);
      }
    }
  }

  lemma SlashNamedAppend(a: seq<Entry>, b: seq<Entry>)
    requires SlashNamed(a) && SlashNamed(b)
    ensures SlashNamed(a + b)
  {
    var c := a + b;
    forall k | 0 <= k < |c| && c[k].DirEntry?
      ensures EndsWithSlash(c[k].name)
    {
      if k >= |a| { assert c[k] == b[k - |a|]; }
    }
  }

  /** Every entry of `es` comes from line `n`. */
  predicate OnLine(es: seq<Entry>, n: nat)
  {
    forall i :: 0 <= i < |es| ==> es[i].line == n
  }

  /** No entry of `es` comes from a line after `n`. */
  predicate LinesUpTo(es: seq<Entry>, n: nat)
  {
    forall i :: 0 <= i < |es| ==> es[i].line <= n
  }

  /** The flat list comes in line order: the entries of each line are
      appended after those of the lines before it, all tagged with its number. */
  lemma FlattenSorted(lines: seq<string>, indent: nat, st: FlatState)
    requires st.error.None? && LinesSorted(st.entries) && LinesUpTo(st.entries, st.line)
    ensures LinesSorted(Flatten(lines, indent, st).entries)
  {
    var outs := Outcomes(lines, Reader(indent), st.line);
    forall k | 0 <= k < |outs| && outs[k].Ok?
      ensures OnLine(outs[k].value, st.line + k + 1)
    {
      assert outs[k] == ParseLine(lines[k], indent, st.line + k + 1);
      ParseLineShape(lines[k], indent, st.line + k + 1, outs[k].value);
    }
    FoldSorted(st, outs);
  }

  lemma {:induction false} FoldSorted(st: FlatState, outcomes: seq<Result<seq<Entry>>>)
    requires st.error.None? && LinesSorted(st.entries) && LinesUpTo(st.entries, st.line)
    requires forall k :: 0 <= k < |outcomes| && outcomes[k].Ok? ==> OnLine(outcomes[k].value, st.line + k + 1)
    ensures var f := Fold(st, outcomes);
      && LinesSorted(f.entries) && LinesUpTo(f.entries, f.line)
      && (f.error.None? ==> f.line == st.line + |outcomes|)
  {
    if |outcomes| > 0 {
      var init := outcomes[..|outcomes| - 1];
      var last := outcomes[|outcomes| - 1];
      assert forall k :: 0 <= k < |init| ==> init[k] == outcomes[k];
      FoldSorted(st, init);
      var g := Fold(st, init);
      if g.error.None? && last.Ok? {
        var a, b := g.entries, last.value;
        var c := a + b;
        assert OnLine(b, g.line + 1);
        assert forall i :: 0 <= i < |c| ==> c[i] == if i < |a| then a[i] else b[i - |a|];
      }
    }
  }

  /** The flattener's reader parses the line. */
  lemma ReaderParses(raw: string, indent: nat, n: nat)
    ensures Reader(indent)(raw, n) == ParseLine(raw, indent, n)
  {
  }

  /** Reading the lines one at a time from `st`, the first line numbered one
      past the counter, until the end or an error. */
  function Reading(lines: seq<string>, indent: nat, st: FlatState): FlatState
  {
    if |lines| == 0 || st.error.Some? then st
    else Reading(lines[1..], indent, Step(st, ParseLine(lines[0], indent, st.line + 1)))
  }

  /** One more line read from `cur`, which has no error. */
  lemma ReadingStep(lines: seq<string>, i: nat, indent: nat, cur: FlatState, after: FlatState)
    requires i < |lines| && cur.error.None?
    requires after == Step(cur, ParseLine(lines[i], indent, cur.line + 1))
    ensures Reading(lines[i..], indent, cur) == Reading(lines[i + 1..], indent, after)
  {
    var rest := lines[i..];
    assert rest[0] == lines[i] && rest[1..] == lines[i + 1..];
    ReadingCons(rest, indent, cur);
  }

  /** Reading the first line from `cur`, which has no error. */
  lemma ReadingCons(lines: seq<string>, indent: nat, cur: FlatState)
    requires |lines| > 0 && cur.error.None?
    ensures Reading(lines, indent, cur) == Reading(lines[1..], indent, Step(cur, ParseLine(lines[0], indent, cur.line + 1)))
  {
  }

  /** Reading stops at the end of the lines and at an error. */
  lemma ReadingDone(lines: seq<string>, i: nat, indent: nat, st: FlatState)
    requires i <= |lines| && (i == |lines| || st.error.Some?)
    ensures Reading(lines[i..], indent, st) == st
  {
  }

  /** Reading the lines one at a time is flattening them. */
  lemma {:induction false} ReadingIsFlatten(lines: seq<string>, indent: nat, st: FlatState)
    ensures Reading(lines, indent, st) == Flatten(lines, indent, st)
  {
    if st.error.Some? {
      var outs := Outcomes(lines, Reader(indent), st.line);
      ErrorIsFinal(st, outs, 0);
      assert outs[..0] == [];
      assert Flatten(lines, indent, st) == st;
      assert Reading(lines, indent, st) == st;
    } else if |lines| > 0 {
      var outcome := ParseLine(lines[0], indent, st.line + 1);
      var next := Step(st, outcome);
      assert next.line == st.line + 1;
      ReadingStep(lines, 0, indent, st, next);
      assert lines[0..] == lines;
      assert Reading(lines, indent, st) == Reading(lines[1..], indent, next);
      ReadingIsFlatten(lines[1..], indent, next);
      ReaderParses(lines[0], indent, st.line + 1);
      OutcomesCons(lines, Reader(indent), st);
      assert Flatten(lines, indent, st) == Fold(next, Outcomes(lines[1..], Reader(indent), st.line + 1));
    } else {
      assert Flatten(lines, indent, st) == st;
    }
  }

  /** Folding the outcomes of the lines from a state with no error: the
      first line is the first step, and the rest are numbered after it. */
  lemma OutcomesCons(lines: seq<string>, read: LineReader, st: FlatState)
    requires |lines| > 0 && st.error.None?
    ensures Fold(st, Outcomes(lines, read, st.line))
      == Fold(Step(st, read(lines[0], st.line + 1)), Outcomes(lines[1..], read, st.line + 1))
  {
    var outs := Outcomes(lines, read, st.line);
    FoldCons(st, outs);
    OutcomesTail(lines, read, st.line);
    assert outs[0] == read(lines[0], st.line + 1);
    assert outs[1..] == Outcomes(lines[1..], read, st.line + 1);
  }

  /** The outcomes of the lines after the first are numbered one further. */
  lemma OutcomesTail(lines: seq<string>, read: LineReader, n: nat)
    requires |lines| > 0
    ensures Outcomes(lines, read, n)[0] == read(lines[0], n + 1)
    ensures Outcomes(lines, read, n)[1..] == Outcomes(lines[1..], read, n + 1)
  {
    var outs := Outcomes(lines, read, n);
    var rest := Outcomes(lines[1..], read, n + 1);
    forall k | 0 <= k < |rest|
      ensures outs[1..][k] == rest[k]
    {
      assert outs[1..][k] == outs[k + 1];
    }
  }

  /** Folding from the front: the first outcome is the first step. */
  lemma {:induction false} FoldCons(st: FlatState, outcomes: seq<Result<seq<Entry>>>)
    requires |outcomes| > 0
    ensures Fold(st, outcomes) == Fold(Step(st, outcomes[0]), outcomes[1..])
    decreases |outcomes|
  {
    if |outcomes| > 1 {
      var init := outcomes[..|outcomes| - 1];
      FoldCons(st, init);
      assert outcomes[1..][..|outcomes| - 2] == init[1..];
    } else {
      assert outcomes[..0] == [] && outcomes[1..] == [];
    }
  }
}

/** The string builtins of the host language that the layout tool relies on:
    whitespace stripping, splitting on a separator, joining, and the `--`
    comment marker. Only the behaviour the tool uses is modelled. The
    lemmas below characterize what the functions compute. */
module Strings {

  /** The characters the host language's `str.isspace` accepts. */
  predicate IsSpace(c: char)
  {
    c == ' ' || ('\t' <= c <= '\r') || ('\U{001C}' <= c <= '\U{001F}')
    || c == '\U{0085}' || c == '\U{00A0}' || c == '\U{1680}'
    || ('\U{2000}' <= c <= '\U{200A}') || c == '\U{2028}' || c == '\U{2029}'
    || c == '\U{202F}' || c == '\U{205F}' || c == '\U{3000}'
  }

  predicate AllSpaces(s: string)
  {
    forall i :: 0 <= i < |s| ==> IsSpace(s[i])
  }

  /** The first index from `i` on that holds no whitespace, or `|s|`. */
  function NonSpaceFrom(s: string, i: nat): (r: nat)
    requires i <= |s|
    ensures i <= r <= |s|
    decreases |s| - i
  {
    if i == |s| || !IsSpace(s[i]) then i else NonSpaceFrom(s, i + 1)
  }

  /** The end of `s[..j]` once its trailing whitespace is dropped. */
  function NonSpaceBefore(s: string, j: nat): (r: nat)
    requires j <= |s|
    ensures r <= j
  {
    if j == 0 || !IsSpace(s[j - 1]) then j else NonSpaceBefore(s, j - 1)
  }

  /** `s.lstrip()`: drops the leading whitespace. */
  function LStrip(s: string): string
  {
    s[NonSpaceFrom(s, 0)..]
  }

  /** `s.rstrip()`: drops the trailing whitespace. */
  function RStrip(s: string): string
  {
    s[..NonSpaceBefore(s, |s|)]
  }

  /** `s.replace(c, "")` for a one-character `c`. */
  function RemoveChar(s: string, c: char): string
  {
    if |s| == 0 then []
    else if s[0] == c then RemoveChar(s[1..], c)
    else [s[0]] + RemoveChar(s[1..], c)
  }

  /** `sep.join(parts)`. */
  function Join(sep: string, parts: seq<string>): string
  {
    if |parts| == 0 then []
    else if |parts| == 1 then parts[0]
    else parts[0] + sep + Join(sep, parts[1..])
  }

  /** `s.split(sep)` for a one-character separator: never an empty list. */
  function Split(s: string, sep: char): (r: seq<string>)
    ensures |r| >= 1
  {
    if |s| == 0 then [[]]
    else
      var rest := Split(s[1..], sep);
      if s[0] == sep then [[]] + rest
      else [[s[0]] + rest[0]] + rest[1..]
  }

  /** `"--" in s`. */
  predicate HasComment(s: string)
  {
    exists i :: 0 <= i < |s| - 1 && s[i] == '-' && s[i + 1] == '-'
  }

  /** The first index from `i` on where a `--` starts, or `|s|`. */
  function CommentFrom(s: string, i: nat): (r: nat)
    requires i <= |s|
    ensures i <= r <= |s|
    decreases |s| - i
  {
    if i + 1 >= |s| then |s|
    else if s[i] == '-' && s[i + 1] == '-' then i
    else CommentFrom(s, i + 1)
  }

  /** `s.split("--")[0]`: everything before the first `--`. */
  function BeforeComment(s: string): string
  {
    s[..CommentFrom(s, 0)]
  }

  /** `s.endswith("/")`. */
  predicate EndsWithSlash(s: string)
  {
    |s| > 0 && s[|s| - 1] == '/'
  }

  /** `s[:-1]`: drops the last character, and is empty for the empty string. */
  function DropLast(s: string): (r: string)
    ensures |s| > 0 ==> r + [s[|s| - 1]] == s
    ensures |s| == 0 ==> r == []
  {
    if |s| == 0 then [] else s[..|s| - 1]
  }

  // ---------------------------------------------------------------------
  // What the builtins compute

  /** `NonSpaceFrom` skips exactly a run of whitespace. */
  lemma {:induction false} NonSpaceFromSpec(s: string, i: nat)
    requires i <= |s|
    ensures forall k :: i <= k < NonSpaceFrom(s, i) ==> IsSpace(s[k])
    ensures NonSpaceFrom(s, i) == |s| || !IsSpace(s[NonSpaceFrom(s, i)])
    decreases |s| - i
  {
    if i < |s| && IsSpace(s[i]) {
      NonSpaceFromSpec(s, i + 1);
    }
  }

  /** `NonSpaceBefore` skips exactly a run of whitespace, backwards. */
  lemma {:induction false} NonSpaceBeforeSpec(s: string, j: nat)
    requires j <= |s|
    ensures forall k :: NonSpaceBefore(s, j) <= k < j ==> IsSpace(s[k])
    ensures NonSpaceBefore(s, j) == 0 || !IsSpace(s[NonSpaceBefore(s, j) - 1])
  {
    if j > 0 && IsSpace(s[j - 1]) {
      NonSpaceBeforeSpec(s, j - 1);
    }
  }

  /** `LStrip` removes exactly the leading run of whitespace. */
  lemma LStripSpec(s: string)
    ensures |LStrip(s)| <= |s| && LStrip(s) == s[|s| - |LStrip(s)|..]
    ensures forall i :: 0 <= i < |s| - |LStrip(s)| ==> IsSpace(s[i])
    ensures LStrip(s) == [] || !IsSpace(LStrip(s)[0])
  {
    NonSpaceFromSpec(s, 0);
  }

  /** `RStrip` removes exactly the trailing run of whitespace. */
  lemma RStripSpec(s: string)
    ensures |RStrip(s)| <= |s| && RStrip(s) == s[..|RStrip(s)|]
    ensures forall i :: |RStrip(s)| <= i < |s| ==> IsSpace(s[i])
    ensures RStrip(s) == [] || !IsSpace(RStrip(s)[|RStrip(s)| - 1])
  {
    NonSpaceBeforeSpec(s, |s|);
  }

  /** `RemoveChar` keeps the other characters, in order and as often as they
      occur, and drops every `c`: it works piece by piece on any split of
      `s`, keeps a single character unless it is `c`, and leaves every other
      character's count unchanged. */
  lemma RemoveCharSpec(s: string, c: char)
    ensures c !in RemoveChar(s, c)
    ensures forall x :: x in RemoveChar(s, c) ==> x in s
    ensures c !in s ==> RemoveChar(s, c) == s
    ensures forall k :: 0 <= k <= |s| ==> RemoveChar(s, c) == RemoveChar(s[..k], c) + RemoveChar(s[k..], c)
    ensures forall x :: RemoveChar([x], c) == if x == c then [] else [x]
    ensures multiset(RemoveChar(s, c)) == multiset(s)[c := 0]
  {
    RemoveCharKeeps(s, c);
    RemoveCharCounts(s, c);
    forall k | 0 <= k <= |s|
      ensures RemoveChar(s, c) == RemoveChar(s[..k], c) + RemoveChar(s[k..], c)
    {
      RemoveCharConcat(s[..k], s[k..], c);
      assert s[..k] + s[k..] == s;
    }
    forall x ensures RemoveChar([x], c) == if x == c then [] else [x] {
      assert [x][1..] == [];
    }
  }

  lemma {:induction false} RemoveCharKeeps(s: string, c: char)
    ensures c !in RemoveChar(s, c)
    ensures forall x :: x in RemoveChar(s, c) ==> x in s
    ensures c !in s ==> RemoveChar(s, c) == s
  {
    if |s| > 0 {
      RemoveCharKeeps(s[1..], c);
      assert forall x :: x in s[1..] ==> x in s;
      if c !in s {
        assert c !in s[1..];
        assert [s[0]] + s[1..] == s;
      }
    }
  }

  lemma {:induction false} RemoveCharCounts(s: string, c: char)
    ensures multiset(RemoveChar(s, c)) == multiset(s)[c := 0]
  {
    if |s| > 0 {
      RemoveCharCounts(s[1..], c);
      assert [s[0]] + s[1..] == s;
      assert multiset(s) == multiset([s[0]]) + multiset(s[1..]);
    }
  }

  /** Removing a character from a concatenation removes it from each part. */
  lemma {:induction false} RemoveCharConcat(a: string, b: string, c: char)
    ensures RemoveChar(a + b, c) == RemoveChar(a, c) + RemoveChar(b, c)
  {
    if |a| > 0 {
      assert (a + b)[0] == a[0] && (a + b)[1..] == a[1..] + b;
      RemoveCharConcat(a[1..], b, c);
    } else {
      assert a + b == b;
    }
  }

  /** `CommentFrom` finds the first `--` from `i` on. */
  lemma {:induction false} CommentFromSpec(s: string, i: nat)
    requires i <= |s|
    ensures forall k :: i <= k < CommentFrom(s, i) && k + 1 < |s| ==> !(s[k] == '-' && s[k + 1] == '-')
    ensures var r := CommentFrom(s, i); r == |s| || (r + 1 < |s| && s[r] == '-' && s[r + 1] == '-')
    decreases |s| - i
  {
    if i + 1 < |s| && !(s[i] == '-' && s[i + 1] == '-') {
      CommentFromSpec(s, i + 1);
    }
  }

  /** `BeforeComment` stops at the first `--`: what it returns holds none, no
      `--` of `s` starts inside it, and it is either all of `s` or followed by
      `--` in `s`. */
  lemma BeforeCommentSpec(s: string)
    ensures BeforeComment(s) <= s
    ensures !HasComment(BeforeComment(s))
    ensures forall k :: 0 <= k < |BeforeComment(s)| && k + 1 < |s| ==> !(s[k] == '-' && s[k + 1] == '-')
    ensures var r := BeforeComment(s); r == s || (|r| + 2 <= |s| && s[|r|..|r| + 2] == "--")
  {
    CommentFromSpec(s, 0);
  }

  /** Joining the pieces back with the separator gives the string. */
  lemma {:induction false} SplitJoin(s: string, sep: char)
    ensures Join([sep], Split(s, sep)) == s
  {
    if |s| > 0 {
      var rest := Split(s[1..], sep);
      SplitJoin(s[1..], sep);
      assert Join([sep], rest) == s[1..];
      if s[0] == sep {
        var r := [[]] + rest;
        assert Split(s, sep) == r;
        assert r[1..] == rest;
        assert Join([sep], r) == [] + [sep] + Join([sep], rest);
        assert [sep] + s[1..] == s;
      } else {
        var r := [[s[0]] + rest[0]] + rest[1..];
        assert Split(s, sep) == r;
        if |rest| == 1 {
          assert Join([sep], r) == [s[0]] + rest[0];
          assert [s[0]] + s[1..] == s;
        } else {
          var tail := Join([sep], rest[1..]);
          assert r[1..] == rest[1..];
          assert Join([sep], rest) == rest[0] + [sep] + tail;
          assert Join([sep], r) == [s[0]] + rest[0] + [sep] + tail;
          assert [s[0]] + s[1..] == s;
        }
      }
    }
  }

  /** A piece without the separator, then the separator, is split off whole. */
  lemma {:induction false} SplitAtSep(a: string, b: string, sep: char)
    requires sep !in a
    ensures Split(a + [sep] + b, sep) == [a] + Split(b, sep)
  {
    var s := a + [sep] + b;
    if |a| == 0 {
      assert s[1..] == b;
    } else {
      assert s[1..] == a[1..] + [sep] + b;
      SplitAtSep(a[1..], b, sep);
      assert [a[0]] + a[1..] == a;
    }
  }

  /** Splitting a join of pieces without the separator gives the pieces back. */
  lemma {:induction false} JoinSplit(parts: seq<string>, sep: char)
    requires |parts| >= 1
    requires forall i :: 0 <= i < |parts| ==> sep !in parts[i]
    ensures Split(Join([sep], parts), sep) == parts
  {
    if |parts| == 1 {
      SplitNoSep(parts[0], sep);
    } else {
      var rest := parts[1..];
      assert forall i :: 0 <= i < |rest| ==> rest[i] == parts[i + 1];
      JoinSplit(rest, sep);
      SplitAtSep(parts[0], Join([sep], rest), sep);
      assert [parts[0]] + rest == parts;
    }
  }

  /** A character in neither the separator nor the pieces is not in their join. */
  lemma {:induction false} JoinAvoids(sep: string, parts: seq<string>, c: char)
    requires c !in sep
    requires forall i :: 0 <= i < |parts| ==> c !in parts[i]
    ensures c !in Join(sep, parts)
  {
    if |parts| > 1 {
      var rest := parts[1..];
      assert forall i :: 0 <= i < |rest| ==> rest[i] == parts[i + 1];
      JoinAvoids(sep, rest, c);
    }
  }

  /** No piece holds the separator. */
  lemma {:induction false} SplitPiecesNoSep(s: string, sep: char)
    ensures forall i :: 0 <= i < |Split(s, sep)| ==> sep !in Split(s, sep)[i]
  {
    if |s| > 0 {
      var rest := Split(s[1..], sep);
      SplitPiecesNoSep(s[1..], sep);
      assert forall i :: 0 <= i < |rest| ==> sep !in rest[i];
      var r := Split(s, sep);
      if s[0] == sep {
        assert r == [[]] + rest;
        assert forall i :: 1 <= i < |r| ==> r[i] == rest[i - 1];
      } else {
        assert r == [[s[0]] + rest[0]] + rest[1..];
        assert sep !in rest[0];
        assert sep !in [s[0]] + rest[0];
        assert forall i :: 1 <= i < |r| ==> r[i] == rest[i];
      }
    }
  }

  /** A string that splits into one piece is that piece. */
  lemma {:induction false} SplitSingle(s: string, sep: char)
    requires |Split(s, sep)| == 1
    ensures Split(s, sep)[0] == s
  {
    if |s| > 0 {
      var rest := Split(s[1..], sep);
      assert s[0] != sep;
      SplitSingle(s[1..], sep);
      assert [s[0]] + s[1..] == s;
    }
  }

  /** The last piece is what follows the last separator: a suffix of the string. */
  lemma {:induction false} SplitLastIsSuffix(s: string, sep: char)
    ensures var r := Split(s, sep); var last := r[|r| - 1];
      |last| <= |s| && s[|s| - |last|..] == last
  {
    if |s| > 0 {
      var t := s[1..];
      var rest := Split(t, sep);
      var lastRest := rest[|rest| - 1];
      var r := Split(s, sep);
      if s[0] == sep || |rest| > 1 {
        assert r[|r| - 1] == lastRest;
        SplitLastIsSuffix(t, sep);
        assert t[|t| - |lastRest|..] == s[|s| - |lastRest|..];
      } else {
        SplitSingle(t, sep);
        assert r == [[s[0]] + t];
        assert [s[0]] + t == s;
      }
    }
  }

  /** A string that ends with the separator splits into a last piece that is empty. */
  lemma {:induction false} SplitTrailing(s: string, sep: char)
    requires |s| > 0 && s[|s| - 1] == sep
    ensures var r := Split(s, sep); r[|r| - 1] == []
  {
    if |s| == 1 {
      assert s[1..] == [];
    } else {
      SplitTrailing(s[1..], sep);
    }
  }

  /** A string without the separator is its own single piece. */
  lemma {:induction false} SplitNoSep(s: string, sep: char)
    requires sep !in s
    ensures Split(s, sep) == [s]
  {
    if |s| > 0 {
      assert sep !in s[1..] by {
        forall i | 0 <= i < |s[1..]| ensures s[1..][i] != sep { assert s[1..][i] == s[i + 1]; }
      }
      SplitNoSep(s[1..], sep);
      assert [s[0]] + s[1..] == s;
    }
  }

  /** A part of a string that holds no `--` holds none either. */
  lemma NoCommentInSuffix(s: string, k: nat)
    requires k <= |s| && !HasComment(s)
    ensures !HasComment(s[k..])
  {
  }

  /** A whitespace-only string strips to nothing from either side. */
  lemma StripSpaces(s: string)
    requires AllSpaces(s)
    ensures LStrip(s) == [] && RStrip(s) == []
  {
    LStripSpec(s);
    RStripSpec(s);
  }
}

/** String primitives the two handlers rely on: Python's `in` on strings, an
    ASCII `str.lower()`, `str.splitlines()` restricted to '\n', and `str.join`. */
module Text {
  import opened Wrappers
  import opened SeqFacts

  /** `pat` occurs in `s` starting at index `k`. */
  predicate IsAt(s: string, pat: string, k: nat) {
    k + |pat| <= |s| && s[k..k + |pat|] == pat
  }

  /** The least index at or after `from` where `pat` occurs, if any. */
  function Find(s: string, pat: string, from: nat): (r: Option<nat>)
    ensures r.Some? ==> from <= r.value && IsAt(s, pat, r.value)
    ensures r.Some? ==> forall k :: from <= k < r.value ==> !IsAt(s, pat, k)
    ensures r.None? ==> forall k: nat :: from <= k ==> !IsAt(s, pat, k)
    decreases |s| - from
  {
    if from + |pat| > |s| then None
    else if IsAt(s, pat, from) then Some(from)
    else Find(s, pat, from + 1)
  }

  /** Python's `pat in s`: `pat` is a substring of `s`. */
  function Contains(s: string, pat: string): (r: bool)
    ensures r <==> exists k: nat :: IsAt(s, pat, k)
  {
    Find(s, pat, 0).Some?
  }

  /** The ASCII lower-case of one character; every other character is kept. */
  function LowerChar(c: char): char {
    if 'A' <= c <= 'Z' then (c as int - 'A' as int + 'a' as int) as char else c
  }

  /** `s.lower()` restricted to ASCII: the result has the same length, no
      upper-case ASCII letter, and agrees with `s` on every other character. */
  function ToLower(s: string): (r: string)
    ensures |r| == |s|
    ensures forall i :: 0 <= i < |r| ==> !('A' <= r[i] <= 'Z')
    ensures forall i :: 0 <= i < |s| && !('A' <= s[i] <= 'Z') ==> r[i] == s[i]
    ensures forall i :: 0 <= i < |s| && 'A' <= s[i] <= 'Z' ==> r[i] as int == s[i] as int + 32
  {
    if s == [] then [] else [LowerChar(s[0])] + ToLower(s[1..])
  }

  /** Lower-casing twice is lower-casing once. */
  lemma ToLowerIdempotent(s: string)
    ensures ToLower(ToLower(s)) == ToLower(s)
  {
    var once := ToLower(s);
    var twice := ToLower(once);
    assert forall i :: 0 <= i < |once| ==> twice[i] == once[i];
  }

  /** `s.split(sep)`: the pieces between separators, always at least one. */
  function Split(s: string, sep: char): (r: seq<string>)
    ensures |r| >= 1
    ensures forall i :: 0 <= i < |r| ==> sep !in r[i]
  {
    if s == [] then [[]]
    else
      var rest := Split(s[1..], sep);
      if s[0] == sep then [[]] + rest
      else [[s[0]] + rest[0]] + rest[1..]
  }

  /** `s.splitlines()` with '\n' as the only line break: like `s.split("\n")`,
      except that a final empty piece is dropped, so "" has no lines and
      "a\n" has the single line "a". */
  function SplitLines(s: string): (r: seq<string>)
    ensures forall i :: 0 <= i < |r| ==> '\n' !in r[i]
  {
    var pieces := Split(s, '\n');
    if pieces[|pieces| - 1] == [] then pieces[..|pieces| - 1] else pieces
  }

  /** `sep.join(parts)`. */
  function Join(sep: string, parts: seq<string>): string
    decreases |parts|
  {
    if |parts| == 0 then []
    else if |parts| == 1 then parts[0]
    else parts[0] + sep + Join(sep, parts[1..])
  }

  /** Joining the pieces of a split with the separator gives back the string. */
  lemma {:induction false} JoinSplit(s: string, sep: char)
    ensures Join([sep], Split(s, sep)) == s
  {
    if s != [] {
      var rest := Split(s[1..], sep);
      JoinSplit(s[1..], sep);
      if s[0] == sep {
        assert Split(s, sep) == [[]] + rest;
        assert s == [sep] + s[1..];
      } else {
        var r := Split(s, sep);
        assert r == [[s[0]] + rest[0]] + rest[1..];
        if |rest| == 1 {
          assert s == [s[0]] + rest[0];
        } else {
          assert r[1..] == rest[1..];
          assert Join([sep], rest) == rest[0] + [sep] + Join([sep], rest[1..]);
          assert s == [s[0]] + s[1..];
        }
      }
    }
  }

  /** A string without the separator is its own single piece. */
  lemma {:induction false} SplitWithoutSep(a: string, sep: char)
    requires sep !in a
    ensures Split(a, sep) == [a]
  {
    if a != [] {
      SplitWithoutSep(a[1..], sep);
      assert a == [a[0]] + a[1..];
    }
  }

  /** Splitting stops at the first separator. */
  lemma {:induction false} SplitAtSep(a: string, sep: char, t: string)
    requires sep !in a
    ensures Split(a + [sep] + t, sep) == [a] + Split(t, sep)
  {
    var s := a + [sep] + t;
    if a == [] {
      assert s[1..] == t;
    } else {
      assert s[1..] == a[1..] + [sep] + t;
      SplitAtSep(a[1..], sep, t);
      assert a == [a[0]] + a[1..];
    }
  }

  /** Splitting a join of separator-free parts gives back the parts. */
  lemma {:induction false} SplitJoin(parts: seq<string>, sep: char)
    requires |parts| >= 1
    requires forall i :: 0 <= i < |parts| ==> sep !in parts[i]
    ensures Split(Join([sep], parts), sep) == parts
    decreases |parts|
  {
    if |parts| == 1 {
      SplitWithoutSep(parts[0], sep);
    } else {
      SplitJoin(parts[1..], sep);
      SplitAtSep(parts[0], sep, Join([sep], parts[1..]));
      assert parts == [parts[0]] + parts[1..];
    }
  }

  /** Adding one part to a join appends the separator and that part. */
  lemma {:induction false} JoinSnoc(sep: string, parts: seq<string>, last: string)
    requires |parts| >= 1
    ensures Join(sep, parts + [last]) == Join(sep, parts) + sep + last
    decreases |parts|
  {
    var all := parts + [last];
    assert all[1..] == parts[1..] + [last];
    if |parts| > 1 {
      JoinSnoc(sep, parts[1..], last);
    }
  }

  /** The last piece of a split is empty exactly when the string is empty or
      ends with the separator. */
  lemma {:induction false} SplitLastEmpty(s: string, sep: char)
    ensures var r := Split(s, sep);
      r[|r| - 1] == [] <==> s == [] || s[|s| - 1] == sep
  {
    if s != [] {
      var r, rest := Split(s, sep), Split(s[1..], sep);
      SplitLastEmpty(s[1..], sep);
      assert r[|r| - 1] == if s[0] != sep && |rest| == 1 then [s[0]] + rest[0] else rest[|rest| - 1];
      assert |s| > 1 ==> s[|s| - 1] == s[1..][|s| - 2];
    }
  }

  /** Round trip of `splitlines`: joining the lines with "\n" gives back the
      text, up to one trailing line break. */
  lemma SplitLinesJoin(s: string)
    ensures s == Join("\n", SplitLines(s)) + (if s != [] && s[|s| - 1] == '\n' then "\n" else "")
  {
    var pieces := Split(s, '\n');
    assert "\n" == ['\n'];
    JoinSplit(s, '\n');
    SplitLastEmpty(s, '\n');
    if pieces[|pieces| - 1] == [] && s != [] {
      var front := pieces[..|pieces| - 1];
      FrontLast(pieces);
      assert |front| >= 1;
      JoinSnoc("\n", front, []);
    }
  }

  /** Round trip the other way: "\n"-joined lines without line breaks split
      back into those lines, except that a last empty line is lost. */
  lemma SplitLinesOfJoin(lines: seq<string>)
    requires forall i :: 0 <= i < |lines| ==> '\n' !in lines[i]
    ensures SplitLines(Join("\n", lines)) ==
      if lines != [] && lines[|lines| - 1] == [] then lines[..|lines| - 1] else lines
  {
    var text := Join("\n", lines);
    if lines == [] {
      assert text == [];
    } else {
      assert "\n" == ['\n'];
      SplitJoin(lines, '\n');
      SplitLinesUnfold(text, lines);
    }
  }

  lemma SplitLinesUnfold(text: string, pieces: seq<string>)
    requires Split(text, '\n') == pieces
    ensures SplitLines(text) == if pieces[|pieces| - 1] == [] then pieces[..|pieces| - 1] else pieces
  {
  }

  /** Where part `i` starts in `Join(sep, parts)`: the lengths of the earlier
      parts, each followed by one separator. */
  function Offset(sep: string, parts: seq<string>, i: nat): nat
    requires i <= |parts|
  {
    if i == 0 then 0 else Offset(sep, parts, i - 1) + |parts[i - 1]| + |sep|
  }

  lemma ShiftIsAt(a: string, b: string, pat: string, k: nat)
    ensures IsAt(a + b, pat, |a| + k) <==> IsAt(b, pat, k)
  {
    if k + |pat| <= |b| {
      assert (a + b)[|a| + k..|a| + k + |pat|] == b[k..k + |pat|];
    }
  }

  /** An occurrence inside a slice is an occurrence in the whole string. */
  lemma SliceIsAt(s: string, a: nat, b: nat, pat: string, k: nat)
    requires a <= b <= |s|
    requires IsAt(s[a..b], pat, k)
    ensures IsAt(s, pat, a + k) && a + k + |pat| <= b
  {
    var t := s[a..b];
    var u := s[a + k..a + k + |pat|];
    forall m | 0 <= m < |pat|
      ensures u[m] == pat[m]
    {
      assert pat[m] == t[k..k + |pat|][m] == t[k + m];
    }
    assert u == pat;
  }

  lemma {:induction false} OffsetTail(sep: string, parts: seq<string>, i: nat)
    requires 1 <= i <= |parts|
    ensures Offset(sep, parts, i) == |parts[0]| + |sep| + Offset(sep, parts[1..], i - 1)
  {
    if i > 1 {
      OffsetTail(sep, parts, i - 1);
    }
  }

  /** The length of a join: every part plus one separator between each two. */
  lemma {:induction false} JoinLength(sep: string, parts: seq<string>)
    requires |parts| >= 1
    ensures |Join(sep, parts)| + |sep| == Offset(sep, parts, |parts|)
    decreases |parts|
  {
    if |parts| > 1 {
      JoinLength(sep, parts[1..]);
      OffsetTail(sep, parts, |parts|);
    }
  }

  /** The first part of a join starts it and, unless it is the only part,
      is followed by the separator. */
  lemma JoinHeadAt(sep: string, parts: seq<string>)
    requires |parts| >= 1
    ensures IsAt(Join(sep, parts), parts[0], 0)
    ensures |parts| > 1 ==> IsAt(Join(sep, parts), sep, |parts[0]|)
  {
    var s := Join(sep, parts);
    if |parts| == 1 {
      assert s[0..|parts[0]|] == s;
    } else {
      assert s == parts[0] + sep + Join(sep, parts[1..]);
      assert s[0..|parts[0]|] == parts[0];
      assert s[|parts[0]|..|parts[0]| + |sep|] == sep;
    }
  }

  /** Part `i` of a join sits at `Offset(i)` and, unless it is the last part,
      is followed by the separator. */
  lemma {:induction false} JoinPartAt(sep: string, parts: seq<string>, i: nat)
    requires i < |parts|
    ensures IsAt(Join(sep, parts), parts[i], Offset(sep, parts, i))
    ensures i < |parts| - 1 ==> IsAt(Join(sep, parts), sep, Offset(sep, parts, i) + |parts[i]|)
    decreases i
  {
    if i == 0 {
      JoinHeadAt(sep, parts);
    } else {
      var head := parts[0] + sep;
      var rest := Join(sep, parts[1..]);
      var k := Offset(sep, parts[1..], i - 1);
      assert Join(sep, parts) == head + rest;
      assert parts[1..][i - 1] == parts[i];
      OffsetTail(sep, parts, i);
      JoinPartAt(sep, parts[1..], i - 1);
      ShiftIsAt(head, rest, parts[i], k);
      ShiftIsAt(head, rest, sep, k + |parts[i]|);
    }
  }
}

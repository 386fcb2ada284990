/** `parse_wiki_body` of the page-title API (api/main.py): the titles of the
    `[[...]]` links on the lines of a page body that mention the keyword. */
module WikiLinks {
  import opened Wrappers
  import opened Text
  import opened Distinct
  import opened SeqFacts

  const Open: string := "[["
  const Close: string := "]]"

  /** A match of the pattern `\[\[(.*?)\]\]` on `line`: "[[" at `i`, "]]" at
      `j`, and the captured title `line[i + 2..j]` between them. */
  ghost predicate LinkAt(line: string, i: nat, j: nat) {
    i + 2 <= j && IsAt(line, Open, i) && IsAt(line, Close, j)
  }

  /** The line holds at least one `[[...]]` token. */
  ghost predicate HasLink(line: string) {
    exists i: nat, j: nat :: LinkAt(line, i, j)
  }

  /** The match `re.search` reports: the leftmost start, and at that start the
      nearest end, since `.*?` is non-greedy. */
  ghost predicate FirstMatch(line: string, i: nat, j: nat) {
    && LinkAt(line, i, j)
    && (forall i': nat, j': nat :: LinkAt(line, i', j') ==> i <= i')
    && (forall j': nat :: LinkAt(line, i, j') ==> j <= j')
  }

  /** `pattern.search(line).group(1)`: the title of the first link token, or
      None when the line has none. Lines never hold '\n', which `.` would not
      match, so any character may appear in a title. */
  function FirstLink(line: string): (r: Option<string>)
    ensures r.None? <==> !HasLink(line)
    ensures r.Some? ==> exists i: nat, j: nat :: FirstMatch(line, i, j) && r.value == line[i + 2..j]
  {
    match Find(line, Open, 0)
    case None => None
    case Some(i) =>
      match Find(line, Close, i + 2)
      case None => None
      case Some(j) =>
        assert FirstMatch(line, i, j);
        Some(line[i + 2..j])
  }

  /** The first match is a single well-defined span. */
  lemma FirstMatchUnique(line: string, i: nat, j: nat, i': nat, j': nat)
    requires FirstMatch(line, i, j) && FirstMatch(line, i', j')
    ensures i == i' && j == j'
  {
  }

  /** A title never contains "]]": the match stops at the first one. */
  lemma TitleHasNoClose(line: string)
    requires FirstLink(line).Some?
    ensures !Contains(FirstLink(line).value, Close)
  {
    var t := FirstLink(line).value;
    var i := Find(line, Open, 0).value;
    var j := Find(line, Close, i + 2).value;
    assert t == line[i + 2..j];
    forall k: nat | IsAt(t, Close, k)
      ensures false
    {
      SliceIsAt(line, i + 2, j, Close, k);
    }
  }

  /** Python's `keyword.lower() in line.lower()`, with ASCII lower-casing. */
  predicate Matches(line: string, keyword: string) {
    Contains(ToLower(line), ToLower(keyword))
  }

  /** Matching ignores the case of both the line and the keyword. */
  lemma MatchesIgnoresCase(line: string, keyword: string)
    ensures Matches(ToLower(line), keyword) == Matches(line, keyword)
    ensures Matches(line, ToLower(keyword)) == Matches(line, keyword)
  {
    ToLowerIdempotent(line);
    ToLowerIdempotent(keyword);
  }

  /** What one line contributes: its first link title when the line mentions
      the keyword and has a link; nothing otherwise. */
  function LineTitle(line: string, keyword: string): (r: Option<string>)
    ensures r.Some? <==> Matches(line, keyword) && HasLink(line)
    ensures r.Some? ==> r == FirstLink(line)
  {
    if Matches(line, keyword) then FirstLink(line) else None
  }

  /** The per-line titles in line order, repeats included: at most one per
      line, and exactly those some line contributes. */
  function Candidates(lines: seq<string>, keyword: string): (r: seq<string>)
    ensures |r| <= |lines|
    ensures forall t :: t in r <==> exists k :: 0 <= k < |lines| && LineTitle(lines[k], keyword) == Some(t)
    decreases |lines|
  {
    if |lines| == 0 then []
    else
      var rest := Candidates(lines[1..], keyword);
      assert forall k :: 1 <= k < |lines| ==> lines[k] == lines[1..][k - 1];
      assert forall k :: 0 <= k < |lines| - 1 ==> lines[1..][k] == lines[k + 1];
      match LineTitle(lines[0], keyword)
      case Some(t) => [t] + rest
      case None => rest
  }

  lemma {:induction false} CandidatesConcat(a: seq<string>, b: seq<string>, keyword: string)
    ensures Candidates(a + b, keyword) == Candidates(a, keyword) + Candidates(b, keyword)
    decreases |a|
  {
    if |a| == 0 {
      assert a + b == b;
    } else {
      assert (a + b)[0] == a[0];
      assert (a + b)[1..] == a[1..] + b;
      CandidatesConcat(a[1..], b, keyword);
    }
  }

  /** The loop of `parse_wiki_body` as written: line by line, append the
      line's title to `results` unless it is already there. */
  function ScanLines(lines: seq<string>, keyword: string, results: seq<string>): seq<string>
    decreases |lines|
  {
    if |lines| == 0 then results
    else
      var next :=
        match LineTitle(lines[0], keyword)
        case Some(t) => if t in results then results else results + [t]
        case None => results;
      ScanLines(lines[1..], keyword, next)
  }

  /** The loop appends the per-line titles, first occurrence only. */
  lemma {:induction false} ScanIsAppendNew(lines: seq<string>, keyword: string, results: seq<string>)
    ensures ScanLines(lines, keyword, results) == AppendNew(results, Candidates(lines, keyword))
    decreases |lines|
  {
    if |lines| > 0 {
      var head := match LineTitle(lines[0], keyword) case Some(t) => [t] case None => [];
      HeadTail(lines);
      CandidatesConcat([lines[0]], lines[1..], keyword);
      assert Candidates([lines[0]], keyword) == head;
      AppendNewConcat(results, head, Candidates(lines[1..], keyword));
      ScanIsAppendNew(lines[1..], keyword, AppendNew(results, head));
      if head != [] {
        assert AppendNew(results, head) == AppendNew(if head[0] in results then results else results + [head[0]], []);
      }
    }
  }

  /** The titles `parse_wiki_body` finds on the given lines. */
  function ExtractTitles(lines: seq<string>, keyword: string): (r: seq<string>)
    ensures r == Dedup(Candidates(lines, keyword))
    ensures |r| <= |lines|
    ensures NoDup(r)
    ensures forall t :: t in r <==> exists k :: 0 <= k < |lines| && LineTitle(lines[k], keyword) == Some(t)
  {
    ScanIsAppendNew(lines, keyword, []);
    ScanLines(lines, keyword, [])
  }

  /** `parse_wiki_body(body_text, keyword)`: without repeats, exactly the first
      link titles of the lines that mention the keyword. */
  function ParseWikiBody(body: string, keyword: string): (r: seq<string>)
    ensures NoDup(r)
    ensures |r| <= |SplitLines(body)|
    ensures forall t :: t in r <==>
      exists line :: line in SplitLines(body) && Matches(line, keyword) && FirstLink(line) == Some(t)
  {
    var lines := SplitLines(body);
    var r := ExtractTitles(lines, keyword);
    forall t
      ensures t in r <==> exists line :: line in lines && Matches(line, keyword) && FirstLink(line) == Some(t)
    {
      ExtractMember(lines, keyword, t);
    }
    r
  }

  /** A title is extracted exactly when some line mentions the keyword and
      links to it first. */
  lemma ExtractMember(lines: seq<string>, keyword: string, t: string)
    ensures t in ExtractTitles(lines, keyword) <==>
      exists line :: line in lines && Matches(line, keyword) && FirstLink(line) == Some(t)
  {
    if exists line :: line in lines && Matches(line, keyword) && FirstLink(line) == Some(t) {
      var line :| line in lines && Matches(line, keyword) && FirstLink(line) == Some(t);
      var k :| 0 <= k < |lines| && lines[k] == line;
      assert LineTitle(lines[k], keyword) == Some(t);
    }
    if t in ExtractTitles(lines, keyword) {
      var k :| 0 <= k < |lines| && LineTitle(lines[k], keyword) == Some(t);
      assert lines[k] in lines;
    }
  }

  /** Lines are read top to bottom: the titles found in the first `k` lines
      come first in the result, in the same order. */
  lemma ExtractTopDown(lines: seq<string>, keyword: string, k: nat)
    requires k <= |lines|
    ensures ExtractTitles(lines[..k], keyword) <= ExtractTitles(lines, keyword)
  {
    assert lines == lines[..k] + lines[k..];
    CandidatesConcat(lines[..k], lines[k..], keyword);
    AppendNewConcat([], Candidates(lines[..k], keyword), Candidates(lines[k..], keyword));
  }

  /** First-seen order: whenever a later title has been found by some line,
      every earlier title has been found too. */
  lemma ExtractFirstSeen(lines: seq<string>, keyword: string, k: nat, i: nat, j: nat)
    requires k <= |lines|
    requires i < j < |ExtractTitles(lines, keyword)|
    requires ExtractTitles(lines, keyword)[j] in ExtractTitles(lines[..k], keyword)
    ensures ExtractTitles(lines, keyword)[i] in ExtractTitles(lines[..k], keyword)
  {
    var r := ExtractTitles(lines, keyword);
    var p := ExtractTitles(lines[..k], keyword);
    ExtractTopDown(lines, keyword, k);
    PrefixHoldsEarlier(p, r, i, j);
  }

  /** A list-valued body is read line by line: joining it with "\n" and
      splitting again yields the same titles as the list itself. */
  lemma ExtractJoinedLines(lines: seq<string>, keyword: string)
    requires forall i :: 0 <= i < |lines| ==> '\n' !in lines[i]
    ensures ParseWikiBody(Join("\n", lines), keyword) == ExtractTitles(lines, keyword)
  {
    SplitLinesOfJoin(lines);
    assert ParseWikiBody(Join("\n", lines), keyword) == ExtractTitles(SplitLines(Join("\n", lines)), keyword);
    if lines != [] && lines[|lines| - 1] == [] {
      EmptyLastLineAddsNothing(lines, keyword);
    }
  }

  /** An empty line has no link, so a trailing one adds no title. */
  lemma EmptyLastLineAddsNothing(lines: seq<string>, keyword: string)
    requires lines != [] && lines[|lines| - 1] == []
    ensures Candidates(lines[..|lines| - 1], keyword) == Candidates(lines, keyword)
  {
    var front := lines[..|lines| - 1];
    FrontLast(lines);
    CandidatesConcat(front, [[]], keyword);
    assert Find([], Open, 0) == None;
    assert LineTitle([], keyword) == None;
    assert Candidates([[]], keyword) == [];
  }
}

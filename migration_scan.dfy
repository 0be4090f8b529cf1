/** The text scan of the API migration check (`CheckApiMigrationAsync` and
    `ExtractSearchTerm` in `UnityAnalysisService`): the search term derived
    from an API description, the ordinal search loop over a file's text, and
    the line, column and snippet reported for each hit. */
module MigrationScan {
  import opened Wrappers
  import opened Seqs
  import opened Text
  import MigrationData

  // ================================================================ search term

  /** The text of an API description before its first `(`: the whole text
      when there is none. */
  function NamePart(apiSpec: string): (r: string)
    ensures IsPrefix(r, apiSpec)
    ensures '(' !in r
    ensures r == apiSpec || apiSpec[|r|] == '('
  {
    if apiSpec == [] || apiSpec[0] == '(' then []
    else [apiSpec[0]] + NamePart(apiSpec[1..])
  }

  /** `ExtractSearchTerm`: the last two dot-separated segments of the name part
      (the only segment when there is no dot). */
  function ExtractSearchTerm(apiSpec: string): string {
    LastTwo(Split(NamePart(apiSpec), {'.'}))
  }

  /** The last two parts joined by a dot, or the only part. */
  function LastTwo(parts: seq<string>): string
    requires |parts| >= 1
  {
    if |parts| >= 2 then parts[|parts| - 2] + "." + parts[|parts| - 1] else parts[|parts| - 1]
  }

  /** `r` ends `n` and holds at most one dot; it is the whole of `n`, or else
      it is preceded by a dot and holds exactly one: two whole segments. */
  predicate LastTwoSegments(n: string, r: string) {
    && IsSuffix(r, n)
    && CountChar(r, '.') <= 1
    && (r == n || (CountChar(r, '.') == 1 && n[|n| - |r| - 1] == '.'))
  }

  /** The search term is the last two segments of the name part, so it holds
      no parenthesis and at most one dot. */
  lemma SearchTermIsLastTwoSegments(apiSpec: string)
    ensures LastTwoSegments(NamePart(apiSpec), ExtractSearchTerm(apiSpec))
    ensures '(' !in ExtractSearchTerm(apiSpec)
  {
    var n := NamePart(apiSpec);
    var r := ExtractSearchTerm(apiSpec);
    JoinSplit(n, '.');
    SplitHasNoSeparator(n, {'.'});
    LastTwoOfJoin(Split(n, {'.'}));
    forall i | 0 <= i < |r| ensures r[i] != '(' {
      assert r[i] == n[|n| - |r| + i];
    }
  }

  lemma LastTwoOfJoin(p: seq<string>)
    requires |p| >= 1
    requires forall k, i :: 0 <= k < |p| && 0 <= i < |p[k]| ==> p[k][i] !in {'.'}
    ensures LastTwoSegments(Join(p, '.'), LastTwo(p))
  {
    var n := Join(p, '.');
    var r := LastTwo(p);
    if |p| == 1 {
      CountCharAbsent(r, '.');
    } else {
      OneDot(p[|p| - 2], p[|p| - 1]);
      if |p| == 2 {
        JoinTwo(p[0], p[1], '.');
        assert p == [p[0], p[1]];
      } else {
        assert p == p[..|p| - 2] + [p[|p| - 2], p[|p| - 1]];
        JoinLastTwo(p[..|p| - 2], p[|p| - 2], p[|p| - 1], '.');
        assert n[|n| - |r|..] == r;
      }
    }
  }

  /** Two segments without dots joined by a dot hold one dot. */
  lemma OneDot(a: string, b: string)
    requires forall i :: 0 <= i < |a| ==> a[i] != '.'
    requires forall i :: 0 <= i < |b| ==> b[i] != '.'
    ensures CountChar(a + "." + b, '.') == 1
  {
    CountCharAbsent(a, '.');
    CountCharAbsent(b, '.');
    CountCharAppend(a, ['.'], '.');
    CountCharAppend(a + ['.'], b, '.');
    assert CountChar(['.'], '.') == 1;
  }

  /** Joining more than two parts ends with the last two joined. */
  lemma JoinLastTwo(front: seq<string>, a: string, b: string, c: char)
    requires |front| >= 1
    ensures Join(front + [a, b], c) == Join(front, c) + [c] + (a + [c] + b)
  {
    var q := front + [a];
    JoinSnoc(front, a, c);
    JoinSnoc(q, b, c);
    assert q + [b] == front + [a, b];
    var A := Join(front, c);
    assert (A + [c] + a) + [c] + b == A + [c] + (a + [c] + b);
  }

  /** A qualified name whose segments hold neither dots nor parentheses,
      optionally followed by a parameter list, is searched for by its last two
      segments. */
  lemma SearchTermOfQualifiedName(front: seq<string>, a: string, b: string, params: string)
    requires forall k, i :: 0 <= k < |front| && 0 <= i < |front[k]| ==> front[k][i] != '.' && front[k][i] != '('
    requires forall i :: 0 <= i < |a| ==> a[i] != '.' && a[i] != '('
    requires forall i :: 0 <= i < |b| ==> b[i] != '.' && b[i] != '('
    requires params == [] || params[0] == '('
    ensures ExtractSearchTerm(Join(front + [a, b], '.') + params) == a + "." + b
  {
    var parts := front + [a, b];
    var name := Join(parts, '.');
    assert forall k, i :: 0 <= k < |parts| && 0 <= i < |parts[k]| ==> parts[k][i] != '.' && parts[k][i] != '(' by {
      forall k, i | 0 <= k < |parts| && 0 <= i < |parts[k]|
        ensures parts[k][i] != '.' && parts[k][i] != '('
      {
        if k < |front| { assert parts[k] == front[k]; }
        else if k == |front| { assert parts[k] == a; }
        else { assert parts[k] == b; }
      }
    }
    NamePartBeforeParams(parts, params);
    SplitJoin(parts, '.', {'.'});
  }

  /** The name part of a joined name followed by a parameter list is the name. */
  lemma NamePartBeforeParams(parts: seq<string>, params: string)
    requires forall k, i :: 0 <= k < |parts| && 0 <= i < |parts[k]| ==> parts[k][i] != '('
    requires params == [] || params[0] == '('
    ensures NamePart(Join(parts, '.') + params) == Join(parts, '.')
  {
    var name := Join(parts, '.');
    JoinAvoids(parts, '.', '(');
    NamePartOfPrefix(name, params);
  }

  lemma {:induction false} JoinAvoids(parts: seq<string>, sep: char, c: char)
    requires sep != c
    requires forall k, i :: 0 <= k < |parts| && 0 <= i < |parts[k]| ==> parts[k][i] != c
    ensures c !in Join(parts, sep)
  {
    if |parts| > 1 {
      JoinAvoids(parts[1..], sep, c);
      assert forall i :: 0 <= i < |parts[0]| ==> parts[0][i] != c;
    } else if |parts| == 1 {
      assert forall i :: 0 <= i < |parts[0]| ==> parts[0][i] != c;
    }
  }

  lemma {:induction false} NamePartOfPrefix(name: string, params: string)
    requires '(' !in name
    requires params == [] || params[0] == '('
    ensures NamePart(name + params) == name
  {
    if name == [] {
      assert name + params == params;
    } else {
      assert (name + params)[1..] == name[1..] + params;
      NamePartOfPrefix(name[1..], params);
    }
  }

  // ================================================================ text positions

  /** Offset of the first character of the line holding offset `i` (lines
      end at `'\n'`); `LineStartSpec` characterises it. */
  function LineStart(s: string, i: nat): (r: nat)
    requires i <= |s|
    ensures r <= i
  {
    if i == 0 || s[i - 1] == '\n' then i else LineStart(s, i - 1)
  }

  /** Offset of the line break ending the line holding offset `i`, or the
      length of the text on the last line; `LineEndSpec` characterises it. */
  function LineEnd(s: string, i: nat): (r: nat)
    requires i <= |s|
    ensures i <= r <= |s|
    decreases |s| - i
  {
    if i == |s| || s[i] == '\n' then i else LineEnd(s, i + 1)
  }

  /** The line starts at the beginning of the text or just after a line
      break, and has no line break before `i`. */
  lemma {:induction false} LineStartSpec(s: string, i: nat)
    requires i <= |s|
    ensures LineStart(s, i) == 0 || s[LineStart(s, i) - 1] == '\n'
    ensures forall j :: LineStart(s, i) <= j < i ==> s[j] != '\n'
  {
    if i > 0 && s[i - 1] != '\n' {
      LineStartSpec(s, i - 1);
    }
  }

  /** The line ends at the end of the text or at a line break, and has no
      line break from `i` on. */
  lemma {:induction false} LineEndSpec(s: string, i: nat)
    requires i <= |s|
    ensures LineEnd(s, i) == |s| || s[LineEnd(s, i)] == '\n'
    ensures forall j :: i <= j < LineEnd(s, i) ==> s[j] != '\n'
    decreases |s| - i
  {
    if i < |s| && s[i] != '\n' {
      LineEndSpec(s, i + 1);
    }
  }

  /** `GetLinePosition(i).Line`: the number of line breaks before `i`. */
  function LineNumber(s: string, i: nat): nat
    requires i <= |s|
  {
    CountChar(s[..i], '\n')
  }

  /** The text of the line holding offset `i`, without its line break. */
  function LineText(s: string, i: nat): string
    requires i <= |s|
  {
    s[LineStart(s, i)..LineEnd(s, i)]
  }

  /** The line text holds no line break, and offset `i` lies within it. */
  lemma LineTextSpec(s: string, i: nat)
    requires i <= |s|
    ensures '\n' !in LineText(s, i)
    ensures LineStart(s, i) <= i <= LineStart(s, i) + |LineText(s, i)|
  {
    LineStartSpec(s, i);
    LineEndSpec(s, i);
    var t := LineText(s, i);
    forall j | 0 <= j < |t| ensures t[j] != '\n' {
      assert t[j] == s[LineStart(s, i) + j];
    }
  }

  /** Offset of the first character of line `k` of the text the lines make. */
  function LineOffset(lines: seq<string>, k: nat): nat
    requires k < |lines|
  {
    if k == 0 then 0 else |lines[0]| + 1 + LineOffset(lines[1..], k - 1)
  }

  /** Any offset satisfying the three properties of `LineStart` is it. */
  lemma LineStartUnique(s: string, i: nat, r: nat)
    requires r <= i <= |s|
    requires r == 0 || s[r - 1] == '\n'
    requires forall j :: r <= j < i ==> s[j] != '\n'
    ensures LineStart(s, i) == r
  {
    LineStartSpec(s, i);
  }

  lemma LineEndUnique(s: string, i: nat, r: nat)
    requires i <= r <= |s|
    requires r == |s| || s[r] == '\n'
    requires forall j :: i <= j < r ==> s[j] != '\n'
    ensures LineEnd(s, i) == r
  {
    LineEndSpec(s, i);
  }

  /** Position `c` of line `k` of a text made of lines joined by line breaks
      has line number `k`, column `c`, and line `k` as its line text. */
  lemma {:induction false} PositionInLines(lines: seq<string>, k: nat, c: nat)
    requires forall j :: 0 <= j < |lines| ==> '\n' !in lines[j]
    requires k < |lines| && c <= |lines[k]|
    ensures LocatedAt(lines, k, c)
  {
    if k == 0 {
      PositionInLineZero(lines, c);
    } else {
      var tail := lines[1..];
      assert forall j :: 0 <= j < |tail| ==> '\n' !in tail[j] by {
        forall j | 0 <= j < |tail| ensures '\n' !in tail[j] {
          assert tail[j] == lines[j + 1];
        }
      }
      PositionInLines(tail, k - 1, c);
      PositionInLaterLine(lines, k, c);
    }
  }

  /** Line `k` of the text the lines make, at column `c`, is reported as such. */
  predicate LocatedAt(lines: seq<string>, k: nat, c: nat)
    requires k < |lines|
  {
    var s, i := Join(lines, '\n'), LineOffset(lines, k) + c;
    && i <= |s|
    && LineNumber(s, i) == k
    && i - LineStart(s, i) == c
    && LineText(s, i) == lines[k]
  }

  lemma PositionInLineZero(lines: seq<string>, c: nat)
    requires |lines| >= 1 && '\n' !in lines[0] && c <= |lines[0]|
    ensures LocatedAt(lines, 0, c)
  {
    var more := if |lines| == 1 then [] else ['\n'] + Join(lines[1..], '\n');
    assert Join(lines, '\n') == lines[0] + more;
    PositionInFirstLine(lines[0], more, c);
  }

  lemma PositionInLaterLine(lines: seq<string>, k: nat, c: nat)
    requires 1 <= k < |lines| && '\n' !in lines[0]
    requires LocatedAt(lines[1..], k - 1, c)
    ensures LocatedAt(lines, k, c)
  {
    var first, tail := lines[0], lines[1..];
    var pre := first + ['\n'];
    var rest := Join(tail, '\n');
    var i' := LineOffset(tail, k - 1) + c;
    assert Join(lines, '\n') == pre + rest;
    assert LineOffset(lines, k) + c == |pre| + i';
    PositionAfterBreak(pre, rest, i');
    assert CountChar(pre, '\n') == 1 by {
      CountCharAppend(first, ['\n'], '\n');
      CountCharAbsent(first, '\n');
      assert CountChar(['\n'], '\n') == 1;
    }
  }

  /** A position within a first line that has no line break. */
  lemma PositionInFirstLine(first: string, more: string, c: nat)
    requires '\n' !in first
    requires more == [] || more[0] == '\n'
    requires c <= |first|
    ensures LineNumber(first + more, c) == 0
    ensures LineStart(first + more, c) == 0
    ensures LineText(first + more, c) == first
  {
    var s := first + more;
    assert s[..c] == first[..c];
    CountCharAbsent(s[..c], '\n');
    LineStartUnique(s, c, 0);
    LineEndUnique(s, c, |first|);
    assert s[..|first|] == first;
  }

  /** Behind a text ending in a line break, positions keep their line start,
      end and text, and their line number grows by the breaks before. */
  lemma PositionAfterBreak(pre: string, rest: string, i: nat)
    requires pre != [] && pre[|pre| - 1] == '\n'
    requires i <= |rest|
    ensures LineNumber(pre + rest, |pre| + i) == CountChar(pre, '\n') + LineNumber(rest, i)
    ensures LineStart(pre + rest, |pre| + i) == |pre| + LineStart(rest, i)
    ensures LineText(pre + rest, |pre| + i) == LineText(rest, i)
  {
    var s := pre + rest;
    assert s[..|pre| + i] == pre + rest[..i];
    CountCharAppend(pre, rest[..i], '\n');
    LineStartAfterBreak(pre, rest, i);
    LineEndAfterBreak(pre, rest, i);
    var st, en := LineStart(rest, i), LineEnd(rest, i);
    assert s[|pre|..] == rest;
    assert s[|pre| + st..|pre| + en] == s[|pre|..][st..en];
  }

  lemma LineStartAfterBreak(pre: string, rest: string, i: nat)
    requires pre != [] && pre[|pre| - 1] == '\n'
    requires i <= |rest|
    ensures LineStart(pre + rest, |pre| + i) == |pre| + LineStart(rest, i)
  {
    var s := pre + rest;
    var st := LineStart(rest, i);
    LineStartSpec(rest, i);
    forall x | |pre| + st <= x < |pre| + i ensures s[x] != '\n' {
      assert s[x] == rest[x - |pre|];
    }
    if st > 0 {
      assert s[|pre| + st - 1] == rest[st - 1];
    }
    LineStartUnique(s, |pre| + i, |pre| + st);
  }

  lemma LineEndAfterBreak(pre: string, rest: string, i: nat)
    requires i <= |rest|
    ensures LineEnd(pre + rest, |pre| + i) == |pre| + LineEnd(rest, i)
  {
    var s := pre + rest;
    var en := LineEnd(rest, i);
    LineEndSpec(rest, i);
    forall x | |pre| + i <= x < |pre| + en ensures s[x] != '\n' {
      assert s[x] == rest[x - |pre|];
    }
    if en < |rest| {
      assert s[|pre| + en] == rest[en];
    }
    LineEndUnique(s, |pre| + i, |pre| + en);
  }

  // ================================================================ the scan

  /** The offsets the scan loop visits: the first occurrence of `t` at or after
      `from`, then the next one at or after its end, and so on. */
  function Hits(s: string, t: string, from: nat): (r: seq<nat>)
    requires t != [] && from <= |s|
    decreases |s| - from
  {
    var i := IndexOf(s, t, from);
    if i < 0 then [] else [i] + Hits(s, t, i + |t|)
  }

  /** Every hit is an occurrence of the term at or after the start, and each
      hit starts at or after the end of the one before: hits do not overlap. */
  lemma {:induction false} HitsAreSeparateOccurrences(s: string, t: string, from: nat)
    requires t != [] && from <= |s|
    ensures forall k :: 0 <= k < |Hits(s, t, from)| ==> from <= Hits(s, t, from)[k] && OccursAt(s, t, Hits(s, t, from)[k])
    ensures forall k :: 0 <= k < |Hits(s, t, from)| - 1 ==> Hits(s, t, from)[k] + |t| <= Hits(s, t, from)[k + 1]
    decreases |s| - from
  {
    var i := IndexOf(s, t, from);
    IndexOfSpec(s, t, from);
    if i >= 0 {
      var rest := Hits(s, t, i + |t|);
      HitsAreSeparateOccurrences(s, t, i + |t|);
      var r := Hits(s, t, from);
      assert r == [i] + rest;
      forall k | 0 <= k < |r| ensures from <= r[k] && OccursAt(s, t, r[k]) {
        if k == 0 {
          assert r[k] == i;
        } else {
          assert r[k] == rest[k - 1];
        }
      }
      forall k | 0 <= k < |r| - 1 ensures r[k] + |t| <= r[k + 1] {
        assert r[k + 1] == rest[k];
        if k == 0 {
          assert i + |t| <= rest[0];
        } else {
          assert r[k] == rest[k - 1];
          assert rest[k - 1] + |t| <= rest[k];
        }
      }
    }
  }

  /** One step of the scan: the hits from a cursor are the next hit, then
      the hits from its end; none when there is no next hit. */
  lemma HitsStep(s: string, t: string, from: nat)
    requires t != [] && from <= |s|
    ensures IndexOf(s, t, from) < 0 ==> Hits(s, t, from) == []
    ensures IndexOf(s, t, from) >= 0 ==>
      Hits(s, t, from) == [IndexOf(s, t, from)] + Hits(s, t, IndexOf(s, t, from) + |t|)
  {
  }

  /** Offset `i` lies within one of the hits. */
  predicate Covered(hits: seq<nat>, t: string, i: nat) {
    exists k :: 0 <= k < |hits| && hits[k] <= i < hits[k] + |t|
  }

  /** The scan misses no occurrence except those overlapping one it reported. */
  lemma {:induction false} HitsCover(s: string, t: string, from: nat, i: nat)
    requires t != [] && from <= |s|
    requires from <= i && OccursAt(s, t, i)
    ensures Covered(Hits(s, t, from), t, i)
    decreases |s| - from
  {
    var h := IndexOf(s, t, from);
    IndexOfSpec(s, t, from);
    HitsStep(s, t, from);
    var r := Hits(s, t, from);
    if i < h + |t| {
      assert r[0] <= i < r[0] + |t|;
    } else {
      var rest := Hits(s, t, h + |t|);
      HitsCover(s, t, h + |t|, i);
      var k :| 0 <= k < |rest| && rest[k] <= i < rest[k] + |t|;
      assert r[k + 1] == rest[k];
    }
  }

  /** A finding of the migration scan. */
  datatype MigrationFinding = MigrationFinding(
    oldApi: string,
    newApi: string,
    category: string,
    deprecatedIn: string,
    removedIn: string,
    notes: string,
    file: string,
    line: nat,
    column: nat,
    codeSnippet: string)

  /** The finding reported for `migration` at offset `i` of a file. The scan
      only asks for offsets of occurrences, which lie inside the file
      (`HitsAreSeparateOccurrences`); an offset past the end is read as the
      end, so that the function needs no precondition. */
  function FindingAt(migration: MigrationData.ApiMigration, file: string, content: string, i: nat): (f: MigrationFinding)
  {
    var at := if i <= |content| then i else |content|;
    MigrationFinding(
      migration.oldApi, migration.newApi, migration.category,
      migration.minVersion, migration.removedVersion, migration.notes,
      file, LineNumber(content, at), at - LineStart(content, at),
      Trim(LineText(content, at), IsWhiteSpace))
  }

  function FindingsAt(migration: MigrationData.ApiMigration, file: string, content: string, hits: seq<nat>): (r: seq<MigrationFinding>)
    ensures |r| == |hits|
  {
    if hits == [] then []
    else FindingsAt(migration, file, content, hits[..|hits| - 1]) + [FindingAt(migration, file, content, hits[|hits| - 1])]
  }

  /** Finding `k` is the finding at hit `k`. */
  lemma {:induction false} FindingsAtElements(migration: MigrationData.ApiMigration, file: string, content: string, hits: seq<nat>)
    ensures forall k :: 0 <= k < |hits| ==>
      FindingsAt(migration, file, content, hits)[k] == FindingAt(migration, file, content, hits[k])
  {
    if hits != [] {
      var front := hits[..|hits| - 1];
      FindingsAtElements(migration, file, content, front);
      var r := FindingsAt(migration, file, content, hits);
      forall k | 0 <= k < |hits| - 1 ensures r[k] == FindingAt(migration, file, content, hits[k]) {
        assert r[k] == FindingsAt(migration, file, content, front)[k];
        assert hits[k] == front[k];
      }
    }
  }

  /** The findings of one migration in one file: none for an empty search
      term, otherwise one per hit of the scan. */
  function MigrationFindings(migration: MigrationData.ApiMigration, file: string, content: string): seq<MigrationFinding> {
    var term := ExtractSearchTerm(migration.oldApi);
    if term == [] then []
    else FindingsAt(migration, file, content, Hits(content, term, 0))
  }

  /** A finding carries the migration's data, and the line, column and
      trimmed line text of its offset: in a file made of `lines`, the offset
      of column `c` of line `k` is reported as line `k`, column `c`, with
      that line, trimmed, as its snippet. */
  lemma FindingReportsItsLine(migration: MigrationData.ApiMigration, file: string, lines: seq<string>, k: nat, c: nat)
    requires forall j :: 0 <= j < |lines| ==> '\n' !in lines[j]
    requires k < |lines| && c <= |lines[k]|
    ensures var f := FindingAt(migration, file, Join(lines, '\n'), LineOffset(lines, k) + c);
      && f.oldApi == migration.oldApi && f.newApi == migration.newApi
      && f.category == migration.category && f.deprecatedIn == migration.minVersion
      && f.removedIn == migration.removedVersion && f.notes == migration.notes
      && f.file == file && f.line == k && f.column == c
      && f.codeSnippet == Trim(lines[k], IsWhiteSpace)
  {
    var content, i := Join(lines, '\n'), LineOffset(lines, k) + c;
    PositionInLines(lines, k, c);
    assert i <= |content| && LineNumber(content, i) == k;
    assert i - LineStart(content, i) == c && LineText(content, i) == lines[k];
  }

  /** What the scan of one migration reports: nothing when the search term is
      empty; otherwise one finding per hit, in order, where the hits are
      non-overlapping occurrences of the term and every occurrence of the
      term overlaps a hit. */
  lemma {:induction false} MigrationFindingsAreHits(migration: MigrationData.ApiMigration, file: string, content: string, term: string)
    requires term == ExtractSearchTerm(migration.oldApi)
    ensures term == [] ==> MigrationFindings(migration, file, content) == []
    ensures term != [] ==>
      && |MigrationFindings(migration, file, content)| == |Hits(content, term, 0)|
      && (forall k :: 0 <= k < |Hits(content, term, 0)| ==>
            && MigrationFindings(migration, file, content)[k] == FindingAt(migration, file, content, Hits(content, term, 0)[k])
            && OccursAt(content, term, Hits(content, term, 0)[k]))
      && (forall k :: 0 <= k < |Hits(content, term, 0)| - 1 ==>
            Hits(content, term, 0)[k] + |term| <= Hits(content, term, 0)[k + 1])
      && (forall i :: OccursAt(content, term, i) ==> Covered(Hits(content, term, 0), term, i))
  {
    if term != [] {
      var hits := Hits(content, term, 0);
      FindingsAtElements(migration, file, content, hits);
      HitsAreSeparateOccurrences(content, term, 0);
      forall i | OccursAt(content, term, i) ensures Covered(hits, term, i) {
        HitsCover(content, term, 0, i);
      }
    }
  }

  /** One migration against one file: derive the search term and, when it is
      not empty, scan the file for it. */
  method ScanMigration(migration: MigrationData.ApiMigration, file: string, content: string)
    returns (findings: seq<MigrationFinding>)
    ensures findings == MigrationFindings(migration, file, content)
  {
    var searchTerm := ExtractSearchTerm(migration.oldApi);
    if searchTerm == [] {
      return [];
    }
    findings := ScanTerm(migration, file, content, searchTerm);
  }

  /** The inner `while` loop of `CheckApiMigrationAsync`: search from the
      cursor, report the hit, move the cursor past it. */
  method ScanTerm(migration: MigrationData.ApiMigration, file: string, content: string, searchTerm: string)
    returns (findings: seq<MigrationFinding>)
    requires searchTerm != []
    ensures findings == FindingsAt(migration, file, content, Hits(content, searchTerm, 0))
  {
    findings := [];
    ghost var hits: seq<nat> := [];
    var index := 0;
    var hit := IndexOf(content, searchTerm, index);
    while hit >= 0
      invariant index <= |content|
      invariant hit == IndexOf(content, searchTerm, index)
      invariant hits + Hits(content, searchTerm, index) == Hits(content, searchTerm, 0)
      invariant findings == FindingsAt(migration, file, content, hits)
      decreases |content| - index
    {
      ScanStep(content, searchTerm, index, hit, hits);
      FindingsAtSnoc(migration, file, content, hits, hit);
      findings := findings + [FindingAt(migration, file, content, hit)];
      hits := hits + [hit as nat];
      index := hit + |searchTerm|;
      hit := IndexOf(content, searchTerm, index);
    }
    HitsStep(content, searchTerm, index);
    assert hits == hits + Hits(content, searchTerm, index);
  }

  /** Moving the head of the second list to the end of the first keeps the
      concatenation. */
  lemma MoveFirst(a: seq<nat>, x: nat, b: seq<nat>)
    ensures (a + [x]) + b == a + ([x] + b)
  {
  }

  /** Reporting one more hit appends its finding. */
  lemma FindingsAtSnoc(migration: MigrationData.ApiMigration, file: string, content: string, hits: seq<nat>, h: nat)
    requires h <= |content|
    ensures FindingsAt(migration, file, content, hits + [h])
         == FindingsAt(migration, file, content, hits) + [FindingAt(migration, file, content, h)]
  {
    assert (hits + [h])[..|hits|] == hits;
  }

  /** Taking the hit at the cursor moves it from the hits still to come to
      the hits already reported. */
  lemma ScanStep(s: string, t: string, index: nat, hit: nat, hits: seq<nat>)
    requires t != [] && index <= |s| && hit == IndexOf(s, t, index)
    requires hits + Hits(s, t, index) == Hits(s, t, 0)
    ensures hit + |t| <= |s|
    ensures (hits + [hit]) + Hits(s, t, hit + |t|) == Hits(s, t, 0)
  {
    HitsStep(s, t, index);
    MoveFirst(hits, hit, Hits(s, t, hit + |t|));
  }
}

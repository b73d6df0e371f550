/** The scan of `valgrind_check_file`: does one stack trace of a valgrind
    results file hold as many matching lines as there are patterns?  A line
    counts once whichever pattern matches it, so one pattern matching two
    lines of a trace can stand in for another pattern that matches none.
    Opening and reading the file are
    outside the model: the file is its sequence of lines.  `re.search` is
    the parameter `matches(pattern, line)`.  A trace is a run of lines
    ended by a line holding exactly one whitespace-separated token. */
module ValgrindScan {

  import opened Text

  /** Some pattern matches the line (the inner loop stops at the first). */
  predicate AnyMatch(matches: (string, string) -> bool, patterns: seq<string>, line: string)
  {
    exists k :: 0 <= k < |patterns| && matches(patterns[k], line)
  }

  /** `len(line.split()) == 1`: the line closes a stack trace. */
  predicate EndsTrace(line: string)
  {
    |Words(line)| == 1
  }

  /** The scan as a function: `count` is `matched_count` on reaching `lines`. */
  function Scan(matches: (string, string) -> bool, patterns: seq<string>, lines: seq<string>, count: nat): bool
  {
    if lines == [] then false
    else
      var c := count + (if AnyMatch(matches, patterns, lines[0]) then 1 else 0);
      if EndsTrace(lines[0]) then c == |patterns| || Scan(matches, patterns, lines[1..], 0)
      else Scan(matches, patterns, lines[1..], c)
  }

  /** Number of lines of `t` that some pattern matches: each line counts once. */
  function MatchCount(matches: (string, string) -> bool, patterns: seq<string>, t: seq<string>): (n: nat)
    ensures n <= |t|
  {
    if t == [] then 0
    else MatchCount(matches, patterns, t[..|t| - 1]) + (if AnyMatch(matches, patterns, t[|t| - 1]) then 1 else 0)
  }

  /** The complete stack traces of `lines`, each with its closing line, when
      the lines `cur` of an unfinished trace precede them.  Lines after the
      last closing line belong to no trace. */
  function TracesFrom(cur: seq<string>, lines: seq<string>): seq<seq<string>>
    decreases |lines|
  {
    if lines == [] then []
    else if EndsTrace(lines[0]) then [cur + [lines[0]]] + TracesFrom([], lines[1..])
    else TracesFrom(cur + [lines[0]], lines[1..])
  }

  function Traces(lines: seq<string>): seq<seq<string>>
  {
    TracesFrom([], lines)
  }

  /** Some complete trace is full: it has exactly as many matching lines as
      there are patterns. */
  predicate SomeTraceFull(matches: (string, string) -> bool, patterns: seq<string>, traces: seq<seq<string>>)
  {
    exists k :: 0 <= k < |traces| && MatchCount(matches, patterns, traces[k]) == |patterns|
  }

  /** The scan, run with the count of an unfinished trace, accepts exactly
      when a complete trace ahead, that one included, matches. */
  lemma {:induction false} ScanTraces(matches: (string, string) -> bool, patterns: seq<string>, cur: seq<string>, lines: seq<string>)
    ensures Scan(matches, patterns, lines, MatchCount(matches, patterns, cur))
        <==> SomeTraceFull(matches, patterns, TracesFrom(cur, lines))
    decreases |lines|
  {
    if lines != [] {
      var l := lines[0];
      var next := cur + [l];
      assert next[..|next| - 1] == cur;
      assert MatchCount(matches, patterns, next)
          == MatchCount(matches, patterns, cur) + (if AnyMatch(matches, patterns, l) then 1 else 0);
      if EndsTrace(l) {
        ScanTraces(matches, patterns, [], lines[1..]);
        var rest := TracesFrom([], lines[1..]);
        var all := [next] + rest;
        assert TracesFrom(cur, lines) == all;
        if SomeTraceFull(matches, patterns, rest) {
          var k :| 0 <= k < |rest| && MatchCount(matches, patterns, rest[k]) == |patterns|;
          assert all[k + 1] == rest[k];
        }
        if SomeTraceFull(matches, patterns, all) {
          var k :| 0 <= k < |all| && MatchCount(matches, patterns, all[k]) == |patterns|;
          if k > 0 {
            assert rest[k - 1] == all[k];
          }
        }
        assert all[0] == next;
      } else {
        ScanTraces(matches, patterns, next, lines[1..]);
      }
    }
  }

  /** `valgrind_check_file` is true exactly when some complete stack trace of
      the file has as many matching lines as there are patterns. */
  lemma ScanFindsTrace(matches: (string, string) -> bool, patterns: seq<string>, lines: seq<string>)
    ensures Scan(matches, patterns, lines, 0) <==> SomeTraceFull(matches, patterns, Traces(lines))
  {
    ScanTraces(matches, patterns, [], lines);
  }

  /** Since each line adds at most one to the count, a file whose traces are
      all shorter than the pattern list never matches. */
  lemma ShortTracesNeverMatch(matches: (string, string) -> bool, patterns: seq<string>, lines: seq<string>)
    requires forall k :: 0 <= k < |Traces(lines)| ==> |Traces(lines)[k]| < |patterns|
    ensures !Scan(matches, patterns, lines, 0)
  {
    ScanFindsTrace(matches, patterns, lines);
  }

  /** With no patterns the count stays 0 and equals the pattern count, so the
      first line with a single token is a match. */
  lemma {:induction false} NoPatterns(matches: (string, string) -> bool, lines: seq<string>)
    ensures Scan(matches, [], lines, 0) <==> exists i :: 0 <= i < |lines| && EndsTrace(lines[i])
  {
    if lines != [] {
      NoPatterns(matches, lines[1..]);
      if exists i :: 0 <= i < |lines| && EndsTrace(lines[i]) {
        var i :| 0 <= i < |lines| && EndsTrace(lines[i]);
        if i > 0 {
          assert EndsTrace(lines[1..][i - 1]);
        }
      }
      if exists i :: 0 <= i < |lines[1..]| && EndsTrace(lines[1..][i]) {
        var i :| 0 <= i < |lines[1..]| && EndsTrace(lines[1..][i]);
        assert EndsTrace(lines[i + 1]);
      }
    }
  }

  /** The scan counts matching lines, not matched patterns: a trace of two
      frames that pattern `p` both matches, closed by a line neither pattern
      matches, is reported for the patterns `[p, q]` even though `q`
      matches no line at all. */
  lemma {:induction false} RepeatedPatternCounts(matches: (string, string) -> bool, p: string, q: string, a: string, b: string, end: string)
    requires matches(p, a) && matches(p, b)
    requires forall l :: !matches(q, l)
    requires !matches(p, end)
    requires !EndsTrace(a) && !EndsTrace(b) && EndsTrace(end)
    ensures Scan(matches, [p, q], [a, b, end], 0)
  {
    var patterns, lines := [p, q], [a, b, end];
    assert AnyMatch(matches, patterns, a) && AnyMatch(matches, patterns, b) by {
      assert patterns[0] == p;
    }
    assert !AnyMatch(matches, patterns, end) by {
      assert patterns[0] == p && patterns[1] == q;
    }
    assert lines[1..] == [b, end] && lines[1..][1..] == [end];
  }

  /** The loop of `valgrind_check_file`, from `found = False` on. */
  method ValgrindCheckFile(matches: (string, string) -> bool, patterns: seq<string>, lines: seq<string>)
    returns (found: bool)
    ensures found == Scan(matches, patterns, lines, 0)
    ensures found <==> SomeTraceFull(matches, patterns, Traces(lines))
  {
    found := false;
    var patternCount := |patterns|;
    var matchedCount := 0;
    var i := 0;
    while i < |lines|
      invariant 0 <= i <= |lines|
      invariant Scan(matches, patterns, lines, 0) == Scan(matches, patterns, lines[i..], matchedCount)
    {
      var line := lines[i];
      ghost var before := matchedCount;
      var j := 0;
      while j < |patterns|
        invariant 0 <= j <= |patterns|
        invariant matchedCount == before
        invariant forall k :: 0 <= k < j ==> !matches(patterns[k], line)
      {
        if matches(patterns[j], line) {
          matchedCount := matchedCount + 1;
          break;
        }
        j := j + 1;
      }
      assert matchedCount == before + (if AnyMatch(matches, patterns, line) then 1 else 0);
      assert lines[i..][1..] == lines[i + 1..];
      if |Words(line)| == 1 {
        if patternCount == matchedCount {
          found := true;
          break;
        } else {
          matchedCount := 0;
        }
      }
      i := i + 1;
    }
    ScanFindsTrace(matches, patterns, lines);
  }
}

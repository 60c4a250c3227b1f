/**
 * The fuzzing engine of main.go (doFuzz): per candidate, the Result of
 * one fetch-and-classify task; the dispatch loop that numbers the
 * wordlist lines; and the loop that drains the results in arrival order.
 * The browser is an input: a navigation either fails or yields the
 * rendered HTML as a string.
 */
module Fuzz {
  import opened Wrappers
  import GoStrings
  import Fmt
  import Utils
  import Bufio

  /** A task's report, fuzz.Result in the program: the fields IsError, Path, Match, Counter, Words and Size. */
  datatype PageResult = PageResult(isError: bool, path: string, matched: bool, counter: int, words: int, size: int)

  /** filter_size, filter_words and filter_match; None is a nil slice. */
  datatype Filters = Filters(size: Option<seq<string>>, words: Option<seq<string>>, substrings: Option<seq<string>>)

  /** What page.Navigate and page.HTML gave for one target. */
  datatype Navigation = NavigationFailed | Rendered(content: string)

  /** Word count and byte size of rendered content. */
  datatype Fingerprint = Fingerprint(words: nat, size: nat)

  /** len(strings.Split(content, " ")) and len(content). */
  function FingerprintOf(content: string): (fp: Fingerprint)
    ensures fp.words == 1 + GoStrings.Occurrences(content, ' ')
    ensures fp.size == |content|
  {
    GoStrings.SplitLengthSingle(content, ' ');
    Fingerprint(|GoStrings.Split(content, " ")|, |content|)
  }

  /** Some configured substring does not occur in the content. */
  predicate SomeSubstringAbsent(content: string, strs: seq<string>) {
    exists j :: 0 <= j < |strs| && !GoStrings.Contains(content, strs[j])
  }

  /**
   * The match decision of the filter chain, as one disjunction: the size
   * filter is present and misses, or the word filter is present and
   * misses, or the substring filter is present and one of its strings is
   * absent.  Comparisons are between strings and fmt.Sprint of the count.
   */
  predicate Matches(fp: Fingerprint, content: string, f: Filters) {
    || (f.size.Some? && Fmt.Sprint(fp.size) !in f.size.value)
    || (f.words.Some? && Fmt.Sprint(fp.words) !in f.words.value)
    || (f.substrings.Some? && SomeSubstringAbsent(content, f.substrings.value))
  }

  /** One test of the chain: the filter is given and does not list the decimal rendering of the count. */
  method Misses(filter: Option<seq<string>>, n: nat) returns (miss: bool)
    ensures miss <==> filter.Some? && Fmt.Sprint(n) !in filter.value
  {
    if filter.None? {
      return false;
    }
    var listed := Utils.Contains(filter.value, Fmt.Sprint(n));
    miss := !listed;
  }

  /** The Result one task would send, given the inputs the browser supplies. */
  function TaskResult(counter: int, target: string, nav: Navigation, filters: Filters): PageResult
  {
    match nav
    case NavigationFailed => PageResult(true, target, false, counter, 0, 0)
    case Rendered(content) =>
      var fp := FingerprintOf(content);
      PageResult(false, target, Matches(fp, content, filters), counter, fp.words, fp.size)
  }

  /**
   * The goroutine of the dispatch loop: build the Result for
   * target_url + path step by step; a failed navigation reports an error
   * and skips classification.
   */
  method Fetch(counter: int, targetUrl: string, path: string, nav: Navigation, filters: Filters)
    returns (r: PageResult)
    ensures r.path == targetUrl + path && r.counter == counter
    ensures nav.NavigationFailed? ==> r.isError && !r.matched && r.words == 0 && r.size == 0
    ensures nav.Rendered? ==>
      && !r.isError
      && r.words == 1 + GoStrings.Occurrences(nav.content, ' ')
      && r.size == |nav.content|
      && (r.matched <==> Matches(FingerprintOf(nav.content), nav.content, filters))
    ensures r == TaskResult(counter, targetUrl + path, nav, filters)
  {
    var target := targetUrl + path;
    r := PageResult(false, target, false, counter, 0, 0);
    if nav.NavigationFailed? {
      r := r.(isError := true);
      return;
    }
    var content := nav.content;
    var fp := FingerprintOf(content);
    r := r.(words := fp.words, size := fp.size);

    var sizeMiss := Misses(filters.size, fp.size);
    if sizeMiss {
      r := r.(matched := true);
    } else {
      var wordsMiss := Misses(filters.words, fp.words);
      if wordsMiss {
        r := r.(matched := true);
      } else if filters.substrings.Some? {
        var strs := filters.substrings.value;
        for i := 0 to |strs|
          invariant r == PageResult(false, target, SomeSubstringAbsent(content, strs[..i]), counter, fp.words, fp.size)
        {
          assert strs[..i + 1][..i] == strs[..i] && strs[..i + 1][i] == strs[i];
          if !GoStrings.Contains(content, strs[i]) {
            r := r.(matched := true);
          }
        }
        assert strs[..|strs|] == strs;
      }
    }
  }

  // ------------------------------------------------------------ match policy

  /** With all three filters nil nothing ever matches. */
  lemma NoFilterNeverMatches(fp: Fingerprint, content: string)
    ensures !Matches(fp, content, Filters(None, None, None))
  {
  }

  /** A size hit does not settle the outcome: the word and substring filters are still consulted. */
  lemma SizeHitFallsThrough(fp: Fingerprint, content: string, f: Filters)
    requires f.size.Some? && Fmt.Sprint(fp.size) in f.size.value
    ensures Matches(fp, content, f) == Matches(fp, content, f.(size := None))
  {
  }

  /** The renderings of a list of counts. */
  function Renderings(ns: seq<nat>): (r: seq<string>)
    ensures |r| == |ns|
  {
    seq(|ns|, i requires 0 <= i < |ns| => Fmt.Sprint(ns[i]))
  }

  /** A count is listed in a filter of canonical renderings exactly when it is one of the listed counts. */
  lemma ListedIffCount(n: nat, ns: seq<nat>)
    ensures Fmt.Sprint(n) in Renderings(ns) <==> n in ns
  {
    if Fmt.Sprint(n) in Renderings(ns) {
      var i :| 0 <= i < |ns| && Renderings(ns)[i] == Fmt.Sprint(n);
      Fmt.SprintInjective(ns[i], n);
    }
    if n in ns {
      var i :| 0 <= i < |ns| && ns[i] == n;
      assert Renderings(ns)[i] == Fmt.Sprint(n);
    }
  }

  /** With only a size filter given as counts: a match exactly when the size is not one of them. */
  lemma OnlySizeFilter(fp: Fingerprint, content: string, ns: seq<nat>)
    ensures Matches(fp, content, Filters(Some(Renderings(ns)), None, None)) <==> fp.size !in ns
  {
    ListedIffCount(fp.size, ns);
  }

  /** A filter entry with a leading zero never lists a size, so such a filter alone always matches. */
  lemma LeadingZeroEntryNeverListed(fp: Fingerprint, content: string, entries: seq<string>)
    requires forall i :: 0 <= i < |entries| ==> |entries[i]| >= 2 && entries[i][0] == '0'
    ensures Matches(fp, content, Filters(Some(entries), None, None))
  {
  }

  /** With a single substring: a match exactly when the content does not contain it. */
  lemma SingleSubstring(fp: Fingerprint, content: string, x: string)
    ensures Matches(fp, content, Filters(None, None, Some([x]))) <==> !GoStrings.Contains(content, x)
  {
    if !GoStrings.Contains(content, x) {
      assert !GoStrings.Contains(content, [x][0]);
    }
  }

  /**
   * The chain is not a strict priority chain: "ab cd" has size 5 and 2
   * words; the size filter ["5"] lists it, yet the word filter ["1"] makes
   * it a match.
   */
  lemma SizeFilterDoesNotDecideAlone()
    ensures Matches(FingerprintOf("ab cd"), "ab cd", Filters(Some(["5"]), Some(["1"]), None))
    ensures !Matches(FingerprintOf("ab cd"), "ab cd", Filters(Some(["5"]), None, None))
  {
    var fp := FingerprintOf("ab cd");
    assert fp.size == 5;
    assert GoStrings.Occurrences("ab cd", ' ') == 1 by {
      assert "ab cd"[1..] == "b cd" && "b cd"[1..] == " cd" && " cd"[1..] == "cd";
      assert "cd"[1..] == "d" && "d"[1..] == "";
    }
    assert Fmt.Sprint(5) == "5";
    assert Fmt.Sprint(2) == "2";
  }

  // -------------------------------------------------------------- dispatch

  /** One goroutine's arguments: its counter and the wordlist line. */
  datatype Task = Task(counter: int, path: string)

  /** The scanner loop: each line gets the next counter, starting at 1. */
  method Dispatch(lines: seq<string>) returns (tasks: seq<Task>, currentWord: int)
    ensures currentWord == |lines| + 1
    ensures |tasks| == |lines|
    ensures forall i :: 0 <= i < |lines| ==> tasks[i] == Task(i + 1, lines[i])
  {
    tasks := [];
    currentWord := 1;
    for i := 0 to |lines|
      invariant currentWord == i + 1
      invariant |tasks| == i
      invariant forall k :: 0 <= k < i ==> tasks[k] == Task(k + 1, lines[k])
    {
      tasks := tasks + [Task(currentWord, lines[i])];
      currentWord := currentWord + 1;
    }
  }

  /** The Results the tasks send, listed in dispatch order. */
  function Results(targetUrl: string, lines: seq<string>, navs: seq<Navigation>, filters: Filters): (rs: seq<PageResult>)
    requires |navs| == |lines|
    ensures |rs| == |lines|
  {
    if lines == [] then []
    else
      var n := |lines| - 1;
      Results(targetUrl, lines[..n], navs[..n], filters) + [TaskResult(n + 1, targetUrl + lines[n], navs[n], filters)]
  }

  // ----------------------------------------------------------------- drain

  /** Results counted by n_errors: errors that are not matches. */
  function UnmatchedErrors(rs: seq<PageResult>): nat
  {
    if rs == [] then 0
    else UnmatchedErrors(rs[..|rs| - 1]) + (if rs[|rs| - 1].isError && !rs[|rs| - 1].matched then 1 else 0)
  }

  /** The paths of the matched results, in the order the results arrived. */
  function MatchedPaths(rs: seq<PageResult>): seq<string>
  {
    if rs == [] then []
    else MatchedPaths(rs[..|rs| - 1]) + (if rs[|rs| - 1].matched then [rs[|rs| - 1].path] else [])
  }

  /** The output file's lines: fmt.Sprintln(path) for each matched path. */
  function FileLines(paths: seq<string>): (lines: seq<string>)
    ensures |lines| == |paths|
  {
    seq(|paths|, i requires 0 <= i < |paths| => paths[i] + "\n")
  }

  /**
   * The drain loop: receives exactly current_word - 1 results in arrival
   * order, counts unmatched errors, reports matched paths, and appends
   * them to the output file when one is configured.  `total` is the
   * number of results received.
   */
  method Drain(currentWord: int, arrivals: seq<PageResult>, outputFile: string)
    returns (total: nat, nErrors: nat, found: seq<string>, written: seq<string>)
    requires currentWord >= 1 && |arrivals| >= currentWord - 1
    ensures total == currentWord - 1
    ensures nErrors == UnmatchedErrors(arrivals[..total])
    ensures found == MatchedPaths(arrivals[..total])
    ensures written == if outputFile != "" then FileLines(found) else []
  {
    nErrors, found, written := 0, [], [];
    var i := 1;
    while i < currentWord
      invariant 1 <= i <= currentWord
      invariant nErrors == UnmatchedErrors(arrivals[..i - 1])
      invariant found == MatchedPaths(arrivals[..i - 1])
      invariant written == if outputFile != "" then FileLines(found) else []
    {
      var r := arrivals[i - 1];
      assert arrivals[..i][..i - 1] == arrivals[..i - 1];
      if r.matched {
        found := found + [r.path];
        if outputFile != "" {
          written := written + [r.path + "\n"];
        }
      } else if r.isError {
        nErrors := nErrors + 1;
      }
      i := i + 1;
    }
    total := i - 1;
  }

  // ------------------------------------------------------- order of arrival

  /** How many elements satisfy p. */
  function CountIf<T>(xs: seq<T>, p: T -> bool): nat
  {
    if xs == [] then 0 else CountIf(xs[..|xs| - 1], p) + (if p(xs[|xs| - 1]) then 1 else 0)
  }

  lemma {:induction false} CountIfAppend<T>(xs: seq<T>, ys: seq<T>, p: T -> bool)
    ensures CountIf(xs + ys, p) == CountIf(xs, p) + CountIf(ys, p)
    decreases |ys|
  {
    if ys != [] {
      var n := |ys| - 1;
      assert (xs + ys)[..|xs + ys| - 1] == xs + ys[..n];
      CountIfAppend(xs, ys[..n], p);
    } else {
      assert xs + ys == xs;
    }
  }

  /** A count over the results does not depend on the order in which they arrive. */
  lemma {:induction false} CountIfPermutation<T>(xs: seq<T>, ys: seq<T>, p: T -> bool)
    requires multiset(xs) == multiset(ys)
    ensures CountIf(xs, p) == CountIf(ys, p)
    decreases |xs|
  {
    if xs != [] {
      var n := |xs| - 1;
      var x := xs[n];
      assert x in multiset(ys);
      var j :| 0 <= j < |ys| && ys[j] == x;
      var rest := ys[..j] + ys[j + 1..];
      assert ys == ys[..j] + [x] + ys[j + 1..];
      assert xs == xs[..n] + [x];
      assert multiset(xs) == multiset(xs[..n]) + multiset{x};
      assert multiset(ys) == multiset(ys[..j]) + multiset{x} + multiset(ys[j + 1..]);
      assert multiset(rest) == multiset(ys[..j]) + multiset(ys[j + 1..]);
      assert multiset(xs[..n]) == multiset(xs) - multiset{x};
      assert multiset(rest) == multiset(ys) - multiset{x};
      CountIfPermutation(xs[..n], rest, p);
      CountIfAppend(ys[..j], [x], p);
      CountIfAppend(ys[..j] + [x], ys[j + 1..], p);
      CountIfAppend(ys[..j], ys[j + 1..], p);
      assert CountIf([x], p) == CountIf(xs, p) - CountIf(xs[..n], p);
    } else {
      assert ys == [];
    }
  }

  predicate IsUnmatchedError(r: PageResult) { r.isError && !r.matched }

  predicate IsMatch(r: PageResult) { r.matched }

  lemma {:induction false} UnmatchedErrorsIsCount(rs: seq<PageResult>)
    ensures UnmatchedErrors(rs) == CountIf(rs, IsUnmatchedError)
  {
    if rs != [] {
      UnmatchedErrorsIsCount(rs[..|rs| - 1]);
    }
  }

  lemma {:induction false} MatchedPathsIsCount(rs: seq<PageResult>)
    ensures |MatchedPaths(rs)| == CountIf(rs, IsMatch)
  {
    if rs != [] {
      MatchedPathsIsCount(rs[..|rs| - 1]);
    }
  }

  /** The number of failed navigations. */
  function Failures(navs: seq<Navigation>): nat
  {
    if navs == [] then 0 else Failures(navs[..|navs| - 1]) + (if navs[|navs| - 1].NavigationFailed? then 1 else 0)
  }

  lemma {:induction false} ErrorsAreFailures(targetUrl: string, lines: seq<string>, navs: seq<Navigation>, filters: Filters)
    requires |navs| == |lines|
    ensures CountIf(Results(targetUrl, lines, navs, filters), IsUnmatchedError) == Failures(navs)
  {
    if lines != [] {
      var n := |lines| - 1;
      ErrorsAreFailures(targetUrl, lines[..n], navs[..n], filters);
    }
  }

  /**
   * Whatever order the results arrive in, the drain over all of them
   * counts one error per failed navigation and reports one path per
   * matched result.
   */
  lemma DrainIndependentOfArrivalOrder(
    targetUrl: string, lines: seq<string>, navs: seq<Navigation>, filters: Filters, arrivals: seq<PageResult>)
    requires |navs| == |lines|
    requires multiset(arrivals) == multiset(Results(targetUrl, lines, navs, filters))
    ensures |arrivals| == |lines|
    ensures UnmatchedErrors(arrivals) == Failures(navs)
    ensures |MatchedPaths(arrivals)| == CountIf(Results(targetUrl, lines, navs, filters), IsMatch)
  {
    var rs := Results(targetUrl, lines, navs, filters);
    assert |arrivals| == |multiset(arrivals)| == |multiset(rs)| == |rs|;
    UnmatchedErrorsIsCount(arrivals);
    CountIfPermutation(arrivals, rs, IsUnmatchedError);
    ErrorsAreFailures(targetUrl, lines, navs, filters);
    MatchedPathsIsCount(arrivals);
    CountIfPermutation(arrivals, rs, IsMatch);
  }

  // ------------------------------------------------------------ run summary

  /**
   * As written, the summary announces n_words = CountLines(wordlist) URLs.
   * For a wordlist that ends in '\n' (or is empty) that is one more than
   * the lines the scanner yields, e.g. "admin\nlogin\n" announces 3 for 2.
   */
  lemma AnnouncedTotalOvercounts(calls: seq<Utils.Chunk>)
    requires Utils.Finishes(calls) && calls[Utils.FirstStop(calls)].status.Eof?
    requires var d := Utils.Delivered(calls); d == [] || d[|d| - 1] == '\n'
    ensures 1 + GoStrings.Occurrences(Utils.Delivered(calls), '\n') == |Bufio.ScanLines(Utils.Delivered(calls))| + 1
  {
    Bufio.ScanLinesCount(Utils.Delivered(calls));
  }

  /** The concrete wordlist from the comment above. */
  lemma AnnouncedTotalExample()
    ensures 1 + GoStrings.Occurrences("admin\nlogin\n", '\n') == 3
    ensures |Bufio.ScanLines("admin\nlogin\n")| == 2
  {
    Bufio.ScanLinesCount("admin\nlogin\n");
    assert "admin\nlogin\n"[1..] == "dmin\nlogin\n";
    assert "dmin\nlogin\n"[1..] == "min\nlogin\n";
    assert "min\nlogin\n"[1..] == "in\nlogin\n";
    assert "in\nlogin\n"[1..] == "n\nlogin\n";
    assert "n\nlogin\n"[1..] == "\nlogin\n";
    assert "\nlogin\n"[1..] == "login\n";
    assert "login\n"[1..] == "ogin\n";
    assert "ogin\n"[1..] == "gin\n";
    assert "gin\n"[1..] == "in\n";
    assert "in\n"[1..] == "n\n";
    assert "n\n"[1..] == "\n";
    assert "\n"[1..] == "";
  }

  /**
   * The run summary with the count it evidently means: the number of
   * results drained, which is the number of lines the scanner yielded.
   */
  method Summary(data: string, arrivals: seq<PageResult>, outputFile: string) returns (announced: nat, nErrors: nat)
    requires |arrivals| >= |Bufio.ScanLines(data)|
    ensures announced == |Bufio.ScanLines(data)|
    ensures announced == GoStrings.Occurrences(data, '\n') + (if data != [] && data[|data| - 1] != '\n' then 1 else 0)
    ensures nErrors == UnmatchedErrors(arrivals[..announced])
  {
    var lines := Bufio.ScanLines(data);
    var tasks, currentWord := Dispatch(lines);
    var found, written;
    announced, nErrors, found, written := Drain(currentWord, arrivals, outputFile);
    Bufio.ScanLinesCount(data);
  }
}

# LunarFuzz decision logic in Dafny

LunarFuzz is a headless-browser content-discovery fuzzer. For each line of a
wordlist it opens `target_url + line` in a browser tab and fingerprints the
rendered HTML by word count and byte size. It then classifies the page against
three optional filters: size, words and substrings. A "match" is reported as a
finding. With no filter given, the tool first autocalibrates: it loads a random
non-existent path and installs that page's word count as the only word filter.

This project models the deterministic part of that program and proves
properties of it:

- `Wrappers`: `Option` (a Go nil slice is `None`) and `Result` (fatal exits
  and panics are `Err`).
- `GoStrings`: the parts of Go's `strings` package the program relies on.
  This covers `Contains`, `HasPrefix`, `HasSuffix`, `Index`, `Split` with a
  non-empty separator, `Join` and `Count`, with the `Split`/`Join` round trips
  proved. A Go string is a `string` whose chars stand for bytes, so `len(s)` is
  `|s|`.
- `Fmt`: `fmt.Sprint` of a non-negative int, a decimal rendering. `Value`
  reads it back, so renderings are injective and never have leading zeros.
- `Bufio`: the lines `bufio.Scanner` with `ScanLines` yields for a wordlist.
- `Utils` (`utils/utils.go`):
  - `CountLines` is a loop over a reader, given as the sequence of results of
    its `Read` calls.
  - `Contains` is a loop with an early return.
  - `SplitOrNil`.
- `Driver` (`driver/headers.go`, `driver/cookies.go`): the two list-building
  parsers and their round trips.
- `Fuzz` (`doFuzz` in `main.go`):
  - the per-candidate task, `Fetch`, which builds the `PageResult` (the
    program's `fuzz.Result`) field by field
    through the `if / else if / else if` chain and the substring loop;
  - the dispatch numbering;
  - the drain loop over results in arrival order;
  - the facts that the drain's counts do not depend on that order.
- `Startup` (`main` and `calibrate` in `main.go`):
  - the scheme check and URL normalisation;
  - the filter flags;
  - the autocalibration decision and the filter it installs;
  - the order in which startup can fail.

The browser is an input. A navigation is `NavigationFailed` or
`Rendered(content)`, where `content` is whatever `page.HTML()` returned.

Where the program and its documentation disagree, the model follows the
program:

- The filter chain is not a strict priority chain. A size filter that lists the
  size hands the decision to the word filter and then to the substring filter
  (`Fuzz.SizeHitFallsThrough`, `Fuzz.SizeFilterDoesNotDecideAlone`).
- The substring branch reports a match when any configured string is absent,
  not only when all of them are.
- The word count is `len(strings.Split(content, " "))`, which is one more than
  the number of spaces. Empty content therefore has one word.
- The help text of `-no-ac` says every URL is then reported as a finding. In
  fact, with no filters at all nothing matches: `Fuzz.NoFilterNeverMatches`
  and `Startup.NoCalibrationNoFilterNeverMatches`.

## Model

| member | source | states |
|---|---|---|
| Fuzz.FingerprintOf | main.go:113-114 | the word count is 1 plus the number of spaces in the content (so empty content has 1 word) and the size is the content's byte length |
| Fuzz.Misses | main.go:116-118 | one filter test is true exactly when the filter is present and the decimal rendering of the count is not among its entries |
| Fuzz.Fetch | main.go:85-137 | the Result has path target_url + path and the task's counter; a failed navigation gives IsError, no match and Words = Size = 0 with no classification; a rendered page gives no error, the fingerprint's words and size, and Match exactly when one of the three filter branches fires; the result is the task's Result as a function of its inputs |
| Fuzz.NoFilterNeverMatches | main.go:92-126 | with all three filters nil no page ever matches |
| Fuzz.SizeHitFallsThrough | main.go:116-126 | when the size filter lists the page's size, the outcome is what the word and substring filters alone decide |
| Fuzz.ListedIffCount | main.go:116-118 | a count's rendering is in a list of renderings exactly when the count is one of the listed counts (both directions) |
| Fuzz.OnlySizeFilter | main.go:116 | with only a size filter, a page matches exactly when its size is not one of the listed sizes |
| Fuzz.LeadingZeroEntryNeverListed | main.go:116 | a size filter made only of entries with a leading zero (such as "050") lists no size, so every page matches |
| Fuzz.SingleSubstring | main.go:120-126 | with a single substring filter, a page matches exactly when its content does not contain the string |
| Fuzz.SizeFilterDoesNotDecideAlone | main.go:116-119 | "ab cd" (size 5, 2 words) is listed by size filter ["5"] and does not match on it alone, yet matches once word filter ["1"] is added |
| Fuzz.Dispatch | main.go:64-140 | the scanner loop gives line i the counter i + 1 and leaves current_word at the number of lines plus one |
| Fuzz.Drain | main.go:157-170 | the loop receives exactly current_word - 1 results; n_errors is the number of received results that are errors and not matches; the found paths are the matched paths in arrival order; the output file receives each of them followed by a newline when a file is configured, and nothing otherwise |
| Fuzz.CountIfPermutation | main.go:157-170 | a count over the results is the same for any arrival order (any permutation) |
| Fuzz.ErrorsAreFailures | main.go:102-106 | among the Results of dispatched tasks, the unmatched errors are exactly the failed navigations |
| Fuzz.DrainIndependentOfArrivalOrder | main.go:157-170 | for any arrival order of the dispatched tasks' Results, the drain counts one error per failed navigation and reports one path per matched result |
| Fuzz.AnnouncedTotalOvercounts | main.go:174 | for a wordlist that is empty or ends in a newline, the announced n_words is one more than the number of lines scanned |
| Fuzz.AnnouncedTotalExample | main.go:174 | the wordlist "admin\nlogin\n" is announced as 3 URLs but yields 2 lines |
| Fuzz.Summary | main.go:82-174 | the corrected announced total equals the number of lines the scanner yields (the newlines, plus one for an unterminated last line), and the error count is that of the drain |
| Startup.Normalise | main.go:206-208 | the normalised URL ends with "/", extends the given URL by at most one character, and is unchanged when the URL already ends with "/" |
| Startup.NormaliseIdempotent | main.go:206-208 | normalising twice is the same as normalising once |
| Startup.CheckUrl | main.go:202-208 | a URL is rejected exactly when it starts with neither http:// nor https://; an accepted URL becomes its normalised form (one "/" appended exactly when missing), so it keeps its scheme, ends with "/" and starts with the given URL |
| Startup.FlagFilters | main.go:210-212 | each filter is nil exactly when its flag is empty |
| Startup.Calibrate | main.go:27-53 | calibration fails exactly when the probe page cannot be opened or, outside fast mode, fails to load (both are the probe's NavigationFailed); otherwise it yields the single renderings of the probe page's byte size and of 1 plus its number of spaces |
| Startup.CalibratedFilters | main.go:234-235 | without autocalibration the filters are kept; with it, the step fails exactly when the probe page cannot be opened or loaded, and otherwise replaces only the word filter, by the single rendering of 1 plus the probe page's number of spaces |
| Startup.AutocalibrateFromFlags | main.go:214-219 | autocalibration runs exactly when -no-ac is unset and the -fs, -fw and -fm flags are all empty |
| Startup.Session | main.go:229-231 | the header flag is parsed first and the cookie flag second; startup stops at the first malformed one, with its own error, and otherwise yields both parsed lists |
| Startup.Configure | main.go:202-241 | startup fails exactly when the scheme is wrong, a header entry or a cookie entry lacks its separator, or calibration is due and its probe page cannot be opened or loaded; a wrong scheme is reported first; on success the target is the normalised URL, the headers and cookies are the parsed lists, and the filters are the flags' filters, or, when autocalibrating, only the word filter holding the probe page's word count |
| Startup.CalibratedMatchIffWordsDiffer | main.go:234-235 | after autocalibration a page matches exactly when its word count differs from the probe page's |
| Startup.NoCalibrationNoFilterNeverMatches | main.go:214-219 | with -no-ac and no filter flags, the configured filters never match any page |
| Startup.AutocalibrationInstallsOnlyWords | main.go:214-235 | without -no-ac and with no filter flags, the size and substring filters stay nil and the word filter has exactly one entry |
| Utils.CountLines | utils/utils.go:9-26 | the count is 1 plus the number of newline bytes delivered up to the call that ends the loop, however the reader splits them into reads; an io.EOF ending gives no error; another error is returned together with the count including the failing call's bytes |
| Utils.Contains | utils/utils.go:28-35 | true exactly when the string is an element of the list (false for an empty or nil list) |
| Utils.SplitOrNil | utils/utils.go:37-43 | nil exactly for the empty string; otherwise a list that joins back to the string with the separator and has one more element than the non-overlapping occurrences of the separator |
| GoStrings.Index | utils/utils.go:42 | the first position where the separator occurs, or -1 exactly when it does not occur |
| GoStrings.Split | utils/utils.go:42 | at least one part; two or more exactly when the separator occurs; the whole string when it does not; the first part is the text before the first occurrence |
| GoStrings.JoinSplit | utils/utils.go:42 | joining the parts of a split with its separator gives back the string |
| GoStrings.SplitLength | utils/utils.go:42 | a split has one more part than the non-overlapping occurrences of the separator |
| GoStrings.SplitLengthSingle | main.go:113 | splitting on a one-byte separator gives one more part than the occurrences of that byte |
| GoStrings.SplitJoin | driver/headers.go:14 | splitting a join of parts free of an unbordered separator gives back the parts |
| Fmt.Sprint | main.go:116-118 | the rendering is a non-empty string of decimal digits whose first digit is 0 only for the number 0 |
| Fmt.ValueOfSprint | main.go:116-118 | reading a rendering back as decimal gives the number |
| Fmt.SprintInjective | main.go:116-118 | two numbers have the same rendering exactly when they are equal |
| Fmt.LeadingZeroNeverRendered | main.go:116-118 | a string of two or more characters starting with 0 is the rendering of no number |
| Bufio.ScanLinesCount | main.go:74-83 | the scanner yields one line per newline, plus one for a non-empty unterminated last line |
| Bufio.ScanLinesRoundTrip | main.go:74-83 | a wordlist whose lines hold no newline and do not end in a carriage return, each ended by "\n" or each by "\r\n", is scanned back into exactly those lines (the terminator and one trailing carriage return are dropped, and there is no empty last line) |
| Driver.SeparatorsUnbordered | driver/headers.go:14-15 | none of "; ", ": " and "=" has a proper prefix that is also a suffix |
| Driver.ParseHeaders | driver/headers.go:7-22 | for headers whose every entry contains ": ": the empty string gives the empty list; otherwise the list has two elements per "; "-separated entry, with entry k's name at position 2k and its value (the text between its first and second ": ") at 2k + 1, in input order |
| Driver.HeaderEntryParts | driver/headers.go:15-18 | a "name: value" entry built from plain parts contains ": ", contains no "; ", and parses back to [name, value] |
| Driver.HeadersRoundTrip | driver/headers.go:14-19 | for names and values free of "; " and ": ", parsing the joined "name: value" entries gives the interleaved name/value list |
| Driver.HeaderValueStopsAtSecondSeparator | driver/headers.go:15-18 | in an entry with a second ": ", the value is only the text between the first and the second, and the rest is dropped |
| Driver.ParseCookies | driver/cookies.go:9-25 | for cookies whose every entry contains "=": the empty string gives the empty list; otherwise one cookie per "; "-separated entry in input order, named by the text before the first "=" and valued by the text between the first and second "=" |
| Driver.CookieEntryParts | driver/cookies.go:17-21 | a "name=value" entry built from plain parts contains "=", contains no "; ", and parses back to the cookie |
| Driver.CookiesRoundTrip | driver/cookies.go:16-22 | for names and values free of "=" and "; ", parsing the joined "name=value" entries gives back the cookies |
| Driver.CookieValueStopsAtSecondSeparator | driver/cookies.go:17-21 | "a=b=c" style entries: the value is only the text between the first and second "=" |

## Left out

- Goroutines, `goccm` and the unbuffered result channel are concurrency. They
  are modelled by `Fuzz.Drain` taking any arrival sequence, and by
  `Fuzz.DrainIndependentOfArrivalOrder`, which proves that the counts do not
  depend on it.
- The `rod` browser calls (`Page`, `Navigate`, `WaitLoad`, `HTML`,
  `SetExtraHeaders`, `MustSetCookies`, `Screenshot`) and
  `driver/browser.go`'s `MustConnect` are foreign calls. A navigation's
  outcome and its HTML are inputs. The error of `page.HTML()` is ignored by
  the program, so it is the same as rendering whatever string came back.
  Outside fast mode, `calibrate` calls `MustWaitLoad`, which panics when the
  probe page fails to load; that panic is folded into the probe's
  `NavigationFailed`, like a failing `browser.Page`. In the per-URL task,
  `WaitLoad`'s error is ignored, so fast mode changes nothing there.
- The probe URL of `calibrate` is `target_url` plus `utils.RandStr(10)`.
  `RandStr` is randomness and is not part of this model. The probe page's
  outcome is the input `probe` of `Startup.Configure`.
- The console output (`logger/logger.go`, the status line, the spinner, the
  banner) and `flag` parsing are not modelled; the flags are parameters of
  `Startup.Configure`.
- File-system effects are not modelled. This covers opening and seeking the
  wordlist, `MkdirAll` for screenshots, writing the screenshots, opening the
  output file and appending to it. Their failures would end the run, and the
  model does not represent them. Two such exits sit beside modelled code:
  the `log.Fatal` when `CountLines` returns a read error (main.go:66-68; the
  error itself is `Utils.CountLines`'s `err`), and the `panic` when
  `WriteString` to the output file fails (main.go:162-164; `Fuzz.Drain`
  assumes every write succeeds). The output file's appended lines are the `written` result of
  `Fuzz.Drain`.
- Bufio.ScanLines: the scanner's 64 KiB token limit and `scanner.Err()` are
  not modelled; every wordlist line is assumed to fit.
- Utils.CountLines: requires that the reader eventually reports io.EOF or an
  error, because the Go loop never returns on a reader that does neither.
- GoStrings.Split: only the non-empty separator is modelled, the only kind
  the program passes.
- Fmt.Sprint: only non-negative numbers are modelled; the program renders
  only lengths.
- Fuzz.Summary: the elapsed time and the rest of the summary line are left
  out; only the announced count and the error count are modelled.

## Findings

| source | as written | input that shows it | evidently intended | confidence | as-written member | corrected member |
|---|---|---|---|---|---|---|
| main.go:174 | the run announces `n_words = CountLines(wordlist)` URLs, which is 1 plus the number of newlines | the wordlist "admin\nlogin\n" is announced as 3 URLs, but the scanner yields 2 lines and 2 results are drained | the number of URLs fuzzed, `current_word - 1` | high, not executed | Fuzz.AnnouncedTotalOvercounts | Fuzz.Summary |

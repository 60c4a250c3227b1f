/**
 * driver/headers.go and driver/cookies.go: the -H and -b flag strings
 * parsed into what the browser session is configured with.  Entries are
 * separated by "; "; a header entry is "Name: Value", a cookie entry
 * "name=value".
 */
module Driver {
  import GoStrings

  const EntrySep: string := "; "
  const HeaderSep: string := ": "
  const CookieSep: string := "="

  lemma SeparatorsUnbordered()
    ensures GoStrings.Unbordered(EntrySep) && GoStrings.Unbordered(HeaderSep) && GoStrings.Unbordered(CookieSep)
  {
    assert EntrySep[..1] == [';'] && EntrySep[1..] == [' '];
    assert HeaderSep[..1] == [':'] && HeaderSep[1..] == [' '];
  }

  // ---------------------------------------------------------------- headers

  /** Every "; "-entry of a non-empty -H flag has ": " in it, so header[1] exists. */
  predicate HeadersWellFormed(headers: string) {
    headers == "" ||
    forall k :: 0 <= k < |GoStrings.Split(headers, EntrySep)| ==>
      GoStrings.Contains(GoStrings.Split(headers, EntrySep)[k], HeaderSep)
  }

  /** header[0] and header[1] of one entry, where header = strings.Split(entry, ": "). */
  function HeaderFields(entry: string): (r: seq<string>)
    requires GoStrings.Contains(entry, HeaderSep)
    ensures |r| == 2
  {
    var header := GoStrings.Split(entry, HeaderSep);
    [header[0], header[1]]
  }

  /** The list appended to, entry by entry. */
  function HeaderFieldsOf(entries: seq<string>): seq<string>
    requires forall k :: 0 <= k < |entries| ==> GoStrings.Contains(entries[k], HeaderSep)
  {
    if entries == [] then []
    else HeaderFieldsOf(entries[..|entries| - 1]) + HeaderFields(entries[|entries| - 1])
  }

  /** What ParseHeaders returns for a well-formed flag. */
  function HeaderList(headers: string): seq<string>
    requires HeadersWellFormed(headers)
  {
    if headers == "" then [] else HeaderFieldsOf(GoStrings.Split(headers, EntrySep))
  }

  /**
   * ParseHeaders: names at even positions and values at odd positions,
   * two per entry, in input order; the empty flag gives the empty list.
   */
  method ParseHeaders(headers: string) returns (r: seq<string>)
    requires HeadersWellFormed(headers)
    ensures headers == "" ==> r == []
    ensures headers != "" ==>
      var entries := GoStrings.Split(headers, EntrySep);
      |r| == 2 * |entries| &&
      forall k :: 0 <= k < |entries| ==>
        r[2 * k] == GoStrings.Split(entries[k], HeaderSep)[0] &&
        r[2 * k + 1] == GoStrings.Split(entries[k], HeaderSep)[1]
    ensures r == HeaderList(headers)
  {
    r := [];
    if headers == "" {
      return;
    }
    var entries := GoStrings.Split(headers, EntrySep);
    assert forall k :: 0 <= k < |entries| ==> GoStrings.Contains(entries[k], HeaderSep);
    for i := 0 to |entries|
      invariant r == HeaderFieldsOf(entries[..i])
    {
      var header := GoStrings.Split(entries[i], HeaderSep);
      assert entries[..i + 1][..i] == entries[..i];
      r := r + [header[0]];
      r := r + [header[1]];
    }
    assert entries[..|entries|] == entries;
    HeaderFieldsOfAt(entries);
  }

  /** Entry k of the flag supplies positions 2k and 2k+1. */
  lemma {:induction false} HeaderFieldsOfAt(entries: seq<string>)
    requires forall k :: 0 <= k < |entries| ==> GoStrings.Contains(entries[k], HeaderSep)
    ensures |HeaderFieldsOf(entries)| == 2 * |entries|
    ensures forall k :: 0 <= k < |entries| ==>
      HeaderFieldsOf(entries)[2 * k] == GoStrings.Split(entries[k], HeaderSep)[0] &&
      HeaderFieldsOf(entries)[2 * k + 1] == GoStrings.Split(entries[k], HeaderSep)[1]
  {
    if entries != [] {
      var n := |entries| - 1;
      HeaderFieldsOfAt(entries[..n]);
      assert forall k :: 0 <= k < n ==> entries[..n][k] == entries[k];
    }
  }

  /** "Name: Value" */
  function HeaderEntry(name: string, value: string): string
  {
    name + HeaderSep + value
  }

  /** The -H flag that a list of (name, value) pairs is written as. */
  function HeaderFlag(pairs: seq<(string, string)>): string
  {
    GoStrings.Join(seq(|pairs|, k requires 0 <= k < |pairs| => HeaderEntry(pairs[k].0, pairs[k].1)), EntrySep)
  }

  /** [name0, value0, name1, value1, ...] */
  function Interleave(pairs: seq<(string, string)>): seq<string>
  {
    if pairs == [] then []
    else Interleave(pairs[..|pairs| - 1]) + [pairs[|pairs| - 1].0, pairs[|pairs| - 1].1]
  }

  /** Text in which neither separator occurs. */
  predicate HeaderPlain(x: string) {
    !GoStrings.Contains(x, EntrySep) && !GoStrings.Contains(x, HeaderSep)
  }

  /** An entry built from plain text splits back into its name and value and has no "; " in it. */
  lemma HeaderEntryParts(name: string, value: string)
    requires HeaderPlain(name) && HeaderPlain(value)
    ensures !GoStrings.Contains(HeaderEntry(name, value), EntrySep)
    ensures GoStrings.Contains(HeaderEntry(name, value), HeaderSep)
    ensures HeaderFields(HeaderEntry(name, value)) == [name, value]
  {
    SeparatorsUnbordered();
    assert !GoStrings.Contains(HeaderSep, EntrySep) by {
      assert HeaderSep[0..2][0] == ':' != EntrySep[0];
      assert !GoStrings.OccursAt(HeaderSep, EntrySep, 0);
    }
    GoStrings.ConcatFree(HeaderSep, value, EntrySep);
    GoStrings.ConcatFree(name, HeaderSep + value, EntrySep);
    assert name + (HeaderSep + value) == HeaderEntry(name, value);
    assert GoStrings.Join([name, value], HeaderSep) == HeaderEntry(name, value);
    GoStrings.SplitJoin([name, value], HeaderSep);
  }

  lemma {:induction false} HeaderFieldsOfEntries(pairs: seq<(string, string)>, entries: seq<string>)
    requires |entries| == |pairs|
    requires forall k :: 0 <= k < |pairs| ==>
      HeaderPlain(pairs[k].0) && HeaderPlain(pairs[k].1) && entries[k] == HeaderEntry(pairs[k].0, pairs[k].1)
    ensures forall k :: 0 <= k < |entries| ==> GoStrings.Contains(entries[k], HeaderSep)
    ensures HeaderFieldsOf(entries) == Interleave(pairs)
  {
    forall k | 0 <= k < |entries| ensures GoStrings.Contains(entries[k], HeaderSep) {
      HeaderEntryParts(pairs[k].0, pairs[k].1);
    }
    if pairs != [] {
      var n := |pairs| - 1;
      assert forall k | 0 <= k < n :: pairs[..n][k] == pairs[k] && entries[..n][k] == entries[k];
      HeaderFieldsOfEntries(pairs[..n], entries[..n]);
      HeaderEntryParts(pairs[n].0, pairs[n].1);
    }
  }

  /**
   * Round trip: for names and values free of "; " and ": ", the flag
   * written from the pairs parses back into the interleaved list.
   */
  lemma HeadersRoundTrip(pairs: seq<(string, string)>)
    requires forall k :: 0 <= k < |pairs| ==> HeaderPlain(pairs[k].0) && HeaderPlain(pairs[k].1)
    ensures HeadersWellFormed(HeaderFlag(pairs))
    ensures HeaderList(HeaderFlag(pairs)) == Interleave(pairs)
  {
    var entries := seq(|pairs|, k requires 0 <= k < |pairs| => HeaderEntry(pairs[k].0, pairs[k].1));
    var flag := HeaderFlag(pairs);
    assert flag == GoStrings.Join(entries, EntrySep);
    HeaderFieldsOfEntries(pairs, entries);
    if pairs != [] {
      SeparatorsUnbordered();
      forall k | 0 <= k < |entries| ensures !GoStrings.Contains(entries[k], EntrySep) {
        HeaderEntryParts(pairs[k].0, pairs[k].1);
      }
      GoStrings.SplitJoin(entries, EntrySep);
      GoStrings.JoinStartsWith(entries, EntrySep);
      assert |entries[0]| >= 2;
      assert flag != "";
    }
  }

  /** Only the text between the first and second ": " of an entry is taken as its value. */
  lemma HeaderValueStopsAtSecondSeparator(name: string, value: string, rest: string)
    requires !GoStrings.Contains(name, HeaderSep) && !GoStrings.Contains(value, HeaderSep)
    ensures GoStrings.Contains(name + HeaderSep + value + HeaderSep + rest, HeaderSep)
    ensures HeaderFields(name + HeaderSep + value + HeaderSep + rest) == [name, value]
  {
    SeparatorsUnbordered();
    var tail := value + HeaderSep + rest;
    assert name + HeaderSep + value + HeaderSep + rest == name + HeaderSep + tail;
    GoStrings.IndexPastFree(name, HeaderSep, tail);
    GoStrings.IndexPastFree(value, HeaderSep, rest);
    var e := name + HeaderSep + tail;
    assert e[..|name|] == name;
    assert e[|name| + |HeaderSep|..] == tail;
    assert tail[..|value|] == value;
  }

  // ---------------------------------------------------------------- cookies

  /** proto.NetworkCookie, reduced to the two fields ParseCookies sets. */
  datatype Cookie = Cookie(name: string, value: string)

  /** Every "; "-entry of a non-empty -b flag has "=" in it, so ck[1] exists. */
  predicate CookiesWellFormed(cookies: string) {
    cookies == "" ||
    forall k :: 0 <= k < |GoStrings.Split(cookies, EntrySep)| ==>
      GoStrings.Contains(GoStrings.Split(cookies, EntrySep)[k], CookieSep)
  }

  /** The cookie of one entry: ck[0] and ck[1] of ck = strings.Split(entry, "="). */
  function CookieOf(entry: string): Cookie
    requires GoStrings.Contains(entry, CookieSep)
  {
    var ck := GoStrings.Split(entry, CookieSep);
    Cookie(ck[0], ck[1])
  }

  function CookiesOf(entries: seq<string>): (r: seq<Cookie>)
    requires forall k :: 0 <= k < |entries| ==> GoStrings.Contains(entries[k], CookieSep)
    ensures |r| == |entries|
  {
    if entries == [] then []
    else CookiesOf(entries[..|entries| - 1]) + [CookieOf(entries[|entries| - 1])]
  }

  /** What ParseCookies returns for a well-formed flag. */
  function CookieList(cookies: string): seq<Cookie>
    requires CookiesWellFormed(cookies)
  {
    if cookies == "" then [] else CookiesOf(GoStrings.Split(cookies, EntrySep))
  }

  /** ParseCookies: one cookie per entry, in input order; the empty flag gives the empty list. */
  method ParseCookies(cookies: string) returns (r: seq<Cookie>)
    requires CookiesWellFormed(cookies)
    ensures cookies == "" ==> r == []
    ensures cookies != "" ==>
      var entries := GoStrings.Split(cookies, EntrySep);
      |r| == |entries| &&
      forall k :: 0 <= k < |entries| ==>
        r[k].name == GoStrings.Split(entries[k], CookieSep)[0] &&
        r[k].value == GoStrings.Split(entries[k], CookieSep)[1]
    ensures r == CookieList(cookies)
  {
    r := [];
    if cookies == "" {
      return;
    }
    var entries := GoStrings.Split(cookies, EntrySep);
    assert forall k :: 0 <= k < |entries| ==> GoStrings.Contains(entries[k], CookieSep);
    for i := 0 to |entries|
      invariant r == CookiesOf(entries[..i])
    {
      var ck := GoStrings.Split(entries[i], CookieSep);
      assert entries[..i + 1][..i] == entries[..i];
      r := r + [Cookie(ck[0], ck[1])];
    }
    assert entries[..|entries|] == entries;
    CookiesOfAt(entries);
  }

  /** Entry k of the flag supplies cookie k. */
  lemma {:induction false} CookiesOfAt(entries: seq<string>)
    requires forall k :: 0 <= k < |entries| ==> GoStrings.Contains(entries[k], CookieSep)
    ensures forall k :: 0 <= k < |entries| ==>
      CookiesOf(entries)[k].name == GoStrings.Split(entries[k], CookieSep)[0] &&
      CookiesOf(entries)[k].value == GoStrings.Split(entries[k], CookieSep)[1]
  {
    if entries != [] {
      var n := |entries| - 1;
      CookiesOfAt(entries[..n]);
      assert forall k :: 0 <= k < n ==> entries[..n][k] == entries[k];
    }
  }

  /** "name=value" */
  function CookieEntry(c: Cookie): string
  {
    c.name + CookieSep + c.value
  }

  /** The -b flag that a list of cookies is written as. */
  function CookieFlag(cs: seq<Cookie>): string
  {
    GoStrings.Join(seq(|cs|, k requires 0 <= k < |cs| => CookieEntry(cs[k])), EntrySep)
  }

  predicate CookiePlain(x: string) {
    !GoStrings.Contains(x, EntrySep) && !GoStrings.Contains(x, CookieSep)
  }

  lemma CookieEntryParts(c: Cookie)
    requires CookiePlain(c.name) && CookiePlain(c.value)
    ensures !GoStrings.Contains(CookieEntry(c), EntrySep)
    ensures GoStrings.Contains(CookieEntry(c), CookieSep)
    ensures CookieOf(CookieEntry(c)) == c
  {
    SeparatorsUnbordered();
    assert !GoStrings.Contains(CookieSep, EntrySep);
    GoStrings.ConcatFree(CookieSep, c.value, EntrySep);
    GoStrings.ConcatFree(c.name, CookieSep + c.value, EntrySep);
    assert c.name + (CookieSep + c.value) == CookieEntry(c);
    assert GoStrings.Join([c.name, c.value], CookieSep) == CookieEntry(c);
    GoStrings.SplitJoin([c.name, c.value], CookieSep);
  }

  lemma {:induction false} CookiesOfEntries(cs: seq<Cookie>, entries: seq<string>)
    requires |entries| == |cs|
    requires forall k :: 0 <= k < |cs| ==>
      CookiePlain(cs[k].name) && CookiePlain(cs[k].value) && entries[k] == CookieEntry(cs[k])
    ensures forall k :: 0 <= k < |entries| ==> GoStrings.Contains(entries[k], CookieSep)
    ensures CookiesOf(entries) == cs
  {
    forall k | 0 <= k < |entries| ensures GoStrings.Contains(entries[k], CookieSep) {
      CookieEntryParts(cs[k]);
    }
    if cs != [] {
      var n := |cs| - 1;
      var front, frontEntries := cs[..n], entries[..n];
      forall k | 0 <= k < n
        ensures CookiePlain(front[k].name) && CookiePlain(front[k].value) && frontEntries[k] == CookieEntry(front[k])
      {
        assert front[k] == cs[k] && frontEntries[k] == entries[k];
      }
      CookiesOfEntries(front, frontEntries);
      CookieEntryParts(cs[n]);
      assert CookiesOf(entries) == CookiesOf(frontEntries) + [CookieOf(entries[n])];
      assert cs == front + [cs[n]];
    }
  }

  /** Round trip: for names and values free of "=" and "; ", the written flag parses back into the cookies. */
  lemma CookiesRoundTrip(cs: seq<Cookie>)
    requires forall k :: 0 <= k < |cs| ==> CookiePlain(cs[k].name) && CookiePlain(cs[k].value)
    ensures CookiesWellFormed(CookieFlag(cs))
    ensures CookieList(CookieFlag(cs)) == cs
  {
    var entries := seq(|cs|, k requires 0 <= k < |cs| => CookieEntry(cs[k]));
    var flag := CookieFlag(cs);
    assert flag == GoStrings.Join(entries, EntrySep);
    CookiesOfEntries(cs, entries);
    if cs != [] {
      SeparatorsUnbordered();
      forall k | 0 <= k < |entries| ensures !GoStrings.Contains(entries[k], EntrySep) {
        CookieEntryParts(cs[k]);
      }
      GoStrings.SplitJoin(entries, EntrySep);
      GoStrings.JoinStartsWith(entries, EntrySep);
      assert |entries[0]| >= 1;
      assert flag != "";
    }
  }

  /** Only the text between the first and second "=" is the value: "a=b=c" gives value "b". */
  lemma CookieValueStopsAtSecondSeparator(name: string, value: string, rest: string)
    requires !GoStrings.Contains(name, CookieSep) && !GoStrings.Contains(value, CookieSep)
    ensures GoStrings.Contains(name + CookieSep + value + CookieSep + rest, CookieSep)
    ensures CookieOf(name + CookieSep + value + CookieSep + rest) == Cookie(name, value)
  {
    SeparatorsUnbordered();
    var tail := value + CookieSep + rest;
    assert name + CookieSep + value + CookieSep + rest == name + CookieSep + tail;
    GoStrings.IndexPastFree(name, CookieSep, tail);
    GoStrings.IndexPastFree(value, CookieSep, rest);
    var e := name + CookieSep + tail;
    assert e[..|name|] == name;
    assert e[|name| + |CookieSep|..] == tail;
    assert tail[..|value|] == value;
  }
}

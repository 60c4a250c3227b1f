/** utils/utils.go: counting wordlist lines, slice membership, optional comma lists. */
module Utils {
  import opened Wrappers
  import GoStrings

  /** Size of the buffer CountLines hands to each Read call. */
  const BufferSize: nat := 32 * 1024

  /** What one call r.Read(buf) reported besides the bytes: nothing, io.EOF, or another error. */
  datatype ReadStatus = More | Eof | Failed(message: string)

  /** One call r.Read(buf): the bytes it put in buf[:c], and its error. */
  datatype Chunk = Chunk(data: string, status: ReadStatus)

  /** The reader eventually reports io.EOF or an error (otherwise CountLines never returns). */
  predicate Finishes(calls: seq<Chunk>) {
    exists i :: 0 <= i < |calls| && !calls[i].status.More?
  }

  /** Index of the Read call whose error ends the loop. */
  function FirstStop(calls: seq<Chunk>): (k: nat)
    requires Finishes(calls)
    ensures k < |calls| && !calls[k].status.More?
    ensures forall j :: 0 <= j < k ==> calls[j].status.More?
  {
    if !calls[0].status.More? then 0
    else
      assert Finishes(calls[1..]) by {
        var i :| 0 <= i < |calls| && !calls[i].status.More?;
        assert calls[1..][i - 1] == calls[i];
      }
      1 + FirstStop(calls[1..])
  }

  /** All bytes delivered by a sequence of Read calls, in order. */
  function Flatten(calls: seq<Chunk>): string
  {
    if calls == [] then "" else Flatten(calls[..|calls| - 1]) + calls[|calls| - 1].data
  }

  /** The bytes CountLines sees: everything up to and including the Read call that ends the loop. */
  function Delivered(calls: seq<Chunk>): string
    requires Finishes(calls)
  {
    Flatten(calls[..FirstStop(calls) + 1])
  }

  /**
   * CountLines: 1 plus the number of '\n' bytes delivered, however the
   * reader splits them into Read calls; on an error other than io.EOF the
   * count so far (including the failing call's bytes) comes back with it.
   */
  method CountLines(calls: seq<Chunk>) returns (count: int, err: Option<string>)
    requires Finishes(calls)
    requires forall i :: 0 <= i < |calls| ==> |calls[i].data| <= BufferSize
    ensures count == 1 + GoStrings.Occurrences(Delivered(calls), '\n')
    ensures calls[FirstStop(calls)].status.Eof? ==> err == None
    ensures calls[FirstStop(calls)].status.Failed? ==> err == Some(calls[FirstStop(calls)].status.message)
  {
    count := 1;
    var i := 0;
    while true
      invariant 0 <= i <= FirstStop(calls)
      invariant count == 1 + GoStrings.Occurrences(Flatten(calls[..i]), '\n')
      decreases |calls| - i
    {
      var c := calls[i];
      assert calls[..i + 1][..i] == calls[..i];
      GoStrings.OccurrencesAppend(Flatten(calls[..i]), c.data, '\n');
      count := count + GoStrings.Occurrences(c.data, '\n');
      match c.status
      case Eof =>
        return count, None;
      case Failed(message) =>
        return count, Some(message);
      case More =>
        i := i + 1;
    }
  }

  /** Contains: whether e is an element of s (a nil slice is the empty sequence). */
  method Contains(s: seq<string>, e: string) returns (found: bool)
    ensures found <==> e in s
  {
    for i := 0 to |s|
      invariant e !in s[..i]
    {
      if s[i] == e {
        return true;
      }
    }
    return false;
  }

  /** SplitOrNil: nil for the empty flag, otherwise strings.Split of it. */
  function SplitOrNil(s: string, sep: string): (r: Option<seq<string>>)
    requires |sep| > 0
    ensures r.None? <==> s == ""
    ensures r.Some? ==> |r.value| == GoStrings.Count(s, sep) + 1
    ensures r.Some? ==> GoStrings.Join(r.value, sep) == s
  {
    if s == "" then None
    else
      GoStrings.SplitLength(s, sep);
      GoStrings.JoinSplit(s, sep);
      Some(GoStrings.Split(s, sep))
  }
}
